/** The group merger of both deduplicators (`_merge_supplier_group`). A group of one is
    passed through; a larger group becomes one supplier named after its first member of
    highest confidence, with the mean confidence (rounded to two places by the server, exact
    in the older variant), the first non-empty source URL and the non-empty contexts joined
    with "; ". */
module Merging {
  import opened Wrappers
  import opened Text

  /** A supplier record as the deduplicator sees it, without the `normalized_name` it adds for
      grouping. A missing key is `None`. */
  datatype Supplier = Supplier(name: string, confidence: Option<real>,
                               sourceUrl: Option<string>, context: Option<string>)

  /** `supplier.get("confidence", 0)`. */
  function Confidence(s: Supplier): real {
    s.confidence.GetOr(0.0)
  }

  /** Python truthiness of an optional string: present and non-empty. */
  predicate Truthy(o: Option<string>) {
    o.Some? && o.value != ""
  }

  /** `max(group, key=confidence)`: the index of the first member of highest confidence. */
  function BestIndex(g: seq<Supplier>): (b: nat)
    requires |g| > 0
    ensures b < |g|
    ensures forall k :: 0 <= k < |g| ==> Confidence(g[k]) <= Confidence(g[b])
    ensures forall k :: 0 <= k < b ==> Confidence(g[k]) < Confidence(g[b])
  {
    if |g| == 1 then 0
    else
      var b := BestIndex(g[..|g| - 1]);
      if Confidence(g[|g| - 1]) > Confidence(g[b]) then |g| - 1 else b
  }

  function SourceField(s: Supplier): Option<string> { s.sourceUrl }

  function ContextField(s: Supplier): Option<string> { s.context }

  /** The truthy values of one field of the members, in member order: `all_sources` or
      `all_contexts` after the merge loop. */
  function Truthies(g: seq<Supplier>, field: Supplier -> Option<string>): seq<string> {
    if g == [] then []
    else
      Truthies(g[..|g| - 1], field)
      + (if Truthy(field(g[|g| - 1])) then [field(g[|g| - 1]).value] else [])
  }

  /** `sum(s.get("confidence", 0) for s in group)`. */
  function Sum(g: seq<Supplier>): real {
    if g == [] then 0.0 else Sum(g[..|g| - 1]) + Confidence(g[|g| - 1])
  }

  function Mean(g: seq<Supplier>): real
    requires |g| > 0
  {
    Sum(g) / |g| as real
  }

  /** Which merged confidence a deduplicator reports: the server's rounds the mean to two
      places, the older one keeps it exact. */
  datatype Rounding = RoundTwoPlaces | Exact

  /** Rounding to the nearest integer, ties to the even one, as Python's `round` does. */
  function RoundHalfEven(y: real): int {
    var f := y.Floor;
    var d := y - f as real;
    if d < 0.5 then f
    else if d > 0.5 then f + 1
    else if f % 2 == 0 then f
    else f + 1
  }

  /** `round(x, 2)` on exact reals. */
  function Round2(x: real): real {
    RoundHalfEven(x * 100.0) as real / 100.0
  }

  function MergedConfidence(g: seq<Supplier>, rounding: Rounding): real
    requires |g| > 0
  {
    if rounding == RoundTwoPlaces then Round2(Mean(g)) else Mean(g)
  }

  /** `_merge_supplier_group`. */
  function Merged(g: seq<Supplier>, rounding: Rounding): Supplier
    requires |g| > 0
  {
    if |g| == 1 then g[0]
    else
      var sources := Truthies(g, SourceField);
      var contexts := Truthies(g, ContextField);
      Supplier(g[BestIndex(g)].name, Some(MergedConfidence(g, rounding)),
               if sources != [] then Some(sources[0]) else None,
               if contexts != [] then Some(Join(contexts, "; ")) else None)
  }

  /** `_merge_supplier_group` with its loop over the members. */
  method MergeGroup(group: seq<Supplier>, rounding: Rounding) returns (merged: Supplier)
    requires |group| > 0
    ensures merged == Merged(group, rounding)
  {
    if |group| == 1 {
      return group[0];
    }
    var best := group[BestIndex(group)];
    var sources: seq<string> := [];
    var contexts: seq<string> := [];
    var j := 0;
    while j < |group|
      invariant j <= |group|
      invariant sources == Truthies(group[..j], SourceField)
      invariant contexts == Truthies(group[..j], ContextField)
    {
      assert group[..j + 1][..j] == group[..j];
      if Truthy(group[j].sourceUrl) {
        sources := sources + [group[j].sourceUrl.value];
      }
      if Truthy(group[j].context) {
        contexts := contexts + [group[j].context.value];
      }
      j := j + 1;
    }
    assert group[..|group|] == group;
    var average := Sum(group) / |group| as real;
    merged := Supplier(best.name,
                       Some(if rounding == RoundTwoPlaces then Round2(average) else average),
                       if |sources| > 0 then Some(sources[0]) else None,
                       if |contexts| > 0 then Some(Join(contexts, "; ")) else None);
  }

  // Properties of the merge rules.

  /** A group of one is returned unchanged. */
  lemma MergedSingleton(g: seq<Supplier>, rounding: Rounding)
    requires |g| == 1
    ensures Merged(g, rounding) == g[0]
  {
  }

  /** The merged name is that of the first member of highest confidence: whichever index has
      that property names the merged supplier. */
  lemma MergedName(g: seq<Supplier>, rounding: Rounding, b: nat)
    requires 1 < |g| && b < |g|
    requires forall k :: 0 <= k < |g| ==> Confidence(g[k]) <= Confidence(g[b])
    requires forall k :: 0 <= k < b ==> Confidence(g[k]) < Confidence(g[b])
    ensures Merged(g, rounding).name == g[b].name
  {
    var c := BestIndex(g);
    assert !(c < b) && !(b < c);
  }

  lemma {:induction false} TruthiesAppend(a: seq<Supplier>, b: seq<Supplier>, field: Supplier -> Option<string>)
    ensures Truthies(a + b, field) == Truthies(a, field) + Truthies(b, field)
    decreases |b|
  {
    if b == [] {
      assert a + b == a;
    } else {
      var b' := b[..|b| - 1];
      assert (a + b)[..|a + b| - 1] == a + b';
      TruthiesAppend(a, b', field);
    }
  }

  /** No value is collected exactly when no member has a non-empty one. */
  lemma {:induction false} TruthiesEmpty(g: seq<Supplier>, field: Supplier -> Option<string>)
    ensures Truthies(g, field) == [] <==> forall k :: 0 <= k < |g| ==> !Truthy(field(g[k]))
    ensures |Truthies(g, field)| <= |g|
  {
    if g != [] {
      var g' := g[..|g| - 1];
      TruthiesEmpty(g', field);
      assert forall k :: 0 <= k < |g'| ==> g'[k] == g[k];
    }
  }

  /** The first value collected is the first member's non-empty value. */
  lemma TruthiesFirst(g: seq<Supplier>, field: Supplier -> Option<string>, k: nat)
    requires k < |g| && Truthy(field(g[k]))
    requires forall i :: 0 <= i < k ==> !Truthy(field(g[i]))
    ensures Truthies(g, field) != [] && Truthies(g, field)[0] == field(g[k]).value
  {
    assert g == g[..k] + [g[k]] + g[k + 1..];
    TruthiesAppend(g[..k] + [g[k]], g[k + 1..], field);
    TruthiesAppend(g[..k], [g[k]], field);
    TruthiesEmpty(g[..k], field);
    assert Truthies([g[k]], field) == [field(g[k]).value] by {
      assert [g[k]][..0] == [];
    }
  }

  /** `source_url` of a merged group: the first member's non-empty URL, or `None` when no
      member has one. */
  lemma MergedSource(g: seq<Supplier>, rounding: Rounding)
    requires 1 < |g|
    ensures Merged(g, rounding).sourceUrl == None <==>
              forall k :: 0 <= k < |g| ==> !Truthy(g[k].sourceUrl)
    ensures forall k :: 0 <= k < |g| && Truthy(g[k].sourceUrl) &&
                        (forall i :: 0 <= i < k ==> !Truthy(g[i].sourceUrl)) ==>
              Merged(g, rounding).sourceUrl == g[k].sourceUrl
  {
    TruthiesEmpty(g, SourceField);
    forall k | 0 <= k < |g| && Truthy(g[k].sourceUrl) &&
               (forall i :: 0 <= i < k ==> !Truthy(g[i].sourceUrl))
      ensures Merged(g, rounding).sourceUrl == g[k].sourceUrl
    {
      TruthiesFirst(g, SourceField, k);
    }
  }

  /** `context` of a merged group is `None` exactly when no member has a non-empty one, and
      otherwise starts with the first member's non-empty context. */
  lemma MergedContext(g: seq<Supplier>, rounding: Rounding)
    requires 1 < |g|
    ensures Merged(g, rounding).context == None <==>
              forall k :: 0 <= k < |g| ==> !Truthy(g[k].context)
    ensures forall k :: 0 <= k < |g| && Truthy(g[k].context) &&
                        (forall i :: 0 <= i < k ==> !Truthy(g[i].context)) ==>
              Merged(g, rounding).context.Some? &&
              StartsWith(Merged(g, rounding).context.value, g[k].context.value)
  {
    TruthiesEmpty(g, ContextField);
    forall k | 0 <= k < |g| && Truthy(g[k].context) &&
               (forall i :: 0 <= i < k ==> !Truthy(g[i].context))
      ensures Merged(g, rounding).context.Some? &&
              StartsWith(Merged(g, rounding).context.value, g[k].context.value)
    {
      TruthiesFirst(g, ContextField, k);
      JoinStartsWith(Truthies(g, ContextField), "; ");
    }
  }

  lemma {:induction false} SumBounds(g: seq<Supplier>, lo: real, hi: real)
    requires forall k :: 0 <= k < |g| ==> lo <= Confidence(g[k]) <= hi
    ensures |g| as real * lo <= Sum(g) <= |g| as real * hi
  {
    if g != [] {
      var g' := g[..|g| - 1];
      assert forall k :: 0 <= k < |g'| ==> g'[k] == g[k];
      SumBounds(g', lo, hi);
      var last := Confidence(g[|g| - 1]);
      assert Sum(g) == Sum(g') + last;
      assert lo <= last <= hi;
      var n' := |g'| as real;
      assert |g| as real * lo == n' * lo + lo;
      assert |g| as real * hi == n' * hi + hi;
    } else {
      assert |g| as real * lo == 0.0 && |g| as real * hi == 0.0;
    }
  }

  /** The mean lies between any lower and upper bound of the members' confidences. */
  lemma MeanBounds(g: seq<Supplier>, lo: real, hi: real)
    requires |g| > 0
    requires forall k :: 0 <= k < |g| ==> lo <= Confidence(g[k]) <= hi
    ensures lo <= Mean(g) <= hi
  {
    SumBounds(g, lo, hi);
    var n := |g| as real;
    assert Mean(g) * n == Sum(g);
  }

  /** Rounding to two places moves a value by at most half a hundredth. */
  lemma Round2Close(x: real)
    ensures x - 0.005 <= Round2(x) <= x + 0.005
  {
    var y := x * 100.0;
    assert y - 0.5 <= RoundHalfEven(y) as real <= y + 0.5;
  }

  /** Rounding to two places keeps a value in [0, 1]. */
  lemma Round2Unit(x: real)
    requires 0.0 <= x <= 1.0
    ensures 0.0 <= Round2(x) <= 1.0
  {
    var y := x * 100.0;
    assert 0 <= y.Floor <= 100;
    assert y.Floor == 100 ==> y == 100.0;
    assert 0 <= RoundHalfEven(y) <= 100;
  }

  /** A value with at most two decimal places is left unchanged by rounding. */
  lemma Round2Hundredths(n: int)
    ensures Round2(n as real / 100.0) == n as real / 100.0
  {
    assert n as real / 100.0 * 100.0 == n as real;
    assert (n as real).Floor == n;
  }

  /** When every member's confidence lies in [0, 1], so does the merged one, whether rounded
      or exact; the rounded one is within half a hundredth of the mean. */
  lemma MergedConfidenceBounds(g: seq<Supplier>, rounding: Rounding)
    requires 1 < |g|
    requires forall k :: 0 <= k < |g| ==> 0.0 <= Confidence(g[k]) <= 1.0
    ensures Merged(g, rounding).confidence.Some?
    ensures 0.0 <= Confidence(Merged(g, rounding)) <= 1.0
    ensures rounding == Exact ==> Confidence(Merged(g, rounding)) == Mean(g)
    ensures Mean(g) - 0.005 <= Confidence(Merged(g, rounding)) <= Mean(g) + 0.005
  {
    MeanBounds(g, 0.0, 1.0);
    Round2Unit(Mean(g));
    Round2Close(Mean(g));
  }

  /** The two-member merge of the test suite: the higher-confidence name, the mean 0.85, the
      first URL and both contexts. The mean is exact here; Python's unrounded float mean of
      0.8 and 0.9 is 0.8500000000000001, which only the rounding variant turns into 0.85. */
  lemma MergeTestScenario(rounding: Rounding)
    ensures Merged([Supplier("ABC Corp", Some(0.8), Some("http://example1.com"), Some("Main supplier")),
                    Supplier("ABC Corporation", Some(0.9), Some("http://example2.com"), Some("Primary vendor"))],
                   rounding)
         == Supplier("ABC Corporation", Some(0.85), Some("http://example1.com"),
                     Some("Main supplier; Primary vendor"))
  {
    var g := [Supplier("ABC Corp", Some(0.8), Some("http://example1.com"), Some("Main supplier")),
              Supplier("ABC Corporation", Some(0.9), Some("http://example2.com"), Some("Primary vendor"))];
    assert g[..1] == [g[0]] && [g[0]][..0] == [];
    assert Truthies(g, SourceField) == ["http://example1.com", "http://example2.com"];
    assert Truthies(g, ContextField) == ["Main supplier", "Primary vendor"];
    assert Sum(g) == 1.7;
    assert Mean(g) == 85 as real / 100.0;
    Round2Hundredths(85);
    assert BestIndex(g) == 1;
    var contexts := ["Main supplier", "Primary vendor"];
    assert contexts[1..] == ["Primary vendor"];
    assert Join(contexts, "; ") == "Main supplier" + "; " + "Primary vendor";
    ContextsJoined();
  }

  /** The joined contexts spelled out; kept apart from the scenario, where the solver's
      string reasoning is costly in its larger context. */
  lemma ContextsJoined()
    ensures "Main supplier" + "; " + "Primary vendor" == "Main supplier; Primary vendor"
  {
  }
}
