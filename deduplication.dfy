/** `SupplierDeduplicator.deduplicate_suppliers` of both deduplicators: normalise every name,
    group the suppliers by the similarity of their normalised names to a seed, and merge each
    group into one supplier. The two variants differ in their normaliser and in whether the
    merged confidence is rounded. */
module Deduplication {
  import opened Wrappers
  import NameNormalizer
  import LegacyNormalizer
  import opened Grouping
  import opened Merging
  import IgnoreList
  import NormalizerExamples

  /** A `SupplierDeduplicator`: the normaliser of its variant, whether its merged confidence
      is rounded, and its similarity threshold. */
  datatype Deduplicator = Deduplicator(normalize: string -> string, rounding: Rounding,
                                       threshold: real)

  /** `similarity_threshold`'s default. */
  const DefaultThreshold: real := 80.0

  /** The server's deduplicator (server/app/utils/deduplication.py). */
  function ServerDeduplicator(threshold: real): Deduplicator {
    Deduplicator(NameNormalizer.Normalize, RoundTwoPlaces, threshold)
  }

  /** The older deduplicator of the app directory (app/utils/deduplication.py). */
  function LegacyDeduplicator(threshold: real): Deduplicator {
    Deduplicator(LegacyNormalizer.Normalize, Exact, threshold)
  }

  /** The `normalized_name` of every supplier, in input order. */
  function Keys(d: Deduplicator, suppliers: seq<Supplier>): (keys: seq<string>)
    ensures |keys| == |suppliers|
  {
    seq(|suppliers|, k requires 0 <= k < |suppliers| => d.normalize(suppliers[k].name))
  }

  /** Every group is non-empty and holds indices below `n`. */
  predicate InRange(groups: seq<seq<nat>>, n: nat) {
    forall a :: 0 <= a < |groups| ==>
      |groups[a]| > 0 && forall m :: 0 <= m < |groups[a]| ==> groups[a][m] < n
  }

  lemma GroupsInRange(keys: seq<string>, sim: (string, string) -> int, threshold: real)
    ensures InRange(Groups(keys, sim, threshold), |keys|)
  {
    var g := Groups(keys, sim, threshold);
    GroupsPartition(keys, sim, threshold);
    forall a, m | 0 <= a < |g| && 0 <= m < |g[a]|
      ensures g[a][m] < |keys|
    {
      FlattenHas(g, a, g[a][m]);
    }
  }

  /** The suppliers a group of indices stands for, in group order. */
  function Members(suppliers: seq<Supplier>, group: seq<nat>): (members: seq<Supplier>)
    requires forall m :: 0 <= m < |group| ==> group[m] < |suppliers|
    ensures |members| == |group|
  {
    seq(|group|, m requires 0 <= m < |group| => suppliers[group[m]])
  }

  /** Each group merged, in group order. */
  function MergeAll(suppliers: seq<Supplier>, groups: seq<seq<nat>>, rounding: Rounding)
    : (merged: seq<Supplier>)
    requires InRange(groups, |suppliers|)
    ensures |merged| == |groups|
  {
    seq(|groups|, a requires 0 <= a < |groups| => Merged(Members(suppliers, groups[a]), rounding))
  }

  /** The groups `_group_similar_suppliers` forms over the normalised names. */
  function GroupsOf(d: Deduplicator, suppliers: seq<Supplier>, sim: (string, string) -> int)
    : (groups: seq<seq<nat>>)
    ensures InRange(groups, |suppliers|)
  {
    GroupsInRange(Keys(d, suppliers), sim, d.threshold);
    Groups(Keys(d, suppliers), sim, d.threshold)
  }

  /** What `deduplicate_suppliers` returns. */
  function Deduplicated(d: Deduplicator, suppliers: seq<Supplier>, sim: (string, string) -> int)
    : seq<Supplier>
  {
    if suppliers == [] then [] else MergeAll(suppliers, GroupsOf(d, suppliers, sim), d.rounding)
  }

  /** `deduplicate_suppliers`: the normalising loop, the grouping and the merging loop. */
  method Deduplicate(d: Deduplicator, suppliers: seq<Supplier>, sim: (string, string) -> int)
    returns (result: seq<Supplier>)
    ensures result == Deduplicated(d, suppliers, sim)
  {
    if |suppliers| == 0 {
      return [];
    }
    var keys: seq<string> := [];
    for k := 0 to |suppliers|
      invariant |keys| == k
      invariant forall i :: 0 <= i < k ==> keys[i] == d.normalize(suppliers[i].name)
    {
      keys := keys + [d.normalize(suppliers[k].name)];
    }
    assert keys == Keys(d, suppliers);
    var groups := GroupSimilar(keys, sim, d.threshold);
    assert groups == GroupsOf(d, suppliers, sim);
    result := MergeGroups(suppliers, groups, d.rounding);
  }

  /** The final loop of `deduplicate_suppliers`, merging the groups one by one. */
  method MergeGroups(suppliers: seq<Supplier>, groups: seq<seq<nat>>, rounding: Rounding)
    returns (result: seq<Supplier>)
    requires InRange(groups, |suppliers|)
    ensures result == MergeAll(suppliers, groups, rounding)
  {
    result := [];
    for a := 0 to |groups|
      invariant |result| == a
      invariant forall b :: 0 <= b < a ==> result[b] == Merged(Members(suppliers, groups[b]), rounding)
    {
      var merged := MergeGroup(Members(suppliers, groups[a]), rounding);
      result := result + [merged];
    }
  }

  // Properties of the whole pass.

  /** One supplier per group: never more than the input, and none only for no input. */
  lemma DeduplicatedLength(d: Deduplicator, suppliers: seq<Supplier>, sim: (string, string) -> int)
    ensures |Deduplicated(d, suppliers, sim)| <= |suppliers|
    ensures Deduplicated(d, suppliers, sim) == [] <==> suppliers == []
  {
    var keys := Keys(d, suppliers);
    GroupsInSeedOrder(keys, sim, d.threshold);
    if suppliers != [] {
      GroupsPartition(keys, sim, d.threshold);
      var x: nat := 0;
      assert x in Flatten(Groups(keys, sim, d.threshold));
    }
  }

  /** Every output supplier carries the name of an input supplier. */
  lemma DeduplicatedNames(d: Deduplicator, suppliers: seq<Supplier>, sim: (string, string) -> int)
    ensures forall a :: 0 <= a < |Deduplicated(d, suppliers, sim)| ==>
      exists i :: 0 <= i < |suppliers| && Deduplicated(d, suppliers, sim)[a].name == suppliers[i].name
  {
    if suppliers != [] {
      var groups := GroupsOf(d, suppliers, sim);
      var r := Deduplicated(d, suppliers, sim);
      forall a | 0 <= a < |r|
        ensures exists i :: 0 <= i < |suppliers| && r[a].name == suppliers[i].name
      {
        var g := Members(suppliers, groups[a]);
        assert r[a] == Merged(g, d.rounding);
        var b := if |g| == 1 then 0 else BestIndex(g);
        assert r[a].name == g[b].name;
        var i := groups[a][b];
        assert g[b] == suppliers[i];
        assert r[a].name == suppliers[i].name;
      }
    } else {
      assert Deduplicated(d, suppliers, sim) == [];
    }
  }

  /** Confidences in [0, 1] stay in [0, 1]. */
  lemma DeduplicatedConfidence(d: Deduplicator, suppliers: seq<Supplier>, sim: (string, string) -> int)
    requires forall i :: 0 <= i < |suppliers| ==> 0.0 <= Confidence(suppliers[i]) <= 1.0
    ensures forall a :: 0 <= a < |Deduplicated(d, suppliers, sim)| ==>
      0.0 <= Confidence(Deduplicated(d, suppliers, sim)[a]) <= 1.0
  {
    if suppliers != [] {
      var groups := GroupsOf(d, suppliers, sim);
      var r := Deduplicated(d, suppliers, sim);
      forall a | 0 <= a < |r|
        ensures 0.0 <= Confidence(r[a]) <= 1.0
      {
        var g := Members(suppliers, groups[a]);
        assert r[a] == Merged(g, d.rounding);
        assert forall m :: 0 <= m < |g| ==> g[m] == suppliers[groups[a][m]];
        if |g| > 1 {
          MergedConfidenceBounds(g, d.rounding);
        }
      }
    }
  }

  /** A seed absorbs nothing when no later name is similar to it. */
  lemma NoneAbsorbed(keys: seq<string>, sim: (string, string) -> int, threshold: real,
                     used: set<nat>, i: nat)
    requires i < |keys| && UsedBelow(used, i)
    requires forall q :: i < q < |keys| ==> !Similar(keys, sim, threshold, i, q)
    ensures Absorbed(keys, sim, threshold, i, used + {i}, |keys|) == []
  {
    var members := Absorbed(keys, sim, threshold, i, used + {i}, |keys|);
    AbsorbedSpec(keys, sim, threshold, i, used + {i}, |keys|);
    assert forall x: nat :: x !in members;
    HeadIn(members);
  }

  lemma HeadIn(s: seq<nat>)
    ensures s != [] ==> s[0] in s
  {
  }

  /** A seed that absorbs nothing forms a group of its own. */
  lemma GroupsFromLone(keys: seq<string>, sim: (string, string) -> int, threshold: real,
                       used: set<nat>, i: nat)
    requires i < |keys| && i !in used
    requires Absorbed(keys, sim, threshold, i, used + {i}, |keys|) == []
    ensures GroupsFrom(keys, sim, threshold, used, i) == [[i]] + GroupsFrom(keys, sim, threshold, used + {i}, i + 1)
  {
    var members: seq<nat> := [];
    assert Elems(members) == {};
    assert used + {i} + Elems(members) == used + {i};
    assert [i] + members == [i];
  }

  /** When no two normalised names meet the threshold, every supplier is its own group. */
  lemma {:induction false} GroupsFromSingletons(keys: seq<string>, sim: (string, string) -> int,
                                                threshold: real, used: set<nat>, i: nat)
    requires i <= |keys| && UsedBelow(used, i) && forall x :: x in used ==> x < i
    requires forall p, q :: 0 <= p < q < |keys| ==> !Similar(keys, sim, threshold, p, q)
    ensures |GroupsFrom(keys, sim, threshold, used, i)| == |keys| - i
    ensures forall a :: 0 <= a < |keys| - i ==> GroupsFrom(keys, sim, threshold, used, i)[a] == [i + a]
    decreases |keys| - i
  {
    if i < |keys| {
      var used' := used + {i};
      NoneAbsorbed(keys, sim, threshold, used, i);
      assert i !in used;
      GroupsFromLone(keys, sim, threshold, used, i);
      assert UsedBelow(used', i + 1);
      GroupsFromSingletons(keys, sim, threshold, used', i + 1);
      var rest := GroupsFrom(keys, sim, threshold, used', i + 1);
      var g := GroupsFrom(keys, sim, threshold, used, i);
      forall a | 0 <= a < |keys| - i
        ensures g[a] == [i + a]
      {
        if a > 0 {
          assert g[a] == rest[a - 1];
        }
      }
    }
  }

  /** With no similar pair of names (as in the test of two unrelated suppliers), the pass
      returns its input unchanged. */
  lemma DeduplicatedDistinct(d: Deduplicator, suppliers: seq<Supplier>, sim: (string, string) -> int)
    requires forall p, q :: 0 <= p < q < |suppliers| ==>
      sim(d.normalize(suppliers[p].name), d.normalize(suppliers[q].name)) as real < d.threshold
    ensures Deduplicated(d, suppliers, sim) == suppliers
  {
    if suppliers != [] {
      var keys := Keys(d, suppliers);
      GroupsFromSingletons(keys, sim, d.threshold, {}, 0);
      var groups := GroupsOf(d, suppliers, sim);
      var r := Deduplicated(d, suppliers, sim);
      forall a | 0 <= a < |r|
        ensures r[a] == suppliers[a]
      {
        assert groups[a] == [a];
        assert Members(suppliers, groups[a]) == [suppliers[a]];
      }
    }
  }

  /** The two "ABC Corp" records of the duplicate test merge into one, under either
      rounding. */
  lemma AbcGroupMerged(rounding: Rounding)
    ensures Merged([Supplier("ABC Corp", Some(0.8), Some("http://example1.com"), None),
                    Supplier("ABC Corp", Some(0.9), Some("http://example2.com"), None)], rounding)
         == Supplier("ABC Corp", Some(0.85), Some("http://example1.com"), None)
  {
    var g := [Supplier("ABC Corp", Some(0.8), Some("http://example1.com"), None),
              Supplier("ABC Corp", Some(0.9), Some("http://example2.com"), None)];
    assert g[..1] == [g[0]] && [g[0]][..0] == [];
    assert Truthies(g, SourceField) == ["http://example1.com", "http://example2.com"];
    assert Truthies(g, ContextField) == [];
    assert Sum(g) == 1.7;
    assert Mean(g) == 85 as real / 100.0;
    Round2Hundredths(85);
  }

  /** The duplicate test, for any deduplicator that normalises "ABC Corp" to "abc" and
      "XYZ Ltd" to "xyz" and a similarity that matches "abc" with itself but not with "xyz":
      the two "ABC Corp" records merge and "XYZ Ltd" stays alone. */
  lemma DuplicatesMerge(d: Deduplicator, sim: (string, string) -> int)
    requires d.normalize("ABC Corp") == "abc" && d.normalize("XYZ Ltd") == "xyz"
    requires sim("abc", "abc") as real >= d.threshold && sim("abc", "xyz") as real < d.threshold
    ensures Deduplicated(d,
              [Supplier("ABC Corp", Some(0.8), Some("http://example1.com"), None),
               Supplier("ABC Corp", Some(0.9), Some("http://example2.com"), None),
               Supplier("XYZ Ltd", Some(0.7), Some("http://example3.com"), None)], sim)
         == [Supplier("ABC Corp", Some(0.85), Some("http://example1.com"), None),
             Supplier("XYZ Ltd", Some(0.7), Some("http://example3.com"), None)]
  {
    var s := [Supplier("ABC Corp", Some(0.8), Some("http://example1.com"), None),
              Supplier("ABC Corp", Some(0.9), Some("http://example2.com"), None),
              Supplier("XYZ Ltd", Some(0.7), Some("http://example3.com"), None)];
    assert Keys(d, s) == ["abc", "abc", "xyz"] by {
      assert Keys(d, s)[0] == d.normalize("ABC Corp");
      assert Keys(d, s)[1] == d.normalize("ABC Corp");
      assert Keys(d, s)[2] == d.normalize("XYZ Ltd");
    }
    GroupsTestScenario(sim, d.threshold);
    assert GroupsOf(d, s, sim) == [[0, 1], [2]];
    MergeTwoGroups(s, d.rounding);
    AbcGroupMerged(d.rounding);
    MergedSingleton([s[2]], d.rounding);
  }

  /** Merging three suppliers grouped as the first two and the third. */
  lemma MergeTwoGroups(s: seq<Supplier>, rounding: Rounding)
    requires |s| == 3
    ensures InRange([[0, 1], [2]], |s|)
    ensures MergeAll(s, [[0, 1], [2]], rounding) == [Merged([s[0], s[1]], rounding), Merged([s[2]], rounding)]
  {
    var groups: seq<seq<nat>> := [[0, 1], [2]];
    assert Members(s, groups[0]) == [s[0], s[1]];
    assert Members(s, groups[1]) == [s[2]];
  }

  /** The server's deduplicator on the duplicate test. */
  lemma DuplicatesScenario(sim: (string, string) -> int)
    requires sim("abc", "abc") as real >= DefaultThreshold
    requires sim("abc", "xyz") as real < DefaultThreshold
    ensures Deduplicated(ServerDeduplicator(DefaultThreshold),
              [Supplier("ABC Corp", Some(0.8), Some("http://example1.com"), None),
               Supplier("ABC Corp", Some(0.9), Some("http://example2.com"), None),
               Supplier("XYZ Ltd", Some(0.7), Some("http://example3.com"), None)], sim)
         == [Supplier("ABC Corp", Some(0.85), Some("http://example1.com"), None),
             Supplier("XYZ Ltd", Some(0.7), Some("http://example3.com"), None)]
  {
    NormalizerExamples.ExampleAbcCorp();
    NormalizerExamples.ExampleXyzLtd();
    DuplicatesMerge(ServerDeduplicator(DefaultThreshold), sim);
  }

  // The ignore list is never consulted.

  /** The suppliers whose lower-cased name is not in the ignore set, in input order. */
  function Unignored(suppliers: seq<Supplier>, ignored: set<string>): seq<Supplier> {
    if suppliers == [] then []
    else
      var last := suppliers[|suppliers| - 1];
      Unignored(suppliers[..|suppliers| - 1], ignored)
      + (if IgnoreList.Ignored(ignored, last.name) then [] else [last])
  }

  /** No supplier left by the filter is ignored. */
  lemma {:induction false} UnignoredSpec(suppliers: seq<Supplier>, ignored: set<string>)
    ensures forall k :: 0 <= k < |Unignored(suppliers, ignored)| ==>
      !IgnoreList.Ignored(ignored, Unignored(suppliers, ignored)[k].name)
    decreases |suppliers|
  {
    if suppliers != [] {
      UnignoredSpec(suppliers[..|suppliers| - 1], ignored);
    }
  }

  /** The filter drops everything when everything is ignored. */
  lemma {:induction false} UnignoredAllIgnored(suppliers: seq<Supplier>, ignored: set<string>)
    requires forall i :: 0 <= i < |suppliers| ==> IgnoreList.Ignored(ignored, suppliers[i].name)
    ensures Unignored(suppliers, ignored) == []
    decreases |suppliers|
  {
    if suppliers != [] {
      var init := suppliers[..|suppliers| - 1];
      assert forall i :: 0 <= i < |init| ==> init[i] == suppliers[i];
      UnignoredAllIgnored(init, ignored);
    }
  }

  /** The filter keeps everything when nothing is ignored. */
  lemma {:induction false} UnignoredNoneIgnored(suppliers: seq<Supplier>, ignored: set<string>)
    requires forall i :: 0 <= i < |suppliers| ==> !IgnoreList.Ignored(ignored, suppliers[i].name)
    ensures Unignored(suppliers, ignored) == suppliers
    decreases |suppliers|
  {
    if suppliers != [] {
      var init := suppliers[..|suppliers| - 1];
      assert forall i :: 0 <= i < |init| ==> init[i] == suppliers[i];
      UnignoredNoneIgnored(init, ignored);
      assert suppliers == init + [suppliers[|suppliers| - 1]];
    }
  }

  /** As written, ignored suppliers survive: when every supplier is in the ignore set (as in
      the all-ignored test), the result is still not empty and names an ignored supplier. */
  lemma IgnoredSuppliersSurvive(d: Deduplicator, suppliers: seq<Supplier>, ignored: set<string>,
                                sim: (string, string) -> int)
    requires suppliers != []
    requires forall i :: 0 <= i < |suppliers| ==> IgnoreList.Ignored(ignored, suppliers[i].name)
    ensures Deduplicated(d, suppliers, sim) != []
    ensures IgnoreList.Ignored(ignored, Deduplicated(d, suppliers, sim)[0].name)
  {
    DeduplicatedLength(d, suppliers, sim);
    DeduplicatedNames(d, suppliers, sim);
  }

  /** The pass the ignore-list tests expect: ignored suppliers are dropped before
      deduplicating. */
  function DeduplicatedIgnoring(d: Deduplicator, suppliers: seq<Supplier>, ignored: set<string>,
                                sim: (string, string) -> int): seq<Supplier>
  {
    Deduplicated(d, Unignored(suppliers, ignored), sim)
  }

  method DeduplicateIgnoring(d: Deduplicator, suppliers: seq<Supplier>, ignored: set<string>,
                             sim: (string, string) -> int)
    returns (result: seq<Supplier>)
    ensures result == DeduplicatedIgnoring(d, suppliers, ignored, sim)
  {
    var kept: seq<Supplier> := [];
    for k := 0 to |suppliers|
      invariant kept == Unignored(suppliers[..k], ignored)
    {
      assert suppliers[..k + 1][..k] == suppliers[..k];
      if !IgnoreList.Ignored(ignored, suppliers[k].name) {
        kept := kept + [suppliers[k]];
      }
    }
    assert suppliers[..|suppliers|] == suppliers;
    result := Deduplicate(d, kept, sim);
  }

  /** With the filter, no output supplier is ignored; all ignored gives nothing; with
      nothing ignored it is the plain pass. */
  lemma IgnoringDropsIgnored(d: Deduplicator, suppliers: seq<Supplier>, ignored: set<string>,
                             sim: (string, string) -> int)
    ensures forall a :: 0 <= a < |DeduplicatedIgnoring(d, suppliers, ignored, sim)| ==>
      !IgnoreList.Ignored(ignored, DeduplicatedIgnoring(d, suppliers, ignored, sim)[a].name)
    ensures (forall i :: 0 <= i < |suppliers| ==> IgnoreList.Ignored(ignored, suppliers[i].name))
            ==> DeduplicatedIgnoring(d, suppliers, ignored, sim) == []
    ensures (forall i :: 0 <= i < |suppliers| ==> !IgnoreList.Ignored(ignored, suppliers[i].name))
            ==> DeduplicatedIgnoring(d, suppliers, ignored, sim) == Deduplicated(d, suppliers, sim)
  {
    var kept := Unignored(suppliers, ignored);
    UnignoredSpec(suppliers, ignored);
    DeduplicatedNames(d, kept, sim);
    if forall i :: 0 <= i < |suppliers| ==> IgnoreList.Ignored(ignored, suppliers[i].name) {
      UnignoredAllIgnored(suppliers, ignored);
    }
    if forall i :: 0 <= i < |suppliers| ==> !IgnoreList.Ignored(ignored, suppliers[i].name) {
      UnignoredNoneIgnored(suppliers, ignored);
    }
  }
}
