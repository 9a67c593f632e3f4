/** The offline supplier-list analysis: suppliers shared between supermarkets' lists, a
    keyword classification into ignore candidates and product suppliers, and the sorted
    candidate ignore list. A supermarket's list is a pair of its company name and the
    supplier names found for it; the dictionary of lists is a sequence in iteration order. */
module Analysis {
  import opened Text

  type SupplierData = seq<(string, seq<string>)>

  /** One supplier name met in one company's list. */
  datatype Occurrence = Occurrence(company: string, supplier: string)

  /** A supplier found in several lists, with the companies whose lists name it. */
  datatype Common = Common(name: string, locations: seq<string>)

  // ---------------------------------------------------------------------------------
  // Occurrences, counts and locations

  function Pairs(company: string, names: seq<string>): (r: seq<Occurrence>)
    ensures |r| == |names|
    ensures forall k :: 0 <= k < |names| ==> r[k] == Occurrence(company, names[k])
  {
    seq(|names|, k requires 0 <= k < |names| => Occurrence(company, names[k]))
  }

  /** Every occurrence, in the order the nested loops visit them. */
  function Flat(data: SupplierData): seq<Occurrence>
  {
    if data == [] then []
    else Flat(data[..|data| - 1]) + Pairs(data[|data| - 1].0, data[|data| - 1].1)
  }

  /** How often `name` occurs (the `Counter`). */
  function Count(occ: seq<Occurrence>, name: string): nat
  {
    if occ == [] then 0
    else Count(occ[..|occ| - 1], name) + (if occ[|occ| - 1].supplier == name then 1 else 0)
  }

  /** The companies of the occurrences of `name`, in visiting order (the `defaultdict(list)`). */
  function Locations(occ: seq<Occurrence>, name: string): seq<string>
  {
    if occ == [] then []
    else
      Locations(occ[..|occ| - 1], name)
      + (if occ[|occ| - 1].supplier == name then [occ[|occ| - 1].company] else [])
  }

  /** The distinct names in order of first occurrence: the `Counter`'s key order. */
  function FirstSeen(occ: seq<Occurrence>): seq<string>
  {
    if occ == [] then []
    else
      var f := FirstSeen(occ[..|occ| - 1]);
      if occ[|occ| - 1].supplier in f then f else f + [occ[|occ| - 1].supplier]
  }

  predicate Distinct<T(==)>(s: seq<T>) {
    forall i, j :: 0 <= i < j < |s| ==> s[i] != s[j]
  }

  /** A reference count: occurrences of `name` in each list, summed over the lists. */
  function CountAcross(data: SupplierData, name: string): nat
  {
    if data == [] then 0
    else CountAcross(data[..|data| - 1], name) + multiset(data[|data| - 1].1)[name]
  }

  /** A name's companies, `k` times over. */
  function Repeat(company: string, k: nat): (r: seq<string>)
    ensures |r| == k
    ensures forall i :: 0 <= i < k ==> r[i] == company
  {
    seq(k, _ => company)
  }

  /** Each occurrence adds one to its name's count, one company to its locations, and a
      new name at the end of the key order. */
  lemma Step(occ: seq<Occurrence>, o: Occurrence)
    ensures forall n :: Count(occ + [o], n) == Count(occ, n) + (if o.supplier == n then 1 else 0)
    ensures forall n ::
      Locations(occ + [o], n) == Locations(occ, n) + (if o.supplier == n then [o.company] else [])
    ensures FirstSeen(occ + [o]) ==
      if o.supplier in FirstSeen(occ) then FirstSeen(occ) else FirstSeen(occ) + [o.supplier]
  {
    assert (occ + [o])[..|occ|] == occ;
  }

  /** A name has as many locations as occurrences. */
  lemma {:induction false} LocationsCount(occ: seq<Occurrence>, name: string)
    ensures |Locations(occ, name)| == Count(occ, name)
    decreases |occ|
  {
    if occ != [] {
      LocationsCount(occ[..|occ| - 1], name);
    }
  }

  /** The key order lists each name that occurs, once. */
  lemma {:induction false} FirstSeenSpec(occ: seq<Occurrence>)
    ensures Distinct(FirstSeen(occ))
    ensures forall n :: n in FirstSeen(occ) <==> Count(occ, n) > 0
    decreases |occ|
  {
    if occ != [] {
      var p := occ[..|occ| - 1];
      FirstSeenSpec(p);
      assert occ == p + [occ[|occ| - 1]];
      Step(p, occ[|occ| - 1]);
    }
  }

  lemma {:induction false} CountConcat(a: seq<Occurrence>, b: seq<Occurrence>, name: string)
    ensures Count(a + b, name) == Count(a, name) + Count(b, name)
    ensures Locations(a + b, name) == Locations(a, name) + Locations(b, name)
    decreases |b|
  {
    if b == [] {
      assert a + b == a;
    } else {
      var q := b[..|b| - 1];
      CountConcat(a, q, name);
      assert (a + b)[..|a + b| - 1] == a + q;
    }
  }

  /** Within one list, a name counts once per repeat and its company is listed once per
      repeat. */
  lemma {:induction false} PairsCount(company: string, names: seq<string>, name: string)
    ensures Count(Pairs(company, names), name) == multiset(names)[name]
    ensures Locations(Pairs(company, names), name) == Repeat(company, multiset(names)[name])
    decreases |names|
  {
    if names != [] {
      var q := names[..|names| - 1];
      var last := names[|names| - 1];
      PairsCount(company, q, name);
      assert names == q + [last];
      assert Pairs(company, names)[..|names| - 1] == Pairs(company, q);
      assert multiset(names) == multiset(q) + multiset{last};
    }
  }

  /** The count of a name is the number of times it occurs in each list, summed: repeats
      within one list count. */
  lemma {:induction false} CountFlat(data: SupplierData, name: string)
    ensures Count(Flat(data), name) == CountAcross(data, name)
    decreases |data|
  {
    if data != [] {
      var p := data[..|data| - 1];
      var last := data[|data| - 1];
      CountFlat(p, name);
      CountConcat(Flat(p), Pairs(last.0, last.1), name);
      PairsCount(last.0, last.1, name);
    }
  }

  /** Appending a supermarket's list adds its company once for each time the list names
      the supplier, after all earlier companies. */
  lemma LocationsAppend(data: SupplierData, company: string, names: seq<string>, name: string)
    ensures Locations(Flat(data + [(company, names)]), name)
      == Locations(Flat(data), name) + Repeat(company, multiset(names)[name])
  {
    assert (data + [(company, names)])[..|data|] == data;
    CountConcat(Flat(data), Pairs(company, names), name);
    PairsCount(company, names, name);
  }

  // ---------------------------------------------------------------------------------
  // Grouping by count

  function ListAt(m: map<nat, seq<Common>>, c: nat): seq<Common> {
    if c in m then m[c] else []
  }

  /** The second loop over `names`: names occurring more than once are appended under
      their count. */
  function Grouped(occ: seq<Occurrence>, names: seq<string>): map<nat, seq<Common>>
  {
    if names == [] then map[]
    else
      var m := Grouped(occ, names[..|names| - 1]);
      var n := names[|names| - 1];
      var c := Count(occ, n);
      if c > 1 then m[c := ListAt(m, c) + [Common(n, Locations(occ, n))]] else m
  }

  /** What `find_common_suppliers` returns. */
  function CommonSuppliers(data: SupplierData): map<nat, seq<Common>> {
    Grouped(Flat(data), FirstSeen(Flat(data)))
  }

  /** Every entry sits under its own count, which exceeds one, and carries its locations;
      no count maps to an empty list. */
  lemma {:induction false} GroupedSound(occ: seq<Occurrence>, names: seq<string>)
    ensures forall c :: c in Grouped(occ, names) ==> c > 1 && Grouped(occ, names)[c] != []
    ensures forall c, k :: c in Grouped(occ, names) && 0 <= k < |Grouped(occ, names)[c]| ==>
      Grouped(occ, names)[c][k].name in names
      && Count(occ, Grouped(occ, names)[c][k].name) == c
      && Grouped(occ, names)[c][k].locations == Locations(occ, Grouped(occ, names)[c][k].name)
    decreases |names|
  {
    if names != [] {
      var q := names[..|names| - 1];
      GroupedSound(occ, q);
      assert forall x :: x in q ==> x in names;
    }
  }

  /** Every name occurring more than once is listed under its count. */
  lemma {:induction false} GroupedComplete(occ: seq<Occurrence>, names: seq<string>, n: string)
    requires n in names && Count(occ, n) > 1
    ensures Count(occ, n) in Grouped(occ, names)
    ensures exists k ::
      (0 <= k < |Grouped(occ, names)[Count(occ, n)]| && Grouped(occ, names)[Count(occ, n)][k].name == n)
    decreases |names|
  {
    var q := names[..|names| - 1];
    var last := names[|names| - 1];
    var c := Count(occ, n);
    var m := Grouped(occ, q);
    if n == last {
      var r := ListAt(m, c) + [Common(n, Locations(occ, n))];
      assert Grouped(occ, names)[c] == r;
      assert r[|r| - 1].name == n;
    } else {
      assert n in q;
      GroupedComplete(occ, q, n);
      var k :| 0 <= k < |m[c]| && m[c][k].name == n;
      var cl := Count(occ, last);
      if cl > 1 && cl == c {
        assert Grouped(occ, names)[c] == m[c] + [Common(last, Locations(occ, last))];
        assert Grouped(occ, names)[c][k] == m[c][k];
      }
    }
  }

  /** With distinct names, no name is listed twice under one count. */
  lemma {:induction false} GroupedOnce(occ: seq<Occurrence>, names: seq<string>)
    requires Distinct(names)
    ensures forall c, k1, k2 :: c in Grouped(occ, names) && 0 <= k1 < k2 < |Grouped(occ, names)[c]| ==>
      Grouped(occ, names)[c][k1].name != Grouped(occ, names)[c][k2].name
    decreases |names|
  {
    if names != [] {
      var q := names[..|names| - 1];
      var last := names[|names| - 1];
      assert Distinct(q);
      GroupedOnce(occ, q);
      GroupedSound(occ, q);
      assert last !in q;
    }
  }

  /** Each name under count `c` occurs exactly `c` times over all lists, repeats included,
      and has exactly `c` locations; only counts above one appear. */
  lemma CommonSuppliersSound(data: SupplierData)
    ensures forall c :: c in CommonSuppliers(data) ==> c > 1 && CommonSuppliers(data)[c] != []
    ensures forall c, k :: c in CommonSuppliers(data) && 0 <= k < |CommonSuppliers(data)[c]| ==>
      CountAcross(data, CommonSuppliers(data)[c][k].name) == c
      && CommonSuppliers(data)[c][k].locations == Locations(Flat(data), CommonSuppliers(data)[c][k].name)
      && |CommonSuppliers(data)[c][k].locations| == c
  {
    var occ := Flat(data);
    var r: map<nat, seq<Common>> := CommonSuppliers(data);
    GroupedSound(occ, FirstSeen(occ));
    forall c: nat, k: int | c in r && 0 <= k < |r[c]|
      ensures CountAcross(data, r[c][k].name) == c && |r[c][k].locations| == c
    {
      CountFlat(data, r[c][k].name);
      LocationsCount(occ, r[c][k].name);
    }
  }

  /** Every name occurring more than once over all lists appears, under its own count and
      only once there; since each entry sits under its own count, it appears nowhere else. */
  lemma CommonSuppliersComplete(data: SupplierData, n: string)
    requires CountAcross(data, n) > 1
    ensures CountAcross(data, n) in CommonSuppliers(data)
    ensures exists k ::
      (0 <= k < |CommonSuppliers(data)[CountAcross(data, n)]|
       && CommonSuppliers(data)[CountAcross(data, n)][k].name == n)
    ensures forall c, k1, k2 :: c in CommonSuppliers(data) && 0 <= k1 < k2 < |CommonSuppliers(data)[c]| ==>
      CommonSuppliers(data)[c][k1].name != CommonSuppliers(data)[c][k2].name
  {
    var occ := Flat(data);
    CountFlat(data, n);
    FirstSeenSpec(occ);
    GroupedComplete(occ, FirstSeen(occ), n);
    GroupedOnce(occ, FirstSeen(occ));
  }

  /** The loop state after visiting `occ`: the counter, the location lists and the
      counter's key order agree with the occurrences so far. */
  ghost predicate Tracks(occ: seq<Occurrence>, counts: map<string, nat>,
                         locations: map<string, seq<string>>, order: seq<string>)
  {
    && order == FirstSeen(occ)
    && (forall n :: n in counts <==> n in order)
    && (forall n :: n in locations <==> n in counts)
    && (forall n :: n in counts ==> counts[n] == Count(occ, n) && locations[n] == Locations(occ, n))
  }

  lemma TracksStep(occ: seq<Occurrence>, counts: map<string, nat>,
                   locations: map<string, seq<string>>, order: seq<string>, o: Occurrence)
    requires Tracks(occ, counts, locations, order)
    ensures Tracks(occ + [o],
                   counts[o.supplier := (if o.supplier in counts then counts[o.supplier] else 0) + 1],
                   locations[o.supplier := (if o.supplier in locations then locations[o.supplier] else []) + [o.company]],
                   if o.supplier in counts then order else order + [o.supplier])
  {
    var s := o.supplier;
    var occ' := occ + [o];
    var counts' := counts[s := (if s in counts then counts[s] else 0) + 1];
    var locations' := locations[s := (if s in locations then locations[s] else []) + [o.company]];
    var order' := if s in counts then order else order + [s];
    Step(occ, o);
    assert order' == FirstSeen(occ');
    forall n ensures n in counts' <==> n in order' {
    }
    forall n ensures n in locations' <==> n in counts' {
    }
    forall n | n in counts'
      ensures counts'[n] == Count(occ', n) && locations'[n] == Locations(occ', n)
    {
      if n == s {
        if s !in counts {
          FirstSeenSpec(occ);
          LocationsCount(occ, s);
        }
      }
    }
  }

  lemma PairsSnoc(company: string, suppliers: seq<string>, j: nat)
    requires j < |suppliers|
    ensures Pairs(company, suppliers[..j + 1]) == Pairs(company, suppliers[..j]) + [Occurrence(company, suppliers[j])]
  {
  }

  /** The inner counting loop of `find_common_suppliers`, over one company's list. */
  method TallyList(company: string, suppliers: seq<string>, counts0: map<string, nat>,
                   locations0: map<string, seq<string>>, order0: seq<string>, ghost seen0: seq<Occurrence>)
    returns (counts: map<string, nat>, locations: map<string, seq<string>>, order: seq<string>)
    requires Tracks(seen0, counts0, locations0, order0)
    ensures Tracks(seen0 + Pairs(company, suppliers), counts, locations, order)
  {
    counts, locations, order := counts0, locations0, order0;
    ghost var seen := seen0;
    var j := 0;
    while j < |suppliers|
      invariant 0 <= j <= |suppliers|
      invariant seen == seen0 + Pairs(company, suppliers[..j])
      invariant Tracks(seen, counts, locations, order)
    {
      var s := suppliers[j];
      TracksStep(seen, counts, locations, order, Occurrence(company, s));
      if s !in counts {
        order := order + [s];
      }
      counts := counts[s := (if s in counts then counts[s] else 0) + 1];
      locations := locations[s := (if s in locations then locations[s] else []) + [company]];
      PairsSnoc(company, suppliers, j);
      seen := seen + [Occurrence(company, s)];
      j := j + 1;
    }
    assert suppliers[..j] == suppliers;
  }

  /** The outer counting loop of `find_common_suppliers`. */
  method Tally(data: SupplierData)
    returns (counts: map<string, nat>, locations: map<string, seq<string>>, order: seq<string>)
    ensures Tracks(Flat(data), counts, locations, order)
  {
    counts := map[];
    locations := map[];
    order := [];
    var i := 0;
    while i < |data|
      invariant 0 <= i <= |data|
      invariant Tracks(Flat(data[..i]), counts, locations, order)
    {
      counts, locations, order := TallyList(data[i].0, data[i].1, counts, locations, order, Flat(data[..i]));
      assert data[..i + 1][..i] == data[..i];
      i := i + 1;
    }
    assert data[..i] == data;
  }

  /** `find_common_suppliers`. */
  method FindCommonSuppliers(data: SupplierData) returns (common: map<nat, seq<Common>>)
    ensures common == CommonSuppliers(data)
  {
    var counts, locations, order := Tally(data);
    ghost var seen := Flat(data);
    common := map[];
    var k := 0;
    while k < |order|
      invariant 0 <= k <= |order|
      invariant common == Grouped(seen, order[..k])
    {
      var n := order[k];
      assert n in order;
      var c := counts[n];
      if c > 1 {
        common := common[c := (if c in common then common[c] else []) + [Common(n, locations[n])]];
      }
      assert order[..k + 1][..k] == order[..k];
      k := k + 1;
    }
    assert order[..k] == order;
  }

  // ---------------------------------------------------------------------------------
  // Classification

  /** Words naming platforms, services or aggregators. */
  const IgnoreKeywords: seq<string> := [
    "commerce", "logistics", "supply", "chain", "edi", "platform", "solution",
    "partner", "service", "management", "system", "software", "technology",
    "manufacture", "network", "group", "company", "limited", "ltd", "corp",
    "supplier", "vendor", "provider", "consultancy", "audit", "finance",
    "warehouse", "distribution", "transport", "retail", "trading", "business",
    "enterprise", "digital", "cloud", "data", "analytics", "sustainability",
    "certification", "compliance", "regulatory", "standard", "framework"
  ]

  /** Known product brands, which are never ignore candidates. */
  const ProductBrands: seq<string> := [
    "coca", "cola", "unilever", "nestle", "kraft", "heinz", "kellogg",
    "general mills", "p&g", "procter", "gamble", "mars", "wrigley",
    "ferrero", "mondelez", "danone", "pepsico", "campbell", "conagra",
    "hershey", "j&j", "johnson", "kimberly", "clark", "colgate", "palmolive",
    "reckitt", "benckiser", "henkel", "loreal", "estee", "lauder",
    "avon", "mary kay", "amway", "herbalife", "nu skin", "tupperware"
  ]

  /** Generic business words. */
  const GenericTerms: seq<string> := [
    "supplier", "suppliers", "vendor", "vendors", "partner", "partners",
    "manufacturer", "manufacturers", "producer", "producers", "company",
    "companies", "business", "enterprise", "group", "limited", "ltd",
    "corporation", "corp", "inc", "llc", "plc", "co", "company"
  ]

  /** `any(w in s for w in words)`. */
  predicate ContainsAny(s: string, words: seq<string>) {
    exists k :: 0 <= k < |words| && Contains(s, words[k])
  }

  predicate IsProductBrand(name: string) { ContainsAny(Lower(name), ProductBrands) }

  predicate HasIgnoreKeyword(name: string) { ContainsAny(Lower(name), IgnoreKeywords) }

  predicate IsGeneric(name: string) { ContainsAny(Lower(name), GenericTerms) }

  /** The decision of the classification loop: a brand wins, then a keyword or generic
      word makes an ignore candidate, and anything else is a product supplier. */
  predicate IsIgnoreCandidate(name: string) {
    if IsProductBrand(name) then false
    else if HasIgnoreKeyword(name) || IsGeneric(name) then true
    else false
  }

  datatype Categories = Categories(ignoreCandidates: seq<Common>, productSuppliers: seq<Common>)

  /** What `categorize_suppliers` returns. */
  function Categorized(suppliers: seq<Common>): Categories
  {
    if suppliers == [] then Categories([], [])
    else
      var r := Categorized(suppliers[..|suppliers| - 1]);
      var s := suppliers[|suppliers| - 1];
      if IsIgnoreCandidate(s.name) then Categories(r.ignoreCandidates + [s], r.productSuppliers)
      else Categories(r.ignoreCandidates, r.productSuppliers + [s])
  }

  /** `categorize_suppliers`. */
  method CategorizeSuppliers(suppliers: seq<Common>) returns (categories: Categories)
    ensures categories == Categorized(suppliers)
  {
    var ignore: seq<Common> := [];
    var product: seq<Common> := [];
    for i := 0 to |suppliers|
      invariant Categorized(suppliers[..i]) == Categories(ignore, product)
    {
      var s := suppliers[i];
      assert suppliers[..i + 1][..i] == suppliers[..i];
      if IsProductBrand(s.name) {
        product := product + [s];
      } else if HasIgnoreKeyword(s.name) || IsGeneric(s.name) {
        ignore := ignore + [s];
      } else {
        product := product + [s];
      }
    }
    assert suppliers[..|suppliers|] == suppliers;
    categories := Categories(ignore, product);
  }

  /** Classifying a concatenation classifies the parts and concatenates the results: both
      lists keep the input order. */
  lemma {:induction false} CategorizedAppend(a: seq<Common>, b: seq<Common>)
    ensures Categorized(a + b).ignoreCandidates == Categorized(a).ignoreCandidates + Categorized(b).ignoreCandidates
    ensures Categorized(a + b).productSuppliers == Categorized(a).productSuppliers + Categorized(b).productSuppliers
    decreases |b|
  {
    if b == [] {
      assert a + b == a;
    } else {
      var q := b[..|b| - 1];
      CategorizedAppend(a, q);
      assert (a + b)[..|a + b| - 1] == a + q;
    }
  }

  /** The two lists partition the input: together they hold each supplier as often as the
      input does, each candidate and no product supplier passes `IsIgnoreCandidate`. */
  lemma {:induction false} CategorizedPartition(suppliers: seq<Common>)
    ensures multiset(Categorized(suppliers).ignoreCandidates) + multiset(Categorized(suppliers).productSuppliers)
      == multiset(suppliers)
    ensures forall x :: x in Categorized(suppliers).ignoreCandidates ==> IsIgnoreCandidate(x.name)
    ensures forall x :: x in Categorized(suppliers).productSuppliers ==> !IsIgnoreCandidate(x.name)
    decreases |suppliers|
  {
    if suppliers != [] {
      var q := suppliers[..|suppliers| - 1];
      CategorizedPartition(q);
      assert suppliers == q + [suppliers[|suppliers| - 1]];
    }
  }

  /** Where an input supplier lands. */
  lemma CategorizedMember(suppliers: seq<Common>, x: Common)
    requires x in suppliers
    ensures x in Categorized(suppliers).ignoreCandidates <==> IsIgnoreCandidate(x.name)
    ensures x in Categorized(suppliers).productSuppliers <==> !IsIgnoreCandidate(x.name)
  {
    CategorizedPartition(suppliers);
    var r := Categorized(suppliers);
    assert x in multiset(r.ignoreCandidates) + multiset(r.productSuppliers);
  }

  /** A brand match wins over keyword and generic matches. */
  lemma BrandWins(suppliers: seq<Common>, x: Common)
    requires x in suppliers && IsProductBrand(x.name)
    ensures x in Categorized(suppliers).productSuppliers
    ensures x !in Categorized(suppliers).ignoreCandidates
  {
    CategorizedMember(suppliers, x);
  }

  /** A supplier matching no word of any list is a product supplier. */
  lemma UnmatchedIsProduct(suppliers: seq<Common>, x: Common)
    requires x in suppliers
    requires !IsProductBrand(x.name) && !HasIgnoreKeyword(x.name) && !IsGeneric(x.name)
    ensures x in Categorized(suppliers).productSuppliers
    ensures x !in Categorized(suppliers).ignoreCandidates
  {
    CategorizedMember(suppliers, x);
  }

  /** A supplier with a keyword or generic word and no brand is an ignore candidate. */
  lemma KeywordIsCandidate(suppliers: seq<Common>, x: Common)
    requires x in suppliers && !IsProductBrand(x.name)
    requires HasIgnoreKeyword(x.name) || IsGeneric(x.name)
    ensures x in Categorized(suppliers).ignoreCandidates
    ensures x !in Categorized(suppliers).productSuppliers
  {
    CategorizedMember(suppliers, x);
  }

  // ---------------------------------------------------------------------------------
  // The sorted candidate ignore list

  /** Python's string order: code point by code point, a proper prefix first. */
  predicate LessEq(a: string, b: string)
    decreases |a|
  {
    a == [] || (b != [] && (a[0] < b[0] || (a[0] == b[0] && LessEq(a[1..], b[1..]))))
  }

  lemma {:induction false} LessEqTotal(a: string, b: string)
    ensures LessEq(a, b) || LessEq(b, a)
    decreases |a|
  {
    if a != [] && b != [] && a[0] == b[0] {
      LessEqTotal(a[1..], b[1..]);
    }
  }

  lemma {:induction false} LessEqReflexive(a: string)
    ensures LessEq(a, a)
    decreases |a|
  {
    if a != [] {
      LessEqReflexive(a[1..]);
    }
  }

  lemma {:induction false} LessEqTransitive(a: string, b: string, c: string)
    requires LessEq(a, b) && LessEq(b, c)
    ensures LessEq(a, c)
    decreases |a|
  {
    if a != [] && a[0] == b[0] && b[0] == c[0] {
      LessEqTransitive(a[1..], b[1..], c[1..]);
    }
  }

  lemma {:induction false} LessEqAntisymmetric(a: string, b: string)
    requires LessEq(a, b) && LessEq(b, a)
    ensures a == b
    decreases |a|
  {
    if a != [] {
      LessEqAntisymmetric(a[1..], b[1..]);
      assert a == [a[0]] + a[1..] && b == [b[0]] + b[1..];
    }
  }

  predicate Sorted(s: seq<string>) {
    forall i, j :: 0 <= i < j < |s| ==> LessEq(s[i], s[j])
  }

  /** Insertion of one name into a list, before the first name it does not follow. */
  function Insert(x: string, s: seq<string>): (r: seq<string>)
    ensures |r| == |s| + 1
  {
    if s == [] then [x]
    else if LessEq(x, s[0]) then [x] + s
    else [s[0]] + Insert(x, s[1..])
  }

  /** Insertion adds the name once and loses nothing. */
  lemma {:induction false} InsertPermutes(x: string, s: seq<string>)
    ensures multiset(Insert(x, s)) == multiset(s) + multiset{x}
    decreases |s|
  {
    if s != [] && !LessEq(x, s[0]) {
      InsertPermutes(x, s[1..]);
      assert s == [s[0]] + s[1..];
    }
  }

  /** A name that precedes every name of a sorted list may go in front of it. */
  lemma ConsSorted(h: string, t: seq<string>)
    requires Sorted(t)
    requires forall y :: y in t ==> LessEq(h, y)
    ensures Sorted([h] + t)
  {
    var r := [h] + t;
    forall i, j | 0 <= i < j < |r|
      ensures LessEq(r[i], r[j])
    {
      assert r[j] == t[j - 1];
      if i > 0 {
        assert r[i] == t[i - 1];
      }
    }
  }

  /** Insertion into a sorted list keeps it sorted. */
  lemma {:induction false} InsertSorted(x: string, s: seq<string>)
    requires Sorted(s)
    ensures Sorted(Insert(x, s))
    decreases |s|
  {
    if s == [] {
      assert Insert(x, s) == [x];
    } else if LessEq(x, s[0]) {
      forall y | y in s
        ensures LessEq(x, y)
      {
        var j :| 0 <= j < |s| && s[j] == y;
        if j > 0 {
          LessEqTransitive(x, s[0], s[j]);
        }
      }
      ConsSorted(x, s);
    } else {
      LessEqTotal(x, s[0]);
      var t := s[1..];
      assert forall k :: 0 <= k < |t| ==> t[k] == s[k + 1];
      InsertSorted(x, t);
      InsertPermutes(x, t);
      var rest := Insert(x, t);
      forall y | y in rest
        ensures LessEq(s[0], y)
      {
        assert y in multiset(rest);
        if y != x {
          assert y in multiset(t);
          var k :| 0 <= k < |t| && t[k] == y;
        }
      }
      ConsSorted(s[0], rest);
    }
  }

  /** `sorted(names)`, by inserting each name into the sorted rest. */
  function Sort(s: seq<string>): (r: seq<string>)
    ensures |r| == |s|
  {
    if s == [] then [] else Insert(s[0], Sort(s[1..]))
  }

  /** Sorting yields a sorted permutation. */
  lemma {:induction false} SortSpec(s: seq<string>)
    ensures Sorted(Sort(s))
    ensures multiset(Sort(s)) == multiset(s)
    decreases |s|
  {
    if s != [] {
      SortSpec(s[1..]);
      InsertSorted(s[0], Sort(s[1..]));
      InsertPermutes(s[0], Sort(s[1..]));
      assert s == [s[0]] + s[1..];
    }
  }

  /** The first element of a sorted list comes first of all. */
  lemma SortedFirstLeast(a: seq<string>, x: string)
    requires Sorted(a) && x in a
    ensures LessEq(a[0], x)
  {
    var i :| 0 <= i < |a| && a[i] == x;
    if i == 0 {
      LessEqReflexive(x);
    }
  }

  lemma MultisetTail(a: seq<string>)
    requires a != []
    ensures multiset(a[1..]) == multiset(a) - multiset{a[0]}
  {
    assert a == [a[0]] + a[1..];
  }

  /** A sorted permutation is unique: any two sorted arrangements of the same names agree. */
  lemma {:induction false} SortedUnique(a: seq<string>, b: seq<string>)
    requires Sorted(a) && Sorted(b) && multiset(a) == multiset(b)
    ensures a == b
    decreases |a|
  {
    assert |multiset(a)| == |a| && |multiset(b)| == |b|;
    if a != [] {
      SortedSameHead(a, b);
      MultisetTail(a);
      MultisetTail(b);
      SortedUnique(a[1..], b[1..]);
      assert a == [a[0]] + a[1..] && b == [b[0]] + b[1..];
    }
  }

  /** Two sorted lists with the same names start with the same name. */
  lemma SortedSameHead(a: seq<string>, b: seq<string>)
    requires Sorted(a) && Sorted(b) && multiset(a) == multiset(b) && a != []
    ensures b != [] && a[0] == b[0]
  {
    assert a[0] in multiset(b);
    assert b != [];
    assert b[0] in multiset(a);
    SortedFirstLeast(b, a[0]);
    SortedFirstLeast(a, b[0]);
    LessEqAntisymmetric(a[0], b[0]);
  }

  function Names(cs: seq<Common>): (r: seq<string>)
    ensures |r| == |cs|
    ensures forall i :: 0 <= i < |cs| ==> r[i] == cs[i].name
  {
    seq(|cs|, i requires 0 <= i < |cs| => cs[i].name)
  }

  /** `generate_ignore_list`: the candidates' names, sorted. */
  method GenerateIgnoreList(categories: Categories) returns (ignoreList: seq<string>)
    ensures Sorted(ignoreList)
    ensures multiset(ignoreList) == multiset(Names(categories.ignoreCandidates))
  {
    var names: seq<string> := [];
    var candidates := categories.ignoreCandidates;
    for i := 0 to |candidates|
      invariant names == Names(candidates[..i])
    {
      names := names + [candidates[i].name];
    }
    assert candidates[..|candidates|] == candidates;
    ignoreList := Sort(names);
    SortSpec(names);
  }

  /** The list holds exactly the ignore candidates' names. */
  lemma IgnoreListNames(categories: Categories, ignoreList: seq<string>, name: string)
    requires multiset(ignoreList) == multiset(Names(categories.ignoreCandidates))
    ensures name in ignoreList <==> exists x :: x in categories.ignoreCandidates && x.name == name
  {
    var cs := categories.ignoreCandidates;
    assert name in ignoreList <==> name in multiset(Names(cs));
    if name in Names(cs) {
      var i :| 0 <= i < |cs| && Names(cs)[i] == name;
      assert cs[i] in cs;
    }
  }
}
