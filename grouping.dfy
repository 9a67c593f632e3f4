/** The greedy grouping of both deduplicators (`_group_similar_suppliers` in
    server/app/utils/deduplication.py and in app/utils/deduplication.py, which agree). The
    suppliers are given by their normalised names `keys`; a group is a sequence of indices
    into `keys`. The fuzzy similarity is a parameter `sim`, so every property below holds
    whatever the similarity measure is. */
module Grouping {

  /** `fuzz.ratio(keys[seed], keys[j]) >= threshold`. */
  predicate Similar(keys: seq<string>, sim: (string, string) -> int, threshold: real,
                    seed: nat, j: nat)
    requires seed < |keys| && j < |keys|
  {
    sim(keys[seed], keys[j]) as real >= threshold
  }

  /** The members the inner loop has appended to the seed's group once it has looked at every
      index below `hi`: those not yet used whose similarity to the seed reaches the
      threshold, in index order. */
  function Absorbed(keys: seq<string>, sim: (string, string) -> int, threshold: real,
                    seed: nat, used: set<nat>, hi: nat): seq<nat>
    requires seed < |keys| && hi <= |keys|
  {
    if hi == 0 then []
    else
      Absorbed(keys, sim, threshold, seed, used, hi - 1)
      + (if hi - 1 !in used && Similar(keys, sim, threshold, seed, hi - 1) then [hi - 1] else [])
  }

  function Elems(s: seq<nat>): set<nat> {
    set x | x in s
  }

  /** The groups the outer loop still appends, given the used indices and the next index
      `i`: an unused index becomes a seed and takes every unused index similar to it. */
  function GroupsFrom(keys: seq<string>, sim: (string, string) -> int, threshold: real,
                      used: set<nat>, i: nat): seq<seq<nat>>
    requires i <= |keys|
    decreases |keys| - i
  {
    if i == |keys| then []
    else if i in used then GroupsFrom(keys, sim, threshold, used, i + 1)
    else
      var members := Absorbed(keys, sim, threshold, i, used + {i}, |keys|);
      [[i] + members] + GroupsFrom(keys, sim, threshold, used + {i} + Elems(members), i + 1)
  }

  /** `_group_similar_suppliers`: the groups, each a seed followed by its members. */
  function Groups(keys: seq<string>, sim: (string, string) -> int, threshold: real): seq<seq<nat>> {
    GroupsFrom(keys, sim, threshold, {}, 0)
  }

  /** `_group_similar_suppliers` as the loops it is written with. */
  method GroupSimilar(keys: seq<string>, sim: (string, string) -> int, threshold: real)
    returns (groups: seq<seq<nat>>)
    ensures groups == Groups(keys, sim, threshold)
  {
    groups := [];
    var used: set<nat> := {};
    var i := 0;
    while i < |keys|
      invariant i <= |keys|
      invariant groups + GroupsFrom(keys, sim, threshold, used, i) == Groups(keys, sim, threshold)
    {
      if i !in used {
        ghost var start := used;
        var group;
        group, used := Absorb(keys, sim, threshold, i, used + {i});
        assert GroupsFrom(keys, sim, threshold, start, i) == [group] + GroupsFrom(keys, sim, threshold, used, i + 1);
        groups := groups + [group];
      }
      i := i + 1;
    }
  }

  /** The inner loop of `_group_similar_suppliers`: `group` starts as the seed alone, and
      every index not in `used` whose similarity to the seed reaches the threshold is
      appended to it and added to `used`. */
  method Absorb(keys: seq<string>, sim: (string, string) -> int, threshold: real,
                seed: nat, used0: set<nat>)
    returns (group: seq<nat>, used: set<nat>)
    requires seed < |keys|
    ensures group == [seed] + Absorbed(keys, sim, threshold, seed, used0, |keys|)
    ensures used == used0 + Elems(Absorbed(keys, sim, threshold, seed, used0, |keys|))
  {
    group := [seed];
    used := used0;
    var j := 0;
    while j < |keys|
      invariant j <= |keys|
      invariant group == [seed] + Absorbed(keys, sim, threshold, seed, used0, j)
      invariant used == used0 + Elems(Absorbed(keys, sim, threshold, seed, used0, j))
    {
      AbsorbedBelow(keys, sim, threshold, seed, used0, j);
      assert j in used <==> j in used0;
      if j !in used {
        if sim(keys[seed], keys[j]) as real >= threshold {
          group := group + [j];
          used := used + {j};
        }
      }
      j := j + 1;
    }
  }

  /** Everything absorbed below `hi` lies below `hi`. */
  lemma {:induction false} AbsorbedBelow(keys: seq<string>, sim: (string, string) -> int,
                                         threshold: real, seed: nat, used: set<nat>, hi: nat)
    requires seed < |keys| && hi <= |keys|
    ensures forall x :: x in Absorbed(keys, sim, threshold, seed, used, hi) ==> x < hi
  {
    if hi > 0 {
      AbsorbedBelow(keys, sim, threshold, seed, used, hi - 1);
    }
  }

  predicate Increasing(s: seq<nat>) {
    forall a, b :: 0 <= a < b < |s| ==> s[a] < s[b]
  }

  /** The inner loop takes exactly the unused indices below `hi` similar to the seed, in
      increasing order. */
  lemma {:induction false} AbsorbedSpec(keys: seq<string>, sim: (string, string) -> int,
                                        threshold: real, seed: nat, used: set<nat>, hi: nat)
    requires seed < |keys| && hi <= |keys|
    ensures forall x: nat :: x in Absorbed(keys, sim, threshold, seed, used, hi) <==>
      x < hi && x !in used && Similar(keys, sim, threshold, seed, x)
    ensures Increasing(Absorbed(keys, sim, threshold, seed, used, hi))
  {
    if hi > 0 {
      AbsorbedSpec(keys, sim, threshold, seed, used, hi - 1);
      var prev := Absorbed(keys, sim, threshold, seed, used, hi - 1);
      assert forall a :: 0 <= a < |prev| ==> prev[a] < hi - 1 by {
        assert forall a :: 0 <= a < |prev| ==> prev[a] in prev;
      }
    }
  }

  /** All groups, one after the other. */
  function Flatten(groups: seq<seq<nat>>): seq<nat> {
    if groups == [] then [] else groups[0] + Flatten(groups[1..])
  }

  lemma {:induction false} FlattenAppend(g: seq<seq<nat>>, h: seq<seq<nat>>)
    ensures Flatten(g + h) == Flatten(g) + Flatten(h)
  {
    if g != [] {
      assert (g + h)[1..] == g[1..] + h;
      FlattenAppend(g[1..], h);
    } else {
      assert g + h == h;
    }
  }

  lemma {:induction false} FlattenHas(g: seq<seq<nat>>, a: nat, x: nat)
    requires a < |g| && x in g[a]
    ensures x in Flatten(g)
  {
    if a > 0 {
      FlattenHas(g[1..], a - 1, x);
    }
  }

  /** Every index below `i` is used: the state in which the outer loop reaches `i`. */
  predicate UsedBelow(used: set<nat>, i: nat) {
    forall k :: 0 <= k < i ==> k in used
  }

  /** Every group is non-empty, starts at or after `i` and keeps input order. */
  predicate WellShaped(g: seq<seq<nat>>, i: nat) {
    forall a :: 0 <= a < |g| ==> |g[a]| > 0 && i <= g[a][0] && Increasing(g[a])
  }

  lemma ShapedCons(group: seq<nat>, rest: seq<seq<nat>>, i: nat)
    requires |group| > 0 && group[0] == i && Increasing(group) && WellShaped(rest, i + 1)
    ensures WellShaped([group] + rest, i)
  {
    var g := [group] + rest;
    assert forall a :: 1 <= a < |g| ==> g[a] == rest[a - 1];
  }

  /** The groups still to come are non-empty, begin with their seed at or after `i`, and keep
      input order. */
  lemma {:induction false} GroupsFromShape(keys: seq<string>, sim: (string, string) -> int,
                                           threshold: real, used: set<nat>, i: nat)
    requires i <= |keys| && UsedBelow(used, i)
    ensures WellShaped(GroupsFrom(keys, sim, threshold, used, i), i)
    decreases |keys| - i
  {
    if i < |keys| {
      if i in used {
        GroupsFromShape(keys, sim, threshold, used, i + 1);
      } else {
        var members := Absorbed(keys, sim, threshold, i, used + {i}, |keys|);
        AbsorbedSpec(keys, sim, threshold, i, used + {i}, |keys|);
        var next := used + {i} + Elems(members);
        GroupsFromShape(keys, sim, threshold, next, i + 1);
        assert forall m :: 0 <= m < |members| ==> members[m] in members;
        SeedFirst(i, members);
        ShapedCons([i] + members, GroupsFrom(keys, sim, threshold, next, i + 1), i);
      }
    }
  }

  /** A seed followed by larger members in increasing order is in increasing order. */
  lemma SeedFirst(seed: nat, members: seq<nat>)
    requires Increasing(members) && forall m :: 0 <= m < |members| ==> seed < members[m]
    ensures Increasing([seed] + members)
  {
    var g := [seed] + members;
    assert forall m :: 0 <= m < |members| ==> g[m + 1] == members[m];
  }

  /** Every group is non-empty and the seeds increase from group to group. */
  predicate SeedsIncreasing(g: seq<seq<nat>>) {
    forall a, b :: 0 <= a < b < |g| ==> |g[a]| > 0 && |g[b]| > 0 && g[a][0] < g[b][0]
  }

  /** The seeds of the groups still to come increase, and there are no more groups than
      indices left. */
  lemma {:induction false} GroupsFromSeeds(keys: seq<string>, sim: (string, string) -> int,
                                           threshold: real, used: set<nat>, i: nat)
    requires i <= |keys| && UsedBelow(used, i)
    ensures |GroupsFrom(keys, sim, threshold, used, i)| <= |keys| - i
    ensures SeedsIncreasing(GroupsFrom(keys, sim, threshold, used, i))
    decreases |keys| - i
  {
    GroupsFromShape(keys, sim, threshold, used, i);
    if i < |keys| {
      if i in used {
        GroupsFromSeeds(keys, sim, threshold, used, i + 1);
      } else {
        var members := Absorbed(keys, sim, threshold, i, used + {i}, |keys|);
        var next := used + {i} + Elems(members);
        GroupsFromSeeds(keys, sim, threshold, next, i + 1);
        GroupsFromShape(keys, sim, threshold, next, i + 1);
      }
    }
  }

  /** The groups still to come hold exactly the unused indices. */
  lemma {:induction false} GroupsFromCover(keys: seq<string>, sim: (string, string) -> int,
                                           threshold: real, used: set<nat>, i: nat)
    requires i <= |keys| && UsedBelow(used, i)
    ensures forall x: nat :: x in Flatten(GroupsFrom(keys, sim, threshold, used, i)) <==>
      x < |keys| && x !in used
    decreases |keys| - i
  {
    if i < |keys| {
      if i in used {
        GroupsFromCover(keys, sim, threshold, used, i + 1);
      } else {
        var members := Absorbed(keys, sim, threshold, i, used + {i}, |keys|);
        AbsorbedSpec(keys, sim, threshold, i, used + {i}, |keys|);
        var next := used + {i} + Elems(members);
        GroupsFromCover(keys, sim, threshold, next, i + 1);
        var g := GroupsFrom(keys, sim, threshold, used, i);
        assert g[1..] == GroupsFrom(keys, sim, threshold, next, i + 1);
        assert Flatten(g) == ([i] + members) + Flatten(g[1..]);
      }
    }
  }

  /** No index is in two groups. */
  predicate Disjoint(g: seq<seq<nat>>) {
    forall a, b, x :: 0 <= a < b < |g| && x in g[a] ==> x !in g[b]
  }

  lemma DisjointCons(group: seq<nat>, rest: seq<seq<nat>>)
    requires Disjoint(rest) && forall x :: x in group ==> x !in Flatten(rest)
    ensures Disjoint([group] + rest)
  {
    var g := [group] + rest;
    forall a, b, x | 0 <= a < b < |g| && x in g[a]
      ensures x !in g[b]
    {
      assert g[b] == rest[b - 1];
      if a == 0 && x in rest[b - 1] {
        FlattenHas(rest, b - 1, x);
      }
    }
  }

  /** The groups still to come are pairwise disjoint. */
  lemma {:induction false} GroupsFromDisjoint(keys: seq<string>, sim: (string, string) -> int,
                                              threshold: real, used: set<nat>, i: nat)
    requires i <= |keys| && UsedBelow(used, i)
    ensures Disjoint(GroupsFrom(keys, sim, threshold, used, i))
    decreases |keys| - i
  {
    if i < |keys| {
      if i in used {
        GroupsFromDisjoint(keys, sim, threshold, used, i + 1);
      } else {
        var members := Absorbed(keys, sim, threshold, i, used + {i}, |keys|);
        var next := used + {i} + Elems(members);
        var rest := GroupsFrom(keys, sim, threshold, next, i + 1);
        assert GroupsFrom(keys, sim, threshold, used, i) == [[i] + members] + rest;
        GroupsFromDisjoint(keys, sim, threshold, next, i + 1);
        GroupsFromCover(keys, sim, threshold, next, i + 1);
        forall x | x in [i] + members
          ensures x !in Flatten(rest)
        {
          assert x == i || x in Elems(members);
        }
        DisjointCons([i] + members, rest);
      }
    }
  }

  /** Every member after the seed reaches the threshold against the seed, which is the only
      supplier it is compared with. */
  predicate SeedRelative(keys: seq<string>, sim: (string, string) -> int, threshold: real,
                         g: seq<seq<nat>>) {
    forall a :: 0 <= a < |g| ==> MembersSimilar(keys, sim, threshold, g[a])
  }

  predicate MembersSimilar(keys: seq<string>, sim: (string, string) -> int, threshold: real,
                           group: seq<nat>) {
    forall m :: 0 < m < |group| ==>
      group[0] < |keys| && group[m] < |keys| && Similar(keys, sim, threshold, group[0], group[m])
  }

  lemma {:induction false} GroupsFromSeedRelative(keys: seq<string>, sim: (string, string) -> int,
                                                  threshold: real, used: set<nat>, i: nat)
    requires i <= |keys|
    ensures SeedRelative(keys, sim, threshold, GroupsFrom(keys, sim, threshold, used, i))
    decreases |keys| - i
  {
    if i < |keys| {
      if i in used {
        GroupsFromSeedRelative(keys, sim, threshold, used, i + 1);
      } else {
        var members := Absorbed(keys, sim, threshold, i, used + {i}, |keys|);
        AbsorbedSpec(keys, sim, threshold, i, used + {i}, |keys|);
        var next := used + {i} + Elems(members);
        GroupsFromSeedRelative(keys, sim, threshold, next, i + 1);
        assert forall m :: 0 <= m < |members| ==> members[m] in members;
        SeedRelativeCons(keys, sim, threshold, i, members, GroupsFrom(keys, sim, threshold, next, i + 1));
      }
    }
  }

  lemma SeedRelativeCons(keys: seq<string>, sim: (string, string) -> int, threshold: real,
                         seed: nat, members: seq<nat>, rest: seq<seq<nat>>)
    requires seed < |keys| && SeedRelative(keys, sim, threshold, rest)
    requires forall m :: 0 <= m < |members| ==>
      members[m] < |keys| && Similar(keys, sim, threshold, seed, members[m])
    ensures SeedRelative(keys, sim, threshold, [[seed] + members] + rest)
  {
    var g := [[seed] + members] + rest;
    assert MembersSimilar(keys, sim, threshold, g[0]) by {
      assert g[0] == [seed] + members;
      assert forall m :: 0 < m < |g[0]| ==> g[0][m] == members[m - 1];
    }
    assert forall a :: 0 < a < |g| ==> g[a] == rest[a - 1];
  }

  /** Nothing is left out of a group: every index still unconsumed when the seed is taken
      (not used beforehand and in no earlier group) that reaches the threshold against the
      seed is one of its members. */
  predicate Maximal(keys: seq<string>, sim: (string, string) -> int, threshold: real,
                    used: set<nat>, g: seq<seq<nat>>) {
    forall a, k: nat :: 0 <= a < |g| && |g[a]| > 0 && g[a][0] < |keys| && k < |keys| && k !in used
      && k !in Flatten(g[..a]) && k != g[a][0] && Similar(keys, sim, threshold, g[a][0], k)
      ==> k in g[a]
  }

  lemma FlattenCons(group: seq<nat>, rest: seq<seq<nat>>, a: nat)
    requires 0 < a <= |rest| + 1
    ensures Flatten(([group] + rest)[..a]) == group + Flatten(rest[..a - 1])
  {
    var g := [group] + rest;
    assert g[..a] == [group] + rest[..a - 1];
    assert (g[..a])[1..] == rest[..a - 1];
  }

  lemma {:induction false} GroupsFromMaximal(keys: seq<string>, sim: (string, string) -> int,
                                             threshold: real, used: set<nat>, i: nat)
    requires i <= |keys|
    ensures Maximal(keys, sim, threshold, used, GroupsFrom(keys, sim, threshold, used, i))
    decreases |keys| - i
  {
    if i < |keys| {
      if i in used {
        GroupsFromMaximal(keys, sim, threshold, used, i + 1);
      } else {
        var members := Absorbed(keys, sim, threshold, i, used + {i}, |keys|);
        AbsorbedSpec(keys, sim, threshold, i, used + {i}, |keys|);
        var next := used + {i} + Elems(members);
        GroupsFromMaximal(keys, sim, threshold, next, i + 1);
        var rest := GroupsFrom(keys, sim, threshold, next, i + 1);
        var g := [[i] + members] + rest;
        forall a, k: nat | 0 <= a < |g| && |g[a]| > 0 && g[a][0] < |keys| && k < |keys| && k !in used
          && k !in Flatten(g[..a]) && k != g[a][0] && Similar(keys, sim, threshold, g[a][0], k)
          ensures k in g[a]
        {
          if a > 0 {
            FlattenCons([i] + members, rest, a);
            assert g[a] == rest[a - 1];
            assert k !in next;
          }
        }
      }
    }
  }

  /** Each seed is the least index not yet consumed: every smaller index was used beforehand
      or lies in an earlier group. */
  predicate SeedsMinimal(used: set<nat>, g: seq<seq<nat>>) {
    forall a, k: nat :: 0 <= a < |g| && |g[a]| > 0 && k < g[a][0] && k !in used ==> k in Flatten(g[..a])
  }

  lemma {:induction false} GroupsFromSeedsMinimal(keys: seq<string>, sim: (string, string) -> int,
                                                  threshold: real, used: set<nat>, i: nat)
    requires i <= |keys| && UsedBelow(used, i)
    ensures SeedsMinimal(used, GroupsFrom(keys, sim, threshold, used, i))
    decreases |keys| - i
  {
    if i < |keys| {
      if i in used {
        GroupsFromSeedsMinimal(keys, sim, threshold, used, i + 1);
      } else {
        var members := Absorbed(keys, sim, threshold, i, used + {i}, |keys|);
        var next := used + {i} + Elems(members);
        GroupsFromSeedsMinimal(keys, sim, threshold, next, i + 1);
        var rest := GroupsFrom(keys, sim, threshold, next, i + 1);
        var g := [[i] + members] + rest;
        forall a, k: nat | 0 <= a < |g| && |g[a]| > 0 && k < g[a][0] && k !in used
          ensures k in Flatten(g[..a])
        {
          if a > 0 {
            FlattenCons([i] + members, rest, a);
            assert g[a] == rest[a - 1];
            if k !in next {
              assert k in Flatten(rest[..a - 1]);
            }
          }
        }
      }
    }
  }

  /** Grouping partitions the input: every index is in exactly one group, and each group is a
      non-empty run of indices in input order headed by its seed. */
  lemma GroupsPartition(keys: seq<string>, sim: (string, string) -> int, threshold: real)
    ensures forall x: nat :: x in Flatten(Groups(keys, sim, threshold)) <==> x < |keys|
    ensures Disjoint(Groups(keys, sim, threshold))
    ensures WellShaped(Groups(keys, sim, threshold), 0)
  {
    GroupsFromCover(keys, sim, threshold, {}, 0);
    GroupsFromDisjoint(keys, sim, threshold, {}, 0);
    GroupsFromShape(keys, sim, threshold, {}, 0);
  }

  /** Groups come out in seed order, and there are at most as many groups as suppliers. */
  lemma GroupsInSeedOrder(keys: seq<string>, sim: (string, string) -> int, threshold: real)
    ensures |Groups(keys, sim, threshold)| <= |keys|
    ensures SeedsIncreasing(Groups(keys, sim, threshold))
  {
    GroupsFromSeeds(keys, sim, threshold, {}, 0);
  }

  /** Membership is decided against the seed alone, and no supplier still unconsumed when a
      seed is taken and similar enough to it is left out of the seed's group. */
  lemma GroupsSeedRelative(keys: seq<string>, sim: (string, string) -> int, threshold: real)
    ensures SeedRelative(keys, sim, threshold, Groups(keys, sim, threshold))
    ensures Maximal(keys, sim, threshold, {}, Groups(keys, sim, threshold))
  {
    GroupsFromSeedRelative(keys, sim, threshold, {}, 0);
    GroupsFromMaximal(keys, sim, threshold, {}, 0);
  }

  /** Each seed is the first supplier not consumed by an earlier group. */
  lemma GroupsSeeds(keys: seq<string>, sim: (string, string) -> int, threshold: real)
    ensures SeedsMinimal({}, Groups(keys, sim, threshold))
  {
    GroupsFromSeedsMinimal(keys, sim, threshold, {}, 0);
  }

  /** The grouping test: two suppliers normalised to "abc" and one to "xyz", with the
      similarities the fuzzy ratio gives them, form the groups {0, 1} and {2}. */
  lemma GroupsTestScenario(sim: (string, string) -> int, threshold: real)
    requires sim("abc", "abc") as real >= threshold && sim("abc", "xyz") as real < threshold
    ensures Groups(["abc", "abc", "xyz"], sim, threshold) == [[0, 1], [2]]
  {
    var keys := ["abc", "abc", "xyz"];
    assert keys[0] == "abc" && keys[1] == "abc" && keys[2] == "xyz";
    var used0: set<nat> := {0};
    assert Absorbed(keys, sim, threshold, 0, used0, 1) == [];
    assert Absorbed(keys, sim, threshold, 0, used0, 2) == [1];
    var m0 := Absorbed(keys, sim, threshold, 0, used0, 3);
    assert m0 == [1];
    var used1: set<nat> := used0 + Elems(m0);
    assert used1 == {0, 1};
    var used2: set<nat> := used1 + {2};
    assert Absorbed(keys, sim, threshold, 2, used2, 1) == [];
    assert Absorbed(keys, sim, threshold, 2, used2, 2) == [];
    var m2 := Absorbed(keys, sim, threshold, 2, used2, 3);
    assert m2 == [];
    var used3 := used2 + Elems(m2);
    assert GroupsFrom(keys, sim, threshold, used3, 3) == [];
    assert [2] + m2 == [2];
    assert GroupsFrom(keys, sim, threshold, used1, 2) == [[2]];
    assert GroupsFrom(keys, sim, threshold, used1, 1) == [[2]];
    assert {} + {0} == used0;
    assert [0] + m0 == [0, 1];
    assert GroupsFrom(keys, sim, threshold, {}, 0) == [[0, 1]] + GroupsFrom(keys, sim, threshold, used1, 1);
  }
}
