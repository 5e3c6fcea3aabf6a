/**
 * Which baked lights go into the lighting constants' light slots, and the per-shadow-index
 * light counts: the reference definitions of StoreLightMappedLights_V1 and _V2 and their
 * properties.
 */
module LightBinning {
  import opened SceneLights

  /** The number of shadow-index groups of lightmap game version 2 (indices 0..3). */
  const SHADOW_GROUPS: nat := 4

  function Index(l: SceneLight): int
  {
    l.stationaryLightIndex
  }

  predicate SortedByIndex(s: seq<SceneLight>)
  {
    forall i, j :: 0 <= i < j < |s| ==> Index(s[i]) <= Index(s[j])
  }

  // ---------------------------------------------------------------------------------------
  // OrderBy(l => l.StationaryLightIndex): a stable sort

  /** Inserts x before the first element whose index is not smaller. */
  function Insert(x: SceneLight, s: seq<SceneLight>): (r: seq<SceneLight>)
    ensures multiset(r) == multiset(s) + multiset{x}
  {
    if |s| == 0 then [x]
    else if Index(x) <= Index(s[0]) then [x] + s
    else
      assert s == [s[0]] + s[1..];
      [s[0]] + Insert(x, s[1..])
  }

  lemma {:induction false} InsertSorted(x: SceneLight, s: seq<SceneLight>)
    requires SortedByIndex(s)
    ensures SortedByIndex(Insert(x, s))
  {
    if |s| > 0 && Index(x) > Index(s[0]) {
      var rest := Insert(x, s[1..]);
      InsertSorted(x, s[1..]);
      forall k | 0 <= k < |rest| ensures Index(s[0]) <= Index(rest[k]) {
        assert rest[k] in multiset(rest);
        assert rest[k] == x || rest[k] in multiset(s[1..]);
      }
    }
  }

  function SortByIndex(s: seq<SceneLight>): (r: seq<SceneLight>)
    ensures multiset(r) == multiset(s) && |r| == |s|
    ensures SortedByIndex(r)
  {
    if |s| == 0 then []
    else
      assert s == [s[0]] + s[1..];
      var rest := SortByIndex(s[1..]);
      InsertSorted(s[0], rest);
      Insert(s[0], rest)
  }

  /** The lights with index k, in order. */
  function WithIndex(s: seq<SceneLight>, k: int): seq<SceneLight>
  {
    if |s| == 0 then []
    else (if Index(s[0]) == k then [s[0]] else []) + WithIndex(s[1..], k)
  }

  lemma WithIndexCons(y: SceneLight, t: seq<SceneLight>, k: int)
    ensures WithIndex([y] + t, k) == (if Index(y) == k then [y] else []) + WithIndex(t, k)
  {
    assert ([y] + t)[0] == y && ([y] + t)[1..] == t;
  }

  lemma {:induction false} InsertStable(x: SceneLight, s: seq<SceneLight>, k: int)
    ensures WithIndex(Insert(x, s), k) == (if Index(x) == k then [x] else []) + WithIndex(s, k)
  {
    if |s| == 0 {
      WithIndexCons(x, [], k);
      assert [x] + [] == [x];
    } else if Index(x) <= Index(s[0]) {
      WithIndexCons(x, s, k);
    } else {
      InsertStable(x, s[1..], k);
      WithIndexCons(s[0], Insert(x, s[1..]), k);
      WithIndexCons(s[0], s[1..], k);
      assert s == [s[0]] + s[1..];
    }
  }

  /** OrderBy is stable: lights with equal index keep their order. */
  lemma {:induction false} SortStable(s: seq<SceneLight>, k: int)
    ensures WithIndex(SortByIndex(s), k) == WithIndex(s, k)
  {
    if |s| > 0 {
      SortStable(s[1..], k);
      InsertStable(s[0], SortByIndex(s[1..]), k);
    }
  }

  // ---------------------------------------------------------------------------------------
  // Where(...) and Take(...)

  predicate IsBaked(l: SceneLight)
  {
    Index(l) >= 0
  }

  predicate InShadowRange(l: SceneLight)
  {
    0 <= Index(l) < SHADOW_GROUPS
  }

  function Filter(s: seq<SceneLight>, keep: SceneLight -> bool): (r: seq<SceneLight>)
    ensures |r| <= |s|
    ensures forall k :: 0 <= k < |r| ==> keep(r[k])
    ensures multiset(r) <= multiset(s)
  {
    if |s| == 0 then []
    else
      assert s == [s[0]] + s[1..];
      (if keep(s[0]) then [s[0]] else []) + Filter(s[1..], keep)
  }

  lemma {:induction false} FilterAppend(a: seq<SceneLight>, b: seq<SceneLight>, keep: SceneLight -> bool)
    ensures Filter(a + b, keep) == Filter(a, keep) + Filter(b, keep)
  {
    if |a| > 0 {
      assert (a + b)[1..] == a[1..] + b;
      FilterAppend(a[1..], b, keep);
    } else {
      assert a + b == b;
    }
  }

  /** A sub-multiset of a sorted sequence, kept in order, is sorted. */
  lemma {:induction false} FilterSorted(s: seq<SceneLight>, keep: SceneLight -> bool)
    requires SortedByIndex(s)
    ensures SortedByIndex(Filter(s, keep))
  {
    if |s| > 0 {
      FilterSorted(s[1..], keep);
      var rest := Filter(s[1..], keep);
      forall y | y in rest ensures Index(s[0]) <= Index(y) {
        assert y in multiset(s[1..]);
      }
    }
  }

  function Take(s: seq<SceneLight>, n: nat): (r: seq<SceneLight>)
    ensures |r| <= n && |r| <= |s|
  {
    if n < |s| then s[..n] else s
  }

  // ---------------------------------------------------------------------------------------
  // StoreLightMappedLights_V1

  /**
   * The V1 binner over the baked lights in index order, with count lights already stored: it
   * stops at max lights and skips a light whose index is below the next free slot.
   */
  function BinV1(ls: seq<SceneLight>, count: nat, max: nat): seq<SceneLight>
    decreases |ls|
  {
    if |ls| == 0 || count >= max then []
    else if Index(ls[0]) < count then BinV1(ls[1..], count, max)
    else [ls[0]] + BinV1(ls[1..], count + 1, max)
  }

  /** The lights V1 writes to slots 0, 1, ...: the result of the binner over the sorted baked lights. */
  function StoredV1(lights: seq<SceneLight>, max: nat): seq<SceneLight>
  {
    BinV1(Filter(SortByIndex(lights), IsBaked), 0, max)
  }

  /** The binner stores at most max - count lights. */
  lemma {:induction false} BinV1Length(ls: seq<SceneLight>, count: nat, max: nat)
    requires count <= max
    ensures count + |BinV1(ls, count, max)| <= max
    decreases |ls|
  {
    if |ls| > 0 && count < max {
      if Index(ls[0]) < count {
        BinV1Length(ls[1..], count, max);
      } else {
        BinV1Length(ls[1..], count + 1, max);
      }
    }
  }

  /** The light in slot count + k has an index of at least count + k. */
  lemma {:induction false} BinV1Slots(ls: seq<SceneLight>, count: nat, max: nat)
    ensures var r := BinV1(ls, count, max);
      forall k :: 0 <= k < |r| ==> Index(r[k]) >= count + k
    decreases |ls|
  {
    if |ls| > 0 && count < max {
      if Index(ls[0]) < count {
        BinV1Slots(ls[1..], count, max);
        var r := BinV1(ls, count, max);
        assert r == BinV1(ls[1..], count, max);
        forall k | 0 <= k < |r| ensures Index(r[k]) >= count + k {
          assert r[k] == BinV1(ls[1..], count, max)[k];
        }
      } else {
        BinV1Slots(ls[1..], count + 1, max);
        var r := BinV1(ls, count, max);
        forall k | 1 <= k < |r| ensures Index(r[k]) >= count + k {
          assert r[k] == BinV1(ls[1..], count + 1, max)[k - 1];
        }
      }
    }
  }

  /** The binner keeps lights of its input, in input order. */
  lemma {:induction false} BinV1Subset(ls: seq<SceneLight>, count: nat, max: nat)
    ensures multiset(BinV1(ls, count, max)) <= multiset(ls)
    ensures SortedByIndex(ls) ==> SortedByIndex(BinV1(ls, count, max))
    decreases |ls|
  {
    if |ls| > 0 && count < max {
      assert ls == [ls[0]] + ls[1..];
      var next := if Index(ls[0]) < count then count else count + 1;
      BinV1Subset(ls[1..], next, max);
      var rest := BinV1(ls[1..], next, max);
      if SortedByIndex(ls) && Index(ls[0]) >= count {
        forall k | 0 <= k < |rest| ensures Index(ls[0]) <= Index(rest[k]) {
          assert rest[k] in multiset(ls[1..]);
        }
      }
    }
  }

  /** When every light's index is at least its slot, nothing is skipped: the first max lights are stored. */
  lemma {:induction false} BinV1Complete(ls: seq<SceneLight>, count: nat, max: nat)
    requires count <= max
    requires forall j :: 0 <= j < |ls| ==> Index(ls[j]) >= count + j
    ensures BinV1(ls, count, max) == Take(ls, max - count)
    decreases |ls|
  {
    if |ls| > 0 && count < max {
      assert Index(ls[0]) >= count;
      assert forall j :: 0 <= j < |ls[1..]| ==> Index(ls[1..][j]) >= count + 1 + j by {
        forall j | 0 <= j < |ls[1..]| ensures Index(ls[1..][j]) >= count + 1 + j {
          assert ls[1..][j] == ls[j + 1];
        }
      }
      BinV1Complete(ls[1..], count + 1, max);
      if max - count < |ls| {
        assert ls[..max - count] == [ls[0]] + ls[1..][..max - count - 1];
      } else {
        assert ls == [ls[0]] + ls[1..];
      }
    }
  }

  /** The V1 loop at position i with count lights stored: those are the first count of the result, the binner gives the rest. */
  predicate BinV1Progress(ordered: seq<SceneLight>, i: nat, count: nat, max: nat, stored: seq<SceneLight>)
  {
    i <= |ordered| && count <= |stored| && stored == stored[..count] + BinV1(ordered[i..], count, max)
  }

  lemma BinV1ProgressStep(ordered: seq<SceneLight>, i: nat, count: nat, max: nat, stored: seq<SceneLight>)
    requires BinV1Progress(ordered, i, count, max, stored) && i < |ordered| && count < max
    ensures Index(ordered[i]) < count ==> BinV1Progress(ordered, i + 1, count, max, stored)
    ensures Index(ordered[i]) >= count ==>
      count < |stored| && stored[count] == ordered[i] && BinV1Progress(ordered, i + 1, count + 1, max, stored)
  {
    assert ordered[i..][1..] == ordered[i + 1..];
    if Index(ordered[i]) >= count {
      var rest := BinV1(ordered[i + 1..], count + 1, max);
      assert stored == stored[..count] + [ordered[i]] + rest;
      assert stored[..count + 1] == stored[..count] + [ordered[i]];
    }
  }

  lemma BinV1ProgressDone(ordered: seq<SceneLight>, i: nat, count: nat, max: nat, stored: seq<SceneLight>)
    requires BinV1Progress(ordered, i, count, max, stored)
    requires i == |ordered| || count >= max
    ensures stored == stored[..count] && |stored| == count
  {
  }

  /**
   * V1 stores at most max lights, only baked ones from the input, in non-decreasing index
   * order, and the light in slot k has index at least k.
   */
  lemma StoredV1Properties(lights: seq<SceneLight>, max: nat)
    ensures var r := StoredV1(lights, max);
      && |r| <= max
      && (forall k :: 0 <= k < |r| ==> Index(r[k]) >= k)
      && multiset(r) <= multiset(lights)
      && SortedByIndex(r)
  {
    var baked := Filter(SortByIndex(lights), IsBaked);
    FilterSorted(SortByIndex(lights), IsBaked);
    BinV1Length(baked, 0, max);
    BinV1Slots(baked, 0, max);
    BinV1Subset(baked, 0, max);
  }

  // ---------------------------------------------------------------------------------------
  // StoreLightMappedLights_V2

  /** The lights V2 writes to slots 0, 1, ...: the first max lights of shadow index 0..3, by index. */
  function StoredV2(lights: seq<SceneLight>, max: nat): seq<SceneLight>
  {
    Take(Filter(SortByIndex(lights), InShadowRange), max)
  }

  /** How many stored lights have an index of at most s. */
  function CountUpTo(stored: seq<SceneLight>, s: int): (r: nat)
    ensures r <= |stored|
  {
    if |stored| == 0 then 0
    else CountUpTo(stored[..|stored| - 1], s) + if Index(stored[|stored| - 1]) <= s then 1 else 0
  }

  predicate Occurs(stored: seq<SceneLight>, s: int)
  {
    exists k :: 0 <= k < |stored| && Index(stored[k]) == s
  }

  /** Entry s of NumLightsBakedShadowIndex after V2: the count up to s for 0 and for every stored index. */
  function ShadowEntry(stored: seq<SceneLight>, s: nat, previous: int): int
  {
    if s == 0 || Occurs(stored, s) then CountUpTo(stored, s) else previous
  }

  function ShadowTableV2(stored: seq<SceneLight>, previous: seq<int>): (r: seq<int>)
    requires |previous| == SHADOW_GROUPS
    ensures |r| == SHADOW_GROUPS
  {
    seq(SHADOW_GROUPS, s requires 0 <= s < SHADOW_GROUPS => ShadowEntry(stored, s, previous[s]))
  }

  /** V2 stores at most max lights, each with shadow index 0..3, from the input, by index. */
  lemma StoredV2Properties(lights: seq<SceneLight>, max: nat)
    ensures var r := StoredV2(lights, max);
      && |r| <= max
      && (forall k :: 0 <= k < |r| ==> 0 <= Index(r[k]) < SHADOW_GROUPS)
      && multiset(r) <= multiset(lights)
      && SortedByIndex(r)
  {
    var f := Filter(SortByIndex(lights), InShadowRange);
    FilterSorted(SortByIndex(lights), InShadowRange);
    if max < |f| {
      assert f == f[..max] + f[max..];
      assert multiset(f[..max]) <= multiset(f);
    }
  }

  /** In a sorted list the lights with index at most s are exactly the first CountUpTo(s). */
  lemma {:induction false} CountUpToPrefix(stored: seq<SceneLight>, s: int)
    requires SortedByIndex(stored)
    ensures forall k :: 0 <= k < |stored| ==> (Index(stored[k]) <= s <==> k < CountUpTo(stored, s))
  {
    if |stored| > 0 {
      var init := stored[..|stored| - 1];
      assert SortedByIndex(init);
      CountUpToPrefix(init, s);
      if Index(stored[|stored| - 1]) > s {
        assert CountUpTo(stored, s) == CountUpTo(init, s);
      }
    }
  }

  lemma {:induction false} CountUpToAll(stored: seq<SceneLight>, s: int)
    requires forall k :: 0 <= k < |stored| ==> Index(stored[k]) <= s
    ensures CountUpTo(stored, s) == |stored|
  {
    if |stored| > 0 {
      CountUpToAll(stored[..|stored| - 1], s);
    }
  }

  /**
   * The table marks where each group ends: for an entry the table sets, the slots below it
   * hold exactly the stored lights whose index is at most that entry's index; the entry of
   * the last group is the total, and with nothing stored entry 0 is 0.
   */
  lemma ShadowTableGroups(stored: seq<SceneLight>, previous: seq<int>, s: nat)
    requires SortedByIndex(stored) && |previous| == SHADOW_GROUPS && s < SHADOW_GROUPS
    requires s == 0 || Occurs(stored, s)
    ensures forall k :: 0 <= k < |stored| ==> (Index(stored[k]) <= s <==> k < ShadowTableV2(stored, previous)[s])
  {
    CountUpToPrefix(stored, s);
  }

  lemma ShadowTableLastGroup(stored: seq<SceneLight>, previous: seq<int>)
    requires SortedByIndex(stored) && |previous| == SHADOW_GROUPS
    requires forall k :: 0 <= k < |stored| ==> 0 <= Index(stored[k]) < SHADOW_GROUPS
    ensures |stored| == 0 ==> ShadowTableV2(stored, previous)[0] == 0
    ensures |stored| > 0 ==> ShadowTableV2(stored, previous)[Index(stored[|stored| - 1])] == |stored|
  {
    if |stored| > 0 {
      var last := Index(stored[|stored| - 1]);
      assert Occurs(stored, last);
      CountUpToAll(stored, last);
    }
  }

  /** Entries of shadow indices that were not stored, other than 0, keep their value. */
  lemma ShadowTableUnchanged(stored: seq<SceneLight>, previous: seq<int>, s: nat)
    requires |previous| == SHADOW_GROUPS && 0 < s < SHADOW_GROUPS
    requires forall k :: 0 <= k < |stored| ==> Index(stored[k]) != s
    ensures ShadowTableV2(stored, previous)[s] == previous[s]
  {
  }
  // ---------------------------------------------------------------------------------------
  // The V2 loop, one light at a time

  /** The shadow index the loop is in: that of the last stored light, 0 before the first. */
  function LastIndex(stored: seq<SceneLight>): int
  {
    if |stored| == 0 then 0 else Index(stored[|stored| - 1])
  }

  lemma CountUpToSnoc(stored: seq<SceneLight>, l: SceneLight, s: int)
    ensures CountUpTo(stored + [l], s) == CountUpTo(stored, s) + if Index(l) <= s then 1 else 0
  {
    assert (stored + [l])[..|stored|] == stored;
  }

  lemma OccursSnoc(stored: seq<SceneLight>, l: SceneLight, s: int)
    ensures Occurs(stored + [l], s) <==> Occurs(stored, s) || Index(l) == s
  {
    if Occurs(stored, s) {
      var k :| 0 <= k < |stored| && Index(stored[k]) == s;
      assert (stored + [l])[k] == stored[k];
    }
    if Index(l) == s {
      assert (stored + [l])[|stored|] == l;
    }
    if Occurs(stored + [l], s) {
      var k :| 0 <= k < |stored + [l]| && Index((stored + [l])[k]) == s;
      if k < |stored| {
        assert stored[k] == (stored + [l])[k];
      }
    }
  }

  /**
   * The shadow-index table while the loop is at shadow index current: entries below current
   * are final, the entry of current and those above it are as before.
   */
  predicate TableSoFar(table: seq<int>, stored: seq<SceneLight>, current: nat, previous: seq<int>)
  {
    && |table| == SHADOW_GROUPS && |previous| == SHADOW_GROUPS && current < SHADOW_GROUPS
    && table[current] == previous[current]
    && (forall s: nat :: s < current ==> table[s] == ShadowEntry(stored, s, previous[s]))
    && (forall s: nat :: current < s < SHADOW_GROUPS ==> table[s] == previous[s])
  }

  /** The lights stored so far all belong to the group the loop is in, or to earlier ones. */
  predicate GroupedSoFar(stored: seq<SceneLight>, current: nat)
  {
    && current == LastIndex(stored)
    && forall k :: 0 <= k < |stored| ==> Index(stored[k]) <= current
  }

  lemma {:induction false} TableSoFarStore(table: seq<int>, stored: seq<SceneLight>, l: SceneLight, current: nat, previous: seq<int>)
    requires TableSoFar(table, stored, current, previous) && GroupedSoFar(stored, current)
    requires current <= Index(l) < SHADOW_GROUPS
    ensures var next := if Index(l) != current then table[current := |stored|] else table;
      TableSoFar(next, stored + [l], Index(l), previous) && GroupedSoFar(stored + [l], Index(l))
  {
    var g: nat := Index(l);
    var next := if g != current then table[current := |stored|] else table;
    var stored' := stored + [l];
    forall s: nat | s < g
      ensures next[s] == ShadowEntry(stored', s, previous[s])
    {
      CountUpToSnoc(stored, l, s);
      OccursSnoc(stored, l, s);
      if s == current {
        CountUpToAll(stored, current);
        assert current == 0 || Occurs(stored, current) by {
          if |stored| > 0 {
            assert Index(stored[|stored| - 1]) == current;
          }
        }
      }
    }
    forall k | 0 <= k < |stored'| ensures Index(stored'[k]) <= g {
      if k < |stored| {
        assert stored'[k] == stored[k];
      }
    }
  }

  lemma {:induction false} TableSoFarFinish(table: seq<int>, stored: seq<SceneLight>, current: nat, previous: seq<int>)
    requires TableSoFar(table, stored, current, previous) && GroupedSoFar(stored, current)
    ensures table[current := |stored|] == ShadowTableV2(stored, previous)
  {
    var final := table[current := |stored|];
    forall s: nat | s < SHADOW_GROUPS
      ensures final[s] == ShadowTableV2(stored, previous)[s]
    {
      if s == current {
        CountUpToAll(stored, current);
        if |stored| > 0 {
          assert Index(stored[|stored| - 1]) == current;
        }
      }
    }
  }

  /** Once max lights of the filtered prefix are stored, the rest of the list adds nothing. */
  lemma TakeFilterPrefix(sorted: seq<SceneLight>, i: nat, keep: SceneLight -> bool, max: nat)
    requires i <= |sorted|
    requires |Filter(sorted[..i], keep)| == max || i == |sorted|
    requires |Filter(sorted[..i], keep)| <= max
    ensures Take(Filter(sorted, keep), max) == Filter(sorted[..i], keep)
  {
    assert sorted == sorted[..i] + sorted[i..];
    FilterAppend(sorted[..i], sorted[i..], keep);
    if i == |sorted| {
      assert sorted[i..] == [];
    }
  }

  lemma FilterSnoc(prefix: seq<SceneLight>, l: SceneLight, keep: SceneLight -> bool)
    ensures Filter(prefix + [l], keep) == Filter(prefix, keep) + if keep(l) then [l] else []
  {
    FilterAppend(prefix, [l], keep);
    assert Filter([l], keep) == (if keep(l) then [l] else []) + Filter([], keep);
  }

  /** The filter over one more element of a sequence. */
  lemma FilterStep(s: seq<SceneLight>, i: nat, keep: SceneLight -> bool)
    requires i < |s|
    ensures Filter(s[..i + 1], keep) == Filter(s[..i], keep) + if keep(s[i]) then [s[i]] else []
  {
    assert s[..i + 1] == s[..i] + [s[i]];
    FilterSnoc(s[..i], s[i], keep);
  }
}
