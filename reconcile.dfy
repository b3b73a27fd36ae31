/** internal/processor/processor.go, the list comparison of reconciliation:
    the entries added and removed between the before and the after resource
    list (diffEntries), and the test whether the entries kept appear in a
    different order (orderChanged). */
module Reconcile {
  import opened Utils

  /** A Go map read with a default of zero. */
  function MapCount(m: map<string, int>, x: string): int {
    if x in m then m[x] else 0
  }

  // ---------------------------------------------------------------------
  // diffEntries (processor.go:289-315)

  /** The entries of `after` that find no unconsumed copy in `avail`, scanning
      `after` front to back and consuming one copy per match. */
  function AddedFrom(after: seq<string>, avail: multiset<string>): seq<string> {
    if after == [] then []
    else if avail[after[0]] > 0 then AddedFrom(after[1..], avail - multiset{after[0]})
    else [after[0]] + AddedFrom(after[1..], avail)
  }

  /** The `added` list of diffEntries, in the order of `after`. */
  function Added(before: seq<string>, after: seq<string>): seq<string> {
    AddedFrom(after, multiset(before))
  }

  lemma AddedFromStep(after: seq<string>, j: nat, avail: multiset<string>)
    requires j < |after|
    ensures AddedFrom(after[j..], avail) ==
      if avail[after[j]] > 0 then AddedFrom(after[j + 1..], avail - multiset{after[j]})
      else [after[j]] + AddedFrom(after[j + 1..], avail)
  {
    assert after[j..][0] == after[j] && after[j..][1..] == after[j + 1..];
  }

  /** `counts` holds the multiset `m`: absent keys stand for zero and no
      stored count is zero. */
  ghost predicate Represents(counts: map<string, int>, m: multiset<string>) {
    (forall x :: MapCount(counts, x) == m[x]) && (forall x :: x in counts ==> counts[x] > 0)
  }

  /** diffEntries: `added` in the order of `after`, `removed` as a multiset
      (its order comes from map iteration). */
  method DiffEntries(before: seq<string>, after: seq<string>) returns (added: seq<string>, removed: seq<string>)
    ensures added == Added(before, after)
    ensures multiset(removed) == multiset(before) - multiset(after)
  {
    var counts := CountEntries(before);
    counts, added := ConsumeEntries(counts, before, after);
    removed := DrainCounts(counts, multiset(before) - multiset(after));
  }

  /** The first loop of diffEntries (processor.go:290-293). */
  method CountEntries(entries: seq<string>) returns (counts: map<string, int>)
    ensures Represents(counts, multiset(entries))
  {
    counts := map[];
    for i := 0 to |entries|
      invariant Represents(counts, multiset(entries[..i]))
    {
      assert entries[..i + 1] == entries[..i] + [entries[i]];
      counts := counts[entries[i] := MapCount(counts, entries[i]) + 1];
    }
    assert entries[..|entries|] == entries;
  }

  /** The second loop of diffEntries (processor.go:295-305): each entry of
      `after` consumes a copy when one is left and is added otherwise. */
  method ConsumeEntries(counts0: map<string, int>, before: seq<string>, after: seq<string>)
    returns (counts: map<string, int>, added: seq<string>)
    requires Represents(counts0, multiset(before))
    ensures Represents(counts, multiset(before) - multiset(after))
    ensures added == Added(before, after)
  {
    counts := counts0;
    added := [];
    ghost var avail := multiset(before);
    assert after[0..] == after;
    for j := 0 to |after|
      invariant Represents(counts, avail)
      invariant added + AddedFrom(after[j..], avail) == Added(before, after)
      invariant LeftAfter(after[j..], avail) == LeftAfter(after, multiset(before))
    {
      var entry := after[j];
      AddedFromStep(after, j, avail);
      LeftAfterStep(after, j, avail);
      if MapCount(counts, entry) > 0 {
        ghost var full := counts;
        counts := counts[entry := counts[entry] - 1];
        if counts[entry] == 0 {
          counts := counts - {entry};
        }
        TakeOne(full, counts, entry, avail);
        avail := avail - multiset{entry};
        continue;
      }
      assert (added + [entry]) + AddedFrom(after[j + 1..], avail) == added + ([entry] + AddedFrom(after[j + 1..], avail));
      added := added + [entry];
    }
    assert after[|after|..] == [];
    assert added + [] == added;
    LeftAfterIsDifference(after, multiset(before));
  }

  /** What is left of `avail` once `s` has consumed its copies. */
  function LeftAfter(s: seq<string>, avail: multiset<string>): multiset<string> {
    if s == [] then avail
    else LeftAfter(s[1..], if avail[s[0]] > 0 then avail - multiset{s[0]} else avail)
  }

  lemma LeftAfterStep(s: seq<string>, j: nat, avail: multiset<string>)
    requires j < |s|
    ensures LeftAfter(s[j..], avail) ==
      LeftAfter(s[j + 1..], if avail[s[j]] > 0 then avail - multiset{s[j]} else avail)
  {
    assert s[j..][0] == s[j] && s[j..][1..] == s[j + 1..];
  }

  lemma {:induction false} LeftAfterIsDifference(s: seq<string>, avail: multiset<string>)
    ensures LeftAfter(s, avail) == avail - multiset(s)
    decreases |s|
  {
    if s != [] {
      var x := s[0];
      assert multiset(s) == multiset{x} + multiset(s[1..]) by { assert s == [x] + s[1..]; }
      var next := if avail[x] > 0 then avail - multiset{x} else avail;
      LeftAfterIsDifference(s[1..], next);
      assert next - multiset(s[1..]) == avail - multiset(s);
    }
  }

  /** Consuming one copy of `e`, deleting its key when none is left. */
  lemma TakeOne(counts: map<string, int>, taken: map<string, int>, e: string, m: multiset<string>)
    requires Represents(counts, m) && e in counts
    requires taken == if counts[e] == 1 then counts - {e} else counts[e := counts[e] - 1]
    ensures Represents(taken, m - multiset{e})
  {
  }

  /** The last loop of diffEntries (processor.go:307-312): every count left
      over becomes that many removed copies. */
  method DrainCounts(counts0: map<string, int>, m: multiset<string>) returns (removed: seq<string>)
    requires Represents(counts0, m)
    ensures multiset(removed) == m
  {
    var counts := counts0;
    removed := [];
    ghost var left := m;
    while counts != map[]
      invariant Represents(counts, left)
      invariant multiset(removed) + left == m
      decreases |counts.Keys|
    {
      var entry :| entry in counts;
      ghost var start := removed;
      for k := 0 to counts[entry]
        invariant multiset(removed) == multiset(start) + multiset{}[entry := k]
      {
        assert multiset{}[entry := k + 1] == multiset{}[entry := k] + multiset{entry};
        removed := removed + [entry];
      }
      assert left == left[entry := 0] + multiset{}[entry := counts[entry]];
      ghost var keys := counts.Keys;
      left := left[entry := 0];
      counts := counts - {entry};
      assert counts.Keys < keys;
    }
    assert left == multiset{} by {
      forall x ensures left[x] == 0 { assert MapCount(counts, x) == 0; }
    }
  }

  /** `added` holds exactly the copies `after` has beyond `before`. */
  lemma {:induction false} AddedFromMultiset(after: seq<string>, avail: multiset<string>)
    ensures multiset(AddedFrom(after, avail)) == multiset(after) - avail
    decreases |after|
  {
    if after != [] {
      var x := after[0];
      assert multiset(after) == multiset{x} + multiset(after[1..]) by { assert after == [x] + after[1..]; }
      if avail[x] > 0 {
        AddedFromMultiset(after[1..], avail - multiset{x});
      } else {
        AddedFromMultiset(after[1..], avail);
      }
    }
  }

  /** The multiset difference of diffEntries (processor.go:289-315): added is
      after minus before and removed is before minus after, so the sizes balance. */
  lemma DiffBalances(before: seq<string>, after: seq<string>)
    ensures multiset(Added(before, after)) == multiset(after) - multiset(before)
    ensures |before| + |Added(before, after)| == |after| + |multiset(before) - multiset(after)|
  {
    AddedFromMultiset(after, multiset(before));
    var a := multiset(before);
    var b := multiset(after);
    assert a + (b - a) == b + (a - b);
  }

  lemma {:induction false} AddedAfterPrefix(s: seq<string>, t: seq<string>, rest: multiset<string>)
    ensures AddedFrom(s + t, multiset(s) + rest) == AddedFrom(t, rest)
    decreases |s|
  {
    if s == [] {
      assert s + t == t;
      assert multiset(s) + rest == rest;
    } else {
      var x := s[0];
      assert (s + t)[0] == x && (s + t)[1..] == s[1..] + t;
      assert multiset(s) == multiset{x} + multiset(s[1..]) by { assert s == [x] + s[1..]; }
      assert (multiset(s) + rest) - multiset{x} == multiset(s[1..]) + rest;
      AddedAfterPrefix(s[1..], t, rest);
    }
  }

  /** Appending entries to an unchanged list reports exactly them as added
      and nothing as removed; in particular a list compared with itself has
      no difference. */
  lemma AppendOnlyAdds(before: seq<string>, extra: seq<string>)
    ensures Added(before, before + extra) == extra
    ensures multiset(before) - multiset(before + extra) == multiset{}
  {
    AddedAfterPrefix(before, extra, multiset{});
    assert multiset(before) + multiset{} == multiset(before);
    assert AddedFrom(extra, multiset{}) == extra by { NothingAvailable(extra); }
  }

  lemma {:induction false} NothingAvailable(s: seq<string>)
    ensures AddedFrom(s, multiset{}) == s
    decreases |s|
  {
    if s != [] {
      NothingAvailable(s[1..]);
      assert s == [s[0]] + s[1..];
    }
  }

  // ---------------------------------------------------------------------
  // orderChanged (processor.go:318-349)

  /** The positions of `x` in `s`, ascending. */
  function Indices(s: seq<string>, x: string): seq<nat> {
    if s == [] then []
    else Indices(s[..|s| - 1], x) + (if s[|s| - 1] == x then [|s| - 1] else [])
  }

  /** The `indexes` map orderChanged builds: each entry of `s` to its positions. */
  function IndexMap(s: seq<string>): map<string, seq<nat>> {
    map x | x in s :: Indices(s, x)
  }

  /** A Go map of lists read with a default of the empty list. */
  function MapList(m: map<string, seq<nat>>, x: string): seq<nat> {
    if x in m then m[x] else []
  }

  /** The original positions matched while scanning `after`: each entry takes
      its next unconsumed position from `index`; `used` counts the positions
      consumed so far, entry by entry. */
  function PositionsFrom(index: map<string, seq<nat>>, after: seq<string>, used: multiset<string>): seq<nat> {
    if after == [] then []
    else
      var x := after[0];
      var list := MapList(index, x);
      if used[x] < |list| then [list[used[x]]] + PositionsFrom(index, after[1..], used + multiset{x})
      else PositionsFrom(index, after[1..], used)
  }

  /** The positions in `before` of the entries of `after`, in the order of
      `after`, each occurrence of a repeated entry matched to the next unused
      occurrence in `before`; entries new to `after`, or repeated more often
      than in `before`, contribute nothing. */
  function Positions(before: seq<string>, after: seq<string>): seq<nat> {
    PositionsFrom(IndexMap(before), after, multiset{})
  }

  /** No position is smaller than one before it. */
  predicate Ascending(p: seq<nat>) {
    forall i, j :: 0 <= i < j < |p| ==> p[i] <= p[j]
  }

  /** The answer of orderChanged. */
  predicate Reordered(before: seq<string>, after: seq<string>) {
    !Ascending(Positions(before, after))
  }

  /** An entry whose positions are all consumed, or that has none, adds no
      position. */
  lemma PositionsFromSkip(index: map<string, seq<nat>>, after: seq<string>, j: nat, used: multiset<string>)
    requires j < |after| && used[after[j]] >= |MapList(index, after[j])|
    ensures PositionsFrom(index, after[j..], used) == PositionsFrom(index, after[j + 1..], used)
  {
    assert after[j..][0] == after[j] && after[j..][1..] == after[j + 1..];
  }

  /** Any other entry adds its next position. */
  lemma PositionsFromTake(index: map<string, seq<nat>>, after: seq<string>, j: nat, used: multiset<string>)
    requires j < |after| && used[after[j]] < |MapList(index, after[j])|
    ensures PositionsFrom(index, after[j..], used) ==
      [MapList(index, after[j])[used[after[j]]]] + PositionsFrom(index, after[j + 1..], used + multiset{after[j]})
  {
    assert after[j..][0] == after[j] && after[j..][1..] == after[j + 1..];
  }

  /** orderChanged (processor.go:318-349): true as soon as a matched position
      is smaller than the previous one. */
  method OrderChanged(before: seq<string>, after: seq<string>) returns (changed: bool)
    ensures changed == Reordered(before, after)
  {
    var indexes := IndexEntries(before);
    changed := FirstDescent(indexes, after);
  }

  /** The second loop of orderChanged (processor.go:326-346). */
  method FirstDescent(indexes: map<string, seq<nat>>, after: seq<string>) returns (changed: bool)
    ensures changed == !Ascending(PositionsFrom(indexes, after, multiset{}))
  {
    var consumed: map<string, int> := map[];
    ghost var used: multiset<string> := multiset{};
    ghost var ps: seq<nat> := [];
    var prev: int := -1;
    assert after[0..] == after;
    for j := 0 to |after|
      invariant forall x :: MapCount(consumed, x) == used[x]
      invariant ps + PositionsFrom(indexes, after[j..], used) == PositionsFrom(indexes, after, multiset{})
      invariant Ascending(ps)
      invariant prev == if ps == [] then -1 else ps[|ps| - 1]
    {
      var entry := after[j];
      if entry !in indexes {
        // A new entry is skipped.
        PositionsFromSkip(indexes, after, j, used);
        continue;
      }
      var list := indexes[entry];
      var idx := MapCount(consumed, entry);
      if idx >= |list| {
        // Extra occurrences beyond those of the original are skipped.
        PositionsFromSkip(indexes, after, j, used);
        continue;
      }
      var pos := list[idx];
      consumed := consumed[entry := idx + 1];
      PositionsFromTake(indexes, after, j, used);
      ghost var rest := PositionsFrom(indexes, after[j + 1..], used + multiset{entry});
      Associative(ps, [pos], rest);
      if prev > pos && prev != -1 {
        DescentAt(ps, pos, rest);
        return true;
      }
      AscendingSnoc(ps, pos);
      used := used + multiset{entry};
      ps := ps + [pos];
      prev := pos;
    }
    assert after[|after|..] == [];
    assert ps + [] == ps;
    return false;
  }

  /** A position smaller than the one before it breaks the ascent. */
  lemma DescentAt(p: seq<nat>, x: nat, rest: seq<nat>)
    requires p != [] && p[|p| - 1] > x
    ensures !Ascending(p + [x] + rest)
  {
    var q := p + [x] + rest;
    assert q[|p| - 1] == p[|p| - 1] && q[|p|] == x;
  }

  lemma AscendingSnoc(p: seq<nat>, x: nat)
    requires Ascending(p) && (p == [] || p[|p| - 1] <= x)
    ensures Ascending(p + [x])
  {
    var q := p + [x];
    forall i, j | 0 <= i < j < |q| ensures q[i] <= q[j] {
      if j < |p| { assert q[i] == p[i] && q[j] == p[j]; }
      else if i < |p| - 1 { assert q[i] == p[i] <= p[|p| - 1]; }
    }
  }

  lemma IndicesSnoc(s: seq<string>, x: string, k: nat)
    requires k < |s|
    ensures Indices(s[..k + 1], x) == Indices(s[..k], x) + (if s[k] == x then [k] else [])
  {
    assert s[..k + 1][..k] == s[..k];
  }

  /** The first loop of orderChanged (processor.go:319-324): every position of
      every entry, keyed by the entry. */
  method IndexEntries(entries: seq<string>) returns (indexes: map<string, seq<nat>>)
    ensures indexes == IndexMap(entries)
  {
    indexes := map[];
    for i := 0 to |entries|
      invariant indexes == IndexMap(entries[..i])
    {
      IndexMapSnoc(entries, i);
      indexes := indexes[entries[i] := MapList(indexes, entries[i]) + [i]];
    }
    assert entries[..|entries|] == entries;
  }

  lemma IndexMapSnoc(s: seq<string>, k: nat)
    requires k < |s|
    ensures IndexMap(s[..k + 1]) == IndexMap(s[..k])[s[k] := MapList(IndexMap(s[..k]), s[k]) + [k]]
  {
    var a := IndexMap(s[..k]);
    var b := IndexMap(s[..k + 1]);
    var c := a[s[k] := MapList(a, s[k]) + [k]];
    assert s[..k + 1] == s[..k] + [s[k]];
    forall x ensures x in b <==> x in c { }
    forall x | x in b ensures b[x] == c[x] {
      IndicesSnoc(s, x, k);
      if x == s[k] && x !in s[..k] { IndicesAbsent(s[..k], x); }
    }
  }

  /** An entry that does not occur has no positions. */
  lemma {:induction false} IndicesAbsent(s: seq<string>, x: string)
    requires x !in s
    ensures Indices(s, x) == []
    decreases |s|
  {
    if s != [] {
      assert x !in s[..|s| - 1];
      IndicesAbsent(s[..|s| - 1], x);
    }
  }

  // Properties of orderChanged.

  lemma IndexMapList(s: seq<string>, x: string)
    ensures MapList(IndexMap(s), x) == Indices(s, x)
  {
    if x !in s { IndicesAbsent(s, x); }
  }

  /** An entry has as many positions as occurrences. */
  lemma {:induction false} IndicesCount(s: seq<string>, x: string)
    ensures |Indices(s, x)| == multiset(s)[x]
    decreases |s|
  {
    if s != [] {
      IndicesCount(s[..|s| - 1], x);
      assert s == s[..|s| - 1] + [s[|s| - 1]];
    }
  }

  /** The positions in a prefix start the positions in the whole list. */
  lemma {:induction false} IndicesPrefix(s: seq<string>, x: string, k: nat)
    requires k <= |s|
    ensures Indices(s[..k], x) <= Indices(s, x)
    decreases |s| - k
  {
    if k == |s| {
      assert s[..k] == s;
    } else {
      IndicesSnoc(s, x, k);
      IndicesPrefix(s, x, k + 1);
    }
  }

  /** Position `k` is the occurrence of `s[k]` numbered by the occurrences
      before it. */
  lemma IndicesAt(s: seq<string>, k: nat)
    requires k < |s|
    ensures multiset(s[..k])[s[k]] < |Indices(s, s[k])|
    ensures Indices(s, s[k])[multiset(s[..k])[s[k]]] == k
  {
    IndicesSnoc(s, s[k], k);
    IndicesCount(s[..k], s[k]);
    IndicesPrefix(s, s[k], k + 1);
  }

  /** The positions from `lo` up to, excluding, `hi`. */
  function Range(lo: nat, hi: nat): (r: seq<nat>)
    requires lo <= hi
    ensures |r| == hi - lo
  {
    seq(hi - lo, i requires 0 <= i < hi - lo => lo + i)
  }

  lemma RangeCons(lo: nat, hi: nat)
    requires lo < hi
    ensures Range(lo, hi) == [lo] + Range(lo + 1, hi)
  {
    var r := Range(lo, hi);
    assert r[0] == lo;
    assert r[1..] == Range(lo + 1, hi);
  }

  lemma {:induction false} SamePositionsFrom(s: seq<string>, k: nat)
    requires k <= |s|
    ensures PositionsFrom(IndexMap(s), s[k..], multiset(s[..k])) == Range(k, |s|)
    decreases |s| - k
  {
    if k == |s| {
      assert s[k..] == [];
    } else {
      SamePositionsStep(s, k);
      SamePositionsFrom(s, k + 1);
      RangeCons(k, |s|);
    }
  }

  /** Matching a list against itself, the entry at `k` takes position `k`. */
  lemma SamePositionsStep(s: seq<string>, k: nat)
    requires k < |s|
    ensures PositionsFrom(IndexMap(s), s[k..], multiset(s[..k])) ==
      [k] + PositionsFrom(IndexMap(s), s[k + 1..], multiset(s[..k + 1]))
  {
    var used := multiset(s[..k]);
    IndexMapList(s, s[k]);
    IndicesAt(s, k);
    PositionsFromTake(IndexMap(s), s, k, used);
    assert used + multiset{s[k]} == multiset(s[..k + 1]) by {
      assert s[..k + 1] == s[..k] + [s[k]];
    }
  }

  /** An unchanged list is never reported as reordered: its positions are
      0, 1, 2, ... (processor.go:318-349). */
  lemma UnchangedIsNotReordered(s: seq<string>)
    ensures Positions(s, s) == Range(0, |s|)
    ensures !Reordered(s, s)
  {
    SamePositionsFrom(s, 0);
    assert s[0..] == s && s[..0] == [];
  }

  lemma {:induction false} InsertionFrom(index: map<string, seq<nat>>, a: seq<string>, x: string, b: seq<string>, used: multiset<string>)
    requires x !in index
    ensures PositionsFrom(index, a + [x] + b, used) == PositionsFrom(index, a + b, used)
    decreases |a|
  {
    if a == [] {
      assert a + [x] + b == [x] + b && a + b == b;
      assert ([x] + b)[0] == x && ([x] + b)[1..] == b;
    } else {
      assert (a + [x] + b)[0] == a[0] && (a + [x] + b)[1..] == a[1..] + [x] + b;
      assert (a + b)[0] == a[0] && (a + b)[1..] == a[1..] + b;
      if used[a[0]] < |MapList(index, a[0])| {
        InsertionFrom(index, a[1..], x, b, used + multiset{a[0]});
      } else {
        InsertionFrom(index, a[1..], x, b, used);
      }
    }
  }

  /** Inserting an entry the original does not have, anywhere, changes no
      matched position, so it never makes or hides a reorder
      (processor.go:329-332). */
  lemma InsertionIsIgnored(before: seq<string>, a: seq<string>, x: string, b: seq<string>)
    requires x !in before
    ensures Positions(before, a + [x] + b) == Positions(before, a + b)
    ensures Reordered(before, a + [x] + b) == Reordered(before, a + b)
  {
    InsertionFrom(IndexMap(before), a, x, b, multiset{});
  }

  /** Strictly increasing positions. */
  ghost predicate Increasing(ix: seq<nat>) {
    forall i, j :: 0 <= i < j < |ix| ==> ix[i] < ix[j]
  }

  /** The entries of `s` at the positions `ix`. */
  function Pick(s: seq<string>, ix: seq<nat>): (r: seq<string>)
    requires forall i :: 0 <= i < |ix| ==> ix[i] < |s|
    ensures |r| == |ix|
  {
    seq(|ix|, i requires 0 <= i < |ix| => s[ix[i]])
  }

  lemma {:induction false} DeletionFrom(before: seq<string>, ix: seq<nat>, k: nat)
    requires Distinct(before) && Increasing(ix)
    requires forall i :: 0 <= i < |ix| ==> ix[i] < |before|
    requires k <= |ix|
    ensures PositionsFrom(IndexMap(before), Pick(before, ix)[k..], multiset(Pick(before, ix)[..k])) == ix[k..]
    decreases |ix| - k
  {
    var after := Pick(before, ix);
    if k == |ix| {
      assert after[k..] == [] && ix[k..] == [];
    } else {
      DeletionHead(before, ix, k);
      PositionsStep(IndexMap(before), after, k, ix[k]);
      DeletionFrom(before, ix, k + 1);
      assert ix[k..] == [ix[k]] + ix[k + 1..];
    }
  }

  /** An entry whose next unused occurrence is at `p` contributes `p`. */
  lemma PositionsStep(index: map<string, seq<nat>>, after: seq<string>, k: nat, p: nat)
    requires k < |after|
    requires multiset(after[..k])[after[k]] < |MapList(index, after[k])|
    requires MapList(index, after[k])[multiset(after[..k])[after[k]]] == p
    ensures PositionsFrom(index, after[k..], multiset(after[..k])) ==
      [p] + PositionsFrom(index, after[k + 1..], multiset(after[..k + 1]))
  {
    var x := after[k];
    assert after[k..][0] == x && after[k..][1..] == after[k + 1..];
    assert multiset(after[..k]) + multiset{x} == multiset(after[..k + 1]) by {
      assert after[..k + 1] == after[..k] + [x];
    }
  }

  /** The k-th kept entry has not been used yet, and its first position in
      `before` is the k-th kept position. */
  lemma DeletionHead(before: seq<string>, ix: seq<nat>, k: nat)
    requires Distinct(before) && Increasing(ix)
    requires forall i :: 0 <= i < |ix| ==> ix[i] < |before|
    requires k < |ix|
    ensures var x := Pick(before, ix)[k];
      && multiset(Pick(before, ix)[..k])[x] == 0
      && |MapList(IndexMap(before), x)| > 0 && MapList(IndexMap(before), x)[0] == ix[k]
  {
    var after := Pick(before, ix);
    var x := after[k];
    assert x == before[ix[k]];
    assert x !in after[..k] by {
      forall i | 0 <= i < k ensures after[..k][i] != x {
        assert after[..k][i] == before[ix[i]] && ix[i] < ix[k];
      }
    }
    assert x !in before[..ix[k]];
    IndexMapList(before, x);
    IndicesAt(before, ix[k]);
  }

  /** Deleting entries from a duplicate-free list never reports a reorder:
      the remaining positions keep their original, ascending order
      (processor.go:318-349). */
  lemma DeletionIsNotReordered(before: seq<string>, ix: seq<nat>)
    requires Distinct(before) && Increasing(ix)
    requires forall i :: 0 <= i < |ix| ==> ix[i] < |before|
    ensures Positions(before, Pick(before, ix)) == ix
    ensures !Reordered(before, Pick(before, ix))
  {
    var after := Pick(before, ix);
    DeletionFrom(before, ix, 0);
    assert after[0..] == after && after[..0] == [] && ix[0..] == ix;
  }

  /** Two swapped entries are a reorder. */
  lemma SwapIsReordered()
    ensures Reordered(["a", "b"], ["b", "a"])
  {
    var before := ["a", "b"];
    var index := IndexMap(before);
    IndexMapList(before, "a");
    IndexMapList(before, "b");
    assert Indices(before, "a") == [0] by { assert before[..1] == ["a"]; }
    assert Indices(before, "b") == [1] by { assert before[..1] == ["a"]; }
    var after := ["b", "a"];
    PositionsFromTake(index, after, 0, multiset{});
    assert multiset{"b"}["a"] == 0;
    PositionsFromTake(index, after, 1, multiset{"b"});
    assert after[0..] == after && after[2..] == [];
    var p := Positions(before, after);
    assert p == [1, 0];
    assert p[0] > p[1];
  }

  /** With duplicates, a deletion can report a reorder: dropping the first
      "a" of [a, b, a] matches the remaining "a" to position 0, after "b" at 1. */
  lemma DuplicateDeletionIsReordered()
    ensures Reordered(["a", "b", "a"], ["b", "a"])
  {
    var before := ["a", "b", "a"];
    var index := IndexMap(before);
    IndexMapList(before, "a");
    IndexMapList(before, "b");
    var ab := before[..2];
    assert ab == ["a", "b"] && ab[..1] == ["a"] && ["a"][..0] == [];
    assert Indices(["a"], "a") == [0] && Indices(["a"], "b") == [];
    assert Indices(ab, "a") == [0] && Indices(ab, "b") == [1];
    assert Indices(before, "a") == [0, 2];
    assert Indices(before, "b") == [1];
    var after := ["b", "a"];
    PositionsFromTake(index, after, 0, multiset{});
    assert multiset{"b"}["a"] == 0;
    PositionsFromTake(index, after, 1, multiset{"b"});
    assert after[0..] == after && after[2..] == [];
    var p := Positions(before, after);
    assert p == [1, 0];
    assert p[0] > p[1];
  }
}
