/** internal/processor/order.go: the order in which the three resource groups
    are laid out in a reconciled list. */
module Order {
  import opened StringOps
  import opened Utils

  const Remote := "remote"
  const Dirs := "dirs"
  const Files := "files"

  /** The built-in order (order.go:11-15). */
  const DefaultGroups: seq<string> := [Remote, Dirs, Files]

  predicate IsGroup(g: string) {
    g == Remote || g == Dirs || g == Files
  }

  /** The three groups, each exactly once. */
  ghost predicate IsGroupPermutation(order: seq<string>) {
    |order| == 3 && Distinct(order) && Elems(order) == Elems(DefaultGroups)
  }

  /** DefaultResourceOrder returns the built-in order (order.go:18-22). */
  function DefaultResourceOrder(): (r: seq<string>)
    ensures IsGroupPermutation(r)
    ensures r[0] == Remote && r[1] == Dirs && r[2] == Files
  {
    DefaultGroups
  }

  /** One comma-separated part, trimmed and lower-cased (order.go:43). */
  function NormalizePart(part: string): string {
    ToLower(TrimSpace(part))
  }

  /** Every part, normalised. */
  function NormalizeParts(parts: seq<string>): (r: seq<string>)
    ensures |r| == |parts|
  {
    seq(|parts|, i requires 0 <= i < |parts| => NormalizePart(parts[i]))
  }

  /** The entries that name a group, in order, repetitions kept. */
  function Groups(s: seq<string>): seq<string> {
    if s == [] then [] else (if IsGroup(s[0]) then [s[0]] else []) + Groups(s[1..])
  }

  /** The parts that name a group, normalised, in input order, repetitions kept. */
  function KnownParts(parts: seq<string>): seq<string> {
    Groups(NormalizeParts(parts))
  }

  lemma {:induction false} GroupsAreGroups(s: seq<string>)
    ensures forall g :: g in Groups(s) ==> IsGroup(g)
    decreases |s|
  {
    if s != [] { GroupsAreGroups(s[1..]); }
  }

  lemma KnownPartsAreGroups(parts: seq<string>)
    ensures forall g :: g in KnownParts(parts) ==> IsGroup(g)
  {
    GroupsAreGroups(NormalizeParts(parts));
  }

  /** The groups of `order` that are not in `seen`, in the order of `order`. */
  function Missing(order: seq<string>, seen: set<string>): (r: seq<string>)
    ensures forall g :: g in r <==> g in order && g !in seen
  {
    if order == [] then []
    else (if order[0] in seen then [] else [order[0]]) + Missing(order[1..], seen)
  }

  /** The result of normalizeResourceOrder: the named groups in first-occurrence
      order, then the missing groups in default order (order.go:33-72). */
  function NormalizedOrder(parts: seq<string>): seq<string> {
    if parts == [] then DefaultGroups
    else
      var named := Dedup(KnownParts(parts));
      named + Missing(DefaultGroups, Elems(named))
  }

  /** normalizeResourceOrder (order.go:33-72): the loop over the parts, then
      the loop over the default groups. */
  method NormalizeResourceOrder(parts: seq<string>) returns (out: seq<string>)
    ensures out == NormalizedOrder(parts)
    ensures IsGroupPermutation(out)
  {
    if |parts| == 0 {
      out := DefaultResourceOrder();
      return;
    }
    var seen;
    out, seen := NamedGroups(parts);
    out := AppendMissingGroups(out, seen);
    if |out| == 0 {
      out := DefaultResourceOrder();
    }
    NormalizedOrderIsPermutation(parts);
  }

  /** The first loop of normalizeResourceOrder (order.go:42-57): each part that
      names a group not seen yet is appended. */
  method NamedGroups(parts: seq<string>) returns (out: seq<string>, seen: set<string>)
    ensures out == Dedup(KnownParts(parts))
    ensures seen == Elems(out)
  {
    seen := {};
    out := [];
    assert parts[0..] == parts;
    for i := 0 to |parts|
      invariant seen == Elems(out)
      invariant out + DedupFrom(KnownParts(parts[i..]), seen) == Dedup(KnownParts(parts))
    {
      var group := NormalizePart(parts[i]);
      NamedGroupsStep(parts, i, out);
      if group != [] && IsGroup(group) && group !in seen {
        seen := seen + {group};
        out := out + [group];
      }
    }
    assert parts[|parts|..] == [];
    assert out + [] == out;
  }

  /** One iteration of the first loop: a part naming a group not listed yet
      is appended, any other part is passed over. */
  lemma NamedGroupsStep(parts: seq<string>, i: nat, out: seq<string>)
    requires i < |parts|
    requires out + DedupFrom(KnownParts(parts[i..]), Elems(out)) == Dedup(KnownParts(parts))
    ensures var g := NormalizePart(parts[i]);
      var out' := if IsGroup(g) && g !in out then out + [g] else out;
      && out' + DedupFrom(KnownParts(parts[i + 1..]), Elems(out')) == Dedup(KnownParts(parts))
      && Elems(out') == if IsGroup(g) && g !in out then Elems(out) + {g} else Elems(out)
  {
    var g := NormalizePart(parts[i]);
    assert Elems(out + [g]) == Elems(out) + {g};
    KnownPartsStep(parts, i);
    if IsGroup(g) {
      DedupStep(out, g, KnownParts(parts[i + 1..]), Dedup(KnownParts(parts)));
    } else {
      assert KnownParts(parts[i..]) == KnownParts(parts[i + 1..]);
    }
  }

  /** The second loop of normalizeResourceOrder (order.go:59-65): every default
      group not seen yet is appended, in default order. */
  method AppendMissingGroups(named: seq<string>, seen: set<string>) returns (out: seq<string>)
    ensures out == named + Missing(DefaultGroups, seen)
  {
    out := named;
    var j := 0;
    while j < |DefaultGroups|
      invariant 0 <= j <= |DefaultGroups|
      invariant out == named + Missing(DefaultGroups[..j], seen)
    {
      var group := DefaultGroups[j];
      MissingSnoc(DefaultGroups[..j], group, seen);
      assert DefaultGroups[..j + 1] == DefaultGroups[..j] + [group];
      if group in seen {
        j := j + 1;
        continue;
      }
      out := out + [group];
      j := j + 1;
    }
    assert DefaultGroups[..j] == DefaultGroups;
  }

  lemma KnownPartsStep(parts: seq<string>, i: nat)
    requires i < |parts|
    ensures KnownParts(parts[i..]) ==
      (if IsGroup(NormalizePart(parts[i])) then [NormalizePart(parts[i])] else []) + KnownParts(parts[i + 1..])
  {
    var n := NormalizeParts(parts[i..]);
    assert n[0] == NormalizePart(parts[i]);
    assert n[1..] == NormalizeParts(parts[i + 1..]);
  }

  lemma {:induction false} MissingSnoc(order: seq<string>, g: string, seen: set<string>)
    ensures Missing(order + [g], seen) == Missing(order, seen) + (if g in seen then [] else [g])
    decreases |order|
  {
    if order == [] {
      assert order + [g] == [g];
    } else {
      assert (order + [g])[0] == order[0] && (order + [g])[1..] == order[1..] + [g];
      MissingSnoc(order[1..], g, seen);
    }
  }

  lemma {:induction false} MissingDistinct(order: seq<string>, seen: set<string>)
    requires Distinct(order)
    ensures Distinct(Missing(order, seen))
    decreases |order|
  {
    if order != [] {
      assert Distinct(order[1..]);
      MissingDistinct(order[1..], seen);
      assert order[0] !in order[1..];
    }
  }

  /** normalizeResourceOrder always yields remote, dirs and files, each once
      (order.go:33-72). */
  lemma NormalizedOrderIsPermutation(parts: seq<string>)
    ensures IsGroupPermutation(NormalizedOrder(parts))
  {
    if parts != [] {
      var named := Dedup(KnownParts(parts));
      KnownPartsAreGroups(parts);
      DedupDistinct(KnownParts(parts));
      DedupSameElements(KnownParts(parts));
      var rest := Missing(DefaultGroups, Elems(named));
      MissingDistinct(DefaultGroups, Elems(named));
      var r := named + rest;
      assert Elems(named) <= Elems(DefaultGroups);
      assert Elems(r) == Elems(named) + Elems(rest);
      assert Elems(r) == Elems(DefaultGroups);
      forall i, j | 0 <= i < j < |r| ensures r[i] != r[j] {
        if i < |named| && j >= |named| { assert r[j] in rest; }
      }
      DistinctCardinality(r);
      assert Distinct(DefaultGroups);
      DistinctCardinality(DefaultGroups);
    }
  }

  /** A duplicate-free list has as many elements as its set. */
  lemma {:induction false} DistinctCardinality<T>(s: seq<T>)
    requires Distinct(s)
    ensures |Elems(s)| == |s|
    decreases |s|
  {
    if s != [] {
      assert Distinct(s[1..]);
      DistinctCardinality(s[1..]);
      assert Elems(s) == Elems(s[1..]) + {s[0]} by { assert s == [s[0]] + s[1..]; }
      assert s[0] !in Elems(s[1..]);
    }
  }

  /** The named groups come first, in the order they are first named
      (order.go:42-57). */
  lemma NamedGroupsFirst(parts: seq<string>)
    requires parts != []
    ensures NormalizedOrder(parts)[..|Dedup(KnownParts(parts))|] == Dedup(KnownParts(parts))
    ensures InFirstOccurrenceOrder(KnownParts(parts), Dedup(KnownParts(parts)))
  {
    DedupFirstOccurrences(KnownParts(parts));
  }

  /** A part that is blank, unknown or repeated changes nothing (order.go:43-54). */
  lemma IgnoredPart(parts: seq<string>, part: string)
    requires parts != []
    requires !IsGroup(NormalizePart(part)) || NormalizePart(part) in KnownParts(parts)
    ensures NormalizedOrder(parts + [part]) == NormalizedOrder(parts)
  {
    var k := KnownParts(parts);
    var extra := KnownParts([part]);
    assert extra == (if IsGroup(NormalizePart(part)) then [NormalizePart(part)] else []) by {
      KnownPartsStep([part], 0);
      assert [part][0..] == [part] && [part][1..] == [];
    }
    KnownPartsConcat(parts, [part]);
    DedupFromConcat(k, extra, {});
    assert {} + Elems(k) == Elems(k);
    assert DedupFrom(extra, Elems(k)) == [];
    calc {
      Dedup(KnownParts(parts + [part]));
      Dedup(k + extra);
      DedupFrom(k, {}) + DedupFrom(extra, Elems(k));
      Dedup(k);
    }
  }

  lemma {:induction false} GroupsConcat(a: seq<string>, b: seq<string>)
    ensures Groups(a + b) == Groups(a) + Groups(b)
    decreases |a|
  {
    if a == [] {
      assert a + b == b;
    } else {
      assert (a + b)[0] == a[0] && (a + b)[1..] == a[1..] + b;
      GroupsConcat(a[1..], b);
    }
  }

  lemma KnownPartsConcat(a: seq<string>, b: seq<string>)
    ensures KnownParts(a + b) == KnownParts(a) + KnownParts(b)
  {
    assert NormalizeParts(a + b) == NormalizeParts(a) + NormalizeParts(b);
    GroupsConcat(NormalizeParts(a), NormalizeParts(b));
  }

  /** ParseResourceOrder: a blank value means the default order, anything else
      is split on commas and normalised (order.go:25-30). */
  function ParseResourceOrder(value: string): (r: seq<string>)
    ensures IsGroupPermutation(r)
    ensures TrimSpace(value) == [] ==> r == DefaultResourceOrder()
    ensures TrimSpace(value) != [] ==> r == NormalizedOrder(Split(value, ','))
  {
    if TrimSpace(value) == [] then DefaultResourceOrder()
    else
      NormalizedOrderIsPermutation(Split(value, ','));
      NormalizedOrder(Split(value, ','))
  }

  /** An empty list of parts gives the default order (order.go:34-36). */
  lemma EmptyPartsGiveDefault()
    ensures NormalizedOrder([]) == DefaultResourceOrder()
  {
  }
}
