/** internal/utils/utils.go: order-preserving de-duplication. */
module Utils {

  /** No element occurs twice. */
  ghost predicate Distinct<T>(s: seq<T>) {
    forall i, j :: 0 <= i < j < |s| ==> s[i] != s[j]
  }

  /** The elements of `s` as a set. */
  function Elems<T>(s: seq<T>): set<T> {
    set x | x in s
  }

  /** The first occurrences of the elements of `s` that are not in `seen`,
      in the order of `s`: the output of the loop of DedupPreserve when it
      starts with `seen` already recorded. */
  function DedupFrom<T(==)>(s: seq<T>, seen: set<T>): seq<T>
    decreases |s|
  {
    if s == [] then []
    else if s[0] in seen then DedupFrom(s[1..], seen)
    else [s[0]] + DedupFrom(s[1..], seen + {s[0]})
  }

  lemma DedupFromCons<T>(x: T, rest: seq<T>, seen: set<T>)
    ensures DedupFrom([x] + rest, seen) ==
      if x in seen then DedupFrom(rest, seen) else [x] + DedupFrom(rest, seen + {x})
  {
    assert ([x] + rest)[0] == x && ([x] + rest)[1..] == rest;
  }

  /** One step of the de-duplicating loop: `x` is appended to `out` when it is
      not in `out` yet, and the outcome of the rest stays the same. */
  lemma DedupStep<T>(out: seq<T>, x: T, rest: seq<T>, total: seq<T>)
    requires out + DedupFrom([x] + rest, Elems(out)) == total
    ensures var out' := if x in out then out else out + [x];
      out' + DedupFrom(rest, Elems(out')) == total
  {
    DedupFromCons(x, rest, Elems(out));
    if x !in out {
      assert Elems(out + [x]) == Elems(out) + {x};
      assert (out + [x]) + DedupFrom(rest, Elems(out) + {x}) == out + ([x] + DedupFrom(rest, Elems(out) + {x}));
    }
  }

  /** The first occurrence of every element, in input order. */
  function Dedup<T(==)>(s: seq<T>): seq<T> {
    DedupFrom(s, {})
  }

  /** Index of the first occurrence of `x` in `s`. */
  function FirstIndex<T(==)>(s: seq<T>, x: T): (k: nat)
    requires x in s
    ensures k < |s| && s[k] == x && x !in s[..k]
  {
    if s[0] == x then 0 else
      assert x in s[1..] by { var j :| 0 <= j < |s| && s[j] == x; assert s[1..][j - 1] == x; }
      var k := FirstIndex(s[1..], x);
      assert s[..k + 1] == [s[0]] + s[1..][..k];
      k + 1
  }

  /** DedupPreserve: keep the first occurrence of each element (utils.go:4-15). */
  method DedupPreserve<T(==)>(input: seq<T>) returns (out: seq<T>)
    ensures out == Dedup(input)
  {
    var seen: set<T> := {};
    out := [];
    var i := 0;
    while i < |input|
      invariant 0 <= i <= |input|
      invariant seen == Elems(out)
      invariant out + DedupFrom(input[i..], seen) == Dedup(input)
    {
      var v := input[i];
      assert input[i..][0] == v && input[i..][1..] == input[i + 1..];
      if v in seen {
        i := i + 1;
        continue;
      }
      seen := seen + {v};
      out := out + [v];
      i := i + 1;
    }
    assert input[i..] == [];
  }

  /** The result only holds elements of `s` outside `seen`, each once, and all of them. */
  lemma {:induction false} DedupFromFacts<T>(s: seq<T>, seen: set<T>)
    ensures Distinct(DedupFrom(s, seen))
    ensures Elems(DedupFrom(s, seen)) == Elems(s) - seen
    decreases |s|
  {
    if s != [] {
      var rest := s[1..];
      assert Elems(s) == {s[0]} + Elems(rest) by {
        assert s == [s[0]] + rest;
      }
      if s[0] in seen {
        DedupFromFacts(rest, seen);
      } else {
        DedupFromFacts(rest, seen + {s[0]});
        var d := DedupFrom(rest, seen + {s[0]});
        assert Elems([s[0]] + d) == {s[0]} + Elems(d);
        forall i, j | 0 <= i < j < |[s[0]] + d| ensures ([s[0]] + d)[i] != ([s[0]] + d)[j] {
          if i == 0 { assert ([s[0]] + d)[j] in Elems(d); }
        }
      }
    }
  }

  /** DedupPreserve's output has no duplicates (utils.go:4-15). */
  lemma DedupDistinct<T>(s: seq<T>)
    ensures Distinct(Dedup(s))
  {
    DedupFromFacts(s, {});
  }

  /** DedupPreserve's output has exactly the elements of its input (utils.go:4-15). */
  lemma DedupSameElements<T>(s: seq<T>)
    ensures Elems(Dedup(s)) == Elems(s)
  {
    DedupFromFacts(s, {});
  }

  /** De-duplicating a concatenation: the second part only contributes what
      the first part did not already hold. */
  lemma {:induction false} DedupFromConcat<T>(a: seq<T>, b: seq<T>, seen: set<T>)
    ensures DedupFrom(a + b, seen) == DedupFrom(a, seen) + DedupFrom(b, seen + Elems(a))
    decreases |a|
  {
    if a == [] {
      assert a + b == b;
      assert Elems(a) == {};
      assert seen + Elems(a) == seen;
    } else {
      assert (a + b)[0] == a[0] && (a + b)[1..] == a[1..] + b;
      assert Elems(a) == {a[0]} + Elems(a[1..]) by { assert a == [a[0]] + a[1..]; }
      if a[0] in seen {
        DedupFromConcat(a[1..], b, seen);
        assert seen + Elems(a[1..]) == seen + Elems(a);
      } else {
        DedupFromConcat(a[1..], b, seen + {a[0]});
        assert seen + {a[0]} + Elems(a[1..]) == seen + Elems(a);
      }
    }
  }

  /** Elements already in `seen` add nothing; a seen set that only grows by
      elements being skipped anyway changes nothing. */
  lemma {:induction false} DedupFromAgain<T>(s: seq<T>, inner: set<T>, outer: set<T>)
    requires inner <= outer
    ensures DedupFrom(DedupFrom(s, inner), outer) == DedupFrom(s, outer)
    decreases |s|
  {
    if s != [] {
      if s[0] in inner {
        DedupFromAgain(s[1..], inner, outer);
      } else {
        var d := DedupFrom(s[1..], inner + {s[0]});
        assert ([s[0]] + d)[0] == s[0] && ([s[0]] + d)[1..] == d;
        if s[0] in outer {
          DedupFromAgain(s[1..], inner + {s[0]}, outer);
        } else {
          DedupFromAgain(s[1..], inner + {s[0]}, outer + {s[0]});
        }
      }
    }
  }

  /** DedupPreserve is idempotent (utils.go:4-15). */
  lemma DedupIdempotent<T>(s: seq<T>)
    ensures Dedup(Dedup(s)) == Dedup(s)
  {
    DedupFromAgain(s, {}, {});
  }

  /** De-duplicating a part of a concatenation first changes nothing. */
  lemma DedupInner<T>(x: seq<T>, a: seq<T>, y: seq<T>)
    ensures Dedup(x + Dedup(a) + y) == Dedup(x + a + y)
  {
    var da := Dedup(a);
    DedupSameElements(a);
    assert {} + Elems(x) == Elems(x);
    calc {
      Dedup(x + da + y);
      { DedupFromConcat(x + da, y, {}); assert {} + Elems(x + da) == Elems(x) + Elems(a); }
      DedupFrom(x + da, {}) + DedupFrom(y, Elems(x) + Elems(a));
      { DedupFromConcat(x, da, {}); }
      DedupFrom(x, {}) + DedupFrom(da, Elems(x)) + DedupFrom(y, Elems(x) + Elems(a));
      { DedupFromAgain(a, {}, Elems(x)); }
      DedupFrom(x, {}) + DedupFrom(a, Elems(x)) + DedupFrom(y, Elems(x) + Elems(a));
      { DedupFromConcat(x, a, {}); }
      DedupFrom(x + a, {}) + DedupFrom(y, Elems(x) + Elems(a));
      { DedupFromConcat(x + a, y, {}); assert {} + Elems(x + a) == Elems(x) + Elems(a); }
      Dedup(x + a + y);
    }
  }

  /** An input without duplicates is returned unchanged (utils.go:4-15). */
  lemma {:induction false} DedupFromDistinct<T>(s: seq<T>, seen: set<T>)
    requires Distinct(s)
    requires Elems(s) !! seen
    ensures DedupFrom(s, seen) == s
    decreases |s|
  {
    if s != [] {
      assert Distinct(s[1..]);
      assert s[0] !in s[1..];
      assert Elems(s[1..]) !! seen + {s[0]};
      DedupFromDistinct(s[1..], seen + {s[0]});
    }
  }

  lemma DedupOfDistinct<T>(s: seq<T>)
    requires Distinct(s)
    ensures Dedup(s) == s
  {
    DedupFromDistinct(s, {});
  }

  /** The output is the subsequence of first occurrences: its elements appear
      in the order in which they first occur in the input (utils.go:7-13). */
  ghost predicate InFirstOccurrenceOrder<T>(s: seq<T>, d: seq<T>) {
    forall i, j :: 0 <= i < j < |d| ==>
      d[i] in s && d[j] in s && FirstIndex(s, d[i]) < FirstIndex(s, d[j])
  }

  lemma {:induction false} DedupFromFirstOccurrences<T>(s: seq<T>, seen: set<T>)
    ensures InFirstOccurrenceOrder(s, DedupFrom(s, seen))
    decreases |s|
  {
    DedupFromFacts(s, seen);
    if s != [] {
      var rest := s[1..];
      var seen' := if s[0] in seen then seen else seen + {s[0]};
      DedupFromFirstOccurrences(rest, seen');
      DedupFromFacts(rest, seen');
      var d := DedupFrom(rest, seen');
      forall x | x in d
        ensures x in s && x in rest && (x != s[0] ==> FirstIndex(s, x) == FirstIndex(rest, x) + 1)
      {
        assert x in Elems(d);
        assert x in Elems(rest);
        assert s[1..] == rest;
        if x != s[0] {
          var k := FirstIndex(rest, x);
          assert s[k + 1] == x;
          assert s[..k + 1] == [s[0]] + rest[..k];
          assert x !in s[..k + 1];
          var f := FirstIndex(s, x);
        }
      }
      if s[0] !in seen {
        assert s[0] !in d;
        assert FirstIndex(s, s[0]) == 0;
      }
    }
  }

  lemma DedupFirstOccurrences<T>(s: seq<T>)
    ensures InFirstOccurrenceOrder(s, Dedup(s))
  {
    DedupFromFirstOccurrences(s, {});
  }

  /** Concatenation regroups freely. */
  lemma Associative<T>(a: seq<T>, b: seq<T>, c: seq<T>)
    ensures (a + b) + c == a + (b + c)
  {
  }

  /** The example of utils_test.go:12-18. */
  lemma DedupExample()
    ensures Dedup(["a", "b", "a", "c", "b"]) == ["a", "b", "c"]
  {
  }
}
