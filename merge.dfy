/** internal/processor/processor.go, the canonical resource list: the slash
    decoration of directories (decorateSubdirs) and the merge of remote
    entries, directories and files into one list (mergeResources). */
module Merge {
  import opened Utils
  import opened StringOps
  import opened Sorting
  import opened ProcessorUtils
  import opened Order

  /** The processor options (processor.go:20-26). */
  datatype Options = Options(
    skip: seq<string>,
    useGitIgnore: bool,
    includeDot: bool,
    dirSlash: bool,
    resourceOrder: seq<string>)

  // ---------------------------------------------------------------------
  // decorateSubdirs (processor.go:556-569)

  /** One directory name with its trailing slash: a name that already has one
      is cut and re-suffixed, anything else gains one. */
  function Decorate(s: string): string {
    if HasSuffix(s, "/") then TrimSuffix(s, "/") + "/" else s + "/"
  }

  /** The result of decorateSubdirs. */
  function Decorated(dirSlash: bool, subdirs: seq<string>): (r: seq<string>)
    ensures |r| == |subdirs|
  {
    if !dirSlash then subdirs
    else seq(|subdirs|, i requires 0 <= i < |subdirs| => Decorate(subdirs[i]))
  }

  /** decorateSubdirs: the loop that suffixes every name. */
  method DecorateSubdirs(dirSlash: bool, subdirs: seq<string>) returns (out: seq<string>)
    ensures out == Decorated(dirSlash, subdirs)
  {
    if !dirSlash {
      return subdirs;
    }
    out := [];
    for i := 0 to |subdirs|
      invariant |out| == i
      invariant forall j :: 0 <= j < i ==> out[j] == Decorate(subdirs[j])
    {
      var s := subdirs[i];
      var d := s + "/";
      if HasSuffix(s, "/") {
        d := TrimSuffix(s, "/") + "/";
      }
      assert d == Decorate(s);
      out := out + [d];
    }
  }

  /** The length is kept; with the option every name ends in a slash and a name
      that had one is unchanged, any other gains exactly one; without it the
      list is returned as it is (processor.go:556-569). */
  lemma DecoratedFacts(dirSlash: bool, subdirs: seq<string>)
    ensures |Decorated(dirSlash, subdirs)| == |subdirs|
    ensures !dirSlash ==> Decorated(dirSlash, subdirs) == subdirs
    ensures dirSlash ==> forall i :: 0 <= i < |subdirs| ==>
      HasSuffix(Decorated(dirSlash, subdirs)[i], "/") &&
      Decorated(dirSlash, subdirs)[i] == (if HasSuffix(subdirs[i], "/") then subdirs[i] else subdirs[i] + "/")
  {
    if dirSlash {
      forall i | 0 <= i < |subdirs|
        ensures HasSuffix(Decorate(subdirs[i]), "/")
        ensures Decorate(subdirs[i]) == (if HasSuffix(subdirs[i], "/") then subdirs[i] else subdirs[i] + "/")
      {
        var s := subdirs[i];
        var d := Decorate(s);
        assert d[|d| - 1..] == "/";
      }
    }
  }

  /** Decorating twice is decorating once. */
  lemma DecorateIdempotent(dirSlash: bool, subdirs: seq<string>)
    ensures Decorated(dirSlash, Decorated(dirSlash, subdirs)) == Decorated(dirSlash, subdirs)
  {
    DecoratedFacts(dirSlash, subdirs);
    DecoratedFacts(dirSlash, Decorated(dirSlash, subdirs));
  }

  /** The two cases of processor_test.go:364-378. */
  lemma DecoratedExamples()
    ensures Decorated(true, ["app", "config/"]) == ["app/", "config/"]
    ensures Decorated(false, ["app", "config"]) == ["app", "config"]
  {
    var d := Decorated(true, ["app", "config/"]);
    DecoratedFacts(true, ["app", "config/"]);
    assert !HasSuffix("app", "/") && HasSuffix("config/", "/");
    assert d[0] == "app/" && d[1] == "config/";
    assert d == [d[0], d[1]];
  }

  // ---------------------------------------------------------------------
  // mergeResources (processor.go:520-553)

  /** The remote entries of a list, in order (processor.go:530-535). */
  function RemoteOf(s: seq<string>): (r: seq<string>)
    ensures forall x :: x in r <==> x in s && IsRemoteResource(x)
  {
    Filter(IsRemoteResource, s)
  }

  /** The elements of `s` that satisfy `p`, in order. */
  function Filter(p: string -> bool, s: seq<string>): (r: seq<string>)
    ensures forall x :: x in r <==> x in s && p(x)
  {
    if s == [] then []
    else (if p(s[0]) then [s[0]] else []) + Filter(p, s[1..])
  }

  /** The entries one group contributes (processor.go:541-548); a name that is
      no group contributes nothing. */
  function Group(g: string, remote: seq<string>, dirs: seq<string>, files: seq<string>): seq<string> {
    if g == Remote then remote else if g == Dirs then dirs else if g == Files then files else []
  }

  /** The groups laid out one after the other in `order`. */
  function Layout(order: seq<string>, remote: seq<string>, dirs: seq<string>, files: seq<string>): seq<string> {
    if order == [] then []
    else Group(order[0], remote, dirs, files) + Layout(order[1..], remote, dirs, files)
  }

  /** The result of mergeResources: the sorted remote entries of `existing`,
      the sorted decorated directories and the sorted files, laid out in the
      configured group order, with duplicates removed. */
  function MergedOrder(opts: Options, existing: seq<string>, dirEntries: seq<string>, fileEntries: seq<string>): seq<string> {
    Dedup(Layout(
      NormalizedOrder(opts.resourceOrder),
      SortStrings(RemoteOf(existing)),
      SortStrings(Decorated(opts.dirSlash, dirEntries)),
      SortStrings(fileEntries)))
  }

  /** mergeResources. */
  method MergeResources(opts: Options, existing: seq<string>, dirEntries: seq<string>, fileEntries: seq<string>)
    returns (final: seq<string>)
    ensures final == MergedOrder(opts, existing, dirEntries, fileEntries)
  {
    var dirs := DecorateSubdirs(opts.dirSlash, dirEntries);
    dirs := SortStrings(dirs);
    var files := SortStrings(fileEntries);
    var remote := CollectRemote(existing);
    remote := SortStrings(remote);
    var order := NormalizeResourceOrder(opts.resourceOrder);
    final := LayOut(order, remote, dirs, files);
    final := DedupPreserve(final);
  }

  /** The loop keeping the remote entries of the existing list
      (processor.go:530-535). */
  method CollectRemote(existing: seq<string>) returns (remote: seq<string>)
    ensures remote == RemoteOf(existing)
  {
    remote := [];
    assert existing[0..] == existing;
    for i := 0 to |existing|
      invariant remote + RemoteOf(existing[i..]) == RemoteOf(existing)
    {
      RemoteOfStep(existing, i, remote);
      if IsRemoteResource(existing[i]) {
        remote := remote + [existing[i]];
      }
    }
    assert existing[|existing|..] == [];
    assert remote + [] == remote;
  }

  /** One iteration of the loop of CollectRemote. */
  lemma RemoteOfStep(s: seq<string>, i: nat, remote: seq<string>)
    requires i < |s| && remote + RemoteOf(s[i..]) == RemoteOf(s)
    ensures (if IsRemoteResource(s[i]) then remote + [s[i]] else remote) + RemoteOf(s[i + 1..]) == RemoteOf(s)
  {
    assert s[i..][0] == s[i] && s[i..][1..] == s[i + 1..];
    if IsRemoteResource(s[i]) {
      assert remote + RemoteOf(s[i..]) == remote + ([s[i]] + RemoteOf(s[i + 1..]));
    } else {
      assert RemoteOf(s[i..]) == RemoteOf(s[i + 1..]);
    }
  }

  /** The loop over the group order (processor.go:539-550). */
  method LayOut(order: seq<string>, remote: seq<string>, dirs: seq<string>, files: seq<string>)
    returns (final: seq<string>)
    ensures final == Layout(order, remote, dirs, files)
  {
    final := [];
    assert order[0..] == order;
    for k := 0 to |order|
      invariant final + Layout(order[k..], remote, dirs, files) == Layout(order, remote, dirs, files)
    {
      LayoutStep(order, k, remote, dirs, files);
      ghost var before := final;
      var group := order[k];
      if group == Remote {
        final := final + remote;
      } else if group == Dirs {
        final := final + dirs;
      } else if group == Files {
        final := final + files;
      }
      assert final == before + Group(group, remote, dirs, files);
      Associative(before, Group(group, remote, dirs, files), Layout(order[k + 1..], remote, dirs, files));
    }
    assert order[|order|..] == [];
    assert final + [] == final;
  }

  lemma LayoutStep(order: seq<string>, k: nat, remote: seq<string>, dirs: seq<string>, files: seq<string>)
    requires k < |order|
    ensures Layout(order[k..], remote, dirs, files) ==
      Group(order[k], remote, dirs, files) + Layout(order[k + 1..], remote, dirs, files)
  {
    assert order[k..][0] == order[k] && order[k..][1..] == order[k + 1..];
  }

  // ---------------------------------------------------------------------
  // Properties of mergeResources

  /** A group order that names each group once is one of six. */
  lemma GroupPermutationCases(order: seq<string>)
    requires IsGroupPermutation(order)
    ensures order == [Remote, Dirs, Files] || order == [Remote, Files, Dirs]
         || order == [Dirs, Remote, Files] || order == [Dirs, Files, Remote]
         || order == [Files, Remote, Dirs] || order == [Files, Dirs, Remote]
  {
    assert order[0] in Elems(DefaultGroups) && order[1] in Elems(DefaultGroups) && order[2] in Elems(DefaultGroups);
    assert order[0] != order[1] && order[0] != order[2] && order[1] != order[2];
    assert order == [order[0], order[1], order[2]];
  }

  /** Three groups laid out are their concatenation. */
  lemma LayoutOfThree(order: seq<string>, remote: seq<string>, dirs: seq<string>, files: seq<string>)
    requires |order| == 3
    ensures Layout(order, remote, dirs, files) ==
      Group(order[0], remote, dirs, files) + Group(order[1], remote, dirs, files) + Group(order[2], remote, dirs, files)
  {
    LayoutStep(order, 0, remote, dirs, files);
    LayoutStep(order, 1, remote, dirs, files);
    LayoutStep(order, 2, remote, dirs, files);
    assert order[0..] == order && order[3..] == [];
  }

  /** Each group of a permutation appears once in its layout. */
  lemma LayoutElems(order: seq<string>, remote: seq<string>, dirs: seq<string>, files: seq<string>)
    requires IsGroupPermutation(order)
    ensures Elems(Layout(order, remote, dirs, files)) == Elems(remote) + Elems(dirs) + Elems(files)
  {
    GroupPermutationCases(order);
    LayoutOfThree(order, remote, dirs, files);
  }

  /** The merged list has no duplicates (processor.go:552 with
      internal/utils/utils.go:4-15). */
  lemma MergedDistinct(opts: Options, existing: seq<string>, dirEntries: seq<string>, fileEntries: seq<string>)
    ensures Distinct(MergedOrder(opts, existing, dirEntries, fileEntries))
  {
    var order := NormalizedOrder(opts.resourceOrder);
    DedupDistinct(Layout(order, SortStrings(RemoteOf(existing)),
      SortStrings(Decorated(opts.dirSlash, dirEntries)), SortStrings(fileEntries)));
  }

  lemma SortedElems(s: seq<string>)
    ensures Elems(SortStrings(s)) == Elems(s)
  {
    var r := SortStrings(s);
    forall x ensures x in r <==> x in s {
      assert x in r <==> x in multiset(r);
      assert x in s <==> x in multiset(s);
    }
  }

  /** The merged list holds exactly the remote entries of the existing list,
      the decorated directories and the files; so an existing entry that is
      not remote and was not discovered again is dropped
      (processor.go:520-553). */
  lemma MergedElements(opts: Options, existing: seq<string>, dirEntries: seq<string>, fileEntries: seq<string>, x: string)
    ensures x in MergedOrder(opts, existing, dirEntries, fileEntries) <==>
      (x in existing && IsRemoteResource(x)) || x in Decorated(opts.dirSlash, dirEntries) || x in fileEntries
  {
    var order := NormalizedOrder(opts.resourceOrder);
    var remote := SortStrings(RemoteOf(existing));
    var dirs := SortStrings(Decorated(opts.dirSlash, dirEntries));
    var files := SortStrings(fileEntries);
    NormalizedOrderIsPermutation(opts.resourceOrder);
    LayoutElems(order, remote, dirs, files);
    DedupSameElements(Layout(order, remote, dirs, files));
    SortedElems(RemoteOf(existing));
    SortedElems(Decorated(opts.dirSlash, dirEntries));
    SortedElems(fileEntries);
    var layout := Layout(order, remote, dirs, files);
    assert MergedOrder(opts, existing, dirEntries, fileEntries) == Dedup(layout);
    assert x in Dedup(layout) <==> x in Elems(layout) by {
      assert x in Dedup(layout) <==> x in Elems(Dedup(layout));
    }
    assert x in Elems(layout) <==> x in Elems(remote) || x in Elems(dirs) || x in Elems(files);
    assert x in Elems(remote) <==> x in RemoteOf(existing);
    assert x in Elems(dirs) <==> x in Decorated(opts.dirSlash, dirEntries);
    assert x in Elems(files) <==> x in fileEntries;
  }

  /** Each entry occurs at most once exactly when no count exceeds one. */
  lemma DistinctCounts(s: seq<string>)
    ensures Distinct(s) <==> forall x :: multiset(s)[x] <= 1
  {
    if Distinct(s) {
      DistinctCountsAtMostOne(s);
    } else {
      var i, j :| 0 <= i < j < |s| && s[i] == s[j];
      RepeatedCount(s, i, j);
    }
  }

  lemma {:induction false} DistinctCountsAtMostOne(s: seq<string>)
    requires Distinct(s)
    ensures forall x :: multiset(s)[x] <= 1
    decreases |s|
  {
    if s != [] {
      assert Distinct(s[1..]);
      DistinctCountsAtMostOne(s[1..]);
      assert s == [s[0]] + s[1..];
      assert s[0] !in s[1..];
    }
  }

  /** An entry at two positions is counted at least twice. */
  lemma RepeatedCount(s: seq<string>, i: nat, j: nat)
    requires i < j < |s| && s[i] == s[j]
    ensures multiset(s)[s[i]] >= 2
  {
    assert s == s[..j] + s[j..];
    assert s[i] in s[..j] && s[j] in s[j..];
    assert multiset(s)[s[i]] == multiset(s[..j])[s[i]] + multiset(s[j..])[s[i]];
  }

  lemma SortedDistinct(s: seq<string>)
    requires Distinct(s)
    ensures Distinct(SortStrings(s))
  {
    DistinctCounts(s);
    DistinctCounts(SortStrings(s));
  }

  lemma ElemsConcat(a: seq<string>, b: seq<string>)
    ensures Elems(a + b) == Elems(a) + Elems(b)
  {
    forall x ensures x in a + b <==> x in a || x in b { }
  }

  lemma DistinctConcat(a: seq<string>, b: seq<string>)
    requires Distinct(a) && Distinct(b) && Elems(a) !! Elems(b)
    ensures Distinct(a + b)
  {
    var r := a + b;
    forall i, j | 0 <= i < j < |r| ensures r[i] != r[j] {
      if i < |a| && j >= |a| { assert r[i] in Elems(a) && r[j] in Elems(b); }
      else if i >= |a| { assert r[i] == b[i - |a|] && r[j] == b[j - |a|]; }
    }
  }

  /** When the three groups are duplicate-free and share no entry, nothing is
      removed: the merged list is the three sorted groups laid out
      contiguously in the configured order (processor.go:526-550). */
  lemma MergedIsContiguous(opts: Options, existing: seq<string>, dirEntries: seq<string>, fileEntries: seq<string>)
    requires Distinct(RemoteOf(existing))
    requires Distinct(Decorated(opts.dirSlash, dirEntries)) && Distinct(fileEntries)
    requires Elems(RemoteOf(existing)) !! Elems(Decorated(opts.dirSlash, dirEntries))
    requires Elems(RemoteOf(existing)) !! Elems(fileEntries)
    requires Elems(Decorated(opts.dirSlash, dirEntries)) !! Elems(fileEntries)
    ensures var order := NormalizedOrder(opts.resourceOrder);
      var remote := SortStrings(RemoteOf(existing));
      var dirs := SortStrings(Decorated(opts.dirSlash, dirEntries));
      var files := SortStrings(fileEntries);
      |order| == 3 &&
      MergedOrder(opts, existing, dirEntries, fileEntries) ==
        Group(order[0], remote, dirs, files) + Group(order[1], remote, dirs, files) + Group(order[2], remote, dirs, files)
  {
    var order := NormalizedOrder(opts.resourceOrder);
    var remote := SortStrings(RemoteOf(existing));
    var dirs := SortStrings(Decorated(opts.dirSlash, dirEntries));
    var files := SortStrings(fileEntries);
    NormalizedOrderIsPermutation(opts.resourceOrder);
    SortedDistinct(RemoteOf(existing));
    SortedDistinct(Decorated(opts.dirSlash, dirEntries));
    SortedDistinct(fileEntries);
    SortedElems(RemoteOf(existing));
    SortedElems(Decorated(opts.dirSlash, dirEntries));
    SortedElems(fileEntries);
    LayoutOfThree(order, remote, dirs, files);
    LayoutDistinct(order, remote, dirs, files);
    DedupOfDistinct(Layout(order, remote, dirs, files));
  }

  /** Three duplicate-free groups that share no entry lay out, in any
      permutation, without duplicates. */
  lemma LayoutDistinct(order: seq<string>, remote: seq<string>, dirs: seq<string>, files: seq<string>)
    requires IsGroupPermutation(order)
    requires Distinct(remote) && Distinct(dirs) && Distinct(files)
    requires Elems(remote) !! Elems(dirs) && Elems(remote) !! Elems(files) && Elems(dirs) !! Elems(files)
    ensures Distinct(Layout(order, remote, dirs, files))
  {
    GroupPermutationCases(order);
    LayoutOfThree(order, remote, dirs, files);
    var g0 := Group(order[0], remote, dirs, files);
    var g1 := Group(order[1], remote, dirs, files);
    var g2 := Group(order[2], remote, dirs, files);
    assert Distinct(g0) && Distinct(g1) && Distinct(g2);
    assert Elems(g0) !! Elems(g1) && Elems(g0) !! Elems(g2) && Elems(g1) !! Elems(g2);
    DistinctConcat(g0, g1);
    ElemsConcat(g0, g1);
    DistinctConcat(g0 + g1, g2);
  }

  /** In the default order the merged list is remote entries, then
      directories, then files (processor_test.go:348-357). */
  lemma DefaultOrderLayout(opts: Options, existing: seq<string>, dirEntries: seq<string>, fileEntries: seq<string>)
    requires opts.resourceOrder == []
    ensures MergedOrder(opts, existing, dirEntries, fileEntries) ==
      Dedup(SortStrings(RemoteOf(existing)) + SortStrings(Decorated(opts.dirSlash, dirEntries)) + SortStrings(fileEntries))
  {
    LayoutOfThree(DefaultGroups, SortStrings(RemoteOf(existing)),
      SortStrings(Decorated(opts.dirSlash, dirEntries)), SortStrings(fileEntries));
  }

  // A second run over the same directory changes nothing.

  lemma {:induction false} RemoteOfConcat(a: seq<string>, b: seq<string>)
    ensures RemoteOf(a + b) == RemoteOf(a) + RemoteOf(b)
    decreases |a|
  {
    if a == [] {
      assert a + b == b;
    } else {
      assert (a + b)[0] == a[0] && (a + b)[1..] == a[1..] + b;
      RemoteOfConcat(a[1..], b);
    }
  }

  lemma {:induction false} RemoteOfAll(s: seq<string>)
    requires forall x :: x in s ==> IsRemoteResource(x)
    ensures RemoteOf(s) == s
    decreases |s|
  {
    if s != [] {
      assert s[0] in s;
      RemoteOfAll(s[1..]);
      assert s == [s[0]] + s[1..];
    }
  }

  lemma {:induction false} RemoteOfNone(s: seq<string>)
    requires forall x :: x in s ==> !IsRemoteResource(x)
    ensures RemoteOf(s) == []
    decreases |s|
  {
    if s != [] {
      assert s[0] in s;
      RemoteOfNone(s[1..]);
    }
  }

  lemma {:induction false} DedupFromNotIn(t: seq<string>, seen: set<string>, x: string)
    requires x !in t
    ensures DedupFrom(t, seen + {x}) == DedupFrom(t, seen)
    decreases |t|
  {
    if t != [] {
      assert x != t[0] && x !in t[1..];
      if t[0] in seen {
        DedupFromNotIn(t[1..], seen, x);
      } else {
        assert seen + {x} + {t[0]} == seen + {t[0]} + {x};
        DedupFromNotIn(t[1..], seen + {t[0]}, x);
      }
    }
  }

  /** Keeping the remote entries commutes with removing duplicates. */
  lemma {:induction false} RemoteOfDedupFrom(s: seq<string>, seen: set<string>)
    ensures RemoteOf(DedupFrom(s, seen)) == DedupFrom(RemoteOf(s), seen)
    decreases |s|
  {
    if s != [] {
      var x := s[0];
      var r := RemoteOf(s[1..]);
      assert RemoteOf(s) == (if IsRemoteResource(x) then [x] else []) + r;
      assert s == [x] + s[1..];
      DedupFromCons(x, s[1..], seen);
      if x in seen {
        RemoteOfDedupFrom(s[1..], seen);
        if IsRemoteResource(x) { DedupFromCons(x, r, seen); }
      } else {
        var d := DedupFrom(s[1..], seen + {x});
        assert ([x] + d)[0] == x && ([x] + d)[1..] == d;
        RemoteOfDedupFrom(s[1..], seen + {x});
        if IsRemoteResource(x) {
          DedupFromCons(x, r, seen);
        } else {
          assert RemoteOf(s) == r && RemoteOf([x] + d) == RemoteOf(d);
          DedupFromNotIn(r, seen, x);
        }
      }
    }
  }

  lemma {:induction false} DedupFromSorted(s: seq<string>, seen: set<string>)
    requires Sorted(s)
    ensures Sorted(DedupFrom(s, seen))
    decreases |s|
  {
    if s != [] {
      assert Sorted(s[1..]);
      if s[0] in seen {
        DedupFromSorted(s[1..], seen);
      } else {
        var d := DedupFrom(s[1..], seen + {s[0]});
        DedupFromSorted(s[1..], seen + {s[0]});
        DedupFromFacts(s[1..], seen + {s[0]});
        forall j | 0 <= j < |d| ensures LessEq(s[0], d[j]) {
          assert d[j] in Elems(d);
          var k :| 0 <= k < |s[1..]| && s[1..][k] == d[j];
          assert s[k + 1] == d[j];
        }
        SortedCons(s[0], d);
      }
    }
  }

  /** Whatever the remote group holds, a permutation of the groups lays it
      out between the same two stretches of directories and files. */
  lemma RemoteSlot(order: seq<string>, dirs: seq<string>, files: seq<string>) returns (x: seq<string>, y: seq<string>)
    requires IsGroupPermutation(order)
    ensures forall r :: Layout(order, r, dirs, files) == x + r + y
    ensures forall e :: e in x || e in y ==> e in dirs || e in files
  {
    GroupPermutationCases(order);
    var g0 := Group(order[0], [], dirs, files);
    var g1 := Group(order[1], [], dirs, files);
    var g2 := Group(order[2], [], dirs, files);
    if order[0] == Remote {
      x, y := [], g1 + g2;
    } else if order[1] == Remote {
      x, y := g0, g2;
    } else {
      x, y := g0 + g1, [];
    }
    forall r ensures Layout(order, r, dirs, files) == x + r + y {
      LayoutOfThree(order, r, dirs, files);
    }
  }

  /** A group order that lays out a de-duplicated remote group lays out, once
      de-duplicated, what it lays out from the original group. */
  lemma LayoutDedup(order: seq<string>, remote: seq<string>, dirs: seq<string>, files: seq<string>)
    requires IsGroupPermutation(order)
    ensures Dedup(Layout(order, Dedup(remote), dirs, files)) == Dedup(Layout(order, remote, dirs, files))
  {
    var x, y := RemoteSlot(order, dirs, files);
    assert Layout(order, Dedup(remote), dirs, files) == x + Dedup(remote) + y;
    assert Layout(order, remote, dirs, files) == x + remote + y;
    DedupInner(x, remote, y);
  }

  lemma RemoteOfLayout(order: seq<string>, remote: seq<string>, dirs: seq<string>, files: seq<string>)
    requires IsGroupPermutation(order)
    requires forall x :: x in remote ==> IsRemoteResource(x)
    requires forall x :: x in dirs ==> !IsRemoteResource(x)
    requires forall x :: x in files ==> !IsRemoteResource(x)
    ensures RemoteOf(Layout(order, remote, dirs, files)) == remote
  {
    var x, y := RemoteSlot(order, dirs, files);
    assert Layout(order, remote, dirs, files) == x + remote + y;
    RemoteOfNone(x);
    RemoteOfNone(y);
    RemoteOfAll(remote);
    RemoteOfConcat(x + remote, y);
    RemoteOfConcat(x, remote);
  }

  /** Running mergeResources on its own output, with the same discovered
      directories and files, returns that output again: a second run finds
      nothing to change. Discovered names are never remote URLs, since these
      hold "//" and a name within one directory holds no such thing. */
  lemma MergeIdempotent(opts: Options, existing: seq<string>, dirEntries: seq<string>, fileEntries: seq<string>)
    requires forall x :: x in Decorated(opts.dirSlash, dirEntries) ==> !IsRemoteResource(x)
    requires forall x :: x in fileEntries ==> !IsRemoteResource(x)
    ensures MergedOrder(opts, MergedOrder(opts, existing, dirEntries, fileEntries), dirEntries, fileEntries) ==
      MergedOrder(opts, existing, dirEntries, fileEntries)
  {
    var order := NormalizedOrder(opts.resourceOrder);
    var remote := SortStrings(RemoteOf(existing));
    var dirs := SortStrings(Decorated(opts.dirSlash, dirEntries));
    var files := SortStrings(fileEntries);
    var layout := Layout(order, remote, dirs, files);
    var merged := Dedup(layout);
    assert merged == MergedOrder(opts, existing, dirEntries, fileEntries);
    NormalizedOrderIsPermutation(opts.resourceOrder);
    SortedElems(RemoteOf(existing));
    SortedElems(Decorated(opts.dirSlash, dirEntries));
    SortedElems(fileEntries);
    assert forall x :: x in dirs ==> x in Elems(dirs);
    assert forall x :: x in files ==> x in Elems(files);
    assert forall x :: x in remote ==> x in Elems(remote);
    RemoteOfLayout(order, remote, dirs, files);
    RemoteOfDedupFrom(layout, {});
    assert RemoteOf(merged) == Dedup(remote);
    DedupFromSorted(remote, {});
    SortSorted(Dedup(remote));
    LayoutDedup(order, remote, dirs, files);
  }
}
