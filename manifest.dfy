/** internal/processor/processor.go, updateKustomization on the node tree:
    the manifest is normalised and indexed, its resource list reconciled,
    and, when the list changed, its resources sequence refilled before the
    document is written back. */
module Manifest {
  import opened Wrappers
  import opened Utils
  import opened Merge
  import opened Update
  import opened Document

  /** updateKustomization (processor.go:218-286) on the parsed document
      `root`; `writes` says whether encoding and writing the manifest
      succeeds. `order` is the list the manifest held. The mapping's former
      children other than the resources value are left as they were. When
      the list changed, the resources sequence is refilled with the node that
      carried each entry, or a fresh string scalar for a new entry, so it
      reads exactly the merged list. When the mapping held key/value pairs,
      loading the rewritten manifest again yields the merged list; reconciling
      that list again over the same directory, with no remote entry among
      the directory's, then changes nothing (Update.SecondRunChangesNothing). */
  method UpdateKustomization(opts: Options, path: string, root: Node, writes: bool,
                             dirEntries: seq<string>, fileEntries: seq<string>)
    returns (order: seq<string>, r: Result<Decision>, sq: Node)
    requires NoBackReference(root)
    modifies root, FirstChild(root), ResourcesValue(MappingChildren(root))
    ensures order == old(ExistingResources(MappingChildren(root)))
    ensures var d := Decide(opts, order, dirEntries, fileEntries);
      r == if d.updated && !writes then Err(WriteFailed(path)) else Ok(d)
    ensures Shaped(root, sq)
    ensures old(|root.content|) > 0 ==> root.content == old(root.content)
    ensures root.value == old(root.value) && root.tag == old(root.tag)
    ensures old(|root.content|) == 0 ==>
      fresh(root.content[0]) && root.content[0].value == "" && root.content[0].tag == ""
    ensures old(|root.content|) > 0 ==>
      root.content[0].value == old(root.content[0].value) && root.content[0].tag == old(root.content[0].tag)
    ensures var v := old(ResourcesValue(MappingChildren(root)));
      Placed(root, sq, old(MappingChildren(root)), !old(HasHeaderKey(MappingChildren(root))), v != {})
    ensures var v := old(ResourcesValue(MappingChildren(root)));
      && (v != {} ==> v == {sq} && sq.value == old(sq.value) && sq.tag == old(sq.tag))
      && (v == {} ==> fresh(sq) && sq.value == "" && sq.tag == "")
    ensures forall n :: n in root.content[0].content && n !in old(MappingChildren(root)) ==> fresh(n)
    ensures forall n :: n in old(MappingChildren(root)) && n != sq ==> unchanged(n)
    ensures var d := Decide(opts, order, dirEntries, fileEntries);
      Rewritten(sq, old(ResourcesContent(MappingChildren(root))), order, d.updated, d.final)
    ensures var d := Decide(opts, order, dirEntries, fileEntries);
      d.updated ==> forall i :: 0 <= i < |d.final| && d.final[i] !in order ==> fresh(sq.content[i])
    ensures old(|MappingChildren(root)|) % 2 == 0 ==>
      ExistingResources(root.content[0].content) == Decide(opts, order, dirEntries, fileEntries).final
  {
    ghost var c := MappingChildren(root);
    ghost var reused := ResourcesValue(c) != {};
    ghost var header := !HasHeaderKey(c);
    ghost var even := |c| % 2 == 0;
    var nodes;
    sq, order, nodes := NormalizeKustomization(root);
    ghost var mapping := root.content[0];
    assert root != sq && mapping != sq;
    var updated, final;
    updated, final, r := RewriteDocument(opts, path, root, sq, order, nodes, writes, dirEntries, fileEntries,
                                         sq.content, c, header, reused);
    if even {
      ReloadsList(mapping.content, sq);
    }
  }

  /** The resources sequence `sq` after a rewrite of the list `order` read
      from its former children `rc` into `final`: left as it was when the list
      did not change; otherwise one node per entry of `final`, the last node
      of `rc` that carried an entry of `order`, or a plain string scalar for a
      new entry. Either way a reload of the sequence yields `final`, and when
      the list changed the sequence reads exactly `final`. */
  predicate Rewritten(sq: Node, rc: seq<Node>, order: seq<string>, updated: bool, final: seq<string>)
    reads sq, sq.content, rc
  {
    && (!updated ==> sq.content == rc)
    && (updated ==>
      && |sq.content| == |final|
      && (forall i :: 0 <= i < |final| && final[i] in order ==>
        0 <= LastScalar(rc, final[i]) && sq.content[i] == rc[LastScalar(rc, final[i])])
      && (forall i :: 0 <= i < |final| && final[i] !in order ==>
        sq.content[i].kind == ScalarNode && sq.content[i].value == final[i] &&
        sq.content[i].tag == "!!str" && sq.content[i].content == []))
    && Dedup(ScalarValues(sq.content)) == final
    && (updated ==> ScalarValues(sq.content) == final)
  }

  /** The rest of updateKustomization once the manifest is loaded with the
      list `order` and the index `nodes` of its sequence `sq`, which holds
      `rc` (processor.go:232-286): the list is reconciled and, when it
      changed, the sequence is refilled with the node that carried each
      entry, or a fresh string scalar for a new entry, before the manifest is
      written. */
  method RewriteResources(opts: Options, path: string, root: Node, sq: Node, order: seq<string>,
                          nodes: map<string, Node>, writes: bool,
                          dirEntries: seq<string>, fileEntries: seq<string>, ghost rc: seq<Node>)
    returns (updated: bool, final: seq<string>, r: Result<Decision>)
    requires Shaped(root, sq) && sq.content == rc && sq !in rc
    requires order == Dedup(ScalarValues(rc))
    requires forall v :: v in nodes <==> v in order
    requires forall v :: v in nodes ==> 0 <= LastScalar(rc, v) && nodes[v] == rc[LastScalar(rc, v)]
    modifies sq
    ensures var d := Decide(opts, order, dirEntries, fileEntries);
      updated == d.updated && final == d.final &&
      r == if d.updated && !writes then Err(WriteFailed(path)) else Ok(d)
    ensures old(Reloads(root.content[0].content, sq)) ==> Reloads(root.content[0].content, sq)
    ensures Shaped(root, sq) && sq.value == old(sq.value) && sq.tag == old(sq.tag)
    ensures Rewritten(sq, rc, order, updated, final)
    ensures updated ==> forall i :: 0 <= i < |final| && final[i] !in order ==> fresh(sq.content[i])
  {
    updated, final, r := DecideRewrite(opts, path, order, writes, dirEntries, fileEntries);
    RefillIfUpdated(root, sq, order, updated, final, nodes, rc);
  }

  /** The decision of updateKustomization on the list `order` read from the
      manifest: the list is reconciled, a changed list has no duplicates, an
      unchanged one is `order` itself, and a write that fails is reported. */
  method DecideRewrite(opts: Options, path: string, order: seq<string>, writes: bool,
                       dirEntries: seq<string>, fileEntries: seq<string>)
    returns (updated: bool, final: seq<string>, r: Result<Decision>)
    ensures var d := Decide(opts, order, dirEntries, fileEntries);
      updated == d.updated && final == d.final &&
      r == if d.updated && !writes then Err(WriteFailed(path)) else Ok(d)
    ensures updated ==> Dedup(final) == final
    ensures !updated ==> final == order
  {
    var stats;
    updated, final, stats := ReconcileList(opts, order, dirEntries, fileEntries);
    DecidedIsDistinct(opts, order, dirEntries, fileEntries);
    r := if updated && !writes then Err(WriteFailed(path)) else Ok(Decision(updated, final, stats));
  }

  /** A rewrite of the loaded document keeps the layout loadKustomization
      gave it: only the children of the resources sequence change. */
  method RewriteDocument(opts: Options, path: string, root: Node, sq: Node, order: seq<string>,
                         nodes: map<string, Node>, writes: bool,
                         dirEntries: seq<string>, fileEntries: seq<string>, ghost rc: seq<Node>,
                         ghost c: seq<Node>, ghost header: bool, ghost reused: bool)
    returns (updated: bool, final: seq<string>, r: Result<Decision>)
    requires Shaped(root, sq) && sq.content == rc && sq !in rc
    requires Placed(root, sq, c, header, reused)
    requires order == Dedup(ScalarValues(rc))
    requires forall v :: v in nodes <==> v in order
    requires forall v :: v in nodes ==> 0 <= LastScalar(rc, v) && nodes[v] == rc[LastScalar(rc, v)]
    modifies sq
    ensures var d := Decide(opts, order, dirEntries, fileEntries);
      updated == d.updated && final == d.final &&
      r == if d.updated && !writes then Err(WriteFailed(path)) else Ok(d)
    ensures Placed(root, sq, c, header, reused)
    ensures old(Reloads(root.content[0].content, sq)) ==> Reloads(root.content[0].content, sq)
    ensures Shaped(root, sq) && sq.value == old(sq.value) && sq.tag == old(sq.tag)
    ensures Rewritten(sq, rc, order, updated, final)
    ensures updated ==> forall i :: 0 <= i < |final| && final[i] !in order ==> fresh(sq.content[i])
  {
    ghost var m := root.content[0].content;
    assert root != sq && root.content[0] != sq;
    updated, final, r := RewriteResources(opts, path, root, sq, order, nodes, writes, dirEntries, fileEntries, rc);
    if header {
      assert old(IsHeader(m[..4]));
      forall i | 0 <= i < 4
        ensures m[i] != sq && unchanged(m[i])
      {
        assert m[..4][i] == m[i];
      }
      assert IsHeader(m[..4]);
    }
    if !reused {
      assert old(IsResourcesKey(m[|m| - 2]));
      assert m[|m| - 2] != sq;
      assert IsResourcesKey(m[|m| - 2]);
    }
  }

  /** The refill of a rewrite, stated against the list read from the
      manifest: when the list changed, an entry of that list reuses its last
      node in `rc`, a new entry gets a fresh string scalar, and the sequence
      reads `final`; when it did not, the sequence is left as it is. */
  method RefillIfUpdated(root: Node, sq: Node, order: seq<string>, updated: bool, final: seq<string>,
                         nodes: map<string, Node>, ghost rc: seq<Node>)
    requires Shaped(root, sq) && sq.content == rc && sq !in rc
    requires order == Dedup(ScalarValues(rc))
    requires forall v :: v in nodes <==> v in order
    requires forall v :: v in nodes ==> 0 <= LastScalar(rc, v) && nodes[v] == rc[LastScalar(rc, v)]
    requires updated ==> Dedup(final) == final
    requires !updated ==> final == order
    modifies sq
    ensures old(Reloads(root.content[0].content, sq)) ==> Reloads(root.content[0].content, sq)
    ensures Shaped(root, sq) && sq.value == old(sq.value) && sq.tag == old(sq.tag)
    ensures Rewritten(sq, rc, order, updated, final)
    ensures updated ==> forall i :: 0 <= i < |final| && final[i] !in order ==> fresh(sq.content[i])
  {
    if updated {
      RefillResources(root, sq, final, nodes, rc);
    }
  }

  /** The list a rewrite writes has no duplicates. */
  lemma DecidedIsDistinct(opts: Options, order: seq<string>, dirEntries: seq<string>, fileEntries: seq<string>)
    ensures var d := Decide(opts, order, dirEntries, fileEntries);
      Dedup(d.final) == d.final && (!d.updated ==> d.final == order)
  {
    MergedDistinct(opts, order, dirEntries, fileEntries);
    DedupOfDistinct(MergedOrder(opts, order, dirEntries, fileEntries));
  }

  /** The statistics applyKustomization derives from updateKustomization's
      result are the ones ApplyOutcome gives for the list it started from. */
  lemma OutcomeOfDecision(opts: Options, path: string, order: seq<string>, writes: bool,
                          dirEntries: seq<string>, fileEntries: seq<string>, d: Result<Decision>)
    requires var dec := Decide(opts, order, dirEntries, fileEntries);
      d == if dec.updated && !writes then Err(WriteFailed(path)) else Ok(dec)
    ensures ApplyOutcome(opts, path, Ok(order), writes, dirEntries, fileEntries, false) ==
      if d.Err? then Err(d.error)
      else if d.value.updated then Ok(d.value.stats.(updated := 1))
      else Ok(d.value.stats.(noOp := 1))
  {
  }

  /** applyKustomization (processor.go:352-379) on the parsed document
      `root`: a skipped manifest is left alone and reports nothing; otherwise
      updateKustomization runs, its error is passed on, an unchanged list
      counts as a no-op and a changed one as an update. The outcome is the one
      ApplyOutcome gives for the list the manifest held, and the document is
      left as updateKustomization leaves it. `sq` names its resources
      sequence: the former resources value when there was one, otherwise a
      fresh node that is the mapping's last child (PlacedLast). */
  method ApplyToDocument(opts: Options, path: string, root: Node, writes: bool,
                         dirEntries: seq<string>, fileEntries: seq<string>, skipUpdate: bool)
    returns (r: Result<Stats>, ghost sq: Node)
    requires NoBackReference(root)
    modifies root, FirstChild(root), ResourcesValue(MappingChildren(root))
    ensures skipUpdate ==> r == Ok(Zero) && unchanged(root) && unchanged(old(root.content)) && unchanged(old(MappingChildren(root)))
    ensures r == ApplyOutcome(opts, path, Ok(old(ExistingResources(MappingChildren(root)))),
                              writes, dirEntries, fileEntries, skipUpdate)
    ensures !skipUpdate ==> Shaped(root, sq)
    ensures !skipUpdate ==> root.value == old(root.value) && root.tag == old(root.tag)
    ensures !skipUpdate && old(|root.content|) > 0 ==>
      root.content == old(root.content) &&
      root.content[0].value == old(root.content[0].value) && root.content[0].tag == old(root.content[0].tag)
    ensures !skipUpdate && old(|root.content|) == 0 ==>
      fresh(root.content[0]) && root.content[0].value == "" && root.content[0].tag == ""
    ensures var v := old(ResourcesValue(MappingChildren(root)));
      !skipUpdate ==> Placed(root, sq, old(MappingChildren(root)), !old(HasHeaderKey(MappingChildren(root))), v != {})
    ensures var v := old(ResourcesValue(MappingChildren(root)));
      && (!skipUpdate && v != {} ==> v == {sq} && sq.value == old(sq.value) && sq.tag == old(sq.tag))
      && (!skipUpdate && v == {} ==> fresh(sq) && sq.value == "" && sq.tag == "")
    ensures !skipUpdate ==> forall n :: n in root.content[0].content && n !in old(MappingChildren(root)) ==> fresh(n)
    ensures !skipUpdate ==> forall n :: n in old(MappingChildren(root)) && n != sq ==> unchanged(n)
    ensures var order := old(ExistingResources(MappingChildren(root)));
      var d := Decide(opts, order, dirEntries, fileEntries);
      !skipUpdate ==> Rewritten(sq, old(ResourcesContent(MappingChildren(root))), order, d.updated, d.final)
    ensures var order := old(ExistingResources(MappingChildren(root)));
      var d := Decide(opts, order, dirEntries, fileEntries);
      !skipUpdate && d.updated ==> forall i :: 0 <= i < |d.final| && d.final[i] !in order ==> fresh(sq.content[i])
    ensures !skipUpdate && old(|MappingChildren(root)|) % 2 == 0 ==>
      ExistingResources(root.content[0].content) ==
      Decide(opts, old(ExistingResources(MappingChildren(root))), dirEntries, fileEntries).final
  {
    if skipUpdate {
      r, sq := Ok(Zero), root;
    } else {
      var order, d;
      order, d, sq := UpdateKustomization(opts, path, root, writes, dirEntries, fileEntries);
      OutcomeOfDecision(opts, path, order, writes, dirEntries, fileEntries, d);
      r := if d.Err? then Err(d.error)
        else if d.value.updated then Ok(d.value.stats.(updated := 1))
        else Ok(d.value.stats.(noOp := 1));
    }
  }
}
