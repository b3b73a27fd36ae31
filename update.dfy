/** internal/processor/processor.go, the decision whether a directory's
    manifest is rewritten: the list part of updateKustomization and
    applyKustomization, with the statistics they report. */
module Update {
  import opened Wrappers
  import opened Reconcile
  import opened Merge
  import opened ProcessorUtils

  /** ResourceStats (processor.go:28-34). */
  datatype Stats = Stats(reordered: nat, added: nat, removed: nat, updated: nat, noOp: nat)

  const Zero := Stats(0, 0, 0, 0, 0)

  /** Field-wise sum, as walkDir adds up its statistics (processor.go:83-87). */
  function Plus(a: Stats, b: Stats): Stats {
    Stats(a.reordered + b.reordered, a.added + b.added, a.removed + b.removed,
      a.updated + b.updated, a.noOp + b.noOp)
  }

  /** What updateKustomization decides from the existing resource list
      `order` (processor.go:229-239): the merged list, whether it differs,
      and the change counts. */
  datatype Decision = Decision(updated: bool, final: seq<string>, stats: Stats)

  function Decide(opts: Options, order: seq<string>, dirEntries: seq<string>, fileEntries: seq<string>): Decision {
    var final := MergedOrder(opts, order, dirEntries, fileEntries);
    if final == order then Decision(false, final, Zero)
    else Decision(true, final, Stats(
      if Reordered(order, final) then 1 else 0,
      |Added(order, final)|,
      |multiset(order) - multiset(final)|,
      0, 0))
  }

  /** The list part of updateKustomization (processor.go:229-239). */
  method ReconcileList(opts: Options, order: seq<string>, dirEntries: seq<string>, fileEntries: seq<string>)
    returns (updated: bool, final: seq<string>, stats: Stats)
    ensures Decision(updated, final, stats) == Decide(opts, order, dirEntries, fileEntries)
  {
    final := MergeResources(opts, order, dirEntries, fileEntries);
    if EqualStrings(final, order) {
      return false, final, Zero;
    }
    var added, removed := DiffEntries(order, final);
    var changed := OrderChanged(order, final);
    stats := Stats(if changed then 1 else 0, |added|, |removed|, 0, 0);
    updated := true;
  }

  /** A manifest is rewritten exactly when the merged list differs; an
      unchanged list reports nothing, a changed one counts what was added and
      removed, balancing the two lengths, and flags a reorder
      (processor.go:229-239). */
  lemma DecideFacts(opts: Options, order: seq<string>, dirEntries: seq<string>, fileEntries: seq<string>)
    ensures var d := Decide(opts, order, dirEntries, fileEntries);
      d.final == MergedOrder(opts, order, dirEntries, fileEntries) &&
      (d.updated <==> d.final != order) &&
      (!d.updated ==> d.stats == Zero) &&
      (d.updated ==> |order| + d.stats.added == |d.final| + d.stats.removed) &&
      (d.updated ==> (d.stats.reordered == 1 <==> Reordered(order, d.final))) &&
      d.stats.reordered <= 1 && d.stats.updated == 0 && d.stats.noOp == 0
  {
    DiffBalances(order, MergedOrder(opts, order, dirEntries, fileEntries));
  }

  /** Reconciling a list that is already the merged list changes nothing: a
      second run over an unchanged directory rewrites no manifest. */
  lemma SecondRunChangesNothing(opts: Options, order: seq<string>, dirEntries: seq<string>, fileEntries: seq<string>)
    requires forall x :: x in Decorated(opts.dirSlash, dirEntries) ==> !IsRemoteResource(x)
    requires forall x :: x in fileEntries ==> !IsRemoteResource(x)
    ensures !Decide(opts, Decide(opts, order, dirEntries, fileEntries).final, dirEntries, fileEntries).updated
  {
    MergeIdempotent(opts, order, dirEntries, fileEntries);
  }

  // ---------------------------------------------------------------------
  // applyKustomization (processor.go:352-379)

  /** The statistics applyKustomization reports, or the error it passes on:
      `loaded` is the existing resource list of the manifest or the error
      reading it, `writes` whether encoding and writing the manifest
      succeeds. */
  function ApplyOutcome(opts: Options, path: string, loaded: Result<seq<string>>, writes: bool,
                        dirEntries: seq<string>, fileEntries: seq<string>, skipUpdate: bool): Result<Stats>
  {
    if skipUpdate then Ok(Zero)
    else if loaded.Err? then Err(loaded.error)
    else
      var d := Decide(opts, loaded.value, dirEntries, fileEntries);
      if !d.updated then Ok(d.stats.(noOp := 1))
      else if !writes then Err(WriteFailed(path))
      else Ok(d.stats.(updated := 1))
  }

  /** applyKustomization. */
  method ApplyKustomization(opts: Options, path: string, loaded: Result<seq<string>>, writes: bool,
                            dirEntries: seq<string>, fileEntries: seq<string>, skipUpdate: bool)
    returns (r: Result<Stats>)
    ensures r == ApplyOutcome(opts, path, loaded, writes, dirEntries, fileEntries, skipUpdate)
  {
    if skipUpdate {
      return Ok(Zero);
    }
    if loaded.Err? {
      return Err(loaded.error);
    }
    var updated, final, stats := ReconcileList(opts, loaded.value, dirEntries, fileEntries);
    if updated {
      if !writes {
        return Err(WriteFailed(path));
      }
      stats := stats.(updated := 1);
      return Ok(stats);
    }
    stats := stats.(noOp := 1);
    return Ok(stats);
  }

  /** A skipped manifest reports nothing; otherwise exactly one of updated
      and noOp is 1, and noOp exactly when the merged list equals the
      existing one (processor.go:352-379). */
  lemma ApplyFacts(opts: Options, path: string, loaded: Result<seq<string>>, writes: bool,
                   dirEntries: seq<string>, fileEntries: seq<string>, skipUpdate: bool)
    ensures skipUpdate ==> ApplyOutcome(opts, path, loaded, writes, dirEntries, fileEntries, skipUpdate) == Ok(Zero)
    ensures !skipUpdate && loaded.Err? ==>
      ApplyOutcome(opts, path, loaded, writes, dirEntries, fileEntries, skipUpdate) == Err(loaded.error)
    ensures var r := ApplyOutcome(opts, path, loaded, writes, dirEntries, fileEntries, skipUpdate);
      !skipUpdate && r.Ok? ==>
        loaded.Ok? && r.value.updated + r.value.noOp == 1 &&
        (r.value.noOp == 1 <==> MergedOrder(opts, loaded.value, dirEntries, fileEntries) == loaded.value)
  {
    if !skipUpdate && loaded.Ok? {
      DecideFacts(opts, loaded.value, dirEntries, fileEntries);
    }
  }
}
