/** internal/processor/processor.go, the traversal: how the entries of one
    directory are classified (scanEntries), which manifest file is used
    (pickKustomizationPath), which ignore matcher applies (loadMatcher), and
    how walkDir visits the tree and adds up its statistics. The filesystem is
    a value: each directory carries its listing, its .gitignore file, the
    answers of os.Stat for paths inside it, the resource list its manifest
    loads to and whether writing the manifest succeeds. */
module Walk {
  import opened Wrappers
  import opened Globs
  import opened Paths
  import opened StringOps
  import opened Utils
  import opened ProcessorUtils
  import opened Skip
  import opened Gitignore
  import opened Merge
  import opened Update

  /** The processor (processor.go:38-43): its options and compiled skip
      rules, with the path and glob functions it calls. */
  datatype Processor = Processor(opts: Options, skipRules: seq<SkipRule>, paths: PathOps, glob: Glob)

  /** One entry of os.ReadDir. */
  datatype DirEntry = DirEntry(name: string, isDir: bool)

  /** What scanEntries returns: the directories and YAML files for the
      manifest, and the subdirectories with their recursion hints. */
  datatype Scan = Scan(dirEntries: seq<string>, fileEntries: seq<string>, childDirs: seq<ChildDir>)

  /** relPath (processor.go:186-192): the path of `full` relative to `base`,
      or the base name of `full` when that fails or is "." itself. */
  function RelPath(base: string, full: string, paths: PathOps): string {
    match paths.rel(base, full)
    case None => Base(full)
    case Some(rel) => if rel == "." then Base(full) else rel
  }

  /** relPath is "." only when the base name is; it falls back to the base
      name when filepath.Rel fails, and is otherwise the relative path. */
  lemma RelPathFacts(base: string, full: string, paths: PathOps)
    ensures var r := RelPath(base, full, paths);
      && (r == "." ==> Base(full) == ".")
      && (paths.rel(base, full).None? ==> r == Base(full))
      && (r != Base(full) ==> paths.rel(base, full) == Some(r))
  {
  }

  // ---------------------------------------------------------------------
  // scanEntries (processor.go:115-172)

  /** One iteration of the loop of scanEntries (processor.go:127-169): an entry
      of `dir`, checked against the manifest names, the dot rule, the ignore
      chain `chain` and the skip rules, in that order. */
  function ScanEntry(p: Processor, dir: string, base: string, chain: seq<Level>, s: Scan, e: DirEntry): Scan {
    if IsKustomization(e.name) then s
    else if !p.opts.includeDot && HasPrefix(e.name, ".") then s
    else
      var full := p.paths.join(dir, e.name);
      var rel := RelPath(base, full, p.paths);
      if IgnoredIn(chain, full, e.isDir, p.paths, p.glob) then s
      else match MatchSkip(rel, e.isDir, p.skipRules, p.glob)
        case SkipBy(mode, _) =>
          if !e.isDir then s
          else
            var (d, c) := HandleSkipDir(e.name, mode, s.dirEntries, s.childDirs);
            Scan(d, s.fileEntries, c)
        case NoSkip =>
          if e.isDir then Scan(s.dirEntries + [e.name], s.fileEntries, s.childDirs + [ChildDir(e.name, false, false)])
          else if IsYAML(e.name) then Scan(s.dirEntries, s.fileEntries + [e.name], s.childDirs)
          else s
  }

  /** The result of scanEntries over `entries`, processed front to back. */
  function ScanAll(p: Processor, dir: string, base: string, chain: seq<Level>, entries: seq<DirEntry>): Scan
    decreases |entries|
  {
    if entries == [] then Scan([], [], [])
    else ScanEntry(p, dir, base, chain, ScanAll(p, dir, base, chain, entries[..|entries| - 1]), entries[|entries| - 1])
  }

  /** scanEntries: the listing of `dir` (os.ReadDir, an error when it cannot be
      read), classified with the ignore matcher `m`, which is null when
      .gitignore files are not used. */
  method ScanEntries(p: Processor, dir: string, base: string, m: Matcher?, listing: Result<seq<DirEntry>>)
    returns (r: Result<Scan>)
    requires Chained(m)
    ensures listing.Err? ==> r == Err(ReadDirFailed(dir))
    ensures listing.Ok? ==> r == Ok(ScanAll(p, dir, base, ChainOf(m), listing.value))
  {
    if listing.Err? {
      return Err(ReadDirFailed(dir));
    }
    var entries := listing.value;
    var dirEntries: seq<string> := [];
    var fileEntries: seq<string> := [];
    var childDirs: seq<ChildDir> := [];
    for i := 0 to |entries|
      invariant Scan(dirEntries, fileEntries, childDirs) == ScanAll(p, dir, base, ChainOf(m), entries[..i])
    {
      var entry := entries[i];
      assert entries[..i + 1][..i] == entries[..i];
      ghost var next := ScanAll(p, dir, base, ChainOf(m), entries[..i + 1]);
      if IsKustomization(entry.name) {
        continue;
      }
      if !p.opts.includeDot && HasPrefix(entry.name, ".") {
        continue;
      }
      var fullPath := p.paths.join(dir, entry.name);
      var rel := RelPath(base, fullPath, p.paths);
      var ignored := Ignored(m, fullPath, entry.isDir, p.paths, p.glob);
      IgnoredByChain(m, fullPath, entry.isDir, p.paths, p.glob);
      if ignored {
        continue;
      }
      var verdict := MatchSkip(rel, entry.isDir, p.skipRules, p.glob);
      if verdict.SkipBy? {
        if !entry.isDir {
          continue;
        }
        var handled := HandleSkipDir(entry.name, verdict.mode, dirEntries, childDirs);
        dirEntries, childDirs := handled.0, handled.1;
        continue;
      }
      if entry.isDir {
        dirEntries := dirEntries + [entry.name];
        childDirs := childDirs + [ChildDir(entry.name, false, false)];
        continue;
      }
      if IsYAML(entry.name) {
        fileEntries := fileEntries + [entry.name];
      }
    }
    assert entries[..|entries|] == entries;
    r := Ok(Scan(dirEntries, fileEntries, childDirs));
  }

  /** An entry passes the checks every kind of entry goes through: it is not
      a manifest, not hidden (unless dot entries are included) and not
      ignored. */
  predicate Admitted(p: Processor, dir: string, chain: seq<Level>, e: DirEntry) {
    && !IsKustomization(e.name)
    && (p.opts.includeDot || !HasPrefix(e.name, "."))
    && !IgnoredIn(chain, p.paths.join(dir, e.name), e.isDir, p.paths, p.glob)
  }

  /** The skip verdict of an entry. */
  function VerdictOf(p: Processor, dir: string, base: string, e: DirEntry): SkipVerdict {
    MatchSkip(RelPath(base, p.paths.join(dir, e.name), p.paths), e.isDir, p.skipRules, p.glob)
  }

  /** A file is listed when it is admitted, not skipped and a YAML file. */
  predicate ListedFile(p: Processor, dir: string, base: string, chain: seq<Level>, e: DirEntry) {
    !e.isDir && Admitted(p, dir, chain, e) && VerdictOf(p, dir, base, e).NoSkip? && IsYAML(e.name)
  }

  /** A directory is listed when it is admitted and either not skipped or
      skipped by a Children or Subtree rule. */
  predicate ListedDir(p: Processor, dir: string, base: string, chain: seq<Level>, e: DirEntry) {
    && e.isDir && Admitted(p, dir, chain, e)
    && var v := VerdictOf(p, dir, base, e);
      v.NoSkip? || v.mode == Children || v.mode == Subtree
  }

  /** One entry adds its name to the files exactly when it is a listed
      file, and to the directories exactly when it is a listed directory. */
  lemma ScanEntryMembership(p: Processor, dir: string, base: string, chain: seq<Level>, s: Scan, e: DirEntry, x: string)
    ensures var t := ScanEntry(p, dir, base, chain, s, e);
      && (x in t.fileEntries <==> x in s.fileEntries || (e.name == x && ListedFile(p, dir, base, chain, e)))
      && (x in t.dirEntries <==> x in s.dirEntries || (e.name == x && ListedDir(p, dir, base, chain, e)))
  {
    if Admitted(p, dir, chain, e) && e.isDir {
      var v := VerdictOf(p, dir, base, e);
      if v.SkipBy? {
        HandleSkipDirEffect(e.name, v.mode, s.dirEntries, s.childDirs);
      }
    }
  }

  /** The files listed are exactly the names of the listed file entries, and
      the directories listed exactly those of the listed directory entries:
      manifests, hidden entries (without includeDot), ignored entries, files
      that are not YAML and entries skipped by an Exact or Glob rule appear
      in neither list (processor.go:126-171). */
  lemma {:induction false} ScanMembership(p: Processor, dir: string, base: string, chain: seq<Level>, entries: seq<DirEntry>, x: string)
    ensures var s := ScanAll(p, dir, base, chain, entries);
      && (x in s.fileEntries <==> exists i :: 0 <= i < |entries| && entries[i].name == x && ListedFile(p, dir, base, chain, entries[i]))
      && (x in s.dirEntries <==> exists i :: 0 <= i < |entries| && entries[i].name == x && ListedDir(p, dir, base, chain, entries[i]))
    decreases |entries|
  {
    if entries != [] {
      var init := entries[..|entries| - 1];
      var e := entries[|entries| - 1];
      ScanMembership(p, dir, base, chain, init, x);
      ScanEntryMembership(p, dir, base, chain, ScanAll(p, dir, base, chain, init), e, x);
      assert forall i :: 0 <= i < |init| ==> init[i] == entries[i];
    }
  }

  /** Every file listed is a YAML file, never a manifest, and not hidden
      unless dot entries are included; no listed directory is hidden either
      (processor.go:128-168). */
  lemma ScanFileFacts(p: Processor, dir: string, base: string, chain: seq<Level>, entries: seq<DirEntry>)
    ensures var s := ScanAll(p, dir, base, chain, entries);
      && (forall x :: x in s.fileEntries ==>
        IsYAML(x) && !IsKustomization(x) && (p.opts.includeDot || !HasPrefix(x, ".")))
      && (forall x :: x in s.dirEntries ==> !IsKustomization(x) && (p.opts.includeDot || !HasPrefix(x, ".")))
  {
    var s := ScanAll(p, dir, base, chain, entries);
    forall x | x in s.fileEntries
      ensures IsYAML(x) && !IsKustomization(x) && (p.opts.includeDot || !HasPrefix(x, "."))
    {
      ScanMembership(p, dir, base, chain, entries, x);
    }
    forall x | x in s.dirEntries
      ensures !IsKustomization(x) && (p.opts.includeDot || !HasPrefix(x, "."))
    {
      ScanMembership(p, dir, base, chain, entries, x);
    }
  }

  /** The child names are the listed directories, element for element, and
      no child carries both hints (processor.go:147-160;
      skip.go:107-127). */
  lemma {:induction false} ScanPairs(p: Processor, dir: string, base: string, chain: seq<Level>, entries: seq<DirEntry>)
    ensures Paired(ScanAll(p, dir, base, chain, entries))
    decreases |entries|
  {
    if entries != [] {
      var init := entries[..|entries| - 1];
      ScanPairs(p, dir, base, chain, init);
      ScanEntryPairs(p, dir, base, chain, ScanAll(p, dir, base, chain, init), entries[|entries| - 1]);
    }
  }

  /** The child names are the listed directories, element for element, and
      no child carries both hints. */
  ghost predicate Paired(s: Scan) {
    Names(s.childDirs) == s.dirEntries && forall c :: c in s.childDirs ==> !(c.skipUpdate && c.skipWalk)
  }

  /** One entry keeps the pairing. */
  lemma ScanEntryPairs(p: Processor, dir: string, base: string, chain: seq<Level>, s: Scan, e: DirEntry)
    requires Paired(s)
    ensures Paired(ScanEntry(p, dir, base, chain, s, e))
  {
    var r := ScanEntry(p, dir, base, chain, s, e);
    ScanEntryGrows(p, dir, base, chain, s, e);
    if r.childDirs != s.childDirs {
      var n := |s.childDirs|;
      assert r.childDirs == s.childDirs + [r.childDirs[n]];
      assert Names(r.childDirs) == Names(s.childDirs) + [e.name];
    }
  }

  /** One entry either leaves the directories as they are or appends it to
      both lists, with at most one hint. */
  lemma ScanEntryGrows(p: Processor, dir: string, base: string, chain: seq<Level>, s: Scan, e: DirEntry)
    ensures var r := ScanEntry(p, dir, base, chain, s, e);
      || (r.dirEntries == s.dirEntries && r.childDirs == s.childDirs)
      || (exists u: bool, w: bool :: !(u && w) &&
            r.dirEntries == s.dirEntries + [e.name] && r.childDirs == s.childDirs + [ChildDir(e.name, u, w)])
  {
    var r := ScanEntry(p, dir, base, chain, s, e);
    if !IsKustomization(e.name) && !(!p.opts.includeDot && HasPrefix(e.name, ".")) {
      var full := p.paths.join(dir, e.name);
      var rel := RelPath(base, full, p.paths);
      if !IgnoredIn(chain, full, e.isDir, p.paths, p.glob) {
        match MatchSkip(rel, e.isDir, p.skipRules, p.glob)
        case SkipBy(mode, _) =>
          if e.isDir {
            HandleSkipDirEffect(e.name, mode, s.dirEntries, s.childDirs);
            if mode == Children || mode == Subtree {
              assert r.childDirs == s.childDirs + [ChildDir(e.name, mode == Subtree, mode == Children)];
            }
          }
        case NoSkip =>
          if e.isDir {
            assert r.childDirs == s.childDirs + [ChildDir(e.name, false, false)];
          }
      }
    }
  }

  /** With the entry names of the listing distinct, as os.ReadDir gives them,
      the listed directories are distinct too. */
  lemma {:induction false} ScanDirsDistinct(p: Processor, dir: string, base: string, chain: seq<Level>, entries: seq<DirEntry>)
    requires DistinctNames(entries)
    ensures Distinct(ScanAll(p, dir, base, chain, entries).dirEntries)
    decreases |entries|
  {
    if entries != [] {
      var init := entries[..|entries| - 1];
      var e := entries[|entries| - 1];
      ScanDirsDistinct(p, dir, base, chain, init);
      var s0 := ScanAll(p, dir, base, chain, init);
      ScanMembership(p, dir, base, chain, init, e.name);
    }
  }

  /** Entry names are distinct. */
  ghost predicate DistinctNames(entries: seq<DirEntry>) {
    forall i, j :: 0 <= i < j < |entries| ==> entries[i].name != entries[j].name
  }

  /** A name as os.ReadDir lists it: one path element, neither empty nor a
      slash-holding path, nor "." or "..". */
  predicate PlainName(n: string) {
    n != [] && '/' !in n && n != "." && n != ".."
  }

  /** Every entry name is a plain name. */
  ghost predicate PlainNames(entries: seq<DirEntry>) {
    forall i :: 0 <= i < |entries| ==> PlainName(entries[i].name)
  }

  /** The listed directories of a listing of plain names, and the children
      recorded for them, have plain names. */
  lemma ScanDirsPlain(p: Processor, dir: string, base: string, chain: seq<Level>, entries: seq<DirEntry>)
    requires PlainNames(entries)
    ensures var s := ScanAll(p, dir, base, chain, entries);
      && (forall x :: x in s.dirEntries ==> PlainName(x))
      && (forall i :: 0 <= i < |s.childDirs| ==> PlainName(s.childDirs[i].name))
  {
    var s := ScanAll(p, dir, base, chain, entries);
    forall x | x in s.dirEntries
      ensures PlainName(x)
    {
      ScanMembership(p, dir, base, chain, entries, x);
    }
    ScanPairs(p, dir, base, chain, entries);
    forall i | 0 <= i < |s.childDirs|
      ensures PlainName(s.childDirs[i].name)
    {
      assert s.childDirs[i].name == Names(s.childDirs)[i];
    }
  }

  // ---------------------------------------------------------------------
  // pickKustomizationPath (processor.go:195-215)

  /** The answer of os.Stat for a path. */
  datatype StatResult = IsFile | IsDirectory | NotFound | StatError

  /** The manifest names, in the order they are probed (processor.go:196). */
  const Candidates: seq<string> := ["kustomization.yaml", "kustomization.yml"]

  /** The probe of the candidates from the `i`-th on: the first that is a
      file is used, a directory is passed over, a Stat failure other than
      "not found" is an error, and with none found the default name is used
      for a new manifest. */
  function PickFrom(dir: string, paths: PathOps, stat: string -> StatResult, i: nat): Result<(string, bool)>
    decreases |Candidates| - i
  {
    if i >= |Candidates| then Ok((paths.join(dir, "kustomization.yaml"), false))
    else
      var full := paths.join(dir, Candidates[i]);
      match stat(full)
      case IsFile => Ok((full, true))
      case StatError => Err(StatFailed(full))
      case _ => PickFrom(dir, paths, stat, i + 1)
  }

  /** pickKustomizationPath: the manifest path of `dir` and whether it exists. */
  method PickKustomizationPath(dir: string, paths: PathOps, stat: string -> StatResult)
    returns (r: Result<(string, bool)>)
    ensures r == PickFrom(dir, paths, stat, 0)
  {
    for i := 0 to |Candidates|
      invariant PickFrom(dir, paths, stat, i) == PickFrom(dir, paths, stat, 0)
    {
      var full := paths.join(dir, Candidates[i]);
      var info := stat(full);
      if info == IsFile {
        return Ok((full, true));
      }
      if info == StatError {
        return Err(StatFailed(full));
      }
    }
    return Ok((paths.join(dir, "kustomization.yaml"), false));
  }

  /** Neither found nor failed: os.Stat saw a directory or nothing. */
  predicate PassedOver(st: StatResult) {
    st == IsDirectory || st == NotFound
  }

  /** An existing manifest is the first candidate that is a file, every
      earlier one having been passed over; a new one gets the default name
      only when every candidate was passed over; an error names the first
      candidate whose Stat failed (processor.go:197-214). */
  lemma {:induction false} PickFacts(dir: string, paths: PathOps, stat: string -> StatResult, i: nat)
    requires i <= |Candidates|
    ensures var r := PickFrom(dir, paths, stat, i);
      && (r.Ok? && r.value.1 ==> exists k :: (i <= k < |Candidates| &&
            r.value.0 == paths.join(dir, Candidates[k]) && stat(r.value.0) == IsFile &&
            forall j :: i <= j < k ==> PassedOver(stat(paths.join(dir, Candidates[j])))))
      && (r.Ok? && !r.value.1 <==>
           forall j :: i <= j < |Candidates| ==> PassedOver(stat(paths.join(dir, Candidates[j]))))
      && (r.Ok? && !r.value.1 ==> r.value.0 == paths.join(dir, "kustomization.yaml"))
      && (r.Err? ==> exists k :: (i <= k < |Candidates| &&
            r.error == StatFailed(paths.join(dir, Candidates[k])) && stat(paths.join(dir, Candidates[k])) == StatError &&
            forall j :: i <= j < k ==> PassedOver(stat(paths.join(dir, Candidates[j])))))
    decreases |Candidates| - i
  {
    if i < |Candidates| {
      PickFacts(dir, paths, stat, i + 1);
    }
  }

  // ---------------------------------------------------------------------
  // loadMatcher (processor.go:175-183)

  /** loadMatcher: no matcher without .gitignore support, the memoised child
      of the parent matcher when there is one, and otherwise a root matcher.
      `file` is the .gitignore file of `dir`. */
  method LoadMatcher(opts: Options, dir: string, parent: Matcher?, file: IgnoreFile, paths: PathOps)
    returns (r: Result<Matcher?>)
    requires Chained(parent)
    modifies parent
    ensures !opts.useGitIgnore ==> r == Ok(null) && (parent != null ==> parent.children == old(parent.children))
    ensures opts.useGitIgnore && parent != null && dir in old(parent.children) ==>
      r == Ok(old(parent.children)[dir]) && parent.children == old(parent.children)
    ensures opts.useGitIgnore && (parent == null || dir !in old(parent.children)) ==>
      && (r.Err? <==> file.Unreadable?)
      && (r.Err? ==> r.error == IgnoreFileFailed(paths.join(dir, ".gitignore")))
      && (r.Ok? ==> (r.value != null && fresh(r.value) && r.value.dir == dir && r.value.parent == parent &&
            r.value.patterns == FilePatterns(file) && r.value.children == map[] && Chained(r.value)))
      && (parent != null ==> parent.children.Keys <= old(parent.children.Keys) + {dir})
  {
    if !opts.useGitIgnore {
      return Ok(null);
    }
    if parent != null {
      var child := parent.Child(dir, file, paths);
      r := if child.Ok? then Ok(child.value) else Err(child.error);
    } else {
      r := Load(dir, true, file, paths);
    }
  }

  // ---------------------------------------------------------------------
  // walkDir (processor.go:59-107)

  /** A directory of the filesystem snapshot: its listing (or the error
      os.ReadDir gives), its .gitignore file, os.Stat for paths in it, the
      resource list its manifest loads to (or the error reading or parsing
      it), whether writing its manifest succeeds, and its subdirectories. */
  datatype FsDir = FsDir(
    listing: Result<seq<DirEntry>>,
    ignoreFile: IgnoreFile,
    stat: string -> StatResult,
    manifest: Result<seq<string>>,
    writes: bool,
    subdirs: seq<SubDir>)

  datatype SubDir = SubDir(name: string, dir: FsDir)

  /** The index of the subdirectory called `name`, or -1. */
  function FindSub(subs: seq<SubDir>, name: string): (k: int)
    ensures -1 <= k < |subs|
    ensures k >= 0 ==> subs[k].name == name
    ensures k == -1 ==> forall j :: 0 <= j < |subs| ==> subs[j].name != name
  {
    if subs == [] then -1
    else if subs[|subs| - 1].name == name then |subs| - 1
    else FindSub(subs[..|subs| - 1], name)
  }

  /** The ignore chain of `dir`: its own level in front of the parent's chain
      when .gitignore files are used, and none otherwise. */
  function OwnChain(p: Processor, dir: string, chain: seq<Level>, fs: FsDir): seq<Level> {
    if p.opts.useGitIgnore then [Level(dir, FilePatterns(fs.ignoreFile))] + chain else []
  }

  /** What walkDir returns for `dir`, below a matcher whose chain is `chain`:
      the first error met, or the statistics of the directory's own manifest
      added to those of every subdirectory that is walked. */
  function WalkSpec(p: Processor, dir: string, base: string, chain: seq<Level>, fs: FsDir, skipUpdate: bool): Result<Stats>
    decreases fs, 1
  {
    if p.opts.useGitIgnore && fs.ignoreFile.Unreadable? then Err(IgnoreFileFailed(p.paths.join(dir, ".gitignore")))
    else if fs.listing.Err? then Err(ReadDirFailed(dir))
    else
      var own := OwnChain(p, dir, chain, fs);
      var scan := ScanAll(p, dir, base, own, fs.listing.value);
      match PickFrom(dir, p.paths, fs.stat, 0)
      case Err(e) => Err(e)
      case Ok((path, found)) =>
        var loaded := if found then fs.manifest else Ok([]);
        match ApplyOutcome(p.opts, path, loaded, fs.writes, scan.dirEntries, scan.fileEntries, skipUpdate)
        case Err(e) => Err(e)
        case Ok(stats) => ChildrenSpec(p, dir, base, own, fs, scan.childDirs, 0, stats)
  }

  /** The loop of walkDir over the children from the `k`-th on, with `acc`
      the statistics so far (processor.go:90-104): a child marked skipWalk is
      passed over, a child that is no longer there fails to be read. */
  function ChildrenSpec(p: Processor, dir: string, base: string, own: seq<Level>, fs: FsDir,
                        children: seq<ChildDir>, k: nat, acc: Stats): Result<Stats>
    decreases fs, 0, |children| - k
  {
    if k >= |children| then Ok(acc)
    else if children[k].skipWalk then ChildrenSpec(p, dir, base, own, fs, children, k + 1, acc)
    else
      var path := p.paths.join(dir, children[k].name);
      var i := FindSub(fs.subdirs, children[k].name);
      if i < 0 then Err(ReadDirFailed(path))
      else match WalkSpec(p, path, base, own, fs.subdirs[i].dir, children[k].skipUpdate)
        case Err(e) => Err(e)
        case Ok(cs) => ChildrenSpec(p, dir, base, own, fs, children, k + 1, Plus(acc, cs))
  }

  /** filepath.Join of a directory and a plain entry name tells plain names
      apart (it does not for names in general: Join("d", "a/") is
      Join("d", "a")). */
  ghost predicate JoinInjective(paths: PathOps) {
    forall d, a, b :: PlainName(a) && PlainName(b) && paths.join(d, a) == paths.join(d, b) ==> a == b
  }

  /** Every listing of the snapshot has distinct, plain names. */
  ghost predicate DistinctListings(fs: FsDir)
    decreases fs
  {
    && (fs.listing.Ok? ==> DistinctNames(fs.listing.value) && PlainNames(fs.listing.value))
    && forall i :: 0 <= i < |fs.subdirs| ==> DistinctListings(fs.subdirs[i].dir)
  }

  /** walkDir: the manifest of `dir` is reconciled and every subdirectory not
      marked skipWalk is walked with this directory's matcher. Each directory
      is visited once, so the parent's memo never holds `dir` yet. */
  method WalkDir(p: Processor, dir: string, base: string, parent: Matcher?, fs: FsDir, skipUpdate: bool)
    returns (r: Result<Stats>)
    requires Chained(parent)
    requires parent == null || dir !in parent.children
    requires JoinInjective(p.paths) && DistinctListings(fs)
    modifies parent
    ensures r == WalkSpec(p, dir, base, ChainOf(parent), fs, skipUpdate)
    ensures parent != null ==> parent.children.Keys <= old(parent.children.Keys) + {dir}
    decreases fs, 1
  {
    var loaded := LoadMatcher(p.opts, dir, parent, fs.ignoreFile, p.paths);
    if loaded.Err? {
      return Err(loaded.error);
    }
    var matcher := loaded.value;
    ghost var own := OwnChain(p, dir, ChainOf(parent), fs);
    assert ChainOf(matcher) == own;
    var scanned := ScanEntries(p, dir, base, matcher, fs.listing);
    if scanned.Err? {
      return Err(scanned.error);
    }
    var scan := scanned.value;
    var picked := PickKustomizationPath(dir, p.paths, fs.stat);
    if picked.Err? {
      return Err(picked.error);
    }
    var path := picked.value.0;
    var manifest := if picked.value.1 then fs.manifest else Ok([]);
    var applied := ApplyKustomization(p.opts, path, manifest, fs.writes, scan.dirEntries, scan.fileEntries, skipUpdate);
    if applied.Err? {
      return Err(applied.error);
    }
    var stats := applied.value;
    var children := scan.childDirs;
    ScanPairs(p, dir, base, own, fs.listing.value);
    ScanDirsDistinct(p, dir, base, own, fs.listing.value);
    ScanDirsPlain(p, dir, base, own, fs.listing.value);
    r := WalkChildren(p, dir, base, matcher, fs, children, stats);
  }

  /** The loop of walkDir over the children (processor.go:90-104). */
  method WalkChildren(p: Processor, dir: string, base: string, matcher: Matcher?, fs: FsDir,
                      children: seq<ChildDir>, stats0: Stats)
    returns (r: Result<Stats>)
    requires Chained(matcher)
    requires matcher == null || matcher.children == map[]
    requires JoinInjective(p.paths) && DistinctListings(fs)
    requires Distinct(Names(children))
    requires forall i :: 0 <= i < |children| ==> PlainName(children[i].name)
    modifies matcher
    ensures r == ChildrenSpec(p, dir, base, ChainOf(matcher), fs, children, 0, stats0)
    decreases fs, 0
  {
    var stats := stats0;
    ghost var own := ChainOf(matcher);
    for k := 0 to |children|
      invariant ChildrenSpec(p, dir, base, own, fs, children, k, stats) == ChildrenSpec(p, dir, base, own, fs, children, 0, stats0)
      invariant matcher != null ==> forall key :: key in matcher.children ==>
        exists j :: 0 <= j < k && key == p.paths.join(dir, children[j].name)
    {
      var child := children[k];
      if child.skipWalk {
        continue;
      }
      var childPath := p.paths.join(dir, child.name);
      var i := FindSub(fs.subdirs, child.name);
      if i < 0 {
        return Err(ReadDirFailed(childPath));
      }
      var res := WalkDir(p, childPath, base, matcher, fs.subdirs[i].dir, child.skipUpdate);
      if res.Err? {
        return Err(res.error);
      }
      stats := Plus(stats, res.value);
    }
    return Ok(stats);
  }

  /** The skip rules New compiles from the options. */
  function CompiledRules(patterns: seq<string>): seq<SkipRule> {
    seq(|patterns|, i requires 0 <= i < |patterns| => CompileRule(patterns[i]))
  }

  /** New (processor.go:46-52): the processor holds the options and one
      compiled rule per skip pattern, in order. */
  method New(opts: Options, paths: PathOps, glob: Glob) returns (p: Processor)
    ensures p.opts == opts && p.paths == paths && p.glob == glob
    ensures |p.skipRules| == |opts.skip|
    ensures forall i :: 0 <= i < |opts.skip| ==> p.skipRules[i] == CompileRule(opts.skip[i])
    ensures p.skipRules == CompiledRules(opts.skip)
  {
    var rules := ParseSkipRules(opts.skip);
    p := Processor(opts, rules, paths, glob);
  }

  /** Process (processor.go:55-57): the walk from `dir`, which is also the
      base of relative paths, with no parent matcher. */
  method Process(p: Processor, dir: string, fs: FsDir) returns (r: Result<Stats>)
    requires JoinInjective(p.paths) && DistinctListings(fs)
    ensures r == WalkSpec(p, dir, dir, [], fs, false)
  {
    r := WalkDir(p, dir, dir, null, fs, false);
  }

  /** Statistics that add up: no more reorders than rewritten manifests, and
      nothing added or removed without a rewrite. */
  predicate Coherent(s: Stats) {
    s.reordered <= s.updated && (s.added > 0 || s.removed > 0 ==> s.updated > 0)
  }

  /** The statistics of a walk are coherent: each directory's are
      (processor.go:229-239, 352-379), and the field-wise sum walkDir forms
      keeps them so (processor.go:83-103). */
  lemma {:induction false} WalkCoherent(p: Processor, dir: string, base: string, chain: seq<Level>, fs: FsDir, skipUpdate: bool)
    requires WalkSpec(p, dir, base, chain, fs, skipUpdate).Ok?
    ensures Coherent(WalkSpec(p, dir, base, chain, fs, skipUpdate).value)
    decreases fs, 1
  {
    var own := OwnChain(p, dir, chain, fs);
    var scan := ScanAll(p, dir, base, own, fs.listing.value);
    var (path, found) := PickFrom(dir, p.paths, fs.stat, 0).value;
    var loaded := if found then fs.manifest else Ok([]);
    ApplyFacts(p.opts, path, loaded, fs.writes, scan.dirEntries, scan.fileEntries, skipUpdate);
    if !skipUpdate && loaded.Ok? {
      DecideFacts(p.opts, loaded.value, scan.dirEntries, scan.fileEntries);
    }
    var stats := ApplyOutcome(p.opts, path, loaded, fs.writes, scan.dirEntries, scan.fileEntries, skipUpdate).value;
    assert Coherent(stats);
    ChildrenCoherent(p, dir, base, own, fs, scan.childDirs, 0, stats);
  }

  lemma {:induction false} ChildrenCoherent(p: Processor, dir: string, base: string, own: seq<Level>, fs: FsDir,
                                            children: seq<ChildDir>, k: nat, acc: Stats)
    requires Coherent(acc)
    requires ChildrenSpec(p, dir, base, own, fs, children, k, acc).Ok?
    ensures Coherent(ChildrenSpec(p, dir, base, own, fs, children, k, acc).value)
    decreases fs, 0, |children| - k
  {
    if k < |children| {
      if children[k].skipWalk {
        ChildrenCoherent(p, dir, base, own, fs, children, k + 1, acc);
      } else {
        var path := p.paths.join(dir, children[k].name);
        var i := FindSub(fs.subdirs, children[k].name);
        WalkCoherent(p, path, base, own, fs.subdirs[i].dir, children[k].skipUpdate);
        var cs := WalkSpec(p, path, base, own, fs.subdirs[i].dir, children[k].skipUpdate).value;
        ChildrenCoherent(p, dir, base, own, fs, children, k + 1, Plus(acc, cs));
      }
    }
  }
}
