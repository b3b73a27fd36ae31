/** internal/gitignore/gitignore.go: per-directory ignore patterns stacked
    along the directory chain. */
module Gitignore {
  import opened Wrappers
  import opened Globs
  import opened Paths
  import opened StringOps

  const GlobChars := "*?[]"

  /** What opening and reading `dir/.gitignore` yields: no such file, its
      text, or an error (another `os.Open` failure or a scanner error). */
  datatype IgnoreFile = NoFile | Content(text: string) | Unreadable

  /** A line of a .gitignore file that carries a pattern (gitignore.go:122-126). */
  predicate IsPatternLine(line: string) {
    var t := TrimSpace(line);
    t != [] && !HasPrefix(t, "#")
  }

  /** What one line contributes: itself trimmed when it carries a pattern,
      nothing otherwise. */
  function Kept(line: string): seq<string> {
    if IsPatternLine(line) then [TrimSpace(line)] else []
  }

  /** The contributions of `f` for each element of `s`, concatenated. */
  function FlatMap<T, U>(f: T -> seq<U>, s: seq<T>): seq<U> {
    if s == [] then [] else f(s[0]) + FlatMap(f, s[1..])
  }

  lemma {:induction false} FlatMapConcat<T, U>(f: T -> seq<U>, a: seq<T>, b: seq<T>)
    ensures FlatMap(f, a + b) == FlatMap(f, a) + FlatMap(f, b)
    decreases |a|
  {
    if a == [] {
      assert a + b == b;
    } else {
      assert (a + b)[0] == a[0] && (a + b)[1..] == a[1..] + b;
      FlatMapConcat(f, a[1..], b);
    }
  }

  /** The patterns of a list of lines: each kept line, trimmed, in order. */
  function KeptLines(lines: seq<string>): seq<string> {
    FlatMap(Kept, lines)
  }

  /** Every pattern is non-empty, has no surrounding space and is not a comment. */
  ghost predicate WellFormedPatterns(patterns: seq<string>) {
    forall i :: 0 <= i < |patterns| ==>
      patterns[i] != [] && TrimSpace(patterns[i]) == patterns[i] && patterns[i][0] != '#'
  }

  lemma {:induction false} KeptLinesWellFormed(lines: seq<string>)
    ensures WellFormedPatterns(KeptLines(lines))
    ensures |KeptLines(lines)| <= |lines|
    decreases |lines|
  {
    if lines != [] {
      KeptLinesWellFormed(lines[1..]);
      var t := TrimSpace(lines[0]);
      if IsPatternLine(lines[0]) {
        TrimSpaceOfTrimmed(t);
        assert t[0] != '#' by { assert t[..1] != "#"; }
        var r := [t] + KeptLines(lines[1..]);
        assert forall i :: 1 <= i < |r| ==> r[i] == KeptLines(lines[1..])[i - 1];
      }
    }
  }

  /** The lines `bufio.Scanner` yields: the text split at newlines. The
      scanner also drops a final empty line and a trailing carriage return,
      both of which the trimming and filtering drop anyway. */
  function Lines(text: string): seq<string> {
    Split(text, '\n')
  }

  /** parseGitignore (gitignore.go:118-129). */
  method ParseGitignore(text: string) returns (patterns: seq<string>)
    ensures patterns == KeptLines(Lines(text))
    ensures WellFormedPatterns(patterns)
  {
    var lines := Lines(text);
    patterns := [];
    var i := 0;
    while i < |lines|
      invariant 0 <= i <= |lines|
      invariant patterns + KeptLines(lines[i..]) == KeptLines(lines)
    {
      var line := TrimSpace(lines[i]);
      ghost var rest := KeptLines(lines[i + 1..]);
      KeptLinesStep(lines, i);
      if line == [] || HasPrefix(line, "#") {
        assert KeptLines(lines[i..]) == rest by {
          assert !IsPatternLine(lines[i]);
          assert [] + rest == rest;
        }
        i := i + 1;
        continue;
      }
      assert KeptLines(lines[i..]) == [line] + rest by {
        assert IsPatternLine(lines[i]);
      }
      assert (patterns + [line]) + rest == patterns + ([line] + rest);
      patterns := patterns + [line];
      i := i + 1;
    }
    assert lines[i..] == [];
    assert patterns + [] == patterns;
    KeptLinesWellFormed(lines);
  }

  lemma KeptLinesStep(lines: seq<string>, i: nat)
    requires i < |lines|
    ensures KeptLines(lines[i..]) == Kept(lines[i]) + KeptLines(lines[i + 1..])
  {
    assert lines[i..][0] == lines[i] && lines[i..][1..] == lines[i + 1..];
  }

  lemma KeptLinesConcat(a: seq<string>, b: seq<string>)
    ensures KeptLines(a + b) == KeptLines(a) + KeptLines(b)
  {
    FlatMapConcat(Kept, a, b);
  }

  /** A blank or comment line anywhere in the file contributes nothing, and
      any other line contributes itself trimmed, in place
      (gitignore.go:122-126; gitignore_test.go:105-119). */
  lemma OneLineContribution(before: seq<string>, line: string, after: seq<string>)
    ensures KeptLines(before + [line] + after) == KeptLines(before) + Kept(line) + KeptLines(after)
    ensures Kept(line) == if IsPatternLine(line) then [TrimSpace(line)] else []
  {
    KeptLinesConcat(before + [line], after);
    KeptLinesConcat(before, [line]);
    assert KeptLines([line]) == Kept(line) by {
      assert [line][0] == line && [line][1..] == [];
      assert FlatMap(Kept, [line]) == Kept(line) + FlatMap(Kept, []);
    }
  }

  /** The patterns a matcher gets from its directory's file. */
  function FilePatterns(file: IgnoreFile): seq<string> {
    if file.Content? then KeptLines(Lines(file.text)) else []
  }

  /** matchesPattern (gitignore.go:132-155). */
  function MatchesPattern(rel: string, pattern: string, isDir: bool, glob: Glob): (r: bool)
    ensures pattern == [] ==> !r
    ensures HasSuffix(pattern, "/") && !isDir ==> !r
  {
    if pattern == [] then false
    else if HasSuffix(pattern, "/") && !isDir then false
    else
      var p := TrimSuffix(pattern, "/");
      if p == [] then true
      else if ContainsAny(p, GlobChars) then glob(p, rel) == Matched
      else rel == p
  }

  /** A pattern without glob characters matches exactly its own path, with a
      trailing slash restricting it to directories (gitignore.go:136-154). */
  lemma LiteralPatternMatches(rel: string, pattern: string, isDir: bool, glob: Glob)
    requires pattern != [] && pattern != "/" && !ContainsAny(pattern, GlobChars)
    requires isDir || !HasSuffix(pattern, "/")
    ensures MatchesPattern(rel, pattern, isDir, glob) <==> rel == TrimSuffix(pattern, "/")
  {
    var p := TrimSuffix(pattern, "/");
    assert p != [] by {
      if HasSuffix(pattern, "/") { assert |pattern| >= 2 by { assert pattern != "/"; } }
    }
    assert !ContainsAny(p, GlobChars) by {
      forall i | 0 <= i < |p| ensures p[i] !in GlobChars { assert p[i] == pattern[i]; }
    }
  }

  /** A glob pattern matches as the glob says, and not at all when the glob
      reports a bad pattern (gitignore.go:147-153). */
  lemma GlobPatternMatches(rel: string, pattern: string, isDir: bool, glob: Glob)
    requires ContainsAny(pattern, GlobChars)
    requires isDir || !HasSuffix(pattern, "/")
    ensures MatchesPattern(rel, pattern, isDir, glob) <==> glob(TrimSuffix(pattern, "/"), rel) == Matched
  {
    var p := TrimSuffix(pattern, "/");
    var i :| 0 <= i < |pattern| && pattern[i] in GlobChars;
    assert i < |p| by { assert pattern[|pattern| - 1] == '/' ==> i < |pattern| - 1; }
    assert p[i] == pattern[i];
  }

  /** The pattern "/" matches every directory and nothing else. */
  lemma SlashMatchesEveryDirectory(rel: string, isDir: bool, glob: Glob)
    ensures MatchesPattern(rel, "/", isDir, glob) <==> isDir
  {
  }

  /** The literal cases of gitignore_test.go:77-99. */
  lemma MatchesLiteralExamples(glob: Glob)
    ensures MatchesPattern("app.yaml", "app.yaml", false, glob)
    ensures !MatchesPattern("app.yaml", "other.yaml", false, glob)
  {
    assert "app.yaml"[7] != '/' && "other.yaml"[9] != '/';
    assert forall i :: 0 <= i < |"app.yaml"| ==> "app.yaml"[i] !in GlobChars;
    assert forall i :: 0 <= i < |"other.yaml"| ==> "other.yaml"[i] !in GlobChars;
  }

  /** The directory-only cases of gitignore_test.go:77-99. */
  lemma MatchesDirectoryExamples(glob: Glob)
    ensures MatchesPattern("config", "config/", true, glob)
    ensures !MatchesPattern("config/file", "config/", true, glob)
    ensures !MatchesPattern("config", "config/", false, glob)
  {
    assert "config/"[..6] == "config";
    assert forall i :: 0 <= i < |"config"| ==> "config"[i] !in GlobChars;
  }

  /** The glob cases of gitignore_test.go:77-99. */
  lemma MatchesGlobExamples(glob: Glob)
    requires glob("docs/*.md", "docs/guide.md") == Matched
    requires glob("src/*.md", "docs/guide.md") == NotMatched
    requires glob("[invalid", "path") == BadPattern
    ensures MatchesPattern("docs/guide.md", "docs/*.md", false, glob)
    ensures !MatchesPattern("docs/guide.md", "src/*.md", false, glob)
    ensures !MatchesPattern("path", "[invalid", false, glob)
  {
    assert "docs/*.md"[5] in GlobChars && "docs/*.md"[8] != '/';
    assert "src/*.md"[4] in GlobChars && "src/*.md"[7] != '/';
    assert "[invalid"[0] in GlobChars && "[invalid"[7] != '/';
  }

  /** A matcher: the patterns of one directory, the matcher of the directory
      above and the memo of child matchers (gitignore.go:21-26). */
  class Matcher {
    const dir: string
    const parent: Matcher?
    const patterns: seq<string>
    /** The number of matchers above this one. */
    ghost const depth: nat
    var children: map<string, Matcher>

    constructor (dir: string, parent: Matcher?, patterns: seq<string>)
      requires Chained(parent)
      ensures this.dir == dir && this.parent == parent && this.patterns == patterns
      ensures children == map[]
      ensures Chained(this)
    {
      this.dir := dir;
      this.parent := parent;
      this.patterns := patterns;
      this.depth := if parent == null then 0 else parent.depth + 1;
      this.children := map[];
    }

    /** Child (gitignore.go:97-115): the memoised matcher for `dir`, created
        from `file` on the first request. */
    method Child(dir: string, file: IgnoreFile, paths: PathOps) returns (r: Result<Matcher>)
      requires Chained(this)
      modifies this
      ensures dir in old(children) ==> r == Ok(old(children)[dir]) && children == old(children)
      ensures dir !in old(children) && file.Unreadable? ==>
        r == Err(IgnoreFileFailed(paths.join(dir, ".gitignore"))) && children == old(children)
      ensures dir !in old(children) && !file.Unreadable? ==>
        r.Ok? && fresh(r.value) && r.value.parent == this && r.value.dir == dir &&
        r.value.patterns == FilePatterns(file) && r.value.children == map[] &&
        children == old(children)[dir := r.value]
      ensures r.Ok? && dir !in old(children) ==> Chained(r.value)
    {
      if dir in children {
        return Ok(children[dir]);
      }
      r := NewMatcher(dir, this, file, paths);
      if r.Ok? {
        children := children[dir := r.value];
      }
    }
  }

  /** The parent chain is finite: every parent sits one level higher. */
  ghost predicate Chained(m: Matcher?)
    decreases if m == null then 0 else m.depth + 1
  {
    m == null ||
    (m.parent == null && m.depth == 0) ||
    (m.parent != null && m.depth == m.parent.depth + 1 && Chained(m.parent))
  }

  ghost function Rank(m: Matcher?): nat {
    if m == null then 0 else m.depth + 1
  }

  /** newMatcher (gitignore.go:37-62): a matcher for `dir` below `parent`,
      with the patterns of `dir/.gitignore`; a missing file gives no
      patterns, an unreadable one an error. */
  method NewMatcher(dir: string, parent: Matcher?, file: IgnoreFile, paths: PathOps) returns (r: Result<Matcher>)
    requires Chained(parent)
    ensures file.Unreadable? <==> r.Err?
    ensures r.Err? ==> r.error == IgnoreFileFailed(paths.join(dir, ".gitignore"))
    ensures r.Ok? ==>
      fresh(r.value) && r.value.dir == dir && r.value.parent == parent &&
      r.value.patterns == FilePatterns(file) && r.value.children == map[] && Chained(r.value)
  {
    match file
    case Unreadable =>
      r := Err(IgnoreFileFailed(paths.join(dir, ".gitignore")));
    case NoFile =>
      var m := new Matcher(dir, parent, []);
      r := Ok(m);
    case Content(text) =>
      var patterns := ParseGitignore(text);
      var m := new Matcher(dir, parent, patterns);
      r := Ok(m);
  }

  /** Load (gitignore.go:29-34): no matcher when .gitignore files are not
      used, otherwise a root matcher for `dir`. */
  method Load(dir: string, useGitignore: bool, file: IgnoreFile, paths: PathOps) returns (r: Result<Matcher?>)
    ensures !useGitignore ==> r == Ok(null)
    ensures useGitignore ==> (r.Err? <==> file.Unreadable?)
    ensures useGitignore && r.Err? ==> r.error == IgnoreFileFailed(paths.join(dir, ".gitignore"))
    ensures useGitignore && r.Ok? ==>
      r.value != null && fresh(r.value) && r.value.dir == dir && r.value.parent == null &&
      r.value.patterns == FilePatterns(file) && r.value.children == map[] && Chained(r.value)
  {
    if !useGitignore {
      return Ok(null);
    }
    var m := NewMatcher(dir, null, file, paths);
    match m
    case Ok(v) => r := Ok(v);
    case Err(e) => r := Err(e);
  }

  /** The path relative to a matcher's directory, "." standing for the
      directory itself (gitignore.go:71-80). */
  function RelTo(dir: string, fullPath: string, paths: PathOps): Option<string> {
    match paths.rel(dir, fullPath)
    case None => None
    case Some(rel) => Some(if rel == "." then "" else rel)
  }

  /** RelTo fails exactly when filepath.Rel does and is never ".": the
      directory itself becomes the empty path, anything else is kept. */
  lemma RelToFacts(dir: string, fullPath: string, paths: PathOps)
    ensures var r := RelTo(dir, fullPath, paths);
      && (r.None? <==> paths.rel(dir, fullPath).None?)
      && (r.Some? ==> r.value != "." && (r.value == "" <==> paths.rel(dir, fullPath).value in {".", ""}))
      && (r.Some? && r.value != "" ==> paths.rel(dir, fullPath) == r)
  {
  }

  /** One level of a matcher chain as a value: a directory and the patterns
      of its .gitignore file. */
  datatype Level = Level(dir: string, patterns: seq<string>)

  function LevelOf(m: Matcher): Level {
    Level(m.dir, m.patterns)
  }

  /** One of the level's patterns matches `fullPath`, taken relative to the
      level's directory. */
  predicate LevelMatch(l: Level, fullPath: string, isDir: bool, paths: PathOps, glob: Glob) {
    match RelTo(l.dir, fullPath, paths)
    case None => false
    case Some(rel) => exists i :: 0 <= i < |l.patterns| && MatchesPattern(rel, l.patterns[i], isDir, glob)
  }

  /** One of the matcher's own patterns matches `fullPath`. */
  predicate OwnMatch(m: Matcher, fullPath: string, isDir: bool, paths: PathOps, glob: Glob) {
    LevelMatch(LevelOf(m), fullPath, isDir, paths, glob)
  }

  /** A path is ignored when some matcher on the chain has a pattern for it. */
  predicate IgnoredBy(m: Matcher?, fullPath: string, isDir: bool, paths: PathOps, glob: Glob)
    requires Chained(m)
    decreases Rank(m)
  {
    m != null && (OwnMatch(m, fullPath, isDir, paths, glob) || IgnoredBy(m.parent, fullPath, isDir, paths, glob))
  }

  /** Ignored (gitignore.go:65-94): the matcher's own patterns first, then the
      parent's answer. */
  method Ignored(m: Matcher?, fullPath: string, isDir: bool, paths: PathOps, glob: Glob) returns (ignored: bool)
    requires Chained(m)
    ensures ignored == IgnoredBy(m, fullPath, isDir, paths, glob)
    ensures m == null ==> !ignored
    decreases Rank(m)
  {
    if m == null {
      return false;
    }
    var found := RelTo(m.dir, fullPath, paths);
    if found.None? {
      ignored := Ignored(m.parent, fullPath, isDir, paths, glob);
      return;
    }
    var rel := found.value;
    for i := 0 to |m.patterns|
      invariant forall j :: 0 <= j < i ==> !MatchesPattern(rel, m.patterns[j], isDir, glob)
    {
      if MatchesPattern(rel, m.patterns[i], isDir, glob) {
        return true;
      }
    }
    if m.parent != null {
      ignored := Ignored(m.parent, fullPath, isDir, paths, glob);
      return;
    }
    return false;
  }

  /** The matcher `k` levels up the chain, or null past the root. */
  function AncestorAt(m: Matcher?, k: nat): (a: Matcher?)
    requires Chained(m)
    ensures Chained(a)
    decreases k
  {
    if k == 0 || m == null then m else AncestorAt(m.parent, k - 1)
  }

  /** Whatever a matcher up the chain ignores, every matcher below it ignores
      too (gitignore.go:89-92). */
  lemma {:induction false} AncestorIgnoredIsIgnored(m: Matcher?, k: nat, fullPath: string, isDir: bool, paths: PathOps, glob: Glob)
    requires Chained(m)
    requires IgnoredBy(AncestorAt(m, k), fullPath, isDir, paths, glob)
    ensures IgnoredBy(m, fullPath, isDir, paths, glob)
    decreases k
  {
    if k > 0 && m != null {
      AncestorIgnoredIsIgnored(m.parent, k - 1, fullPath, isDir, paths, glob);
    }
  }

  /** And a path is ignored only because some matcher on the chain has a
      pattern for it. */
  lemma {:induction false} IgnoredHasCause(m: Matcher?, fullPath: string, isDir: bool, paths: PathOps, glob: Glob)
    requires Chained(m)
    requires IgnoredBy(m, fullPath, isDir, paths, glob)
    ensures exists k: nat :: AncestorAt(m, k) != null && OwnMatch(AncestorAt(m, k), fullPath, isDir, paths, glob)
    decreases Rank(m)
  {
    if !OwnMatch(m, fullPath, isDir, paths, glob) {
      IgnoredHasCause(m.parent, fullPath, isDir, paths, glob);
      var k: nat :| AncestorAt(m.parent, k) != null && OwnMatch(AncestorAt(m.parent, k), fullPath, isDir, paths, glob);
      assert AncestorAt(m, k + 1) == AncestorAt(m.parent, k);
    } else {
      assert AncestorAt(m, 0) == m;
    }
  }

  /** Asking twice for the same child yields the same matcher object, and the
      memo gains at most one entry (gitignore.go:102-112). */
  method ChildTwice(m: Matcher, dir: string, first: IgnoreFile, second: IgnoreFile, paths: PathOps)
    returns (a: Result<Matcher>, b: Result<Matcher>)
    requires Chained(m)
    modifies m
    ensures a.Ok? ==> b == a
    ensures |m.children.Keys| <= |old(m.children).Keys| + 1
  {
    a := m.Child(dir, first, paths);
    b := m.Child(dir, second, paths);
    assert m.children.Keys <= old(m.children).Keys + {dir};
  }

  /** The levels of a matcher chain, the matcher's own first. */
  ghost function ChainOf(m: Matcher?): (chain: seq<Level>)
    requires Chained(m)
    ensures m == null ==> chain == []
    ensures m != null ==> chain == [LevelOf(m)] + ChainOf(m.parent)
    decreases Rank(m)
  {
    if m == null then [] else [LevelOf(m)] + ChainOf(m.parent)
  }

  /** A path is ignored by a chain of levels when some level matches it. */
  predicate IgnoredIn(chain: seq<Level>, fullPath: string, isDir: bool, paths: PathOps, glob: Glob) {
    exists k :: 0 <= k < |chain| && LevelMatch(chain[k], fullPath, isDir, paths, glob)
  }

  /** A matcher ignores exactly what its chain of levels ignores: the
      parent-pointer walk of Ignored asks each matcher up to the root
      (gitignore.go:65-94). */
  lemma {:induction false} IgnoredByChain(m: Matcher?, fullPath: string, isDir: bool, paths: PathOps, glob: Glob)
    requires Chained(m)
    ensures IgnoredBy(m, fullPath, isDir, paths, glob) <==> IgnoredIn(ChainOf(m), fullPath, isDir, paths, glob)
    decreases Rank(m)
  {
    if m != null {
      IgnoredByChain(m.parent, fullPath, isDir, paths, glob);
      var c := ChainOf(m);
      assert c[0] == LevelOf(m);
      assert forall k :: 1 <= k < |c| ==> c[k] == ChainOf(m.parent)[k - 1];
      if IgnoredIn(ChainOf(m.parent), fullPath, isDir, paths, glob) {
        var k :| 0 <= k < |ChainOf(m.parent)| && LevelMatch(ChainOf(m.parent)[k], fullPath, isDir, paths, glob);
        assert c[k + 1] == ChainOf(m.parent)[k];
      }
    }
  }
}
