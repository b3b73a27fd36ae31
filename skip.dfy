/** internal/processor/skip.go: user skip patterns compiled into rules, and
    the first-match decision whether a path is skipped. */
module Skip {
  import opened StringOps
  import opened Globs

  /** How a rule behaves (skip.go:10-17). */
  datatype SkipMode = Exact | GlobMode | Subtree | Children

  /** A compiled pattern (skip.go:20-24). */
  datatype SkipRule = SkipRule(raw: string, mode: SkipMode, value: string)

  /** How the walk treats a listed subdirectory (skip.go:27-31). */
  datatype ChildDir = ChildDir(name: string, skipUpdate: bool, skipWalk: bool)

  /** The characters that make a pattern a glob. */
  const GlobChars := "*?[]"

  /** The compilation of one pattern, the body of the loop in parseSkipRules
      (skip.go:37-56). */
  function CompileRule(raw: string): (r: SkipRule)
    ensures r.raw == raw
  {
    var canonical := TrimRight(raw, '/');
    if HasSuffix(canonical, "/**") then SkipRule(raw, Subtree, TrimSuffix(canonical, "/**"))
    else if HasSuffix(raw, "/*") then SkipRule(raw, Children, TrimSuffix(canonical, "/*"))
    else if ContainsAny(raw, GlobChars) then SkipRule(raw, GlobMode, raw)
    else SkipRule(raw, Exact, TrimSuffix(raw, "/"))
  }

  /** parseSkipRules (skip.go:34-60): one rule per pattern, in order. */
  method ParseSkipRules(patterns: seq<string>) returns (rules: seq<SkipRule>)
    ensures |rules| == |patterns|
    ensures forall i :: 0 <= i < |patterns| ==> rules[i] == CompileRule(patterns[i])
  {
    rules := [];
    var i := 0;
    while i < |patterns|
      invariant i <= |patterns| && |rules| == i
      invariant forall j :: 0 <= j < i ==> rules[j] == CompileRule(patterns[j])
    {
      var rule := CompileRule(patterns[i]);
      rules := rules + [rule];
      i := i + 1;
    }
  }

  /** `n` slashes. */
  function Slashes(n: nat): (r: string)
    ensures |r| == n && forall i :: 0 <= i < n ==> r[i] == '/'
  {
    if n == 0 then [] else Slashes(n - 1) + "/"
  }

  lemma {:induction false} TrimRightSlashes(p: string, n: nat)
    requires p != [] && p[|p| - 1] != '/'
    ensures TrimRight(p + Slashes(n), '/') == p
    decreases n
  {
    if n == 0 {
      assert p + Slashes(0) == p;
    } else {
      var s := p + Slashes(n);
      assert s[|s| - 1] == '/';
      assert s[..|s| - 1] == p + Slashes(n - 1);
      TrimRightSlashes(p, n - 1);
    }
  }

  // A pattern `p` + "/**", with any number of trailing slashes, is a Subtree
  // rule for `p` (skip.go:40-43).
  lemma CompileSubtree(p: string, n: nat)
    ensures CompileRule(p + "/**" + Slashes(n)) == SkipRule(p + "/**" + Slashes(n), Subtree, p)
  {
    var stem := p + "/**";
    TrimRightSlashes(stem, n);
    assert stem[|stem| - 3..] == "/**";
    assert stem[..|stem| - 3] == p;
  }

  // A pattern `p` + "/*" is a Children rule for `p` (skip.go:44-47).
  lemma CompileChildren(p: string)
    ensures CompileRule(p + "/*") == SkipRule(p + "/*", Children, p)
  {
    var raw := p + "/*";
    assert TrimRight(raw, '/') == raw by { assert raw[|raw| - 1] == '*'; }
    assert raw[|raw| - 2] == '/' && "/**"[1] == '*';
    assert raw[|raw| - 2..] == "/*";
    assert raw[..|raw| - 2] == p;
  }

  /** A pattern with a glob character that is neither a Subtree nor a Children
      pattern is a Glob rule on the raw pattern (skip.go:48-51). */
  lemma CompileGlob(raw: string)
    requires ContainsAny(raw, GlobChars)
    requires !HasSuffix(TrimRight(raw, '/'), "/**") && !HasSuffix(raw, "/*")
    ensures CompileRule(raw) == SkipRule(raw, GlobMode, raw)
  {
  }

  /** A pattern without glob characters is an Exact rule with one trailing
      slash removed (skip.go:52-55). */
  lemma CompileExact(raw: string)
    requires !ContainsAny(raw, GlobChars)
    ensures CompileRule(raw) == SkipRule(raw, Exact, TrimSuffix(raw, "/"))
  {
    var canonical := TrimRight(raw, '/');
    TrimRightFacts(raw, '/');
    assert '*' in GlobChars;
    assert canonical != [] ==> canonical[|canonical| - 1] == raw[|canonical| - 1] != '*';
    assert raw != [] ==> raw[|raw| - 1] != '*';
  }

  /** matchesChild (skip.go:130-139): `rel` is a direct child of `prefix`. */
  predicate MatchesChild(rel: string, prefix: string) {
    if prefix == [] then '/' !in rel
    else
      HasPrefix(rel, prefix + "/") &&
      var rest := rel[|prefix| + 1..];
      rest != [] && '/' !in rest
  }

  /** Every one-segment extension of a non-empty prefix is a child of it. */
  lemma ChildOfPrefix(prefix: string, s: string)
    requires prefix != [] && s != [] && '/' !in s
    ensures MatchesChild(prefix + "/" + s, prefix)
  {
    var rel := prefix + "/" + s;
    assert rel[..|prefix + "/"|] == prefix + "/";
    assert rel[|prefix| + 1..] == s;
  }

  /** And only those are. */
  lemma ChildIsExtension(rel: string, prefix: string)
    requires prefix != [] && MatchesChild(rel, prefix)
    ensures rel == prefix + "/" + rel[|prefix| + 1..]
    ensures rel[|prefix| + 1..] != [] && '/' !in rel[|prefix| + 1..]
  {
    assert rel == rel[..|prefix| + 1] + rel[|prefix| + 1..];
  }

  /** The examples of skip_test.go:67-69. */
  lemma MatchesChildExamples()
    ensures MatchesChild("flux/config/app", "flux/config")
    ensures !MatchesChild("flux/config/app/sub", "flux/config")
    ensures MatchesChild("app", "")
  {
    ChildOfPrefix("flux/config", "app");
    assert "flux/config/app/sub"[12..] == "app/sub";
    assert "app/sub"[3] == '/';
  }

  /** Whether one rule matches `rel` (the cases of skip.go:65-100). */
  predicate RuleMatches(rule: SkipRule, rel: string, isDir: bool, glob: Glob) {
    match rule.mode
    case Subtree => rel == rule.value
    case Children => (isDir && rel == rule.value) || MatchesChild(rel, rule.value)
    case Exact => rel == rule.value || ('/' !in rule.value && Base(rel) == rule.value)
    case GlobMode =>
      glob(rule.value, rel) == Matched ||
      ('/' !in rule.value && glob(rule.value, Base(rel)) == Matched)
  }

  /** The result of matchSkip: no rule matched, or the mode and raw pattern of
      the rule that did. */
  datatype SkipVerdict = NoSkip | SkipBy(mode: SkipMode, pattern: string)

  /** matchSkip (skip.go:63-104) as the first-match search it performs. */
  function MatchSkip(rel: string, isDir: bool, rules: seq<SkipRule>, glob: Glob): (v: SkipVerdict)
  {
    if rules == [] then NoSkip
    else if RuleMatches(rules[0], rel, isDir, glob) then SkipBy(rules[0].mode, rules[0].raw)
    else MatchSkip(rel, isDir, rules[1..], glob)
  }

  /** The Go triple `(skip, mode, pattern)` returned by matchSkip. */
  function VerdictTriple(v: SkipVerdict): (t: (bool, SkipMode, string))
    ensures t.0 <==> v.SkipBy?
    ensures !t.0 ==> t.1 == Exact && t.2 == []
  {
    match v
    case NoSkip => (false, Exact, "")
    case SkipBy(mode, pattern) => (true, mode, pattern)
  }

  /** matchSkip skips exactly when some rule matches, and then reports the first
      such rule in configuration order (skip.go:64-103). */
  lemma MatchSkipFirstMatch(rel: string, isDir: bool, rules: seq<SkipRule>, glob: Glob)
    ensures MatchSkip(rel, isDir, rules, glob) == NoSkip <==>
      forall i :: 0 <= i < |rules| ==> !RuleMatches(rules[i], rel, isDir, glob)
    ensures MatchSkip(rel, isDir, rules, glob).SkipBy? ==>
      exists i :: 0 <= i < |rules| && RuleMatches(rules[i], rel, isDir, glob) &&
        (forall j :: 0 <= j < i ==> !RuleMatches(rules[j], rel, isDir, glob)) &&
        MatchSkip(rel, isDir, rules, glob) == SkipBy(rules[i].mode, rules[i].raw)
  {
    MatchSkipNone(rel, isDir, rules, glob);
    if MatchSkip(rel, isDir, rules, glob).SkipBy? {
      var i := MatchSkipFirst(rel, isDir, rules, glob);
    }
  }

  lemma {:induction false} MatchSkipNone(rel: string, isDir: bool, rules: seq<SkipRule>, glob: Glob)
    ensures MatchSkip(rel, isDir, rules, glob) == NoSkip <==>
      forall i :: 0 <= i < |rules| ==> !RuleMatches(rules[i], rel, isDir, glob)
    decreases |rules|
  {
    if rules != [] && !RuleMatches(rules[0], rel, isDir, glob) {
      var tail := rules[1..];
      MatchSkipNone(rel, isDir, tail, glob);
      forall i | 0 < i < |rules| ensures rules[i] == tail[i - 1] { }
    }
  }

  /** The position of the rule matchSkip reports. */
  lemma {:induction false} MatchSkipFirst(rel: string, isDir: bool, rules: seq<SkipRule>, glob: Glob) returns (i: nat)
    requires MatchSkip(rel, isDir, rules, glob).SkipBy?
    ensures i < |rules| && RuleMatches(rules[i], rel, isDir, glob)
    ensures forall j :: 0 <= j < i ==> !RuleMatches(rules[j], rel, isDir, glob)
    ensures MatchSkip(rel, isDir, rules, glob) == SkipBy(rules[i].mode, rules[i].raw)
    decreases |rules|
  {
    if RuleMatches(rules[0], rel, isDir, glob) {
      i := 0;
    } else {
      var tail := rules[1..];
      var t := MatchSkipFirst(rel, isDir, tail, glob);
      i := t + 1;
      assert rules[i] == tail[t];
      NoneBefore(r => RuleMatches(r, rel, isDir, glob), rules, t);
    }
  }

  /** When the first element fails `p` and the first `t` of the rest fail it
      too, the first `t + 1` elements fail it. */
  lemma NoneBefore(p: SkipRule -> bool, rules: seq<SkipRule>, t: nat)
    requires t < |rules| - 1 && !p(rules[0])
    requires forall j :: 0 <= j < t ==> !p(rules[1..][j])
    ensures forall j :: 0 <= j < t + 1 ==> !p(rules[j])
  {
    forall j | 0 < j < t + 1 ensures !p(rules[j]) {
      assert rules[j] == rules[1..][j - 1];
    }
  }

  /** A Subtree rule matches its own path only, directory or not
      (skip.go:66-70). */
  lemma SubtreeMatchesOnlyItself(p: string, rel: string, isDir: bool, glob: Glob)
    ensures RuleMatches(SkipRule(p + "/**", Subtree, p), rel, isDir, glob) <==> rel == p
  {
  }

  /** A Children rule compiled from `p` + "/" + "*" matches the directory `p` itself and
      every direct child of `p` (skip.go:71-78). */
  lemma ChildrenRuleMatches(p: string, s: string, glob: Glob)
    requires p != [] && s != [] && '/' !in s
    ensures RuleMatches(CompileRule(p + "/*"), p, true, glob)
    ensures RuleMatches(CompileRule(p + "/*"), p + "/" + s, false, glob)
  {
    CompileChildren(p);
    ChildOfPrefix(p, s);
  }

  /** An Exact rule without a slash also matches by base name
      (skip.go:85-88). */
  lemma ExactMatchesBaseName(name: string, dir: string, glob: Glob)
    requires name != [] && '/' !in name && !ContainsAny(name, GlobChars)
    ensures RuleMatches(CompileRule(name), name, false, glob)
    ensures RuleMatches(CompileRule(name), dir + "/" + name, false, glob)
  {
    CompileExact(name);
    assert name[|name| - 1] != '/';
    BaseOfJoin(dir, name);
  }

  /** A rule compiled as a glob matches where the glob accepts the whole
      path, or, for a pattern without a slash, the base name; a bad pattern
      matches nothing (skip.go:89-99). */
  lemma GlobRuleMatches(raw: string, rel: string, isDir: bool, glob: Glob)
    requires CompileRule(raw).mode == GlobMode
    ensures RuleMatches(CompileRule(raw), rel, isDir, glob) <==>
      glob(raw, rel) == Matched || ('/' !in raw && glob(raw, Base(rel)) == Matched)
  {
  }

  /** The base name of `dir/name` is `name`. */
  lemma BaseOfJoin(dir: string, name: string)
    requires name != [] && '/' !in name
    ensures Base(dir + "/" + name) == name
  {
    var p := dir + "/" + name;
    assert TrimRight(p, '/') == p by { assert p[|p| - 1] == name[|name| - 1]; }
    var i := LastIndexOf(p, '/');
    assert p[|dir|] == '/';
    assert i == |dir| by {
      assert p[|dir| + 1..] == name;
    }
  }

  /** The children case of skip_test.go:21-26. */
  lemma MatchSkipChildrenExample(glob: Glob)
    ensures MatchSkip("flux/config/child", true, [CompileRule("flux/config/*")], glob) == SkipBy(Children, "flux/config/*")
  {
    ChildrenRuleMatches("flux/config", "child", glob);
    assert "flux/config" + "/*" == "flux/config/*";
    assert "flux/config" + "/" + "child" == "flux/config/child";
  }

  /** The glob case of skip_test.go:28-33, for any glob that matches the
      sample file. */
  lemma MatchSkipGlobExample(glob: Glob)
    requires glob("flux/*.yaml", "flux/sample.yaml") == Matched
    ensures MatchSkip("flux/sample.yaml", false, [CompileRule("flux/*.yaml")], glob) == SkipBy(GlobMode, "flux/*.yaml")
  {
    var g := "flux/*.yaml";
    assert g[5] in GlobChars;
    assert TrimRight(g, '/') == g by { assert g[|g| - 1] == 'l'; }
    assert g[|g| - 1] == 'l' && "/*"[1] == '*' && "/**"[2] == '*';
    CompileGlob(g);
  }

  /** The exact case of skip_test.go:35-40. */
  lemma MatchSkipExactExample(glob: Glob)
    ensures MatchSkip("README", false, [CompileRule("README")], glob) == SkipBy(Exact, "README")
  {
    var n := "README";
    assert forall i :: 0 <= i < |n| ==> n[i] !in GlobChars;
    CompileExact(n);
    assert n[|n| - 1] != '/';
  }

  /** skip_test.go:14-19 expects a Subtree verdict for a path below the rule,
      but a Subtree rule matches only its own path, so the code leaves
      `flux/config/nested` alone. */
  lemma SubtreeDoesNotMatchBelow(glob: Glob)
    ensures MatchSkip("flux/config/nested", true, [CompileRule("flux/config/**")], glob) == NoSkip
  {
    CompileSubtree("flux/config", 0);
    assert "flux/config" + "/**" + Slashes(0) == "flux/config/**";
  }

  /** handleSkipDir (skip.go:107-127): how a skipped directory changes the
      directory list and the child list. */
  function HandleSkipDir(name: string, mode: SkipMode, dirEntries: seq<string>, childDirs: seq<ChildDir>)
    : (r: (seq<string>, seq<ChildDir>))
  {
    match mode
    case Children => (dirEntries + [name], childDirs + [ChildDir(name, false, true)])
    case Subtree => (dirEntries + [name], childDirs + [ChildDir(name, true, false)])
    case _ => (dirEntries, childDirs)
  }

  function Names(children: seq<ChildDir>): (r: seq<string>)
    ensures |r| == |children|
    ensures forall i :: 0 <= i < |children| ==> r[i] == children[i].name
  {
    if children == [] then [] else Names(children[..|children| - 1]) + [children[|children| - 1].name]
  }

  /** handleSkipDir appends at most one entry to each list, and lists a
      directory exactly when it records a child for it: Children walks
      nothing below it, Subtree does not rewrite its manifest, and every other
      mode drops it (skip.go:107-127). */
  lemma HandleSkipDirEffect(name: string, mode: SkipMode, dirEntries: seq<string>, childDirs: seq<ChildDir>)
    ensures var (d, c) := HandleSkipDir(name, mode, dirEntries, childDirs);
      if mode == Children || mode == Subtree then
        d == dirEntries + [name] &&
        c == childDirs + [ChildDir(name, mode == Subtree, mode == Children)]
      else d == dirEntries && c == childDirs
  {
  }

  /** handleSkipDir keeps the child names in step with the directory list. */
  lemma HandleSkipDirKeepsPairing(name: string, mode: SkipMode, dirEntries: seq<string>, childDirs: seq<ChildDir>)
    requires Names(childDirs) == dirEntries
    ensures var (d, c) := HandleSkipDir(name, mode, dirEntries, childDirs);
      Names(c) == d && (c == childDirs || c[|c| - 1].skipUpdate != c[|c| - 1].skipWalk)
  {
    var (d, c) := HandleSkipDir(name, mode, dirEntries, childDirs);
    if c != childDirs {
      assert c[..|c| - 1] == childDirs;
    }
  }

  /** The calls of skip_test.go:43-60. */
  lemma HandleSkipDirExamples()
    ensures HandleSkipDir("flux/config", Children, [], []) == (["flux/config"], [ChildDir("flux/config", false, true)])
    ensures HandleSkipDir("flux/config", Subtree, [], []) == (["flux/config"], [ChildDir("flux/config", true, false)])
    ensures HandleSkipDir("flux/config", Exact, ["foo"], []) == (["foo"], [])
  {
    assert [] + ["flux/config"] == ["flux/config"];
    assert [] + [ChildDir("flux/config", false, true)] == [ChildDir("flux/config", false, true)];
    assert [] + [ChildDir("flux/config", true, false)] == [ChildDir("flux/config", true, false)];
  }
}
