/** The parts of Go's `strings` and `path` packages that the modelled code
    calls, over strings of characters. */
module StringOps {

  predicate HasPrefix(s: string, prefix: string) {
    |prefix| <= |s| && s[..|prefix|] == prefix
  }

  predicate HasSuffix(s: string, suffix: string) {
    |suffix| <= |s| && s[|s| - |suffix|..] == suffix
  }

  /** strings.ContainsAny(s, chars). */
  predicate ContainsAny(s: string, chars: string) {
    exists i :: 0 <= i < |s| && s[i] in chars
  }

  /** strings.TrimSuffix: drop `suffix` once when present. */
  function TrimSuffix(s: string, suffix: string): (r: string)
    ensures HasSuffix(s, suffix) ==> r + suffix == s
    ensures !HasSuffix(s, suffix) ==> r == s
  {
    if HasSuffix(s, suffix) then s[..|s| - |suffix|] else s
  }

  /** strings.TrimRight(s, cutset) with a one-character cutset: drop every trailing `c`. */
  function TrimRight(s: string, c: char): (r: string)
  {
    if s != [] && s[|s| - 1] == c then TrimRight(s[..|s| - 1], c) else s
  }

  /** TrimRight keeps a prefix, ends in something other than `c`, and drops
      only copies of `c`. */
  lemma {:induction false} TrimRightFacts(s: string, c: char)
    ensures var r := TrimRight(s, c);
      HasPrefix(s, r) && (r == [] || r[|r| - 1] != c)
      && forall i :: |r| <= i < |s| ==> s[i] == c
  {
    if s != [] && s[|s| - 1] == c {
      var s' := s[..|s| - 1];
      TrimRightFacts(s', c);
      var r := TrimRight(s', c);
      assert s[..|r|] == s'[..|r|];
      assert forall i :: |r| <= i < |s'| ==> s[i] == s'[i];
    }
  }

  /** unicode.IsSpace: the Latin-1 spaces and the other White_Space code points. */
  predicate IsSpace(c: char) {
    c == ' ' || c == '\t' || c == '\n' || c == '\r' || c == '\U{B}' || c == '\U{C}'
    || c == '\U{85}' || c == '\U{A0}' || c == '\U{1680}'
    || ('\U{2000}' <= c <= '\U{200A}') || c == '\U{2028}' || c == '\U{2029}'
    || c == '\U{202F}' || c == '\U{205F}' || c == '\U{3000}'
  }

  function TrimLeadingSpace(s: string): (r: string)
    ensures HasSuffix(s, r)
    ensures r == [] || !IsSpace(r[0])
  {
    if s != [] && IsSpace(s[0]) then
      var r := TrimLeadingSpace(s[1..]);
      assert s[|s| - |r|..] == s[1..][|s[1..]| - |r|..];
      r
    else s
  }

  function TrimTrailingSpace(s: string): (r: string)
    ensures HasPrefix(s, r)
    ensures r == [] || !IsSpace(r[|r| - 1])
  {
    if s != [] && IsSpace(s[|s| - 1]) then
      var r := TrimTrailingSpace(s[..|s| - 1]);
      assert s[..|r|] == s[..|s| - 1][..|r|];
      r
    else s
  }

  /** strings.TrimSpace: neither end of the result is a space. */
  function TrimSpace(s: string): (r: string)
    ensures r == [] || (!IsSpace(r[0]) && !IsSpace(r[|r| - 1]))
  {
    var t := TrimLeadingSpace(s);
    assert HasSuffix(s, t);
    var r := TrimTrailingSpace(t);
    assert r != [] ==> r[0] == t[0];
    r
  }

  /** TrimLeadingSpace drops exactly the run of spaces that starts `s`: what
      it drops is all spaces, and what it keeps is a suffix that does not
      start with one. */
  lemma {:induction false} TrimLeadingSpaceFacts(s: string)
    ensures var r := TrimLeadingSpace(s);
      HasSuffix(s, r) && (r == [] || !IsSpace(r[0]))
      && forall i :: 0 <= i < |s| - |r| ==> IsSpace(s[i])
  {
    if s != [] && IsSpace(s[0]) {
      TrimLeadingSpaceFacts(s[1..]);
      var r := TrimLeadingSpace(s[1..]);
      assert forall i :: 1 <= i < |s| - |r| ==> s[i] == s[1..][i - 1];
    }
  }

  /** TrimTrailingSpace drops exactly the run of spaces that ends `s`. */
  lemma {:induction false} TrimTrailingSpaceFacts(s: string)
    ensures var r := TrimTrailingSpace(s);
      HasPrefix(s, r) && (r == [] || !IsSpace(r[|r| - 1]))
      && forall i :: |r| <= i < |s| ==> IsSpace(s[i])
  {
    if s != [] && IsSpace(s[|s| - 1]) {
      TrimTrailingSpaceFacts(s[..|s| - 1]);
      var r := TrimTrailingSpace(s[..|s| - 1]);
      assert forall i :: |r| <= i < |s| - 1 ==> s[i] == s[..|s| - 1][i];
    }
  }

  /** TrimSpace keeps the middle of `s` between a leading and a trailing run
      of spaces, and that middle neither starts nor ends with a space. */
  lemma TrimSpaceFacts(s: string)
    ensures var r := TrimSpace(s);
      exists k :: 0 <= k <= |s| && HasPrefix(s[k..], r)
        && (forall i :: 0 <= i < k ==> IsSpace(s[i]))
        && (forall i :: k + |r| <= i < |s| ==> IsSpace(s[i]))
  {
    var t := TrimLeadingSpace(s);
    TrimLeadingSpaceFacts(s);
    TrimTrailingSpaceFacts(t);
    var r := TrimTrailingSpace(t);
    assert r == TrimSpace(s);
    var k := |s| - |t|;
    assert t == s[k..];
    assert HasPrefix(s[k..], r);
    forall i | k + |r| <= i < |s|
      ensures IsSpace(s[i])
    {
      assert s[i] == t[i - k];
    }
    assert 0 <= k <= |s| && HasPrefix(s[k..], r)
        && (forall i :: 0 <= i < k ==> IsSpace(s[i]))
        && (forall i :: k + |r| <= i < |s| ==> IsSpace(s[i]));
  }

  /** A string with no space at either end is its own TrimSpace. */
  lemma TrimSpaceOfTrimmed(s: string)
    requires s == [] || (!IsSpace(s[0]) && !IsSpace(s[|s| - 1]))
    ensures TrimSpace(s) == s
  {
  }

  /** unicode.ToLower per character. Only the characters whose lower-case form
      is ASCII are mapped (A-Z, U+0130 and U+212A); every other character is
      kept, which gives the same answer as Go whenever the lowered text is
      compared with an ASCII string or searched for one. */
  function LowerChar(c: char): char {
    if 'A' <= c <= 'Z' then (c as int + 32) as char
    else if c == '\U{130}' then 'i'
    else if c == '\U{212A}' then 'k'
    else c
  }

  /** strings.ToLower. */
  function ToLower(s: string): (r: string)
    ensures |r| == |s|
  {
    if s == [] then [] else [LowerChar(s[0])] + ToLower(s[1..])
  }

  lemma {:induction false} ToLowerAt(s: string, i: nat)
    requires i < |s|
    ensures ToLower(s)[i] == LowerChar(s[i])
    decreases i
  {
    if i > 0 { ToLowerAt(s[1..], i - 1); }
  }

  /** Index of the first `c` in `s`, when there is one. */
  function IndexOf(s: string, c: char): (r: int)
    ensures -1 <= r < |s|
    ensures r == -1 <==> c !in s
    ensures r >= 0 ==> s[r] == c && c !in s[..r]
  {
    if s == [] then -1
    else if s[0] == c then 0
    else
      var k := IndexOf(s[1..], c);
      assert c in s <==> c in s[1..] by {
        assert s == [s[0]] + s[1..];
      }
      if k == -1 then -1 else
        assert s[..k + 1] == [s[0]] + s[1..][..k];
        k + 1
  }

  /** strings.Split(s, sep) with a one-character separator. */
  function Split(s: string, sep: char): (parts: seq<string>)
    ensures |parts| >= 1
    decreases |s|
  {
    var i := IndexOf(s, sep);
    if i == -1 then [s] else [s[..i]] + Split(s[i + 1..], sep)
  }

  /** The parts of Split, joined back with the separator, restore the input. */
  function Join(parts: seq<string>, sep: char): string
    requires |parts| >= 1
  {
    if |parts| == 1 then parts[0] else parts[0] + [sep] + Join(parts[1..], sep)
  }

  lemma {:induction false} SplitJoin(s: string, sep: char)
    ensures Join(Split(s, sep), sep) == s
    decreases |s|
  {
    var i := IndexOf(s, sep);
    if i != -1 {
      var rest := Split(s[i + 1..], sep);
      assert Split(s, sep) == [s[..i]] + rest;
      JoinCons(s[..i], rest, sep);
      SplitJoin(s[i + 1..], sep);
      CutAt(s, i);
    }
  }

  lemma JoinCons(head: string, rest: seq<string>, sep: char)
    requires |rest| >= 1
    ensures Join([head] + rest, sep) == head + [sep] + Join(rest, sep)
  {
    var parts := [head] + rest;
    assert parts[0] == head && parts[1..] == rest;
  }

  lemma CutAt(s: string, i: nat)
    requires i < |s|
    ensures s == s[..i] + [s[i]] + s[i + 1..]
  {
  }

  /** No part of Split holds the separator. */
  lemma {:induction false} SplitPartsLackSep(s: string, sep: char)
    ensures forall p :: p in Split(s, sep) ==> sep !in p
    decreases |s|
  {
    var i := IndexOf(s, sep);
    if i != -1 {
      SplitPartsLackSep(s[i + 1..], sep);
    }
  }

  /** Index of the last `c` in `s`, when there is one. */
  function LastIndexOf(s: string, c: char): (r: int)
    ensures -1 <= r < |s|
    ensures r == -1 <==> c !in s
    ensures r >= 0 ==> s[r] == c && c !in s[r + 1..]
  {
    if s == [] then -1
    else if s[|s| - 1] == c then |s| - 1
    else
      assert s == s[..|s| - 1] + [s[|s| - 1]];
      var k := LastIndexOf(s[..|s| - 1], c);
      assert k >= 0 ==> s[k + 1..] == s[..|s| - 1][k + 1..] + [s[|s| - 1]];
      k
  }

  /** path.Base: the last element of a slash-separated path; "." for the empty
      path and "/" for a path made of slashes only. */
  function Base(p: string): (r: string)
    ensures r != []
    ensures '/' in r ==> r == "/"
    ensures '/' !in p && p != [] ==> r == p
  {
    if p == [] then "."
    else
      var t := TrimRight(p, '/');
      TrimRightFacts(p, '/');
      if t == [] then "/"
      else
        var i := LastIndexOf(t, '/');
        var b := t[i + 1..];
        assert b != [] by { assert t[|t| - 1] != '/'; }
        b
  }

  /** Base is the last element of the path once its trailing slashes are
      removed: a non-empty, slash-free suffix of what is left that starts
      right after a slash or at the start. */
  lemma BaseFacts(p: string)
    ensures p == [] ==> Base(p) == "."
    ensures p != [] && TrimRight(p, '/') == [] ==> Base(p) == "/"
    ensures var t, r := TrimRight(p, '/'), Base(p);
      t != [] ==> HasSuffix(t, r) && '/' !in r && (|r| == |t| || t[|t| - |r| - 1] == '/')
  {
    var t := TrimRight(p, '/');
    if t != [] {
      var i := LastIndexOf(t, '/');
      var r := t[i + 1..];
      assert p != [];
      assert Base(p) == r;
      assert |t| - |r| == i + 1;
      assert HasSuffix(t, r);
      assert '/' !in r;
      assert i >= 0 ==> t[|t| - |r| - 1] == '/';
    }
  }
}
