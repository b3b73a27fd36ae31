/** internal/processor/utils.go: the small predicates of the processor. */
module ProcessorUtils {
  import opened StringOps

  /** The two reserved manifest names (utils.go:6-8). */
  predicate IsKustomization(name: string) {
    name == "kustomization.yaml" || name == "kustomization.yml"
  }

  /** A YAML file name, ignoring case (utils.go:11-14). */
  predicate IsYAML(name: string) {
    var lowered := ToLower(name);
    HasSuffix(lowered, ".yaml") || HasSuffix(lowered, ".yml")
  }

  /** An http or https reference; `file://` and plain paths are local (utils.go:17-19). */
  predicate IsRemoteResource(entry: string) {
    HasPrefix(entry, "http://") || HasPrefix(entry, "https://")
  }

  /** equalStrings: the index scan of utils.go:22-32, from position `i` on. */
  function EqualFrom(a: seq<string>, b: seq<string>, i: nat): (r: bool)
    requires |a| == |b| && i <= |a|
    ensures r <==> a[i..] == b[i..]
    decreases |a| - i
  {
    if i == |a| then true
    else if a[i] != b[i] then false
    else
      var r := EqualFrom(a, b, i + 1);
      assert a[i..] == [a[i]] + a[i + 1..] && b[i..] == [b[i]] + b[i + 1..];
      r
  }

  /** equalStrings holds exactly when the two lists are equal (utils.go:22-32). */
  function EqualStrings(a: seq<string>, b: seq<string>): (r: bool)
    ensures r <==> |a| == |b| && forall i :: 0 <= i < |a| ==> a[i] == b[i]
    ensures r <==> a == b
  {
    if |a| != |b| then false
    else
      var r := EqualFrom(a, b, 0);
      assert a[0..] == a && b[0..] == b;
      r
  }

  /** Lowering `stem + ext` leaves a lowered `ext` at the end. */
  lemma LoweredSuffix(stem: string, ext: string, lowered: string)
    requires |ext| == |lowered|
    requires forall i :: 0 <= i < |ext| ==> LowerChar(ext[i]) == lowered[i]
    ensures HasSuffix(ToLower(stem + ext), lowered)
  {
    var l := ToLower(stem + ext);
    forall i | 0 <= i < |lowered| ensures l[|l| - |lowered|..][i] == lowered[i] {
      assert (stem + ext)[|stem| + i] == ext[i];
      ToLowerAt(stem + ext, |stem| + i);
    }
  }

  /** A reserved manifest name is itself a YAML name, so the scan must test
      for it before the YAML test (processor.go:128-130, 165-167). */
  lemma KustomizationIsYAML(name: string)
    requires IsKustomization(name)
    ensures IsYAML(name)
  {
    if name == "kustomization.yaml" {
      LoweredSuffix("kustomization", ".yaml", ".yaml");
      assert "kustomization" + ".yaml" == name;
    } else {
      LoweredSuffix("kustomization", ".yml", ".yml");
      assert "kustomization" + ".yml" == name;
    }
  }

  /** Lower-casing is idempotent character by character. */
  lemma LowerCharIdempotent(c: char)
    ensures LowerChar(LowerChar(c)) == LowerChar(c)
  {
  }

  /** The YAML test does not depend on case: lowering the name first changes nothing. */
  lemma IsYAMLIgnoresCase(name: string)
    ensures IsYAML(ToLower(name)) <==> IsYAML(name)
  {
    forall i | 0 <= i < |name| ensures ToLower(ToLower(name))[i] == ToLower(name)[i] {
      LowerCharIdempotent(name[i]);
      ToLowerAt(name, i);
      ToLowerAt(ToLower(name), i);
    }
    assert ToLower(ToLower(name)) == ToLower(name);
  }

  /** Any stem followed by ".yaml", ".yml" or an upper-case form of them is YAML
      (utils_test.go:29-46). */
  lemma IsYAMLExtensions(stem: string)
    ensures IsYAML(stem + ".yaml") && IsYAML(stem + ".yml")
    ensures IsYAML(stem + ".YAML") && IsYAML(stem + ".YML")
  {
    LoweredSuffix(stem, ".yaml", ".yaml");
    LoweredSuffix(stem, ".yml", ".yml");
    LoweredSuffix(stem, ".YAML", ".yaml");
    LoweredSuffix(stem, ".YML", ".yml");
  }

  /** A remote reference contains a slash, so no directory entry name (which
      never does) is remote (utils.go:17-19). */
  lemma RemoteHasSlash(entry: string)
    requires IsRemoteResource(entry)
    ensures '/' in entry
  {
    if HasPrefix(entry, "http://") { assert entry[5] == '/'; } else { assert entry[6] == '/'; }
  }

  /** `file://` references are not remote (utils_test.go:48-65). */
  lemma FileSchemeIsLocal(rest: string)
    ensures !IsRemoteResource("file://" + rest)
  {
    var e := "file://" + rest;
    assert e[0] == 'f';
  }
}
