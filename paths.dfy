/**
  Slash-separated paths as the composers use them: Go's path.Join at the
  join point, path.Ext without its dot, the manifest's directory, and the
  package qualification shared by sequence components and rule targets.
 */
module Paths {
  import opened Whisk
  import opened Strs

  function TrimLeadingSlashes(s: string): (r: string)
    ensures r == [] || r[0] != '/'
    ensures s == [] || s[0] != '/' ==> r == s
  {
    if s != [] && s[0] == '/' then TrimLeadingSlashes(s[1..]) else s
  }

  function TrimTrailingSlashes(s: string): (r: string)
    ensures r == [] || r[|r| - 1] != '/'
    ensures s == [] || s[|s| - 1] != '/' ==> r == s
  {
    if s != [] && s[|s| - 1] == '/' then TrimTrailingSlashes(s[..|s| - 1]) else s
  }

  /**
    path.Join of two elements. Empty elements are dropped and the slashes at
    the join point collapse to one; the rest of path.Clean ("." and ".."
    segments, repeated slashes inside an element) is not modelled.
   */
  function PathJoin(a: string, b: string): (r: string)
    ensures a != "" && b != "" && a[|a| - 1] != '/' && b[0] != '/' ==> r == a + "/" + b
    ensures a == "/" && b != "" && b[0] != '/' ==> r == "/" + b
  {
    if a == "" then b
    else if b == "" then a
    else TrimTrailingSlashes(a) + "/" + TrimLeadingSlashes(b)
  }

  /** The suffix of the last path element that starts at its last dot, if there is one. */
  function DotSuffix(p: string): (r: Option<string>)
    ensures r.Some? ==> |r.value| >= 1 && r.value[0] == '.' && '.' !in r.value[1..] && '/' !in r.value
    ensures r.Some? ==> |r.value| <= |p| && p[|p| - |r.value|..] == r.value
    decreases |p|
  {
    if p == [] || p[|p| - 1] == '/' then None
    else if p[|p| - 1] == '.' then Some(".")
    else
      match DotSuffix(p[..|p| - 1])
      case None => None
      case Some(e) =>
        DotSuffixGrow(p, e);
        Some(e + [p[|p| - 1]])
  }

  /** A dot suffix of all but the last character grows by that character when it is neither '/' nor '.'. */
  lemma DotSuffixGrow(p: string, e: string)
    requires p != [] && p[|p| - 1] != '/' && p[|p| - 1] != '.'
    requires |e| >= 1 && e[0] == '.' && '.' !in e[1..] && '/' !in e
    requires |e| <= |p| - 1 && p[..|p| - 1][|p| - 1 - |e|..] == e
    ensures var r := e + [p[|p| - 1]];
      |r| >= 1 && r[0] == '.' && '.' !in r[1..] && '/' !in r && |r| <= |p| && p[|p| - |r|..] == r
  {
    var c := p[|p| - 1];
    var r := e + [c];
    assert r[1..] == e[1..] + [c];
    assert p[|p| - |r|..] == p[..|p| - 1][|p| - 1 - |e|..] + [c];
  }

  /**
    path.Ext with the leading dot dropped: the text after the last dot of
    the last path element, or "" when that element has no dot.
   */
  function FileExtension(p: string): (e: string)
    ensures '.' !in e && '/' !in e
    ensures |e| <= |p| && p[|p| - |e|..] == e
  {
    match DotSuffix(p)
    case None => ""
    case Some(d) => d[1..]
  }

  /** A file name built as stem + "." + extension has that extension, whatever the stem. */
  lemma {:induction false} ExtensionOfName(stem: string, ext: string)
    requires '.' !in ext && '/' !in ext
    ensures FileExtension(stem + "." + ext) == ext
  {
    DotSuffixOfName(stem, ext);
  }

  lemma {:induction false} DotSuffixOfName(stem: string, ext: string)
    requires '.' !in ext && '/' !in ext
    ensures DotSuffix(stem + "." + ext) == Some("." + ext)
    decreases |ext|
  {
    if ext != [] {
      var init := ext[..|ext| - 1];
      var last := ext[|ext| - 1];
      assert stem + "." + ext == (stem + "." + init) + [last] && last != '/' && last != '.' &&
             '.' !in init && '/' !in init && ("." + init) + [last] == "." + ext by {
        assert ext == init + [last];
        assert forall c :: c in init ==> c in ext;
      }
      DotSuffixOfName(stem, init);
      DotSuffixStep(stem + "." + init, last);
    } else {
      var p := stem + ".";
      assert p[|p| - 1] == '.';
      assert "." + ext == ".";
    }
  }

  /** One more character other than '/' and '.' extends the dot suffix, if there is one. */
  lemma DotSuffixStep(p: string, c: char)
    requires c != '/' && c != '.'
    ensures DotSuffix(p + [c]) == if DotSuffix(p).Some? then Some(DotSuffix(p).value + [c]) else None
  {
    var q := p + [c];
    assert q[..|q| - 1] == p;
  }

  /**
    The directory part of the manifest path, as
    strings.TrimRight(filePath, lastSegment) computes it: the cut-set trim
    stops at the last '/', so exactly the file name is removed.
   */
  function ManifestDir(filePath: string): (d: string)
    ensures d == filePath[..|filePath| - |LastSegment(filePath, '/')|]
    ensures d == [] || d[|d| - 1] == '/'
  {
    TrimLastSegment(filePath, '/');
    TrimRightCutset(filePath, LastSegment(filePath, '/'))
  }

  /**
    The package qualification of sequence components and rule targets: a
    name holding no '/' (and so not starting with "packageName/") is joined
    under the package; anything else is kept.
   */
  function Qualify(packageName: string, act: string): (r: string)
    ensures '/' in act ==> r == act
    ensures '/' !in act && act != "" && packageName != "" && packageName[|packageName| - 1] != '/'
      ==> r == packageName + "/" + act
    ensures '/' !in act && packageName == "" ==> r == act
  {
    QualifyPrefixTestRedundant(packageName, act);
    if '/' !in act && !HasPrefix(act, packageName + "/") then PathJoin(packageName, act) else act
  }

  /** The prefix test in Qualify never decides anything: a name without '/' cannot start with "p/". */
  lemma QualifyPrefixTestRedundant(packageName: string, act: string)
    ensures '/' !in act ==> !HasPrefix(act, packageName + "/")
  {
    if '/' !in act && |packageName| < |act| {
      assert act[|packageName|] in act;
    }
  }
}
