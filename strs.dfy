/**
  The string functions of Go's `strings` package that the core relies on:
  lower-casing, prefix tests, whitespace trimming, cut-set trimming and
  splitting on a separator, with their inverse (joining).
 */
module Strs {

  predicate HasPrefix(s: string, p: string) {
    |p| <= |s| && s[..|p|] == p
  }

  /** strings.ToLower, restricted to ASCII letters. */
  function LowerChar(c: char): char {
    if 'A' <= c <= 'Z' then (c as int + 32) as char else c
  }

  function Lower(s: string): (r: string)
    ensures |r| == |s|
    ensures forall i :: 0 <= i < |s| ==> r[i] == LowerChar(s[i])
  {
    if s == [] then [] else [LowerChar(s[0])] + Lower(s[1..])
  }

  lemma {:induction false} LowerIdempotent(s: string)
    ensures Lower(Lower(s)) == Lower(s)
  {
    var l := Lower(s);
    assert forall i :: 0 <= i < |l| ==> LowerChar(l[i]) == l[i];
  }

  /** unicode.IsSpace: the Latin-1 spaces and the White_Space characters above them. */
  predicate IsSpace(c: char) {
    || c == ' ' || c == '\t' || c == '\n' || c == '\r' || c == '\U{000B}' || c == '\U{000C}'
    || c == '\U{0085}' || c == '\U{00A0}' || c == '\U{1680}' || ('\U{2000}' <= c <= '\U{200A}')
    || c == '\U{2028}' || c == '\U{2029}' || c == '\U{202F}' || c == '\U{205F}' || c == '\U{3000}'
  }

  function TrimLeftSpace(s: string): (r: string)
    ensures |r| <= |s| && r == s[|s| - |r|..]
    ensures r == [] || !IsSpace(r[0])
    ensures s == [] || !IsSpace(s[0]) ==> r == s
    ensures forall k :: 0 <= k < |s| - |r| ==> IsSpace(s[k])
  {
    if s != [] && IsSpace(s[0]) then
      var t := TrimLeftSpace(s[1..]);
      assert forall k :: 1 <= k < |s| - |t| ==> s[k] == s[1..][k - 1];
      t
    else s
  }

  function TrimRightSpace(s: string): (r: string)
    ensures |r| <= |s| && r == s[..|r|]
    ensures r == [] || !IsSpace(r[|r| - 1])
    ensures s == [] || !IsSpace(s[|s| - 1]) ==> r == s
    ensures forall k :: |r| <= k < |s| ==> IsSpace(s[k])
  {
    if s != [] && IsSpace(s[|s| - 1]) then TrimRightSpace(s[..|s| - 1]) else s
  }

  /** `r` is the slice s[i..j] of `s`, with only white space before i and from j on. */
  predicate SpaceAround(s: string, r: string, i: int, j: int) {
    0 <= i <= j <= |s| && r == s[i..j] &&
    (forall k :: 0 <= k < i ==> IsSpace(s[k])) && (forall k :: j <= k < |s| ==> IsSpace(s[k]))
  }

  /** strings.TrimSpace: the slice of `s` without leading and trailing white space. */
  function TrimSpace(s: string): (r: string)
    ensures r == [] || (!IsSpace(r[0]) && !IsSpace(r[|r| - 1]))
    ensures (s == [] || (!IsSpace(s[0]) && !IsSpace(s[|s| - 1]))) ==> r == s
    ensures forall c :: c in r ==> c in s
    ensures exists i, j :: SpaceAround(s, r, i, j)
  {
    var l := TrimLeftSpace(s);
    var r := TrimRightSpace(l);
    assert r != [] ==> r[0] == l[0];
    TrimmedSlice(s, l, r);
    r
  }

  /** A right trim of a left trim is a slice of the input with only white space around it. */
  lemma TrimmedSlice(s: string, l: string, r: string)
    requires |l| <= |s| && l == s[|s| - |l|..] && forall k :: 0 <= k < |s| - |l| ==> IsSpace(s[k])
    requires |r| <= |l| && r == l[..|r|] && forall k :: |r| <= k < |l| ==> IsSpace(l[k])
    ensures exists i, j :: SpaceAround(s, r, i, j)
  {
    var i := |s| - |l|;
    var j := i + |r|;
    assert r == s[i..j];
    forall k | j <= k < |s|
      ensures IsSpace(s[k])
    {
      assert s[k] == l[k - i];
    }
    assert SpaceAround(s, r, i, j);
  }

  /** strings.TrimRight: drops every trailing character that occurs in `cutset`. */
  function TrimRightCutset(s: string, cutset: string): (r: string)
    ensures |r| <= |s| && r == s[..|r|]
    ensures r == [] || r[|r| - 1] !in cutset
    ensures forall k :: |r| <= k < |s| ==> s[k] in cutset
  {
    if s != [] && s[|s| - 1] in cutset then TrimRightCutset(s[..|s| - 1], cutset) else s
  }

  function IndexOfChar(s: string, c: char): (i: nat)
    requires c in s
    ensures i < |s| && s[i] == c && c !in s[..i]
  {
    if s[0] == c then 0
    else
      var j := IndexOfChar(s[1..], c);
      assert s[..j + 1] == [s[0]] + s[1..][..j];
      j + 1
  }

  lemma IndexOfCharUnique(s: string, c: char, k: nat)
    requires k < |s| && s[k] == c && c !in s[..k]
    ensures IndexOfChar(s, c) == k
  {
    var i := IndexOfChar(s, c);
    assert forall j :: 0 <= j < k ==> s[j] in s[..k];
    assert forall j :: 0 <= j < i ==> s[j] in s[..i];
  }

  /** strings.Join with a one-character separator. */
  function Join(parts: seq<string>, sep: char): string {
    if |parts| == 0 then ""
    else if |parts| == 1 then parts[0]
    else parts[0] + [sep] + Join(parts[1..], sep)
  }

  /** strings.Split with a one-character separator: the pieces between separators, in order. */
  function Split(s: string, sep: char): (r: seq<string>)
    ensures |r| >= 1
    decreases |s|
  {
    if sep !in s then [s]
    else
      var i := IndexOfChar(s, sep);
      [s[..i]] + Split(s[i + 1..], sep)
  }

  /** No piece of a split holds the separator. */
  lemma {:induction false} SplitPieces(s: string, sep: char)
    ensures forall i :: 0 <= i < |Split(s, sep)| ==> sep !in Split(s, sep)[i]
    decreases |s|
  {
    if sep in s {
      var i := IndexOfChar(s, sep);
      SplitPieces(s[i + 1..], sep);
      var r := Split(s, sep);
      var tail := Split(s[i + 1..], sep);
      assert r == [s[..i]] + tail;
      forall k | 0 <= k < |r| ensures sep !in r[k] {
        if k > 0 { assert r[k] == tail[k - 1]; }
      }
    }
  }

  /** Joining the pieces of a split gives the string back. */
  lemma {:induction false} JoinSplit(s: string, sep: char)
    ensures Join(Split(s, sep), sep) == s
    decreases |s|
  {
    if sep in s {
      var i := IndexOfChar(s, sep);
      var t := s[i + 1..];
      calc {
        Join(Split(s, sep), sep);
        { JoinSplitStep(s, sep, i); }
        s[..i] + [sep] + Join(Split(t, sep), sep);
        { JoinSplit(t, sep); }
        s[..i] + [sep] + t;
        { assert s[i] == sep; }
        s;
      }
    }
  }

  lemma JoinSplitStep(s: string, sep: char, i: nat)
    requires sep in s && i == IndexOfChar(s, sep)
    ensures Join(Split(s, sep), sep) == s[..i] + [sep] + Join(Split(s[i + 1..], sep), sep)
  {
    var r := Split(s, sep);
    assert |r| >= 2 && r[0] == s[..i] && r[1..] == Split(s[i + 1..], sep);
  }

  /** Splitting undoes joining pieces that hold no separator. */
  lemma {:induction false} SplitJoin(parts: seq<string>, sep: char)
    requires |parts| >= 1
    requires forall i :: 0 <= i < |parts| ==> sep !in parts[i]
    ensures Split(Join(parts, sep), sep) == parts
  {
    var s := Join(parts, sep);
    if |parts| > 1 {
      var tail := parts[1..];
      var rest := Join(tail, sep);
      JoinHead(parts, sep);
      forall i | 0 <= i < |tail| ensures sep !in tail[i] {
        assert tail[i] == parts[i + 1];
      }
      SplitJoin(tail, sep);
      SplitCons(s, sep);
      calc {
        Split(s, sep);
        [s[..|parts[0]|]] + Split(s[|parts[0]| + 1..], sep);
        [parts[0]] + tail;
        { assert parts == [parts[0]] + tail; }
        parts;
      }
    } else {
      assert s == parts[0];
      assert sep !in parts[0];
    }
  }

  /** Splitting at the first separator. */
  lemma SplitCons(s: string, sep: char)
    requires sep in s
    ensures Split(s, sep) == [s[..IndexOfChar(s, sep)]] + Split(s[IndexOfChar(s, sep) + 1..], sep)
  {
  }

  /** A join of two or more pieces is its first piece, then the separator just after it, then the join of the rest. */
  lemma JoinHead(parts: seq<string>, sep: char)
    requires |parts| > 1 && sep !in parts[0]
    ensures var s := Join(parts, sep); var k := |parts[0]|;
      sep in s && IndexOfChar(s, sep) == k && s[..k] == parts[0] && s[k + 1..] == Join(parts[1..], sep)
  {
    var rest := Join(parts[1..], sep);
    var s := Join(parts, sep);
    var k := |parts[0]|;
    assert s == parts[0] + [sep] + rest;
    assert s[k] == sep;
    IndexOfCharUnique(s, sep, k);
    assert s[..k] == parts[0];
    assert s[k + 1..] == rest;
  }

  function Last(parts: seq<string>): string
    requires |parts| >= 1
  {
    parts[|parts| - 1]
  }

  /** `l` ends `s` and is preceded by a separator unless it is all of `s`. */
  predicate EndsAfterSeparator(s: string, l: string, sep: char) {
    |l| <= |s| && s[|s| - |l|..] == l && (|l| == |s| || s[|s| - |l| - 1] == sep)
  }

  lemma LastCons(x: string, tail: seq<string>)
    requires |tail| >= 1
    ensures Last([x] + tail) == Last(tail)
  {
  }

  /** The last piece of a split ends `s` and is preceded by a separator unless it is all of `s`. */
  lemma {:induction false} SplitLast(s: string, sep: char)
    ensures EndsAfterSeparator(s, Last(Split(s, sep)), sep)
    decreases |s|
  {
    if sep in s {
      var i := IndexOfChar(s, sep);
      var t := s[i + 1..];
      var tail := Split(t, sep);
      SplitCons(s, sep);
      LastCons(s[..i], tail);
      SplitLast(t, sep);
      SuffixAfterSeparator(s, sep, i, Last(tail));
    } else {
      assert Split(s, sep) == [s];
      assert Last(Split(s, sep)) == s;
      assert s[|s| - |s|..] == s;
    }
  }

  /** A suffix of what follows a separator, itself preceded by a separator or all of it, is such a suffix of the whole. */
  lemma SuffixAfterSeparator(s: string, sep: char, i: nat, l: string)
    requires i < |s| && s[i] == sep
    requires EndsAfterSeparator(s[i + 1..], l, sep)
    ensures EndsAfterSeparator(s, l, sep)
  {
    var t := s[i + 1..];
    assert |s| - |l| == i + 1 + (|t| - |l|);
    assert s[|s| - |l|..] == t[|t| - |l|..];
    if |l| != |t| {
      assert s[|s| - |l| - 1] == t[|t| - |l| - 1];
    }
  }

  /** The last `sep`-separated segment of `s` (splitFilePath[len(splitFilePath)-1]). */
  function LastSegment(s: string, sep: char): (l: string)
    ensures |l| <= |s| && s[|s| - |l|..] == l && sep !in l
    ensures |l| == |s| || s[|s| - |l| - 1] == sep
  {
    SplitLast(s, sep);
    SplitPieces(s, sep);
    Last(Split(s, sep))
  }

  /** Trimming with a cut-set that spells the last segment strips exactly that segment. */
  lemma TrimLastSegment(s: string, sep: char)
    ensures TrimRightCutset(s, LastSegment(s, sep)) == s[..|s| - |LastSegment(s, sep)|]
  {
    var l := LastSegment(s, sep);
    forall k | |s| - |l| <= k < |s| ensures s[k] in l {
      assert s[k] == l[k - (|s| - |l|)];
    }
    TrimRightCutsetStops(s, l, |s| - |l|);
  }

  lemma {:induction false} TrimRightCutsetStops(s: string, cutset: string, n: nat)
    requires n <= |s|
    requires forall k :: n <= k < |s| ==> s[k] in cutset
    requires n == 0 || s[n - 1] !in cutset
    ensures TrimRightCutset(s, cutset) == s[..n]
    decreases |s|
  {
    if |s| > n {
      TrimRightCutsetStops(s[..|s| - 1], cutset, n);
      assert s[..|s| - 1][..n] == s[..n];
    }
  }
}
