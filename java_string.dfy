/**
 * The parts of java.lang.String that the modelled code relies on: prefix and
 * suffix tests, substring search, the two whitespace notions (strip/isBlank use
 * Character.isWhitespace, trim uses "code point <= U+0020"), join, and split
 * around a literal delimiter.
 */
module JavaString {
  import opened Wrappers

  predicate StartsWith(s: string, prefix: string) {
    |prefix| <= |s| && s[..|prefix|] == prefix
  }

  predicate EndsWith(s: string, suffix: string) {
    |suffix| <= |s| && s[|s| - |suffix|..] == suffix
  }

  /** `p` occurs in `s` starting at index `i`. */
  predicate OccursAt(s: string, p: string, i: int) {
    0 <= i && i + |p| <= |s| && s[i..i + |p|] == p
  }

  /** String.contains */
  predicate Contains(s: string, p: string)
    decreases |s|
  {
    StartsWith(s, p) || (|s| > 0 && Contains(s[1..], p))
  }

  lemma {:induction false} ContainsIffOccurs(s: string, p: string)
    ensures Contains(s, p) <==> exists i :: OccursAt(s, p, i)
    decreases |s|
  {
    if StartsWith(s, p) {
      assert OccursAt(s, p, 0);
    } else if |s| > 0 {
      ContainsIffOccurs(s[1..], p);
      if Contains(s[1..], p) {
        var i :| OccursAt(s[1..], p, i);
        assert s[1..][i..i + |p|] == s[i + 1..i + 1 + |p|];
        assert OccursAt(s, p, i + 1);
      }
      if exists i :: OccursAt(s, p, i) {
        var i :| OccursAt(s, p, i);
        if i > 0 {
          assert s[1..][i - 1..i - 1 + |p|] == s[i..i + |p|];
          assert OccursAt(s[1..], p, i - 1);
        }
      }
    }
  }

  /** String.indexOf(c, from): the first index at or after `from` holding `c`. */
  function IndexOfChar(s: string, c: char, from: nat): (r: Option<nat>)
    ensures r.Some? ==> from <= r.value < |s| && s[r.value] == c
    ensures r.Some? ==> forall j :: from <= j < r.value ==> s[j] != c
    ensures r.None? ==> forall j :: from <= j < |s| ==> s[j] != c
    decreases |s| - from
  {
    if from >= |s| then None
    else if s[from] == c then Some(from)
    else IndexOfChar(s, c, from + 1)
  }

  /** The first occurrence of a non-empty `p` in `s` at or after `from`. */
  function IndexOf(s: string, p: string, from: nat): (r: Option<nat>)
    ensures r.Some? ==> from <= r.value && OccursAt(s, p, r.value)
    ensures r.Some? ==> forall j :: from <= j < r.value ==> !OccursAt(s, p, j)
    ensures r.None? ==> forall j :: from <= j ==> !OccursAt(s, p, j)
    decreases |s| - from
  {
    if from + |p| > |s| then None
    else if s[from..from + |p|] == p then Some(from)
    else IndexOf(s, p, from + 1)
  }

  /** Character.isWhitespace: Unicode space, line and paragraph separators other than
      the no-break spaces, plus the ASCII controls TAB, LF, VT, FF, CR and FS..US. */
  predicate IsWhitespace(c: char) {
    ('\t' <= c <= '\r') || ('\U{1C}' <= c <= ' ') ||
    c == '\U{1680}' || ('\U{2000}' <= c <= '\U{2006}') || ('\U{2008}' <= c <= '\U{200A}') ||
    c == '\U{2028}' || c == '\U{2029}' || c == '\U{205F}' || c == '\U{3000}'
  }

  /** The characters String.trim removes: every code point up to U+0020. */
  predicate IsTrimmable(c: char) {
    c <= ' '
  }

  /** String.isBlank: empty or only whitespace. */
  predicate IsBlank(s: string) {
    forall i :: 0 <= i < |s| ==> IsWhitespace(s[i])
  }

  /** Drops the leading characters satisfying `drop`. */
  function DropLeading(s: string, drop: char -> bool): (r: string)
    ensures |r| <= |s| && r == s[|s| - |r|..]
    ensures forall i :: 0 <= i < |s| - |r| ==> drop(s[i])
    ensures r != [] ==> !drop(r[0])
  {
    if s != [] && drop(s[0]) then DropLeading(s[1..], drop) else s
  }

  /** Drops the trailing characters satisfying `drop`. */
  function DropTrailing(s: string, drop: char -> bool): (r: string)
    ensures |r| <= |s| && r == s[..|r|]
    ensures forall i :: |r| <= i < |s| ==> drop(s[i])
    ensures r != [] ==> !drop(r[|r| - 1])
  {
    if s != [] && drop(s[|s| - 1]) then DropTrailing(s[..|s| - 1], drop) else s
  }

  /** String.strip */
  function Strip(s: string): string {
    DropTrailing(DropLeading(s, IsWhitespace), IsWhitespace)
  }

  /** The first index at or after `st` whose character trim keeps, or the length. */
  function TrimStart(s: string, st: nat): (r: nat)
    requires st <= |s|
    ensures st <= r <= |s|
    ensures forall k :: st <= k < r ==> IsTrimmable(s[k])
    ensures r < |s| ==> !IsTrimmable(s[r])
    decreases |s| - st
  {
    if st < |s| && IsTrimmable(s[st]) then TrimStart(s, st + 1) else st
  }

  /** The end left after dropping the trimmable characters before `len`, stopping at `st`. */
  function TrimEnd(s: string, st: nat, len: nat): (r: nat)
    requires st <= len <= |s|
    ensures st <= r <= len
    ensures forall k :: r <= k < len ==> IsTrimmable(s[k])
    ensures st < r ==> !IsTrimmable(s[r - 1])
  {
    if st < len && IsTrimmable(s[len - 1]) then TrimEnd(s, st, len - 1) else len
  }

  /** String.trim: the text between the first and the last character above U+0020, or the
      empty text when there is none. */
  function Trim(s: string): string
  {
    var st := TrimStart(s, 0);
    s[st..TrimEnd(s, st, |s|)]
  }

  /** Stripping removes whitespace only, and only at the two ends: the result is a
      contiguous piece of the input that neither starts nor ends with whitespace. */
  lemma StripIsInnerSlice(s: string) returns (a: nat, b: nat)
    ensures a <= b <= |s| && Strip(s) == s[a..b]
    ensures forall i :: 0 <= i < a ==> IsWhitespace(s[i])
    ensures forall i :: b <= i < |s| ==> IsWhitespace(s[i])
    ensures a < b ==> !IsWhitespace(s[a]) && !IsWhitespace(s[b - 1])
  {
    var n;
    a := LeadingWhitespace(s);
    var l := s[a..];
    n := TrailingWhitespace(l);
    b := a + n;
    assert Strip(s) == s[a..b] by {
      SliceOfSuffix(s, a, n);
    }
    forall i | b <= i < |s|
      ensures IsWhitespace(s[i])
    {
      assert s[i] == l[i - a];
    }
    if a < b {
      assert s[b - 1] == l[n - 1];
    }
  }

  lemma SliceOfSuffix(s: string, a: nat, n: nat)
    requires a + n <= |s|
    ensures s[a..][..n] == s[a..a + n]
  {
  }

  /** The leading whitespace of `s` is `s[..a]`. */
  lemma LeadingWhitespace(s: string) returns (a: nat)
    ensures a <= |s| && DropLeading(s, IsWhitespace) == s[a..]
    ensures forall i :: 0 <= i < a ==> IsWhitespace(s[i])
    ensures a < |s| ==> !IsWhitespace(s[a])
  {
    var l := DropLeading(s, IsWhitespace);
    a := |s| - |l|;
    if l != [] {
      assert l[0] == s[a];
    }
  }

  /** The trailing whitespace of `s` is `s[n..]`. */
  lemma TrailingWhitespace(s: string) returns (n: nat)
    ensures n <= |s| && DropTrailing(s, IsWhitespace) == s[..n]
    ensures forall i :: n <= i < |s| ==> IsWhitespace(s[i])
    ensures 0 < n ==> !IsWhitespace(s[n - 1])
  {
    var r := DropTrailing(s, IsWhitespace);
    n := |r|;
    if r != [] {
      assert r[n - 1] == s[n - 1];
    }
  }

  /** Character.toLowerCase restricted to ASCII letters; other characters are unchanged. */
  function ToLowerChar(c: char): char {
    if 'A' <= c <= 'Z' then (c as int + 32) as char else c
  }

  function ToUpperChar(c: char): char {
    if 'a' <= c <= 'z' then (c as int - 32) as char else c
  }

  /** String.equalsIgnoreCase for non-null arguments (character-wise case folding). */
  predicate EqualsIgnoreCase(a: string, b: string) {
    |a| == |b| &&
    forall i :: 0 <= i < |a| ==>
      a[i] == b[i] || ToUpperChar(a[i]) == ToUpperChar(b[i]) ||
      ToLowerChar(ToUpperChar(a[i])) == ToLowerChar(ToUpperChar(b[i]))
  }

  /** String.join(delimiter, parts) */
  function Join(parts: seq<string>, delimiter: string): string {
    if parts == [] then ""
    else if |parts| == 1 then parts[0]
    else parts[0] + delimiter + Join(parts[1..], delimiter)
  }

  /** Pulling the last part out of a join. */
  lemma {:induction false} JoinSnoc(parts: seq<string>, last: string, delimiter: string)
    requires parts != []
    ensures Join(parts + [last], delimiter) == Join(parts, delimiter) + delimiter + last
  {
    if |parts| == 1 {
      assert (parts + [last])[1..] == [last];
    } else {
      assert (parts + [last])[1..] == parts[1..] + [last];
      JoinSnoc(parts[1..], last, delimiter);
    }
  }

  /** Splitting around every occurrence of a non-empty literal delimiter, scanning left
      to right, and keeping every piece, including empty and trailing ones
      (String.split with a negative limit). */
  function SplitAll(s: string, delimiter: string): (pieces: seq<string>)
    requires |delimiter| > 0
    ensures |pieces| >= 1
    decreases |s|
  {
    match IndexOf(s, delimiter, 0)
    case None => [s]
    case Some(i) => [s[..i]] + SplitAll(s[i + |delimiter|..], delimiter)
  }

  /** Rejoining the pieces with the delimiter gives back the text. */
  lemma {:induction false} JoinSplitAll(s: string, delimiter: string)
    requires |delimiter| > 0
    ensures Join(SplitAll(s, delimiter), delimiter) == s
    decreases |s|
  {
    match IndexOf(s, delimiter, 0)
    case None =>
    case Some(i) =>
      var head := s[..i];
      var rest := s[i + |delimiter|..];
      var tail := SplitAll(rest, delimiter);
      JoinSplitAll(rest, delimiter);
      assert SplitAll(s, delimiter) == [head] + tail;
      JoinCons(head, tail, delimiter);
      assert s[i..i + |delimiter|] == delimiter;
      assert s == head + s[i..i + |delimiter|] + rest;
  }

  lemma JoinCons(head: string, tail: seq<string>, delimiter: string)
    requires tail != []
    ensures Join([head] + tail, delimiter) == head + delimiter + Join(tail, delimiter)
  {
    assert ([head] + tail)[1..] == tail;
  }

  /** No piece of a split contains the delimiter. */
  lemma {:induction false} SplitAllPiecesFree(s: string, delimiter: string)
    requires |delimiter| > 0
    ensures forall k, j :: 0 <= k < |SplitAll(s, delimiter)| ==> !OccursAt(SplitAll(s, delimiter)[k], delimiter, j)
    decreases |s|
  {
    match IndexOf(s, delimiter, 0)
    case None =>
    case Some(i) =>
      var rest := s[i + |delimiter|..];
      SplitAllPiecesFree(rest, delimiter);
      assert SplitAll(s, delimiter) == [s[..i]] + SplitAll(rest, delimiter);
      forall j
        ensures !OccursAt(s[..i], delimiter, j)
      {
        OccursInPrefix(s, delimiter, i, j);
      }
  }

  /** An occurrence inside a prefix is an occurrence in the whole text, ending inside
      the prefix. */
  lemma OccursInPrefix(s: string, p: string, i: nat, j: int)
    requires i <= |s|
    ensures OccursAt(s[..i], p, j) ==> OccursAt(s, p, j) && j + |p| <= i
  {
    if OccursAt(s[..i], p, j) {
      assert s[..i][j..j + |p|] == s[j..j + |p|];
    }
  }

  /** Removes the trailing empty strings (what String.split does with limit 0). */
  function DropTrailingEmpty(pieces: seq<string>): (r: seq<string>)
    ensures |r| <= |pieces| && r == pieces[..|r|]
    ensures r != [] ==> r[|r| - 1] != ""
    ensures forall i :: |r| <= i < |pieces| ==> pieces[i] == ""
  {
    if pieces != [] && pieces[|pieces| - 1] == "" then DropTrailingEmpty(pieces[..|pieces| - 1]) else pieces
  }

  /** String.split(regex, limit) for a regex that matches exactly one literal, non-empty
      string and a limit that is zero or negative: a negative limit keeps every piece;
      limit 0 drops trailing empty pieces, except that a text without any match comes
      back whole. */
  function JavaSplit(s: string, delimiter: string, limit: int): seq<string>
    requires |delimiter| > 0 && limit <= 0
  {
    var pieces := SplitAll(s, delimiter);
    if limit < 0 || |pieces| == 1 then pieces else DropTrailingEmpty(pieces)
  }
}
