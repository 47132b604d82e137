/**
 * StringUtil: null-safe predicates and comparisons, reversal, whitespace, prefix
 * and suffix stripping, and splitting from the left or the right with a limit.
 * A Java null is `None`; the split pattern is a literal, non-empty delimiter.
 */
module StringUtils {
  import opened Wrappers
  import opened JavaString

  function Min(a: int, b: int): int {
    if a <= b then a else b
  }

  /** Optional.ofNullable(text).orElse("") */
  function EmptyIfNull(text: Option<string>): string {
    if text.Some? then text.value else ""
  }

  // ------------------------------------------------------------ predicates

  /** isBlank: a text that is not null and holds whitespace only. */
  function IsBlankText(text: Option<string>): (r: bool)
    ensures r ==> text.Some?
    ensures r <==> text.Some? && forall c :: c in text.value ==> IsWhitespace(c)
  {
    text.Some? && IsBlank(text.value)
  }

  /** isNotBlank: null, or a text with some character that is not whitespace. */
  function IsNotBlank(text: Option<string>): (r: bool)
    ensures text.None? ==> r
    ensures r <==> text.None? || exists i :: 0 <= i < |text.value| && !IsWhitespace(text.value[i])
  {
    !IsBlankText(text)
  }

  /** isEmpty: a text that is not null and has no characters. */
  function IsEmptyText(text: Option<string>): (r: bool)
    ensures r <==> text == Some("")
    ensures r ==> IsBlankText(text)
  {
    text.Some? && text.value == ""
  }

  /** isNotEmpty: null, or a text of at least one character. */
  function IsNotEmpty(text: Option<string>): (r: bool)
    ensures text.None? ==> r
    ensures r <==> text.None? || |text.value| > 0
  {
    !IsEmptyText(text)
  }

  /** Null is neither blank nor empty, so it is "not blank" and "not empty"; an empty
      text is blank. */
  lemma NullAndEmpty(text: Option<string>)
    ensures text.None? ==> !IsBlankText(text) && !IsEmptyText(text) && IsNotBlank(text) && IsNotEmpty(text)
    ensures IsEmptyText(text) ==> IsBlankText(text)
    ensures IsEmptyText(text) ==> !IsNotBlank(text) && !IsNotEmpty(text)
  {
  }

  /** A text is blank exactly when it is not null and strips to the empty text. */
  lemma BlankIffStripsToEmpty(text: Option<string>)
    ensures IsBlankText(text) <==> text.Some? && Strip(text.value) == ""
  {
    if text.Some? {
      var s := text.value;
      var a, b := StripIsInnerSlice(s);
      if IsBlank(s) {
        BlankDropsAll(s);
      }
      if Strip(s) == "" {
        assert a == b;
        forall i | 0 <= i < |s| ensures IsWhitespace(s[i]) {
          if i >= a {
            assert b <= i;
          }
        }
      }
    }
  }

  /** Whitespace only: stripping from the front leaves nothing. */
  lemma {:induction false} BlankDropsAll(s: string)
    requires IsBlank(s)
    ensures DropLeading(s, IsWhitespace) == ""
    decreases |s|
  {
    if s != [] {
      assert IsWhitespace(s[0]);
      BlankDropsAll(s[1..]);
    }
  }

  // ------------------------------------------------------------ equality

  /** equals (Objects.equals): both null, or both texts and equal. */
  function Equals(text1: Option<string>, text2: Option<string>): (r: bool)
    ensures r <==> (text1.None? && text2.None?) || (text1.Some? && text2.Some? && text1.value == text2.value)
  {
    text1 == text2
  }

  /** equalsIgnoreCase: null counts as the empty text, then the texts are compared
      character by character after case folding. */
  function EqualsIgnoringCase(text1: Option<string>, text2: Option<string>): (r: bool)
    ensures r ==> |EmptyIfNull(text1)| == |EmptyIfNull(text2)|
  {
    EqualsIgnoreCase(EmptyIfNull(text1), EmptyIfNull(text2))
  }

  /** Equal texts are equal ignoring case, null equals the empty text ignoring case,
      and the comparison is symmetric. */
  lemma EqualsIgnoringCaseProperties(text1: Option<string>, text2: Option<string>)
    ensures Equals(text1, text2) ==> EqualsIgnoringCase(text1, text2)
    ensures EqualsIgnoringCase(None, Some(""))
    ensures EqualsIgnoringCase(text1, text2) == EqualsIgnoringCase(text2, text1)
  {
  }

  // ------------------------------------------------------------ reverse

  /** The characters of `s` in the opposite order. */
  function Reversed(s: string): (r: string)
    ensures |r| == |s|
    ensures forall i :: 0 <= i < |s| ==> r[i] == s[|s| - 1 - i]
  {
    if s == [] then [] else Reversed(s[1..]) + [s[0]]
  }

  /** Reversing twice gives the text back. */
  lemma ReverseTwice(s: string)
    ensures Reversed(Reversed(s)) == s
  {
    var r := Reversed(s);
    assert forall i :: 0 <= i < |s| ==> Reversed(r)[i] == r[|s| - 1 - i] == s[i];
  }

  /** reverse: null gives the empty text; the characters are appended from the last
      to the first. */
  method Reverse(text: Option<string>) returns (r: string)
    ensures r == Reversed(EmptyIfNull(text))
  {
    var s := EmptyIfNull(text);
    r := [];
    var index := |s| - 1;
    while index >= 0
      invariant -1 <= index < |s|
      invariant r == Reversed(s[index + 1..])
    {
      assert s[index..][1..] == s[index + 1..];
      r := r + [s[index]];
      index := index - 1;
    }
    assert s[0..] == s;
  }

  // ------------------------------------------------------------ strip

  /** strip(text, returnEmptyIfNull): a non-null text loses its leading and trailing
      whitespace; null gives "" or null as the flag says. */
  function StripText(text: Option<string>, returnEmptyIfNull: bool): (r: Option<string>)
    ensures text.None? ==> (r.Some? <==> returnEmptyIfNull) && (r.Some? ==> r.value == "")
    ensures text.Some? ==> r.Some? && |r.value| <= |text.value|
  {
    if text.None? then (if returnEmptyIfNull then Some("") else None)
    else Some(Strip(text.value))
  }

  /** strip(text): never null. */
  function StripOrEmpty(text: Option<string>): (r: string)
    ensures StripText(text, true) == Some(r)
  {
    StripText(text, true).value
  }

  /** Stripping twice strips nothing more. */
  lemma StripIdempotent(s: string)
    ensures Strip(Strip(s)) == Strip(s)
  {
    var t := Strip(s);
    var a, b := StripIsInnerSlice(s);
    if t != [] {
      assert t[0] == s[a] && t[|t| - 1] == s[b - 1];
      assert DropLeading(t, IsWhitespace) == t;
      assert DropTrailing(t, IsWhitespace) == t;
    }
  }

  // ------------------------------------------------------------ stripLeft / stripRight

  /** `k` copies of `p` back to back. */
  function Copies(p: string, k: nat): (r: string)
    ensures |r| == k * |p|
  {
    if k == 0 then "" else p + Copies(p, k - 1)
  }

  /** What stripLeft leaves of a text: the prefix removed once, or, with `repeat`,
      for as long as the text starts with it. */
  function StrippedLeft(s: string, prefix: string, repeat: bool): (r: string)
    requires prefix != ""
    decreases |s|
  {
    if StartsWith(s, prefix) then
      if repeat then StrippedLeft(s[|prefix|..], prefix, true) else s[|prefix|..]
    else s
  }

  /**
   * stripLeft removes whole copies of the prefix from the front and nothing else: the
   * text is some copies followed by the result, at most one copy without `repeat`; with
   * `repeat` the result no longer starts with the prefix.
   */
  lemma {:induction false} StrippedLeftShape(s: string, prefix: string, repeat: bool) returns (k: nat)
    requires prefix != ""
    ensures s == Copies(prefix, k) + StrippedLeft(s, prefix, repeat)
    ensures !repeat ==> k <= 1
    ensures repeat ==> !StartsWith(StrippedLeft(s, prefix, repeat), prefix)
    decreases |s|
  {
    if StartsWith(s, prefix) {
      var rest := s[|prefix|..];
      assert s == prefix + rest;
      if repeat {
        var j := StrippedLeftShape(rest, prefix, true);
        k := j + 1;
        assert Copies(prefix, k) == prefix + Copies(prefix, j);
      } else {
        k := 1;
        assert Copies(prefix, 1) == prefix;
      }
    } else {
      k := 0;
    }
  }

  /** stripLeft(text, stripText, repeat): a null text or a null or empty prefix gives the
      text back; otherwise the do-while loop removes the prefix while it matches. */
  method StripLeft(text: Option<string>, stripText: Option<string>, repeat: bool) returns (r: Option<string>)
    ensures text.None? || stripText.None? || stripText.value == "" ==> r == text
    ensures text.Some? && stripText.Some? && stripText.value != "" ==>
      r == Some(StrippedLeft(text.value, stripText.value, repeat))
  {
    if text.None? || stripText.None? || stripText.value == "" {
      return text;
    }
    var s, prefix := text.value, stripText.value;
    var finalText := s;
    if StartsWith(finalText, prefix) {
      finalText := finalText[|prefix|..];
    }
    while repeat && StartsWith(finalText, prefix)
      invariant !repeat ==> finalText == StrippedLeft(s, prefix, false)
      invariant repeat ==> StrippedLeft(finalText, prefix, true) == StrippedLeft(s, prefix, true)
      decreases |finalText|
    {
      if StartsWith(finalText, prefix) {
        finalText := finalText[|prefix|..];
      }
    }
    r := Some(finalText);
  }

  /** What stripRight leaves of a text: the suffix removed once, or, with `repeat`,
      for as long as the text ends with it. */
  function StrippedRight(s: string, suffix: string, repeat: bool): (r: string)
    requires suffix != ""
    decreases |s|
  {
    if EndsWith(s, suffix) then
      if repeat then StrippedRight(s[..|s| - |suffix|], suffix, true) else s[..|s| - |suffix|]
    else s
  }

  /** stripRight mirrors stripLeft: the text is the result followed by some copies of the
      suffix, at most one without `repeat`; with `repeat` the result no longer ends with
      the suffix. */
  lemma {:induction false} StrippedRightShape(s: string, suffix: string, repeat: bool) returns (k: nat)
    requires suffix != ""
    ensures s == StrippedRight(s, suffix, repeat) + Copies(suffix, k)
    ensures !repeat ==> k <= 1
    ensures repeat ==> !EndsWith(StrippedRight(s, suffix, repeat), suffix)
    decreases |s|
  {
    if EndsWith(s, suffix) {
      var rest := s[..|s| - |suffix|];
      assert s == rest + suffix;
      if repeat {
        var j := StrippedRightShape(rest, suffix, true);
        k := j + 1;
        CopiesSnoc(suffix, j);
      } else {
        k := 1;
        assert Copies(suffix, 1) == suffix;
      }
    } else {
      k := 0;
    }
  }

  /** One more copy can be added at the end as well as at the front. */
  lemma {:induction false} CopiesSnoc(p: string, k: nat)
    ensures Copies(p, k + 1) == Copies(p, k) + p
  {
    if k > 0 {
      CopiesSnoc(p, k - 1);
    }
  }

  /** stripRight(text, stripText, repeat): a null text or a null or empty suffix gives
      the text back; otherwise the do-while loop removes the suffix while it matches. */
  method StripRight(text: Option<string>, stripText: Option<string>, repeat: bool) returns (r: Option<string>)
    ensures text.None? || stripText.None? || stripText.value == "" ==> r == text
    ensures text.Some? && stripText.Some? && stripText.value != "" ==>
      r == Some(StrippedRight(text.value, stripText.value, repeat))
  {
    if text.None? || stripText.None? || stripText.value == "" {
      return text;
    }
    var s, suffix := text.value, stripText.value;
    var finalText := s;
    if EndsWith(finalText, suffix) {
      finalText := finalText[..|finalText| - |suffix|];
    }
    while repeat && EndsWith(finalText, suffix)
      invariant !repeat ==> finalText == StrippedRight(s, suffix, false)
      invariant repeat ==> StrippedRight(finalText, suffix, true) == StrippedRight(s, suffix, true)
      decreases |finalText|
    {
      if EndsWith(finalText, suffix) {
        finalText := finalText[..|finalText| - |suffix|];
      }
    }
    r := Some(finalText);
  }

  // ------------------------------------------------------------ split / rsplit

  /** text.split(pattern, finalLimit) with the limit both splits pass: -1 (keep every
      piece) when empty pieces are preserved, otherwise min(0, limit). */
  function Pieces(s: string, delimiter: string, limit: int, preservedEmpty: bool): seq<string>
    requires delimiter != ""
  {
    JavaSplit(s, delimiter, if preservedEmpty then -1 else Min(0, limit))
  }

  /** split(text, pattern, limit, preservedEmpty): null gives no pieces. With empty pieces
      preserved and a positive limit below the number of pieces, the first limit - 1
      pieces are kept and the rest are joined back into the last element. */
  function SplitSpec(text: Option<string>, delimiter: string, limit: int, preservedEmpty: bool): seq<string>
    requires delimiter != ""
  {
    if text.None? then []
    else
      var splits := Pieces(text.value, delimiter, limit, preservedEmpty);
      if preservedEmpty && 0 < limit < |splits| then
        splits[..limit - 1] + [Join(splits[limit - 1..], delimiter)]
      else splits
  }

  /** split: fills the result list; the last of the `actualLimit` elements joins the
      remaining pieces. */
  method Split(text: Option<string>, delimiter: string, limit: int, preservedEmpty: bool) returns (result: seq<string>)
    requires delimiter != ""
    ensures result == SplitSpec(text, delimiter, limit, preservedEmpty)
  {
    result := [];
    if text.None? {
      return;
    }
    var splits := JavaSplit(text.value, delimiter, if preservedEmpty then -1 else Min(0, limit));
    if preservedEmpty && limit > 0 {
      var actualLimit := Min(limit, |splits|);
      if |splits| == actualLimit {
        result := splits;
      } else {
        for index := 0 to actualLimit - 1
          invariant result == splits[..index]
        {
          result := result + [splits[index]];
        }
        result := result + [Join(splits[actualLimit - 1..], delimiter)];
      }
    } else {
      result := splits;
    }
  }

  /** handleLimitRSpilt: walking from the last piece, the first actualLimit - 1 pieces
      met are kept and the remaining leading pieces are joined into the first element;
      a limit that is never reached keeps all pieces. */
  function RSplitLimited(splits: seq<string>, delimiter: string, actualLimit: int): (r: seq<string>)
    ensures 1 <= actualLimit <= |splits| ==> |r| == actualLimit
    ensures !(1 <= actualLimit <= |splits|) ==> r == splits
  {
    if 1 <= actualLimit <= |splits| then
      var cut := |splits| - actualLimit + 1;
      [Join(splits[..cut], delimiter)] + splits[cut..]
    else splits
  }

  /** handleLimitRSpilt: pushes the pieces from the last one onto a stack, and at the
      actualLimit-th one pushes the join of all pieces up to it and stops. */
  method HandleLimitRSplit(splits: seq<string>, delimiter: string, actualLimit: int) returns (r: seq<string>)
    ensures r == RSplitLimited(splits, delimiter, actualLimit)
  {
    r := [];
    var count := 0;
    var index := |splits| - 1;
    while index >= 0
      invariant -1 <= index < |splits|
      invariant count == |splits| - 1 - index
      invariant actualLimit < 1 || count < actualLimit
      invariant r == splits[index + 1..]
    {
      count := count + 1;
      if count == actualLimit {
        r := [Join(splits[..index + 1], delimiter)] + r;
        break;
      }
      r := [splits[index]] + r;
      index := index - 1;
    }
  }

  /** rsplit(text, pattern, limit, preservedEmpty): null gives no pieces; otherwise the
      pieces, regrouped from the right so that there are at most `limit` of them when the
      limit is positive. */
  function RSplitSpec(text: Option<string>, delimiter: string, limit: int, preservedEmpty: bool): seq<string>
    requires delimiter != ""
  {
    if text.None? then []
    else
      var splits := Pieces(text.value, delimiter, limit, preservedEmpty);
      var actualLimit := Min(limit, |splits|);
      if preservedEmpty && limit > 0 && |splits| == actualLimit then splits
      else RSplitLimited(splits, delimiter, actualLimit)
  }

  /** rsplit */
  method RSplit(text: Option<string>, delimiter: string, limit: int, preservedEmpty: bool) returns (result: seq<string>)
    requires delimiter != ""
    ensures result == RSplitSpec(text, delimiter, limit, preservedEmpty)
  {
    result := [];
    if text.None? {
      return;
    }
    var splits := JavaSplit(text.value, delimiter, if preservedEmpty then -1 else Min(0, limit));
    var actualLimit := Min(limit, |splits|);
    if preservedEmpty && limit > 0 {
      if |splits| == actualLimit {
        result := splits;
      } else {
        result := HandleLimitRSplit(splits, delimiter, actualLimit);
      }
    } else {
      result := HandleLimitRSplit(splits, delimiter, actualLimit);
    }
  }

  /** split(text, pattern): empty pieces are dropped at the end only. */
  function SplitDefault(text: Option<string>, delimiter: string): (r: seq<string>)
    requires delimiter != ""
    ensures text.Some? ==> r == JavaSplit(text.value, delimiter, 0)
  {
    SplitSpec(text, delimiter, 0, false)
  }

  /** splitByPreservedEmpty(text, pattern): every piece. */
  function SplitByPreservedEmpty(text: Option<string>, delimiter: string): (r: seq<string>)
    requires delimiter != ""
    ensures text.Some? ==> r == SplitAll(text.value, delimiter)
  {
    SplitSpec(text, delimiter, 0, true)
  }

  /** rsplit(text, pattern, limit) */
  function RSplitDefault(text: Option<string>, delimiter: string, limit: int): (r: seq<string>)
    requires delimiter != ""
    ensures text.Some? && limit > 0 ==>
      |r| == Min(limit, |JavaSplit(text.value, delimiter, 0)|)
  {
    RSplitSpec(text, delimiter, limit, false)
  }

  /** rsplitByPreservedEmpty(text, pattern, limit) */
  function RSplitByPreservedEmpty(text: Option<string>, delimiter: string, limit: int): (r: seq<string>)
    requires delimiter != ""
    ensures text.Some? && limit > 0 ==> |r| == Min(limit, |SplitAll(text.value, delimiter)|)
  {
    RSplitSpec(text, delimiter, limit, true)
  }

  /** Without preserved empty pieces, split does not cap the number of pieces: only the
      sign of the limit matters, a negative one keeping the trailing empty pieces. */
  lemma SplitIgnoresLimit(text: Option<string>, delimiter: string, limit: int)
    requires delimiter != ""
    ensures text.Some? ==>
      SplitSpec(text, delimiter, limit, false) == JavaSplit(text.value, delimiter, if limit < 0 then -1 else 0)
    ensures text.None? ==> SplitSpec(text, delimiter, limit, false) == []
  {
  }

  /** Joining splits at any point. */
  lemma {:induction false} JoinAppend(a: seq<string>, b: seq<string>, delimiter: string)
    requires a != [] && b != []
    ensures Join(a + b, delimiter) == Join(a, delimiter) + delimiter + Join(b, delimiter)
  {
    if |a| == 1 {
      JoinCons(a[0], b, delimiter);
      assert a + b == [a[0]] + b;
    } else {
      assert (a + b)[1..] == a[1..] + b;
      JoinAppend(a[1..], b, delimiter);
    }
  }

  /** Regrouping the pieces from index k on into one element keeps the join. */
  lemma JoinRegroupTail(splits: seq<string>, delimiter: string, k: nat)
    requires k < |splits|
    ensures Join(splits[..k] + [Join(splits[k..], delimiter)], delimiter) == Join(splits, delimiter)
  {
    assert splits == splits[..k] + splits[k..];
    if k > 0 {
      JoinAppend(splits[..k], [Join(splits[k..], delimiter)], delimiter);
      JoinAppend(splits[..k], splits[k..], delimiter);
    }
  }

  /** Regrouping the pieces before index cut into one element keeps the join. */
  lemma JoinRegroupHead(splits: seq<string>, delimiter: string, cut: nat)
    requires 1 <= cut <= |splits|
    ensures Join([Join(splits[..cut], delimiter)] + splits[cut..], delimiter) == Join(splits, delimiter)
  {
    assert splits == splits[..cut] + splits[cut..];
    if cut < |splits| {
      JoinAppend([Join(splits[..cut], delimiter)], splits[cut..], delimiter);
      JoinAppend(splits[..cut], splits[cut..], delimiter);
    } else {
      assert splits[..cut] == splits && splits[cut..] == [];
      assert [Join(splits[..cut], delimiter)] + splits[cut..] == [Join(splits, delimiter)];
    }
  }

  /**
   * With empty pieces preserved and a positive limit, split returns min(limit, pieces)
   * elements, all pieces but the last as they are, and joining them with the delimiter
   * gives back the text.
   */
  lemma SplitLimited(s: string, delimiter: string, limit: int)
    requires delimiter != "" && limit > 0
    ensures |SplitSpec(Some(s), delimiter, limit, true)| == Min(limit, |SplitAll(s, delimiter)|)
    ensures forall i :: 0 <= i < Min(limit, |SplitAll(s, delimiter)|) - 1 ==>
      SplitSpec(Some(s), delimiter, limit, true)[i] == SplitAll(s, delimiter)[i]
    ensures Join(SplitSpec(Some(s), delimiter, limit, true), delimiter) == s
  {
    var splits := SplitAll(s, delimiter);
    JoinSplitAll(s, delimiter);
    if limit < |splits| {
      JoinRegroupTail(splits, delimiter, limit - 1);
    }
  }

  /**
   * With empty pieces preserved and a positive limit, rsplit returns min(limit, pieces)
   * elements, all pieces but the first as they are, and joining them with the delimiter
   * gives back the text.
   */
  lemma RSplitLimitedRoundTrip(s: string, delimiter: string, limit: int)
    requires delimiter != "" && limit > 0
    ensures |RSplitSpec(Some(s), delimiter, limit, true)| == Min(limit, |SplitAll(s, delimiter)|)
    ensures RSplitSpec(Some(s), delimiter, limit, true)[1..] ==
      SplitAll(s, delimiter)[|SplitAll(s, delimiter)| - Min(limit, |SplitAll(s, delimiter)|) + 1..]
    ensures Join(RSplitSpec(Some(s), delimiter, limit, true), delimiter) == s
  {
    var splits := SplitAll(s, delimiter);
    var r := RSplitSpec(Some(s), delimiter, limit, true);
    assert r == RSplitPreserved(splits, delimiter, limit) by {
      assert Pieces(s, delimiter, limit, true) == splits;
    }
    RSplitPreservedShape(splits, delimiter, limit);
    JoinSplitAll(s, delimiter);
  }

  /** rsplit with empty pieces preserved and a positive limit, on the pieces. */
  function RSplitPreserved(splits: seq<string>, delimiter: string, limit: int): seq<string>
    requires limit > 0
  {
    if limit < |splits| then
      var cut := |splits| - limit + 1;
      [Join(splits[..cut], delimiter)] + splits[cut..]
    else splits
  }

  lemma RSplitPreservedShape(splits: seq<string>, delimiter: string, limit: int)
    requires limit > 0 && splits != []
    ensures |RSplitPreserved(splits, delimiter, limit)| == Min(limit, |splits|)
    ensures RSplitPreserved(splits, delimiter, limit)[1..] == splits[|splits| - Min(limit, |splits|) + 1..]
    ensures Join(RSplitPreserved(splits, delimiter, limit), delimiter) == Join(splits, delimiter)
  {
    if limit < |splits| {
      RegroupHeadShape(splits, delimiter, |splits| - limit + 1, RSplitPreserved(splits, delimiter, limit));
    }
  }

  /** The pieces before `cut` regrouped into one: the rest keep their places from the
      end, and the join is unchanged. */
  lemma RegroupHeadShape(splits: seq<string>, delimiter: string, cut: nat, r: seq<string>)
    requires 1 <= cut <= |splits| && r == [Join(splits[..cut], delimiter)] + splits[cut..]
    ensures |r| == |splits| - cut + 1 && r[1..] == splits[cut..]
    ensures Join(r, delimiter) == Join(splits, delimiter)
  {
    JoinRegroupHead(splits, delimiter, cut);
  }

  /** rsplit without preserved empty pieces does apply the limit: a positive limit caps
      the number of elements, and regrouping keeps the join of the pieces. */
  lemma RSplitAppliesLimit(s: string, delimiter: string, limit: int)
    requires delimiter != ""
    ensures limit > 0 ==> |RSplitSpec(Some(s), delimiter, limit, false)| == Min(limit, |JavaSplit(s, delimiter, 0)|)
    ensures limit <= 0 ==> RSplitSpec(Some(s), delimiter, limit, false) == Pieces(s, delimiter, limit, false)
    ensures Join(RSplitSpec(Some(s), delimiter, limit, false), delimiter) == Join(Pieces(s, delimiter, limit, false), delimiter)
  {
    var splits := Pieces(s, delimiter, limit, false);
    var actualLimit := Min(limit, |splits|);
    if 1 <= actualLimit <= |splits| {
      JoinRegroupHead(splits, delimiter, |splits| - actualLimit + 1);
    }
  }
}
