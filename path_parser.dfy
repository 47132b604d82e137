/**
 * DefaultPathParser: turns a path such as `order.items[0].price`, `a?.b` or
 * `m['key.with.dots']` into property and index tokens. Dots separate segments; a
 * bracket holds an index (ASCII digits), a quoted key or a bare key; a segment
 * ending in `?` asks for null-safe access. Parsed paths are memoised in a MapCache.
 */
module PathParsing {
  import opened Wrappers
  import opened JavaString
  import opened MapCaches

  /** PathToken: PropertyToken(name, safeAccess) or IndexToken(index). */
  datatype PathToken = PropertyToken(name: string, safeAccess: bool) | IndexToken(index: nat)

  /** The exceptions the parser lets escape. */
  datatype ParseError =
    | BlankPath                     // IllegalArgumentException: null or blank path
    | UnmatchedBracket              // IllegalArgumentException: '[' without a later ']'
    | QuoteOutOfRange               // StringIndexOutOfBoundsException: stripQuotes on a lone quote
    | NumberFormat(digits: string)  // NumberFormatException: an index above Integer.MAX_VALUE

  /** Integer.MAX_VALUE */
  const IntMax: nat := 0x7FFF_FFFF

  /** isQuoted: starts and ends with the same kind of quote (a lone quote counts). */
  predicate IsQuoted(s: string) {
    (StartsWith(s, "'") && EndsWith(s, "'")) || (StartsWith(s, "\"") && EndsWith(s, "\""))
  }

  /** stripQuotes: substring(1, length - 1), which throws when the text is shorter than two. */
  function StripQuotes(s: string): (r: Result<string, ParseError>)
    ensures r.Success? <==> |s| >= 2
    ensures r.Success? ==> s == [s[0]] + r.value + [s[|s| - 1]]
  {
    if |s| < 2 then Failure(QuoteOutOfRange) else Success(s[1..|s| - 1])
  }

  predicate IsDigit(c: char) {
    '0' <= c <= '9'
  }

  /** isNumeric: matches `\d+`, which without UNICODE_CHARACTER_CLASS means ASCII digits. */
  predicate IsNumeric(s: string) {
    |s| > 0 && forall i :: 0 <= i < |s| ==> IsDigit(s[i])
  }

  /** The number a string of decimal digits denotes. */
  function DigitsValue(s: string): nat
    requires forall i :: 0 <= i < |s| ==> IsDigit(s[i])
  {
    if s == [] then 0 else DigitsValue(s[..|s| - 1]) * 10 + DigitOf(s[|s| - 1])
  }

  function DigitOf(c: char): (d: nat)
    requires IsDigit(c)
    ensures d < 10
  {
    c as int - '0' as int
  }

  /** Integer.parseInt's digit loop from index `k`, `acc` being the value of the digits
      before it: NumberFormatException at a non-digit or once the value passes
      Integer.MAX_VALUE. */
  function ParseDigitsFrom(s: string, k: nat, acc: nat): Result<nat, ParseError>
    requires k <= |s|
    decreases |s| - k
  {
    if k == |s| then Success(acc)
    else if !IsDigit(s[k]) then Failure(NumberFormat(s))
    else
      var v := acc * 10 + DigitOf(s[k]);
      if v > IntMax then Failure(NumberFormat(s)) else ParseDigitsFrom(s, k + 1, v)
  }

  /** Integer.parseInt on a text without a sign. */
  function ParseInt(s: string): Result<nat, ParseError> {
    if s == [] then Failure(NumberFormat(s)) else ParseDigitsFrom(s, 0, 0)
  }

  /** A longer prefix of a digit string is worth at least as much. */
  lemma {:induction false} DigitsPrefixGrows(s: string, k: nat)
    requires k <= |s| && forall i :: 0 <= i < |s| ==> IsDigit(s[i])
    ensures DigitsValue(s[..k]) <= DigitsValue(s)
    decreases |s|
  {
    if k < |s| {
      var t := s[..|s| - 1];
      assert t[..k] == s[..k];
      DigitsPrefixGrows(t, k);
    } else {
      assert s[..k] == s;
    }
  }

  lemma {:induction false} ParseDigitsFromValue(s: string, k: nat)
    requires k <= |s| && IsNumeric(s) && DigitsValue(s[..k]) <= IntMax
    ensures ParseDigitsFrom(s, k, DigitsValue(s[..k])) ==
      (if DigitsValue(s) <= IntMax then Success(DigitsValue(s)) else Failure(NumberFormat(s)))
    decreases |s| - k
  {
    if k == |s| {
      assert s[..k] == s;
    } else {
      var u := s[..k + 1];
      assert u[..|u| - 1] == s[..k];
      assert DigitsValue(u) == DigitsValue(s[..k]) * 10 + DigitOf(s[k]);
      if DigitsValue(u) > IntMax {
        DigitsPrefixGrows(s, k + 1);
      } else {
        ParseDigitsFromValue(s, k + 1);
      }
    }
  }

  /** Integer.parseInt on a numeric string succeeds exactly when its value fits an int,
      and then returns that value; otherwise it raises NumberFormatException. */
  lemma ParseIntValue(s: string)
    requires IsNumeric(s)
    ensures ParseInt(s) ==
      (if DigitsValue(s) <= IntMax then Success(DigitsValue(s)) else Failure(NumberFormat(s)))
  {
    assert s[..0] == [];
    ParseDigitsFromValue(s, 0);
  }

  /** The characters that end a bare segment. */
  predicate IsSeparator(c: char) {
    c == '.' || c == '['
  }

  /** Where the bare segment starting at `i` ends: the first '.' or '[' at or after `i`,
      or the end of the text. */
  function SegEnd(s: string, i: nat): (j: nat)
    requires i <= |s|
    ensures i <= j <= |s|
    ensures forall k :: i <= k < j ==> !IsSeparator(s[k])
    ensures j < |s| ==> IsSeparator(s[j])
    decreases |s| - i
  {
    if i == |s| || IsSeparator(s[i]) then i else SegEnd(s, i + 1)
  }

  /** Any index with the defining properties of SegEnd is SegEnd. */
  lemma SegEndUnique(s: string, i: nat, j: nat)
    requires i <= j <= |s|
    requires forall k :: i <= k < j ==> !IsSeparator(s[k])
    requires j < |s| ==> IsSeparator(s[j])
    ensures SegEnd(s, i) == j
  {
  }

  /** The token of a bare segment: a trailing '?' is cut off and marks safe access; an
      empty name gives no token. */
  function SegmentToken(segment: string): (r: Option<PathToken>)
    ensures r.Some? <==> segment != [] && segment != "?"
    ensures r.Some? ==> (r.value.PropertyToken? && r.value.name != [] &&
      (r.value.safeAccess <==> EndsWith(segment, "?")) &&
      segment == r.value.name + (if r.value.safeAccess then "?" else ""))
  {
    var safeAccess := EndsWith(segment, "?");
    var name := if safeAccess then segment[..|segment| - 1] else segment;
    if name == [] then None else Some(PropertyToken(name, safeAccess))
  }

  function OptionSeq(o: Option<PathToken>): seq<PathToken> {
    if o.Some? then [o.value] else []
  }

  /** The token of a bracket whose contents, once trimmed, are `inside`. */
  function BracketToken(inside: string): Result<PathToken, ParseError>
  {
    if IsQuoted(inside) then
      var name :- StripQuotes(inside);
      Success(PropertyToken(name, false))
    else if IsNumeric(inside) then
      var n :- ParseInt(inside);
      Success(IndexToken(n))
    else
      Success(PropertyToken(inside, false))
  }

  /** What a bracket holds decides its token: a quoted key gives the name without its
      quotes (or the error of a lone quote), digits an index (or the overflow error),
      anything else the name as written; a bracket never asks for null-safe access. */
  lemma BracketTokenCases(inside: string)
    ensures BracketToken(inside).Success? && BracketToken(inside).value.PropertyToken? ==>
      !BracketToken(inside).value.safeAccess
    ensures IsQuoted(inside) ==> (BracketToken(inside).Success? <==> |inside| >= 2)
    ensures IsQuoted(inside) && BracketToken(inside).Success? ==>
      BracketToken(inside).value == PropertyToken(inside[1..|inside| - 1], false)
    ensures !IsQuoted(inside) && IsNumeric(inside) ==>
      BracketToken(inside) ==
        (if DigitsValue(inside) <= IntMax then Success(IndexToken(DigitsValue(inside)))
         else Failure(NumberFormat(inside)))
    ensures !IsQuoted(inside) && !IsNumeric(inside) ==>
      BracketToken(inside) == Success(PropertyToken(inside, false))
  {
    if !IsQuoted(inside) && IsNumeric(inside) {
      ParseIntValue(inside);
    }
  }

  /** `ts` ahead of the tokens of a successful parse; a failure passes through. */
  function Prepend(ts: seq<PathToken>, r: Result<seq<PathToken>, ParseError>): Result<seq<PathToken>, ParseError> {
    match r
    case Success(us) => Success(ts + us)
    case Failure(e) => Failure(e)
  }

  /** The tokens of a bracket: its one token, or its error. */
  function BracketTokens(t: Result<PathToken, ParseError>): Result<seq<PathToken>, ParseError> {
    match t
    case Success(token) => Success([token])
    case Failure(e) => Failure(e)
  }

  /** What one pass of doParse reads, before any token is made of it. */
  datatype Lexeme =
    | Dot                      // a '.', which is skipped
    | Bracket(inside: string)  // a '[' and its first ']' after it, with the text between
    | Unclosed                 // a '[' with no ']' after it
    | Segment(text: string)    // a bare segment, up to the next '.' or '['

  /** The bracket opened at `open`, its ']' looked for from `k` on: the text inside and
      the index after the ']'. */
  function BracketFrom(s: string, open: nat, k: nat): (r: (Lexeme, nat))
    requires open < k <= |s|
    ensures r.0.Bracket? || r.0.Unclosed?
    ensures k <= r.1 <= |s|
    decreases |s| - k
  {
    if k == |s| then (Unclosed, |s|)
    else if s[k] == ']' then (Bracket(s[open + 1..k]), k + 1)
    else BracketFrom(s, open, k + 1)
  }

  /** The bare segment started at `start`, its end looked for from `k` on. */
  function SegmentFrom(s: string, start: nat, k: nat): (r: (Lexeme, nat))
    requires start < k <= |s|
    ensures r.0.Segment? && k <= r.1 <= |s|
    decreases |s| - k
  {
    if k == |s| || IsSeparator(s[k]) then (Segment(s[start..k]), k)
    else SegmentFrom(s, start, k + 1)
  }

  /** What the pass at index `i` reads and the index where the next pass starts: only a
      '[' starts a bracket. */
  function LexAt(s: string, i: nat): (r: (Lexeme, nat))
    requires i < |s|
    ensures i < r.1 <= |s|
    ensures r.0.Bracket? || r.0.Unclosed? <==> s[i] == '['
  {
    if s[i] == '.' then (Dot, i + 1)
    else if s[i] == '[' then BracketFrom(s, i, i + 1)
    else SegmentFrom(s, i, i + 1)
  }

  /** The tokens a pass emits for what it read; only a bracket can fail. */
  function Interpret(lexeme: Lexeme): (r: Result<seq<PathToken>, ParseError>)
    ensures r.Success? ==> |r.value| <= 1
    ensures r.Failure? ==> lexeme.Bracket? || lexeme.Unclosed?
  {
    match lexeme
    case Dot => Success([])
    case Bracket(inside) => BracketTokens(BracketToken(Trim(inside)))
    case Unclosed => Failure(UnmatchedBracket)
    case Segment(text) => Success(OptionSeq(SegmentToken(text)))
  }

  /** A pass's outcome: the tokens of what it read and the index where the next pass
      starts, or its error. */
  function StepOf(lexed: (Lexeme, nat)): Result<(seq<PathToken>, nat), ParseError> {
    match Interpret(lexed.0)
    case Success(emitted) => Success((emitted, lexed.1))
    case Failure(e) => Failure(e)
  }

  /**
   * One pass of doParse's loop at index `i`: the tokens it emits and the index where
   * the next pass starts. A dot is skipped; a bracket runs to the first ']' after it
   * and gives one token; anything else is a bare segment up to the next '.' or '['.
   */
  function StepAt(s: string, i: nat): (r: Result<(seq<PathToken>, nat), ParseError>)
    requires i < |s|
    ensures r.Success? ==> i < r.value.1 <= |s| && |r.value.0| <= 1
    ensures r.Failure? ==> s[i] == '['
  {
    StepOf(LexAt(s, i))
  }

  /** What the passes from index `i` on read, from left to right. */
  function LexemesFrom(s: string, i: nat): seq<Lexeme>
    requires i <= |s|
    decreases |s| - i
  {
    if i == |s| then [] else var lexed := LexAt(s, i); [lexed.0] + LexemesFrom(s, lexed.1)
  }

  /** The tokens of a run of lexemes, in order, the first error met being the one
      reported. */
  function InterpretAll(lexemes: seq<Lexeme>): Result<seq<PathToken>, ParseError> {
    if lexemes == [] then Success([])
    else
      match Interpret(lexemes[0])
      case Failure(e) => Failure(e)
      case Success(emitted) => Prepend(emitted, InterpretAll(lexemes[1..]))
  }

  /** The tokens of `s` from index `i` on. */
  function TokensFrom(s: string, i: nat): Result<seq<PathToken>, ParseError>
    requires i <= |s|
  {
    InterpretAll(LexemesFrom(s, i))
  }

  /** What doParse computes for a whole path. */
  function Tokens(s: string): Result<seq<PathToken>, ParseError> {
    TokensFrom(s, 0)
  }

  lemma PrependAssoc(a: seq<PathToken>, b: seq<PathToken>, r: Result<seq<PathToken>, ParseError>)
    ensures Prepend(a, Prepend(b, r)) == Prepend(a + b, r)
  {
    if r.Success? {
      assert a + (b + r.value) == (a + b) + r.value;
    }
  }

  lemma PrependNil(r: Result<seq<PathToken>, ParseError>)
    ensures Prepend([], r) == r
  {
    if r.Success? {
      assert [] + r.value == r.value;
    }
  }

  /** findClosingBracket: the first ']' at or after `start`. */
  function FindClosingBracket(path: string, start: nat): (r: Result<nat, ParseError>)
    ensures r.Success? ==> start <= r.value < |path| && path[r.value] == ']'
    ensures r.Success? ==> forall j :: start <= j < r.value ==> path[j] != ']'
    ensures r.Failure? ==> r.error == UnmatchedBracket && forall j :: start <= j < |path| ==> path[j] != ']'
  {
    match IndexOfChar(path, ']', start)
    case None => Failure(UnmatchedBracket)
    case Some(end) => Success(end)
  }

  /** The bracket part of doParse at a '[': the token of the bracket and the index just
      past its ']', or the error the bracket raises. */
  method ReadBracket(path: string, i: nat) returns (res: Result<(PathToken, nat), ParseError>)
    requires i < |path| && path[i] == '['
    ensures res.Failure? ==> StepAt(path, i) == Failure(res.error)
    ensures res.Success? ==> StepAt(path, i) == Success(([res.value.0], res.value.1))
  {
    var closing := FindClosingBracket(path, i);
    if closing.Failure? {
      StepUnclosedAt(path, i);
      return Failure(closing.error);
    }
    var close := closing.value;
    StepBracketAt(path, i, close, path[i + 1..close]);
    var inside := Trim(path[i + 1..close]);
    var token;
    if IsQuoted(inside) {
      var name := StripQuotes(inside);
      if name.Failure? {
        return Failure(name.error);
      }
      token := PropertyToken(name.value, false);
    } else if IsNumeric(inside) {
      var n := ParseInt(inside);
      if n.Failure? {
        return Failure(n.error);
      }
      token := IndexToken(n.value);
    } else {
      token := PropertyToken(inside, false);
    }
    res := Success((token, close + 1));
  }

  /** The property part of doParse at any other character: the token of the segment up
      to the next '.' or '[' (none for an empty name) and the index where it ends. */
  method ReadSegment(path: string, i: nat) returns (token: Option<PathToken>, j: nat)
    requires i < |path| && !IsSeparator(path[i])
    ensures StepAt(path, i) == Success((OptionSeq(token), j))
  {
    j := i;
    while j < |path| && path[j] != '.' && path[j] != '['
      invariant i <= j <= |path|
      invariant forall k :: i <= k < j ==> !IsSeparator(path[k])
    {
      j := j + 1;
    }
    SegEndUnique(path, i, j);
    var segment := path[i..j];
    StepSegmentAt(path, i, j, segment);
    var safeAccess := EndsWith(segment, "?");
    var name := if safeAccess then segment[..|segment| - 1] else segment;
    token := if name == [] then None else Some(PropertyToken(name, safeAccess));
  }

  /**
   * DefaultPathParser.doParse: the loop over the path computes exactly the tokens (or
   * the first error) of Tokens.
   */
  method DoParse(path: string) returns (r: Result<seq<PathToken>, ParseError>)
    ensures r == Tokens(path)
  {
    var tokens: seq<PathToken> := [];
    var i := 0;
    PrependNil(Tokens(path));
    while i < |path|
      invariant 0 <= i <= |path|
      invariant Tokens(path) == Prepend(tokens, TokensFrom(path, i))
      decreases |path| - i
    {
      var c := path[i];
      if c == '.' {
        PassKeepsParse(path, tokens, i, [], i + 1);
        assert tokens + [] == tokens;
        i := i + 1;
        continue;
      }
      if c == '[' {
        var bracket := ReadBracket(path, i);
        if bracket.Failure? {
          PassFailsParse(path, tokens, i, bracket.error);
          return Failure(bracket.error);
        }
        PassKeepsParse(path, tokens, i, [bracket.value.0], bracket.value.1);
        tokens := tokens + [bracket.value.0];
        i := bracket.value.1;
      } else {
        var token, j := ReadSegment(path, i);
        PassKeepsParse(path, tokens, i, OptionSeq(token), j);
        if token.Some? {
          tokens := tokens + [token.value];
        } else {
          assert tokens + [] == tokens;
        }
        i := j;
      }
    }
    assert TokensFrom(path, i) == Success([]);
    assert tokens + [] == tokens;
    r := Success(tokens);
  }

  /** A successful pass of the loop keeps its invariant. */
  lemma PassKeepsParse(path: string, tokens: seq<PathToken>, i: nat, emitted: seq<PathToken>, next: nat)
    requires i < |path| && StepAt(path, i) == Success((emitted, next))
    requires Tokens(path) == Prepend(tokens, TokensFrom(path, i))
    ensures Tokens(path) == Prepend(tokens + emitted, TokensFrom(path, next))
  {
    TokensFromStep(path, i, emitted, next);
    PrependAssoc(tokens, emitted, TokensFrom(path, next));
  }

  /** A failing pass of the loop is the outcome of the whole parse. */
  lemma PassFailsParse(path: string, tokens: seq<PathToken>, i: nat, e: ParseError)
    requires i < |path| && StepAt(path, i) == Failure(e)
    requires Tokens(path) == Prepend(tokens, TokensFrom(path, i))
    ensures Tokens(path) == Failure(e)
  {
    TokensFromFail(path, i, e);
  }

  /** Tokens of two successful parses, concatenated. */
  function Concat(a: Result<seq<PathToken>, ParseError>, b: Result<seq<PathToken>, ParseError>): Result<seq<PathToken>, ParseError>
    requires a.Success?
  {
    Prepend(a.value, b)
  }

  /** The bracket lexer ends where IndexOfChar finds the ']'. */
  lemma {:induction false} BracketFromFinds(s: string, open: nat, k: nat)
    requires open < k <= |s|
    ensures IndexOfChar(s, ']', k).None? ==> BracketFrom(s, open, k) == (Unclosed, |s|)
    ensures IndexOfChar(s, ']', k).Some? ==>
      BracketFrom(s, open, k) ==
        (Bracket(s[open + 1..IndexOfChar(s, ']', k).value]), IndexOfChar(s, ']', k).value + 1)
    decreases |s| - k
  {
    if k < |s| && s[k] != ']' {
      BracketFromFinds(s, open, k + 1);
    }
  }

  /** The segment lexer ends where SegEnd says. */
  lemma {:induction false} SegmentFromEnds(s: string, start: nat, k: nat)
    requires start < k <= |s|
    ensures SegmentFrom(s, start, k) == (Segment(s[start..SegEnd(s, k)]), SegEnd(s, k))
    decreases |s| - k
  {
    if k < |s| && !IsSeparator(s[k]) {
      SegmentFromEnds(s, start, k + 1);
    }
  }

  /** The pass at a '[' reads up to the first ']' after it, at `close`. */
  lemma LexBracketAt(s: string, i: nat, close: nat, inside: string)
    requires i < close < |s| && s[i] == '[' && IndexOfChar(s, ']', i) == Some(close)
    requires inside == s[i + 1..close]
    ensures LexAt(s, i) == (Bracket(inside), close + 1)
  {
    assert IndexOfChar(s, ']', i + 1) == Some(close);
    BracketFromFinds(s, i, i + 1);
  }

  /** The pass at a '[' with no ']' after it reads an unclosed bracket. */
  lemma LexUnclosedAt(s: string, i: nat)
    requires i < |s| && s[i] == '[' && IndexOfChar(s, ']', i).None?
    ensures LexAt(s, i) == (Unclosed, |s|)
  {
    assert IndexOfChar(s, ']', i + 1).None?;
    BracketFromFinds(s, i, i + 1);
  }

  /** The pass at any other character reads the bare segment from `i` to `e`. */
  lemma LexSegmentAt(s: string, i: nat, e: nat, segment: string)
    requires i < |s| && !IsSeparator(s[i]) && SegEnd(s, i) == e && segment == s[i..e]
    ensures LexAt(s, i) == (Segment(segment), e)
  {
    assert SegEnd(s, i + 1) == e;
    SegmentFromEnds(s, i, i + 1);
  }

  lemma StepIsLex(s: string, i: nat, lexed: (Lexeme, nat))
    requires i < |s| && LexAt(s, i) == lexed
    ensures StepAt(s, i) == StepOf(lexed)
  {
  }

  /** The pass at a '[' whose first ']' after it is at `close`. */
  lemma StepBracketAt(s: string, i: nat, close: nat, inside: string)
    requires i < close < |s| && s[i] == '[' && IndexOfChar(s, ']', i) == Some(close)
    requires inside == s[i + 1..close]
    ensures StepAt(s, i) == StepOf((Bracket(inside), close + 1))
  {
    LexBracketAt(s, i, close, inside);
    StepIsLex(s, i, (Bracket(inside), close + 1));
  }

  /** The pass at a '[' with no ']' after it. */
  lemma StepUnclosedAt(s: string, i: nat)
    requires i < |s| && s[i] == '[' && IndexOfChar(s, ']', i).None?
    ensures StepAt(s, i) == Failure(UnmatchedBracket)
  {
    LexUnclosedAt(s, i);
    StepIsLex(s, i, (Unclosed, |s|));
  }

  /** The pass at a bare segment from `i` to `e`. */
  lemma StepSegmentAt(s: string, i: nat, e: nat, segment: string)
    requires i < |s| && !IsSeparator(s[i]) && SegEnd(s, i) == e && segment == s[i..e]
    ensures StepAt(s, i) == Success((OptionSeq(SegmentToken(segment)), e))
  {
    LexSegmentAt(s, i, e, segment);
    StepIsLex(s, i, (Segment(segment), e));
  }

  /** Lexing a bracket inside the second of two texts is lexing it in the second alone,
      `o2` and `k2` being `o` and `k` moved past the first. */
  lemma {:induction false} BracketFromShift(a: string, b: string, o: nat, k: nat, o2: nat, k2: nat)
    requires o < k <= |b| && o2 == |a| + o && k2 == |a| + k
    ensures BracketFrom(a + b, o2, k2) == (BracketFrom(b, o, k).0, BracketFrom(b, o, k).1 + |a|)
    decreases |b| - k
  {
    var s := a + b;
    if k < |b| {
      assert s[k2] == b[k];
      if b[k] == ']' {
        assert s[o2 + 1..k2] == b[o + 1..k];
      } else {
        BracketFromShift(a, b, o, k + 1, o2, k2 + 1);
      }
    }
  }

  lemma {:induction false} SegmentFromShift(a: string, b: string, st: nat, k: nat, st2: nat, k2: nat)
    requires st < k <= |b| && st2 == |a| + st && k2 == |a| + k
    ensures SegmentFrom(a + b, st2, k2) == (SegmentFrom(b, st, k).0, SegmentFrom(b, st, k).1 + |a|)
    decreases |b| - k
  {
    var s := a + b;
    if k < |b| {
      assert s[k2] == b[k];
      if IsSeparator(b[k]) {
        assert s[st2..k2] == b[st..k];
      } else {
        SegmentFromShift(a, b, st, k + 1, st2, k2 + 1);
      }
    } else {
      assert s[st2..k2] == b[st..k];
    }
  }

  /** Lexing inside the second of two texts ignores the first. */
  lemma LexShift(a: string, b: string, j: nat, i: nat)
    requires j < |b| && i == |a| + j
    ensures LexAt(a + b, i) == (LexAt(b, j).0, LexAt(b, j).1 + |a|)
  {
    assert (a + b)[i] == b[j];
    if b[j] == '[' {
      BracketFromShift(a, b, j, j + 1, i, i + 1);
    } else if b[j] != '.' {
      SegmentFromShift(a, b, j, j + 1, i, i + 1);
    }
  }

  /** The pass at a dot emits nothing and moves one place on. */
  lemma StepDotAt(s: string, i: nat)
    requires i < |s| && s[i] == '.'
    ensures StepAt(s, i) == Success(([], i + 1))
  {
    assert LexAt(s, i) == (Dot, i + 1);
  }

  /** A successful pass of the scan followed by the rest of it. */
  lemma TokensFromStep(s: string, i: nat, emitted: seq<PathToken>, next: nat)
    requires i < |s| && StepAt(s, i) == Success((emitted, next))
    ensures TokensFrom(s, i) == Prepend(emitted, TokensFrom(s, next))
  {
    var lexed := LexAt(s, i);
    var rest := LexemesFrom(s, next);
    assert LexemesFrom(s, i) == [lexed.0] + rest;
    assert ([lexed.0] + rest)[1..] == rest;
  }

  /** A failing pass of the scan makes the whole scan fail. */
  lemma TokensFromFail(s: string, i: nat, e: ParseError)
    requires i < |s| && StepAt(s, i) == Failure(e)
    ensures TokensFrom(s, i) == Failure(e)
  {
    var lexed := LexAt(s, i);
    assert LexemesFrom(s, i) == [lexed.0] + LexemesFrom(s, lexed.1);
  }

  /** Lexing from inside the second of two texts ignores the first. */
  lemma {:induction false} LexemesShift(a: string, b: string, j: nat)
    requires j <= |b|
    ensures LexemesFrom(a + b, |a| + j) == LexemesFrom(b, j)
    decreases |b| - j
  {
    if j < |b| {
      var lexed := LexAt(b, j);
      LexShift(a, b, j, |a| + j);
      LexemesShift(a, b, lexed.1);
      assert LexemesFrom(a + b, |a| + j) == [lexed.0] + LexemesFrom(a + b, |a| + lexed.1);
    }
  }

  /** Parsing from inside the second of two texts ignores the first. */
  lemma TokensShift(a: string, b: string, j: nat)
    requires j <= |b|
    ensures TokensFrom(a + b, |a| + j) == TokensFrom(b, j)
  {
    LexemesShift(a, b, j);
  }

  /** A bracket that closes inside `p` closes at the same place once `p` is followed by a
      dot and more. */
  lemma {:induction false} BracketFromExtend(p: string, q: string, o: nat, k: nat)
    requires o < k <= |p| && BracketFrom(p, o, k).0.Bracket?
    ensures BracketFrom(p + "." + q, o, k) == BracketFrom(p, o, k)
    decreases |p| - k
  {
    var s := p + "." + q;
    assert s[k] == p[k];
    if p[k] == ']' {
      assert s[o + 1..k] == p[o + 1..k];
    } else {
      BracketFromExtend(p, q, o, k + 1);
    }
  }

  /** A segment inside `p` ends at the same place once `p` is followed by a dot: at the
      latest, it ends at that dot. */
  lemma {:induction false} SegmentFromExtend(p: string, q: string, st: nat, k: nat)
    requires st < k <= |p|
    ensures SegmentFrom(p + "." + q, st, k) == SegmentFrom(p, st, k)
    decreases |p| - k
  {
    var s := p + "." + q;
    if k < |p| {
      assert s[k] == p[k];
      if IsSeparator(p[k]) {
        assert s[st..k] == p[st..k];
      } else {
        SegmentFromExtend(p, q, st, k + 1);
      }
    } else {
      assert s[k] == '.';
      assert s[st..k] == p[st..k];
    }
  }

  /** A pass over `p` that does not leave a bracket open reads the same once `p` is
      followed by a dot and more: a bracket closes, and a segment ends, no later than
      the dot. */
  lemma LexDotExtend(p: string, q: string, i: nat)
    requires i < |p| && !LexAt(p, i).0.Unclosed?
    ensures LexAt(p + "." + q, i) == LexAt(p, i)
  {
    assert (p + "." + q)[i] == p[i];
    if p[i] == '[' {
      BracketFromExtend(p, q, i, i + 1);
    } else if p[i] != '.' {
      SegmentFromExtend(p, q, i, i + 1);
    }
  }

  /** What the passes over `p`, a dot and `q` read: those over `p`, the dot, then those
      over `q`, provided no bracket of `p` is left open. */
  lemma {:induction false} DotLexemesFrom(p: string, q: string, i: nat)
    requires i <= |p| && Unclosed !in LexemesFrom(p, i)
    ensures LexemesFrom(p + "." + q, i) == LexemesFrom(p, i) + [Dot] + LexemesFrom(q, 0)
    decreases |p| - i
  {
    var s := p + "." + q;
    if i == |p| {
      assert s == (p + ".") + q;
      assert LexAt(s, i) == (Dot, i + 1);
      LexemesShift(p + ".", q, 0);
      assert LexemesFrom(s, i) == [Dot] + LexemesFrom(s, i + 1);
    } else {
      var lexed := LexAt(p, i);
      var rest := LexemesFrom(p, lexed.1);
      assert LexemesFrom(p, i) == [lexed.0] + rest;
      LexDotExtend(p, q, i);
      assert LexemesFrom(s, i) == [lexed.0] + LexemesFrom(s, lexed.1);
      DotLexemesFrom(p, q, lexed.1);
      assert [lexed.0] + (rest + [Dot] + LexemesFrom(q, 0)) == ([lexed.0] + rest) + [Dot] + LexemesFrom(q, 0);
    }
  }

  /** Interpreting two runs of lexemes one after the other, the first succeeding. */
  lemma {:induction false} InterpretAppend(xs: seq<Lexeme>, ys: seq<Lexeme>)
    requires InterpretAll(xs).Success?
    ensures InterpretAll(xs + ys) == Prepend(InterpretAll(xs).value, InterpretAll(ys))
    decreases |xs|
  {
    if xs == [] {
      assert xs + ys == ys;
      PrependNil(InterpretAll(ys));
    } else {
      var rest := xs[1..];
      var emitted := Interpret(xs[0]).value;
      assert InterpretAll(xs + ys) == Prepend(emitted, InterpretAll(rest + ys)) by {
        assert (xs + ys)[0] == xs[0];
        assert (xs + ys)[1..] == rest + ys;
      }
      InterpretAppend(rest, ys);
      PrependAssoc(emitted, InterpretAll(rest).value, InterpretAll(ys));
    }
  }

  /** A dot between two runs of lexemes only separates them. */
  lemma InterpretDot(xs: seq<Lexeme>, ys: seq<Lexeme>)
    requires InterpretAll(xs).Success?
    ensures InterpretAll(xs + [Dot] + ys) == Prepend(InterpretAll(xs).value, InterpretAll(ys))
  {
    assert xs + [Dot] + ys == xs + ([Dot] + ys);
    assert InterpretAll([Dot] + ys) == InterpretAll(ys) by {
      assert ([Dot] + ys)[1..] == ys;
      PrependNil(InterpretAll(ys));
    }
    InterpretAppend(xs, [Dot] + ys);
  }

  /** A bracket left open fails the interpretation of any run it is part of. */
  lemma {:induction false} UnclosedFails(xs: seq<Lexeme>)
    requires Unclosed in xs
    ensures InterpretAll(xs).Failure?
    decreases |xs|
  {
    if xs[0] != Unclosed {
      assert xs == [xs[0]] + xs[1..];
      UnclosedFails(xs[1..]);
    }
  }

  /**
   * Joining two paths with a dot parses to the tokens of the first followed by those
   * of the second (or the second's error), provided the first parses: a dot only
   * separates, and no bracket or segment of the first path reaches past it.
   */
  lemma DotConcat(p: string, q: string)
    requires Tokens(p).Success?
    ensures Tokens(p + "." + q) == Concat(Tokens(p), Tokens(q))
  {
    var lp, lq := LexemesFrom(p, 0), LexemesFrom(q, 0);
    assert Unclosed !in lp by {
      if Unclosed in lp {
        UnclosedFails(lp);
      }
    }
    DotLexemesFrom(p, q, 0);
    InterpretDot(lp, lq);
  }

  lemma {:induction false} UnmatchedFrom(s: string, i: nat, k: nat)
    requires i <= k < |s| && s[k] == '['
    requires forall j :: i <= j < |s| ==> s[j] != ']'
    ensures TokensFrom(s, i) == Failure(UnmatchedBracket)
    decreases |s| - i
  {
    if s[i] == '[' {
      assert IndexOfChar(s, ']', i).None?;
      StepUnclosedAt(s, i);
      TokensFromFail(s, i, UnmatchedBracket);
    } else if s[i] == '.' {
      StepDotAt(s, i);
      TokensFromStep(s, i, [], i + 1);
      UnmatchedFrom(s, i + 1, k);
    } else {
      var e := SegEnd(s, i);
      assert e <= k;
      StepSegmentAt(s, i, e, s[i..e]);
      TokensFromStep(s, i, OptionSeq(SegmentToken(s[i..e])), e);
      UnmatchedFrom(s, e, k);
    }
  }

  /** A '[' with no ']' anywhere in the path is always reported as an unmatched bracket:
      nothing before the bracket can fail first. */
  lemma UnmatchedBracketFails(s: string, k: nat)
    requires k < |s| && s[k] == '['
    requires forall j :: 0 <= j < |s| ==> s[j] != ']'
    ensures Tokens(s) == Failure(UnmatchedBracket)
  {
    UnmatchedFrom(s, 0, k);
  }

  /** A name that is a bare segment of its own: non-empty, no separator, no '?' at the end. */
  predicate PlainName(name: string) {
    name != [] && !EndsWith(name, "?") && forall k :: 0 <= k < |name| ==> !IsSeparator(name[k])
  }

  /** The property tokens, without safe access, of a list of names. */
  function PropertyTokens(names: seq<string>): (r: seq<PathToken>)
    ensures |r| == |names|
    ensures forall i :: 0 <= i < |names| ==> r[i] == PropertyToken(names[i], false)
  {
    if names == [] then [] else [PropertyToken(names[0], false)] + PropertyTokens(names[1..])
  }

  /** A plain name is one property token. */
  lemma PlainNameParses(name: string)
    requires PlainName(name)
    ensures Tokens(name) == Success([PropertyToken(name, false)])
  {
    assert !IsSeparator(name[0]);
    SegEndUnique(name, 0, |name|);
    assert name[0..|name|] == name;
    assert SegmentToken(name) == Some(PropertyToken(name, false));
    StepSegmentAt(name, 0, |name|, name[0..|name|]);
    assert TokensFrom(name, |name|) == Success([]);
    assert [PropertyToken(name, false)] + [] == [PropertyToken(name, false)];
  }

  /** Plain names joined by dots parse back to one property token per name, in order. */
  lemma {:induction false} JoinedNamesParse(names: seq<string>)
    requires forall i :: 0 <= i < |names| ==> PlainName(names[i])
    ensures Tokens(Join(names, ".")) == Success(PropertyTokens(names))
    decreases |names|
  {
    if names != [] {
      var head := names[0];
      PlainNameParses(head);
      if |names| > 1 {
        var rest := names[1..];
        JoinedNamesParse(rest);
        assert names == [head] + rest;
        JoinCons(head, rest, ".");
        DotConcat(head, Join(rest, "."));
        assert PropertyTokens(names) == [PropertyToken(head, false)] + PropertyTokens(rest);
      } else {
        assert Join(names, ".") == head;
        assert PropertyTokens(names) == [PropertyToken(head, false)];
      }
    }
  }

  /** The decimal digits of `n`, most significant first. */
  function DecimalString(n: nat): (s: string)
    ensures IsNumeric(s)
  {
    var d := [(n % 10 + '0' as int) as char];
    if n < 10 then d else DecimalString(n / 10) + d
  }

  lemma {:induction false} DecimalValue(n: nat)
    ensures DigitsValue(DecimalString(n)) == n
  {
    var s := DecimalString(n);
    if n >= 10 {
      DecimalValue(n / 10);
      assert s[..|s| - 1] == DecimalString(n / 10);
    }
  }

  /** The decimal digits of an int-sized index make an index token. */
  lemma DigitsToken(n: nat)
    requires n <= IntMax
    ensures BracketToken(Trim(DecimalString(n))) == Success(IndexToken(n))
  {
    var digits := DecimalString(n);
    assert !IsTrimmable(digits[0]);
    assert TrimStart(digits, 0) == 0;
    assert !IsTrimmable(digits[|digits| - 1]);
    assert TrimEnd(digits, 0, |digits|) == |digits|;
    assert Trim(digits) == digits;
    assert !IsQuoted(digits) by {
      assert digits[..1] == [digits[0]];
    }
    DecimalValue(n);
    BracketTokenCases(digits);
  }

  /** An index written in decimal inside brackets parses back to that index. */
  lemma IndexRoundTrip(n: nat)
    requires n <= IntMax
    ensures Tokens("[" + DecimalString(n) + "]") == Success([IndexToken(n)])
  {
    var digits := DecimalString(n);
    var s := "[" + digits + "]";
    var close := |digits| + 1;
    assert s[close] == ']';
    assert forall j :: 1 <= j < close ==> s[j] == digits[j - 1];
    assert IndexOfChar(s, ']', 0) == Some(close);
    assert s[1..close] == digits;
    StepBracketAt(s, 0, close, s[1..close]);
    DigitsToken(n);
    assert TokensFrom(s, close + 1) == Success([]);
    assert [IndexToken(n)] + [] == [IndexToken(n)];
  }

  /**
   * DefaultPathParser: parses through a cache keyed by the path text. `Consistent`
   * says that every cached token list is the parse of its key.
   */
  /** DefaultPathParser.parse without its cache: a null or blank path is refused,
      any other path is scanned. */
  function ParsePath(path: Option<string>): Result<seq<PathToken>, ParseError>
  {
    if path.None? || IsBlank(path.value) then Failure(BlankPath) else Tokens(path.value)
  }

  class DefaultPathParser {
    const cache: MapCache<seq<PathToken>>

    ghost predicate Consistent()
      reads this, cache
    {
      forall k :: k in cache.store ==> Tokens(k) == Success(cache.store[k])
    }

    /** DefaultPathParser(cache) */
    constructor (cache: MapCache<seq<PathToken>>)
      ensures this.cache == cache
    {
      this.cache := cache;
    }

    /**
     * DefaultPathParser.parse: a null or blank path is refused without touching the
     * cache; a cached path returns the cached tokens; any other path is parsed, and
     * the tokens are cached when parsing succeeds. With a consistent cache the
     * result is the parse of the path, so a repeated path gives the same tokens.
     */
    method Parse(path: Option<string>) returns (r: Result<seq<PathToken>, ParseError>)
      requires cache.Valid()
      modifies cache
      ensures cache.Valid()
      ensures path.None? || IsBlank(path.value) ==>
        r == Failure(BlankPath) && cache.keys == old(cache.keys) && cache.store == old(cache.store)
      ensures path.Some? && !IsBlank(path.value) && path.value in old(cache.store) ==>
        r == Success(old(cache.store)[path.value]) && cache.keys == old(cache.keys) && cache.store == old(cache.store)
      ensures path.Some? && !IsBlank(path.value) && path.value !in old(cache.store) ==>
        r == Tokens(path.value)
      ensures path.Some? && !IsBlank(path.value) && path.value !in old(cache.store) && r.Success? ==>
        cache.keys == InsertKeys(old(cache.keys), path.value, cache.maxEntries) &&
        cache.store == InsertStore(old(cache.keys), old(cache.store), path.value, r.value, cache.maxEntries)
      ensures path.Some? && !IsBlank(path.value) && path.value !in old(cache.store) && r.Failure? ==>
        cache.keys == old(cache.keys) && cache.store == old(cache.store)
      ensures old(Consistent()) ==> Consistent()
      ensures old(Consistent()) ==> r == ParsePath(path)
    {
      if path.None? || IsBlank(path.value) {
        return Failure(BlankPath);
      }
      r := cache.Get(path.value, Tokens);
    }
  }
}
