/**
 * The lexer of domain-value literals inside expressions
 * (DomainNode::Lexer): character classes, the dispatch on the first
 * character of a token, the keyword table and the "_N" / "_N_M" size
 * suffixes of keywords, and the classification of identifier results.
 *
 * The lexer works on a complete chunk of text. Where the source peeks one
 * character past the token start, a position at or past the end of the
 * chunk reads as the terminating NUL character.
 */
module ExprLexer {
  import opened Wrappers
  import opened JsonArguments

  // ---------------------------------------------------------------------
  // Character classes (C locale)

  predicate IsSpace(c: char) {
    c == ' ' || c == '\t' || c == '\n' || c == '\r' || c as int == 11 || c as int == 12
  }
  predicate IsDigit(c: char) { '0' <= c <= '9' }
  predicate IsLetter(c: char) { 'a' <= c <= 'z' || 'A' <= c <= 'Z' }
  predicate IsAlnum(c: char) { IsLetter(c) || IsDigit(c) }
  predicate IsOctalDigit(c: char) { '0' <= c <= '7' }
  predicate IsHexDigit(c: char) { IsDigit(c) || 'a' <= c <= 'f' || 'A' <= c <= 'F' }

  /**
   * Details::isCharDigit: the digit test of a number context, 0 decimal,
   * 1 binary, 2 octal, 3 hexadecimal; any other context accepts nothing.
   */
  function IsCharDigit(c: char, context: int): (b: bool)
    ensures context == 0 ==> (b <==> '0' <= c <= '9')
    ensures context == 1 ==> (b <==> c == '0' || c == '1')
    ensures context == 2 ==> (b <==> '0' <= c <= '7')
    ensures context == 3 ==> (b <==> '0' <= c <= '9' || 'a' <= c <= 'f' || 'A' <= c <= 'F')
    ensures !(0 <= context <= 3) ==> !b
  {
    if context == 0 then IsDigit(c)
    else if context == 1 then c == '0' || c == '1'
    else if context == 2 then IsOctalDigit(c)
    else if context == 3 then IsHexDigit(c)
    else false
  }

  /** The four digit sets are nested: binary, octal, decimal, hexadecimal. */
  lemma DigitContextsNested(c: char)
    ensures IsCharDigit(c, 1) ==> IsCharDigit(c, 2)
    ensures IsCharDigit(c, 2) ==> IsCharDigit(c, 0)
    ensures IsCharDigit(c, 0) ==> IsCharDigit(c, 3)
  {
  }

  /** The character at position i, or NUL past the end of the chunk. */
  function At(s: string, i: nat): (c: char)
    ensures i < |s| ==> c == s[i]
    ensures i >= |s| ==> c == '\0'
  {
    if i < |s| then s[i] else '\0'
  }

  // ---------------------------------------------------------------------
  // Punctuators

  datatype Punctuator =
    | OpenParen | CloseParen | OpenBracket | CloseBracket | OpenBrace | CloseBrace | Comma | Minus | Plus

  /** The character each single-character token stands for. */
  function PunctuatorChar(p: Punctuator): (c: char)
  {
    match p
    case OpenParen => '('   case CloseParen => ')'
    case OpenBracket => '[' case CloseBracket => ']'
    case OpenBrace => '{'   case CloseBrace => '}'
    case Comma => ','       case Minus => '-'
    case Plus => '+'
  }

  /** The punctuator a character starts, if any. */
  function PunctuatorOf(c: char): (r: Option<Punctuator>)
    ensures r.Some? ==> PunctuatorChar(r.value) == c
  {
    match c
    case '(' => Some(OpenParen)   case ')' => Some(CloseParen)
    case '[' => Some(OpenBracket) case ']' => Some(CloseBracket)
    case '{' => Some(OpenBrace)   case '}' => Some(CloseBrace)
    case ',' => Some(Comma)       case '-' => Some(Minus)
    case '+' => Some(Plus)
    case _ => None
  }

  /** Every punctuator is recognised from its own character. */
  lemma PunctuatorRoundTrip(p: Punctuator)
    ensures PunctuatorOf(PunctuatorChar(p)) == Some(p)
  {
  }

  // ---------------------------------------------------------------------
  // readMain

  /** The radix of a number token, with its context code 0..3. */
  datatype Radix = Decimal | Binary | Octal | Hexadecimal

  function ContextOf(r: Radix): (k: int)
    ensures 0 <= k <= 3
  {
    match r
    case Decimal => 0 case Binary => 1 case Octal => 2 case Hexadecimal => 3
  }

  /**
   * What readMain found at position `start` (the first character that is
   * not white space): the end of the chunk, a single-character token
   * (consumed), the start of a number or of an identifier (left for the
   * next reader), or a character no token starts with (not consumed).
   */
  datatype MainToken =
    | EndOfChunk
    | PunctuatorToken(p: Punctuator)
    | NumberStart(radix: Radix)
    | IdentifierStart
    | UnknownCharacter

  datatype ReadStatus = RRFinished | RRHasToken | RRContinue

  datatype MainRead = MainRead(token: MainToken, start: nat, consumed: nat, diag: Diagnostics, status: ReadStatus)

  /** Index of the first character at or after i that is not white space. */
  function SkipSpaces(s: string, i: nat): (j: nat)
    requires i <= |s|
    ensures i <= j <= |s|
    ensures forall k :: i <= k < j ==> IsSpace(s[k])
    ensures j < |s| ==> !IsSpace(s[j])
    decreases |s| - i
  {
    if i == |s| || !IsSpace(s[i]) then i else SkipSpaces(s, i + 1)
  }

  /** The token that the character at i (and the one after it) starts. */
  function Classify(s: string, i: nat): (t: MainToken)
    requires i < |s|
  {
    var c := s[i];
    var next := At(s, i + 1);
    if PunctuatorOf(c).Some? then PunctuatorToken(PunctuatorOf(c).value)
    else if c == '.' && IsDigit(next) then NumberStart(Decimal)
    else if c == '0' && (next == 'x' || next == 'X') then NumberStart(Hexadecimal)
    else if c == '0' && (next == 'b' || next == 'B') then NumberStart(Binary)
    else if c == '0' && IsOctalDigit(next) then NumberStart(Octal)
    else if IsDigit(c) then NumberStart(Decimal)
    else if IsAlnum(c) || c == '_' then IdentifierStart
    else UnknownCharacter
  }

  /**
   * Records an error at `shift` characters after the current column; the
   * column cell, when there is one, is restored afterwards.
   */
  function AddErrorAt(d: Diagnostics, message: string, shift: nat): (r: Logged)
    ensures r.diag.column == d.column && r.diag.line == d.line
    ensures r.diag.count == d.count + 1
    ensures d.messages.Some? ==> r.diag.messages == Some(d.messages.value +
              [ErrorMessage(message, d.line.GetOr(0), if d.column.Some? then d.column.value + shift else 0)])
    ensures r.proceed == AddErrorMessage(d, message).proceed
  {
    var moved := d.(column := if d.column.Some? then Some(d.column.value + shift) else None);
    var logged := AddErrorMessage(moved, message);
    Logged(logged.diag.(column := d.column), logged.proceed)
  }

  /**
   * DomainNode::Lexer::readMain on a complete chunk, `apos` characters
   * after the current column.
   */
  function ReadMain(s: string, apos: nat, d: Diagnostics): (r: MainRead)
    ensures r.start == SkipSpaces(s, 0)
    ensures r.token.EndOfChunk? <==> r.start == |s|
    ensures r.token.EndOfChunk? ==> r.status == RRFinished && r.diag == d
    ensures r.token.PunctuatorToken? ==> r.start < |s| && PunctuatorChar(r.token.p) == s[r.start] && r.consumed == r.start + 1
    ensures r.token.NumberStart? || r.token.IdentifierStart? ==> r.consumed == r.start && r.status == RRHasToken && r.diag == d
    ensures r.token.UnknownCharacter? ==> r.consumed == r.start && r.diag.count == d.count + 1
    ensures r.token.UnknownCharacter? ==> (r.status == RRContinue <==> AddErrorMessage(d, "unknown character").proceed)
    ensures r.token.UnknownCharacter? ==> r.status != RRHasToken
  {
    var i := SkipSpaces(s, 0);
    var t := if i == |s| then EndOfChunk else Classify(s, i);
    if t.EndOfChunk? then MainRead(EndOfChunk, i, i, d, RRFinished)
    else if t.PunctuatorToken? then MainRead(t, i, i + 1, d, RRHasToken)
    else if t.UnknownCharacter? then
      var logged := AddErrorAt(d, "unknown character", apos + i);
      MainRead(UnknownCharacter, i, i, logged.diag, if logged.proceed then RRContinue else RRFinished)
    else MainRead(t, i, i, d, RRHasToken)
  }

  /**
   * The token-start classification: the prefixes 0x/0X, 0b/0B and 0
   * followed by an octal digit select the radix, another digit or a '.'
   * followed by a digit starts a decimal number, a letter or '_' starts
   * an identifier, and every other character that is not a punctuator is
   * unknown.
   */
  lemma ClassifyStarts(s: string, i: nat)
    requires i < |s| && PunctuatorOf(s[i]).None?
    ensures s[i] == '0' && (At(s, i + 1) == 'x' || At(s, i + 1) == 'X') ==> Classify(s, i) == NumberStart(Hexadecimal)
    ensures s[i] == '0' && (At(s, i + 1) == 'b' || At(s, i + 1) == 'B') ==> Classify(s, i) == NumberStart(Binary)
    ensures s[i] == '0' && IsOctalDigit(At(s, i + 1)) ==> Classify(s, i) == NumberStart(Octal)
    ensures '1' <= s[i] <= '9' ==> Classify(s, i) == NumberStart(Decimal)
    ensures s[i] == '.' ==> (Classify(s, i) == NumberStart(Decimal) <==> IsDigit(At(s, i + 1)))
    ensures s[i] == '.' && !IsDigit(At(s, i + 1)) ==> Classify(s, i) == UnknownCharacter
    ensures IsLetter(s[i]) || s[i] == '_' ==> Classify(s, i) == IdentifierStart
    ensures Classify(s, i) == UnknownCharacter <==>
              !IsAlnum(s[i]) && s[i] != '_' && !(s[i] == '.' && IsDigit(At(s, i + 1)))
    ensures Classify(s, i).NumberStart? ==> IsDigit(s[i]) || s[i] == '.'
  {
  }

  /** Leading white space is skipped: the same token is found without it. */
  lemma ReadMainSkipsSpaces(w: string, s: string, apos: nat, d: Diagnostics)
    requires forall k :: 0 <= k < |w| ==> IsSpace(w[k])
    requires ReadMain(s, apos + |w|, d).token != EndOfChunk
    ensures ReadMain(w + s, apos, d).token == ReadMain(s, apos + |w|, d).token
    ensures ReadMain(w + s, apos, d).start == |w| + ReadMain(s, apos + |w|, d).start
  {
    SkipSpacesAppend(w, s, 0);
    var i := SkipSpaces(s, 0);
    assert (w + s)[|w| + i] == s[i];
    assert At(w + s, |w| + i + 1) == At(s, i + 1);
  }

  lemma {:induction false} SkipSpacesAppend(w: string, s: string, k: nat)
    requires k <= |w|
    requires forall j :: 0 <= j < |w| ==> IsSpace(w[j])
    ensures SkipSpaces(w + s, k) == |w| + SkipSpaces(s, 0)
    decreases |w| - k
  {
    if k == |w| {
      SkipSpacesShift(w, s, 0);
    } else {
      assert (w + s)[k] == w[k];
      SkipSpacesAppend(w, s, k + 1);
    }
  }

  lemma {:induction false} SkipSpacesShift(w: string, s: string, i: nat)
    requires i <= |s|
    ensures SkipSpaces(w + s, |w| + i) == |w| + SkipSpaces(s, i)
    decreases |s| - i
  {
    if i < |s| {
      assert (w + s)[|w| + i] == s[i];
      if IsSpace(s[i]) {
        SkipSpacesShift(w, s, i + 1);
      }
    }
  }

  // ---------------------------------------------------------------------
  // Keywords

  datatype Keyword =
    | KMerge | KTop | KTopBit | KSigned | KUnsigned | KSymbolic
    | KMergeSymbolic | KTopSymbolic | KTopBitSymbolic | KSignedSymbolic | KUnsignedSymbolic

  /** The spelling of each keyword in the lexer's table. */
  function KeywordText(k: Keyword): (s: string)
    ensures |s| > 0 && !IsDigit(s[|s| - 1]) && (IsLetter(s[0]) || s[0] == '_')
    ensures forall i :: 0 <= i < |s| ==> IsAlnum(s[i]) || s[i] == '_'
  {
    match k
    case KMerge => "vv"            case KTop => "T"
    case KTopBit => "Tb"           case KSigned => "S"
    case KUnsigned => "U"          case KSymbolic => "_s"
    case KMergeSymbolic => "vv_s"  case KTopSymbolic => "T_s"
    case KTopBitSymbolic => "Tb_s" case KSignedSymbolic => "S_s"
    case KUnsignedSymbolic => "U_s"
  }

  /** The exact-match lookup in the keyword table. */
  function KeywordOf(s: string): (r: Option<Keyword>)
    ensures r.Some? ==> KeywordText(r.value) == s
  {
    if s == "vv" then Some(KMerge)
    else if s == "T" then Some(KTop)
    else if s == "Tb" then Some(KTopBit)
    else if s == "S" then Some(KSigned)
    else if s == "U" then Some(KUnsigned)
    else if s == "_s" then Some(KSymbolic)
    else if s == "vv_s" then Some(KMergeSymbolic)
    else if s == "T_s" then Some(KTopSymbolic)
    else if s == "Tb_s" then Some(KTopBitSymbolic)
    else if s == "S_s" then Some(KSignedSymbolic)
    else if s == "U_s" then Some(KUnsignedSymbolic)
    else None
  }

  /** The table maps every keyword's spelling to that keyword, so it has no duplicate entry. */
  lemma KeywordTableRoundTrip(k: Keyword)
    ensures KeywordOf(KeywordText(k)) == Some(k)
  {
  }

  // ---------------------------------------------------------------------
  // Identifiers and size suffixes

  /** What readMain hands to readIdentifierToken: a letter or '_', then letters, digits and '_'. */
  predicate IsIdentifier(w: string) {
    |w| > 0 && (IsLetter(w[0]) || w[0] == '_') &&
    forall i :: 0 <= i < |w| ==> IsAlnum(w[i]) || w[i] == '_'
  }

  /** Index of the last character before k that is not a decimal digit, or -1. */
  function LastNonDigit(w: string, k: int): (r: int)
    requires -1 <= k <= |w|
    ensures -1 <= r < k || (k == -1 && r == -1)
    ensures r >= 0 ==> !IsDigit(w[r])
    ensures forall i :: r < i < k ==> IsDigit(w[i])
    decreases k + 1
  {
    if k <= 0 then -1
    else if !IsDigit(w[k - 1]) then k - 1
    else LastNonDigit(w, k - 1)
  }

  /**
   * Where the size suffix of an identifier starts (|w| when it has none).
   * A run of digits at the end preceded by '_' is a suffix; when a digit
   * precedes that '_', a second "_digits" group before it makes the suffix
   * "_N_M". Otherwise the suffix should start at the '_'; as written it
   * starts one character earlier, on the digit.
   */
  function ExtensionStart(w: string, asWritten: bool): (e: nat)
    requires IsIdentifier(w)
    ensures e <= |w|
    ensures !asWritten && e < |w| ==> w[e] == '_' && 0 < |w| - e
  {
    var n := |w|;
    if !IsDigit(w[n - 1]) then n
    else
      var j := LastNonDigit(w, n - 1);
      if j < 0 || w[j] != '_' then n
      else if j > 0 && IsDigit(w[j - 1]) then
        var k := LastNonDigit(w, j - 1);
        if k >= 0 && w[k] == '_' then k
        else if asWritten then j - 1 else j
      else j
  }

  /** The digits at the start of s and the value they spell (readInteger). */
  function LeadingDigits(s: string): (n: nat)
    ensures n <= |s|
    ensures forall i :: 0 <= i < n ==> IsDigit(s[i])
    ensures n < |s| ==> !IsDigit(s[n])
  {
    if |s| == 0 || !IsDigit(s[0]) then 0 else 1 + LeadingDigits(s[1..])
  }

  function DigitsValue(ds: string): nat
  {
    if |ds| == 0 then 0
    else if IsDigit(ds[|ds| - 1]) then DigitsValue(ds[..|ds| - 1]) * 10 + (ds[|ds| - 1] as int - '0' as int)
    else DigitsValue(ds[..|ds| - 1]) * 10
  }

  function ReadInteger(s: string): (v: nat)
  {
    DigitsValue(s[..LeadingDigits(s)])
  }

  /** IdentifierTokenResult: what readIdentifierToken builds. */
  datatype IdentifierResult =
    | Identifier(text: string)
    | PlainKeyword(keyword: Keyword)
    | SizedKeyword(keyword: Keyword, size: nat)
    | FloatSizedKeyword(keyword: Keyword, sizeExponent: nat, sizeMantissa: nat)
    | AssumptionFailed

  /**
   * The body of the keyword branch: a suffix "_N" gives a sized keyword,
   * "_N_M" a float-sized one. A suffix that does not start with '_' fails
   * the source's AssumeCondition.
   */
  function SizedFromSuffix(k: Keyword, ext: string): (r: IdentifierResult)
    ensures !r.Identifier?
    ensures r.PlainKeyword? <==> |ext| == 0
    ensures !r.AssumptionFailed? ==> r.keyword == k
    ensures |ext| > 0 && ext[0] != '_' ==> r == AssumptionFailed
  {
    if |ext| == 0 then PlainKeyword(k)
    else if ext[0] != '_' then AssumptionFailed
    else
      var rest := ext[1..];
      var n := LeadingDigits(rest);
      var first := DigitsValue(rest[..n]);
      var after := rest[n..];
      if |after| == 0 then SizedKeyword(k, first)
      else if after[0] != '_' then AssumptionFailed
      else FloatSizedKeyword(k, first, ReadInteger(after[1..]))
  }

  /**
   * readIdentifierToken on a whole identifier: the part before the size
   * suffix is looked up in the keyword table; a keyword takes the suffix
   * as its size, anything else stays a plain identifier.
   */
  function ReadIdentifier(w: string, asWritten: bool): (r: IdentifierResult)
    requires IsIdentifier(w)
    ensures r.Identifier? ==> r.text == w
    ensures KeywordOf(w[..ExtensionStart(w, asWritten)]).None? <==> r.Identifier?
  {
    var e := ExtensionStart(w, asWritten);
    match KeywordOf(w[..e])
    case None => Identifier(w)
    case Some(k) => SizedFromSuffix(k, w[e..])
  }

  lemma {:induction false} DigitsValueAllDigits(ds: string)
    requires forall i :: 0 <= i < |ds| ==> IsDigit(ds[i])
    ensures LeadingDigits(ds) == |ds|
  {
    if |ds| > 0 {
      DigitsValueAllDigits(ds[1..]);
    }
  }

  /** The suffix of a keyword followed by "_" and digits starts at the '_'. */
  lemma SizedExtensionStart(t: string, ds: string, asWritten: bool)
    requires |t| > 0 && (IsLetter(t[0]) || t[0] == '_') && !IsDigit(t[|t| - 1])
    requires forall i :: 0 <= i < |t| ==> IsAlnum(t[i]) || t[i] == '_'
    requires |ds| > 0 && forall i :: 0 <= i < |ds| ==> IsDigit(ds[i])
    ensures IsIdentifier(t + "_" + ds)
    ensures ExtensionStart(t + "_" + ds, asWritten) == |t|
  {
    var w := t + "_" + ds;
    assert forall i :: |t| < i < |w| ==> w[i] == ds[i - |t| - 1];
    assert forall i :: 0 <= i < |t| ==> w[i] == t[i];
    assert w[|t|] == '_';
    assert LastNonDigit(w, |w| - 1) == |t|;
  }

  lemma ReadKeyword(w: string, asWritten: bool, e: nat, k: Keyword)
    requires IsIdentifier(w) && ExtensionStart(w, asWritten) == e && KeywordOf(w[..e]) == Some(k)
    ensures ReadIdentifier(w, asWritten) == SizedFromSuffix(k, w[e..])
  {
  }

  /** A keyword followed by "_N" is that keyword sized N, as written and corrected. */
  lemma SizedKeywordRoundTrip(k: Keyword, ds: string, asWritten: bool)
    requires |ds| > 0 && forall i :: 0 <= i < |ds| ==> IsDigit(ds[i])
    ensures IsIdentifier(KeywordText(k) + "_" + ds)
    ensures ReadIdentifier(KeywordText(k) + "_" + ds, asWritten) == SizedKeyword(k, DigitsValue(ds))
  {
    KeywordTableRoundTrip(k);
    SizedTextRoundTrip(KeywordText(k), k, ds, asWritten);
  }

  lemma SizedTextRoundTrip(t: string, k: Keyword, ds: string, asWritten: bool)
    requires |t| > 0 && (IsLetter(t[0]) || t[0] == '_') && !IsDigit(t[|t| - 1])
    requires forall i :: 0 <= i < |t| ==> IsAlnum(t[i]) || t[i] == '_'
    requires KeywordOf(t) == Some(k)
    requires |ds| > 0 && forall i :: 0 <= i < |ds| ==> IsDigit(ds[i])
    ensures IsIdentifier(t + "_" + ds)
    ensures ReadIdentifier(t + "_" + ds, asWritten) == SizedKeyword(k, DigitsValue(ds))
  {
    var w := t + "_" + ds;
    SizedExtensionStart(t, ds, asWritten);
    ConcatSplit(t, "_", ds);
    SizedSuffix(k, ds);
    ReadKeyword(w, asWritten, |t|, k);
  }

  /** A text made of five parts, cut after the first. */
  lemma ConcatSplitFive(a: string, b: string, c: string, d: string, e: string)
    ensures (a + b + c + d + e)[..|a|] == a && (a + b + c + d + e)[|a|..] == b + c + d + e
  {
    assert a + b + c + d + e == a + (b + c + d + e);
  }

  /** A text made of three parts, cut after the first. */
  lemma ConcatSplit(a: string, b: string, c: string)
    ensures (a + b + c)[..|a|] == a && (a + b + c)[|a|..] == b + c
  {
  }

  lemma SizedSuffix(k: Keyword, ds: string)
    requires |ds| > 0 && forall i :: 0 <= i < |ds| ==> IsDigit(ds[i])
    ensures SizedFromSuffix(k, "_" + ds) == SizedKeyword(k, DigitsValue(ds))
  {
    assert ("_" + ds)[1..] == ds;
    DigitsValueAllDigits(ds);
    assert ds[..|ds|] == ds;
  }

  /** The suffix of a keyword followed by "_", digits, "_" and digits starts at the first '_'. */
  lemma FloatExtensionStart(t: string, es: string, ms: string, asWritten: bool)
    requires |t| > 0 && (IsLetter(t[0]) || t[0] == '_') && !IsDigit(t[|t| - 1])
    requires forall i :: 0 <= i < |t| ==> IsAlnum(t[i]) || t[i] == '_'
    requires |es| > 0 && forall i :: 0 <= i < |es| ==> IsDigit(es[i])
    requires |ms| > 0 && forall i :: 0 <= i < |ms| ==> IsDigit(ms[i])
    ensures IsIdentifier(t + "_" + es + "_" + ms)
    ensures ExtensionStart(t + "_" + es + "_" + ms, asWritten) == |t|
  {
    var w := t + "_" + es + "_" + ms;
    var u := |t| + 1 + |es|;
    assert forall i :: u < i < |w| ==> w[i] == ms[i - u - 1];
    assert forall i :: |t| < i < u ==> w[i] == es[i - |t| - 1];
    assert forall i :: 0 <= i < |t| ==> w[i] == t[i];
    assert w[|t|] == '_' && w[u] == '_';
    assert LastNonDigit(w, |w| - 1) == u;
    assert IsDigit(w[u - 1]);
    assert LastNonDigit(w, u - 1) == |t|;
  }

  lemma FloatSizedSuffix(k: Keyword, es: string, ms: string)
    requires |es| > 0 && forall i :: 0 <= i < |es| ==> IsDigit(es[i])
    requires |ms| > 0 && forall i :: 0 <= i < |ms| ==> IsDigit(ms[i])
    ensures SizedFromSuffix(k, "_" + es + "_" + ms) == FloatSizedKeyword(k, DigitsValue(es), DigitsValue(ms))
  {
    var rest := ("_" + es + "_" + ms)[1..];
    assert rest == es + ("_" + ms);
    LeadingDigitsStop(es, "_" + ms);
    assert rest[..|es|] == es;
    assert rest[|es|..] == "_" + ms;
    assert ("_" + ms)[1..] == ms;
    DigitsValueAllDigits(ms);
    assert ms[..|ms|] == ms;
  }

  /** A keyword followed by "_N_M" is that keyword float-sized (N, M), as written and corrected. */
  lemma FloatSizedKeywordRoundTrip(k: Keyword, es: string, ms: string, asWritten: bool)
    requires |es| > 0 && forall i :: 0 <= i < |es| ==> IsDigit(es[i])
    requires |ms| > 0 && forall i :: 0 <= i < |ms| ==> IsDigit(ms[i])
    ensures IsIdentifier(KeywordText(k) + "_" + es + "_" + ms)
    ensures ReadIdentifier(KeywordText(k) + "_" + es + "_" + ms, asWritten)
         == FloatSizedKeyword(k, DigitsValue(es), DigitsValue(ms))
  {
    var t := KeywordText(k);
    var w := t + "_" + es + "_" + ms;
    FloatExtensionStart(t, es, ms, asWritten);
    ConcatSplitFive(t, "_", es, "_", ms);
    KeywordTableRoundTrip(k);
    FloatSizedSuffix(k, es, ms);
    ReadKeyword(w, asWritten, |t|, k);
  }

  lemma {:induction false} LeadingDigitsStop(ds: string, tail: string)
    requires forall i :: 0 <= i < |ds| ==> IsDigit(ds[i])
    requires |tail| > 0 && !IsDigit(tail[0])
    ensures LeadingDigits(ds + tail) == |ds|
  {
    if |ds| > 0 {
      assert (ds + tail)[1..] == ds[1..] + tail;
      LeadingDigitsStop(ds[1..], tail);
    } else {
      assert ds + tail == tail;
    }
  }

  /** A word that is not in the keyword table and has no size suffix stays an identifier. */
  lemma NonKeywordStaysIdentifier(w: string, asWritten: bool)
    requires IsIdentifier(w) && !IsDigit(w[|w| - 1]) && KeywordOf(w).None?
    ensures ReadIdentifier(w, asWritten) == Identifier(w)
  {
    assert w[..|w|] == w;
  }

  /**
   * "U8_16": as written the suffix is taken to start on the '8', so the
   * content "U" is found in the table and the suffix "8_16" fails the
   * assumption that it starts with '_'; corrected, the content is "U8",
   * not a keyword, and the word stays an identifier.
   */
  lemma SuffixCounterexample()
    ensures IsIdentifier("U8_16")
    ensures ReadIdentifier("U8_16", true) == AssumptionFailed
    ensures ReadIdentifier("U8_16", false) == Identifier("U8_16")
  {
    var w := "U8_16";
    assert LastNonDigit(w, 4) == 2;
    assert LastNonDigit(w, 1) == 0;
    assert ExtensionStart(w, true) == 1;
    assert ExtensionStart(w, false) == 2;
    assert w[..1] == "U" && w[1..] == "8_16";
    assert w[..2] == "U8";
  }

  /** The corrected suffix always starts with '_', so a keyword never fails the assumption. */
  lemma CorrectedNeverFails(w: string)
    requires IsIdentifier(w)
    ensures !ReadIdentifier(w, false).AssumptionFailed?
  {
    var e := ExtensionStart(w, false);
    if e < |w| {
      CorrectedSuffixShape(w);
      assert w[e..][1..] == w[e + 1..];
    }
  }

  /** The corrected suffix: '_', digits, then nothing or another '_'. */
  lemma CorrectedSuffixShape(w: string)
    requires IsIdentifier(w)
    ensures var e := ExtensionStart(w, false);
      e < |w| ==> (w[e] == '_' &&
                   var rest := w[e + 1..];
                   LeadingDigits(rest) == |rest| || rest[LeadingDigits(rest)] == '_')
  {
    var n := |w|;
    var e := ExtensionStart(w, false);
    if e < n {
      var j := LastNonDigit(w, n - 1);
      var rest := w[e + 1..];
      var m := LeadingDigits(rest);
      if e == j {
        assert forall i :: 0 <= i < |rest| ==> IsDigit(rest[i]) by {
          assert forall i :: 0 <= i < |rest| ==> rest[i] == w[e + 1 + i];
        }
        assert m == |rest|;
      } else {
        assert 0 <= e < j - 1 && w[j] == '_';
        assert forall i :: 0 <= i < j - e - 1 ==> IsDigit(rest[i]) by {
          assert forall i :: 0 <= i < j - e - 1 ==> rest[i] == w[e + 1 + i];
        }
        assert rest[j - e - 1] == '_';
        assert m == j - e - 1;
      }
    }
  }

  /** isDomain: any keyword form of Top or TopBit, symbolic or not. */
  predicate IsDomain(r: IdentifierResult) {
    match r
    case PlainKeyword(k) => k in {KTop, KTopBit, KTopSymbolic, KTopBitSymbolic}
    case SizedKeyword(k, _) => k in {KTop, KTopBit, KTopSymbolic, KTopBitSymbolic}
    case FloatSizedKeyword(k, _, _) => k in {KTop, KTopBit, KTopSymbolic, KTopBitSymbolic}
    case _ => false
  }

  /** isQualifier: only an unsized Signed or Unsigned keyword, symbolic or not. */
  predicate IsQualifier(r: IdentifierResult) {
    r.PlainKeyword? && r.keyword in {KSigned, KUnsigned, KSignedSymbolic, KUnsignedSymbolic}
  }

  /** No identifier result is both a domain and a qualifier, and neither is a plain identifier. */
  lemma DomainAndQualifierDisjoint(r: IdentifierResult)
    ensures !(IsDomain(r) && IsQualifier(r))
    ensures r.Identifier? ==> !IsDomain(r) && !IsQualifier(r)
    ensures IsDomain(r) <==> (r.PlainKeyword? || r.SizedKeyword? || r.FloatSizedKeyword?) &&
                             KeywordText(r.keyword)[0] == 'T'
  {
  }
}
