/**
 * The JSON lexer (STG::JSon::GenericLexer) on a complete input, in
 * full-token mode: token types and their contents, the transfer semantics
 * of Token, the lexer's own state, whitespace and position tracking,
 * structural characters, the bare words true/false/null, strings without
 * escapes, and numbers with their extensions to RFC 8259 (a leading '+',
 * and hexadecimal "0x", binary "0b" and octal "0" prefixes).
 *
 * Where the source peeks past the end of the text it reads the
 * terminating NUL character; At gives '\0' there.
 */
module JsonLexer {
  import opened Wrappers
  import opened ExprLexer

  // ---------------------------------------------------------------------
  // Tokens

  datatype TokenType =
    | TUndefined | TOpenBrace | TCloseBrace | TOpenBracket | TCloseBracket
    | TComma | TColon | TString | TTrue | TFalse | TNull | TNumber

  datatype SpecialCoding = SCNone | SCBit | SCOctal | SCHexa

  /** NumberToken: the text of the number and the flags the lexer sets. */
  datatype NumberToken = NumberToken(content: string, isFloat: bool, isNegative: bool, coding: SpecialCoding)

  predicate IsInteger(n: NumberToken) { !n.isFloat }
  predicate HasSpecialCoding(n: NumberToken) { n.coding != SCNone }

  /** The flags of a number token are only ever set, never cleared. */
  function SetFloat(n: NumberToken): NumberToken { n.(isFloat := true) }
  function SetNegative(n: NumberToken): NumberToken { n.(isNegative := true) }
  function SetCoding(n: NumberToken, c: SpecialCoding): NumberToken { n.(coding := c) }

  /** Integer and float are the two sides of one flag; a coding is special once a setter chose one. */
  lemma NumberFlags(n: NumberToken, c: SpecialCoding)
    ensures IsInteger(n) <==> !n.isFloat
    ensures !IsInteger(SetFloat(n)) && SetFloat(n).isNegative == n.isNegative
    ensures SetNegative(n).isNegative && IsInteger(SetNegative(n)) == IsInteger(n)
    ensures HasSpecialCoding(SetCoding(n, c)) <==> c != SCNone
    ensures !HasSpecialCoding(NumberToken(n.content, false, false, SCNone))
  {
  }

  /** The allocated content of a token (an AbstractToken and its subclasses). */
  datatype Content = StringContent(text: string) | NumberContent(number: NumberToken) | BareContent(bareType: TokenType)

  function ContentType(c: Content): TokenType
  {
    match c
    case StringContent(_) => TString
    case NumberContent(_) => TNumber
    case BareContent(t) => t
  }

  /** AbstractToken::createToken: only numbers and strings carry content. */
  function CreateContent(t: TokenType): (r: Option<Content>)
    ensures r.Some? <==> t == TNumber || t == TString
    ensures r.Some? ==> ContentType(r.value) == t
    ensures t == TNumber ==> r == Some(NumberContent(NumberToken("", false, false, SCNone)))
    ensures t == TString ==> r == Some(StringContent(""))
  {
    if t == TNumber then Some(NumberContent(NumberToken("", false, false, SCNone)))
    else if t == TString then Some(StringContent(""))
    else None
  }

  /** Token: a type and an optional content. */
  datatype Token = Token(tokenType: TokenType, content: Option<Content>)

  predicate IsValidToken(t: Token) { t.tokenType != TUndefined }

  /** Token(AbstractToken*): the token takes its content's type. */
  function FromContent(c: Content): (t: Token)
    ensures t.content == Some(c) && t.tokenType == ContentType(c)
    ensures IsValidToken(t) <==> ContentType(c) != TUndefined
  {
    Token(ContentType(c), Some(c))
  }

  /**
   * The copy constructor and assignment of Token: the copy gets the type
   * and the content; a source holding content is left with the undefined
   * type, so that the content has one valid owner.
   */
  function Transfer(source: Token): (r: (Token, Token))
    ensures r.0 == source
    ensures r.1.content == source.content
    ensures IsValidToken(r.1) <==> IsValidToken(source) && source.content.None?
    ensures source.content.Some? ==> r.1.tokenType == TUndefined
  {
    (source, if source.content.Some? then source.(tokenType := TUndefined) else source)
  }

  /** A transfer twice in a row leaves a token with content invalid in both old places. */
  lemma TransferMovesOwnership(t: Token)
    requires t.content.Some? && IsValidToken(t)
    ensures var (copy, rest) := Transfer(t); IsValidToken(copy) && !IsValidToken(rest)
    ensures var (copy, rest) := Transfer(t); var (copy2, rest2) := Transfer(copy);
      IsValidToken(copy2) && !IsValidToken(rest2) && copy2 == t
  {
  }

  // ---------------------------------------------------------------------
  // The lexer's own state

  datatype Options = OFullToken | OPartialToken

  /** The read method a pending token continues with. */
  datatype SubState = ReadNumberState | ReadAlphaState | ReadStringState

  datatype LexerState = LexerState(currentToken: string, inMain: bool, pending: Option<SubState>,
                                   context: bv8, token: Token, options: Options)

  function InitialLexer(): (l: LexerState)
    ensures l.inMain && l.pending.None? && l.context == 0 && !IsValidToken(l.token) && l.options == OFullToken
  {
    LexerState("", true, None, 0, Token(TUndefined, None), OFullToken)
  }

  function SetPartialToken(l: LexerState): LexerState { l.(options := OPartialToken) }
  function SetFullToken(l: LexerState): LexerState { l.(options := OFullToken) }
  predicate IsPartialToken(l: LexerState) { l.options == OPartialToken }
  predicate IsFullToken(l: LexerState) { l.options == OFullToken }

  /** hasContentToken: a token is pending exactly when a sub-state is set. */
  predicate HasContentToken(l: LexerState) { l.pending.Some? }

  /** After either mode setter exactly one mode holds, and the last setter wins. */
  lemma ModesExclusive(l: LexerState)
    ensures IsPartialToken(SetPartialToken(l)) && !IsFullToken(SetPartialToken(l))
    ensures IsFullToken(SetFullToken(l)) && !IsPartialToken(SetFullToken(l))
    ensures IsFullToken(l) != IsPartialToken(l)
    ensures SetFullToken(SetPartialToken(l)) == SetFullToken(l)
  {
  }

  /**
   * GenericLexer::clear: back to the main state with no pending token,
   * context 0, an empty current text and an undefined token; the mode is
   * kept.
   */
  function Clear(l: LexerState): (r: LexerState)
    ensures r.inMain && !HasContentToken(r) && r.context == 0 && r.currentToken == ""
    ensures !IsValidToken(r.token) && r.token.content.None?
    ensures r.options == l.options
    ensures r == InitialLexer().(options := l.options)
  {
    LexerState("", true, None, 0, Token(TUndefined, None), l.options)
  }

  // ---------------------------------------------------------------------
  // Positions

  /** Line and column, both counted from 1 by the caller. */
  datatype Position = Position(line: nat, column: nat)

  /** How one whitespace character moves the position: a newline starts the next line at column 1. */
  function StepChar(p: Position, c: char): Position
  {
    if c == '\n' then Position(p.line + 1, 1) else p.(column := p.column + 1)
  }

  function CountNewlines(t: string): (n: nat)
    ensures n <= |t|
  {
    if |t| == 0 then 0 else CountNewlines(t[..|t| - 1]) + (if t[|t| - 1] == '\n' then 1 else 0)
  }

  /** The count of characters after the last newline (all of them when there is none). */
  function AfterLastNewline(t: string): (n: nat)
    ensures n <= |t|
  {
    if |t| == 0 then 0 else if t[|t| - 1] == '\n' then 0 else AfterLastNewline(t[..|t| - 1]) + 1
  }

  /**
   * The position after a text, stated on the text as a whole: the line
   * grows by its newlines; the column is 1 plus what follows the last
   * newline, or grows by the text's length when there is none.
   */
  function Advance(p: Position, t: string): Position
  {
    if CountNewlines(t) == 0 then p.(column := p.column + |t|)
    else Position(p.line + CountNewlines(t), AfterLastNewline(t) + 1)
  }

  lemma {:induction false} AdvanceStep(p: Position, t: string, c: char)
    ensures Advance(p, t + [c]) == StepChar(Advance(p, t), c)
  {
    var u := t + [c];
    assert u[..|u| - 1] == t;
  }

  /** SkipBlanks of whitespace with the position each character moves; a newline resets the column. */
  function SkipWhitespace(s: string, i: nat, p: Position): (r: (nat, Position))
    requires i <= |s|
    ensures i <= r.0 <= |s|
    ensures forall k :: i <= k < r.0 ==> IsSpace(s[k])
    ensures r.0 < |s| ==> !IsSpace(s[r.0])
    decreases |s| - i
  {
    if i < |s| && IsSpace(s[i]) then SkipWhitespace(s, i + 1, StepChar(p, s[i])) else (i, p)
  }

  /** Skipping from i passes through every intermediate whitespace position. */
  lemma {:induction false} SkipWhitespaceFrom(s: string, i: nat, p: Position, j: nat)
    requires i <= j <= |s|
    requires forall k :: i <= k < j ==> IsSpace(s[k])
    ensures SkipWhitespace(s, i, p) == SkipWhitespace(s, j, Advance(p, s[i..j]))
    decreases j - i
  {
    if i == j {
      assert s[i..j] == [];
    } else {
      SkipWhitespaceFrom(s, i, p, j - 1);
      AdvanceStep(p, s[i..j - 1], s[j - 1]);
      assert s[i..j - 1] + [s[j - 1]] == s[i..j];
    }
  }

  /** Skipping whitespace moves the line by the newlines passed and sets the column accordingly. */
  lemma WhitespacePosition(s: string, i: nat, p: Position)
    requires i <= |s|
    ensures SkipWhitespace(s, i, p).1 == Advance(p, s[i..SkipWhitespace(s, i, p).0])
  {
    var j := SkipWhitespace(s, i, p).0;
    SkipWhitespaceFrom(s, i, p, j);
    assert SkipWhitespace(s, j, Advance(p, s[i..j])) == (j, Advance(p, s[i..j]));
  }

  // ---------------------------------------------------------------------
  // Numbers

  /**
   * The number contexts (DGenericLexer::NumberContext). The format bits
   * (hexadecimal 1, binary 2, octal 3) live in the two low bits; the sign
   * is carried with them under the prefix mask; the stage of the number
   * (integer part, fractional part, exponent sign, exponent) sits above.
   */
  datatype NumberCodes = NumberCodes(positive: bv8, negative: bv8, integer: bv8, fractional: bv8,
                                     signExponent: bv8, exponent: bv8, prefix: bv8)

  /** The constants as the source declares them. */
  const WrittenCodes := NumberCodes(0x4, 0x5, 0x8, 0x16, 0x17, 0x18, 0x7)

  /** Constants that keep the sign, the format and the stage apart. */
  const IntendedCodes := NumberCodes(0x4, 0xC, 0x10, 0x20, 0x30, 0x40, 0xF)

  const NCHexa: bv8 := 0x1
  const NCBinary: bv8 := 0x2
  const NCOctal: bv8 := 0x3
  const NCFormat: bv8 := 0x3

  /** DGenericLexer::isCharDigit: the digits of the context's format; other contexts accept nothing. */
  function JsonDigit(c: char, context: bv8): (b: bool)
    ensures context == 0 ==> (b <==> IsDigit(c))
    ensures context == NCBinary ==> (b <==> c == '0' || c == '1')
    ensures context == NCOctal ==> (b <==> IsOctalDigit(c))
    ensures context == NCHexa ==> (b <==> IsHexDigit(c))
    ensures context > NCOctal ==> !b
    ensures b ==> c != '\0' && c != '.' && c != '+' && c != '-' && !IsSpace(c)
  {
    if context == 0 then IsDigit(c)
    else if context == NCBinary then c == '0' || c == '1'
    else if context == NCOctal then IsOctalDigit(c)
    else if context == NCHexa then IsHexDigit(c)
    else false
  }

  /** The first position at or after i that is not a digit of the format. */
  function ScanDigits(s: string, i: nat, format: bv8): (j: nat)
    requires i <= |s|
    ensures i <= j <= |s|
    ensures forall k :: i <= k < j ==> JsonDigit(s[k], format)
    ensures !JsonDigit(At(s, j), format)
    decreases |s| - i
  {
    if i < |s| && JsonDigit(s[i], format) then ScanDigits(s, i + 1, format) else i
  }

  /** Blanks after a sign: whitespace other than a newline. */
  function SkipBlanks(s: string, i: nat): (j: nat)
    requires i <= |s|
    ensures i <= j <= |s|
    ensures forall k :: i <= k < j ==> IsSpace(s[k]) && s[k] != '\n'
    ensures !(IsSpace(At(s, j)) && At(s, j) != '\n')
    decreases |s| - i
  {
    if i < |s| && IsSpace(s[i]) && s[i] != '\n' then SkipBlanks(s, i + 1) else i
  }

  /** The sign contexts differ from the bare context 0, and the stages lie above it. */
  predicate WellFormedCodes(codes: NumberCodes) {
    codes.positive != 0 && codes.negative != 0 && codes.signExponent > 0
  }

  predicate IsSignContext(codes: NumberCodes, ctx: bv8) { ctx == codes.positive || ctx == codes.negative }

  /** Where the digits start and the context once a "0x", "0b" or octal "0" after a sign is seen. */
  function SignedPrefix(s: string, blank: nat, ctx: bv8): (r: (nat, bv8))
    requires blank <= |s|
    ensures blank <= r.0 <= |s|
  {
    if At(s, blank) == '0' then
      var next := At(s, blank + 1);
      if next == 'x' || next == 'X' then (blank + 2, ctx | NCHexa)
      else if next == 'b' || next == 'B' then (blank + 2, ctx | NCBinary)
      else if IsOctalDigit(next) then (blank + 1, ctx | NCOctal)
      else (blank, ctx)
    else (blank, ctx)
  }

  /** The end of a number and the context reached, from the digits on. */
  datatype NumberScan = NumberScan(end: nat, context: bv8)

  /** The integer part: a first digit turns a bare context into the integer stage. */
  function IntegerPart(s: string, pos: nat, c: bv8, codes: NumberCodes): (r: NumberScan)
    requires pos <= |s|
    ensures pos <= r.end <= |s|
    ensures c < codes.signExponent && JsonDigit(At(s, pos), c & NCFormat) ==> r.end > pos
  {
    if c < codes.signExponent && JsonDigit(At(s, pos), c & NCFormat) then
      var c' := if c & !codes.prefix == 0 then codes.integer | (c & codes.prefix) else c;
      NumberScan(ScanDigits(s, pos + 1, c' & NCFormat), c')
    else NumberScan(pos, c)
  }

  /** The fractional part: a '.' before the fractional stage, then digits of the context's format. */
  function FractionalPart(s: string, n: NumberScan, codes: NumberCodes): (r: NumberScan)
    requires n.end <= |s|
    ensures n.end <= r.end <= |s|
  {
    if n.context < codes.fractional && At(s, n.end) == '.' then
      var c' := codes.fractional | (n.context & codes.prefix);
      NumberScan(ScanDigits(s, n.end + 1, c' & NCFormat), c')
    else n
  }

  /** The exponent: 'e' or 'E', then an optional sign (only in the exponent-sign stage), then decimal digits. */
  function ExponentPart(s: string, n: NumberScan, codes: NumberCodes): (r: NumberScan)
    requires n.end <= |s|
    ensures n.end <= r.end <= |s|
  {
    var g := ExponentSign(s, ExponentMark(s, n, codes), codes);
    if g.context >= codes.signExponent then NumberScan(ScanDigits(s, g.end, 0), g.context) else g
  }

  /** The 'e' or 'E' that opens an exponent, before the exponent-sign stage. */
  function ExponentMark(s: string, n: NumberScan, codes: NumberCodes): (e: NumberScan)
    requires n.end <= |s|
    ensures n.end <= e.end <= |s|
  {
    if n.context < codes.signExponent && (At(s, n.end) == 'e' || At(s, n.end) == 'E')
    then NumberScan(n.end + 1, codes.signExponent | (n.context & codes.prefix)) else n
  }

  /** The sign of an exponent, only in the exponent-sign stage, and the digits after it. */
  function ExponentSign(s: string, e: NumberScan, codes: NumberCodes): (g: NumberScan)
    requires e.end <= |s|
    ensures e.end <= g.end <= |s|
  {
    if e.context & !codes.prefix == codes.signExponent && (At(s, e.end) == '+' || At(s, e.end) == '-')
    then NumberScan(ScanDigits(s, e.end + 1, 0), codes.exponent | (e.context & codes.prefix)) else e
  }

  function CodingOf(ctx: bv8): (c: SpecialCoding)
    ensures c == SCNone <==> ctx & NCFormat == 0
  {
    var f := ctx & NCFormat;
    if f == NCBinary then SCBit else if f == NCOctal then SCOctal else if f == NCHexa then SCHexa else SCNone
  }

  /** The number token created at the end of readNumberToken, its flags read off the context. */
  function MakeNumber(content: string, ctx: bv8, codes: NumberCodes): (n: NumberToken)
    ensures n.content == content
    ensures n.isFloat <==> ctx >= codes.fractional
    ensures n.isNegative <==> ctx & codes.negative == codes.negative
    ensures n.coding == CodingOf(ctx)
  {
    var n0 := NumberToken(content, false, false, SCNone);
    var n1 := if ctx & NCFormat != 0 then SetCoding(n0, CodingOf(ctx)) else n0;
    var n2 := if ctx & codes.negative == codes.negative then SetNegative(n1) else n1;
    if ctx >= codes.fractional then SetFloat(n2) else n2
  }

  /** The outcome of reading one token. */
  datatype LexStep =
    | LexFinished(position: Position)
    | LexToken(token: Token, next: nat, position: Position)
    | LexThrown
    | LexAborted

  function NumberTokenOf(n: NumberToken): Token { Token(TNumber, Some(NumberContent(n))) }

  /**
   * readNumberToken on a complete input, after readMain has put the
   * prefix it consumed ("+", "-", "0x", "0b", "0" or nothing) in the
   * current text. An empty rest ends the input without a token. After a
   * sign, blanks are skipped and a "0" prefix changes the format; a "0"
   * right before the end goes straight to the token, its text being the
   * sign alone, while the input is advanced past the blanks twice.
   */
  function ReadNumber(s: string, i: nat, ctx: bv8, pending: string, p: Position, codes: NumberCodes): (r: LexStep)
    requires i <= |s|
    ensures i == |s| ==> r == LexFinished(p)
    ensures r.LexToken? ==> i <= r.next <= |s| && r.token.tokenType == TNumber && r.token.content.Some?
    ensures r.LexToken? ==> r.token.content.value.NumberContent? && r.position.line == p.line
    ensures r.LexToken? ==> (pending + s[i..r.next] == r.token.content.value.number.content || IsSignContext(codes, ctx))
    ensures !r.LexThrown?
  {
    if i == |s| then LexFinished(p)
    else
      var blank := if IsSignContext(codes, ctx) then SkipBlanks(s, i) else i;
      if IsSignContext(codes, ctx) && At(s, blank) == '0' && At(s, blank + 1) == '\0' then
        var moved := 2 * (blank - i) + 1;
        if i + moved > |s| then LexAborted
        else LexToken(NumberTokenOf(MakeNumber(pending, ctx, codes)), i + moved, p.(column := p.column + moved))
      else
        var (pos, c0) := if IsSignContext(codes, ctx) then SignedPrefix(s, blank, ctx) else (blank, ctx);
        var n := ScanNumber(s, pos, c0, codes);
        LexToken(NumberTokenOf(MakeNumber(pending + s[i..n.end], n.context, codes)), n.end, p.(column := p.column + (n.end - i)))
  }

  // ---------------------------------------------------------------------
  // Bare words and strings

  predicate IsWordChar(c: char) { IsAlnum(c) || c == '_' }

  /** The end of the run of letters, digits and underscores from i. */
  function ScanWord(s: string, i: nat): (j: nat)
    requires i <= |s|
    ensures i <= j <= |s|
    ensures forall k :: i <= k < j ==> IsWordChar(s[k])
    ensures j < |s| ==> !IsWordChar(s[j])
    decreases |s| - i
  {
    if i < |s| && IsWordChar(s[i]) then ScanWord(s, i + 1) else i
  }

  function ToLower(c: char): (l: char)
    ensures !('A' <= l <= 'Z')
  {
    if 'A' <= c <= 'Z' then (c as int - 'A' as int + 'a' as int) as char else c
  }

  /** compareI: equal letter for letter once upper case is folded to lower case. */
  predicate SameIgnoringCase(w: string, lower: string) {
    |w| == |lower| && forall k :: 0 <= k < |w| ==> ToLower(w[k]) == lower[k]
  }

  /** The bare word a token type is spelled with. */
  function BareWord(t: TokenType): string
  {
    match t
    case TTrue => "true" case TFalse => "false" case TNull => "null"
    case _ => ""
  }

  /**
   * readAlphaToken: the word is the run of letters, digits and
   * underscores; only true, false and null, in any case, are accepted,
   * and anything else throws.
   */
  function ReadAlpha(s: string, i: nat, p: Position): (r: LexStep)
    requires i <= |s|
    ensures r.LexToken? || r.LexThrown?
    ensures var w := s[i..ScanWord(s, i)];
      r.LexToken? <==> SameIgnoringCase(w, "true") || SameIgnoringCase(w, "false") || SameIgnoringCase(w, "null")
    ensures r.LexToken? ==> r.next == ScanWord(s, i) && r.position == p.(column := p.column + (r.next - i))
    ensures r.LexToken? ==> r.token.content.None? && r.token.tokenType in {TTrue, TFalse, TNull}
    ensures r.LexToken? ==> SameIgnoringCase(s[i..r.next], BareWord(r.token.tokenType))
  {
    var j := ScanWord(s, i);
    var w := s[i..j];
    var q := p.(column := p.column + (j - i));
    if |w| == 4 && SameIgnoringCase(w, "true") then LexToken(Token(TTrue, None), j, q)
    else if |w| == 5 && SameIgnoringCase(w, "false") then LexToken(Token(TFalse, None), j, q)
    else if |w| == 4 && SameIgnoringCase(w, "null") then LexToken(Token(TNull, None), j, q)
    else LexThrown
  }

  /** The first '"' at or after i, or the end of the text. */
  function FindQuote(s: string, i: nat): (j: nat)
    requires i <= |s|
    ensures i <= j <= |s|
    ensures forall k :: i <= k < j ==> s[k] != '"'
    ensures j < |s| ==> s[j] == '"'
    decreases |s| - i
  {
    if i < |s| && s[i] != '"' then FindQuote(s, i + 1) else i
  }

  /**
   * readStringToken on a complete input: the text up to the next '"',
   * taken as it is (no escape sequence is recognised); an unterminated
   * string runs to the end. The column counts every character, newlines
   * included, and the line does not move.
   */
  function ReadString(s: string, i: nat, p: Position): (r: LexStep)
    requires i <= |s|
    ensures r.LexToken? && r.token.tokenType == TString && r.token.content.Some?
    ensures r.token.content.value.StringContent? && '"' !in r.token.content.value.text
    ensures var e := FindQuote(s, i);
      r.token.content.value.text == s[i..e] && r.next == (if e < |s| then e + 1 else |s|)
    ensures r.position == p.(column := p.column + (r.next - i))
  {
    var e := FindQuote(s, i);
    var text := s[i..e];
    assert forall k :: 0 <= k < |text| ==> text[k] == s[i + k];
    var next := if e < |s| then e + 1 else |s|;
    LexToken(Token(TString, Some(StringContent(text))), next, p.(column := p.column + (next - i)))
  }

  // ---------------------------------------------------------------------
  // The main dispatch

  /** The structural characters of section 2 of RFC 8259 and their token types. */
  function StructuralType(c: char): (t: Option<TokenType>)
    ensures t.Some? <==> c in "[]{},:"
    ensures t.Some? ==> t.value in {TOpenBracket, TCloseBracket, TOpenBrace, TCloseBrace, TComma, TColon}
  {
    if c == '[' then Some(TOpenBracket) else if c == ']' then Some(TCloseBracket)
    else if c == '{' then Some(TOpenBrace) else if c == '}' then Some(TCloseBrace)
    else if c == ',' then Some(TComma) else if c == ':' then Some(TColon)
    else None
  }

  function StructuralChar(t: TokenType): char
  {
    match t
    case TOpenBracket => '[' case TCloseBracket => ']'
    case TOpenBrace => '{' case TCloseBrace => '}'
    case TComma => ',' case TColon => ':'
    case _ => '\0'
  }

  /** The structural characters and their token types correspond one to one. */
  lemma StructuralRoundTrip(c: char, t: TokenType)
    ensures StructuralType(c).Some? ==> StructuralChar(StructuralType(c).value) == c
    ensures t in {TOpenBracket, TCloseBracket, TOpenBrace, TCloseBrace, TComma, TColon} ==>
      StructuralType(StructuralChar(t)) == Some(t)
  {
  }

  /**
   * GenericLexer::readMain on a complete input: skip whitespace, then
   * dispatch on the first character to a structural token, a number (with
   * its "0x", "0b", octal "0" or sign prefix), a bare word, a string, or
   * throw on anything else.
   */
  function ReadMain(s: string, i: nat, p: Position, codes: NumberCodes): (r: LexStep)
    requires i <= |s|
    requires WellFormedCodes(codes)
    ensures r.LexToken? ==> i < r.next <= |s|
    ensures SkipWhitespace(s, i, p).0 == |s| <==> r.LexFinished? && r.position == SkipWhitespace(s, i, p).1
    ensures var j := SkipWhitespace(s, i, p).0;
      j < |s| && StructuralType(s[j]).Some? ==>
        r == LexToken(Token(StructuralType(s[j]).value, None), j + 1,
                      SkipWhitespace(s, i, p).1.(column := SkipWhitespace(s, i, p).1.column + 1))
    ensures var j := SkipWhitespace(s, i, p).0;
      j < |s| && !(StructuralType(s[j]).Some? || s[j] in "+-\"_" || IsAlnum(s[j])) ==> r == LexThrown
  {
    var (j, q) := SkipWhitespace(s, i, p);
    if j == |s| then LexFinished(q)
    else
      var ch := s[j];
      var next := At(s, j + 1);
      if StructuralType(ch).Some? then LexToken(Token(StructuralType(ch).value, None), j + 1, q.(column := q.column + 1))
      else if IsDigit(ch) || ch == '+' || ch == '-' then ReadNumberStart(s, j, q, codes)
      else if IsLetter(ch) || ch == '_' then ReadAlpha(s, j, q)
      else if ch == '"' then ReadString(s, j + 1, q.(column := q.column + 1))
      else LexThrown
  }

  /**
   * The number branches of readMain: "0x" and "0b" prefixes, a "0"
   * before an octal digit, a sign, and a plain digit, each handing the
   * characters it consumed and the matching context to readNumberToken.
   */
  function ReadNumberStart(s: string, j: nat, q: Position, codes: NumberCodes): (r: LexStep)
    requires j < |s| && (IsDigit(s[j]) || s[j] == '+' || s[j] == '-')
    requires WellFormedCodes(codes)
    ensures r.LexToken? ==> j < r.next <= |s| && r.token.tokenType == TNumber
  {
    var start := HandoverOf(s, j, q, codes);
    StartProgress(s, j, q, codes);
    ReadNumber(s, start.next, start.context, start.text, start.position, codes)
  }

  /** Without a prefix, the number still consumes the digit it starts with. */
  lemma StartProgress(s: string, j: nat, q: Position, codes: NumberCodes)
    requires j < |s| && (IsDigit(s[j]) || s[j] == '+' || s[j] == '-')
    requires WellFormedCodes(codes)
    ensures HandoverOf(s, j, q, codes).next == j ==> ReadNumber(s, j, 0, "", q, codes).next > j
  {
    if HandoverOf(s, j, q, codes).next == j {
      NumberProgress(s, j, q, codes);
    }
  }

  /** Where readNumberToken takes over from readMain: the index, context, current text and position. */
  datatype Handover = Handover(next: nat, context: bv8, text: string, position: Position)

  function HandoverOf(s: string, j: nat, q: Position, codes: NumberCodes): (r: Handover)
    requires j < |s| && (IsDigit(s[j]) || s[j] == '+' || s[j] == '-')
    ensures j <= r.next <= |s|
    ensures r.next == j ==> IsDigit(s[j]) && r == Handover(j, 0, "", q)
  {
    var ch := s[j];
    var next := At(s, j + 1);
    if ch == '0' && (next == 'x' || next == 'X') then Handover(j + 2, NCHexa, s[j..j + 2], q.(column := q.column + 2))
    else if ch == '0' && (next == 'b' || next == 'B') then Handover(j + 2, NCBinary, s[j..j + 2], q.(column := q.column + 2))
    else if ch == '0' && IsOctalDigit(next) then Handover(j + 1, NCOctal, "0", q.(column := q.column + 1))
    else if ch == '+' || ch == '-' then
      Handover(j + 1, if ch == '+' then codes.positive else codes.negative, [ch], q.(column := q.column + 1))
    else Handover(j, 0, "", q)
  }

  /** A number that starts with a digit consumes at least that digit. */
  lemma NumberProgress(s: string, j: nat, q: Position, codes: NumberCodes)
    requires j < |s| && IsDigit(s[j]) && WellFormedCodes(codes)
    ensures ReadNumber(s, j, 0, "", q, codes).LexToken?
    ensures ReadNumber(s, j, 0, "", q, codes).next > j
  {
    var a := IntegerPart(s, j, 0, codes);
    assert a.end > j;
    var n := ExponentPart(s, FractionalPart(s, a, codes), codes);
    assert n.end > j;
    assert ReadNumber(s, j, 0, "", q, codes) ==
      LexToken(NumberTokenOf(MakeNumber("" + s[j..n.end], n.context, codes)), n.end, q.(column := q.column + (n.end - j)));
  }

  /** The tokens of a complete input and how the input ended. */
  function Tokenize(s: string, i: nat, p: Position, codes: NumberCodes): (r: (seq<Token>, LexStep))
    requires i <= |s|
    requires WellFormedCodes(codes)
    ensures !r.1.LexToken?
    decreases |s| - i
  {
    match ReadMain(s, i, p, codes)
    case LexToken(t, next, q) =>
      var rest := Tokenize(s, next, q, codes);
      ([t] + rest.0, rest.1)
    case other => ([], other)
  }

  // ---------------------------------------------------------------------
  // Unfolding the number path

  /** The scan of a number from its digits on. */
  function ScanNumber(s: string, pos: nat, c: bv8, codes: NumberCodes): (n: NumberScan)
    requires pos <= |s|
    ensures pos <= n.end <= |s|
  {
    ExponentPart(s, FractionalPart(s, IntegerPart(s, pos, c, codes), codes), codes)
  }

  /** readMain at a digit that starts no prefix hands over to readNumberToken in the bare context. */
  lemma ReadMainDigit(s: string, i: nat, p: Position, codes: NumberCodes)
    requires i < |s| && IsDigit(s[i]) && WellFormedCodes(codes)
    requires !(s[i] == '0' && (At(s, i + 1) in "xXbB" || IsOctalDigit(At(s, i + 1))))
    ensures var n := ScanNumber(s, i, 0, codes);
      ReadMain(s, i, p, codes) == LexToken(NumberTokenOf(MakeNumber(s[i..n.end], n.context, codes)), n.end,
                                           p.(column := p.column + (n.end - i)))
  {
    ReadMainAtNumber(s, i, p, codes);
    ReadNumberStartPlain(s, i, p, codes);
    ReadNumberBare(s, i, p, codes);
  }

  /** readNumberToken in the bare context: the scan from i, with nothing consumed before it. */
  lemma ReadNumberBare(s: string, i: nat, p: Position, codes: NumberCodes)
    requires i < |s| && WellFormedCodes(codes)
    ensures var n := ScanNumber(s, i, 0, codes);
      ReadNumber(s, i, 0, "", p, codes) == LexToken(NumberTokenOf(MakeNumber(s[i..n.end], n.context, codes)), n.end,
                                                    p.(column := p.column + (n.end - i)))
  {
    var n := ScanNumber(s, i, 0, codes);
    NothingBefore(s[i..n.end]);
  }

  lemma NothingBefore(text: string)
    ensures "" + text == text
  {
  }

  /** readMain at a sign hands over to readNumberToken in the sign's context. */
  lemma ReadMainSign(s: string, i: nat, p: Position, codes: NumberCodes)
    requires i < |s| && (s[i] == '+' || s[i] == '-') && WellFormedCodes(codes)
    ensures var ctx := if s[i] == '+' then codes.positive else codes.negative;
      ReadMain(s, i, p, codes) == ReadNumber(s, i + 1, ctx, [s[i]], p.(column := p.column + 1), codes)
  {
    ReadMainAtNumber(s, i, p, codes);
    ReadNumberStartSign(s, i, p, codes);
  }

  /** The sign branch of the number start. */
  lemma ReadNumberStartSign(s: string, j: nat, q: Position, codes: NumberCodes)
    requires j < |s| && (s[j] == '+' || s[j] == '-') && WellFormedCodes(codes)
    ensures ReadNumberStart(s, j, q, codes)
         == ReadNumber(s, j + 1, if s[j] == '+' then codes.positive else codes.negative, [s[j]],
                       q.(column := q.column + 1), codes)
  {
    assert HandoverOf(s, j, q, codes)
        == Handover(j + 1, if s[j] == '+' then codes.positive else codes.negative, [s[j]], q.(column := q.column + 1));
  }

  /** The "0x" and "0b" branches of the number start. */
  lemma ReadNumberStartPrefixed(s: string, j: nat, q: Position, codes: NumberCodes)
    requires j + 1 < |s| && s[j] == '0' && s[j + 1] in "xXbB" && WellFormedCodes(codes)
    ensures ReadNumberStart(s, j, q, codes)
         == ReadNumber(s, j + 2, if s[j + 1] in "xX" then NCHexa else NCBinary, s[j..j + 2],
                       q.(column := q.column + 2), codes)
  {
    assert HandoverOf(s, j, q, codes)
        == Handover(j + 2, if s[j + 1] in "xX" then NCHexa else NCBinary, s[j..j + 2], q.(column := q.column + 2)) by {
      assert s[j + 1] in "xX" <==> s[j + 1] == 'x' || s[j + 1] == 'X';
    }
  }

  /** The octal branch of the number start: a "0" before an octal digit. */
  lemma ReadNumberStartOctal(s: string, j: nat, q: Position, codes: NumberCodes)
    requires j + 1 < |s| && s[j] == '0' && IsOctalDigit(s[j + 1]) && WellFormedCodes(codes)
    ensures ReadNumberStart(s, j, q, codes) == ReadNumber(s, j + 1, NCOctal, "0", q.(column := q.column + 1), codes)
  {
    assert HandoverOf(s, j, q, codes) == Handover(j + 1, NCOctal, "0", q.(column := q.column + 1));
  }

  /** The plain branch of the number start: a digit that starts no prefix. */
  lemma ReadNumberStartPlain(s: string, j: nat, q: Position, codes: NumberCodes)
    requires j < |s| && IsDigit(s[j]) && WellFormedCodes(codes)
    requires !(s[j] == '0' && (At(s, j + 1) in "xXbB" || IsOctalDigit(At(s, j + 1))))
    ensures ReadNumberStart(s, j, q, codes) == ReadNumber(s, j, 0, "", q, codes)
  {
    assert HandoverOf(s, j, q, codes) == Handover(j, 0, "", q);
  }

  /** readMain on the first character of a number goes to the number branches. */
  lemma ReadMainAtNumber(s: string, i: nat, p: Position, codes: NumberCodes)
    requires i < |s| && (IsDigit(s[i]) || s[i] == '+' || s[i] == '-') && WellFormedCodes(codes)
    ensures ReadMain(s, i, p, codes) == ReadNumberStart(s, i, p, codes)
  {
    assert SkipWhitespace(s, i, p) == (i, p);
  }

  // ---------------------------------------------------------------------
  // The number-context constants

  function Num(content: string, isFloat: bool, isNegative: bool, coding: SpecialCoding): Token
  {
    NumberTokenOf(NumberToken(content, isFloat, isNegative, coding))
  }

  /**
   * With the constants as written, the fractional stage 0x16 carries the
   * binary format bits, so "1.5" splits into "1." (a float coded binary)
   * and "5"; with stage constants that leave the format bits alone it is
   * the single float "1.5".
   */
  lemma FractionSplitsAsWritten()
    ensures Tokenize("1.5", 0, Position(1, 1), WrittenCodes).0 == [Num("1.", true, false, SCBit), Num("5", false, false, SCNone)]
  {
    var s := "1.5";
    var a, b := Num("1.", true, false, SCBit), Num("5", false, false, SCNone);
    FractionFirstAsWritten(s);
    FractionSecondAsWritten(s);
    TokenizeNext(s, 0, Position(1, 1), WrittenCodes, a, 2, Position(1, 3));
    TokenizeNext(s, 2, Position(1, 3), WrittenCodes, b, 3, Position(1, 4));
    TokenizeEnd(s, Position(1, 4), WrittenCodes);
    TwoTokens(a, b);
  }

  lemma FractionFirstAsWritten(s: string)
    requires s == "1.5"
    ensures ReadMain(s, 0, Position(1, 1), WrittenCodes) == LexToken(Num("1.", true, false, SCBit), 2, Position(1, 3))
  {
    FractionFirstAsWrittenScan(s);
    ReadMainScanned(s, 0, Position(1, 1), WrittenCodes, NumberScan(2, 0x16));
    assert s[0..2] == "1." by { FractionSlices(s); }
  }

  lemma FractionFirstAsWrittenScan(s: string)
    requires s == "1.5"
    ensures ScanNumber(s, 0, 0, WrittenCodes) == NumberScan(2, 0x16)
  {
    assert IntegerPart(s, 0, 0, WrittenCodes) == NumberScan(1, 0x8);
    assert FractionalPart(s, NumberScan(1, 0x8), WrittenCodes) == NumberScan(2, 0x16);
    assert ExponentPart(s, NumberScan(2, 0x16), WrittenCodes) == NumberScan(2, 0x16);
  }

  lemma FractionSecondAsWritten(s: string)
    requires s == "1.5"
    ensures ReadMain(s, 2, Position(1, 3), WrittenCodes) == LexToken(Num("5", false, false, SCNone), 3, Position(1, 4))
  {
    assert ScanNumber(s, 2, 0, WrittenCodes) == NumberScan(3, 0x8) by {
      assert IntegerPart(s, 2, 0, WrittenCodes) == NumberScan(3, 0x8);
    }
    ReadMainScanned(s, 2, Position(1, 3), WrittenCodes, NumberScan(3, 0x8));
    assert s[2..3] == "5" by { FractionSlices(s); }
  }

  lemma FractionSlices(s: string)
    requires s == "1.5"
    ensures s[0..2] == "1." && s[2..3] == "5" && s[0..3] == "1.5"
  {
  }

  /** With the intended constants "1.5" is the single float "1.5". */
  lemma FractionIntended()
    ensures Tokenize("1.5", 0, Position(1, 1), IntendedCodes).0 == [Num("1.5", true, false, SCNone)]
  {
    var s := "1.5";
    var a := Num("1.5", true, false, SCNone);
    FractionFirstIntended(s);
    TokenizeNext(s, 0, Position(1, 1), IntendedCodes, a, 3, Position(1, 4));
    TokenizeEnd(s, Position(1, 4), IntendedCodes);
    OneToken(a);
  }

  lemma FractionFirstIntended(s: string)
    requires s == "1.5"
    ensures ReadMain(s, 0, Position(1, 1), IntendedCodes) == LexToken(Num("1.5", true, false, SCNone), 3, Position(1, 4))
  {
    FractionFirstIntendedScan(s);
    ReadMainScanned(s, 0, Position(1, 1), IntendedCodes, NumberScan(3, 0x20));
    assert s[0..3] == "1.5" by { FractionSlices(s); }
  }

  lemma FractionFirstIntendedScan(s: string)
    requires s == "1.5"
    ensures ScanNumber(s, 0, 0, IntendedCodes) == NumberScan(3, 0x20)
  {
    assert IntegerPart(s, 0, 0, IntendedCodes) == NumberScan(1, 0x10);
    assert FractionalPart(s, NumberScan(1, 0x10), IntendedCodes) == NumberScan(3, 0x20);
    assert ExponentPart(s, NumberScan(3, 0x20), IntendedCodes) == NumberScan(3, 0x20);
  }

  /**
   * As written the exponent-sign stage 0x17 is never matched once the
   * prefix bits are masked off, so "1e+5" splits into "1e" (whose stage
   * bits also read as negative and octal) and "+5".
   */
  lemma ExponentSignSplitsAsWritten()
    ensures Tokenize("1e+5", 0, Position(1, 1), WrittenCodes).0 == [Num("1e", true, true, SCOctal), Num("+5", false, false, SCNone)]
  {
    var s := "1e+5";
    var a, b := Num("1e", true, true, SCOctal), Num("+5", false, false, SCNone);
    ExponentFirstAsWritten(s);
    PlusFiveAsWritten(s);
    TokenizeNext(s, 0, Position(1, 1), WrittenCodes, a, 2, Position(1, 3));
    TokenizeNext(s, 2, Position(1, 3), WrittenCodes, b, 4, Position(1, 5));
    TokenizeEnd(s, Position(1, 5), WrittenCodes);
    TwoTokens(a, b);
  }

  lemma ExponentFirstAsWritten(s: string)
    requires s == "1e+5"
    ensures ReadMain(s, 0, Position(1, 1), WrittenCodes) == LexToken(Num("1e", true, true, SCOctal), 2, Position(1, 3))
  {
    ExponentFirstAsWrittenScan(s);
    ReadMainScanned(s, 0, Position(1, 1), WrittenCodes, NumberScan(2, 0x17));
    assert s[0..2] == "1e" by { ExponentSlices(s); }
  }

  lemma ExponentFirstAsWrittenScan(s: string)
    requires s == "1e+5"
    ensures ScanNumber(s, 0, 0, WrittenCodes) == NumberScan(2, 0x17)
  {
    assert IntegerPart(s, 0, 0, WrittenCodes) == NumberScan(1, 0x8);
    assert FractionalPart(s, NumberScan(1, 0x8), WrittenCodes) == NumberScan(1, 0x8);
    assert ExponentPart(s, NumberScan(1, 0x8), WrittenCodes) == NumberScan(2, 0x17);
  }

  lemma PlusFiveAsWritten(s: string)
    requires s == "1e+5"
    ensures ReadMain(s, 2, Position(1, 3), WrittenCodes) == LexToken(Num("+5", false, false, SCNone), 4, Position(1, 5))
  {
    ReadMainSign(s, 2, Position(1, 3), WrittenCodes);
    ReadNumberSigned(s, 3, 0x4, "+", Position(1, 4), WrittenCodes);
    assert SkipBlanks(s, 3) == 3;
    assert SignedPrefix(s, 3, 0x4) == (3, 0x4);
    assert IntegerPart(s, 3, 0x4, WrittenCodes) == NumberScan(4, 0xC);
    assert ScanNumber(s, 3, 0x4, WrittenCodes) == NumberScan(4, 0xC);
    assert "+" + s[3..4] == "+5" by { ExponentSlices(s); }
  }

  /** With the intended constants "1e+5" is one float. */
  lemma ExponentSignIntended()
    ensures Tokenize("1e+5", 0, Position(1, 1), IntendedCodes).0 == [Num("1e+5", true, false, SCNone)]
  {
    var s := "1e+5";
    var a := Num("1e+5", true, false, SCNone);
    ExponentFirstIntended(s);
    TokenizeNext(s, 0, Position(1, 1), IntendedCodes, a, 4, Position(1, 5));
    TokenizeEnd(s, Position(1, 5), IntendedCodes);
    OneToken(a);
  }

  lemma ExponentFirstIntended(s: string)
    requires s == "1e+5"
    ensures ReadMain(s, 0, Position(1, 1), IntendedCodes) == LexToken(Num("1e+5", true, false, SCNone), 4, Position(1, 5))
  {
    ExponentFirstIntendedScan(s);
    ReadMainScanned(s, 0, Position(1, 1), IntendedCodes, NumberScan(4, 0x40));
    assert s[0..4] == "1e+5" by { ExponentSlices(s); }
  }

  lemma ExponentFirstIntendedScan(s: string)
    requires s == "1e+5"
    ensures ScanNumber(s, 0, 0, IntendedCodes) == NumberScan(4, 0x40)
  {
    assert IntegerPart(s, 0, 0, IntendedCodes) == NumberScan(1, 0x10);
    assert FractionalPart(s, NumberScan(1, 0x10), IntendedCodes) == NumberScan(1, 0x10);
    assert ExponentPart(s, NumberScan(1, 0x10), IntendedCodes) == NumberScan(4, 0x40);
  }

  lemma ExponentSlices(s: string)
    requires s == "1e+5"
    ensures s[0..2] == "1e" && "+" + s[3..4] == "+5" && s[0..4] == "1e+5"
  {
  }

  /** readMain at a digit whose scan is known. */
  lemma ReadMainScanned(s: string, i: nat, p: Position, codes: NumberCodes, n: NumberScan)
    requires i < |s| && IsDigit(s[i]) && WellFormedCodes(codes)
    requires !(s[i] == '0' && (At(s, i + 1) in "xXbB" || IsOctalDigit(At(s, i + 1))))
    requires ScanNumber(s, i, 0, codes) == n
    ensures ReadMain(s, i, p, codes) == LexToken(NumberTokenOf(MakeNumber(s[i..n.end], n.context, codes)), n.end,
                                                 p.(column := p.column + (n.end - i)))
  {
    ReadMainDigit(s, i, p, codes);
  }

  /** A token read at i is the first of the tokens from i. */
  lemma TokenizeNext(s: string, i: nat, p: Position, codes: NumberCodes, t: Token, next: nat, q: Position)
    requires i <= |s| && WellFormedCodes(codes)
    requires ReadMain(s, i, p, codes) == LexToken(t, next, q)
    ensures next <= |s|
    ensures Tokenize(s, i, p, codes).0 == [t] + Tokenize(s, next, q, codes).0
  {
  }

  /** No token is read at the end of the input. */
  lemma TokenizeEnd(s: string, p: Position, codes: NumberCodes)
    requires WellFormedCodes(codes)
    ensures Tokenize(s, |s|, p, codes).0 == []
  {
  }

  lemma TwoTokens(a: Token, b: Token)
    ensures [a] + ([b] + []) == [a, b]
  {
  }

  lemma OneToken(a: Token)
    ensures [a] + [] == [a]
  {
  }

  /** readNumberToken after a sign, away from the end-of-text special case. */
  lemma ReadNumberSigned(s: string, i: nat, ctx: bv8, pending: string, p: Position, codes: NumberCodes)
    requires i < |s| && IsSignContext(codes, ctx)
    requires !(At(s, SkipBlanks(s, i)) == '0' && At(s, SkipBlanks(s, i) + 1) == '\0')
    ensures var (pos, c0) := SignedPrefix(s, SkipBlanks(s, i), ctx);
      var n := ScanNumber(s, pos, c0, codes);
      ReadNumber(s, i, ctx, pending, p, codes) ==
        LexToken(NumberTokenOf(MakeNumber(pending + s[i..n.end], n.context, codes)), n.end, p.(column := p.column + (n.end - i)))
  {
  }

  /** A signed number filling the whole text, with no blanks after its sign, read past its sign. */
  lemma SignedWholeText(s: string, ctx: bv8, codes: NumberCodes, pos: nat, c0: bv8, n: NumberScan)
    requires 2 <= |s| && IsSignContext(codes, ctx)
    requires SkipBlanks(s, 1) == 1 && !(s[1] == '0' && At(s, 2) == '\0')
    requires SignedPrefix(s, 1, ctx) == (pos, c0)
    requires ScanNumber(s, pos, c0, codes) == n && n.end == |s|
    ensures ReadNumber(s, 1, ctx, [s[0]], Position(1, 2), codes).token == NumberTokenOf(MakeNumber(s, n.context, codes))
  {
    ReadNumberSigned(s, 1, ctx, [s[0]], Position(1, 2), codes);
    HeadThenRest(s);
  }

  lemma HeadThenRest(s: string)
    requires |s| > 0
    ensures [s[0]] + s[1..|s|] == s
  {
  }

  /** As written "-10" is flagged hexadecimal. */
  lemma MinusTenHexadecimalAsWritten()
    ensures ReadMain("-10", 0, Position(1, 1), WrittenCodes).token == Num("-10", false, true, SCHexa)
  {
    var a := "-10";
    assert SkipBlanks(a, 1) == 1;
    assert SignedPrefix(a, 1, 0x5) == (1, 0x5);
    assert ScanNumber(a, 1, 0x5, WrittenCodes) == NumberScan(3, 0xD) by {
      assert IntegerPart(a, 1, 0x5, WrittenCodes) == NumberScan(3, 0xD);
    }
    ReadMainSign(a, 0, Position(1, 1), WrittenCodes);
    SignedWholeText(a, 0x5, WrittenCodes, 1, 0x5, NumberScan(3, 0xD));
  }

  /** With the intended constants "-10" is a plain negative integer. */
  lemma MinusTenIntended()
    ensures ReadMain("-10", 0, Position(1, 1), IntendedCodes).token == Num("-10", false, true, SCNone)
  {
    var a := "-10";
    assert SkipBlanks(a, 1) == 1;
    assert SignedPrefix(a, 1, 0xC) == (1, 0xC);
    assert ScanNumber(a, 1, 0xC, IntendedCodes) == NumberScan(3, 0x1C) by {
      assert IntegerPart(a, 1, 0xC, IntendedCodes) == NumberScan(3, 0x1C);
    }
    ReadMainSign(a, 0, Position(1, 1), IntendedCodes);
    SignedWholeText(a, 0xC, IntendedCodes, 1, 0xC, NumberScan(3, 0x1C));
  }

  /** As written "+0x1" is flagged negative. */
  lemma PlusHexNegativeAsWritten()
    ensures ReadMain("+0x1", 0, Position(1, 1), WrittenCodes).token == Num("+0x1", false, true, SCHexa)
  {
    var b := "+0x1";
    assert SkipBlanks(b, 1) == 1;
    assert SignedPrefix(b, 1, 0x4) == (3, 0x5);
    assert ScanNumber(b, 3, 0x5, WrittenCodes) == NumberScan(4, 0xD) by {
      assert IntegerPart(b, 3, 0x5, WrittenCodes) == NumberScan(4, 0xD);
    }
    ReadMainSign(b, 0, Position(1, 1), WrittenCodes);
    SignedWholeText(b, 0x4, WrittenCodes, 3, 0x5, NumberScan(4, 0xD));
  }

  /** With the intended constants "+0x1" is a positive hexadecimal integer. */
  lemma PlusHexIntended()
    ensures ReadMain("+0x1", 0, Position(1, 1), IntendedCodes).token == Num("+0x1", false, false, SCHexa)
  {
    var b := "+0x1";
    assert SkipBlanks(b, 1) == 1;
    assert SignedPrefix(b, 1, 0x4) == (3, 0x5);
    assert ScanNumber(b, 3, 0x5, IntendedCodes) == NumberScan(4, 0x15) by {
      assert IntegerPart(b, 3, 0x5, IntendedCodes) == NumberScan(4, 0x15);
    }
    ReadMainSign(b, 0, Position(1, 1), IntendedCodes);
    SignedWholeText(b, 0x4, IntendedCodes, 3, 0x5, NumberScan(4, 0x15));
  }

  // ---------------------------------------------------------------------
  // Flags read back from the text

  /**
   * NumberToken::setSubTypeFromContent, used when a token is read back
   * from its text: a leading sign decides the negative flag, and any '.',
   * 'e' or 'E' after it makes the number a float.
   */
  function SubTypeFromContent(n: NumberToken): (r: NumberToken)
    ensures r.content == n.content && r.coding == n.coding
    ensures At(n.content, 0) == '-' ==> r.isNegative
    ensures At(n.content, 0) == '+' ==> !r.isNegative
  {
    var c0 := At(n.content, 0);
    var signed := c0 == '-' || c0 == '+';
    var rest := if signed then n.content[1..] else n.content;
    n.(isNegative := if signed then c0 == '-' else n.isNegative,
       isFloat := '.' in rest || 'e' in rest || 'E' in rest)
  }

  /** The coding a text announces: after an optional sign and blanks, "0x", "0b" or "0" and an octal digit. */
  function CodingFromContent(content: string): SpecialCoding
  {
    var c0 := At(content, 0);
    var unsigned := if c0 == '-' || c0 == '+' then content[1..] else content;
    var b := SkipBlanks(unsigned, 0);
    if At(unsigned, b) == '0' then
      var next := At(unsigned, b + 1);
      if next == 'x' || next == 'X' then SCHexa
      else if next == 'b' || next == 'B' then SCBit
      else if IsOctalDigit(next) then SCOctal
      else SCNone
    else SCNone
  }

  /** A freshly read number token with the given text: what setSubTypeFromContent starts from. */
  function Reread(content: string): NumberToken
  {
    SubTypeFromContent(NumberToken(content, false, false, SCNone))
  }

  /** With the intended constants the scan keeps the sign and format nibble, and the stage alone says float. */
  lemma ScanKeepsNibble(s: string, pos: nat, c: bv8)
    requires pos <= |s| && c <= 0xF
    ensures ScanNumber(s, pos, c, IntendedCodes).context & 0xF == c
    ensures ScanNumber(s, pos, c, IntendedCodes).context >= 0x10 || ScanNumber(s, pos, c, IntendedCodes).context == c
  {
  }

  predicate NoFloatChar(t: string) { '.' !in t && 'e' !in t && 'E' !in t }

  lemma NoFloatCharSlice(s: string, a: nat, b: nat)
    requires a <= b <= |s|
    requires forall k :: a <= k < b ==> s[k] != '.' && s[k] != 'e' && s[k] != 'E'
    ensures NoFloatChar(s[a..b])
  {
  }

  /**
   * A decimal scan (format 0) from pos reaches a float stage exactly when
   * it passes a '.', 'e' or 'E'.
   */
  lemma DecimalScanFloat(s: string, pos: nat, c: bv8)
    requires pos <= |s| && c <= 0xF && c & NCFormat == 0
    ensures var n := ScanNumber(s, pos, c, IntendedCodes);
      n.context >= 0x20 <==> !NoFloatChar(s[pos..n.end])
  {
    var a := IntegerPart(s, pos, c, IntendedCodes);
    assert a.context <= 0x1F && a.context & NCFormat == 0;
    assert forall k :: pos <= k < a.end ==> IsDigit(s[k]);
    var f := FractionalPart(s, a, IntendedCodes);
    var n := ExponentPart(s, f, IntendedCodes);
    if f != a {
      assert s[a.end] == '.' && a.end < n.end;
      assert s[pos..n.end][a.end - pos] == '.';
    } else if At(s, a.end) == 'e' || At(s, a.end) == 'E' {
      assert a.end < n.end;
      assert s[pos..n.end][a.end - pos] == s[a.end];
    } else {
      assert n == a;
      NoFloatCharSlice(s, pos, a.end);
    }
  }

  /** Blanks end where the first non-blank is. */
  lemma {:induction false} SkipBlanksUnique(t: string, i: nat, j: nat)
    requires i <= j <= |t|
    requires forall m :: i <= m < j ==> IsSpace(t[m]) && t[m] != '\n'
    requires !(IsSpace(At(t, j)) && At(t, j) != '\n')
    ensures SkipBlanks(t, i) == j
    decreases j - i
  {
    if i < j {
      SkipBlanksUnique(t, i + 1, j);
    }
  }

  /** Skipping blanks in a slice that reaches past them stops at the same character. */
  lemma SkipBlanksSlice(s: string, a: nat, e: nat)
    requires a <= e <= |s| && SkipBlanks(s, a) <= e
    ensures SkipBlanks(s[a..e], 0) == SkipBlanks(s, a) - a
  {
    var t := s[a..e];
    var b := SkipBlanks(s, a);
    assert forall m :: 0 <= m < b - a ==> t[m] == s[a + m];
    SkipBlanksUnique(t, 0, b - a);
  }

  /** The flags of a number agree with what setSubTypeFromContent and the prefix of its text say. */
  predicate AgreesWithText(n: NumberToken) {
    && n.isNegative == Reread(n.content).isNegative
    && n.coding == CodingFromContent(n.content)
    && (n.coding == SCNone ==> n.isFloat == Reread(n.content).isFloat)
  }

  function NumberOf(r: LexStep): NumberToken
    requires r.LexToken? && r.token.content.Some? && r.token.content.value.NumberContent?
  {
    r.token.content.value.number
  }

  /** readNumberToken outside a sign context: the text read is the prefix and the scanned characters. */
  lemma ReadNumberPlain(s: string, k: nat, ctx: bv8, pending: string, q: Position, codes: NumberCodes)
    requires k < |s| && !IsSignContext(codes, ctx)
    ensures var n := ScanNumber(s, k, ctx, codes);
      ReadNumber(s, k, ctx, pending, q, codes) ==
        LexToken(NumberTokenOf(MakeNumber(pending + s[k..n.end], n.context, codes)), n.end, q.(column := q.column + (n.end - k)))
  {
  }

  /** The flags of a number with a prefixed text "0x" or "0b" and its format nibble. */
  lemma PrefixedText(content: string, ctx: bv8)
    requires |content| >= 2 && content[0] == '0'
    requires ctx & 0xF == (if content[1] in "xX" then NCHexa else NCBinary) && content[1] in "xXbB"
    ensures AgreesWithText(MakeNumber(content, ctx, IntendedCodes))
  {
    assert SkipBlanks(content, 0) == 0;
    assert ctx & NCFormat == ctx & 0xF & NCFormat;
    assert ctx & IntendedCodes.negative != IntendedCodes.negative;
  }

  /** After "0x" or "0b" the flags agree with the text. */
  lemma PrefixedAgrees(s: string, k: nat, ctx: bv8, pending: string, q: Position)
    requires k <= |s| && |pending| == 2 && pending[0] == '0'
    requires (pending[1] in "xX" && ctx == NCHexa) || (pending[1] in "bB" && ctx == NCBinary)
    ensures var r := ReadNumber(s, k, ctx, pending, q, IntendedCodes);
      r.LexToken? ==> AgreesWithText(NumberOf(r))
  {
    if k < |s| {
      ReadNumberPlain(s, k, ctx, pending, q, IntendedCodes);
      var n := ScanNumber(s, k, ctx, IntendedCodes);
      ScanKeepsNibble(s, k, ctx);
      var content := pending + s[k..n.end];
      assert content[0] == '0' && content[1] == pending[1];
      PrefixedText(content, n.context);
    }
  }

  /** After an octal "0" the flags agree with the text. */
  lemma OctalAgrees(s: string, k: nat, q: Position)
    requires k < |s| && IsOctalDigit(s[k])
    ensures var r := ReadNumber(s, k, NCOctal, "0", q, IntendedCodes);
      r.LexToken? ==> AgreesWithText(NumberOf(r))
  {
    ReadNumberPlain(s, k, NCOctal, "0", q, IntendedCodes);
    var n := ScanNumber(s, k, NCOctal, IntendedCodes);
    ScanKeepsNibble(s, k, NCOctal);
    assert IntegerPart(s, k, NCOctal, IntendedCodes).end > k;
    var content := "0" + s[k..n.end];
    assert content[0] == '0' && content[1] == s[k];
    assert NumberOf(ReadNumber(s, k, NCOctal, "0", q, IntendedCodes)) == MakeNumber(content, n.context, IntendedCodes);
    OctalText(content, n.context);
  }

  /** The flags of a number with an octal "0" prefix and its format nibble. */
  lemma OctalText(content: string, ctx: bv8)
    requires |content| >= 2 && content[0] == '0' && IsOctalDigit(content[1])
    requires ctx & 0xF == NCOctal
    ensures AgreesWithText(MakeNumber(content, ctx, IntendedCodes))
  {
    assert SkipBlanks(content, 0) == 0;
    assert ctx & NCFormat == ctx & 0xF & NCFormat;
    assert ctx & IntendedCodes.negative != IntendedCodes.negative;
  }

  /** A number starting with a digit has flags that agree with its text. */
  lemma DigitAgrees(s: string, j: nat, q: Position)
    requires j < |s| && IsDigit(s[j])
    requires !(s[j] == '0' && (At(s, j + 1) in "xXbB" || IsOctalDigit(At(s, j + 1))))
    ensures var r := ReadNumber(s, j, 0, "", q, IntendedCodes);
      r.LexToken? ==> AgreesWithText(NumberOf(r))
  {
    ReadNumberPlain(s, j, 0, "", q, IntendedCodes);
    var n := ScanNumber(s, j, 0, IntendedCodes);
    ScanKeepsNibble(s, j, 0);
    DecimalScanFloat(s, j, 0);
    DigitScanAdvances(s, j);
    var content := "" + s[j..n.end];
    assert content == s[j..n.end];
    assert content[0] == s[j];
    assert At(content, 1) == '\0' || At(content, 1) == At(s, j + 1);
    assert NumberOf(ReadNumber(s, j, 0, "", q, IntendedCodes)) == MakeNumber(content, n.context, IntendedCodes);
    DecimalText(content, n.context);
  }

  /** The flags of a decimal number without a sign, read off its text. */
  lemma DecimalText(content: string, ctx: bv8)
    requires |content| > 0 && IsDigit(content[0])
    requires !(content[0] == '0' && (At(content, 1) in "xXbB" || IsOctalDigit(At(content, 1))))
    requires ctx & 0xF == 0
    requires ctx >= 0x20 <==> !NoFloatChar(content)
    ensures AgreesWithText(MakeNumber(content, ctx, IntendedCodes))
  {
    assert SkipBlanks(content, 0) == 0;
    assert ctx & NCFormat == ctx & 0xF & NCFormat;
    assert ctx & IntendedCodes.negative != IntendedCodes.negative;
  }

  /** A scan that starts on a decimal digit consumes it. */
  lemma DigitScanAdvances(s: string, j: nat)
    requires j < |s| && IsDigit(s[j])
    ensures ScanNumber(s, j, 0, IntendedCodes).end > j
  {
    assert IntegerPart(s, j, 0, IntendedCodes).end > j;
  }

  /** A sign alone: the flags agree with the one-character text. */
  lemma SignOnlyText(ch: char, ctx: bv8)
    requires (ch == '+' && ctx == IntendedCodes.positive) || (ch == '-' && ctx == IntendedCodes.negative)
    ensures AgreesWithText(MakeNumber([ch], ctx, IntendedCodes))
  {
    assert [ch][1..] == "";
  }

  lemma NoFloatCharConcat(a: string, b: string)
    ensures NoFloatChar(a + b) <==> NoFloatChar(a) && NoFloatChar(b)
  {
    assert forall c :: c in a + b <==> c in a || c in b;
  }

  /** After a sign the flags agree with the text. */
  lemma SignAgrees(s: string, k: nat, ch: char, q: Position)
    requires k <= |s| && (ch == '+' || ch == '-')
    ensures var ctx := if ch == '+' then IntendedCodes.positive else IntendedCodes.negative;
      var r := ReadNumber(s, k, ctx, [ch], q, IntendedCodes);
      r.LexToken? ==> AgreesWithText(NumberOf(r))
  {
    var ctx := SignNibble(ch, 0);
    if k < |s| {
      var blank := SkipBlanks(s, k);
      if At(s, blank) == '0' && At(s, blank + 1) == '\0' {
        SignOnlyAgrees(s, k, ch, ctx, q);
      } else {
        SignedAgrees(s, k, ch, ctx, q);
      }
    }
  }

  /** A sign followed only by blanks and a zero: the token keeps the sign alone. */
  lemma SignOnlyAgrees(s: string, k: nat, ch: char, ctx: bv8, q: Position)
    requires k < |s| && (ch == '+' || ch == '-') && ctx == SignNibble(ch, 0)
    requires At(s, SkipBlanks(s, k)) == '0' && At(s, SkipBlanks(s, k) + 1) == '\0'
    ensures var r := ReadNumber(s, k, ctx, [ch], q, IntendedCodes);
      r.LexToken? ==> AgreesWithText(NumberOf(r))
  {
    var r := ReadNumber(s, k, ctx, [ch], q, IntendedCodes);
    if r.LexToken? {
      assert NumberOf(r) == MakeNumber([ch], ctx, IntendedCodes);
      SignOnlyText(ch, ctx);
    }
  }

  /** A sign followed by digits: the token's flags agree with its text. */
  lemma SignedAgrees(s: string, k: nat, ch: char, ctx: bv8, q: Position)
    requires k < |s| && (ch == '+' || ch == '-') && ctx == SignNibble(ch, 0)
    requires !(At(s, SkipBlanks(s, k)) == '0' && At(s, SkipBlanks(s, k) + 1) == '\0')
    ensures var r := ReadNumber(s, k, ctx, [ch], q, IntendedCodes);
      r.LexToken? ==> AgreesWithText(NumberOf(r))
  {
    var blank := SkipBlanks(s, k);
    ReadNumberSigned(s, k, ctx, [ch], q, IntendedCodes);
    var (pos, c0) := SignedPrefix(s, blank, ctx);
    var n := ScanNumber(s, pos, c0, IntendedCodes);
    SignedText(s, k, ch, ctx, blank, pos, c0, n);
  }

  /** The nibble a signed number keeps: the sign code and the format. */
  function SignNibble(ch: char, format: bv8): bv8 {
    (if ch == '+' then IntendedCodes.positive else IntendedCodes.negative) | format
  }

  /** A sign, blanks, then "0x" or "0b": the flags read off the text. */
  lemma SignedPrefixedText(ch: char, unsigned: string, b: nat, ctx: bv8)
    requires ch == '+' || ch == '-'
    requires b + 1 < |unsigned| && SkipBlanks(unsigned, 0) == b && unsigned[b] == '0' && unsigned[b + 1] in "xXbB"
    requires ctx & 0xF == SignNibble(ch, if unsigned[b + 1] in "xX" then NCHexa else NCBinary)
    ensures AgreesWithText(MakeNumber([ch] + unsigned, ctx, IntendedCodes))
  {
    assert ([ch] + unsigned)[1..] == unsigned;
    assert ctx & NCFormat == ctx & 0xF & NCFormat;
    assert ctx & IntendedCodes.negative == ctx & 0xF & IntendedCodes.negative;
  }

  /** A sign, blanks, then "0" and an octal digit: the flags read off the text. */
  lemma SignedOctalText(ch: char, unsigned: string, b: nat, ctx: bv8)
    requires ch == '+' || ch == '-'
    requires b + 1 < |unsigned| && SkipBlanks(unsigned, 0) == b && unsigned[b] == '0' && IsOctalDigit(unsigned[b + 1])
    requires ctx & 0xF == SignNibble(ch, NCOctal)
    ensures AgreesWithText(MakeNumber([ch] + unsigned, ctx, IntendedCodes))
  {
    assert ([ch] + unsigned)[1..] == unsigned;
    assert ctx & NCFormat == ctx & 0xF & NCFormat;
    assert ctx & IntendedCodes.negative == ctx & 0xF & IntendedCodes.negative;
  }

  /** A sign, blanks, then a decimal number: the flags read off the text. */
  lemma SignedDecimalText(ch: char, unsigned: string, b: nat, ctx: bv8)
    requires ch == '+' || ch == '-'
    requires b <= |unsigned| && SkipBlanks(unsigned, 0) == b
    requires !(At(unsigned, b) == '0' && (At(unsigned, b + 1) in "xXbB" || IsOctalDigit(At(unsigned, b + 1))))
    requires ctx & 0xF == SignNibble(ch, 0)
    requires ctx >= 0x20 <==> !NoFloatChar(unsigned)
    ensures AgreesWithText(MakeNumber([ch] + unsigned, ctx, IntendedCodes))
  {
    assert ([ch] + unsigned)[1..] == unsigned;
    assert ctx & NCFormat == ctx & 0xF & NCFormat;
    assert ctx & IntendedCodes.negative == ctx & 0xF & IntendedCodes.negative;
  }

  /** The text after a sign, blanks and a possible prefix, against the nibble the scan kept. */
  lemma SignedText(s: string, k: nat, ch: char, ctx: bv8, blank: nat, pos: nat, c0: bv8, n: NumberScan)
    requires k < |s| && (ch == '+' || ch == '-')
    requires ctx == SignNibble(ch, 0)
    requires blank == SkipBlanks(s, k)
    requires !(At(s, blank) == '0' && At(s, blank + 1) == '\0')
    requires (pos, c0) == SignedPrefix(s, blank, ctx)
    requires n == ScanNumber(s, pos, c0, IntendedCodes)
    ensures AgreesWithText(MakeNumber([ch] + s[k..n.end], n.context, IntendedCodes))
  {
    if c0 == ctx {
      SignedTextDecimal(s, k, ch, ctx, blank, pos, c0, n);
    } else if c0 == SignNibble(ch, NCOctal) {
      SignedTextOctal(s, k, ch, ctx, blank, pos, c0, n);
    } else {
      SignedTextPrefixed(s, k, ch, ctx, blank, pos, c0, n);
    }
  }

  lemma SignedTextDecimal(s: string, k: nat, ch: char, ctx: bv8, blank: nat, pos: nat, c0: bv8, n: NumberScan)
    requires k < |s| && (ch == '+' || ch == '-')
    requires ctx == SignNibble(ch, 0)
    requires blank == SkipBlanks(s, k)
    requires !(At(s, blank) == '0' && At(s, blank + 1) == '\0')
    requires (pos, c0) == SignedPrefix(s, blank, ctx)
    requires n == ScanNumber(s, pos, c0, IntendedCodes)
    requires c0 == ctx
    ensures AgreesWithText(MakeNumber([ch] + s[k..n.end], n.context, IntendedCodes))
  {
    SkipBlanksSlice(s, k, n.end);
    assert pos == blank;
    ScanKeepsNibble(s, pos, c0);
    DecimalScanFloat(s, blank, ctx);
    SignedDecimalCase(s, k, ch, blank, n);
  }

  lemma SignedTextOctal(s: string, k: nat, ch: char, ctx: bv8, blank: nat, pos: nat, c0: bv8, n: NumberScan)
    requires k < |s| && (ch == '+' || ch == '-')
    requires ctx == SignNibble(ch, 0)
    requires blank == SkipBlanks(s, k)
    requires (pos, c0) == SignedPrefix(s, blank, ctx)
    requires n == ScanNumber(s, pos, c0, IntendedCodes)
    requires c0 == SignNibble(ch, NCOctal)
    ensures AgreesWithText(MakeNumber([ch] + s[k..n.end], n.context, IntendedCodes))
  {
    ScanKeepsNibble(s, pos, c0);
    assert IntegerPart(s, pos, c0, IntendedCodes).end > pos;
    SkipBlanksSlice(s, k, n.end);
    SignedOctalCase(s, k, ch, blank, n);
  }

  lemma SignedTextPrefixed(s: string, k: nat, ch: char, ctx: bv8, blank: nat, pos: nat, c0: bv8, n: NumberScan)
    requires k < |s| && (ch == '+' || ch == '-')
    requires ctx == SignNibble(ch, 0)
    requires blank == SkipBlanks(s, k)
    requires (pos, c0) == SignedPrefix(s, blank, ctx)
    requires n == ScanNumber(s, pos, c0, IntendedCodes)
    requires c0 != ctx && c0 != SignNibble(ch, NCOctal)
    ensures AgreesWithText(MakeNumber([ch] + s[k..n.end], n.context, IntendedCodes))
  {
    ScanKeepsNibble(s, pos, c0);
    SkipBlanksSlice(s, k, n.end);
    SignedPrefixedCase(s, k, ch, blank, n);
  }

  lemma SignedDecimalCase(s: string, k: nat, ch: char, blank: nat, n: NumberScan)
    requires ch == '+' || ch == '-'
    requires k <= blank <= n.end <= |s| && SkipBlanks(s[k..n.end], 0) == blank - k
    requires forall m :: k <= m < blank ==> IsSpace(s[m]) && s[m] != '\n'
    requires !(At(s, blank) == '0' && (At(s, blank + 1) in "xXbB\0" || IsOctalDigit(At(s, blank + 1))))
    requires n.context & 0xF == SignNibble(ch, 0)
    requires n.context >= 0x20 <==> !NoFloatChar(s[blank..n.end])
    ensures AgreesWithText(MakeNumber([ch] + s[k..n.end], n.context, IntendedCodes))
  {
    var unsigned := s[k..n.end];
    var b := blank - k;
    assert At(unsigned, b) == (if blank < n.end then s[blank] else '\0');
    assert At(unsigned, b + 1) == (if blank + 1 < n.end then s[blank + 1] else '\0');
    NoFloatCharSlice(s, k, blank);
    assert unsigned == s[k..blank] + s[blank..n.end];
    NoFloatCharConcat(s[k..blank], s[blank..n.end]);
    SignedDecimalText(ch, unsigned, b, n.context);
  }

  lemma SignedOctalCase(s: string, k: nat, ch: char, blank: nat, n: NumberScan)
    requires ch == '+' || ch == '-'
    requires k <= blank && blank + 1 < n.end <= |s| && SkipBlanks(s[k..n.end], 0) == blank - k
    requires s[blank] == '0' && IsOctalDigit(s[blank + 1])
    requires n.context & 0xF == SignNibble(ch, NCOctal)
    ensures AgreesWithText(MakeNumber([ch] + s[k..n.end], n.context, IntendedCodes))
  {
    var unsigned := s[k..n.end];
    var b := blank - k;
    assert unsigned[b] == s[blank] && unsigned[b + 1] == s[blank + 1];
    SignedOctalText(ch, unsigned, b, n.context);
  }

  lemma SignedPrefixedCase(s: string, k: nat, ch: char, blank: nat, n: NumberScan)
    requires ch == '+' || ch == '-'
    requires k <= blank && blank + 2 <= n.end <= |s| && SkipBlanks(s[k..n.end], 0) == blank - k
    requires s[blank] == '0' && s[blank + 1] in "xXbB"
    requires n.context & 0xF == SignNibble(ch, if s[blank + 1] in "xX" then NCHexa else NCBinary)
    ensures AgreesWithText(MakeNumber([ch] + s[k..n.end], n.context, IntendedCodes))
  {
    var unsigned := s[k..n.end];
    var b := blank - k;
    assert unsigned[b] == s[blank] && unsigned[b + 1] == s[blank + 1];
    SignedPrefixedText(ch, unsigned, b, n.context);
  }

  /** The number branches with the intended constants give flags that agree with the text. */
  lemma NumberStartAgrees(s: string, j: nat, q: Position)
    requires j < |s| && (IsDigit(s[j]) || s[j] == '+' || s[j] == '-')
    ensures var r := ReadNumberStart(s, j, q, IntendedCodes);
      r.LexToken? ==> r.token.content.Some? && r.token.content.value.NumberContent? && AgreesWithText(NumberOf(r))
  {
    var ch := s[j];
    var next := At(s, j + 1);
    if ch == '0' && next in "xXbB" {
      ReadNumberStartPrefixed(s, j, q, IntendedCodes);
      PrefixedAgrees(s, j + 2, if next in "xX" then NCHexa else NCBinary, s[j..j + 2], q.(column := q.column + 2));
    } else if ch == '0' && IsOctalDigit(next) {
      ReadNumberStartOctal(s, j, q, IntendedCodes);
      OctalAgrees(s, j + 1, q.(column := q.column + 1));
    } else if ch == '+' || ch == '-' {
      ReadNumberStartSign(s, j, q, IntendedCodes);
      SignAgrees(s, j + 1, ch, q.(column := q.column + 1));
    } else {
      ReadNumberStartPlain(s, j, q, IntendedCodes);
      DigitAgrees(s, j, q);
    }
  }

  /**
   * With the intended constants, every number readMain produces carries
   * the negative flag setSubTypeFromContent would give its text, the
   * coding its prefix announces, and, for a decimal number, the float
   * flag of its text.
   */
  lemma NumberFlagsAgreeWithText(s: string, i: nat, p: Position)
    requires i <= |s|
    ensures var r := ReadMain(s, i, p, IntendedCodes);
      r.LexToken? && r.token.tokenType == TNumber ==>
        r.token.content.Some? && r.token.content.value.NumberContent? && AgreesWithText(NumberOf(r))
  {
    var (j, q) := SkipWhitespace(s, i, p);
    if j < |s| && (IsDigit(s[j]) || s[j] == '+' || s[j] == '-') {
      NumberStartAgrees(s, j, q);
    }
  }

  /** With the constants as written the flags of "+0x1" disagree with its text. */
  lemma WrittenFlagsDisagree()
    ensures var r := ReadMain("+0x1", 0, Position(1, 1), WrittenCodes);
      r.LexToken? && r.token.content.Some? && r.token.content.value.NumberContent? && !AgreesWithText(NumberOf(r))
  {
    PlusHexNegativeAsWritten();
    assert !Reread("+0x1").isNegative;
  }
}
