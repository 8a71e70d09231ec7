/**
 * The JSON parser (STG::JSon::BasicParser) on a complete input in
 * full-token mode: the bit array that records, per nesting level, whether
 * the level is an array or an object; the parser state with its level,
 * its type stack and its point (start, after a key, after the colon);
 * parseDocument, the step taken on each token; the run over the tokens of
 * a whole text; and CommonParser::SkipNode, which skips one value of an
 * event stream.
 *
 * The parser state records the type stack as the set of levels that are
 * arrays; the first section shows that the cell array of the source
 * (BigInteger) implements exactly that set.
 */
module JsonParser {
  import opened Wrappers
  import L = JsonLexer
  import A = JsonArguments

  // ---------------------------------------------------------------------
  // The bit array (BasicParser::State::BigInteger)

  /** The single bit k of a 32-bit cell. */
  function Mask(k: nat): bv32
    requires k < 32
  {
    1 << k
  }

  /**
   * Whether the storage reaches bit index. The source compares index*32
   * with the number of cells (as written); the cell the bit lives in is
   * index/32, which is what the comparison evidently means.
   */
  predicate Covers(cells: seq<bv32>, index: nat, asWritten: bool) {
    if asWritten then index * 32 < |cells| else index / 32 < |cells|
  }

  /** Bit b of cell k. */
  predicate CellBit(cells: seq<bv32>, k: nat, b: nat)
    requires k < |cells| && b < 32
  {
    cells[k] & Mask(b) != 0
  }

  /** cbitArray: a bit beyond the storage reads as false. */
  function ReadBit(cells: seq<bv32>, index: nat, asWritten: bool): (b: bool)
    ensures !Covers(cells, index, asWritten) ==> !b
  {
    if !Covers(cells, index, asWritten) then false
    else CellBit(cells, index / 32, index % 32)
  }

  /** The loop of the setters: zero cells are appended until the storage covers index. */
  function Grown(cells: seq<bv32>, index: nat, asWritten: bool): (r: seq<bv32>)
    ensures Covers(r, index, asWritten)
    ensures |r| >= |cells|
    ensures forall k :: 0 <= k < |r| ==> r[k] == if k < |cells| then cells[k] else 0
    ensures !Covers(cells, index, asWritten) ==> |r| == (if asWritten then index * 32 + 1 else index / 32 + 1)
    ensures Covers(cells, index, asWritten) ==> r == cells
  {
    if Covers(cells, index, asWritten) then cells
    else cells + seq((if asWritten then index * 32 + 1 else index / 32 + 1) - |cells|, _ => 0 as bv32)
  }

  /** setTrueBitArray (value true) and setFalseBitArray (value false). */
  function SetBit(cells: seq<bv32>, index: nat, value: bool, asWritten: bool): (r: seq<bv32>)
    ensures |r| == |Grown(cells, index, asWritten)|
  {
    var g := Grown(cells, index, asWritten);
    var c := index / 32;
    g[c := if value then g[c] | Mask(index % 32) else g[c] & !Mask(index % 32)]
  }

  /** Every set bit lies where a read can see it. */
  predicate WellFormedBits(cells: seq<bv32>, asWritten: bool) {
    forall k: nat, b: nat :: k < |cells| && b < 32 && CellBit(cells, k, b) ==> Covers(cells, 32 * k + b, asWritten)
  }

  /** Two different bits of one cell do not interfere. */
  lemma MaskLaws(x: bv32, j: nat, k: nat)
    requires j < 32 && k < 32
    ensures (x | Mask(k)) & Mask(k) != 0
    ensures (x & !Mask(k)) & Mask(k) == 0
    ensures j != k ==> (x | Mask(k)) & Mask(j) == x & Mask(j)
    ensures j != k ==> (x & !Mask(k)) & Mask(j) == x & Mask(j)
  {
    MaskSetLaws(x, j, k);
    MaskClearLaws(x, j, k);
  }

  lemma MaskSetLaws(x: bv32, j: nat, k: nat)
    requires j < 32 && k < 32
    ensures (x | Mask(k)) & Mask(k) != 0
    ensures j != k ==> (x | Mask(k)) & Mask(j) == x & Mask(j)
  {
    if j != k { MaskSetOther(x, j, k); }
  }

  lemma MaskSetOther(x: bv32, j: nat, k: nat)
    requires j < 32 && k < 32 && j != k
    ensures (x | Mask(k)) & Mask(j) == x & Mask(j)
  {
    MasksDisjoint(j, k);
    SetDisjoint(x, Mask(j), Mask(k));
  }

  lemma MaskClearLaws(x: bv32, j: nat, k: nat)
    requires j < 32 && k < 32
    ensures (x & !Mask(k)) & Mask(k) == 0
    ensures j != k ==> (x & !Mask(k)) & Mask(j) == x & Mask(j)
  {
    if j != k { MaskClearOther(x, j, k); }
  }

  lemma MaskClearOther(x: bv32, j: nat, k: nat)
    requires j < 32 && k < 32 && j != k
    ensures (x & !Mask(k)) & Mask(j) == x & Mask(j)
  {
    MasksDisjoint(j, k);
    ClearDisjoint(x, Mask(j), Mask(k));
  }

  /** Masks of two different bits share no bit. */
  lemma MasksDisjoint(j: nat, k: nat)
    requires j < 32 && k < 32 && j != k
    ensures Mask(j) & Mask(k) == 0
  {
  }

  lemma SetDisjoint(x: bv32, mj: bv32, mk: bv32)
    requires mj & mk == 0
    ensures (x | mk) & mj == x & mj
  {
  }

  lemma ClearDisjoint(x: bv32, mj: bv32, mk: bv32)
    requires mj & mk == 0
    ensures (x & !mk) & mj == x & mj
  {
  }

  /** A bit reads back as it was set. */
  lemma ReadOwnBit(cells: seq<bv32>, index: nat, value: bool, asWritten: bool)
    ensures ReadBit(SetBit(cells, index, value, asWritten), index, asWritten) == value
  {
    var g := Grown(cells, index, asWritten);
    MaskLaws(g[index / 32], index % 32, index % 32);
  }

  /** Setting a bit leaves every other bit as it was. */
  lemma ReadOtherBit(cells: seq<bv32>, index: nat, value: bool, asWritten: bool, j: nat)
    requires WellFormedBits(cells, asWritten) && j != index
    ensures ReadBit(SetBit(cells, index, value, asWritten), j, asWritten) == ReadBit(cells, j, asWritten)
  {
    var r := SetBit(cells, index, value, asWritten);
    if Covers(r, j, asWritten) {
      DivMod(j);
      DivMod(index);
      SetBitOther(cells, index, value, asWritten, j / 32, j % 32);
      GrownBit(cells, index, asWritten, j);
    }
  }

  /** Only the addressed bit of the grown storage changes. */
  lemma SetBitOther(cells: seq<bv32>, index: nat, value: bool, asWritten: bool, k: nat, b: nat)
    requires k < |Grown(cells, index, asWritten)| && b < 32 && (k != index / 32 || b != index % 32)
    ensures CellBit(SetBit(cells, index, value, asWritten), k, b) == CellBit(Grown(cells, index, asWritten), k, b)
  {
    var g := Grown(cells, index, asWritten);
    if k == index / 32 {
      MaskLaws(g[k], b, index % 32);
    }
  }

  /** A bit of the grown storage is the bit of the original one. */
  lemma GrownBit(cells: seq<bv32>, index: nat, asWritten: bool, j: nat)
    requires WellFormedBits(cells, asWritten)
    requires Covers(Grown(cells, index, asWritten), j, asWritten)
    ensures var g := Grown(cells, index, asWritten);
      CellBit(g, j / 32, j % 32) == ReadBit(cells, j, asWritten)
  {
    var g := Grown(cells, index, asWritten);
    var cj := j / 32;
    if cj < |cells| {
      assert g[cj] == cells[cj];
      if CellBit(cells, cj, j % 32) {
        SeenBit(cells, j, asWritten);
      }
    } else {
      assert g[cj] == 0;
    }
  }

  /** A set bit of a well-formed array is covered. */
  lemma SeenBit(cells: seq<bv32>, j: nat, asWritten: bool)
    requires WellFormedBits(cells, asWritten)
    requires j / 32 < |cells| && CellBit(cells, j / 32, j % 32)
    ensures Covers(cells, j, asWritten)
  {
    DivMod(j);
  }

  lemma DivMod(j: nat)
    ensures 32 * (j / 32) + j % 32 == j && j % 32 < 32
  {
  }

  /** The set bits stay where reads see them. */
  lemma SetBitWellFormed(cells: seq<bv32>, index: nat, value: bool, asWritten: bool)
    requires WellFormedBits(cells, asWritten)
    ensures WellFormedBits(SetBit(cells, index, value, asWritten), asWritten)
  {
    var g := Grown(cells, index, asWritten);
    var r := SetBit(cells, index, value, asWritten);
    forall k: nat, b: nat | k < |r| && b < 32 && CellBit(r, k, b)
      ensures Covers(r, 32 * k + b, asWritten)
    {
      DivMod(index);
      if k == index / 32 && b == index % 32 {
        assert 32 * k + b == index;
      } else {
        SetBitOther(cells, index, value, asWritten, k, b);
        assert g[k] == cells[k];
        assert CellBit(cells, k, b);
      }
    }
  }

  /** The levels whose bit is set. */
  function Bits(cells: seq<bv32>, asWritten: bool): (s: set<nat>)
    ensures forall i :: i in s <==> ReadBit(cells, i, asWritten)
  {
    var s := set i: nat | i < 32 * |cells| && ReadBit(cells, i, asWritten);
    assert forall i: nat :: ReadBit(cells, i, asWritten) ==> i < 32 * |cells|;
    s
  }

  /**
   * Whichever of the two comparisons is used, the cell array implements a
   * set of bit positions: setTrueBitArray adds the position, setFalseBitArray
   * removes it, and nothing else changes.
   */
  lemma {:induction false} BitsOfSetBit(cells: seq<bv32>, index: nat, value: bool, asWritten: bool)
    requires WellFormedBits(cells, asWritten)
    ensures value ==> Bits(SetBit(cells, index, value, asWritten), asWritten) == Bits(cells, asWritten) + {index}
    ensures !value ==> Bits(SetBit(cells, index, value, asWritten), asWritten) == Bits(cells, asWritten) - {index}
  {
    ReadOwnBit(cells, index, value, asWritten);
    forall j: nat | j != index
      ensures ReadBit(SetBit(cells, index, value, asWritten), j, asWritten) == ReadBit(cells, j, asWritten)
    {
      ReadOtherBit(cells, index, value, asWritten, j);
    }
  }

  /** The empty array has no bit set and satisfies the layout invariant. */
  lemma EmptyBits(asWritten: bool)
    ensures WellFormedBits([], asWritten) && Bits([], asWritten) == {}
  {
  }

  /**
   * As written the storage grows to index*32+1 cells where index/32+1
   * suffice: setting bit 3 of an empty array allocates 97 cells instead
   * of 1.
   */
  lemma OverAllocationAsWritten()
    ensures |SetBit([], 3, true, true)| == 97
    ensures |SetBit([], 3, true, false)| == 1
  {
  }

  /** With the cell-index comparison, the storage is exactly what the highest bit set needs. */
  lemma {:induction false} StorageIsTight(cells: seq<bv32>, index: nat, value: bool)
    ensures |SetBit(cells, index, value, false)| == if index / 32 < |cells| then |cells| else index / 32 + 1
  {
  }

  // ---------------------------------------------------------------------
  // The parser state (BasicParser::State)

  /** Where the parser stands within the current level: the Delimiters of parseDocument. */
  datatype Point = Begin | AfterKey | AfterColon

  /**
   * The document level, the levels (counted from 0) whose bit in the type
   * stack is set, that is the levels that are arrays, and the point.
   */
  datatype ParserState = ParserState(level: nat, arrays: set<nat>, point: Point)

  function InitialParser(): ParserState { ParserState(0, {}, Begin) }

  predicate IsInObject(st: ParserState) { st.level > 0 && st.level - 1 !in st.arrays }
  predicate IsInArray(st: ParserState) { st.level > 0 && st.level - 1 in st.arrays }

  /** The invariant the enter/exit pairs keep: no level at or above the current one is marked. */
  predicate NoneAbove(st: ParserState) { forall i :: i in st.arrays ==> i < st.level }

  function EnterObject(st: ParserState): ParserState { st.(level := st.level + 1) }

  function EnterArray(st: ParserState): ParserState
  {
    st.(level := st.level + 1, arrays := st.arrays + {st.level})
  }

  /** exitObject: the new state and whether the document level reached 0. */
  function ExitObject(st: ParserState): (ParserState, bool)
    requires st.level > 0
  {
    (st.(level := st.level - 1), st.level - 1 == 0)
  }

  function ExitArray(st: ParserState): (ParserState, bool)
    requires st.level > 0
  {
    (st.(level := st.level - 1, arrays := st.arrays - {st.level - 1}), st.level - 1 == 0)
  }

  /**
   * Entering makes the new level an array or, when nothing is marked above
   * the old level, an object; exiting lowers the level, reports whether it
   * reached 0, and exiting what was entered restores the state.
   */
  lemma EnterExitLaws(st: ParserState)
    ensures EnterArray(st).level == st.level + 1 && IsInArray(EnterArray(st))
    ensures EnterObject(st).level == st.level + 1
    ensures NoneAbove(st) ==> IsInObject(EnterObject(st)) && NoneAbove(EnterObject(st)) && NoneAbove(EnterArray(st))
    ensures st.level > 0 ==> ExitArray(st).0.level == st.level - 1 && (ExitArray(st).1 <==> st.level == 1)
    ensures st.level > 0 ==> ExitObject(st).0.level == st.level - 1 && (ExitObject(st).1 <==> st.level == 1)
    ensures st.level > 0 && NoneAbove(st) ==> NoneAbove(ExitArray(st).0)
    ensures st.level > 0 && NoneAbove(st) && IsInObject(st) ==> NoneAbove(ExitObject(st).0)
    ensures NoneAbove(st) ==> ExitArray(EnterArray(st)).0 == st && ExitObject(EnterObject(st)).0 == st
  {
    if NoneAbove(st) {
      assert st.level !in st.arrays;
      assert (st.arrays + {st.level}) - {st.level} == st.arrays;
    }
  }

  /**
   * exitObject does not clear the level's bit, so an array closed by '}'
   * leaves its mark: the next '{' at that level is taken for an array.
   */
  lemma ObjectExitKeepsArrayMark(st: ParserState)
    requires NoneAbove(st)
    ensures var closed := ExitObject(EnterArray(st)).0;
      IsInArray(EnterObject(closed)) && !NoneAbove(closed)
  {
  }

  // ---------------------------------------------------------------------
  // One token (BasicParser::parseDocument)

  /** What a parse step answers (ReadResult). */
  datatype ReadResult = RRContinue | RRFinished | RRNeedChars

  /**
   * An event handed to the reader. A float is handed over as its number
   * token: its conversion is floating-point work outside the model.
   */
  datatype Emitted = Emit(event: A.Token) | EmitFloat(number: L.NumberToken)

  datatype Stepped =
    | Stepped(state: ParserState, emitted: seq<Emitted>, errors: seq<string>, result: ReadResult)
    | StepAborted

  /** The text of a string token; in full-token mode the lexer always gives one. */
  function StringText(t: L.Token): string
  {
    if t.content.Some? && t.content.value.StringContent? then t.content.value.text else ""
  }

  /** A scalar is in place after the colon of a member, or where an array element starts. */
  predicate AcceptsValue(st: ParserState) {
    (IsInObject(st) && st.point == AfterColon) || (IsInArray(st) && st.point == Begin)
  }

  /** The complaint about an opening character ch, if any. */
  function OpenErrors(st: ParserState, ch: string): seq<string>
  {
    if st.point == Begin then
      (if IsInObject(st) then ["Unexpected JSON '" + ch + "' in object: key expected"] else [])
    else if st.point == AfterKey then ["Expect ':' after key and not '" + ch + "'"]
    else []
  }

  const ScalarError := "Unexpected JSON boolean after key"

  /** The event of a number token: an int when it is not a float, converted by integerOf. */
  function NumberEvents(t: L.Token, integerOf: L.NumberToken -> int): seq<Emitted>
  {
    if t.content.Some? && t.content.value.NumberContent? then
      var n := t.content.value.number;
      if !n.isFloat then [Emit(A.TInt(integerOf(n)))] else [EmitFloat(n)]
    else []
  }

  /**
   * parseDocument with readers that always continue (the BasicParser
   * defaults). Closing at level 0 violates the source's precondition on
   * exitObject/exitArray and aborts.
   */
  function ParseStep(st: ParserState, t: L.Token, integerOf: L.NumberToken -> int): (r: Stepped)
    ensures t.tokenType in {L.TOpenBrace, L.TOpenBracket} ==>
      r.Stepped? && r.state.level == st.level + 1 && r.state.point == Begin && r.result == RRContinue &&
      (r.errors != [] <==> (st.point == Begin && IsInObject(st)) || st.point == AfterKey)
    ensures t.tokenType in {L.TCloseBrace, L.TCloseBracket} ==>
      (r.StepAborted? <==> st.level == 0) &&
      (r.Stepped? ==> r.state.level == st.level - 1 && r.state.point == Begin &&
                      (r.result == RRFinished <==> r.state.level == 0) && (r.errors != [] <==> st.point != Begin))
    ensures t.tokenType == L.TColon ==>
      r.Stepped? && r.emitted == [] && (r.errors == [] <==> st.point == AfterKey) &&
      (r.errors == [] ==> r.state == st.(point := AfterColon)) && (r.errors != [] ==> r.state == st)
    ensures t.tokenType == L.TComma ==>
      r.Stepped? && r.state == st && r.emitted == [] && (r.errors == [] <==> st.point == Begin)
    ensures t.tokenType == L.TString ==>
      r.Stepped? && (r.errors == [] <==> st.point != AfterKey) && (r.errors != [] ==> r.state == st) &&
      (r.errors == [] ==> (st.point == Begin && IsInObject(st) <==> r.state.point == AfterKey))
    ensures t.tokenType in {L.TTrue, L.TFalse, L.TNull, L.TNumber} ==>
      r.Stepped? && (r.errors == [] <==> AcceptsValue(st)) &&
      (r.errors == [] ==> r.state == st.(point := Begin)) && (r.errors != [] ==> r.state == st && r.emitted == [])
    ensures r.Stepped? && r.result == RRNeedChars <==>
      (t.tokenType == L.TString && st.point == AfterKey) || (t.tokenType == L.TNumber && !AcceptsValue(st))
    ensures r.Stepped? ==> EndOfStream !in r.errors
  {
    match t.tokenType
    case TOpenBrace =>
      Stepped(EnterObject(st).(point := Begin), [Emit(A.TOpenObject)], OpenErrors(st, "{"), RRContinue)
    case TOpenBracket =>
      Stepped(EnterArray(st).(point := Begin), [Emit(A.TOpenArray)], OpenErrors(st, "["), RRContinue)
    case TCloseBrace =>
      if st.level == 0 then StepAborted
      else
        var (next, finished) := ExitObject(st);
        Stepped(next.(point := Begin), [Emit(A.TCloseObject)],
                if st.point != Begin then ["Unexpected JSON '}' after key"] else [],
                if finished then RRFinished else RRContinue)
    case TCloseBracket =>
      if st.level == 0 then StepAborted
      else
        var (next, finished) := ExitArray(st);
        Stepped(next.(point := Begin), [Emit(A.TCloseArray)],
                if st.point != Begin then ["Unexpected JSON ']' after key"] else [],
                if finished then RRFinished else RRContinue)
    case TComma =>
      Stepped(st, [], if st.point != Begin then ["Unexpected JSON ',' in object"] else [], RRContinue)
    case TColon =>
      if st.point != AfterKey then Stepped(st, [], ["Unexpected JSON ':'"], RRContinue)
      else Stepped(st.(point := AfterColon), [], [], RRContinue)
    case TString =>
      if st.point == Begin && IsInObject(st) then
        Stepped(st.(point := AfterKey), [Emit(A.TKey(StringText(t)))], [], RRContinue)
      else if st.point == AfterKey then Stepped(st, [], ["Unexpected JSON string after key"], RRNeedChars)
      else Stepped(st.(point := Begin), [Emit(A.TString(StringText(t)))], [], RRContinue)
    case TTrue =>
      if AcceptsValue(st) then Stepped(st.(point := Begin), [Emit(A.TBool(true))], [], RRContinue)
      else Stepped(st, [], [ScalarError], RRContinue)
    case TFalse =>
      if AcceptsValue(st) then Stepped(st.(point := Begin), [Emit(A.TBool(false))], [], RRContinue)
      else Stepped(st, [], [ScalarError], RRContinue)
    case TNull =>
      if AcceptsValue(st) then Stepped(st.(point := Begin), [Emit(A.TNull)], [], RRContinue)
      else Stepped(st, [], [ScalarError], RRContinue)
    case TNumber =>
      if AcceptsValue(st) then Stepped(st.(point := Begin), NumberEvents(t, integerOf), [], RRContinue)
      else Stepped(st, [], [ScalarError], RRNeedChars)
    case TUndefined =>
      Stepped(st, [], ["Unexpected token in JSON document"],
              if st.point == Begin && st.level == 0 then RRFinished else RRContinue)
  }

  // ---------------------------------------------------------------------
  // A run over the tokens of a text

  /**
   * Where a run over a token sequence ends: out of tokens, stopped by a
   * finished step, stopped by a step that asks for more characters, or
   * aborted.
   */
  datatype Outcome =
    | Running(state: ParserState, emitted: seq<Emitted>, errors: seq<string>)
    | Stopped(state: ParserState, emitted: seq<Emitted>, errors: seq<string>, rest: seq<L.Token>)
    | NeedChars(state: ParserState, emitted: seq<Emitted>, errors: seq<string>, rest: seq<L.Token>)
    | RunAborted

  function Prepend(emitted: seq<Emitted>, errors: seq<string>, o: Outcome): Outcome
  {
    match o
    case Running(s, e, r) => Running(s, emitted + e, errors + r)
    case Stopped(s, e, r, rest) => Stopped(s, emitted + e, errors + r, rest)
    case NeedChars(s, e, r, rest) => NeedChars(s, emitted + e, errors + r, rest)
    case RunAborted => RunAborted
  }

  /**
   * parseChunk in full-token mode: tokens are handed to parseDocument
   * while a step answers RRContinue. The loop ends on the first step that
   * answers RRFinished or RRNeedChars; the tokens after it are not read.
   */
  function Run(st: ParserState, toks: seq<L.Token>, integerOf: L.NumberToken -> int): (o: Outcome)
    ensures (o.Stopped? || o.NeedChars?) ==> |o.rest| < |toks| && o.rest == toks[|toks| - |o.rest|..]
    ensures !o.RunAborted? ==> EndOfStream !in o.errors
    decreases |toks|
  {
    if toks == [] then Running(st, [], [])
    else
      var r := ParseStep(st, toks[0], integerOf);
      if r.StepAborted? then RunAborted
      else if r.result == RRFinished then Stopped(r.state, r.emitted, r.errors, toks[1..])
      else if r.result == RRNeedChars then NeedChars(r.state, r.emitted, r.errors, toks[1..])
      else
        var o := Run(r.state, toks[1..], integerOf);
        assert (o.Stopped? || o.NeedChars?) ==> toks[1..][|toks| - 1 - |o.rest|..] == toks[|toks| - |o.rest|..];
        Prepend(r.emitted, r.errors, o)
  }

  /** What a run continues with once a first part of the tokens is done. */
  function Then(o: Outcome, b: seq<L.Token>, integerOf: L.NumberToken -> int): Outcome
  {
    match o
    case Running(s, e, r) => Prepend(e, r, Run(s, b, integerOf))
    case Stopped(s, e, r, rest) => Stopped(s, e, r, rest + b)
    case NeedChars(s, e, r, rest) => NeedChars(s, e, r, rest + b)
    case RunAborted => RunAborted
  }

  lemma PrependTwice(e1: seq<Emitted>, r1: seq<string>, e2: seq<Emitted>, r2: seq<string>, o: Outcome)
    ensures Prepend(e1, r1, Prepend(e2, r2, o)) == Prepend(e1 + e2, r1 + r2, o)
  {
  }

  /** Running over a + b is running over a, then over b from where a left off. */
  lemma {:induction false} RunConcat(st: ParserState, a: seq<L.Token>, b: seq<L.Token>, integerOf: L.NumberToken -> int)
    ensures Run(st, a + b, integerOf) == Then(Run(st, a, integerOf), b, integerOf)
    decreases |a|
  {
    if a == [] {
      assert a + b == b;
      assert Prepend([], [], Run(st, b, integerOf)) == Run(st, b, integerOf);
    } else {
      assert (a + b)[0] == a[0] && (a + b)[1..] == a[1..] + b;
      var r := ParseStep(st, a[0], integerOf);
      if r.Stepped? && r.result == RRContinue {
        RunConcat(r.state, a[1..], b, integerOf);
        var o := Run(r.state, a[1..], integerOf);
        if o.Running? {
          PrependTwice(r.emitted, r.errors, o.emitted, o.errors, Run(o.state, b, integerOf));
        }
      }
    }
  }

  // ---------------------------------------------------------------------
  // A whole text

  datatype Document =
    | Document(emitted: seq<Emitted>, errors: seq<string>, finished: bool)
    | DocumentThrown
    | DocumentAborted

  /** The error parse() reports when the text ends inside an open container. */
  const EndOfStream := "Unexpected end of JSON stream"

  /**
   * BasicParser::parse on a complete text, read as one forced chunk. The
   * lexer's tokens are parsed until a step answers RRFinished (the
   * document is finished) or RRNeedChars; a lexer exception before that
   * point propagates. When the lexer runs out of text it answers
   * RRFinished and the document is closed without error. A step that
   * asks for more characters ends the reading, since the forced chunk was
   * the last; if a container is then still open, "Unexpected end of JSON
   * stream" is reported and endDocument is not called.
   */
  function ParseText(s: string, codes: L.NumberCodes, integerOf: L.NumberToken -> int): (d: Document)
    requires L.WellFormedCodes(codes)
    ensures var o := Run(InitialParser(), L.Tokenize(s, 0, L.Position(1, 1), codes).0, integerOf);
      (d.Document? && EndOfStream in d.errors <==> o.NeedChars? && o.state.level > 0) &&
      (o.NeedChars? ==>
         d.Document? && !d.finished && d.emitted == o.emitted &&
         (d.errors == o.errors || d.errors == o.errors + [EndOfStream])) &&
      (d.Document? && d.finished <==> o.Stopped?)
    ensures d.DocumentThrown? ==> L.Tokenize(s, 0, L.Position(1, 1), codes).1.LexThrown?
    ensures d.Document? && !d.finished ==>
      L.Tokenize(s, 0, L.Position(1, 1), codes).1.LexFinished? ||
      Run(InitialParser(), L.Tokenize(s, 0, L.Position(1, 1), codes).0, integerOf).NeedChars?
  {
    var (toks, end) := L.Tokenize(s, 0, L.Position(1, 1), codes);
    var o := Run(InitialParser(), toks, integerOf);
    if o.Stopped? then Document(o.emitted, o.errors, true)
    else if o.NeedChars? then
      if o.state.level > 0 then Document(o.emitted, o.errors + [EndOfStream], false)
      else Document(o.emitted, o.errors, false)
    else if o.RunAborted? || end.LexAborted? then DocumentAborted
    else if end.LexThrown? then DocumentThrown
    else Document(o.emitted, o.errors, false)
  }

  /**
   * A text whose tokens start with those of an array or an object is
   * read as that value's event stream, without error, and the document
   * is finished whatever follows.
   */
  lemma TextParses(s: string, v: A.Json, rest: seq<L.Token>, codes: L.NumberCodes,
                   numberOf: int -> L.NumberToken, integerOf: L.NumberToken -> int)
    requires L.WellFormedCodes(codes) && (v.JArray? || v.JObject?) && NumbersRoundTrip(numberOf, integerOf)
    requires L.Tokenize(s, 0, L.Position(1, 1), codes).0 == ValueTokens(v, numberOf) + rest
    ensures ParseText(s, codes, integerOf) == Document(Lift(A.Events(v)), [], true)
  {
    DocumentParses(v, rest, numberOf, integerOf);
  }

  /**
   * A second string after a key asks for more characters: the text ends
   * there, inside the open object, with the end-of-stream error and
   * without the object being closed, whatever tokens follow.
   */
  lemma StringAfterKeyEndsStream(s: string, a: string, b: string, rest: seq<L.Token>, codes: L.NumberCodes,
                                 integerOf: L.NumberToken -> int)
    requires L.WellFormedCodes(codes)
    requires L.Tokenize(s, 0, L.Position(1, 1), codes).0 == [OpenBrace, StringToken(a), StringToken(b)] + rest
    ensures ParseText(s, codes, integerOf) ==
      Document([Emit(A.TOpenObject), Emit(A.TKey(a))], ["Unexpected JSON string after key", EndOfStream], false)
  {
    StringAfterKeyRun(a, b, rest, integerOf);
  }

  /** The run behind StringAfterKeyEndsStream: it stops inside the object, after the key. */
  lemma StringAfterKeyRun(a: string, b: string, rest: seq<L.Token>, integerOf: L.NumberToken -> int)
    ensures var st := InitialParser().(level := 1);
      Run(InitialParser(), [OpenBrace, StringToken(a), StringToken(b)] + rest, integerOf) ==
      NeedChars(st.(point := AfterKey), [Emit(A.TOpenObject), Emit(A.TKey(a))], ["Unexpected JSON string after key"], rest)
  {
    var st0 := InitialParser();
    var st1 := EnterObject(st0).(point := Begin);
    var st2 := st1.(point := AfterKey);
    assert st1 == st0.(level := 1);
    var tail := [StringToken(b)] + rest;
    assert Run(st2, tail, integerOf) == NeedChars(st2, [], ["Unexpected JSON string after key"], rest) by {
      assert tail[0] == StringToken(b) && tail[1..] == rest;
    }
    assert ParseStep(st1, StringToken(a), integerOf) == Stepped(st2, [Emit(A.TKey(a))], [], RRContinue);
    RunCons(st1, StringToken(a), tail, integerOf);
    assert ParseStep(st0, OpenBrace, integerOf) == Stepped(st1, [Emit(A.TOpenObject)], [], RRContinue);
    RunCons(st0, OpenBrace, [StringToken(a)] + tail, integerOf);
    assert [OpenBrace] + ([StringToken(a)] + tail) == [OpenBrace, StringToken(a), StringToken(b)] + rest;
  }

  /**
   * A number at the top level is not a value the document accepts: it
   * asks for more characters, so nothing is read after it, no event is
   * emitted, and as no container is open the document is closed without
   * the end-of-stream error.
   */
  lemma TopLevelNumberEndsText(s: string, n: L.NumberToken, rest: seq<L.Token>, codes: L.NumberCodes,
                               integerOf: L.NumberToken -> int)
    requires L.WellFormedCodes(codes)
    requires L.Tokenize(s, 0, L.Position(1, 1), codes).0 == [L.NumberTokenOf(n)] + rest
    ensures ParseText(s, codes, integerOf) == Document([], [ScalarError], false)
  {
    var toks := [L.NumberTokenOf(n)] + rest;
    assert toks[0] == L.NumberTokenOf(n) && toks[1..] == rest;
    assert Run(InitialParser(), toks, integerOf) == NeedChars(InitialParser(), [], [ScalarError], rest);
  }

  // ---------------------------------------------------------------------
  // The tokens of a value, and what the parser makes of them

  const OpenBrace := L.Token(L.TOpenBrace, None)
  const CloseBrace := L.Token(L.TCloseBrace, None)
  const OpenBracket := L.Token(L.TOpenBracket, None)
  const CloseBracket := L.Token(L.TCloseBracket, None)
  const Comma := L.Token(L.TComma, None)
  const Colon := L.Token(L.TColon, None)

  function StringToken(text: string): L.Token { L.Token(L.TString, Some(L.StringContent(text))) }

  /** The lexer tokens of a value; numberOf gives the number token written for an integer. */
  function ValueTokens(v: A.Json, numberOf: int -> L.NumberToken): seq<L.Token>
    decreases A.Size(v), 1
  {
    match v
    case JNull => [L.Token(L.TNull, None)]
    case JBool(b) => [L.Token(if b then L.TTrue else L.TFalse, None)]
    case JInt(i) => [L.NumberTokenOf(numberOf(i))]
    case JString(t) => [StringToken(t)]
    case JArray(es) => [OpenBracket] + (ElementTokens(es, false, numberOf) + [CloseBracket])
    case JObject(ms) => [OpenBrace] + (MemberTokens(ms, false, numberOf) + [CloseBrace])
  }

  /** Elements, each after the first preceded by a comma (sep: a comma comes first). */
  function ElementTokens(es: seq<A.Json>, sep: bool, numberOf: int -> L.NumberToken): seq<L.Token>
    decreases A.SizeOfValues(es), 0
  {
    if es == [] then []
    else (if sep then [Comma] else []) + (ValueTokens(es[0], numberOf) + ElementTokens(es[1..], true, numberOf))
  }

  /** Members as key, colon, value, each after the first preceded by a comma. */
  function MemberTokens(ms: seq<A.Member>, sep: bool, numberOf: int -> L.NumberToken): seq<L.Token>
    decreases A.SizeOfMembers(ms), 0
  {
    if ms == [] then []
    else
      (if sep then [Comma] else [])
      + ([StringToken(ms[0].key), Colon] + (ValueTokens(ms[0].value, numberOf) + MemberTokens(ms[1..], true, numberOf)))
  }

  /** Integers are written as integer number tokens that read back as themselves. */
  ghost predicate NumbersRoundTrip(numberOf: int -> L.NumberToken, integerOf: L.NumberToken -> int) {
    forall i :: !numberOf(i).isFloat && integerOf(numberOf(i)) == i
  }

  function Lift(ts: seq<A.Token>): (r: seq<Emitted>)
    ensures |r| == |ts| && forall k :: 0 <= k < |ts| ==> r[k] == Emit(ts[k])
  {
    seq(|ts|, k requires 0 <= k < |ts| => Emit(ts[k]))
  }

  lemma LiftConcat(a: seq<A.Token>, b: seq<A.Token>)
    ensures Lift(a + b) == Lift(a) + Lift(b)
  {
  }

  lemma LiftWrap(open: A.Token, events: seq<A.Token>, close: A.Token)
    ensures Lift([open] + events + [close]) == [Emit(open)] + Lift(events) + [Emit(close)]
  {
    var l := Lift([open] + events + [close]);
    var r := [Emit(open)] + Lift(events) + [Emit(close)];
    assert |l| == |r|;
    forall k | 0 <= k < |l| ensures l[k] == r[k] {
      if k == 0 {
      } else if k <= |events| {
        assert ([open] + events + [close])[k] == events[k - 1];
      } else {
      }
    }
  }

  lemma LiftMember(key: string, a: seq<A.Token>, b: seq<A.Token>)
    ensures Lift([A.TKey(key)] + a + b) == [Emit(A.TKey(key))] + (Lift(a) + Lift(b))
  {
    var l := Lift([A.TKey(key)] + a + b);
    var r := [Emit(A.TKey(key))] + (Lift(a) + Lift(b));
    assert |l| == |r|;
    forall k | 0 <= k < |l| ensures l[k] == r[k] {
      if k == 0 {
      } else if k <= |a| {
        assert ([A.TKey(key)] + a + b)[k] == a[k - 1];
      } else {
        assert ([A.TKey(key)] + a + b)[k] == b[k - 1 - |a|];
      }
    }
  }

  /** One step that continues hands over to the rest. */
  lemma RunCons(st: ParserState, t: L.Token, rest: seq<L.Token>, integerOf: L.NumberToken -> int)
    requires ParseStep(st, t, integerOf).Stepped? && ParseStep(st, t, integerOf).result == RRContinue
    ensures var r := ParseStep(st, t, integerOf);
      Run(st, [t] + rest, integerOf) == Prepend(r.emitted, r.errors, Run(r.state, rest, integerOf))
  {
    assert ([t] + rest)[0] == t && ([t] + rest)[1..] == rest;
  }

  /** A first part that runs cleanly leaves the rest to run from its final state. */
  lemma RunThen(st: ParserState, a: seq<L.Token>, b: seq<L.Token>, integerOf: L.NumberToken -> int,
                s: ParserState, e: seq<Emitted>)
    requires Run(st, a, integerOf) == Running(s, e, [])
    ensures Run(st, a + b, integerOf) == Prepend(e, [], Run(s, b, integerOf))
  {
    RunConcat(st, a, b, integerOf);
  }

  lemma PrependRunning(e1: seq<Emitted>, s: ParserState, e2: seq<Emitted>)
    ensures Prepend(e1, [], Running(s, e2, [])) == Running(s, e1 + e2, [])
  {
  }

  /**
   * A value placed where one is accepted is parsed without error into its
   * own event stream, and leaves the parser at the start position of the
   * same level.
   */
  lemma {:induction false} ValueParses(st: ParserState, v: A.Json, numberOf: int -> L.NumberToken,
                                      integerOf: L.NumberToken -> int)
    requires AcceptsValue(st) && NoneAbove(st) && NumbersRoundTrip(numberOf, integerOf)
    ensures Run(st, ValueTokens(v, numberOf), integerOf) == Running(st.(point := Begin), Lift(A.Events(v)), [])
    decreases A.Size(v), 2
  {
    match v
    case JArray(es) => ArrayParses(st, es, numberOf, integerOf);
    case JObject(ms) => ObjectParses(st, ms, numberOf, integerOf);
    case _ => ScalarParses(st, v, numberOf, integerOf);
  }

  lemma ScalarParses(st: ParserState, v: A.Json, numberOf: int -> L.NumberToken, integerOf: L.NumberToken -> int)
    requires AcceptsValue(st) && NumbersRoundTrip(numberOf, integerOf)
    requires !v.JArray? && !v.JObject?
    ensures Run(st, ValueTokens(v, numberOf), integerOf) == Running(st.(point := Begin), Lift(A.Events(v)), [])
  {
    if v.JInt? {
      assert !numberOf(v.i).isFloat && integerOf(numberOf(v.i)) == v.i;
    }
    var t := ValueTokens(v, numberOf)[0];
    assert ValueTokens(v, numberOf) == [t] + [];
    assert ParseStep(st, t, integerOf) == Stepped(st.(point := Begin), Lift(A.Events(v)), [], RRContinue);
    RunCons(st, t, [], integerOf);
  }

  lemma {:induction false} ArrayParses(st: ParserState, es: seq<A.Json>, numberOf: int -> L.NumberToken,
                                      integerOf: L.NumberToken -> int)
    requires AcceptsValue(st) && NoneAbove(st) && NumbersRoundTrip(numberOf, integerOf)
    ensures Run(st, ValueTokens(A.JArray(es), numberOf), integerOf)
         == Running(st.(point := Begin), Lift(A.Events(A.JArray(es))), [])
    decreases A.Size(A.JArray(es)), 1
  {
    var inner := EnterArray(st).(point := Begin);
    EnterExitLaws(st);
    Brackets(st, integerOf);
    ElementsParse(inner, es, false, numberOf, integerOf);
    ContainerParses(st, inner, OpenBracket, CloseBracket, ElementTokens(es, false, numberOf),
                    A.TOpenArray, A.ElementEvents(es), A.TCloseArray, integerOf);
    LiftWrap(A.TOpenArray, A.ElementEvents(es), A.TCloseArray);
  }

  lemma {:induction false} ObjectParses(st: ParserState, ms: seq<A.Member>, numberOf: int -> L.NumberToken,
                                       integerOf: L.NumberToken -> int)
    requires AcceptsValue(st) && NoneAbove(st) && NumbersRoundTrip(numberOf, integerOf)
    ensures Run(st, ValueTokens(A.JObject(ms), numberOf), integerOf)
         == Running(st.(point := Begin), Lift(A.Events(A.JObject(ms))), [])
    decreases A.Size(A.JObject(ms)), 1
  {
    var inner := EnterObject(st).(point := Begin);
    EnterExitLaws(st);
    Braces(st, integerOf);
    MembersParse(inner, ms, false, numberOf, integerOf);
    ContainerParses(st, inner, OpenBrace, CloseBrace, MemberTokens(ms, false, numberOf),
                    A.TOpenObject, A.MemberEvents(ms), A.TCloseObject, integerOf);
    LiftWrap(A.TOpenObject, A.MemberEvents(ms), A.TCloseObject);
  }

  /** Where a value is accepted, '[' opens an array cleanly and ']' closes it back. */
  lemma Brackets(st: ParserState, integerOf: L.NumberToken -> int)
    requires AcceptsValue(st) && NoneAbove(st)
    ensures var inner := EnterArray(st).(point := Begin);
      ParseStep(st, OpenBracket, integerOf) == Stepped(inner, [Emit(A.TOpenArray)], [], RRContinue) &&
      ParseStep(inner, CloseBracket, integerOf) == Stepped(st.(point := Begin), [Emit(A.TCloseArray)], [], RRContinue)
  {
    EnterExitLaws(st);
    assert ExitArray(EnterArray(st).(point := Begin)).0 == ExitArray(EnterArray(st)).0.(point := Begin);
  }

  lemma Braces(st: ParserState, integerOf: L.NumberToken -> int)
    requires AcceptsValue(st) && NoneAbove(st)
    ensures var inner := EnterObject(st).(point := Begin);
      ParseStep(st, OpenBrace, integerOf) == Stepped(inner, [Emit(A.TOpenObject)], [], RRContinue) &&
      ParseStep(inner, CloseBrace, integerOf) == Stepped(st.(point := Begin), [Emit(A.TCloseObject)], [], RRContinue)
  {
    EnterExitLaws(st);
    assert ExitObject(EnterObject(st).(point := Begin)).0 == ExitObject(EnterObject(st)).0.(point := Begin);
  }

  /** An opener, a body that runs cleanly inside, and the matching closer. */
  lemma ContainerParses(st: ParserState, inner: ParserState, open: L.Token, close: L.Token, body: seq<L.Token>,
                        openEvent: A.Token, events: seq<A.Token>, closeEvent: A.Token,
                        integerOf: L.NumberToken -> int)
    requires ParseStep(st, open, integerOf) == Stepped(inner, [Emit(openEvent)], [], RRContinue)
    requires Run(inner, body, integerOf) == Running(inner, Lift(events), [])
    requires ParseStep(inner, close, integerOf) == Stepped(st.(point := Begin), [Emit(closeEvent)], [], RRContinue)
    ensures Run(st, [open] + (body + [close]), integerOf)
         == Running(st.(point := Begin), [Emit(openEvent)] + Lift(events) + [Emit(closeEvent)], [])
  {
    var end := st.(point := Begin);
    var closing := [Emit(closeEvent)];
    assert Run(inner, [close], integerOf) == Running(end, closing, []) by {
      RunCons(inner, close, [], integerOf);
      assert closing + [] == closing;
    }
    assert Run(inner, body + [close], integerOf) == Running(end, Lift(events) + closing, []) by {
      RunThen(inner, body, [close], integerOf, inner, Lift(events));
    }
    RunCons(st, open, body + [close], integerOf);
    Assoc([Emit(openEvent)], Lift(events), closing);
  }

  lemma {:induction false} ElementsParse(st: ParserState, es: seq<A.Json>, sep: bool,
                                         numberOf: int -> L.NumberToken, integerOf: L.NumberToken -> int)
    requires IsInArray(st) && st.point == Begin && NoneAbove(st) && NumbersRoundTrip(numberOf, integerOf)
    ensures Run(st, ElementTokens(es, sep, numberOf), integerOf) == Running(st, Lift(A.ElementEvents(es)), [])
    decreases A.SizeOfValues(es), 1
  {
    if es != [] {
      var head := ValueTokens(es[0], numberOf);
      var tail := ElementTokens(es[1..], true, numberOf);
      var e0 := Lift(A.Events(es[0]));
      var e1 := Lift(A.ElementEvents(es[1..]));
      ValueParses(st, es[0], numberOf, integerOf);
      assert st.(point := Begin) == st;
      ElementsParse(st, es[1..], true, numberOf, integerOf);
      RunThen(st, head, tail, integerOf, st, e0);
      PrependRunning(e0, st, e1);
      LiftConcat(A.Events(es[0]), A.ElementEvents(es[1..]));
      assert Run(st, head + tail, integerOf) == Running(st, Lift(A.ElementEvents(es)), []);
      if sep {
        CommaSteps(st, head + tail, integerOf);
      } else {
        assert ElementTokens(es, sep, numberOf) == [] + (head + tail) == head + tail;
      }
    }
  }

  /** A comma at the start position changes nothing. */
  lemma CommaSteps(st: ParserState, rest: seq<L.Token>, integerOf: L.NumberToken -> int)
    requires st.point == Begin
    ensures Run(st, [Comma] + rest, integerOf) == Run(st, rest, integerOf)
  {
    assert ParseStep(st, Comma, integerOf) == Stepped(st, [], [], RRContinue);
    RunCons(st, Comma, rest, integerOf);
    var o := Run(st, rest, integerOf);
    assert Prepend([], [], o) == o;
  }

  /** A key and its colon emit the key and leave the parser after the colon. */
  lemma KeySteps(st: ParserState, key: string, rest: seq<L.Token>, integerOf: L.NumberToken -> int)
    requires IsInObject(st) && st.point == Begin
    ensures Run(st, [StringToken(key), Colon] + rest, integerOf)
         == Prepend([Emit(A.TKey(key))], [], Run(st.(point := AfterColon), rest, integerOf))
  {
    assert ParseStep(st, StringToken(key), integerOf) == Stepped(st.(point := AfterKey), [Emit(A.TKey(key))], [], RRContinue);
    assert ParseStep(st.(point := AfterKey), Colon, integerOf) == Stepped(st.(point := AfterColon), [], [], RRContinue);
    assert [StringToken(key), Colon] + rest == [StringToken(key)] + ([Colon] + rest);
    RunCons(st, StringToken(key), [Colon] + rest, integerOf);
    RunCons(st.(point := AfterKey), Colon, rest, integerOf);
    var o := Run(st.(point := AfterColon), rest, integerOf);
    assert Prepend([], [], o) == o;
  }

  lemma {:induction false} MembersParse(st: ParserState, ms: seq<A.Member>, sep: bool,
                                        numberOf: int -> L.NumberToken, integerOf: L.NumberToken -> int)
    requires IsInObject(st) && st.point == Begin && NoneAbove(st) && NumbersRoundTrip(numberOf, integerOf)
    ensures Run(st, MemberTokens(ms, sep, numberOf), integerOf) == Running(st, Lift(A.MemberEvents(ms)), [])
    decreases A.SizeOfMembers(ms), 1
  {
    if ms != [] {
      var head := ValueTokens(ms[0].value, numberOf);
      var tail := MemberTokens(ms[1..], true, numberOf);
      ValueParses(st.(point := AfterColon), ms[0].value, numberOf, integerOf);
      assert st.(point := AfterColon).(point := Begin) == st;
      MembersParse(st, ms[1..], true, numberOf, integerOf);
      OneMember(st, ms[0].key, head, tail, Lift(A.Events(ms[0].value)), Lift(A.MemberEvents(ms[1..])), integerOf);
      LiftMember(ms[0].key, A.Events(ms[0].value), A.MemberEvents(ms[1..]));
      var keyed := [StringToken(ms[0].key), Colon] + (head + tail);
      if sep {
        CommaSteps(st, keyed, integerOf);
      } else {
        assert MemberTokens(ms, sep, numberOf) == [] + keyed == keyed;
      }
    }
  }

  /** A key, its colon, a value that parses cleanly, then further members that do. */
  lemma OneMember(st: ParserState, key: string, head: seq<L.Token>, tail: seq<L.Token>,
                  e0: seq<Emitted>, e1: seq<Emitted>, integerOf: L.NumberToken -> int)
    requires IsInObject(st) && st.point == Begin
    requires Run(st.(point := AfterColon), head, integerOf) == Running(st, e0, [])
    requires Run(st, tail, integerOf) == Running(st, e1, [])
    ensures Run(st, [StringToken(key), Colon] + (head + tail), integerOf) == Running(st, [Emit(A.TKey(key))] + (e0 + e1), [])
  {
    RunThen(st.(point := AfterColon), head, tail, integerOf, st, e0);
    PrependRunning(e0, st, e1);
    KeySteps(st, key, head + tail, integerOf);
    PrependRunning([Emit(A.TKey(key))], st, e0 + e1);
  }

  /** A step that closes the outermost container finishes the run with the rest unread. */
  lemma ContainerFinishes(st: ParserState, inner: ParserState, open: L.Token, close: L.Token, body: seq<L.Token>,
                          rest: seq<L.Token>, openEvent: A.Token, events: seq<A.Token>, closeEvent: A.Token,
                          integerOf: L.NumberToken -> int)
    requires ParseStep(st, open, integerOf) == Stepped(inner, [Emit(openEvent)], [], RRContinue)
    requires Run(inner, body, integerOf) == Running(inner, Lift(events), [])
    requires ParseStep(inner, close, integerOf) == Stepped(st, [Emit(closeEvent)], [], RRFinished)
    ensures Run(st, [open] + (body + [close]) + rest, integerOf)
         == Stopped(st, [Emit(openEvent)] + Lift(events) + [Emit(closeEvent)], [], rest)
  {
    var closing := [Emit(closeEvent)];
    assert Run(inner, [close] + rest, integerOf) == Stopped(st, closing, [], rest) by {
      RunFinishing(inner, close, rest, integerOf);
    }
    assert Run(inner, body + ([close] + rest), integerOf) == Stopped(st, Lift(events) + closing, [], rest) by {
      RunThen(inner, body, [close] + rest, integerOf, inner, Lift(events));
    }
    Nest([open], body, [close], rest);
    RunCons(st, open, body + ([close] + rest), integerOf);
    Assoc([Emit(openEvent)], Lift(events), closing);
  }

  /** A token that finishes the document stops the run before the tokens after it. */
  lemma RunFinishing(st: ParserState, t: L.Token, rest: seq<L.Token>, integerOf: L.NumberToken -> int)
    requires ParseStep(st, t, integerOf).Stepped? && ParseStep(st, t, integerOf).result == RRFinished
    ensures var r := ParseStep(st, t, integerOf);
      Run(st, [t] + rest, integerOf) == Stopped(r.state, r.emitted, r.errors, rest)
  {
    assert ([t] + rest)[0] == t && ([t] + rest)[1..] == rest;
  }

  lemma Nest<T>(a: seq<T>, b: seq<T>, c: seq<T>, d: seq<T>)
    ensures a + (b + c) + d == a + (b + (c + d))
  {
  }

  lemma Assoc<T>(a: seq<T>, b: seq<T>, c: seq<T>)
    ensures a + (b + c) == a + b + c
  {
  }

  /**
   * A document that is an array or an object, followed by anything, is
   * parsed without error into its own event stream; the run stops right
   * after its closing token with the parser back in its initial state.
   */
  lemma DocumentParses(v: A.Json, rest: seq<L.Token>, numberOf: int -> L.NumberToken, integerOf: L.NumberToken -> int)
    requires (v.JArray? || v.JObject?) && NumbersRoundTrip(numberOf, integerOf)
    ensures Run(InitialParser(), ValueTokens(v, numberOf) + rest, integerOf)
         == Stopped(InitialParser(), Lift(A.Events(v)), [], rest)
  {
    if v.JArray? {
      ArrayDocument(v.elements, rest, numberOf, integerOf);
    } else {
      ObjectDocument(v.members, rest, numberOf, integerOf);
    }
  }

  lemma ArrayDocument(es: seq<A.Json>, rest: seq<L.Token>, numberOf: int -> L.NumberToken, integerOf: L.NumberToken -> int)
    requires NumbersRoundTrip(numberOf, integerOf)
    ensures Run(InitialParser(), ValueTokens(A.JArray(es), numberOf) + rest, integerOf)
         == Stopped(InitialParser(), Lift(A.Events(A.JArray(es))), [], rest)
  {
    var st := InitialParser();
    var inner := EnterArray(st).(point := Begin);
    EnterExitLaws(st);
    assert ExitArray(inner).0 == st;
    ElementsParse(inner, es, false, numberOf, integerOf);
    ContainerFinishes(st, inner, OpenBracket, CloseBracket, ElementTokens(es, false, numberOf), rest,
                      A.TOpenArray, A.ElementEvents(es), A.TCloseArray, integerOf);
    LiftWrap(A.TOpenArray, A.ElementEvents(es), A.TCloseArray);
  }

  lemma ObjectDocument(ms: seq<A.Member>, rest: seq<L.Token>, numberOf: int -> L.NumberToken, integerOf: L.NumberToken -> int)
    requires NumbersRoundTrip(numberOf, integerOf)
    ensures Run(InitialParser(), ValueTokens(A.JObject(ms), numberOf) + rest, integerOf)
         == Stopped(InitialParser(), Lift(A.Events(A.JObject(ms))), [], rest)
  {
    var st := InitialParser();
    var inner := EnterObject(st).(point := Begin);
    EnterExitLaws(st);
    assert ExitObject(inner).0 == st;
    MembersParse(inner, ms, false, numberOf, integerOf);
    ContainerFinishes(st, inner, OpenBrace, CloseBrace, MemberTokens(ms, false, numberOf), rest,
                      A.TOpenObject, A.MemberEvents(ms), A.TCloseObject, integerOf);
    LiftWrap(A.TOpenObject, A.MemberEvents(ms), A.TCloseObject);
  }

  // ---------------------------------------------------------------------
  // Skipping one value of an event stream (CommonParser::SkipNode)

  function After(n: nat, o: Option<nat>): Option<nat>
  {
    match o
    case Some(k) => Some(k + n)
    case None => None
  }

  /**
   * SkipNode::skip over a stream: opens count up, closes count down, and
   * the rule is reduced by the close that brings the counter back to 0.
   * The result is the number of events consumed, or None when the stream
   * ends first.
   */
  function SkipFrom(counter: int, es: seq<A.Token>): Option<nat>
    decreases |es|
  {
    if es == [] then None
    else
      var next := counter + A.TokenWeight(es[0]);
      if A.TokenWeight(es[0]) < 0 && next == 0 then Some(1)
      else After(1, SkipFrom(next, es[1..]))
  }

  /** What a skip consumes is a non-empty prefix that brings the counter back to 0. */
  lemma {:induction false} SkipBalances(counter: int, es: seq<A.Token>)
    ensures var r := SkipFrom(counter, es);
      r.Some? ==> 1 <= r.value <= |es| && counter + A.Balance(es[..r.value]) == 0
    decreases |es|
  {
    if es != [] {
      var next := counter + A.TokenWeight(es[0]);
      if A.TokenWeight(es[0]) < 0 && next == 0 {
        assert es[..1][1..] == [];
      } else {
        SkipBalances(next, es[1..]);
        var r := SkipFrom(next, es[1..]);
        if r.Some? {
          assert es[..r.value + 1][1..] == es[1..][..r.value];
        }
      }
    }
  }

  /** skipNode: only an open event starts a skip, from a counter of 0. */
  function SkipNode(es: seq<A.Token>): (r: Option<nat>)
    ensures r.Some? ==> 1 <= r.value <= |es| && A.Balance(es[..r.value]) == 0 && A.TokenWeight(es[0]) == 1
    ensures es == [] || A.TokenWeight(es[0]) != 1 ==> r.None?
  {
    SkipBalances(0, es);
    if es != [] && A.TokenWeight(es[0]) == 1 then SkipFrom(0, es) else None
  }

  lemma AfterAfter(a: nat, b: nat, o: Option<nat>)
    ensures After(a, After(b, o)) == After(a + b, o)
  {
  }

  /** Within an open container, the events of one value pass without reducing. */
  lemma {:induction false} SkipValue(c: int, v: A.Json, rest: seq<A.Token>)
    requires c >= 1
    ensures SkipFrom(c, A.Events(v) + rest) == After(|A.Events(v)|, SkipFrom(c, rest))
    decreases A.Size(v), 1
  {
    match v
    case JArray(es) =>
      assert A.Events(v) == [A.TOpenArray] + A.ElementEvents(es) + [A.TCloseArray];
      SkipArray(c, es, rest);
    case JObject(ms) =>
      assert A.Events(v) == [A.TOpenObject] + A.MemberEvents(ms) + [A.TCloseObject];
      SkipObject(c, ms, rest);
    case _ =>
      SkipScalar(c, v, rest);
  }

  lemma {:induction false} SkipArray(c: int, es: seq<A.Json>, rest: seq<A.Token>)
    requires c >= 1
    ensures var events := [A.TOpenArray] + A.ElementEvents(es) + [A.TCloseArray];
      SkipFrom(c, events + rest) == After(|events|, SkipFrom(c, rest))
    decreases A.SizeOfValues(es), 1
  {
    SkipElements(c + 1, es, [A.TCloseArray] + rest);
    SkipContainer(c, A.TOpenArray, A.ElementEvents(es), A.TCloseArray, rest);
  }

  lemma {:induction false} SkipObject(c: int, ms: seq<A.Member>, rest: seq<A.Token>)
    requires c >= 1
    ensures var events := [A.TOpenObject] + A.MemberEvents(ms) + [A.TCloseObject];
      SkipFrom(c, events + rest) == After(|events|, SkipFrom(c, rest))
    decreases A.SizeOfMembers(ms), 1
  {
    SkipMembers(c + 1, ms, [A.TCloseObject] + rest);
    SkipContainer(c, A.TOpenObject, A.MemberEvents(ms), A.TCloseObject, rest);
  }

  lemma SkipScalar(c: int, v: A.Json, rest: seq<A.Token>)
    requires c >= 1 && A.IsScalar(v)
    ensures SkipFrom(c, A.Events(v) + rest) == After(|A.Events(v)|, SkipFrom(c, rest))
  {
    assert A.Events(v) == [A.Events(v)[0]];
    SkipNeutral(c, A.Events(v)[0], rest);
  }

  lemma SkipContainer(c: int, open: A.Token, body: seq<A.Token>, close: A.Token, rest: seq<A.Token>)
    requires c >= 1 && A.TokenWeight(open) == 1 && A.TokenWeight(close) == -1
    requires SkipFrom(c + 1, body + ([close] + rest)) == After(|body|, SkipFrom(c + 1, [close] + rest))
    ensures SkipFrom(c, [open] + body + [close] + rest) == After(|[open] + body + [close]|, SkipFrom(c, rest))
  {
    var all := [open] + body + [close] + rest;
    assert all[0] == open && all[1..] == body + ([close] + rest);
    assert ([close] + rest)[0] == close && ([close] + rest)[1..] == rest;
    assert SkipFrom(c + 1, [close] + rest) == After(1, SkipFrom(c, rest));
    AfterAfter(|body|, 1, SkipFrom(c, rest));
    AfterAfter(1, |body| + 1, SkipFrom(c, rest));
  }

  lemma {:induction false} SkipElements(c: int, es: seq<A.Json>, rest: seq<A.Token>)
    requires c >= 1
    ensures SkipFrom(c, A.ElementEvents(es) + rest) == After(|A.ElementEvents(es)|, SkipFrom(c, rest))
    decreases A.SizeOfValues(es), 0
  {
    if es == [] {
      assert A.ElementEvents(es) + rest == rest;
    } else {
      var value := A.Events(es[0]);
      var tail := A.ElementEvents(es[1..]);
      var events := A.ElementEvents(es);
      assert events == value + tail;
      assert SkipFrom(c, value + tail + rest) == After(|value| + |tail|, SkipFrom(c, rest)) by {
        SkipElements(c, es[1..], rest);
        SkipValue(c, es[0], tail + rest);
        SkipElement(c, value, tail, rest);
      }
    }
  }

  lemma {:induction false} SkipMembers(c: int, ms: seq<A.Member>, rest: seq<A.Token>)
    requires c >= 1
    ensures SkipFrom(c, A.MemberEvents(ms) + rest) == After(|A.MemberEvents(ms)|, SkipFrom(c, rest))
    decreases A.SizeOfMembers(ms), 0
  {
    if ms == [] {
      assert A.MemberEvents(ms) + rest == rest;
    } else {
      var value := A.Events(ms[0].value);
      var tail := A.MemberEvents(ms[1..]);
      var events := A.MemberEvents(ms);
      assert events == [A.TKey(ms[0].key)] + value + tail;
      assert SkipFrom(c, [A.TKey(ms[0].key)] + value + tail + rest) == After(1 + |value| + |tail|, SkipFrom(c, rest)) by {
        SkipMembers(c, ms[1..], rest);
        SkipValue(c, ms[0].value, tail + rest);
        SkipMember(c, ms[0].key, value, tail, rest);
      }
    }
  }

  /** A value and the elements after it, each skipped over at the same depth. */
  lemma SkipElement(c: int, value: seq<A.Token>, tail: seq<A.Token>, rest: seq<A.Token>)
    requires SkipFrom(c, value + (tail + rest)) == After(|value|, SkipFrom(c, tail + rest))
    requires SkipFrom(c, tail + rest) == After(|tail|, SkipFrom(c, rest))
    ensures SkipFrom(c, value + tail + rest) == After(|value| + |tail|, SkipFrom(c, rest))
  {
    assert value + tail + rest == value + (tail + rest);
    AfterAfter(|value|, |tail|, SkipFrom(c, rest));
  }

  /** A key, then a value and the members after it, each skipped over at the same depth. */
  lemma SkipMember(c: int, key: string, value: seq<A.Token>, tail: seq<A.Token>, rest: seq<A.Token>)
    requires SkipFrom(c, value + (tail + rest)) == After(|value|, SkipFrom(c, tail + rest))
    requires SkipFrom(c, tail + rest) == After(|tail|, SkipFrom(c, rest))
    ensures SkipFrom(c, [A.TKey(key)] + value + tail + rest) == After(1 + |value| + |tail|, SkipFrom(c, rest))
  {
    Regroup([A.TKey(key)], value, tail, rest);
    SkipNeutral(c, A.TKey(key), value + (tail + rest));
    AfterAfter(|value|, |tail|, SkipFrom(c, rest));
    AfterAfter(1, |value| + |tail|, SkipFrom(c, rest));
  }

  lemma Regroup<T>(a: seq<T>, b: seq<T>, c: seq<T>, d: seq<T>)
    ensures a + b + c + d == a + (b + (c + d))
  {
  }

  /** An event that neither opens nor closes passes over. */
  lemma SkipNeutral(c: int, t: A.Token, rest: seq<A.Token>)
    requires A.TokenWeight(t) == 0
    ensures SkipFrom(c, [t] + rest) == After(1, SkipFrom(c, rest))
  {
    assert ([t] + rest)[0] == t && ([t] + rest)[1..] == rest;
  }

  /** skipNode at the start of an array or object consumes exactly the events of that value. */
  lemma SkipsOneValue(v: A.Json, rest: seq<A.Token>)
    requires v.JArray? || v.JObject?
    ensures SkipNode(A.Events(v) + rest) == Some(|A.Events(v)|)
  {
    var all := A.Events(v) + rest;
    if v.JArray? {
      SkipElements(1, v.elements, [A.TCloseArray] + rest);
      SkipCloses(A.TOpenArray, A.ElementEvents(v.elements), A.TCloseArray, rest);
    } else {
      SkipMembers(1, v.members, [A.TCloseObject] + rest);
      SkipCloses(A.TOpenObject, A.MemberEvents(v.members), A.TCloseObject, rest);
    }
  }

  lemma SkipCloses(open: A.Token, body: seq<A.Token>, close: A.Token, rest: seq<A.Token>)
    requires A.TokenWeight(open) == 1 && A.TokenWeight(close) == -1
    requires SkipFrom(1, body + ([close] + rest)) == After(|body|, SkipFrom(1, [close] + rest))
    ensures SkipFrom(0, [open] + body + [close] + rest) == Some(|[open] + body + [close]|)
  {
    var all := [open] + body + [close] + rest;
    assert all[0] == open && all[1..] == body + ([close] + rest);
    assert ([close] + rest)[0] == close;
  }

  // ---------------------------------------------------------------------
  // Reading back the writer's text for an array of two nulls

  /** The word after '[' in "[nullnull]" is not a bare word the lexer accepts. */
  lemma FusedWordThrows(s: string, p: L.Position, codes: L.NumberCodes)
    requires s == "[nullnull]" && L.WellFormedCodes(codes)
    ensures L.ReadMain(s, 1, p, codes) == L.LexThrown
  {
    assert L.SkipWhitespace(s, 1, p) == (1, p);
    assert L.ScanWord(s, 1) == 9 by {
      assert L.ScanWord(s, 9) == 9;
      assert forall k :: 1 <= k < 9 ==> L.IsWordChar(s[k]);
    }
    assert |s[1..9]| == 8;
  }

  /**
   * The text the writer as written gives for an array of two nulls does
   * not read back: the lexer throws on the fused word.
   */
  lemma FusedNullsDoNotReadBack(codes: L.NumberCodes, integerOf: L.NumberToken -> int)
    requires L.WellFormedCodes(codes)
    ensures ParseText("[nullnull]", codes, integerOf) == DocumentThrown
  {
    var s := "[nullnull]";
    var p := L.Position(1, 1);
    assert L.SkipWhitespace(s, 0, p) == (0, p);
    var q := p.(column := 2);
    assert L.ReadMain(s, 0, p, codes) == L.LexToken(OpenBracket, 1, q);
    FusedWordThrows(s, q, codes);
    assert L.Tokenize(s, 1, q, codes) == ([], L.LexThrown);
    assert [OpenBracket] + [] == [OpenBracket];
    assert L.Tokenize(s, 0, p, codes) == ([OpenBracket], L.LexThrown);
    RunCons(InitialParser(), OpenBracket, [], integerOf);
  }
}
