/**
 * The event record that the JSON parser hands to every reader
 * (CommonParser::Arguments): the event kind and its predicates, the
 * diagnostics accumulator with its error cap, the local stack-height
 * counter, and the conversion of a scalar event to an int.
 *
 * Also the parsed value of a complete document, which the object readers
 * of the contract model consume.
 */
module JsonArguments {
  import opened Wrappers

  /** Event kinds, in the source's declaration order. */
  datatype Event =
    | EUndefined | EOpenObject | EAddKey | ESetString | ESetBool | ESetNumeric | ESetInt
    | ESetUInt | ESetLInt | ESetLUInt | ESetNull | EOpenArray | ECloseArray | ECloseObject

  /** Position of an event in the enumeration. */
  function Ordinal(e: Event): (n: nat)
    ensures n < 14
  {
    match e
    case EUndefined => 0   case EOpenObject => 1  case EAddKey => 2
    case ESetString => 3   case ESetBool => 4     case ESetNumeric => 5
    case ESetInt => 6      case ESetUInt => 7     case ESetLInt => 8
    case ESetLUInt => 9    case ESetNull => 10    case EOpenArray => 11
    case ECloseArray => 12 case ECloseObject => 13
  }

  predicate HasEvent(e: Event)  { e != EUndefined }
  predicate IsOpen(e: Event)    { e == EOpenObject || e == EOpenArray }
  predicate IsClose(e: Event)   { e == ECloseObject || e == ECloseArray }
  /** The scalar events form the contiguous range ESetString..ESetNull. */
  predicate IsSetValue(e: Event) { 3 <= Ordinal(e) <= 10 }

  /** Every event other than EUndefined falls in exactly one of the four groups. */
  lemma EventGroupsPartition(e: Event)
    ensures HasEvent(e) <==>
      (IsOpen(e) || IsClose(e) || e == EAddKey || IsSetValue(e))
    ensures !(IsOpen(e) && IsClose(e))
    ensures IsSetValue(e) ==> !IsOpen(e) && !IsClose(e) && e != EAddKey
    ensures IsSetValue(e) <==>
      e in {ESetString, ESetBool, ESetNumeric, ESetInt, ESetUInt, ESetLInt, ESetLUInt, ESetNull}
  {
  }

  // ---------------------------------------------------------------------
  // Diagnostics

  /** Number of recorded errors after which readers are told to stop. */
  const MaxErrors: int := 20

  datatype ErrorMessage = ErrorMessage(message: string, line: nat, column: nat)

  /**
   * The diagnostic part of the Arguments record: the optional error list
   * (a null pointer is None), the error counter, the stop-on-error flag
   * and the optional line/column cells the lexer updates.
   */
  datatype Diagnostics = Diagnostics(
    messages: Option<seq<ErrorMessage>>,
    count: int,
    stopOnError: bool,
    line: Option<nat>,
    column: Option<nat>)

  /** An empty accumulator that keeps messages and does not stop early. */
  function Fresh(): (d: Diagnostics)
    ensures d.messages == Some([]) && d.count == 0 && !d.stopOnError
  {
    Diagnostics(Some([]), 0, false, None, None)
  }

  predicate DoesStopAfterTooManyErrors(d: Diagnostics) {
    d.stopOnError || d.messages.None? || d.count >= MaxErrors
  }

  datatype Logged = Logged(diag: Diagnostics, proceed: bool)

  /**
   * Records one error. The counter always grows by one; the message is
   * appended with the current line and column (0 when unset) if a list
   * exists; the result tells the reader whether it may go on.
   */
  function AddErrorMessage(d: Diagnostics, message: string): (r: Logged)
    ensures r.diag.count == d.count + 1
    ensures r.diag.stopOnError == d.stopOnError
    ensures r.diag.line == d.line && r.diag.column == d.column
    ensures d.messages.None? ==> r.diag.messages.None?
    ensures d.messages.Some? ==>
      r.diag.messages.Some? &&
      r.diag.messages.value ==
        d.messages.value + [ErrorMessage(message, d.line.GetOr(0), d.column.GetOr(0))]
    ensures r.proceed <==>
      (!d.stopOnError && d.messages.Some? && d.count + 1 < MaxErrors)
  {
    var messages :=
      match d.messages
      case None => None
      case Some(list) =>
        Some(list + [ErrorMessage(message, d.line.GetOr(0), d.column.GetOr(0))]);
    var d' := d.(messages := messages, count := d.count + 1);
    Logged(d', !DoesStopAfterTooManyErrors(d'))
  }

  /** Records the messages in order; proceed reports the last call's answer. */
  function AddErrorMessages(d: Diagnostics, messages: seq<string>): (r: Logged)
    requires |messages| > 0
    decreases |messages|
  {
    var first := AddErrorMessage(d, messages[0]);
    if |messages| == 1 then first else AddErrorMessages(first.diag, messages[1..])
  }

  /**
   * Starting from an empty accumulator, n errors are counted and kept in
   * order, and the reader is still allowed to go on exactly when fewer
   * than 20 errors have been recorded.
   */
  lemma {:induction false} ErrorCapAfterMessages(d: Diagnostics, messages: seq<string>)
    requires |messages| > 0
    requires d.messages.Some? && !d.stopOnError && d.count >= 0
    ensures AddErrorMessages(d, messages).diag.count == d.count + |messages|
    ensures AddErrorMessages(d, messages).diag.messages.Some?
    ensures |AddErrorMessages(d, messages).diag.messages.value|
            == |d.messages.value| + |messages|
    ensures forall i :: 0 <= i < |messages| ==>
      AddErrorMessages(d, messages).diag.messages.value[|d.messages.value| + i].message
        == messages[i]
    ensures AddErrorMessages(d, messages).proceed <==> d.count + |messages| < MaxErrors
    decreases |messages|
  {
    var first := AddErrorMessage(d, messages[0]);
    if |messages| > 1 {
      ErrorCapAfterMessages(first.diag, messages[1..]);
      var r := AddErrorMessages(first.diag, messages[1..]);
      assert r == AddErrorMessages(d, messages);
      forall i | 0 <= i < |messages|
        ensures r.diag.messages.value[|d.messages.value| + i].message == messages[i]
      {
        if i > 0 {
          assert |first.diag.messages.value| + (i - 1) == |d.messages.value| + i;
          assert messages[1..][i - 1] == messages[i];
        } else {
          assert r.diag.messages.value[|d.messages.value|]
              == first.diag.messages.value[|d.messages.value|] by {
            PrefixKept(first.diag, messages[1..]);
          }
        }
      }
    }
  }

  /** Recording errors never rewrites messages already recorded. */
  lemma {:induction false} PrefixKept(d: Diagnostics, messages: seq<string>)
    requires |messages| > 0
    requires d.messages.Some?
    ensures AddErrorMessages(d, messages).diag.messages.Some?
    ensures d.messages.value <= AddErrorMessages(d, messages).diag.messages.value
    decreases |messages|
  {
    if |messages| > 1 {
      PrefixKept(AddErrorMessage(d, messages[0]).diag, messages[1..]);
    }
  }

  // ---------------------------------------------------------------------
  // Local stack height

  /** The height is valid while it stays within 0..7. */
  predicate IsValidRange(height: int) { 0 <= height <= 7 }

  function Shift(height: int): (r: int)
    ensures r > height
  { height + 1 }

  /** reduce demands a non-negative height before decrementing. */
  function Reduce(height: int): (r: int)
    requires height >= 0
    ensures r < height
  { height - 1 }

  function ClearRange(height: int): (r: int)
    ensures IsValidRange(r)
  { 0 }

  function ShiftTimes(height: int, n: nat): (r: int)
    decreases n
  { if n == 0 then height else ShiftTimes(Shift(height), n - 1) }

  /** After a clear, n nested shifts stay within range exactly when n <= 7. */
  lemma {:induction false} ShiftsFromClearedRange(height: int, n: nat)
    ensures ShiftTimes(ClearRange(height), n) == n
    ensures IsValidRange(ShiftTimes(ClearRange(height), n)) <==> n <= 7
  {
    ShiftTimesAdds(0, n);
  }

  lemma {:induction false} ShiftTimesAdds(height: int, n: nat)
    ensures ShiftTimes(height, n) == height + n
    decreases n
  {
    if n > 0 { ShiftTimesAdds(height + 1, n - 1); }
  }

  // ---------------------------------------------------------------------
  // Integer conversion

  /** The int cell of the value union: signed 32-bit. */
  predicate IsInt32(x: int) { -0x8000_0000 <= x < 0x8000_0000 }

  /** Conversion of a wider integer to a C int: keep the low 32 bits, signed. */
  function ToInt32(x: int): (r: int)
    ensures IsInt32(r)
    ensures (r - x) % 0x1_0000_0000 == 0
  {
    (x + 0x8000_0000) % 0x1_0000_0000 - 0x8000_0000
  }

  lemma ToInt32Identity(x: int)
    requires IsInt32(x)
    ensures ToInt32(x) == x
  {
  }

  /**
   * What the content reader yields for a pending numeric token: an integer
   * or a float already truncated towards zero.
   */
  datatype NumericRead = IntegerRead(value: int) | FloatRead(truncated: int)

  /**
   * The event record. The value union is kept as the mathematical value of
   * whichever member is live; flag is the bool member.
   */
  datatype Arguments = Arguments(event: Event, key: string, text: string, flag: bool, number: int)

  function ConvertedNumber(a: Arguments): int
    requires a.event in {ESetInt, ESetUInt, ESetLInt, ESetLUInt, ESetNull, ESetBool}
  {
    match a.event
    case ESetUInt => ToInt32(a.number)
    case ESetLInt => ToInt32(a.number)
    case ESetLUInt => ToInt32(a.number)
    case ESetNull => 0
    case ESetBool => if a.flag then 1 else 0
    case _ => a.number
  }

  datatype Converted = Converted(args: Arguments, diag: Diagnostics)

  /**
   * convertReaderToInt. Integer-like events and null/bool become ESetInt;
   * a pending numeric token is read through the content reader; anything
   * else records "int value expected" and yields 0.
   */
  function ConvertReaderToInt(a: Arguments, d: Diagnostics, numeric: NumericRead): (r: Converted)
    ensures r.args.event == ESetInt
    ensures r.args.key == a.key && r.args.text == a.text
    ensures a.event == ESetInt ==> r.args == a && r.diag == d
    ensures a.event == ESetNull ==> r.args.number == 0 && r.diag == d
    ensures a.event == ESetBool ==> r.args.number == (if a.flag then 1 else 0) && r.diag == d
    ensures a.event in {ESetUInt, ESetLInt, ESetLUInt} ==>
      r.args.number == ToInt32(a.number) && r.diag == d
    ensures a.event !in {ESetInt, ESetUInt, ESetLInt, ESetLUInt, ESetNull, ESetBool, ESetNumeric} ==>
      r.args.number == 0 && r.diag == AddErrorMessage(d, "int value expected").diag
    ensures a.event == ESetNumeric && numeric.FloatRead? ==>
      r.args.number == ToInt32(numeric.truncated)
      && r.diag == AddErrorMessage(d, "int value expected (not float)").diag
    ensures a.event == ESetNumeric && numeric.IntegerRead? ==>
      r.args.number == ToInt32(numeric.value) && r.diag == d
  {
    if a.event in {ESetInt, ESetUInt, ESetLInt, ESetLUInt, ESetNull, ESetBool} then
      Converted(a.(event := ESetInt, number := ConvertedNumber(a)), d)
    else if a.event != ESetNumeric then
      Converted(a.(event := ESetInt, number := 0),
                AddErrorMessage(d, "int value expected").diag)
    else
      match numeric
      case FloatRead(t) =>
        Converted(a.(event := ESetInt, number := ToInt32(t)),
                  AddErrorMessage(d, "int value expected (not float)").diag)
      case IntegerRead(v) =>
        Converted(a.(event := ESetInt, number := ToInt32(v)), d)
  }

  /** Converting twice is converting once: the result is already an int event. */
  lemma ConvertIdempotent(a: Arguments, d: Diagnostics, numeric: NumericRead, numeric': NumericRead)
    ensures var r := ConvertReaderToInt(a, d, numeric);
            ConvertReaderToInt(r.args, r.diag, numeric') == r
  {
  }

  // ---------------------------------------------------------------------
  // Parsed values

  /**
   * The value a complete JSON document denotes once the full-token parser
   * has delivered its events. Numbers arrive as ints (addInt).
   */
  datatype Json =
    | JNull
    | JBool(b: bool)
    | JInt(i: int)
    | JString(s: string)
    | JArray(elements: seq<Json>)
    | JObject(members: seq<Member>)

  datatype Member = Member(key: string, value: Json)

  predicate IsScalar(v: Json) { !v.JArray? && !v.JObject? }

  /** The event a scalar value is delivered as. */
  function ScalarEvent(v: Json): (a: Arguments)
    requires IsScalar(v)
    ensures IsSetValue(a.event)
  {
    match v
    case JNull => Arguments(ESetNull, "", "", false, 0)
    case JBool(b) => Arguments(ESetBool, "", "", b, 0)
    case JInt(i) => Arguments(ESetInt, "", "", false, ToInt32(i))
    case JString(s) => Arguments(ESetString, "", s, false, 0)
  }

  /** The int a reader obtains from a scalar through convertReaderToInt. */
  function ScalarToInt(v: Json, d: Diagnostics): (r: Converted)
    requires IsScalar(v)
    ensures r.args.event == ESetInt
    ensures v.JInt? ==> r.args.number == ToInt32(v.i) && r.diag == d
    ensures v.JString? ==> r.args.number == 0 && r.diag.count == d.count + 1
  {
    ConvertReaderToInt(ScalarEvent(v), d, IntegerRead(0))
  }

  /** Sum of the sizes of a sequence of values. */
  function SizeOfValues(vs: seq<Json>): nat
  {
    if vs == [] then 0 else 1 + Size(vs[0]) + SizeOfValues(vs[1..])
  }

  function SizeOfMembers(ms: seq<Member>): nat
  {
    if ms == [] then 0 else 1 + Size(ms[0].value) + SizeOfMembers(ms[1..])
  }

  /** Number of constructors in a value; used as a termination measure. */
  function Size(v: Json): nat
  {
    match v
    case JArray(es) => 1 + SizeOfValues(es)
    case JObject(ms) => 1 + SizeOfMembers(ms)
    case _ => 1
  }

  // ---------------------------------------------------------------------
  // Event streams

  /** An event with its payload, as delivered to a reader or by a writer. */
  datatype Token =
    | TOpenObject | TKey(key: string) | TString(text: string) | TBool(flag: bool)
    | TInt(number: int) | TNull | TOpenArray | TCloseArray | TCloseObject

  /** The event kind a token is delivered as. */
  function EventOf(t: Token): (e: Event)
    ensures HasEvent(e)
  {
    match t
    case TOpenObject => EOpenObject
    case TKey(_) => EAddKey
    case TString(_) => ESetString
    case TBool(_) => ESetBool
    case TInt(_) => ESetInt
    case TNull => ESetNull
    case TOpenArray => EOpenArray
    case TCloseArray => ECloseArray
    case TCloseObject => ECloseObject
  }

  /** The events a value is delivered as, in document order. */
  function Events(v: Json): (ts: seq<Token>)
    ensures |ts| > 0
    decreases Size(v), 1
  {
    match v
    case JNull => [TNull]
    case JBool(b) => [TBool(b)]
    case JInt(i) => [TInt(i)]
    case JString(s) => [TString(s)]
    case JArray(es) => [TOpenArray] + ElementEvents(es) + [TCloseArray]
    case JObject(ms) => [TOpenObject] + MemberEvents(ms) + [TCloseObject]
  }

  function ElementEvents(es: seq<Json>): seq<Token>
    decreases SizeOfValues(es), 0
  {
    if es == [] then [] else Events(es[0]) + ElementEvents(es[1..])
  }

  function MemberEvents(ms: seq<Member>): seq<Token>
    decreases SizeOfMembers(ms), 0
  {
    if ms == [] then []
    else [TKey(ms[0].key)] + Events(ms[0].value) + MemberEvents(ms[1..])
  }

  /** Opening tokens count +1, closing tokens -1, the others 0. */
  function TokenWeight(t: Token): int
  {
    if t == TOpenObject || t == TOpenArray then 1
    else if t == TCloseObject || t == TCloseArray then -1
    else 0
  }

  /** Nesting balance of a token stream: opens minus closes. */
  function Balance(ts: seq<Token>): int
  {
    if ts == [] then 0 else TokenWeight(ts[0]) + Balance(ts[1..])
  }

  lemma {:induction false} BalanceConcat(a: seq<Token>, b: seq<Token>)
    ensures Balance(a + b) == Balance(a) + Balance(b)
    decreases |a|
  {
    if a != [] {
      assert (a + b)[1..] == a[1..] + b;
      BalanceConcat(a[1..], b);
    } else {
      assert a + b == b;
    }
  }

  /** The event stream of every value closes each container it opens. */
  lemma {:induction false} EventsBalanced(v: Json)
    ensures Balance(Events(v)) == 0
    decreases Size(v), 1
  {
    match v
    case JArray(es) =>
      ElementEventsBalanced(es);
      BalanceConcat([TOpenArray], ElementEvents(es));
      BalanceConcat([TOpenArray] + ElementEvents(es), [TCloseArray]);
    case JObject(ms) =>
      MemberEventsBalanced(ms);
      BalanceConcat([TOpenObject], MemberEvents(ms));
      BalanceConcat([TOpenObject] + MemberEvents(ms), [TCloseObject]);
    case _ =>
  }

  lemma {:induction false} ElementEventsBalanced(es: seq<Json>)
    ensures Balance(ElementEvents(es)) == 0
    decreases SizeOfValues(es), 0
  {
    if es != [] {
      EventsBalanced(es[0]);
      ElementEventsBalanced(es[1..]);
      BalanceConcat(Events(es[0]), ElementEvents(es[1..]));
    }
  }

  lemma {:induction false} MemberEventsBalanced(ms: seq<Member>)
    ensures Balance(MemberEvents(ms)) == 0
    decreases SizeOfMembers(ms), 0
  {
    if ms != [] {
      EventsBalanced(ms[0].value);
      MemberEventsBalanced(ms[1..]);
      BalanceConcat([TKey(ms[0].key)], Events(ms[0].value));
      BalanceConcat([TKey(ms[0].key)] + Events(ms[0].value), MemberEvents(ms[1..]));
    }
  }
}
