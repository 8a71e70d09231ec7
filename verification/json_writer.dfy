/**
 * The JSON writer state (STG::JSon::BasicWriter::State) in flat mode: the
 * numbering of the write methods and the packing of the state fields
 * into one code, the text each event emits, and the end-of-document
 * check.
 *
 * The independent reference is Render, the usual JSON text of a value
 * with a comma between consecutive elements and members. The writer as
 * written emits no comma before a string or a scalar, so an array with
 * two scalar elements loses its separator; the corrected writer puts the
 * pending comma before every value and produces Render exactly.
 */
module JsonWriter {
  import A = JsonArguments

  // ---------------------------------------------------------------------
  // Write methods and state codes

  /** The pending write method; WNone is the null method pointer. */
  datatype WriteMethod =
    | WNone | WStartObject | WKey | WString | WContent | WStartArray | WEndArray | WEndObject

  /** getMethod: the method numbered by a code in 0..7. */
  function MethodOf(code: int): (m: WriteMethod)
    requires 0 <= code < 8
    ensures CodeOf(m) == code
  {
    if code == 0 then WNone
    else if code == 1 then WStartObject
    else if code == 2 then WKey
    else if code == 3 then WString
    else if code == 4 then WContent
    else if code == 5 then WStartArray
    else if code == 6 then WEndArray
    else WEndObject
  }

  /** getCode: the number of a method. */
  function CodeOf(m: WriteMethod): (code: int)
    ensures 0 <= code < 8
    ensures code == 0 <==> m == WNone
  {
    match m
    case WNone => 0
    case WStartObject => 1
    case WKey => 2
    case WString => 3
    case WContent => 4
    case WStartArray => 5
    case WEndArray => 6
    case WEndObject => 7
  }

  /** The two numberings are inverse to each other. */
  lemma MethodCodeRoundTrip(m: WriteMethod, code: int)
    requires 0 <= code < 8
    ensures MethodOf(CodeOf(m)) == m
    ensures CodeOf(MethodOf(code)) == code
  {
  }

  /**
   * The fields the state code carries: the pending method (wmEvent), the 3-bit point, the
   * 2-bit value type and the follow bit; comma and ender are further bits
   * of the same parameter word that the code leaves alone.
   */
  datatype WriterFields = WriterFields(event: WriteMethod, point: int, valueType: int, follow: bool,
                                       comma: bool, ender: bool)

  predicate InRange(f: WriterFields) {
    0 <= f.point < 8 && 0 <= f.valueType < 4
  }

  /**
   * setFromCode: three bits of method, three of point, two of value type
   * and one of follow, taken from the low end. A mask with 2^k - 1 of a
   * two's-complement int is its Euclidean remainder modulo 2^k and an
   * arithmetic shift right by k its Euclidean quotient, so any int is
   * handled as the source handles it.
   */
  function SetFromCode(f: WriterFields, code: int): (r: WriterFields)
    ensures InRange(r) && r.comma == f.comma && r.ender == f.ender
  {
    f.(event := MethodOf(code % 8), point := (code / 8) % 8, valueType := (code / 64) % 4,
       follow := (code / 256) % 2 == 1)
  }

  /** getCode: the fields packed back into one int. */
  function GetCode(f: WriterFields): (c: int)
    ensures InRange(f) ==> 0 <= c < 512
    ensures c % 8 == CodeOf(f.event)
  {
    CodeOf(f.event) + f.point * 8 + f.valueType * 64 + (if f.follow then 256 else 0)
  }

  /** Decoding then encoding keeps the low nine bits of any code, so every code in 0..511 comes back. */
  lemma CodeRoundTrip(f: WriterFields, code: int)
    ensures GetCode(SetFromCode(f, code)) == code % 512
    ensures 0 <= code < 512 ==> GetCode(SetFromCode(f, code)) == code
  {
    var r := SetFromCode(f, code);
    MethodCodeRoundTrip(WNone, code % 8);
    var q := code / 8;
    assert code == q * 8 + code % 8;
    assert q == (q / 8) * 8 + q % 8;
    var q2 := q / 8;
    assert q2 == code / 64;
    assert q2 == (q2 / 4) * 4 + q2 % 4;
    assert q2 / 4 == code / 256;
    var q3 := q2 / 4;
    assert q3 == (q3 / 2) * 2 + q3 % 2;
    assert code == (q3 / 2) * 512 + q3 % 2 * 256 + q2 % 4 * 64 + q % 8 * 8 + code % 8;
  }

  /** Encoding then decoding gives back every field that is in range. */
  lemma FieldsRoundTrip(f: WriterFields)
    requires InRange(f)
    ensures SetFromCode(f, GetCode(f)) == f
  {
    var c := GetCode(f);
    var b := if f.follow then 1 else 0;
    assert c == CodeOf(f.event) + 8 * (f.point + 8 * (f.valueType + 4 * b));
    assert c % 8 == CodeOf(f.event) && c / 8 == f.point + 8 * (f.valueType + 4 * b);
    assert (c / 8) / 8 == f.valueType + 4 * b;
    assert c / 64 == (c / 8) / 8;
    assert c / 256 == (c / 64) / 4;
    MethodCodeRoundTrip(f.event, 0);
  }

  // ---------------------------------------------------------------------
  // Flat emission

  /**
   * The part of the writer state flat mode depends on: the document level
   * and the pending-comma bit. The follow and ender bits only steer the
   * line breaks of pretty mode.
   */
  datatype WriterState = WriterState(level: int, comma: bool)

  function InitialWriter(): WriterState { WriterState(0, false) }

  function CommaIf(pending: bool): string { if pending then "," else "" }

  function Quoted(text: string): string { "\"" + text + "\"" }

  /** The content text of a scalar event (addBool, addInt, addNull); intText is copyInteger. */
  function ContentText(e: A.Token, intText: int -> string): string
  {
    match e
    case TBool(b) => if b then "true" else "false"
    case TInt(i) => intText(i)
    case _ => "null"
  }

  /**
   * The write method an event selects, in flat mode: writeStartObject and
   * writeStartArray put the pending comma first, clear it and raise the
   * level; writeEndObject and writeEndArray lower the level and set the
   * comma; writeKey puts the pending comma, the quoted key and ':' and
   * clears the comma; writeString and writeContent set the comma. As
   * written (asWritten) the last two never emit the pending comma; the
   * corrected writer puts it before them like before the others.
   */
  function WriteEvent(ws: WriterState, e: A.Token, intText: int -> string, asWritten: bool): (r: (WriterState, string))
    ensures r.0.level == ws.level + A.TokenWeight(e)
  {
    match e
    case TOpenObject => (WriterState(ws.level + 1, false), CommaIf(ws.comma) + "{")
    case TOpenArray => (WriterState(ws.level + 1, false), CommaIf(ws.comma) + "[")
    case TCloseObject => (WriterState(ws.level - 1, true), "}")
    case TCloseArray => (WriterState(ws.level - 1, true), "]")
    case TKey(k) => (ws.(comma := false), CommaIf(ws.comma) + Quoted(k) + ":")
    case TString(s) => (ws.(comma := true), (if asWritten then "" else CommaIf(ws.comma)) + Quoted(s))
    case _ => (ws.(comma := true), (if asWritten then "" else CommaIf(ws.comma)) + ContentText(e, intText))
  }

  /** The events written one after the other; the text is their concatenation. */
  function WriteEvents(ws: WriterState, es: seq<A.Token>, intText: int -> string, asWritten: bool): (r: (WriterState, string))
    decreases |es|
  {
    if es == [] then (ws, "")
    else
      var first := WriteEvent(ws, es[0], intText, asWritten);
      var rest := WriteEvents(first.0, es[1..], intText, asWritten);
      (rest.0, first.1 + rest.1)
  }

  /** The level after a stream is the starting level plus the stream's balance of opens over closes. */
  lemma {:induction false} LevelTracksBalance(ws: WriterState, es: seq<A.Token>, intText: int -> string, asWritten: bool)
    ensures WriteEvents(ws, es, intText, asWritten).0.level == ws.level + A.Balance(es)
    decreases |es|
  {
    if es != [] {
      LevelTracksBalance(WriteEvent(ws, es[0], intText, asWritten).0, es[1..], intText, asWritten);
    }
  }

  datatype EndResult = WRFinished | WriteError

  /** end(): the document is complete only at level 0; otherwise EWriteError is thrown. */
  function End(ws: WriterState): (r: EndResult)
    ensures r == WRFinished <==> ws.level == 0
  {
    if ws.level != 0 then WriteError else WRFinished
  }

  /** Writing a stream from the initial state ends cleanly exactly when the stream is balanced. */
  lemma EndIffBalanced(es: seq<A.Token>, intText: int -> string, asWritten: bool)
    ensures End(WriteEvents(InitialWriter(), es, intText, asWritten).0) == WRFinished <==> A.Balance(es) == 0
  {
    LevelTracksBalance(InitialWriter(), es, intText, asWritten);
  }

  // ---------------------------------------------------------------------
  // The reference text

  /** The JSON text of a value with commas between elements and members (strings unescaped). */
  function Render(v: A.Json, intText: int -> string): string
    decreases A.Size(v), 1
  {
    match v
    case JNull => "null"
    case JBool(b) => if b then "true" else "false"
    case JInt(i) => intText(i)
    case JString(s) => Quoted(s)
    case JArray(es) => "[" + RenderElements(es, false, intText) + "]"
    case JObject(ms) => "{" + RenderMembers(ms, false, intText) + "}"
  }

  function RenderElements(es: seq<A.Json>, sep: bool, intText: int -> string): string
    decreases A.SizeOfValues(es), 0
  {
    if es == [] then ""
    else CommaIf(sep) + Render(es[0], intText) + RenderElements(es[1..], true, intText)
  }

  function RenderMembers(ms: seq<A.Member>, sep: bool, intText: int -> string): string
    decreases A.SizeOfMembers(ms), 0
  {
    if ms == [] then ""
    else CommaIf(sep) + Quoted(ms[0].key) + ":" + Render(ms[0].value, intText) + RenderMembers(ms[1..], true, intText)
  }

  // ---------------------------------------------------------------------
  // The corrected writer produces the reference text

  lemma WriteOne(ws: WriterState, e: A.Token, intText: int -> string, asWritten: bool)
    ensures WriteEvents(ws, [e], intText, asWritten) == WriteEvent(ws, e, intText, asWritten)
  {
    assert [e][0] == e && [e][1..] == [];
    var t := WriteEvent(ws, e, intText, asWritten).1;
    assert t + "" == t;
  }

  /** Writing a + b is writing a, then writing b from where a left the state. */
  lemma {:induction false} WriteConcat(ws: WriterState, a: seq<A.Token>, b: seq<A.Token>, intText: int -> string, asWritten: bool)
    ensures var mid := WriteEvents(ws, a, intText, asWritten);
      WriteEvents(ws, a + b, intText, asWritten)
        == (WriteEvents(mid.0, b, intText, asWritten).0, mid.1 + WriteEvents(mid.0, b, intText, asWritten).1)
    decreases |a|
  {
    if a == [] {
      assert a + b == b;
      var t := WriteEvents(ws, b, intText, asWritten).1;
      assert "" + t == t;
    } else {
      assert (a + b)[0] == a[0] && (a + b)[1..] == a[1..] + b;
      var first := WriteEvent(ws, a[0], intText, asWritten);
      WriteConcat(first.0, a[1..], b, intText, asWritten);
      var midRest := WriteEvents(first.0, a[1..], intText, asWritten);
      var tail := WriteEvents(midRest.0, b, intText, asWritten);
      assert first.1 + (midRest.1 + tail.1) == (first.1 + midRest.1) + tail.1;
    }
  }

  /** A value written with a pending comma is preceded by exactly one comma and leaves the comma pending. */
  lemma {:induction false} ValueWrites(ws: WriterState, v: A.Json, intText: int -> string)
    ensures WriteEvents(ws, A.Events(v), intText, false)
         == (WriterState(ws.level, true), CommaIf(ws.comma) + Render(v, intText))
    decreases A.Size(v), 2
  {
    match v
    case JArray(es) => ArrayWrites(ws, es, intText);
    case JObject(ms) => ObjectWrites(ws, ms, intText);
    case _ =>
      WriteOne(ws, A.Events(v)[0], intText, false);
      assert A.Events(v) == [A.Events(v)[0]];
  }

  lemma {:induction false} ArrayWrites(ws: WriterState, es: seq<A.Json>, intText: int -> string)
    ensures WriteEvents(ws, A.Events(A.JArray(es)), intText, false)
         == (WriterState(ws.level, true), CommaIf(ws.comma) + Render(A.JArray(es), intText))
    decreases A.Size(A.JArray(es)), 1
  {
    var inner := WriterState(ws.level + 1, false);
    ElementsWrite(inner, es, intText);
    var mid := WriteEvents(inner, A.ElementEvents(es), intText, false).0;
    Enclosed(ws, A.TOpenArray, A.ElementEvents(es), A.TCloseArray, intText, mid, RenderElements(es, false, intText), "[", "]");
  }

  lemma {:induction false} ObjectWrites(ws: WriterState, ms: seq<A.Member>, intText: int -> string)
    ensures WriteEvents(ws, A.Events(A.JObject(ms)), intText, false)
         == (WriterState(ws.level, true), CommaIf(ws.comma) + Render(A.JObject(ms), intText))
    decreases A.Size(A.JObject(ms)), 1
  {
    var inner := WriterState(ws.level + 1, false);
    MembersWrite(inner, ms, intText);
    var mid := WriteEvents(inner, A.MemberEvents(ms), intText, false).0;
    Enclosed(ws, A.TOpenObject, A.MemberEvents(ms), A.TCloseObject, intText, mid, RenderMembers(ms, false, intText), "{", "}");
  }

  /** An opening event, the inner events, then the closing event. */
  lemma Enclosed(ws: WriterState, open: A.Token, inner: seq<A.Token>, close: A.Token, intText: int -> string,
                 mid: WriterState, innerText: string, o: string, c: string)
    requires WriteEvent(ws, open, intText, false) == (WriterState(ws.level + 1, false), CommaIf(ws.comma) + o)
    requires WriteEvents(WriterState(ws.level + 1, false), inner, intText, false) == (mid, innerText)
    requires WriteEvent(mid, close, intText, false) == (WriterState(ws.level, true), c)
    ensures WriteEvents(ws, [open] + inner + [close], intText, false)
         == (WriterState(ws.level, true), CommaIf(ws.comma) + (o + innerText + c))
  {
    WriteOne(ws, open, intText, false);
    WriteOne(mid, close, intText, false);
    WriteThree(ws, [open], inner, [close], intText, WriterState(ws.level + 1, false), CommaIf(ws.comma) + o,
               mid, innerText, WriterState(ws.level, true), c);
    Reassociate(CommaIf(ws.comma), o, innerText, c);
  }

  lemma Reassociate(a: string, b: string, c: string, d: string)
    ensures a + b + c + d == a + (b + c + d)
  {
  }

  /** Three parts written one after the other. */
  lemma WriteThree(ws: WriterState, a: seq<A.Token>, b: seq<A.Token>, c: seq<A.Token>, intText: int -> string,
                   s1: WriterState, t1: string, s2: WriterState, t2: string, s3: WriterState, t3: string)
    requires WriteEvents(ws, a, intText, false) == (s1, t1)
    requires WriteEvents(s1, b, intText, false) == (s2, t2)
    requires WriteEvents(s2, c, intText, false) == (s3, t3)
    ensures WriteEvents(ws, a + b + c, intText, false) == (s3, t1 + t2 + t3)
  {
    WriteConcat(ws, a, b, intText, false);
    WriteConcat(ws, a + b, c, intText, false);
  }

  lemma {:induction false} ElementsWrite(ws: WriterState, es: seq<A.Json>, intText: int -> string)
    ensures WriteEvents(ws, A.ElementEvents(es), intText, false)
         == (if es == [] then ws else ws.(comma := true), RenderElements(es, ws.comma, intText))
    decreases A.SizeOfValues(es), 1
  {
    if es != [] {
      var after := WriterState(ws.level, true);
      ValueWrites(ws, es[0], intText);
      ElementsWrite(after, es[1..], intText);
      WriteConcat(ws, A.Events(es[0]), A.ElementEvents(es[1..]), intText, false);
    }
  }

  lemma {:induction false} MembersWrite(ws: WriterState, ms: seq<A.Member>, intText: int -> string)
    ensures WriteEvents(ws, A.MemberEvents(ms), intText, false)
         == (if ms == [] then ws else ws.(comma := true), RenderMembers(ms, ws.comma, intText))
    decreases A.SizeOfMembers(ms), 1
  {
    if ms != [] {
      var keyed := ws.(comma := false);
      var after := WriterState(ws.level, true);
      var key := [A.TKey(ms[0].key)];
      WriteOne(ws, A.TKey(ms[0].key), intText, false);
      ValueWrites(keyed, ms[0].value, intText);
      MembersWrite(after, ms[1..], intText);
      WriteConcat(ws, key, A.Events(ms[0].value), intText, false);
      WriteConcat(ws, key + A.Events(ms[0].value), A.MemberEvents(ms[1..]), intText, false);
      assert CommaIf(keyed.comma) == "";
      var keyText := CommaIf(ws.comma) + Quoted(ms[0].key) + ":";
      var valueText := Render(ms[0].value, intText);
      assert keyText + ("" + valueText) == keyText + valueText;
    }
  }

  /** The corrected writer turns a value's events into its reference text and ends at level 0. */
  lemma DocumentWrites(v: A.Json, intText: int -> string)
    ensures WriteEvents(InitialWriter(), A.Events(v), intText, false) == (WriterState(0, true), Render(v, intText))
    ensures End(WriteEvents(InitialWriter(), A.Events(v), intText, false).0) == WRFinished
  {
    ValueWrites(InitialWriter(), v, intText);
    assert "" + Render(v, intText) == Render(v, intText);
  }

  // ---------------------------------------------------------------------
  // The writer as written

  /** The first event written, then the rest from the state it leaves. */
  lemma WriteCons(ws: WriterState, e: A.Token, rest: seq<A.Token>, intText: int -> string, asWritten: bool)
    ensures var first := WriteEvent(ws, e, intText, asWritten);
      WriteEvents(ws, [e] + rest, intText, asWritten)
        == (WriteEvents(first.0, rest, intText, asWritten).0, first.1 + WriteEvents(first.0, rest, intText, asWritten).1)
  {
    assert ([e] + rest)[0] == e && ([e] + rest)[1..] == rest;
  }

  /** The events of an array of two scalars. */
  lemma PairEvents(x: A.Json, y: A.Json)
    requires A.IsScalar(x) && A.IsScalar(y)
    ensures A.Events(A.JArray([x, y])) == [A.TOpenArray, A.Events(x)[0], A.Events(y)[0], A.TCloseArray]
  {
    assert [x, y][1..] == [y];
    assert A.Events(x) == [A.Events(x)[0]] && A.Events(y) == [A.Events(y)[0]];
    assert A.ElementEvents([y]) == A.Events(y) + A.ElementEvents([]);
    assert A.ElementEvents([x, y]) == A.Events(x) + A.ElementEvents([y]);
  }

  /** An array holding two scalar events x and y, written from the initial state. */
  lemma WritePair(x: A.Token, y: A.Token, intText: int -> string, asWritten: bool, tx: string, ty: string)
    requires A.TokenWeight(x) == 0 && A.TokenWeight(y) == 0
    requires WriteEvent(WriterState(1, false), x, intText, asWritten) == (WriterState(1, true), tx)
    requires WriteEvent(WriterState(1, true), y, intText, asWritten) == (WriterState(1, true), ty)
    ensures WriteEvents(InitialWriter(), [A.TOpenArray, x, y, A.TCloseArray], intText, asWritten).1 == "[" + tx + ty + "]"
  {
    var w := WriterState(1, true);
    var e2 := [y] + [A.TCloseArray];
    var e1 := [x] + e2;
    assert WriteEvents(w, [A.TCloseArray], intText, asWritten) == (WriterState(0, true), "]") by {
      WriteOne(w, A.TCloseArray, intText, asWritten);
    }
    assert WriteEvents(w, e2, intText, asWritten) == (WriterState(0, true), ty + "]") by {
      WriteCons(w, y, [A.TCloseArray], intText, asWritten);
    }
    assert WriteEvents(WriterState(1, false), e1, intText, asWritten) == (WriterState(0, true), tx + (ty + "]")) by {
      WriteCons(WriterState(1, false), x, e2, intText, asWritten);
    }
    assert WriteEvents(InitialWriter(), [A.TOpenArray] + e1, intText, asWritten).1 == "[" + (tx + (ty + "]")) by {
      WriteCons(InitialWriter(), A.TOpenArray, e1, intText, asWritten);
      assert CommaIf(false) + "[" == "[";
      assert WriteEvent(InitialWriter(), A.TOpenArray, intText, asWritten) == (WriterState(1, false), "[");
    }
    assert [A.TOpenArray, x, y, A.TCloseArray] == [A.TOpenArray] + e1;
    Reassociate3("[", tx, ty, "]");
  }

  lemma Reassociate3(a: string, b: string, c: string, d: string)
    ensures a + (b + (c + d)) == a + b + c + d
  {
  }

  /** As written, two strings in an array come out with no comma between them. */
  lemma StringsRunTogetherAsWritten(intText: int -> string)
    ensures var v := A.JArray([A.JString("a"), A.JString("b")]);
      WriteEvents(InitialWriter(), A.Events(v), intText, true).1 == "[\"a\"\"b\"]" &&
      Render(v, intText) == "[\"a\",\"b\"]"
  {
    StringPairAsWritten(intText);
    StringPairCorrected(intText);
  }

  /** Two strings in an array: as written no comma separates them, corrected one does. */
  lemma StringPairWrites(sa: string, sb: string, intText: int -> string, asWritten: bool)
    ensures WriteEvents(InitialWriter(), A.Events(A.JArray([A.JString(sa), A.JString(sb)])), intText, asWritten).1
         == "[" + Quoted(sa) + ((if asWritten then "" else ",") + Quoted(sb)) + "]"
  {
    var a, b := A.TString(sa), A.TString(sb);
    assert A.Events(A.JArray([A.JString(sa), A.JString(sb)])) == [A.TOpenArray, a, b, A.TCloseArray] by {
      PairEvents(A.JString(sa), A.JString(sb));
    }
    var ta, tb := Quoted(sa), (if asWritten then "" else ",") + Quoted(sb);
    assert WriteEvent(WriterState(1, false), a, intText, asWritten) == (WriterState(1, true), ta) by {
      assert "" + Quoted(sa) == Quoted(sa);
    }
    WritePair(a, b, intText, asWritten, ta, tb);
  }

  lemma StringPairAsWritten(intText: int -> string)
    ensures WriteEvents(InitialWriter(), A.Events(A.JArray([A.JString("a"), A.JString("b")])), intText, true).1
         == "[\"a\"\"b\"]"
  {
    StringPairWrites("a", "b", intText, true);
    assert Quoted("a") == "\"a\"" && Quoted("b") == "\"b\"";
    assert "[" + "\"a\"" + ("" + "\"b\"") + "]" == "[\"a\"\"b\"]";
  }

  lemma StringPairCorrected(intText: int -> string)
    ensures Render(A.JArray([A.JString("a"), A.JString("b")]), intText) == "[\"a\",\"b\"]"
  {
    var v := A.JArray([A.JString("a"), A.JString("b")]);
    StringPairWrites("a", "b", intText, false);
    DocumentWrites(v, intText);
    assert Quoted("a") == "\"a\"" && Quoted("b") == "\"b\"";
    assert "[" + "\"a\"" + ("," + "\"b\"") + "]" == "[\"a\",\"b\"]";
  }

  /** As written, two nulls in an array fuse into the single word "nullnull". */
  lemma NullsRunTogetherAsWritten(intText: int -> string)
    ensures WriteEvents(InitialWriter(), A.Events(A.JArray([A.JNull, A.JNull])), intText, true).1 == "[nullnull]"
    ensures WriteEvents(InitialWriter(), A.Events(A.JArray([A.JNull, A.JNull])), intText, false).1 == "[null,null]"
  {
    PairEvents(A.JNull, A.JNull);
    assert ContentText(A.TNull, intText) == "null";
    assert "" + "null" == "null" && "," + "null" == ",null";
    assert "[" + "null" + "null" + "]" == "[nullnull]";
    assert "[" + "null" + ",null" + "]" == "[null,null]";
    WritePair(A.TNull, A.TNull, intText, true, "null", "null");
    WritePair(A.TNull, A.TNull, intText, false, "null", ",null");
  }
}
