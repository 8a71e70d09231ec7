/**
 * The zone actions a contract carries (create, rename, split, merge) and
 * the zone modifier that lists them, with their JSON readers and writers.
 * Readers and writers work on the parsed value (`Json`); the event stream
 * a writer emits is `Events` of the value it builds. Expressions are read
 * and written by the expression reader and writer, which are parameters.
 */
module ZoneActions {
  import opened Wrappers
  import opened JsonArguments
  import opened Expressions

  /** The action kinds, as MemoryZoneAction::TypeAction lists them. */
  datatype TypeAction = TAUndefined | TACreate | TARename | TASplit | TAMerge

  /** An action with its own fields; there is no action of undefined kind. */
  datatype ZoneAction =
    | CreateAction(start: Expr, length: Expr, name: string)
    | RenameAction(oldName: string, newName: string)
    | SplitAction(start: Expr, oldName: string, newName: string)
    | MergeAction(firstName: string, secondName: string)

  function ActionType(a: ZoneAction): TypeAction
  {
    match a
    case CreateAction(_, _, _) => TACreate
    case RenameAction(_, _) => TARename
    case SplitAction(_, _, _) => TASplit
    case MergeAction(_, _) => TAMerge
  }

  /**
   * newZoneAction: a fresh action of the given kind with empty fields.
   * The undefined kind has no action.
   */
  function NewZoneAction(t: TypeAction): (r: Option<ZoneAction>)
    ensures r.Some? <==> t != TAUndefined
    ensures r.Some? ==> ActionType(r.value) == t
  {
    match t
    case TAUndefined => None
    case TACreate => Some(CreateAction(Null, Null, ""))
    case TARename => Some(RenameAction("", ""))
    case TASplit => Some(SplitAction(Null, "", ""))
    case TAMerge => Some(MergeAction("", ""))
  }

  /**
   * How a reader ends: it read its value completely, it stopped because
   * the diagnostics refused further errors, or it left the model's scope
   * (the source then reads on from a token that belongs elsewhere, or
   * dereferences an action that was never created).
   */
  datatype Outcome = Complete | Stopped | Unsupported

  datatype ActionRead = ActionRead(action: ZoneAction, diag: Diagnostics, outcome: Outcome)

  /** The keys whose value each reader takes as text. */
  function TextKeys(a: ZoneAction): set<string>
  {
    match a
    case CreateAction(_, _, _) => {"name"}
    case _ => {"old_name", "new_name"}
  }

  /**
   * The effect of one member on the action read so far. Expression keys
   * go to the expression reader; text keys keep only string values; other
   * keys are skipped.
   */
  function UpdateField(a: ZoneAction, m: Member, readExpr: Json -> Expr): (r: ZoneAction)
    ensures ActionType(r) == ActionType(a)
  {
    match a
    case CreateAction(start, length, name) =>
      if m.key == "start" then CreateAction(readExpr(m.value), length, name)
      else if m.key == "length" then CreateAction(start, readExpr(m.value), name)
      else if m.key == "name" && m.value.JString? then CreateAction(start, length, m.value.s)
      else a
    case RenameAction(oldName, newName) =>
      if m.key == "old_name" && m.value.JString? then RenameAction(m.value.s, newName)
      else if m.key == "new_name" && m.value.JString? then RenameAction(oldName, m.value.s)
      else a
    case SplitAction(start, oldName, newName) =>
      if m.key == "start" then SplitAction(readExpr(m.value), oldName, newName)
      else if m.key == "old_name" && m.value.JString? then SplitAction(start, m.value.s, newName)
      else if m.key == "new_name" && m.value.JString? then SplitAction(start, oldName, m.value.s)
      else a
    case MergeAction(firstName, secondName) =>
      if m.key == "old_name" && m.value.JString? then MergeAction(m.value.s, secondName)
      else if m.key == "new_name" && m.value.JString? then MergeAction(firstName, m.value.s)
      else a
  }

  /**
   * The members of an action object, left to right. A text key holding an
   * array or object makes the reader step into that container rather than
   * over it, which the model does not follow (None).
   */
  function ReadMembers(a: ZoneAction, ms: seq<Member>, readExpr: Json -> Expr): (r: Option<ZoneAction>)
    ensures r.Some? ==> ActionType(r.value) == ActionType(a)
    decreases |ms|
  {
    if ms == [] then Some(a)
    else
      var last := ms[|ms| - 1];
      match ReadMembers(a, ms[..|ms| - 1], readExpr)
      case None => None
      case Some(b) =>
        if last.key in TextKeys(b) && !IsScalar(last.value) then None
        else Some(UpdateField(b, last, readExpr))
  }

  /**
   * readJSon of the four actions: the value must be an object, otherwise
   * "expected '{'" is recorded.
   */
  function ReadAction(a: ZoneAction, v: Json, d: Diagnostics, readExpr: Json -> Expr): (r: ActionRead)
    ensures v.JObject? && ReadMembers(a, v.members, readExpr).Some? ==>
      r == ActionRead(ReadMembers(a, v.members, readExpr).value, d, Complete)
    ensures !v.JObject? ==>
      r.action == a &&
      r.diag == AddErrorMessage(d, "expected '{'").diag &&
      (r.outcome == Stopped <==> !AddErrorMessage(d, "expected '{'").proceed)
    ensures r.outcome != Complete ==> r.action == a
  {
    if v.JObject? then
      match ReadMembers(a, v.members, readExpr)
      case None => ActionRead(a, d, Unsupported)
      case Some(b) => ActionRead(b, d, Complete)
    else
      var logged := AddErrorMessage(d, "expected '{'");
      ActionRead(a, logged.diag, if logged.proceed then Unsupported else Stopped)
  }

  // ---------------------------------------------------------------------
  // Reference reading: each field takes the last value of its key

  /** The value of the last member with the given key. */
  function LastValue(ms: seq<Member>, key: string): (r: Option<Json>)
    ensures r.Some? ==> exists i :: 0 <= i < |ms| && ms[i].key == key && ms[i].value == r.value
    ensures r.None? ==> forall i :: 0 <= i < |ms| ==> ms[i].key != key
    decreases |ms|
  {
    if ms == [] then None
    else if ms[|ms| - 1].key == key then Some(ms[|ms| - 1].value)
    else LastValue(ms[..|ms| - 1], key)
  }

  /** The text of the last member with the given key holding a string. */
  function LastText(ms: seq<Member>, key: string, default: string): string
    decreases |ms|
  {
    if ms == [] then default
    else if ms[|ms| - 1].key == key && ms[|ms| - 1].value.JString? then ms[|ms| - 1].value.s
    else LastText(ms[..|ms| - 1], key, default)
  }

  function LastExpr(ms: seq<Member>, key: string, default: Expr, readExpr: Json -> Expr): Expr
  {
    match LastValue(ms, key)
    case None => default
    case Some(v) => readExpr(v)
  }

  /**
   * What a reader should produce from an object's members, independently
   * of their order: every field holds the value of the last member
   * carrying its key, or its initial value when no member does.
   */
  function ReferenceRead(a: ZoneAction, ms: seq<Member>, readExpr: Json -> Expr): ZoneAction
  {
    match a
    case CreateAction(s, l, n) =>
      CreateAction(LastExpr(ms, "start", s, readExpr), LastExpr(ms, "length", l, readExpr),
                   LastText(ms, "name", n))
    case RenameAction(o, n) =>
      RenameAction(LastText(ms, "old_name", o), LastText(ms, "new_name", n))
    case SplitAction(s, o, n) =>
      SplitAction(LastExpr(ms, "start", s, readExpr), LastText(ms, "old_name", o),
                  LastText(ms, "new_name", n))
    case MergeAction(f, s) =>
      MergeAction(LastText(ms, "old_name", f), LastText(ms, "new_name", s))
  }

  /** No text key of the action holds a container. */
  predicate TextKeysScalar(a: ZoneAction, ms: seq<Member>)
  {
    forall i :: 0 <= i < |ms| && ms[i].key in TextKeys(a) ==> IsScalar(ms[i].value)
  }

  /**
   * Reading the members of an object gives the reference result whatever
   * the order of the keys, and succeeds exactly when no text key holds a
   * container.
   */
  lemma {:induction false} ReadMembersIsReference(a: ZoneAction, ms: seq<Member>, readExpr: Json -> Expr)
    ensures ReadMembers(a, ms, readExpr).Some? <==> TextKeysScalar(a, ms)
    ensures ReadMembers(a, ms, readExpr).Some? ==>
      ReadMembers(a, ms, readExpr).value == ReferenceRead(a, ms, readExpr)
    decreases |ms|
  {
    if ms != [] {
      var init := ms[..|ms| - 1];
      var last := ms[|ms| - 1];
      ReadMembersIsReference(a, init, readExpr);
      assert forall i :: 0 <= i < |init| ==> init[i] == ms[i];
      var prev := ReadMembers(a, init, readExpr);
      if prev.Some? {
        assert TextKeys(prev.value) == TextKeys(a) by {
          assert ActionType(prev.value) == ActionType(a);
        }
      }
    }
  }

  // ---------------------------------------------------------------------
  // Writers

  /**
   * writeJSon of the four actions: an object whose keys are the ones the
   * matching reader accepts, in the order start/length/name for create,
   * start/old_name/new_name for split and old_name/new_name otherwise.
   */
  function WriteAction(a: ZoneAction, writeExpr: Expr -> Json): (v: Json)
    ensures v.JObject?
  {
    match a
    case CreateAction(s, l, n) =>
      JObject([Member("start", writeExpr(s)), Member("length", writeExpr(l)), Member("name", JString(n))])
    case RenameAction(o, n) =>
      JObject([Member("old_name", JString(o)), Member("new_name", JString(n))])
    case SplitAction(s, o, n) =>
      JObject([Member("start", writeExpr(s)), Member("old_name", JString(o)), Member("new_name", JString(n))])
    case MergeAction(f, s) =>
      JObject([Member("old_name", JString(f)), Member("new_name", JString(s))])
  }

  /** The expression reader gives back every expression the action writes. */
  predicate ExprsRoundTrip(a: ZoneAction, readExpr: Json -> Expr, writeExpr: Expr -> Json)
  {
    match a
    case CreateAction(s, l, _) => readExpr(writeExpr(s)) == s && readExpr(writeExpr(l)) == l
    case SplitAction(s, _, _) => readExpr(writeExpr(s)) == s
    case _ => true
  }

  /**
   * Writing an action and reading it into a fresh action of the same kind
   * gives back the action, without any diagnostic.
   */
  lemma WriteThenRead(a: ZoneAction, d: Diagnostics, readExpr: Json -> Expr, writeExpr: Expr -> Json)
    requires ExprsRoundTrip(a, readExpr, writeExpr)
    ensures NewZoneAction(ActionType(a)).Some?
    ensures ReadAction(NewZoneAction(ActionType(a)).value, WriteAction(a, writeExpr), d, readExpr)
            == ActionRead(a, d, Complete)
  {
    var initial := NewZoneAction(ActionType(a)).value;
    var ms := WriteAction(a, writeExpr).members;
    ReadMembersIsReference(initial, ms, readExpr);
    if |ms| == 3 {
      ReadBackThree(a, initial, ms, readExpr, writeExpr);
    } else {
      ReadBackTwo(a, initial, ms, readExpr, writeExpr);
    }
  }

  /** Create and split: the three members written read back into the action. */
  lemma ReadBackThree(a: ZoneAction, initial: ZoneAction, ms: seq<Member>, readExpr: Json -> Expr, writeExpr: Expr -> Json)
    requires ExprsRoundTrip(a, readExpr, writeExpr)
    requires initial == NewZoneAction(ActionType(a)).value && ms == WriteAction(a, writeExpr).members && |ms| == 3
    ensures TextKeysScalar(initial, ms) && ReferenceRead(initial, ms, readExpr) == a
  {
    assert ms[..2] == [ms[0], ms[1]];
    assert ms[..2][..1] == [ms[0]];
    assert ms[0].key !in TextKeys(initial);
    assert forall i :: 0 <= i < |ms| && ms[i].key in TextKeys(initial) ==> ms[i].value.JString?;
    assert LastValue(ms, "start") == Some(ms[0].value) by {
      assert LastValue(ms[..2], "start") == LastValue(ms[..2][..1], "start");
    }
    match a
    case CreateAction(s, l, n) =>
      assert LastValue(ms, "length") == Some(ms[1].value);
      assert LastText(ms, "name", "") == n;
    case SplitAction(s, o, n) =>
      assert LastText(ms, "old_name", "") == o by {
        assert LastText(ms[..2], "old_name", "") == o;
      }
      assert LastText(ms, "new_name", "") == n;
  }

  /** Rename and merge: the two members written read back into the action. */
  lemma ReadBackTwo(a: ZoneAction, initial: ZoneAction, ms: seq<Member>, readExpr: Json -> Expr, writeExpr: Expr -> Json)
    requires initial == NewZoneAction(ActionType(a)).value && ms == WriteAction(a, writeExpr).members && |ms| != 3
    ensures TextKeysScalar(initial, ms) && ReferenceRead(initial, ms, readExpr) == a
  {
    assert ms[..1] == [ms[0]];
    assert forall i :: 0 <= i < |ms| ==> ms[i].value.JString?;
    assert LastText(ms, "old_name", "") == ms[0].value.s by {
      assert LastText(ms[..1], "old_name", "") == ms[0].value.s;
    }
    assert LastText(ms, "new_name", "") == ms[1].value.s;
  }

  // ---------------------------------------------------------------------
  // The zone modifier: a list of typed actions

  datatype ModifierRead = ModifierRead(actions: seq<ZoneAction>, diag: Diagnostics, outcome: Outcome)

  /**
   * What the modifier reader carries from member to member: the action
   * kind last read under "type" (it persists from one object to the next),
   * the actions read so far, the diagnostics and how reading goes.
   */
  datatype ModifierState = ModifierState(kind: TypeAction, actions: seq<ZoneAction>,
                                         diag: Diagnostics, outcome: Outcome)

  /** A "type" member: a string value sets the kind; a container is stepped into. */
  function TypeMember(st: ModifierState, value: Json, typeFromText: string -> TypeAction): (r: ModifierState)
    ensures r.actions == st.actions && r.diag == st.diag
    ensures value.JString? ==> r == st.(kind := typeFromText(value.s))
    ensures IsScalar(value) && !value.JString? ==> r == st
  {
    if value.JString? then st.(kind := typeFromText(value.s))
    else if IsScalar(value) then st
    else st.(outcome := Unsupported)
  }

  /**
   * A "content" member: a fresh action of the current kind is appended,
   * then read from the value. With no kind set there is no action to read
   * into.
   */
  function ContentMember(st: ModifierState, value: Json, readExpr: Json -> Expr): (r: ModifierState)
    ensures st.kind == TAUndefined ==> r.outcome == Unsupported && r.actions == st.actions
    ensures st.kind != TAUndefined ==>
      var read := ReadAction(NewZoneAction(st.kind).value, value, st.diag, readExpr);
      r == ModifierState(st.kind, st.actions + [read.action], read.diag, read.outcome)
  {
    match NewZoneAction(st.kind)
    case None => st.(outcome := Unsupported)
    case Some(a) =>
      var read := ReadAction(a, value, st.diag, readExpr);
      ModifierState(st.kind, st.actions + [read.action], read.diag, read.outcome)
  }

  /**
   * The members of one action object. As written, the reader moves to the
   * next token after a "type" value and then once more unless that token
   * is the key "content", so the member after "type" is dropped, and a
   * "type" that ends the object makes the reader step over the object's
   * closing brace. Otherwise each member is handled in turn.
   */
  function ReadObject(st: ModifierState, ms: seq<Member>, i: nat, asWritten: bool,
                      typeFromText: string -> TypeAction, readExpr: Json -> Expr): (r: ModifierState)
    requires i <= |ms|
    ensures st.outcome != Complete ==> r == st
    ensures |r.actions| >= |st.actions| && r.actions[..|st.actions|] == st.actions
    decreases |ms| - i
  {
    if i == |ms| || st.outcome != Complete then st
    else if ms[i].key == "type" then
      var typed := TypeMember(st, ms[i].value, typeFromText);
      if !asWritten || typed.outcome != Complete then
        ReadObject(typed, ms, i + 1, asWritten, typeFromText, readExpr)
      else if i + 1 == |ms| then typed.(outcome := Unsupported)
      else if ms[i + 1].key == "content" then
        ReadObject(ContentMember(typed, ms[i + 1].value, readExpr), ms, i + 2, asWritten, typeFromText, readExpr)
      else ReadObject(typed, ms, i + 2, asWritten, typeFromText, readExpr)
    else if ms[i].key == "content" then
      ReadObject(ContentMember(st, ms[i].value, readExpr), ms, i + 1, asWritten, typeFromText, readExpr)
    else ReadObject(st, ms, i + 1, asWritten, typeFromText, readExpr)
  }

  /** The elements of the modifier array: objects are read, arrays and scalars skipped. */
  function ReadElements(st: ModifierState, es: seq<Json>, i: nat, asWritten: bool,
                        typeFromText: string -> TypeAction, readExpr: Json -> Expr): (r: ModifierState)
    requires i <= |es|
    ensures st.outcome != Complete ==> r == st
    ensures |r.actions| >= |st.actions| && r.actions[..|st.actions|] == st.actions
    decreases |es| - i
  {
    if i == |es| || st.outcome != Complete then st
    else if es[i].JObject? then
      ReadElements(ReadObject(st, es[i].members, 0, asWritten, typeFromText, readExpr),
                   es, i + 1, asWritten, typeFromText, readExpr)
    else ReadElements(st, es, i + 1, asWritten, typeFromText, readExpr)
  }

  /**
   * MemoryZoneModifier::readJSon: the value must be an array, otherwise
   * "expected '['" is recorded. The kind starts undefined.
   */
  function ReadModifierWith(v: Json, d: Diagnostics, asWritten: bool,
                            typeFromText: string -> TypeAction, readExpr: Json -> Expr): (r: ModifierRead)
    ensures !v.JArray? ==>
      r.actions == [] &&
      r.diag == AddErrorMessage(d, "expected '['").diag &&
      (r.outcome == Stopped <==> !AddErrorMessage(d, "expected '['").proceed)
  {
    if v.JArray? then
      var st := ReadElements(ModifierState(TAUndefined, [], d, Complete), v.elements, 0,
                             asWritten, typeFromText, readExpr);
      ModifierRead(st.actions, st.diag, st.outcome)
    else
      var logged := AddErrorMessage(d, "expected '['");
      ModifierRead([], logged.diag, if logged.proceed then Unsupported else Stopped)
  }

  /** The modifier reader as written, with the extra move after "type". */
  function ReadModifierAsWritten(v: Json, d: Diagnostics, typeFromText: string -> TypeAction,
                                 readExpr: Json -> Expr): (r: ModifierRead)
    ensures !v.JArray? ==> r.actions == [] && r.diag == AddErrorMessage(d, "expected '['").diag
  {
    ReadModifierWith(v, d, true, typeFromText, readExpr)
  }

  /** The modifier reader handling every member in turn; the rest of the model uses it. */
  function ReadModifier(v: Json, d: Diagnostics, typeFromText: string -> TypeAction,
                        readExpr: Json -> Expr): (r: ModifierRead)
    ensures !v.JArray? ==> r.actions == [] && r.diag == AddErrorMessage(d, "expected '['").diag
  {
    ReadModifierWith(v, d, false, typeFromText, readExpr)
  }

  /** Number of members with the given key. */
  function KeyCount(ms: seq<Member>, key: string): nat
  {
    if ms == [] then 0 else (if ms[0].key == key then 1 else 0) + KeyCount(ms[1..], key)
  }

  /** Number of "content" members over the objects of an array. */
  function ContentCount(es: seq<Json>): nat
  {
    if es == [] then 0
    else (if es[0].JObject? then KeyCount(es[0].members, "content") else 0) + ContentCount(es[1..])
  }

  lemma {:induction false} ReadObjectCounts(st: ModifierState, ms: seq<Member>, i: nat,
                                            typeFromText: string -> TypeAction, readExpr: Json -> Expr)
    requires i <= |ms|
    ensures var r := ReadObject(st, ms, i, false, typeFromText, readExpr);
      r.outcome == Complete ==> |r.actions| == |st.actions| + KeyCount(ms[i..], "content")
    decreases |ms| - i
  {
    if i < |ms| && st.outcome == Complete {
      assert ms[i..][1..] == ms[i + 1..];
      if ms[i].key == "type" {
        ReadObjectCounts(TypeMember(st, ms[i].value, typeFromText), ms, i + 1, typeFromText, readExpr);
      } else if ms[i].key == "content" {
        ReadObjectCounts(ContentMember(st, ms[i].value, readExpr), ms, i + 1, typeFromText, readExpr);
      } else {
        ReadObjectCounts(st, ms, i + 1, typeFromText, readExpr);
      }
    }
  }

  lemma {:induction false} ReadElementsCounts(st: ModifierState, es: seq<Json>, i: nat,
                                              typeFromText: string -> TypeAction, readExpr: Json -> Expr)
    requires i <= |es|
    ensures var r := ReadElements(st, es, i, false, typeFromText, readExpr);
      r.outcome == Complete ==> |r.actions| == |st.actions| + ContentCount(es[i..])
    decreases |es| - i
  {
    if i < |es| && st.outcome == Complete {
      assert es[i..][1..] == es[i + 1..];
      if es[i].JObject? {
        var mid := ReadObject(st, es[i].members, 0, false, typeFromText, readExpr);
        ReadObjectCounts(st, es[i].members, 0, typeFromText, readExpr);
        assert es[i].members[0..] == es[i].members;
        ReadElementsCounts(mid, es, i + 1, typeFromText, readExpr);
      } else {
        ReadElementsCounts(st, es, i + 1, typeFromText, readExpr);
      }
    }
  }

  /**
   * A modifier read to the end holds exactly one action per "content"
   * member, over all the objects of the array.
   */
  lemma OneActionPerContent(es: seq<Json>, d: Diagnostics, typeFromText: string -> TypeAction,
                            readExpr: Json -> Expr)
    ensures var r := ReadModifier(JArray(es), d, typeFromText, readExpr);
      r.outcome == Complete ==> |r.actions| == ContentCount(es)
  {
    ReadElementsCounts(ModifierState(TAUndefined, [], d, Complete), es, 0, typeFromText, readExpr);
    assert es[0..] == es;
  }

  /** The object the writer emits for one action: its kind, then its content. */
  function ActionEntry(a: ZoneAction, textFromType: TypeAction -> string, writeExpr: Expr -> Json): Json
  {
    JObject([Member("type", JString(textFromType(ActionType(a)))), Member("content", WriteAction(a, writeExpr))])
  }

  function ActionEntries(actions: seq<ZoneAction>, textFromType: TypeAction -> string,
                         writeExpr: Expr -> Json): (es: seq<Json>)
    ensures |es| == |actions|
    ensures forall k :: 0 <= k < |actions| ==> es[k] == ActionEntry(actions[k], textFromType, writeExpr)
  {
    if actions == [] then []
    else [ActionEntry(actions[0], textFromType, writeExpr)] + ActionEntries(actions[1..], textFromType, writeExpr)
  }

  /** MemoryZoneModifier::writeJSon with each action object closed: an array of entries. */
  function WriteModifier(actions: seq<ZoneAction>, textFromType: TypeAction -> string,
                         writeExpr: Expr -> Json): (v: Json)
    ensures v.JArray? && |v.elements| == |actions|
  {
    JArray(ActionEntries(actions, textFromType, writeExpr))
  }

  /**
   * The event stream of MemoryZoneModifier::writeJSon as written: each
   * action opens an object, writes "type" and "content", and the object
   * is never closed.
   */
  function WriteModifierAsWritten(actions: seq<ZoneAction>, textFromType: TypeAction -> string,
                                  writeExpr: Expr -> Json): (ts: seq<Token>)
    ensures |ts| >= 2 && ts[0] == TOpenArray && ts[|ts| - 1] == TCloseArray
  {
    [TOpenArray] + UnclosedEntries(actions, textFromType, writeExpr) + [TCloseArray]
  }

  function UnclosedEntries(actions: seq<ZoneAction>, textFromType: TypeAction -> string,
                           writeExpr: Expr -> Json): seq<Token>
  {
    if actions == [] then []
    else
      var a := actions[0];
      [TOpenObject, TKey("type"), TString(textFromType(ActionType(a))), TKey("content")]
        + Events(WriteAction(a, writeExpr)) + UnclosedEntries(actions[1..], textFromType, writeExpr)
  }

  lemma {:induction false} UnclosedEntriesBalance(actions: seq<ZoneAction>, textFromType: TypeAction -> string,
                                                  writeExpr: Expr -> Json)
    ensures Balance(UnclosedEntries(actions, textFromType, writeExpr)) == |actions|
    decreases |actions|
  {
    if actions != [] {
      var a := actions[0];
      var head := [TOpenObject, TKey("type"), TString(textFromType(ActionType(a))), TKey("content")];
      UnclosedEntriesBalance(actions[1..], textFromType, writeExpr);
      assert Balance(head) == 1 by {
        var tail := [TKey("content")];
        assert Balance(tail) == 0 by { assert tail[1..] == []; }
        var tail2 := [TString(textFromType(ActionType(a)))] + tail;
        assert Balance(tail2) == 0 by { assert tail2[1..] == tail; }
        var tail3 := [TKey("type")] + tail2;
        assert Balance(tail3) == 0 by { assert tail3[1..] == tail2; }
        assert head == [TOpenObject] + tail3;
        assert head[1..] == tail3;
      }
      EventsBalanced(WriteAction(a, writeExpr));
      BalanceConcat(head, Events(WriteAction(a, writeExpr)));
      BalanceConcat(head + Events(WriteAction(a, writeExpr)), UnclosedEntries(actions[1..], textFromType, writeExpr));
    }
  }

  /**
   * The writer as written leaves one object open per action, so its output
   * is not a well-nested document as soon as there is an action; the
   * corrected writer's output is the event stream of a value and closes
   * everything it opens.
   */
  lemma ModifierWriterUnbalanced(actions: seq<ZoneAction>, textFromType: TypeAction -> string,
                                 writeExpr: Expr -> Json)
    ensures Balance(WriteModifierAsWritten(actions, textFromType, writeExpr)) == |actions|
    ensures Balance(Events(WriteModifier(actions, textFromType, writeExpr))) == 0
  {
    UnclosedEntriesBalance(actions, textFromType, writeExpr);
    BalanceConcat([TOpenArray], UnclosedEntries(actions, textFromType, writeExpr));
    BalanceConcat([TOpenArray] + UnclosedEntries(actions, textFromType, writeExpr), [TCloseArray]);
    EventsBalanced(WriteModifier(actions, textFromType, writeExpr));
  }

  /** Every action's kind and expressions survive writing and reading back. */
  predicate ActionsRoundTrip(actions: seq<ZoneAction>, textFromType: TypeAction -> string,
                             typeFromText: string -> TypeAction,
                             readExpr: Json -> Expr, writeExpr: Expr -> Json)
  {
    forall k :: 0 <= k < |actions| ==>
      typeFromText(textFromType(ActionType(actions[k]))) == ActionType(actions[k]) &&
      ExprsRoundTrip(actions[k], readExpr, writeExpr)
  }

  /** Reading one entry the writer emits appends its action. */
  lemma ReadEntry(st: ModifierState, a: ZoneAction, asWritten: bool,
                  textFromType: TypeAction -> string, typeFromText: string -> TypeAction,
                  readExpr: Json -> Expr, writeExpr: Expr -> Json)
    requires st.outcome == Complete
    requires typeFromText(textFromType(ActionType(a))) == ActionType(a)
    requires ExprsRoundTrip(a, readExpr, writeExpr)
    ensures ReadObject(st, ActionEntry(a, textFromType, writeExpr).members, 0, asWritten, typeFromText, readExpr)
            == ModifierState(ActionType(a), st.actions + [a], st.diag, Complete)
  {
    var ms := ActionEntry(a, textFromType, writeExpr).members;
    var typed := st.(kind := ActionType(a));
    assert TypeMember(st, ms[0].value, typeFromText) == typed;
    WriteThenRead(a, st.diag, readExpr, writeExpr);
    var afterContent := ContentMember(typed, ms[1].value, readExpr);
    assert afterContent == ModifierState(ActionType(a), st.actions + [a], st.diag, Complete);
    assert ReadObject(afterContent, ms, 2, asWritten, typeFromText, readExpr) == afterContent;
    if !asWritten {
      assert ReadObject(typed, ms, 1, asWritten, typeFromText, readExpr) == afterContent;
    }
  }

  lemma {:induction false} ReadEntries(st: ModifierState, actions: seq<ZoneAction>, i: nat, asWritten: bool,
                                       textFromType: TypeAction -> string, typeFromText: string -> TypeAction,
                                       readExpr: Json -> Expr, writeExpr: Expr -> Json)
    requires i <= |actions|
    requires st.outcome == Complete
    requires ActionsRoundTrip(actions, textFromType, typeFromText, readExpr, writeExpr)
    ensures var r := ReadElements(st, ActionEntries(actions, textFromType, writeExpr), i, asWritten,
                                  typeFromText, readExpr);
      r.outcome == Complete && r.diag == st.diag && r.actions == st.actions + actions[i..]
    decreases |actions| - i
  {
    var es := ActionEntries(actions, textFromType, writeExpr);
    if i == |actions| {
      assert actions[i..] == [];
    } else {
      var a := actions[i];
      assert typeFromText(textFromType(ActionType(a))) == ActionType(a) && ExprsRoundTrip(a, readExpr, writeExpr);
      ReadEntry(st, a, asWritten, textFromType, typeFromText, readExpr, writeExpr);
      var next := ModifierState(ActionType(a), st.actions + [a], st.diag, Complete);
      assert es[i] == ActionEntry(a, textFromType, writeExpr);
      assert ReadElements(st, es, i, asWritten, typeFromText, readExpr)
          == ReadElements(next, es, i + 1, asWritten, typeFromText, readExpr);
      ReadEntries(next, actions, i + 1, asWritten, textFromType, typeFromText, readExpr, writeExpr);
      AppendNext(st.actions, actions, i);
    }
  }

  /** Moving one element from the front of a suffix to the end of a prefix. */
  lemma AppendNext<T>(xs: seq<T>, ys: seq<T>, i: nat)
    requires i < |ys|
    ensures xs + [ys[i]] + ys[i + 1..] == xs + ys[i..]
  {
    assert ys[i..] == [ys[i]] + ys[i + 1..];
  }

  /**
   * Writing a modifier with every action object closed and reading it back
   * gives the same actions in the same order and no diagnostic, with the
   * corrected reader and with the reader as written alike.
   */
  lemma ModifierRoundTrip(actions: seq<ZoneAction>, d: Diagnostics,
                          textFromType: TypeAction -> string, typeFromText: string -> TypeAction,
                          readExpr: Json -> Expr, writeExpr: Expr -> Json)
    requires ActionsRoundTrip(actions, textFromType, typeFromText, readExpr, writeExpr)
    ensures ReadModifier(WriteModifier(actions, textFromType, writeExpr), d, typeFromText, readExpr)
            == ModifierRead(actions, d, Complete)
    ensures ReadModifierAsWritten(WriteModifier(actions, textFromType, writeExpr), d, typeFromText, readExpr)
            == ModifierRead(actions, d, Complete)
  {
    var st := ModifierState(TAUndefined, [], d, Complete);
    ReadEntries(st, actions, 0, false, textFromType, typeFromText, readExpr, writeExpr);
    ReadEntries(st, actions, 0, true, textFromType, typeFromText, readExpr, writeExpr);
    assert actions[0..] == actions;
  }

  /**
   * A modifier whose second object names its kind after its content: the
   * reader as written steps over that object's closing brace and leaves the
   * model's scope; the corrected reader reads both merges.
   */
  lemma TypeLastCounterexample(d: Diagnostics, typeFromText: string -> TypeAction, readExpr: Json -> Expr)
    requires typeFromText("merge") == TAMerge
    ensures var merge := JObject([Member("old_name", JString("a")), Member("new_name", JString("b"))]);
      var v := JArray([JObject([Member("type", JString("merge")), Member("content", merge)]),
                       JObject([Member("content", merge), Member("type", JString("merge"))])]);
      ReadModifierAsWritten(v, d, typeFromText, readExpr).outcome == Unsupported &&
      ReadModifier(v, d, typeFromText, readExpr) ==
        ModifierRead([MergeAction("a", "b"), MergeAction("a", "b")], d, Complete)
  {
    var merge := JObject([Member("old_name", JString("a")), Member("new_name", JString("b"))]);
    var ms := merge.members;
    assert ms[..1] == [ms[0]];
    assert ReadMembers(MergeAction("", ""), ms, readExpr) == Some(MergeAction("a", "b"));
  }
}
