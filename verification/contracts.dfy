/**
 * Contracts and the contract graph: the localization codec, contract
 * validity, forward-reference resolution of contract ids while a graph is
 * read, the contract reader and writer over parsed JSON values, insertion
 * into the graph, the order in which a contract and its dominators are
 * applied to a memory state, and coverage recording.
 *
 * Pointers between contracts are modelled by handles: the handle of a
 * contract is its position in the graph. A pointer cell that a reader
 * fills in later (an edge of "nexts" or "previouses", or the dominator)
 * is a Slot, and the cells already filled in are the `bound` map.
 */
module Contracts {
  import opened Wrappers
  import opened JsonArguments
  import opened ZoneActions
  import Expressions
  import MemoryZones
  import Registers

  // ---------------------------------------------------------------------
  // Localization

  datatype Localization = CLBeforeInstruction | CLAfterInstruction | CLBetweenInstruction

  /**
   * getTextFromLocalization. A contract whose localization was never read
   * holds no enumerator; the default branch gives the empty text.
   */
  function TextFromLocalization(l: Option<Localization>): (s: string)
    ensures l.None? <==> s == ""
  {
    match l
    case None => ""
    case Some(CLBeforeInstruction) => "before"
    case Some(CLAfterInstruction) => "after"
    case Some(CLBetweenInstruction) => "between"
  }

  datatype LocalizationRead = LocalizationRead(localization: Option<Localization>, ok: bool)

  /**
   * setLocalizationFromText: the three names set the localization and
   * succeed; any other text fails and leaves the localization as it was.
   */
  function SetLocalizationFromText(current: Option<Localization>, text: string): (r: LocalizationRead)
    ensures r.ok <==> (text == "before" || text == "after" || text == "between")
    ensures !r.ok ==> r.localization == current
    ensures r.ok ==> r.localization.Some? && TextFromLocalization(r.localization) == text
  {
    if text == "before" then LocalizationRead(Some(CLBeforeInstruction), true)
    else if text == "after" then LocalizationRead(Some(CLAfterInstruction), true)
    else if text == "between" then LocalizationRead(Some(CLBetweenInstruction), true)
    else LocalizationRead(current, false)
  }

  /** Writing a localization and reading the text back gives the same localization. */
  lemma LocalizationRoundTrip(l: Localization, current: Option<Localization>)
    ensures SetLocalizationFromText(current, TextFromLocalization(Some(l))) == LocalizationRead(Some(l), true)
  {
  }

  // ---------------------------------------------------------------------
  // Forward-reference resolution of contract ids

  datatype EdgeField = NextEdge | PreviousEdge | DominatorEdge

  /** A pointer cell of contract `owner`: its index-th next or previous edge, or its dominator. */
  datatype Slot = Slot(owner: nat, field: EdgeField, index: nat)

  /** The cells waiting for the contract with the given id. */
  datatype PendingEntry = PendingEntry(id: int, slots: seq<Slot>)

  /**
   * The reading context shared by all contracts of a graph: the id map
   * (id to contract handle), the pending ids (an ordered map, kept as a
   * list sorted by id) and the pointer cells filled in so far.
   */
  datatype Resolver = Resolver(idMap: map<int, nat>, pending: seq<PendingEntry>, bound: map<Slot, nat>)

  function EmptyResolver(): (r: Resolver)
    ensures |r.idMap| == 0 && r.pending == [] && |r.bound| == 0
  {
    Resolver(map[], [], map[])
  }

  /** The pending list is ordered by strictly increasing id, as std::map keeps it. */
  predicate SortedIds(p: seq<PendingEntry>)
  {
    forall i, j :: 0 <= i < j < |p| ==> p[i].id < p[j].id
  }

  /** std::map::lower_bound: the first entry from i on whose id is not below id. */
  function LowerBoundFrom(p: seq<PendingEntry>, id: int, i: nat): (k: nat)
    requires i <= |p|
    requires forall j :: 0 <= j < i ==> p[j].id < id
    ensures i <= k <= |p|
    ensures forall j :: 0 <= j < k ==> p[j].id < id
    ensures k < |p| ==> p[k].id >= id
    decreases |p| - i
  {
    if i == |p| || p[i].id >= id then i else LowerBoundFrom(p, id, i + 1)
  }

  function LowerBound(p: seq<PendingEntry>, id: int): (k: nat)
    ensures k <= |p|
    ensures forall j :: 0 <= j < k ==> p[j].id < id
    ensures k < |p| ==> p[k].id >= id
  {
    LowerBoundFrom(p, id, 0)
  }

  /** Erasing one entry of a sorted list keeps it sorted and shifts the entries after it down by one. */
  lemma RemoveEntry(p: seq<PendingEntry>, k: nat)
    requires SortedIds(p) && k < |p|
    ensures var rest := p[..k] + p[k + 1..];
      SortedIds(rest) && |rest| == |p| - 1 &&
      forall i :: 0 <= i < |rest| ==> rest[i] == p[if i < k then i else i + 1]
  {
    var rest := p[..k] + p[k + 1..];
    assert forall i :: 0 <= i < |rest| ==> rest[i] == p[if i < k then i else i + 1];
  }

  /** An entry inserted where its id falls keeps the list sorted. */
  lemma InsertEntry(p: seq<PendingEntry>, k: nat, e: PendingEntry)
    requires SortedIds(p) && k <= |p|
    requires forall j :: 0 <= j < k ==> p[j].id < e.id
    requires k < |p| ==> p[k].id > e.id
    ensures SortedIds(p[..k] + [e] + p[k..])
  {
    var q := p[..k] + [e] + p[k..];
    assert forall i :: 0 <= i < |q| ==> q[i] == if i < k then p[i] else if i == k then e else p[i - 1];
  }

  /** In a sorted list, an entry with the id sits exactly at the lower bound. */
  lemma LowerBoundFinds(p: seq<PendingEntry>, id: int, j: nat)
    requires SortedIds(p) && j < |p| && p[j].id == id
    ensures LowerBound(p, id) == j
  {
    assert forall i :: 0 <= i < j ==> p[i].id < id;
    LowerBoundSkips(p, id, 0, j);
  }

  /** A pending entry with the id is the one at the lower bound; with only smaller ids, the bound is the end. */
  lemma PendingIdAtLowerBound(p: seq<PendingEntry>, id: int)
    requires SortedIds(p)
    ensures forall j :: 0 <= j < |p| && p[j].id == id ==> j == LowerBound(p, id)
    ensures (forall j :: 0 <= j < |p| ==> p[j].id < id) ==> LowerBound(p, id) == |p|
  {
    forall j | 0 <= j < |p| && p[j].id == id
      ensures j == LowerBound(p, id)
    {
      LowerBoundFinds(p, id, j);
    }
  }

  /** The scan passes every entry whose id is below the one sought. */
  lemma {:induction false} LowerBoundSkips(p: seq<PendingEntry>, id: int, i: nat, j: nat)
    requires i <= j <= |p|
    requires forall i' :: 0 <= i' < j ==> p[i'].id < id
    ensures LowerBoundFrom(p, id, i) >= j
    decreases j - i
  {
    if i < j {
      LowerBoundSkips(p, id, i + 1, j);
    }
  }

  /** Fills every listed cell with the contract handle; other cells keep their content. */
  function BindAll(bound: map<Slot, nat>, slots: seq<Slot>, handle: nat): (r: map<Slot, nat>)
    ensures forall s :: s in slots ==> s in r && r[s] == handle
    ensures forall s :: s in bound && s !in slots ==> s in r && r[s] == bound[s]
    ensures forall s :: s in r ==> s in bound || s in slots
    decreases |slots|
  {
    if slots == [] then bound else BindAll(bound[slots[0] := handle], slots[1..], handle)
  }

  datatype Registered = Registered(resolver: Resolver, ok: bool)

  /**
   * setContractId. An id already in the id map is refused and nothing
   * changes. Otherwise the id is mapped to the contract, every cell
   * queued under that id is filled with the contract, and that pending
   * entry is erased; the other pending entries stay as they were.
   */
  function SetContractId(r: Resolver, id: int, handle: nat): (res: Registered)
    requires SortedIds(r.pending)
    ensures id in r.idMap ==> res == Registered(r, false)
    ensures id !in r.idMap ==>
      res.ok && res.resolver.idMap == r.idMap[id := handle] && SortedIds(res.resolver.pending)
    ensures id !in r.idMap && (forall j :: 0 <= j < |r.pending| ==> r.pending[j].id != id) ==>
      res.resolver.pending == r.pending && res.resolver.bound == r.bound
    ensures id !in r.idMap ==> forall j :: 0 <= j < |r.pending| && r.pending[j].id == id ==>
      (forall s :: s in r.pending[j].slots ==> s in res.resolver.bound && res.resolver.bound[s] == handle) &&
      (forall s :: s in r.bound && s !in r.pending[j].slots ==>
         s in res.resolver.bound && res.resolver.bound[s] == r.bound[s]) &&
      |res.resolver.pending| == |r.pending| - 1 &&
      (forall i :: 0 <= i < |res.resolver.pending| ==>
         res.resolver.pending[i] == r.pending[if i < j then i else i + 1])
  {
    if id in r.idMap then Registered(r, false)
    else
      var k := LowerBound(r.pending, id);
      if k < |r.pending| && r.pending[k].id == id then
        var rest := r.pending[..k] + r.pending[k + 1..];
        RemoveEntry(r.pending, k);
        assert forall j :: 0 <= j < |r.pending| && r.pending[j].id == id ==> j == k by {
          forall j | 0 <= j < |r.pending| && r.pending[j].id == id
            ensures j == k
          {
            LowerBoundFinds(r.pending, id, j);
          }
        }
        Registered(Resolver(r.idMap[id := handle], rest, BindAll(r.bound, r.pending[k].slots, handle)), true)
      else
        Registered(Resolver(r.idMap[id := handle], r.pending, r.bound), true)
  }

  /**
   * lookForContractId. A registered id fills the cell at once. Otherwise
   * the cell is queued at the lower bound of the id. As written, a new
   * entry is created only when the lower bound is the end of the list or
   * already carries the id; when a larger id is pending, the cell joins
   * that larger id's list.
   */
  function LookForContractIdAsWritten(r: Resolver, id: int, slot: Slot): (res: Resolver)
    requires SortedIds(r.pending)
    ensures SortedIds(res.pending) && res.idMap == r.idMap
    ensures id in r.idMap ==> res == r.(bound := r.bound[slot := r.idMap[id]])
    ensures id !in r.idMap ==> res.bound == r.bound && |res.pending| >= |r.pending|
    ensures id !in r.idMap && (exists j :: 0 <= j < |r.pending| && r.pending[j].id > id)
            && (forall j :: 0 <= j < |r.pending| ==> r.pending[j].id != id) ==>
      var k := LowerBound(r.pending, id);
      res.pending == r.pending[k := PendingEntry(r.pending[k].id, r.pending[k].slots + [slot])]
    ensures id !in r.idMap ==> forall j :: 0 <= j < |r.pending| && r.pending[j].id == id ==>
      res.pending == r.pending[j := PendingEntry(id, r.pending[j].slots + [slot])]
    ensures id !in r.idMap && (forall j :: 0 <= j < |r.pending| ==> r.pending[j].id < id) ==>
      res.pending == r.pending + [PendingEntry(id, [slot])]
  {
    if id in r.idMap then r.(bound := r.bound[slot := r.idMap[id]])
    else
      var k := LowerBound(r.pending, id);
      PendingIdAtLowerBound(r.pending, id);
      if k == |r.pending| then
        r.(pending := r.pending + [PendingEntry(id, [slot])])
      else
        r.(pending := r.pending[k := PendingEntry(r.pending[k].id, r.pending[k].slots + [slot])])
  }

  /**
   * lookForContractId with a new entry for every id not yet pending: the
   * cell always joins the list of its own id.
   */
  function LookForContractId(r: Resolver, id: int, slot: Slot): (res: Resolver)
    requires SortedIds(r.pending)
    ensures SortedIds(res.pending) && res.idMap == r.idMap
    ensures id in r.idMap ==> res == r.(bound := r.bound[slot := r.idMap[id]])
    ensures id !in r.idMap ==> res.bound == r.bound
    ensures id !in r.idMap ==>
      exists k :: 0 <= k < |res.pending| && res.pending[k].id == id && slot in res.pending[k].slots
    ensures id !in r.idMap ==> forall j :: 0 <= j < |r.pending| && r.pending[j].id == id ==>
      res.pending == r.pending[j := PendingEntry(id, r.pending[j].slots + [slot])]
    ensures id !in r.idMap && (forall j :: 0 <= j < |r.pending| ==> r.pending[j].id != id) ==>
      exists k :: 0 <= k <= |r.pending| && res.pending == r.pending[..k] + [PendingEntry(id, [slot])] + r.pending[k..]
  {
    if id in r.idMap then r.(bound := r.bound[slot := r.idMap[id]])
    else
      var k := LowerBound(r.pending, id);
      PendingIdAtLowerBound(r.pending, id);
      if k < |r.pending| && r.pending[k].id == id then
        var p := r.pending[k := PendingEntry(id, r.pending[k].slots + [slot])];
        assert p[k].id == id && slot in p[k].slots;
        r.(pending := p)
      else
        var p := r.pending[..k] + [PendingEntry(id, [slot])] + r.pending[k..];
        InsertEntry(r.pending, k, PendingEntry(id, [slot]));
        assert p[k].id == id && slot in p[k].slots;
        r.(pending := p)
  }

  /**
   * A reference to a contract read later is resolved to that contract
   * once its id is registered.
   */
  lemma ForwardReferenceResolved(r: Resolver, id: int, slot: Slot, handle: nat)
    requires SortedIds(r.pending) && id !in r.idMap
    ensures var looked := LookForContractId(r, id, slot);
      var set_ := SetContractId(looked, id, handle);
      set_.ok && slot in set_.resolver.bound && set_.resolver.bound[slot] == handle
  {
    var looked := LookForContractId(r, id, slot);
    var k :| 0 <= k < |looked.pending| && looked.pending[k].id == id && slot in looked.pending[k].slots;
    LowerBoundFinds(looked.pending, id, k);
  }

  /**
   * As written, a reference to id 3 made while id 5 is pending is queued
   * under 5: registering 3 leaves it unresolved and registering 5 fills it
   * with the contract of id 5.
   */
  lemma LookForCounterexample()
    ensures var s1 := Slot(0, NextEdge, 0);
      var s2 := Slot(1, NextEdge, 0);
      var r := Resolver(map[], [PendingEntry(5, [s1])], map[]);
      var looked := LookForContractIdAsWritten(r, 3, s2);
      var after3 := SetContractId(looked, 3, 7);
      var after5 := SetContractId(after3.resolver, 5, 8);
      s2 !in after3.resolver.bound &&
      s2 in after5.resolver.bound && after5.resolver.bound[s2] == 8
  {
    var s1 := Slot(0, NextEdge, 0);
    var s2 := Slot(1, NextEdge, 0);
    var r := Resolver(map[], [PendingEntry(5, [s1])], map[]);
    assert LowerBound(r.pending, 3) == 0;
    var looked := LookForContractIdAsWritten(r, 3, s2);
    assert [s1] + [s2] == [s1, s2];
    assert looked.pending == [PendingEntry(5, [s1, s2])];
    var after3 := SetContractId(looked, 3, 7);
    assert forall j :: 0 <= j < |looked.pending| ==> looked.pending[j].id != 3;
    assert after3.resolver.bound == map[] && after3.resolver.pending == looked.pending;
    assert 5 !in after3.resolver.idMap;
    assert after3.resolver.pending[0].id == 5 && s2 in after3.resolver.pending[0].slots;
  }

  // ---------------------------------------------------------------------
  // Contracts

  /**
   * A contract: how many next and previous edges it holds (their targets
   * are the cells Slot(handle, NextEdge, k) and Slot(handle, PreviousEdge,
   * k)), its id and address, its localization (None until one is read),
   * its zone modifier, its memory constraints as read and whether it
   * belongs to a graph (pcgParent).
   */
  datatype Contract = Contract(
    nextCount: nat, previousCount: nat, id: int, address: int,
    localization: Option<Localization>, zones: seq<ZoneAction>, constraints: Option<Json>,
    hasParent: bool)

  function NewContract(): (c: Contract)
    ensures !IsValidContract(c) && c.nextCount == 0 && c.previousCount == 0 && !c.hasParent
  {
    Contract(0, 0, 0, 0, None, [], None, false)
  }

  /** isValid: a positive id and a non-null address. */
  predicate IsValidContract(c: Contract)
  {
    c.id > 0 && c.address != 0
  }

  /** The key a graph orders its contracts by. */
  function Key(c: Contract): (k: int)
    ensures k == c.address
  {
    c.address
  }

  function EdgeCount(c: Contract, field: EdgeField): nat
    requires field != DominatorEdge
  {
    if field == NextEdge then c.nextCount else c.previousCount
  }

  function WithEdgeCount(c: Contract, field: EdgeField, n: nat): (r: Contract)
    requires field != DominatorEdge
    ensures EdgeCount(r, field) == n
    ensures field == NextEdge ==> r.previousCount == c.previousCount
    ensures field == PreviousEdge ==> r.nextCount == c.nextCount
    ensures r.id == c.id && r.address == c.address && r.localization == c.localization
    ensures r.zones == c.zones && r.constraints == c.constraints && r.hasParent == c.hasParent
  {
    if field == NextEdge then c.(nextCount := n) else c.(previousCount := n)
  }

  // ---------------------------------------------------------------------
  // Contract reader

  /** What the contract reader carries from member to member. */
  datatype ContractState = ContractState(contract: Contract, resolver: Resolver, diag: Diagnostics, outcome: Outcome)

  /** Number of scalar elements from position i on. */
  function ScalarsFrom(es: seq<Json>, i: nat): nat
    requires i <= |es|
    decreases |es| - i
  {
    if i == |es| then 0 else (if IsScalar(es[i]) then 1 else 0) + ScalarsFrom(es, i + 1)
  }

  /**
   * The elements of "nexts" or "previouses": each scalar is converted to
   * an int, appends one edge and looks its id up; containers are skipped.
   */
  function ReadEdges(st: ContractState, field: EdgeField, owner: nat, es: seq<Json>, i: nat,
                     asWritten: bool): (r: ContractState)
    requires field != DominatorEdge && i <= |es|
    requires SortedIds(st.resolver.pending)
    ensures SortedIds(r.resolver.pending)
    ensures EdgeCount(r.contract, field) == EdgeCount(st.contract, field) + ScalarsFrom(es, i)
    ensures field == NextEdge ==> r.contract.previousCount == st.contract.previousCount
    ensures field == PreviousEdge ==> r.contract.nextCount == st.contract.nextCount
    ensures r.contract.id == st.contract.id && r.contract.address == st.contract.address
    ensures r.contract.localization == st.contract.localization && r.contract.zones == st.contract.zones
    ensures r.contract.constraints == st.contract.constraints && r.contract.hasParent == st.contract.hasParent
    ensures r.resolver.idMap == st.resolver.idMap && r.outcome == st.outcome
    decreases |es| - i
  {
    if i == |es| then st
    else if IsScalar(es[i]) then
      var conv := ScalarToInt(es[i], st.diag);
      var index := EdgeCount(st.contract, field);
      var slot := Slot(owner, field, index);
      var resolver :=
        if asWritten then LookForContractIdAsWritten(st.resolver, conv.args.number, slot)
        else LookForContractId(st.resolver, conv.args.number, slot);
      ReadEdges(ContractState(WithEdgeCount(st.contract, field, index + 1), resolver, conv.diag, st.outcome),
                field, owner, es, i + 1, asWritten)
    else ReadEdges(st, field, owner, es, i + 1, asWritten)
  }

  /** An error that lets the reader go on only when the accumulator agrees. */
  function Report(st: ContractState, message: string): (r: ContractState)
    ensures r.contract == st.contract && r.resolver == st.resolver
    ensures r.diag == AddErrorMessage(st.diag, message).diag
    ensures r.outcome == (if AddErrorMessage(st.diag, message).proceed then st.outcome else Stopped)
  {
    var logged := AddErrorMessage(st.diag, message);
    ContractState(st.contract, st.resolver, logged.diag, if logged.proceed then st.outcome else Stopped)
  }

  /** The 64-bit unsigned reading of an integer. */
  function ToUInt64(x: int): (r: int)
    ensures 0 <= r < 0x1_0000_0000_0000_0000
    ensures 0 <= x < 0x1_0000_0000_0000_0000 ==> r == x
  {
    x % 0x1_0000_0000_0000_0000
  }

  /**
   * The integer a 64-bit reader keeps from a scalar: a number as written
   * in the document, any other scalar as its int conversion.
   */
  function WideScalar(v: Json, converted: int): int
  {
    if v.JInt? then v.i else converted
  }

  /** Number of scalar elements over the arrays held by members with the given key. */
  function EdgeScalars(ms: seq<Member>, key: string, i: nat): nat
    requires i <= |ms|
    decreases |ms| - i
  {
    if i == |ms| then 0
    else (if ms[i].key == key && ms[i].value.JArray? then ScalarsFrom(ms[i].value.elements, 0) else 0)
         + EdgeScalars(ms, key, i + 1)
  }

  /**
   * One member of a contract object. "nexts" and "previouses" need an
   * array ("expected '['" otherwise, the value being skipped); "dominator"
   * and "id" take a scalar converted to an int; "address" takes a scalar
   * converted to an unsigned 64-bit int, which as written is never
   * stored; "localization" takes a string; "zones" is read by the zone
   * modifier reader and appended; "constraints" is kept as read. Other
   * members are skipped.
   */
  function ReadMember(st: ContractState, m: Member, owner: nat, asWritten: bool,
                      typeFromText: string -> TypeAction, readExpr: Json -> Expressions.Expr): (r: ContractState)
    requires SortedIds(st.resolver.pending) && st.outcome == Complete
    ensures SortedIds(r.resolver.pending)
    ensures r.contract.nextCount == st.contract.nextCount +
      (if m.key == "nexts" && m.value.JArray? then ScalarsFrom(m.value.elements, 0) else 0)
    ensures r.contract.previousCount == st.contract.previousCount +
      (if m.key == "previouses" && m.value.JArray? then ScalarsFrom(m.value.elements, 0) else 0)
    ensures asWritten ==> r.contract.address == st.contract.address
    ensures !asWritten && m.key == "address" && m.value.JInt? ==>
      r.contract.address == ToUInt64(m.value.i) && r.diag == st.diag
    ensures m.key == "id" && m.value.JInt? ==>
      r.contract.id == ToInt32(m.value.i) && r.outcome == Complete &&
      (ToInt32(m.value.i) !in st.resolver.idMap ==>
         r.resolver.idMap == st.resolver.idMap[ToInt32(m.value.i) := owner])
    ensures m.key == "localization" && m.value.JString? ==>
      r.contract.localization == SetLocalizationFromText(st.contract.localization, m.value.s).localization &&
      (SetLocalizationFromText(st.contract.localization, m.value.s).ok ==> r.diag == st.diag) &&
      (!SetLocalizationFromText(st.contract.localization, m.value.s).ok ==>
         r.diag == AddErrorMessage(st.diag, "invalid localization").diag)
    ensures r.contract.hasParent == st.contract.hasParent
    ensures m.key != "id" ==> r.contract.id == st.contract.id
    ensures m.key !in {"nexts", "previouses", "dominator", "id", "address", "localization", "zones", "constraints"} ==>
      r == st
  {
    var c := st.contract;
    if m.key == "nexts" || m.key == "previouses" then
      var field := if m.key == "nexts" then NextEdge else PreviousEdge;
      if m.value.JArray? then ReadEdges(st, field, owner, m.value.elements, 0, asWritten)
      else Report(st, "expected '['")
    else if m.key == "dominator" then
      if IsScalar(m.value) then
        var conv := ScalarToInt(m.value, st.diag);
        var slot := Slot(owner, DominatorEdge, 0);
        var resolver :=
          if asWritten then LookForContractIdAsWritten(st.resolver, conv.args.number, slot)
          else LookForContractId(st.resolver, conv.args.number, slot);
        ContractState(c, resolver, conv.diag, st.outcome)
      else st
    else if m.key == "id" then
      if IsScalar(m.value) then
        var conv := ScalarToInt(m.value, st.diag);
        var registered := SetContractId(st.resolver, conv.args.number, owner);
        ContractState(c.(id := conv.args.number), registered.resolver, conv.diag, st.outcome)
      else st
    else if m.key == "address" then
      if IsScalar(m.value) then
        var conv := ScalarToInt(m.value, st.diag);
        // the converted event is an int, never the unsigned 64-bit kind the test asks for;
        // the correction reads the full integer as an unsigned 64-bit value
        var address := if asWritten then c.address else ToUInt64(WideScalar(m.value, conv.args.number));
        ContractState(c.(address := address), st.resolver, conv.diag, st.outcome)
      else st
    else if m.key == "localization" then
      if m.value.JString? then
        var read := SetLocalizationFromText(c.localization, m.value.s);
        var updated := st.(contract := c.(localization := read.localization));
        if read.ok then updated else Report(updated, "invalid localization")
      else if IsScalar(m.value) then st
      else st.(outcome := Unsupported)
    else if m.key == "zones" then
      var read := ReadModifierWith(m.value, st.diag, asWritten, typeFromText, readExpr);
      ContractState(c.(zones := c.zones + read.actions), st.resolver, read.diag, read.outcome)
    else if m.key == "constraints" then
      st.(contract := c.(constraints := Some(m.value)))
    else st
  }

  /** The members of a contract object from position i on, while reading goes on. */
  function ReadMembers(st: ContractState, ms: seq<Member>, i: nat, owner: nat, asWritten: bool,
                       typeFromText: string -> TypeAction, readExpr: Json -> Expressions.Expr): (r: ContractState)
    requires i <= |ms| && SortedIds(st.resolver.pending)
    ensures SortedIds(r.resolver.pending)
    ensures st.outcome != Complete ==> r == st
    ensures r.outcome == Complete ==>
      r.contract.nextCount == st.contract.nextCount + EdgeScalars(ms, "nexts", i) &&
      r.contract.previousCount == st.contract.previousCount + EdgeScalars(ms, "previouses", i)
    ensures asWritten ==> r.contract.address == st.contract.address
    ensures r.contract.hasParent == st.contract.hasParent
    decreases |ms| - i
  {
    if i == |ms| || st.outcome != Complete then st
    else ReadMembers(ReadMember(st, ms[i], owner, asWritten, typeFromText, readExpr),
                     ms, i + 1, owner, asWritten, typeFromText, readExpr)
  }

  /** End of the object: an invalid contract records "contract is not complete". */
  function FinishContract(st: ContractState): (r: ContractState)
    ensures IsValidContract(st.contract) ==> r == st
    ensures !IsValidContract(st.contract) ==> r == Report(st, "contract is not complete")
  {
    if IsValidContract(st.contract) then st else Report(st, "contract is not complete")
  }

  /**
   * Contract::readJSon for the contract with the given handle. A value
   * that is not an object records "expected '{'"; the reader would then
   * go on with whatever follows, which is not modelled.
   */
  function ReadContractWith(v: Json, owner: nat, resolver: Resolver, d: Diagnostics, asWritten: bool,
                            typeFromText: string -> TypeAction, readExpr: Json -> Expressions.Expr): (r: ContractState)
    requires SortedIds(resolver.pending)
    ensures SortedIds(r.resolver.pending)
    ensures !r.contract.hasParent
    ensures !v.JObject? ==>
      r.contract == NewContract() && r.diag == AddErrorMessage(d, "expected '{'").diag && r.outcome != Complete
    ensures v.JObject? && r.outcome == Complete ==>
      r.contract.nextCount == EdgeScalars(v.members, "nexts", 0) &&
      r.contract.previousCount == EdgeScalars(v.members, "previouses", 0)
    ensures asWritten ==> r.contract.address == 0 && !IsValidContract(r.contract)
  {
    if v.JObject? then
      var st := ReadMembers(ContractState(NewContract(), resolver, d, Complete), v.members, 0,
                            owner, asWritten, typeFromText, readExpr);
      if st.outcome == Complete then FinishContract(st) else st
    else
      var logged := AddErrorMessage(d, "expected '{'");
      ContractState(NewContract(), resolver, logged.diag, if logged.proceed then Unsupported else Stopped)
  }

  /** The contract reader as written: the address is never stored. */
  function ReadContractAsWritten(v: Json, owner: nat, resolver: Resolver, d: Diagnostics,
                                 typeFromText: string -> TypeAction, readExpr: Json -> Expressions.Expr): (r: ContractState)
    requires SortedIds(resolver.pending)
    ensures r.contract.address == 0 && !IsValidContract(r.contract)
  {
    ReadContractWith(v, owner, resolver, d, true, typeFromText, readExpr)
  }

  /**
   * The contract reader storing the address and queuing every forward
   * reference under its own id; the rest of the model uses it.
   */
  function ReadContract(v: Json, owner: nat, resolver: Resolver, d: Diagnostics,
                        typeFromText: string -> TypeAction, readExpr: Json -> Expressions.Expr): (r: ContractState)
    requires SortedIds(resolver.pending)
    ensures v.JObject? && r.outcome == Complete ==>
      r.contract.nextCount == EdgeScalars(v.members, "nexts", 0) &&
      r.contract.previousCount == EdgeScalars(v.members, "previouses", 0)
  {
    ReadContractWith(v, owner, resolver, d, false, typeFromText, readExpr)
  }

  /**
   * A contract giving a positive id and a non-null address is complete
   * once the address is stored; as written it is reported incomplete.
   */
  lemma AddressCounterexample(d: Diagnostics, typeFromText: string -> TypeAction,
                              readExpr: Json -> Expressions.Expr)
    ensures var v := JObject([Member("id", JInt(1)), Member("address", JInt(4096))]);
      var fixed := ReadContract(v, 0, EmptyResolver(), d, typeFromText, readExpr);
      var written := ReadContractAsWritten(v, 0, EmptyResolver(), d, typeFromText, readExpr);
      IsValidContract(fixed.contract) && fixed.diag == d && fixed.outcome == Complete &&
      !IsValidContract(written.contract) &&
      written.diag == AddErrorMessage(d, "contract is not complete").diag
  {
    var ms := [Member("id", JInt(1)), Member("address", JInt(4096))];
    var st0 := ContractState(NewContract(), EmptyResolver(), d, Complete);
    ToInt32Identity(1);
    ToInt32Identity(4096);
    var fixed1 := ReadMember(st0, ms[0], 0, false, typeFromText, readExpr);
    var fixed2 := ReadMember(fixed1, ms[1], 0, false, typeFromText, readExpr);
    assert ReadMembers(st0, ms, 0, 0, false, typeFromText, readExpr) == ReadMembers(fixed1, ms, 1, 0, false, typeFromText, readExpr);
    assert ReadMembers(fixed1, ms, 1, 0, false, typeFromText, readExpr) == ReadMembers(fixed2, ms, 2, 0, false, typeFromText, readExpr);
    assert IsValidContract(fixed2.contract);
    var written1 := ReadMember(st0, ms[0], 0, true, typeFromText, readExpr);
    var written2 := ReadMember(written1, ms[1], 0, true, typeFromText, readExpr);
    assert ReadMembers(st0, ms, 0, 0, true, typeFromText, readExpr) == ReadMembers(written1, ms, 1, 0, true, typeFromText, readExpr);
    assert ReadMembers(written1, ms, 1, 0, true, typeFromText, readExpr) == ReadMembers(written2, ms, 2, 0, true, typeFromText, readExpr);
    assert written2.diag == d && written2.outcome == Complete;
  }

  // ---------------------------------------------------------------------
  // Contract writer

  /**
   * The ids of the filled cells of one edge list, in order; a cell still
   * waiting for its contract is not written.
   */
  function EdgeIds(owner: nat, field: EdgeField, index: nat, count: nat, bound: map<Slot, nat>,
                   idOf: nat -> int): (es: seq<Json>)
    requires index <= count
    ensures |es| <= count - index
    ensures forall k :: 0 <= k < |es| ==> es[k].JInt?
    decreases count - index
  {
    if index == count then []
    else
      var slot := Slot(owner, field, index);
      (if slot in bound then [JInt(idOf(bound[slot]))] else []) + EdgeIds(owner, field, index + 1, count, bound, idOf)
  }

  /**
   * Contract::writeJSon for the contract with the given handle, where
   * idOf gives the id of the contract a handle designates. As written the
   * previous edges go under a second "nexts" key.
   */
  function WriteContractWith(c: Contract, owner: nat, bound: map<Slot, nat>, idOf: nat -> int,
                             asWritten: bool, textFromType: TypeAction -> string,
                             writeExpr: Expressions.Expr -> Json): (v: Json)
    ensures v.JObject? && |v.members| >= 7
  {
    var dominator := Slot(owner, DominatorEdge, 0);
    JObject(
      [Member("nexts", JArray(EdgeIds(owner, NextEdge, 0, c.nextCount, bound, idOf))),
       Member(if asWritten then "nexts" else "previouses",
              JArray(EdgeIds(owner, PreviousEdge, 0, c.previousCount, bound, idOf)))]
      + (if dominator in bound then [Member("dominator", JInt(idOf(bound[dominator])))] else [])
      + [Member("id", JInt(c.id)),
         Member("address", JInt(c.address)),
         Member("localization", JString(TextFromLocalization(c.localization))),
         Member("zones", WriteModifier(c.zones, textFromType, writeExpr)),
         Member("constraints", c.constraints.GetOr(JObject([])))])
  }

  /** The contract writer as written: both edge lists go under "nexts". */
  function WriteContractAsWritten(c: Contract, owner: nat, bound: map<Slot, nat>, idOf: nat -> int,
                                  textFromType: TypeAction -> string,
                                  writeExpr: Expressions.Expr -> Json): (v: Json)
    ensures v.JObject?
    ensures KeysFrom(v.members, "nexts", 0) == 2 && KeysFrom(v.members, "previouses", 0) == 0
  {
    var v := WriteContractWith(c, owner, bound, idOf, true, textFromType, writeExpr);
    EdgeKeysWritten(c, owner, bound, idOf, true, textFromType, writeExpr);
    v
  }

  /** The contract writer emitting the previous edges under "previouses". */
  function WriteContract(c: Contract, owner: nat, bound: map<Slot, nat>, idOf: nat -> int,
                         textFromType: TypeAction -> string,
                         writeExpr: Expressions.Expr -> Json): (v: Json)
    ensures v.JObject?
    ensures KeysFrom(v.members, "nexts", 0) == 1 && KeysFrom(v.members, "previouses", 0) == 1
  {
    var v := WriteContractWith(c, owner, bound, idOf, false, textFromType, writeExpr);
    EdgeKeysWritten(c, owner, bound, idOf, false, textFromType, writeExpr);
    v
  }

  /** How many times each edge key occurs in the writer's output. */
  lemma EdgeKeysWritten(c: Contract, owner: nat, bound: map<Slot, nat>, idOf: nat -> int,
                        asWritten: bool, textFromType: TypeAction -> string,
                        writeExpr: Expressions.Expr -> Json)
    ensures var v := WriteContractWith(c, owner, bound, idOf, asWritten, textFromType, writeExpr);
      KeysFrom(v.members, "nexts", 0) == (if asWritten then 2 else 1) &&
      KeysFrom(v.members, "previouses", 0) == (if asWritten then 0 else 1)
  {
    var ms := WriteContractWith(c, owner, bound, idOf, asWritten, textFromType, writeExpr).members;
    assert forall j :: 2 <= j < |ms| ==> ms[j].key != "nexts" && ms[j].key != "previouses";
    KeysAbsent(ms, "nexts", 2);
    KeysAbsent(ms, "previouses", 2);
  }

  /** Number of members with the given key from position i on. */
  function KeysFrom(ms: seq<Member>, key: string, i: nat): nat
    requires i <= |ms|
    decreases |ms| - i
  {
    if i == |ms| then 0 else (if ms[i].key == key then 1 else 0) + KeysFrom(ms, key, i + 1)
  }

  /** The writer emits "dominator" exactly when the dominator is set. */
  lemma DominatorWrittenIffSet(c: Contract, owner: nat, bound: map<Slot, nat>, idOf: nat -> int,
                               asWritten: bool, textFromType: TypeAction -> string,
                               writeExpr: Expressions.Expr -> Json)
    ensures var v := WriteContractWith(c, owner, bound, idOf, asWritten, textFromType, writeExpr);
      KeysFrom(v.members, "dominator", 0) == (if Slot(owner, DominatorEdge, 0) in bound then 1 else 0)
  {
    var v := WriteContractWith(c, owner, bound, idOf, asWritten, textFromType, writeExpr);
    var ms := v.members;
    var set_ := Slot(owner, DominatorEdge, 0) in bound;
    var tail := if set_ then 3 else 2;
    assert forall j :: tail <= j < |ms| ==> ms[j].key != "dominator";
    KeysAbsent(ms, "dominator", tail);
    assert KeysFrom(ms, "dominator", 0) == KeysFrom(ms, "dominator", 2);
  }

  /** No member from position i on carries the key. */
  lemma {:induction false} KeysAbsent(ms: seq<Member>, key: string, i: nat)
    requires i <= |ms|
    requires forall j :: i <= j < |ms| ==> ms[j].key != key
    ensures KeysFrom(ms, key, i) == 0
    decreases |ms| - i
  {
    if i < |ms| {
      KeysAbsent(ms, key, i + 1);
    }
  }

  /** Members from position i on whose key is absent contribute no edge. */
  lemma {:induction false} EdgeScalarsAbsent(ms: seq<Member>, key: string, i: nat)
    requires i <= |ms|
    requires forall j :: i <= j < |ms| ==> ms[j].key != key
    ensures EdgeScalars(ms, key, i) == 0
    decreases |ms| - i
  {
    if i < |ms| {
      EdgeScalarsAbsent(ms, key, i + 1);
    }
  }

  /** Every element of a list of scalars counts. */
  lemma {:induction false} AllScalars(es: seq<Json>, i: nat)
    requires i <= |es|
    requires forall k :: 0 <= k < |es| ==> IsScalar(es[k])
    ensures ScalarsFrom(es, i) == |es| - i
    decreases |es| - i
  {
    if i < |es| {
      AllScalars(es, i + 1);
    }
  }

  /**
   * Writing a contract and reading it back to the end: the written edges
   * come back as edges, except that as written the previous edges come
   * back as next edges and no previous edge is left.
   */
  lemma WriteThenReadEdges(c: Contract, owner: nat, bound: map<Slot, nat>, idOf: nat -> int, asWritten: bool,
                           textFromType: TypeAction -> string, writeExpr: Expressions.Expr -> Json,
                           reader: nat, resolver: Resolver, d: Diagnostics, readAsWritten: bool,
                           typeFromText: string -> TypeAction, readExpr: Json -> Expressions.Expr)
    requires SortedIds(resolver.pending)
    ensures var ns := EdgeIds(owner, NextEdge, 0, c.nextCount, bound, idOf);
      var ps := EdgeIds(owner, PreviousEdge, 0, c.previousCount, bound, idOf);
      var v := WriteContractWith(c, owner, bound, idOf, asWritten, textFromType, writeExpr);
      var read := ReadContractWith(v, reader, resolver, d, readAsWritten, typeFromText, readExpr);
      read.outcome == Complete ==>
        read.contract.nextCount == |ns| + (if asWritten then |ps| else 0) &&
        read.contract.previousCount == (if asWritten then 0 else |ps|)
  {
    WrittenEdgeScalars(c, owner, bound, idOf, asWritten, textFromType, writeExpr);
  }

  /** The scalars a written contract holds under "nexts" and under "previouses". */
  lemma WrittenEdgeScalars(c: Contract, owner: nat, bound: map<Slot, nat>, idOf: nat -> int, asWritten: bool,
                           textFromType: TypeAction -> string, writeExpr: Expressions.Expr -> Json)
    ensures var ns := EdgeIds(owner, NextEdge, 0, c.nextCount, bound, idOf);
      var ps := EdgeIds(owner, PreviousEdge, 0, c.previousCount, bound, idOf);
      var ms := WriteContractWith(c, owner, bound, idOf, asWritten, textFromType, writeExpr).members;
      EdgeScalars(ms, "nexts", 0) == |ns| + (if asWritten then |ps| else 0) &&
      EdgeScalars(ms, "previouses", 0) == (if asWritten then 0 else |ps|)
  {
    var ns := EdgeIds(owner, NextEdge, 0, c.nextCount, bound, idOf);
    var ps := EdgeIds(owner, PreviousEdge, 0, c.previousCount, bound, idOf);
    var v := WriteContractWith(c, owner, bound, idOf, asWritten, textFromType, writeExpr);
    var ms := v.members;
    assert forall j :: 2 <= j < |ms| ==> ms[j].key != "nexts" && ms[j].key != "previouses";
    EdgePairScalars(ms, ns, ps, asWritten);
  }

  /** Edge scalars of a member list that starts with the two edge arrays and names no edge key after them. */
  lemma EdgePairScalars(ms: seq<Member>, ns: seq<Json>, ps: seq<Json>, asWritten: bool)
    requires |ms| >= 2 && (forall k :: 0 <= k < |ns| ==> IsScalar(ns[k])) && (forall k :: 0 <= k < |ps| ==> IsScalar(ps[k]))
    requires ms[0] == Member("nexts", JArray(ns))
    requires ms[1] == Member(if asWritten then "nexts" else "previouses", JArray(ps))
    requires forall j :: 2 <= j < |ms| ==> ms[j].key != "nexts" && ms[j].key != "previouses"
    ensures EdgeScalars(ms, "nexts", 0) == |ns| + (if asWritten then |ps| else 0)
    ensures EdgeScalars(ms, "previouses", 0) == (if asWritten then 0 else |ps|)
  {
    AllScalars(ns, 0);
    AllScalars(ps, 0);
    EdgeScalarsAbsent(ms, "nexts", 2);
    EdgeScalarsAbsent(ms, "previouses", 2);
  }

  // ---------------------------------------------------------------------
  // The contract graph

  /**
   * A graph: its contracts in insertion order (a contract's handle is its
   * position), the reading context, the initial and final contracts and
   * the allocation shift.
   */
  datatype Graph = Graph(contracts: seq<Contract>, resolver: Resolver, initial: Option<nat>,
                         final: Option<nat>, allocShift: int)

  function EmptyGraph(): (g: Graph)
    ensures g.contracts == [] && g.initial.None? && g.final.None? && SortedIds(g.resolver.pending)
  {
    Graph([], EmptyResolver(), None, None, 0)
  }

  /** Contracts are ordered by their key, the address, as the graph's sorted array keeps them. */
  predicate SortedByAddress(cs: seq<Contract>)
  {
    forall i, j :: 0 <= i < j < |cs| ==> Key(cs[i]) <= Key(cs[j])
  }

  /** isInitial: the contract belongs to a graph whose initial contract it is. */
  predicate IsInitial(g: Graph, h: nat)
    requires h < |g.contracts|
  {
    g.contracts[h].hasParent && g.initial == Some(h)
  }

  /** isFinal: the contract belongs to a graph whose final contract it is. */
  predicate IsFinal(g: Graph, h: nat)
    requires h < |g.contracts|
  {
    g.contracts[h].hasParent && g.final == Some(h)
  }

  datatype GraphState = GraphState(graph: Graph, diag: Diagnostics, outcome: Outcome)

  /**
   * The contracts `after` keeps those of `before` in place and only adds
   * contracts that belong to no graph and, as written, have address 0.
   */
  predicate Extends(before: seq<Contract>, after: seq<Contract>, asWritten: bool)
  {
    |after| >= |before| && after[..|before|] == before &&
    forall k :: |before| <= k < |after| ==> !after[k].hasParent && (asWritten ==> after[k].address == 0)
  }

  lemma ExtendsTransitive(a: seq<Contract>, b: seq<Contract>, c: seq<Contract>, asWritten: bool)
    requires Extends(a, b, asWritten) && Extends(b, c, asWritten)
    ensures Extends(a, c, asWritten)
  {
    assert c[..|a|] == c[..|b|][..|a|];
  }

  /** Number of objects among the elements from position i on. */
  function ObjectsFrom(es: seq<Json>, i: nat): nat
    requires i <= |es|
    decreases |es| - i
  {
    if i == |es| then 0 else (if es[i].JObject? then 1 else 0) + ObjectsFrom(es, i + 1)
  }

  /**
   * The contracts array: each object is read as a new contract with the
   * next handle and inserted at the end; arrays and scalars are skipped.
   */
  function ReadContracts(st: GraphState, es: seq<Json>, i: nat, asWritten: bool,
                         typeFromText: string -> TypeAction, readExpr: Json -> Expressions.Expr): (r: GraphState)
    requires i <= |es| && SortedIds(st.graph.resolver.pending)
    ensures SortedIds(r.graph.resolver.pending)
    ensures st.outcome != Complete ==> r == st
    ensures Extends(st.graph.contracts, r.graph.contracts, asWritten)
    ensures r.outcome == Complete ==> |r.graph.contracts| == |st.graph.contracts| + ObjectsFrom(es, i)
    ensures r.graph.initial == st.graph.initial && r.graph.final == st.graph.final
    ensures r.graph.allocShift == st.graph.allocShift
    decreases |es| - i
  {
    if i == |es| || st.outcome != Complete then st
    else if es[i].JObject? then
      var g := st.graph;
      var read := ReadContractWith(es[i], |g.contracts|, g.resolver, st.diag, asWritten, typeFromText, readExpr);
      if read.outcome == Complete then
        var inserted := g.contracts + [read.contract];
        assert inserted[..|g.contracts|] == g.contracts;
        var r := ReadContracts(GraphState(g.(contracts := inserted, resolver := read.resolver), read.diag, Complete),
                               es, i + 1, asWritten, typeFromText, readExpr);
        ExtendsTransitive(g.contracts, inserted, r.graph.contracts, asWritten);
        r
      else GraphState(g.(resolver := read.resolver), read.diag, read.outcome)
    else ReadContracts(st, es, i + 1, asWritten, typeFromText, readExpr)
  }

  /** Number of objects over the arrays held by members from position i on. */
  function ObjectsInArrays(ms: seq<Member>, i: nat): nat
    requires i <= |ms|
    decreases |ms| - i
  {
    if i == |ms| then 0
    else (if ms[i].value.JArray? then ObjectsFrom(ms[i].value.elements, 0) else 0) + ObjectsInArrays(ms, i + 1)
  }

  /**
   * One member of the graph object. A scalar under "alloc-shift" is
   * converted to an unsigned 64-bit int, which as written is never
   * stored; an array under any key is read as the contracts array; the
   * rest is skipped.
   */
  function ReadGraphMember(st: GraphState, m: Member, asWritten: bool,
                           typeFromText: string -> TypeAction, readExpr: Json -> Expressions.Expr): (r: GraphState)
    requires SortedIds(st.graph.resolver.pending) && st.outcome == Complete
    ensures SortedIds(r.graph.resolver.pending)
    ensures Extends(st.graph.contracts, r.graph.contracts, asWritten)
    ensures r.outcome == Complete ==>
      |r.graph.contracts| == |st.graph.contracts| + (if m.value.JArray? then ObjectsFrom(m.value.elements, 0) else 0)
    ensures r.graph.initial == st.graph.initial && r.graph.final == st.graph.final
    ensures asWritten ==> r.graph.allocShift == st.graph.allocShift
    ensures !asWritten && m.key == "alloc-shift" && m.value.JInt? ==>
      r.graph.allocShift == ToUInt64(m.value.i)
  {
    if m.key == "alloc-shift" && IsScalar(m.value) then
      var conv := ScalarToInt(m.value, st.diag);
      var shift := if asWritten then st.graph.allocShift else ToUInt64(WideScalar(m.value, conv.args.number));
      GraphState(st.graph.(allocShift := shift), conv.diag, st.outcome)
    else if m.value.JArray? then ReadContracts(st, m.value.elements, 0, asWritten, typeFromText, readExpr)
    else st
  }

  function ReadGraphMembers(st: GraphState, ms: seq<Member>, i: nat, asWritten: bool,
                            typeFromText: string -> TypeAction, readExpr: Json -> Expressions.Expr): (r: GraphState)
    requires i <= |ms| && SortedIds(st.graph.resolver.pending)
    ensures st.outcome != Complete ==> r == st
    ensures Extends(st.graph.contracts, r.graph.contracts, asWritten)
    ensures r.outcome == Complete ==> |r.graph.contracts| == |st.graph.contracts| + ObjectsInArrays(ms, i)
    ensures r.graph.initial == st.graph.initial && r.graph.final == st.graph.final
    ensures asWritten ==> r.graph.allocShift == st.graph.allocShift
    decreases |ms| - i
  {
    if i == |ms| || st.outcome != Complete then st
    else
      var next := ReadGraphMember(st, ms[i], asWritten, typeFromText, readExpr);
      var r := ReadGraphMembers(next, ms, i + 1, asWritten, typeFromText, readExpr);
      ExtendsTransitive(st.graph.contracts, next.graph.contracts, r.graph.contracts, asWritten);
      r
  }

  /**
   * ContractGraph::readJSon. A value that is not an object records
   * "expected '{'". After reading, one contract has been inserted per
   * object in the arrays of the graph object, and no contract is initial
   * or final: the graph never sets them, nor a contract's parent.
   */
  function ReadGraphWith(v: Json, d: Diagnostics, asWritten: bool,
                         typeFromText: string -> TypeAction, readExpr: Json -> Expressions.Expr): (r: GraphState)
    ensures !v.JObject? ==> r.graph == EmptyGraph() && r.diag == AddErrorMessage(d, "expected '{'").diag
    ensures v.JObject? && r.outcome == Complete ==> |r.graph.contracts| == ObjectsInArrays(v.members, 0)
    ensures forall h :: 0 <= h < |r.graph.contracts| ==> !IsInitial(r.graph, h) && !IsFinal(r.graph, h)
    ensures asWritten ==> r.graph.allocShift == 0
    ensures asWritten ==> forall h :: 0 <= h < |r.graph.contracts| ==> r.graph.contracts[h].address == 0
  {
    if v.JObject? then
      ReadGraphMembers(GraphState(EmptyGraph(), d, Complete), v.members, 0, asWritten, typeFromText, readExpr)
    else
      var logged := AddErrorMessage(d, "expected '{'");
      GraphState(EmptyGraph(), logged.diag, if logged.proceed then Unsupported else Stopped)
  }

  /** The graph reader as written; the rest of the model uses ReadGraph. */
  function ReadGraphAsWritten(v: Json, d: Diagnostics, typeFromText: string -> TypeAction,
                              readExpr: Json -> Expressions.Expr): (r: GraphState)
    ensures forall h :: 0 <= h < |r.graph.contracts| ==> !IsValidContract(r.graph.contracts[h])
  {
    ReadGraphWith(v, d, true, typeFromText, readExpr)
  }

  function ReadGraph(v: Json, d: Diagnostics, typeFromText: string -> TypeAction,
                     readExpr: Json -> Expressions.Expr): (r: GraphState)
    ensures v.JObject? && r.outcome == Complete ==> |r.graph.contracts| == ObjectsInArrays(v.members, 0)
  {
    ReadGraphWith(v, d, false, typeFromText, readExpr)
  }

  // ---------------------------------------------------------------------
  // Applying a contract and its dominators

  /** The dominator a contract's dominator cell designates, if it is filled. */
  function DominatorOf(bound: map<Slot, nat>, h: nat): (r: Option<nat>)
    ensures r.Some? <==> Slot(h, DominatorEdge, 0) in bound
    ensures r.Some? ==> r.value == bound[Slot(h, DominatorEdge, 0)]
  {
    var slot := Slot(h, DominatorEdge, 0);
    if slot in bound then Some(bound[slot]) else None
  }

  /**
   * A dominator chain ending at h: it starts at a contract without
   * dominator and each element's dominator is the element before it.
   */
  predicate IsChainTo(bound: map<Slot, nat>, o: seq<nat>, h: nat)
  {
    |o| > 0 && o[|o| - 1] == h && DominatorOf(bound, o[0]).None? &&
    forall k :: 0 <= k < |o| - 1 ==> DominatorOf(bound, o[k + 1]) == Some(o[k])
  }

  /**
   * The order applyTo uses: the farthest dominator first, down to the
   * contract itself. The source follows the chain without bound; here at
   * most fuel dominators are followed, and None means the chain is longer.
   */
  function ApplicationOrder(bound: map<Slot, nat>, h: nat, fuel: nat): (r: Option<seq<nat>>)
    ensures r.Some? ==> IsChainTo(bound, r.value, h)
    decreases fuel
  {
    match DominatorOf(bound, h)
    case None => Some([h])
    case Some(p) =>
      if fuel == 0 then None
      else
        match ApplicationOrder(bound, p, fuel - 1)
        case None => None
        case Some(o) => Some(o + [h])
  }

  /** A chain never repeats a contract, so each is applied exactly once. */
  lemma {:induction false} ChainNoRepeat(bound: map<Slot, nat>, o: seq<nat>, h: nat, i: nat, j: nat)
    requires IsChainTo(bound, o, h) && i < j < |o|
    ensures o[i] != o[j]
    decreases i
  {
    if i > 0 {
      ChainNoRepeat(bound, o, h, i - 1, j - 1);
      assert DominatorOf(bound, o[i]) == Some(o[i - 1]);
      assert DominatorOf(bound, o[j]) == Some(o[j - 1]);
    } else {
      assert DominatorOf(bound, o[j]) == Some(o[j - 1]);
    }
  }

  /** Every acyclic chain is found once the fuel covers its length. */
  lemma {:induction false} ChainFound(bound: map<Slot, nat>, o: seq<nat>, h: nat)
    requires IsChainTo(bound, o, h)
    ensures ApplicationOrder(bound, h, |o| - 1) == Some(o)
    decreases |o|
  {
    if |o| > 1 {
      var front := o[..|o| - 1];
      assert DominatorOf(bound, h) == Some(o[|o| - 2]);
      assert IsChainTo(bound, front, o[|o| - 2]);
      ChainFound(bound, front, o[|o| - 2]);
      assert front + [h] == o;
    } else {
      assert o == [h];
    }
  }

  /**
   * A set of contracts each of whose dominators is again in the set: a
   * dominator cycle, or a chain leading into one.
   */
  predicate DominatorClosed(bound: map<Slot, nat>, s: set<nat>)
  {
    forall x :: x in s ==> DominatorOf(bound, x).Some? && DominatorOf(bound, x).value in s
  }

  /** From a contract on a dominator cycle no application order exists, whatever the fuel. */
  lemma {:induction false} CycleHasNoOrder(bound: map<Slot, nat>, s: set<nat>, h: nat, fuel: nat)
    requires DominatorClosed(bound, s) && h in s
    ensures ApplicationOrder(bound, h, fuel).None?
    decreases fuel
  {
    if fuel > 0 {
      CycleHasNoOrder(bound, s, DominatorOf(bound, h).value, fuel - 1);
    }
  }

  /**
   * applyOneTo: the zone modifier acts on the state's zones at the
   * contract's address, then the memory constraints act on the state so
   * obtained. Both are supplied by the caller.
   */
  function ApplyOneTo<V>(m: Registers.MemoryState<V>, c: Contract,
                         applyZones: (seq<ZoneAction>, seq<MemoryZones.Zone>, int) -> seq<MemoryZones.Zone>,
                         applyConstraints: (Option<Json>, Registers.MemoryState<V>, int) -> Registers.MemoryState<V>)
    : (r: Registers.MemoryState<V>)
    ensures var zoned := m.(zones := applyZones(c.zones, m.zones, c.address));
      zoned.registers == m.registers && zoned.registerNumber == m.registerNumber &&
      r == applyConstraints(c.constraints, zoned, c.address)
  {
    applyConstraints(c.constraints, m.(zones := applyZones(c.zones, m.zones, c.address)), c.address)
  }

  /** Applies the contracts of the order one after the other. */
  function ApplyInOrder<V>(m: Registers.MemoryState<V>, contracts: seq<Contract>, order: seq<nat>,
                           applyZones: (seq<ZoneAction>, seq<MemoryZones.Zone>, int) -> seq<MemoryZones.Zone>,
                           applyConstraints: (Option<Json>, Registers.MemoryState<V>, int) -> Registers.MemoryState<V>)
    : Registers.MemoryState<V>
    requires forall k :: 0 <= k < |order| ==> order[k] < |contracts|
    decreases |order|
  {
    if order == [] then m
    else ApplyInOrder(ApplyOneTo(m, contracts[order[0]], applyZones, applyConstraints),
                      contracts, order[1..], applyZones, applyConstraints)
  }

  /** Applying an order and then one more contract is applying the longer order. */
  lemma {:induction false} ApplyInOrderSnoc<V>(m: Registers.MemoryState<V>, contracts: seq<Contract>, order: seq<nat>, h: nat,
                                   applyZones: (seq<ZoneAction>, seq<MemoryZones.Zone>, int) -> seq<MemoryZones.Zone>,
                                   applyConstraints: (Option<Json>, Registers.MemoryState<V>, int) -> Registers.MemoryState<V>)
    requires forall k :: 0 <= k < |order| ==> order[k] < |contracts|
    requires h < |contracts|
    ensures ApplyInOrder(m, contracts, order + [h], applyZones, applyConstraints)
         == ApplyOneTo(ApplyInOrder(m, contracts, order, applyZones, applyConstraints), contracts[h],
                       applyZones, applyConstraints)
    decreases |order|
  {
    if order == [] {
      assert [] + [h] == [h];
      assert [h][1..] == [];
    } else {
      var next := ApplyOneTo(m, contracts[order[0]], applyZones, applyConstraints);
      assert (order + [h])[1..] == order[1..] + [h];
      assert (order + [h])[0] == order[0];
      ApplyInOrderSnoc(next, contracts, order[1..], h, applyZones, applyConstraints);
    }
  }

  /**
   * applyTo: the contracts of the dominator chain, farthest first, then
   * the contract itself. None when the chain is longer than fuel allows.
   */
  function ApplyTo<V>(m: Registers.MemoryState<V>, g: Graph, h: nat, fuel: nat,
                      applyZones: (seq<ZoneAction>, seq<MemoryZones.Zone>, int) -> seq<MemoryZones.Zone>,
                      applyConstraints: (Option<Json>, Registers.MemoryState<V>, int) -> Registers.MemoryState<V>)
    : (r: Option<Registers.MemoryState<V>>)
    requires forall s :: s in g.resolver.bound ==> g.resolver.bound[s] < |g.contracts|
    requires h < |g.contracts|
    ensures r.Some? <==> ApplicationOrder(g.resolver.bound, h, fuel).Some?
    ensures r.Some? ==>
      var o := ApplicationOrder(g.resolver.bound, h, fuel).value;
      (forall k :: 0 <= k < |o| ==> o[k] < |g.contracts|) &&
      r.value == ApplyOneTo(ApplyInOrder(m, g.contracts, o[..|o| - 1], applyZones, applyConstraints),
                            g.contracts[h], applyZones, applyConstraints)
  {
    match ApplicationOrder(g.resolver.bound, h, fuel)
    case None => None
    case Some(o) =>
      assert forall k :: 0 <= k < |o| ==> o[k] < |g.contracts| by {
        forall k | 0 <= k < |o|
          ensures o[k] < |g.contracts|
        {
          if k < |o| - 1 {
            assert DominatorOf(g.resolver.bound, o[k + 1]) == Some(o[k]);
          }
        }
      }
      ApplyInOrderSnoc(m, g.contracts, o[..|o| - 1], h, applyZones, applyConstraints);
      assert o[..|o| - 1] + [h] == o;
      Some(ApplyInOrder(m, g.contracts, o, applyZones, applyConstraints))
  }

  // ---------------------------------------------------------------------
  // Coverage

  datatype Connection = Connection(origin: nat, target: nat)

  /** The connections recorded between contracts, in recording order. */
  datatype Coverage = Coverage(connections: seq<Connection>)

  /** add: one more connection at the end, the earlier ones kept. */
  function AddConnection(cov: Coverage, origin: nat, target: nat): (r: Coverage)
    ensures |r.connections| == |cov.connections| + 1
    ensures r.connections[..|cov.connections|] == cov.connections
    ensures r.connections[|cov.connections|] == Connection(origin, target)
  {
    Coverage(cov.connections + [Connection(origin, target)])
  }

  /** isComplete: a stub that holds for every coverage. */
  function IsCoverageComplete(cov: Coverage): (b: bool)
    ensures b
  {
    true
  }
}
