/**
 * The checking protocol: the contract cursor over the address-ordered
 * graph and its positioning, the two entry points that build memory
 * states from contracts and run the processor (processor_get_targets and
 * processor_check_block), and the top-level verification loop that walks
 * every contract, checks the block up to each of its targets, records the
 * coverage and reports.
 *
 * Plugins, the firmware bytes and the stop addresses a contract announces
 * are parameters (a Plugins record). The driver is modelled twice, as the
 * code is written and corrected, selected by `asWritten`.
 */
module Checker {
  import opened Wrappers
  import opened JsonArguments
  import opened ZoneActions
  import opened Contracts
  import MemoryZones
  import Registers
  import Processor

  // ---------------------------------------------------------------------
  // Cursor over the graph

  /** A cursor move: whether the cursor is valid afterwards, and its position. */
  datatype Moved = Moved(valid: bool, cursor: Option<nat>)

  /**
   * setToNext: from before the start to the first contract, from a
   * contract to the one after it; past the last the cursor becomes
   * invalid.
   */
  function SetToNext(cs: seq<Contract>, c: Option<nat>): (r: Moved)
    ensures r.valid <==> r.cursor.Some?
    ensures r.cursor.Some? ==> r.cursor.value < |cs|
    ensures c.None? ==> (r.valid <==> |cs| > 0) && (r.valid ==> r.cursor.value == 0)
    ensures c.Some? ==> (r.valid <==> c.value + 1 < |cs|) && (r.valid ==> r.cursor.value == c.value + 1)
  {
    var n := match c case None => 0 case Some(i) => i + 1;
    if n < |cs| then Moved(true, Some(n)) else Moved(false, None)
  }

  /** The cursor after k moves. */
  function Advance(cs: seq<Contract>, c: Option<nat>, k: nat): (r: Option<nat>)
    ensures k > 0 && r.Some? ==> r.value < |cs|
    decreases k
  {
    if k == 0 then c else Advance(cs, SetToNext(cs, c).cursor, k - 1)
  }

  /**
   * From before the start, the cursor visits the contracts in order,
   * each once, and is invalid after the last.
   */
  lemma {:induction false} CursorVisitsInOrder(cs: seq<Contract>, k: nat)
    requires 0 < k <= |cs| + 1
    ensures k <= |cs| ==> Advance(cs, None, k) == Some(k - 1)
    ensures k == |cs| + 1 ==> Advance(cs, None, k).None?
  {
    if k == 1 {
      if |cs| == 0 {
        assert Advance(cs, None, 1) == Advance(cs, None, 0);
      }
    } else {
      CursorVisitsInOrder(cs, k - 1);
      AdvanceLast(cs, None, k - 1);
    }
  }

  /** The k-th move is a move from the cursor after k - 1 moves. */
  lemma {:induction false} AdvanceLast(cs: seq<Contract>, c: Option<nat>, k: nat)
    ensures Advance(cs, c, k + 1) == SetToNext(cs, Advance(cs, c, k)).cursor
    decreases k
  {
    if k > 0 {
      AdvanceLast(cs, SetToNext(cs, c).cursor, k - 1);
    }
  }

  /** Where locateKey places the cursor when the key is absent. */
  datatype RelativePosition = RPBefore | RPAfter | RPUndefined

  /**
   * ContractConditionLocalization to the relative position:
   * CCLPreCondition (0) is before, CCLPostCondition (1) is after, and
   * anything else is undefined.
   */
  function PositionOf(localization: int): (rp: RelativePosition)
    ensures rp == RPBefore <==> localization == 0
    ensures rp == RPAfter <==> localization == 1
  {
    if localization == 0 then RPBefore else if localization == 1 then RPAfter else RPUndefined
  }

  /** The first contract from position i on whose key is the address. */
  function FindKey(cs: seq<Contract>, address: int, i: nat): (r: Option<nat>)
    requires i <= |cs|
    ensures r.Some? ==> i <= r.value < |cs| && Key(cs[r.value]) == address
    ensures r.Some? ==> forall k :: i <= k < r.value ==> Key(cs[k]) != address
    ensures r.None? ==> forall k :: i <= k < |cs| ==> Key(cs[k]) != address
    decreases |cs| - i
  {
    if i == |cs| then None
    else if Key(cs[i]) == address then Some(i)
    else FindKey(cs, address, i + 1)
  }

  /** The last contract among the first n whose key lies below the address. */
  function LastBelow(cs: seq<Contract>, address: int, n: nat): (r: Option<nat>)
    requires n <= |cs|
    ensures r.Some? ==> r.value < n && Key(cs[r.value]) < address
    ensures r.Some? ==> forall k :: r.value < k < n ==> Key(cs[k]) >= address
    ensures r.None? ==> forall k :: 0 <= k < n ==> Key(cs[k]) >= address
    decreases n
  {
    if n == 0 then None
    else if Key(cs[n - 1]) < address then Some(n - 1)
    else LastBelow(cs, address, n - 1)
  }

  /** The first contract from position i on whose key lies above the address. */
  function FirstAbove(cs: seq<Contract>, address: int, i: nat): (r: Option<nat>)
    requires i <= |cs|
    ensures r.Some? ==> i <= r.value < |cs| && Key(cs[r.value]) > address
    ensures r.Some? ==> forall k :: i <= k < r.value ==> Key(cs[k]) <= address
    ensures r.None? ==> forall k :: i <= k < |cs| ==> Key(cs[k]) <= address
    decreases |cs| - i
  {
    if i == |cs| then None
    else if Key(cs[i]) > address then Some(i)
    else FirstAbove(cs, address, i + 1)
  }

  /**
   * locateKey over the address-ordered contracts: a contract with the
   * address if there is one; otherwise, before: the last one below it,
   * after: the first one above it, undefined: none.
   */
  function LocateKey(cs: seq<Contract>, address: int, rp: RelativePosition): (r: Option<nat>)
    requires SortedByAddress(cs)
    ensures r.Some? ==> r.value < |cs|
    ensures (exists k :: 0 <= k < |cs| && Key(cs[k]) == address) ==> r.Some? && Key(cs[r.value]) == address
    ensures r.Some? && Key(cs[r.value]) != address ==>
      (rp == RPBefore && Key(cs[r.value]) < address) || (rp == RPAfter && Key(cs[r.value]) > address)
    ensures r.None? && rp == RPBefore ==> forall k :: 0 <= k < |cs| ==> Key(cs[k]) >= address
    ensures r.None? && rp == RPAfter ==> forall k :: 0 <= k < |cs| ==> Key(cs[k]) <= address
  {
    match FindKey(cs, address, 0)
    case Some(k) => Some(k)
    case None =>
      match rp
      case RPBefore => LastBelow(cs, address, |cs|)
      case RPAfter => FirstAbove(cs, address, 0)
      case RPUndefined => None
  }

  /**
   * contract_cursor_set_address: when the next contract already sits at
   * the address the cursor stays there; otherwise the cursor is located
   * by key, before the address for a precondition (0) and after it for a
   * postcondition (1).
   */
  function SetAddress(cs: seq<Contract>, c: Option<nat>, address: int, localization: int): (r: Moved)
    requires SortedByAddress(cs)
    ensures r.valid <==> r.cursor.Some?
    ensures r.cursor.Some? ==> r.cursor.value < |cs|
    ensures var n := SetToNext(cs, c); n.valid && Key(cs[n.cursor.value]) == address ==> r == n
    ensures (exists k :: 0 <= k < |cs| && Key(cs[k]) == address) ==> r.valid && Key(cs[r.cursor.value]) == address
    ensures r.valid && Key(cs[r.cursor.value]) != address ==>
      (localization == 0 && Key(cs[r.cursor.value]) < address) ||
      (localization == 1 && Key(cs[r.cursor.value]) > address)
  {
    var n := SetToNext(cs, c);
    if n.valid && Key(cs[n.cursor.value]) == address then n
    else
      var located := LocateKey(cs, address, PositionOf(localization));
      Moved(located.Some?, located)
  }

  /**
   * A cursor positioned after an address no contract sits at is never
   * at that address, whichever contract the location finds.
   */
  lemma SetAfterMissesAbsentAddress(cs: seq<Contract>, c: Option<nat>, address: int)
    requires SortedByAddress(cs)
    requires forall k :: 0 <= k < |cs| ==> Key(cs[k]) != address
    ensures var r := SetAddress(cs, c, address, 1);
      r.valid ==> Key(cs[r.cursor.value]) > address
  {
  }

  // ---------------------------------------------------------------------
  // Building states and checking a block

  /**
   * The foreign parts the protocol uses: the processor's memory
   * initialization, the zone and constraint actions of a contract, the
   * bytes the firmware holds at an address (None when it cannot be
   * reached), the successor and interpretation plugins, and the stop
   * addresses a contract announces.
   */
  datatype Plugins<!V> = Plugins(
    initialize: Registers.MemoryState<V> -> Registers.MemoryState<V>,
    applyZones: (seq<ZoneAction>, seq<MemoryZones.Zone>, int) -> seq<MemoryZones.Zone>,
    applyConstraints: (Option<Json>, Registers.MemoryState<V>, int) -> Registers.MemoryState<V>,
    code: int -> Option<seq<bv8>>,
    next: (int, seq<bv8>, seq<int>, Registers.MemoryState<V>) -> Processor.Answer<Registers.MemoryState<V>>,
    step: (int, seq<bv8>, int, Registers.MemoryState<V>) -> (bool, Registers.MemoryState<V>),
    stopsOf: Contract -> seq<int>)

  /** Every filled pointer cell designates a contract of the graph. */
  predicate WellFormed(g: Graph)
  {
    forall s :: s in g.resolver.bound ==> g.resolver.bound[s] < |g.contracts|
  }

  /**
   * The graph the cursors walk: its cells are well formed and its
   * contracts are in address order, as the sorted array keeps them.
   */
  predicate Navigable(g: Graph)
  {
    WellFormed(g) && SortedByAddress(g.contracts)
  }

  /**
   * A fresh memory state, initialized by the processor, with the contract
   * and its dominator chain applied; None when the chain exceeds the fuel.
   */
  function ContractState<V>(p: Plugins<V>, g: Graph, h: nat, fuel: nat): (r: Option<Registers.MemoryState<V>>)
    requires WellFormed(g) && h < |g.contracts|
    ensures r.Some? <==> ApplicationOrder(g.resolver.bound, h, fuel).Some?
    ensures DominatorOf(g.resolver.bound, h).None? ==>
      r == Some(ApplyOneTo(p.initialize(Registers.NewMemoryState()), g.contracts[h], p.applyZones, p.applyConstraints))
  {
    ApplyTo(p.initialize(Registers.NewMemoryState()), g, h, fuel, p.applyZones, p.applyConstraints)
  }

  /**
   * processor_get_targets: the walk of the block at the address, run
   * from the state the contract builds. A dominator chain beyond the
   * fuel counts as running out of fuel.
   */
  function GetTargets<V>(p: Plugins<V>, g: Graph, h: nat, address: int, targets: seq<int>, fuel: nat)
    : (w: Processor.Walk)
    requires WellFormed(g) && h < |g.contracts|
    ensures ContractState(p, g, h, fuel).None? ==> w == Processor.OutOfFuel
    ensures ContractState(p, g, h, fuel).Some? && (p.code(address).None? || p.code(address) == Some([])) ==>
      w == Processor.Returned(false, targets)
    ensures w.Returned? && w.verdict ==>
      |w.targets| != 1 || w.targets[0] == (if |targets| == 1 then targets[0] else 0)
  {
    match ContractState(p, g, h, fuel)
    case None => Processor.OutOfFuel
    case Some(m) => Processor.RetrieveNextTargets(address, p.code(address), targets, m, p.next, fuel)
  }

  /**
   * How a block check ends: checked, with the verdict, the coverage as
   * recorded, the interpreted state and the state the last contract
   * requires; a dominator chain or interpretation beyond the fuel; or the
   * coverage reference dereferenced while null.
   */
  datatype BlockResult<V> =
    | Checked(verdict: bool, coverage: Option<Coverage>, reached: Registers.MemoryState<V>,
              expected: Registers.MemoryState<V>)
    | Diverged
    | NullCoverage

  /**
   * processor_check_block: the first contract's state is interpreted from
   * the address to the target; the last contract's state is built on its
   * own; the connection (first, last) is recorded before the verdict,
   * which is whether the expected state contains the reached one. As
   * written a missing coverage is dereferenced; corrected, nothing is
   * recorded.
   */
  function CheckBlockWith<V>(p: Plugins<V>, g: Graph, address: int, target: int, first: nat, last: nat,
                             coverage: Option<Coverage>, asWritten: bool, fuel: nat): (r: BlockResult<V>)
    requires WellFormed(g) && first < |g.contracts| && last < |g.contracts|
    ensures r.Checked? <==>
      ContractState(p, g, first, fuel).Some? &&
      Processor.Interpret(address, p.code(address), target, ContractState(p, g, first, fuel).value, p.step, fuel).Some? &&
      ContractState(p, g, last, fuel).Some? && (coverage.Some? || !asWritten)
    ensures r.NullCoverage? ==> asWritten && coverage.None?
    ensures r.Checked? ==> r.verdict
    ensures r.Checked? ==> r.expected == ContractState(p, g, last, fuel).value
    ensures r.Checked? && coverage.Some? ==> r.coverage == Some(AddConnection(coverage.value, first, last))
    ensures r.Checked? && coverage.None? ==> r.coverage.None?
  {
    match ContractState(p, g, first, fuel)
    case None => Diverged
    case Some(pre) =>
      match Processor.Interpret(address, p.code(address), target, pre, p.step, fuel)
      case None => Diverged
      case Some(reached) =>
        match ContractState(p, g, last, fuel)
        case None => Diverged
        case Some(expected) =>
          match coverage
          case None => if asWritten then NullCoverage else Checked(Registers.Contain(expected, reached), None, reached, expected)
          case Some(cov) => Checked(Registers.Contain(expected, reached), Some(AddConnection(cov, first, last)), reached, expected)
  }

  /**
   * The connection is recorded whatever the interpretation reaches:
   * two interpretation plugins that both finish give the same coverage.
   */
  lemma CoverageIndependentOfInterpretation<V>(p: Plugins<V>, q: Plugins<V>, g: Graph, address: int, target: int,
                                               first: nat, last: nat, cov: Coverage, fuel: nat)
    requires WellFormed(g) && first < |g.contracts| && last < |g.contracts|
    requires p == q.(step := p.step)
    requires CheckBlockWith(p, g, address, target, first, last, Some(cov), true, fuel).Checked?
    requires CheckBlockWith(q, g, address, target, first, last, Some(cov), true, fuel).Checked?
    ensures CheckBlockWith(p, g, address, target, first, last, Some(cov), true, fuel).coverage
         == CheckBlockWith(q, g, address, target, first, last, Some(cov), true, fuel).coverage
  {
  }

  // ---------------------------------------------------------------------
  // The verification loop

  /** What the loop prints. */
  datatype Message =
    | BlockFailed(address: int)
    | NoInitialContract
    | NoFinalContract
    | CoverageVerified
    | CoverageIncomplete
    | PropertyProved
    | PropertyNotProved
    | AllVerified
    | SomeFailed

  /** Why a run stops early. */
  datatype Halt =
    | CursorNotAtTarget(target: int)  // the assertion on the positioned cursor fails
    | InvalidCursor                   // the address of an invalid cursor is read
    | PluginRejected                  // the plugin rejects an instruction and AssumeCondition aborts
    | OutsideBuffer                   // the walk jumps before its read buffer
    | ContractTypeError               // Contract(processor) passes an argument the constructor does not take
    | NoFuel                          // a loop ran beyond the fuel

  /**
   * The loop's variables: the cursor, the initial and final contracts
   * met so far, all_valid, the coverage and the messages printed.
   */
  datatype DriverState = DriverState(cursor: Option<nat>, first: Option<nat>, last: Option<nat>,
                                     allValid: bool, coverage: Coverage, messages: seq<Message>)

  datatype Progress = Going(st: DriverState) | Halted(st: DriverState, reason: Halt)

  function InitialDriverState(): (st: DriverState)
    ensures st.cursor.None? && st.first.None? && st.last.None? && st.allValid
    ensures st.coverage.connections == [] && st.messages == []
  {
    DriverState(None, None, None, true, Coverage([]), [])
  }

  /** None of the messages is one of the banned ones. */
  predicate Excludes(ms: seq<Message>, banned: set<Message>)
  {
    forall k :: 0 <= k < |ms| ==> ms[k] !in banned
  }

  lemma ExcludesConcat(a: seq<Message>, b: seq<Message>, banned: set<Message>)
    ensures Excludes(a + b, banned) <==> Excludes(a, banned) && Excludes(b, banned)
  {
    if Excludes(a, banned) && Excludes(b, banned) {
      forall k | 0 <= k < |a + b|
        ensures (a + b)[k] !in banned
      {
        if k >= |a| {
          assert (a + b)[k] == b[k - |a|];
        }
      }
    }
    if Excludes(a + b, banned) {
      forall k | 0 <= k < |a|
        ensures a[k] !in banned
      {
        assert (a + b)[k] == a[k];
      }
      forall k | 0 <= k < |b|
        ensures b[k] !in banned
      {
        assert (a + b)[|a| + k] == b[k];
      }
    }
  }

  /** The reports about a missing initial or final contract. */
  const MissingReports: set<Message> := {NoInitialContract, NoFinalContract}

  /** The verdicts on the additional property. */
  const PropertyVerdicts: set<Message> := {PropertyProved, PropertyNotProved}

  /**
   * The inner loop over the targets of the block at the cursor's contract
   * h: a clone of the cursor is positioned after each target and must sit
   * at it; the block is checked against the contract found there and the
   * connection recorded, and a failed check prints a message and clears
   * all_valid. Since the containment test always holds, no check fails.
   */
  function CheckTargets<V>(p: Plugins<V>, g: Graph, h: nat, address: int, ts: seq<int>, i: nat,
                           st: DriverState, fuel: nat): (r: Progress)
    requires Navigable(g) && h < |g.contracts| && i <= |ts|
    ensures r.st == st.(coverage := r.st.coverage)
    ensures |r.st.coverage.connections| >= |st.coverage.connections|
    ensures r.st.coverage.connections[..|st.coverage.connections|] == st.coverage.connections
    ensures r.Going? ==> |r.st.coverage.connections| == |st.coverage.connections| + |ts| - i
    ensures r.Halted? ==> r.reason.InvalidCursor? || r.reason.CursorNotAtTarget? || r.reason.NoFuel?
    decreases |ts| - i
  {
    if i == |ts| then Going(st)
    else
      var t := ts[i];
      var post := SetAddress(g.contracts, Some(h), t, 1);
      if !post.valid then Halted(st, InvalidCursor)
      else if Key(g.contracts[post.cursor.value]) != t then Halted(st, CursorNotAtTarget(t))
      else
        var checked := CheckBlockWith(p, g, address, t, h, post.cursor.value, Some(st.coverage), true, fuel);
        if !checked.Checked? then Halted(st, NoFuel)
        else
          var next := st.(coverage := checked.coverage.value, allValid := st.allValid && checked.verdict,
                          messages := st.messages + (if checked.verdict then [] else [BlockFailed(address)]));
          assert next.coverage.connections[..|st.coverage.connections|] == st.coverage.connections;
          var r := CheckTargets(p, g, h, address, ts, i + 1, next, fuel);
          assert r.st.coverage.connections[..|st.coverage.connections|]
              == r.st.coverage.connections[..|next.coverage.connections|][..|st.coverage.connections|];
          r
  }

  /** The graph the property is checked against: the property contract after the others, without dominator. */
  function WithProperty(g: Graph, property: Contract): (r: Graph)
    ensures |r.contracts| == |g.contracts| + 1 && r.contracts[|g.contracts|] == property
    ensures r.contracts[..|g.contracts|] == g.contracts
    ensures WellFormed(g) ==> WellFormed(r)
    ensures DominatorOf(r.resolver.bound, |g.contracts|).None?
  {
    var n := |g.contracts|;
    var bound := map s | s in g.resolver.bound && s.owner != n :: g.resolver.bound[s];
    g.(contracts := g.contracts + [property], resolver := g.resolver.(bound := bound))
  }

  /** The end of the property check: the cursor it leaves, and the verdict or why it stopped. */
  datatype PropertyCheck = PropertyChecked(cursor: Option<nat>, proved: bool) | PropertyHalted(cursor: Option<nat>, reason: Halt)

  /**
   * The check of the additional property. As written its first statement,
   * Contract(processor), raises a TypeError: the constructor takes no
   * argument. Corrected (the contract built without argument, loaded with
   * the processor), the main cursor is positioned before the property's
   * address, the block there is walked (its targets are dropped) and
   * checked against the property contract with no coverage to record.
   */
  function CheckProperty<V>(p: Plugins<V>, g: Graph, property: Contract, cursor: Option<nat>,
                            asWritten: bool, fuel: nat): (r: PropertyCheck)
    requires Navigable(g)
    ensures asWritten ==> r == PropertyHalted(cursor, ContractTypeError)
    ensures !asWritten ==> r.cursor == SetAddress(g.contracts, cursor, property.address, 0).cursor
    ensures !asWritten && r.PropertyHalted? ==> !r.reason.ContractTypeError?
    ensures !asWritten && (exists k :: 0 <= k < |g.contracts| && Key(g.contracts[k]) == property.address) ==>
      r.cursor.Some? && Key(g.contracts[r.cursor.value]) == property.address
    ensures r.PropertyChecked? ==> r.proved
  {
    if asWritten then PropertyHalted(cursor, ContractTypeError)
    else
      var moved := SetAddress(g.contracts, cursor, property.address, 0);
      if !moved.valid then PropertyHalted(moved.cursor, InvalidCursor)
      else
        var h := moved.cursor.value;
        var address := Key(g.contracts[h]);
        match GetTargets(p, g, h, address, [], fuel)
        case OutOfFuel => PropertyHalted(moved.cursor, NoFuel)
        case Rejected => PropertyHalted(moved.cursor, PluginRejected)
        case LeftBuffer => PropertyHalted(moved.cursor, OutsideBuffer)
        case Returned(_, _) =>
          var gp := WithProperty(g, property);
          assert gp.contracts[h] == g.contracts[h];
          match CheckBlockWith(p, gp, address, property.address, h, |g.contracts|, None, false, fuel)
          case Diverged => PropertyHalted(moved.cursor, NoFuel)
          case NullCoverage => assert false; PropertyHalted(moved.cursor, NoFuel)
          case Checked(verdict, _, _, _) => PropertyChecked(moved.cursor, verdict)
  }

  /**
   * The reports before the property check: as written, nothing about the
   * initial and final contracts (is_valid is never called); corrected,
   * one message for each that is missing. Then the coverage verdict.
   */
  function ReportsOf(st: DriverState, asWritten: bool): (ms: seq<Message>)
    ensures |ms| > 0 && ms[|ms| - 1] == CoverageVerified
    ensures asWritten ==> ms == [CoverageVerified]
    ensures !asWritten && st.first.None? ==> NoInitialContract in ms
    ensures !asWritten && st.last.None? ==> NoFinalContract in ms
    ensures st.first.Some? && st.last.Some? ==> ms == [CoverageVerified]
    ensures Excludes(ms, PropertyVerdicts)
  {
    var missing := if asWritten then []
                   else (if st.first.None? then [NoInitialContract] else []) +
                        (if st.last.None? then [NoFinalContract] else []);
    missing + [if IsCoverageComplete(st.coverage) then CoverageVerified else CoverageIncomplete]
  }

  /** The reports, then the property check when there is a property. */
  function Report<V>(p: Plugins<V>, g: Graph, property: Option<Contract>, st: DriverState,
                     asWritten: bool, fuel: nat): (r: Progress)
    requires Navigable(g)
    ensures r.st == st.(cursor := r.st.cursor, messages := r.st.messages)
    ensures property.None? ==> r == Going(st.(messages := st.messages + ReportsOf(st, asWritten)))
    ensures property.Some? && r.Halted? ==> r.st.messages == st.messages + ReportsOf(st, asWritten)
    ensures property.Some? && r.Going? ==>
      r.st.messages == st.messages + ReportsOf(st, asWritten) + [PropertyProved]
    ensures asWritten ==> r.st.messages == st.messages + [CoverageVerified]
  {
    var st1 := st.(messages := st.messages + ReportsOf(st, asWritten));
    match property
    case None => Going(st1)
    case Some(pc) =>
      match CheckProperty(p, g, pc, st.cursor, asWritten, fuel)
      case PropertyHalted(cursor, reason) => Halted(st1.(cursor := cursor), reason)
      case PropertyChecked(cursor, proved) =>
        Going(st1.(cursor := cursor, messages := st1.messages + [if proved then PropertyProved else PropertyNotProved]))
  }

  /**
   * One pass of the loop body with the cursor on contract h: an initial
   * contract is recorded as first; a final one as last, and nothing else
   * happens. Otherwise the stop addresses go into a fresh vector, the
   * block is walked, the targets in use in the vector (addresses_length
   * of the C structure, which the script names addresses_array_length)
   * are checked, and, as written, the
   * reports and the property check follow inside the loop.
   */
  function Visit<V>(p: Plugins<V>, g: Graph, property: Option<Contract>, st: DriverState,
                    asWritten: bool, fuel: nat): (r: Progress)
    requires Navigable(g) && st.cursor.Some? && st.cursor.value < |g.contracts|
    ensures r.st.allValid == st.allValid
    ensures |r.st.coverage.connections| >= |st.coverage.connections|
    ensures r.Going? && !asWritten ==> r.st.cursor == st.cursor
    ensures IsInitial(g, st.cursor.value) ==> r.st.first == Some(st.cursor.value)
    ensures !IsInitial(g, st.cursor.value) ==> r.st.first == st.first
    ensures IsFinal(g, st.cursor.value) ==> r == Going(st.(first := r.st.first, last := Some(st.cursor.value)))
    ensures !IsFinal(g, st.cursor.value) ==> r.st.last == st.last
    ensures !asWritten ==> r.st.messages == st.messages
    ensures asWritten ==> r.st.messages == st.messages || r.st.messages == st.messages + [CoverageVerified]
  {
    var h := st.cursor.value;
    var c := g.contracts[h];
    var address := Key(c);
    var st1 := if IsInitial(g, h) then st.(first := Some(h)) else st;
    if IsFinal(g, h) then Going(st1.(last := Some(h)))
    else
      var stops := Processor.StoreTargets(Processor.CreateAddressVector(), p.stopsOf(c));
      match GetTargets(p, g, h, address, stops.container.value[..stops.length], fuel)
      case OutOfFuel => Halted(st1, NoFuel)
      case Rejected => Halted(st1, PluginRejected)
      case LeftBuffer => Halted(st1, OutsideBuffer)
      case Returned(_, found) =>
        var v := Processor.StoreTargets(stops, found);
        var checked := CheckTargets(p, g, h, address, v.container.value[..v.length], 0, st1, fuel);
        if checked.Halted? || !asWritten then checked
        else Report(p, g, property, checked.st, asWritten, fuel)
  }

  /**
   * The end of the run: corrected, the reports and the property check
   * come once, after the loop; then the final message follows all_valid.
   */
  function Finish<V>(p: Plugins<V>, g: Graph, property: Option<Contract>, st: DriverState,
                     asWritten: bool, fuel: nat): (r: Progress)
    requires Navigable(g)
    ensures r.st.allValid == st.allValid && r.st.coverage == st.coverage
    ensures r.st.first == st.first && r.st.last == st.last
    ensures r.Going? ==> |r.st.messages| > 0 &&
                         r.st.messages[|r.st.messages| - 1] == (if st.allValid then AllVerified else SomeFailed)
    ensures asWritten ==> r == Going(st.(messages := st.messages + [if st.allValid then AllVerified else SomeFailed]))
    ensures !asWritten && r.Going? ==>
      r.st.messages == st.messages + ReportsOf(st, false) + (if property.Some? then [PropertyProved] else [])
                       + [if st.allValid then AllVerified else SomeFailed]
    ensures !asWritten && r.Halted? ==> r.st.messages == st.messages + ReportsOf(st, false)
  {
    var last := if st.allValid then AllVerified else SomeFailed;
    if asWritten then Going(st.(messages := st.messages + [last]))
    else
      match Report(p, g, property, st, asWritten, fuel)
      case Halted(s, reason) => Halted(s, reason)
      case Going(s) => Going(s.(messages := s.messages + [last]))
  }

  /**
   * The loop: move the cursor to the next contract and visit it, until
   * the cursor runs past the last contract. Each pass uses one unit of
   * fuel.
   */
  function Run<V>(p: Plugins<V>, g: Graph, property: Option<Contract>, st: DriverState,
                  asWritten: bool, fuel: nat): (r: Progress)
    requires Navigable(g) && (st.cursor.Some? ==> st.cursor.value < |g.contracts|)
    ensures r.st.allValid == st.allValid
    ensures r.Going? ==> |r.st.messages| > 0 &&
                         r.st.messages[|r.st.messages| - 1] == (if st.allValid then AllVerified else SomeFailed)
    ensures asWritten && Excludes(st.messages, MissingReports) ==> Excludes(r.st.messages, MissingReports)
    ensures asWritten && Excludes(st.messages, PropertyVerdicts) ==> Excludes(r.st.messages, PropertyVerdicts)
    ensures !asWritten && r.Going? ==>
      r.st.messages == st.messages + ReportsOf(r.st, false) + (if property.Some? then [PropertyProved] else [])
                       + [if st.allValid then AllVerified else SomeFailed]
    decreases fuel, 0
  {
    if fuel == 0 then Halted(st, NoFuel)
    else
      var moved := SetToNext(g.contracts, st.cursor);
      if !moved.valid then
        var r := Finish(p, g, property, st.(cursor := None), asWritten, fuel);
        ExcludesConcat(st.messages, [if st.allValid then AllVerified else SomeFailed], MissingReports);
        ExcludesConcat(st.messages, [if st.allValid then AllVerified else SomeFailed], PropertyVerdicts);
        r
      else
        Continue(p, g, property, st, Visit(p, g, property, st.(cursor := moved.cursor), asWritten, fuel), asWritten, fuel - 1)
  }

  /**
   * The rest of the loop after a pass: a halted pass ends the run; a
   * pass that goes on hands its state to the next one.
   */
  function Continue<V>(p: Plugins<V>, g: Graph, property: Option<Contract>, st: DriverState, visited: Progress,
                       asWritten: bool, fuel: nat): (r: Progress)
    requires Navigable(g)
    requires visited.st.allValid == st.allValid
    requires !asWritten ==> visited.st.messages == st.messages
    requires asWritten ==> visited.st.messages == st.messages || visited.st.messages == st.messages + [CoverageVerified]
    ensures r.st.allValid == st.allValid
    ensures r.Going? ==> |r.st.messages| > 0 &&
                         r.st.messages[|r.st.messages| - 1] == (if st.allValid then AllVerified else SomeFailed)
    ensures asWritten && Excludes(st.messages, MissingReports) ==> Excludes(r.st.messages, MissingReports)
    ensures asWritten && Excludes(st.messages, PropertyVerdicts) ==> Excludes(r.st.messages, PropertyVerdicts)
    ensures !asWritten && r.Going? ==>
      r.st.messages == st.messages + ReportsOf(r.st, false) + (if property.Some? then [PropertyProved] else [])
                       + [if st.allValid then AllVerified else SomeFailed]
    decreases fuel, 1
  {
    ExcludesConcat(st.messages, [CoverageVerified], MissingReports);
    ExcludesConcat(st.messages, [CoverageVerified], PropertyVerdicts);
    match visited
    case Halted(s, reason) => Halted(s, reason)
    case Going(s) =>
      if s.cursor.Some? && s.cursor.value < |g.contracts| then Run(p, g, property, s, asWritten, fuel)
      else Halted(s, InvalidCursor)
  }

  /**
   * The whole verification loop over the graph, with the property
   * contract if one is given, from a cursor before the first contract.
   */
  function Driver<V>(p: Plugins<V>, g: Graph, property: Option<Contract>, asWritten: bool, fuel: nat): (r: Progress)
    requires Navigable(g)
    ensures r.st.allValid
  {
    Run(p, g, property, InitialDriverState(), asWritten, fuel)
  }

  /**
   * As written, the driver never prints "no initial contract found" nor
   * "no final contract found", and never a verdict on the property.
   */
  lemma AsWrittenDriverSilent<V>(p: Plugins<V>, g: Graph, property: Option<Contract>, fuel: nat)
    requires Navigable(g)
    ensures Excludes(Driver(p, g, property, true, fuel).st.messages, MissingReports)
    ensures Excludes(Driver(p, g, property, true, fuel).st.messages, PropertyVerdicts)
  {
  }

  /**
   * Corrected, a finished run reports a missing initial or final
   * contract exactly when the loop met none.
   */
  lemma CorrectedDriverReportsMissing<V>(p: Plugins<V>, g: Graph, property: Option<Contract>, fuel: nat)
    requires Navigable(g)
    ensures var r := Driver(p, g, property, false, fuel);
      r.Going? ==> (NoInitialContract in r.st.messages <==> r.st.first.None?) &&
                   (NoFinalContract in r.st.messages <==> r.st.last.None?)
  {
    var r := Driver(p, g, property, false, fuel);
    if r.Going? {
      var reports := ReportsOf(r.st, false);
      var rest := (if property.Some? then [PropertyProved] else []) + [AllVerified];
      assert r.st.messages == [] + reports + rest;
      assert NoInitialContract !in rest && NoFinalContract !in rest;
      ReportsMissing(r.st);
    }
  }

  /** Corrected, the reports name a missing initial or final contract exactly when it is missing. */
  lemma ReportsMissing(st: DriverState)
    ensures NoInitialContract in ReportsOf(st, false) <==> st.first.None?
    ensures NoFinalContract in ReportsOf(st, false) <==> st.last.None?
  {
    var first := if st.first.None? then [NoInitialContract] else [];
    var last := if st.last.None? then [NoFinalContract] else [];
    assert ReportsOf(st, false) == first + last + [ReportsOf(st, false)[|ReportsOf(st, false)| - 1]];
  }

  /** A pass of the loop that visits a contract and goes on. */
  lemma RunVisits<V>(p: Plugins<V>, g: Graph, property: Option<Contract>, st: DriverState, asWritten: bool,
                     fuel: nat, s: DriverState)
    requires Navigable(g) && (st.cursor.Some? ==> st.cursor.value < |g.contracts|) && fuel > 0
    requires SetToNext(g.contracts, st.cursor).valid
    requires Visit(p, g, property, st.(cursor := SetToNext(g.contracts, st.cursor).cursor), asWritten, fuel) == Going(s)
    requires s.cursor.Some? && s.cursor.value < |g.contracts|
    ensures Run(p, g, property, st, asWritten, fuel) == Run(p, g, property, s, asWritten, fuel - 1)
  {
  }

  /** The pass of the loop that finds no further contract. */
  lemma RunFinishes<V>(p: Plugins<V>, g: Graph, property: Option<Contract>, st: DriverState, asWritten: bool, fuel: nat)
    requires Navigable(g) && (st.cursor.Some? ==> st.cursor.value < |g.contracts|) && fuel > 0
    requires !SetToNext(g.contracts, st.cursor).valid
    ensures Run(p, g, property, st, asWritten, fuel) == Finish(p, g, property, st.(cursor := None), asWritten, fuel)
  {
  }

  /** Corrected and without a property, the end of the run adds the reports and the final message. */
  lemma FinishReports<V>(p: Plugins<V>, g: Graph, st: DriverState, fuel: nat)
    requires Navigable(g)
    ensures Finish(p, g, None, st, false, fuel)
         == Going(st.(messages := st.messages + ReportsOf(st, false) + [if st.allValid then AllVerified else SomeFailed]))
  {
  }

  /** Corrected, a proved property adds its verdict between the reports and the final message. */
  lemma FinishProves<V>(p: Plugins<V>, g: Graph, property: Contract, st: DriverState, fuel: nat, cursor: Option<nat>)
    requires Navigable(g)
    requires CheckProperty(p, g, property, st.cursor, false, fuel) == PropertyChecked(cursor, true)
    ensures Finish(p, g, Some(property), st, false, fuel).st.messages
         == st.messages + ReportsOf(st, false) + [PropertyProved, if st.allValid then AllVerified else SomeFailed]
  {
  }

  // ---------------------------------------------------------------------
  // Counterexamples for the driver as written

  /** A contract at the address, with no edge, zone or constraint. */
  function ContractAt(address: int): (c: Contract)
    ensures Key(c) == address && IsValidContract(c) == (address != 0) && !c.hasParent
  {
    Contract(0, 0, 1, address, None, [], None, false)
  }

  /**
   * Plugins that change nothing, find one byte of code everywhere, accept
   * every instruction, reach every interpretation target at once and
   * announce no stop address; the successors are given.
   */
  function QuietPlugins(successors: int -> seq<int>): Plugins<int>
  {
    Plugins(m => m, (zs, zones, a) => zones, (j, m, a) => m, a => Some([0 as bv8]),
            (a, bs, ts, m) => Processor.Answer(true, successors(a), m), (a, bs, t, m) => (true, m), c => [])
  }

  /** Two contracts at 100 and 200 whose blocks branch to each other. */
  function PingPongGraph(): (g: Graph)
    ensures Navigable(g) && |g.contracts| == 2
  {
    Graph([ContractAt(100), ContractAt(200)], EmptyResolver(), None, None, 0)
  }

  function PingPong(a: int): seq<int>
  {
    if a == 100 then [200, 200] else [100, 100]
  }

  /** The address of the contract at position h of the two-contract graph, and of the other one. */
  function PingPongAddress(h: nat): int
  {
    if h == 0 then 100 else 200
  }

  /** Each block check in the two-contract graph succeeds and records its connection. */
  lemma PingPongBlock(h: nat, cov: Coverage, fuel: nat)
    requires h < 2 && fuel > 0
    ensures var r := CheckBlockWith(QuietPlugins(PingPong), PingPongGraph(), PingPongAddress(h),
                                    PingPongAddress(1 - h), h, 1 - h, Some(cov), true, fuel);
      r.Checked? && r.verdict && r.coverage == Some(AddConnection(cov, h, 1 - h))
  {
    var g := PingPongGraph();
    var p := QuietPlugins(PingPong);
    assert ApplicationOrder(g.resolver.bound, h, fuel) == Some([h]);
    assert ApplicationOrder(g.resolver.bound, 1 - h, fuel) == Some([1 - h]);
    var pre := ContractState(p, g, h, fuel).value;
    assert Processor.Interpret(PingPongAddress(h), p.code(PingPongAddress(h)), PingPongAddress(1 - h), pre, p.step, fuel)
        == Some(pre);
  }

  /** The inner loop over the two targets of a block of the two-contract graph records two connections. */
  lemma PingPongTargets(h: nat, st: DriverState, fuel: nat)
    requires h < 2 && fuel > 0
    ensures var ts := [PingPongAddress(1 - h), PingPongAddress(1 - h)];
      var r := CheckTargets(QuietPlugins(PingPong), PingPongGraph(), h, PingPongAddress(h), ts, 0, st, fuel);
      r == Going(st.(coverage := AddConnection(AddConnection(st.coverage, h, 1 - h), h, 1 - h)))
  {
    var g := PingPongGraph();
    var p := QuietPlugins(PingPong);
    var ts := [PingPongAddress(1 - h), PingPongAddress(1 - h)];
    assert SetAddress(g.contracts, Some(h), ts[0], 1) == Moved(true, Some(1 - h));
    PingPongBlock(h, st.coverage, fuel);
    var st2 := st.(coverage := AddConnection(st.coverage, h, 1 - h));
    assert st2 == st.(coverage := st2.coverage, allValid := st.allValid && true, messages := st.messages + []);
    PingPongBlock(h, st2.coverage, fuel);
    var st3 := st2.(coverage := AddConnection(st2.coverage, h, 1 - h));
    assert CheckTargets(p, g, h, PingPongAddress(h), ts, 2, st3, fuel) == Going(st3);
  }

  /** The walk of a block of the two-contract graph ends at once with its two targets. */
  lemma PingPongWalk(h: nat, fuel: nat)
    requires h < 2 && fuel > 0
    ensures GetTargets(QuietPlugins(PingPong), PingPongGraph(), h, PingPongAddress(h), [], fuel)
         == Processor.Returned(true, [PingPongAddress(1 - h), PingPongAddress(1 - h)])
  {
    var p := QuietPlugins(PingPong);
    var address := PingPongAddress(h);
    assert ApplicationOrder(PingPongGraph().resolver.bound, h, fuel) == Some([h]);
    var m := ContractState(p, PingPongGraph(), h, fuel).value;
    assert Processor.ReadSome(p.code(address)) == Some([0 as bv8]);
    assert PingPong(address) == [PingPongAddress(1 - h), PingPongAddress(1 - h)];
    assert p.next(address, [0 as bv8][0..], [], m) == Processor.Answer(true, PingPong(address), m);
    assert Processor.WalkFrom(address, [0 as bv8], 0, 0, [], m, p.next, fuel)
        == Processor.Returned(true, [PingPongAddress(1 - h), PingPongAddress(1 - h)]);
  }

  /** The visit of the contract at position h of the two-contract graph: its two targets check. */
  lemma PingPongVisit(h: nat, st: DriverState, asWritten: bool, property: Option<Contract>, fuel: nat)
    requires fuel > 0 && h < 2 && st.cursor == Some(h) && (asWritten ==> property.None?)
    ensures Visit(QuietPlugins(PingPong), PingPongGraph(), property, st, asWritten, fuel)
         == Going(st.(coverage := AddConnection(AddConnection(st.coverage, h, 1 - h), h, 1 - h),
                      messages := st.messages + (if asWritten then [CoverageVerified] else [])))
  {
    var targets := [PingPongAddress(1 - h), PingPongAddress(1 - h)];
    PingPongWalk(h, fuel);
    var stops := Processor.StoreTargets(Processor.CreateAddressVector(), []);
    var v := Processor.StoreTargets(stops, targets);
    assert stops.container.value[..stops.length] == [];
    assert v.container.value == targets && v.length == 2 && v.arraySize == 2;
    assert v.container.value[..v.length] == targets;
    PingPongTargets(h, st, fuel);
  }

  /**
   * The property at 100 checked from a cursor: as written the TypeError
   * stops it where the cursor is; corrected, from before the start as the
   * corrected loop leaves it, or from the first contract, the property is
   * proved.
   */
  lemma PingPongProperty(cursor: Option<nat>, asWritten: bool, fuel: nat)
    requires fuel > 0 && (cursor == None || cursor == Some(0))
    ensures var r := CheckProperty(QuietPlugins(PingPong), PingPongGraph(), ContractAt(100), cursor, asWritten, fuel);
      r == (if asWritten then PropertyHalted(cursor, ContractTypeError) else PropertyChecked(Some(0), true))
  {
    if !asWritten {
      var g := PingPongGraph();
      var p := QuietPlugins(PingPong);
      assert SetAddress(g.contracts, cursor, 100, 0) == Moved(true, Some(0));
      PingPongWalk(0, fuel);
      var gp := WithProperty(g, ContractAt(100));
      assert ApplicationOrder(gp.resolver.bound, 0, fuel) == Some([0]);
      assert ApplicationOrder(gp.resolver.bound, 2, fuel) == Some([2]);
      var pre := ContractState(p, gp, 0, fuel).value;
      assert Processor.Interpret(100, p.code(100), 100, pre, p.step, fuel) == Some(pre);
    }
  }

  /** The state after both contracts of the two-contract graph were visited. */
  function PingPongVisited(asWritten: bool): DriverState
  {
    var once := AddConnection(AddConnection(Coverage([]), 0, 1), 0, 1);
    var twice := AddConnection(AddConnection(once, 1, 0), 1, 0);
    InitialDriverState().(cursor := Some(1), coverage := twice,
                          messages := if asWritten then [CoverageVerified, CoverageVerified] else [])
  }

  /** The state after the first contract of the two-contract graph was visited. */
  function PingPongFirstVisited(asWritten: bool): DriverState
  {
    InitialDriverState().(cursor := Some(0), coverage := AddConnection(AddConnection(Coverage([]), 0, 1), 0, 1),
                          messages := if asWritten then [CoverageVerified] else [])
  }

  /** The first pass of the loop over the two-contract graph visits the contract at 100. */
  lemma PingPongFirstPass(asWritten: bool, property: Option<Contract>)
    requires asWritten ==> property.None?
    ensures Run(QuietPlugins(PingPong), PingPongGraph(), property, InitialDriverState(), asWritten, 3)
         == Run(QuietPlugins(PingPong), PingPongGraph(), property, PingPongFirstVisited(asWritten), asWritten, 2)
  {
    var p := QuietPlugins(PingPong);
    var g := PingPongGraph();
    var st0 := InitialDriverState();
    assert SetToNext(g.contracts, st0.cursor) == Moved(true, Some(0));
    PingPongFirstVisit(asWritten, property);
    RunVisits(p, g, property, st0, asWritten, 3, PingPongFirstVisited(asWritten));
  }

  lemma PingPongFirstVisit(asWritten: bool, property: Option<Contract>)
    requires asWritten ==> property.None?
    ensures Visit(QuietPlugins(PingPong), PingPongGraph(), property, InitialDriverState().(cursor := Some(0)), asWritten, 3)
         == Going(PingPongFirstVisited(asWritten))
  {
    var st := InitialDriverState().(cursor := Some(0));
    var said := if asWritten then [CoverageVerified] else [];
    var after := st.(coverage := AddConnection(AddConnection(st.coverage, 0, 1), 0, 1), messages := st.messages + said);
    assert after == PingPongFirstVisited(asWritten) by {
      assert st.coverage == Coverage([]);
      EmptyThen(said);
    }
    PingPongVisit(0, st, asWritten, property, 3);
  }

  lemma EmptyThen<T>(s: seq<T>)
    ensures [] + s == s
  {
  }

  /** The second pass visits the contract at 200. */
  lemma PingPongSecondPass(asWritten: bool, property: Option<Contract>)
    requires asWritten ==> property.None?
    ensures Run(QuietPlugins(PingPong), PingPongGraph(), property, PingPongFirstVisited(asWritten), asWritten, 2)
         == Run(QuietPlugins(PingPong), PingPongGraph(), property, PingPongVisited(asWritten), asWritten, 1)
  {
    var p := QuietPlugins(PingPong);
    var g := PingPongGraph();
    var a1 := PingPongFirstVisited(asWritten);
    assert SetToNext(g.contracts, a1.cursor) == Moved(true, Some(1));
    PingPongSecondVisit(asWritten, property);
    RunVisits(p, g, property, a1, asWritten, 2, PingPongVisited(asWritten));
  }

  lemma PingPongSecondVisit(asWritten: bool, property: Option<Contract>)
    requires asWritten ==> property.None?
    ensures Visit(QuietPlugins(PingPong), PingPongGraph(), property, PingPongFirstVisited(asWritten).(cursor := Some(1)), asWritten, 2)
         == Going(PingPongVisited(asWritten))
  {
    var st := PingPongFirstVisited(asWritten).(cursor := Some(1));
    var said := if asWritten then [CoverageVerified] else [];
    var after := st.(coverage := AddConnection(AddConnection(st.coverage, 1, 0), 1, 0), messages := st.messages + said);
    assert after == PingPongVisited(asWritten) by {
      assert st.messages + said == if asWritten then [CoverageVerified, CoverageVerified] else [];
    }
    PingPongVisit(1, st, asWritten, property, 2);
  }

  /**
   * The two passes of the loop over the two-contract graph, when no
   * property check intervenes inside it; the third finds no contract.
   */
  lemma PingPongLoop(asWritten: bool, property: Option<Contract>)
    requires asWritten ==> property.None?
    ensures Run(QuietPlugins(PingPong), PingPongGraph(), property, InitialDriverState(), asWritten, 3)
         == Finish(QuietPlugins(PingPong), PingPongGraph(), property, PingPongVisited(asWritten).(cursor := None), asWritten, 1)
  {
    PingPongFirstPass(asWritten, property);
    PingPongSecondPass(asWritten, property);
    RunFinishes(QuietPlugins(PingPong), PingPongGraph(), property, PingPongVisited(asWritten), asWritten, 1);
  }

  /**
   * In the two-contract graph, as written, the coverage verdict is printed
   * once per contract visited.
   */
  lemma ReportsInLoopAsWritten()
    ensures Driver(QuietPlugins(PingPong), PingPongGraph(), None, true, 3).st.messages
         == [CoverageVerified, CoverageVerified, AllVerified]
  {
    PingPongLoop(true, None);
  }

  /**
   * Corrected, the coverage verdict comes once, after the loop, with the
   * reports on the missing initial and final contracts.
   */
  lemma ReportsAfterLoop()
    ensures Driver(QuietPlugins(PingPong), PingPongGraph(), None, false, 3).st.messages
         == [NoInitialContract, NoFinalContract, CoverageVerified, AllVerified]
  {
    PingPongLoop(false, None);
    PingPongReportsFinish();
  }

  /** The end of the corrected run over the two-contract graph without a property. */
  lemma PingPongReportsFinish()
    ensures Finish(QuietPlugins(PingPong), PingPongGraph(), None, PingPongVisited(false).(cursor := None), false, 1).st.messages
         == [NoInitialContract, NoFinalContract, CoverageVerified, AllVerified]
  {
    var st := PingPongVisited(false).(cursor := None);
    assert st.messages == [] && st.allValid && st.first.None? && st.last.None?;
    assert ReportsOf(st, false) == [NoInitialContract, NoFinalContract, CoverageVerified];
    FinishReports(QuietPlugins(PingPong), PingPongGraph(), st, 1);
  }

  /**
   * With a property at 100, as written the first pass of the loop reaches
   * the property check after its coverage report, and the TypeError of
   * Contract(processor) ends the run there.
   */
  lemma PropertyTypeErrorAsWritten()
    ensures Driver(QuietPlugins(PingPong), PingPongGraph(), Some(ContractAt(100)), true, 3)
         == Halted(InitialDriverState().(cursor := Some(0),
                     coverage := AddConnection(AddConnection(Coverage([]), 0, 1), 0, 1),
                     messages := [CoverageVerified]), ContractTypeError)
  {
    var g := PingPongGraph();
    assert SetToNext(g.contracts, None) == Moved(true, Some(0));
    PingPongTypeErrorVisit();
  }

  /** The first pass of the run as written with the property at 100. */
  lemma PingPongTypeErrorVisit()
    ensures Visit(QuietPlugins(PingPong), PingPongGraph(), Some(ContractAt(100)), InitialDriverState().(cursor := Some(0)), true, 3)
         == Halted(InitialDriverState().(cursor := Some(0),
                     coverage := AddConnection(AddConnection(Coverage([]), 0, 1), 0, 1),
                     messages := [CoverageVerified]), ContractTypeError)
  {
    var st := InitialDriverState().(cursor := Some(0));
    PingPongWalk(0, 3);
    PingPongTargets(0, st, 3);
    var stops := Processor.StoreTargets(Processor.CreateAddressVector(), []);
    var v := Processor.StoreTargets(stops, [200, 200]);
    assert stops.container.value[..stops.length] == [];
    assert v.container.value[..v.length] == [200, 200];
    var checked := st.(coverage := AddConnection(AddConnection(st.coverage, 0, 1), 0, 1));
    assert Report(QuietPlugins(PingPong), PingPongGraph(), Some(ContractAt(100)), checked, true, 3)
        == Halted(checked.(messages := [CoverageVerified]), ContractTypeError);
  }

  /**
   * Corrected, the property at 100 is proved after the loop. The
   * correction also repairs the calls that load the property contract.
   */
  lemma PropertyAfterLoop()
    ensures Driver(QuietPlugins(PingPong), PingPongGraph(), Some(ContractAt(100)), false, 3).st.messages
         == [NoInitialContract, NoFinalContract, CoverageVerified, PropertyProved, AllVerified]
  {
    PingPongLoop(false, Some(ContractAt(100)));
    PingPongPropertyFinish();
  }

  /** The end of the corrected run over the two-contract graph with the property at 100. */
  lemma PingPongPropertyFinish()
    ensures Finish(QuietPlugins(PingPong), PingPongGraph(), Some(ContractAt(100)), PingPongVisited(false).(cursor := None), false, 1).st.messages
         == [NoInitialContract, NoFinalContract, CoverageVerified, PropertyProved, AllVerified]
  {
    var st := PingPongVisited(false).(cursor := None);
    assert st.messages == [] && st.allValid && st.first.None? && st.last.None?;
    assert ReportsOf(st, false) == [NoInitialContract, NoFinalContract, CoverageVerified];
    PingPongProperty(None, false, 1);
    FinishProves(QuietPlugins(PingPong), PingPongGraph(), ContractAt(100), st, 1, Some(0));
  }
}
