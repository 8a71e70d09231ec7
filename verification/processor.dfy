/**
 * The processor side of block checking: the target-address vector shared
 * with the instruction-set plugin and its growth policy, the linear-block
 * walk that asks the plugin for the successors of each instruction, and
 * the interpretation loop. The plugin's calls are function parameters;
 * the bytes read from the firmware file are a parameter too (None when
 * the seek fails).
 */
module Processor {
  import opened Wrappers

  // ---------------------------------------------------------------------
  // Target-address vectors

  /**
   * A target vector: the backing container (None once freed, the null
   * pointer), the array size announced to the plugin and the number of
   * addresses in use.
   */
  datatype AddressVector = AddressVector(container: Option<seq<int>>, arraySize: int, length: int)

  /** create_address_vector: two zero slots, none in use. */
  function CreateAddressVector(): (v: AddressVector)
    ensures v.container == Some([0, 0]) && v.arraySize == 2 && v.length == 0
  {
    AddressVector(Some([0, 0]), 2, 0)
  }

  /** free_address_vector: the container is released and every field is nulled. */
  function FreeAddressVector(v: AddressVector): (r: AddressVector)
    ensures r.container.None? && r.arraySize == 0 && r.length == 0
  {
    AddressVector(None, 0, 0)
  }

  /**
   * The size address_vector_realloc_addresses grows to: 6 below six,
   * otherwise half as much again, rounded down.
   */
  function NewArraySize(oldSize: int): (n: int)
    ensures n >= 6 && n > oldSize
    ensures oldSize < 6 ==> n == 6
    ensures oldSize >= 6 ==> 2 * n <= 3 * oldSize < 2 * n + 2
  {
    if oldSize < 6 then 6 else oldSize * 3 / 2
  }

  datatype Reallocated = Reallocated(container: seq<int>, newSize: int)

  /**
   * address_vector_realloc_addresses: the container, which must hold
   * exactly the old size, is extended with zeros up to the new size.
   */
  function ReallocAddresses(container: seq<int>, oldSize: int): (r: Reallocated)
    requires |container| == oldSize
    ensures r.newSize == NewArraySize(oldSize) && |r.container| == r.newSize
    ensures r.container[..oldSize] == container
    ensures forall k :: oldSize <= k < r.newSize ==> r.container[k] == 0
  {
    var n := NewArraySize(oldSize);
    Reallocated(container + seq(n - oldSize, _ => 0), n)
  }

  /** A vector in use: the container holds exactly the announced slots, the used ones first. */
  predicate IsLive(v: AddressVector)
  {
    v.container.Some? && |v.container.value| == v.arraySize && 0 <= v.length <= v.arraySize
  }

  /**
   * The plugin writing successors into a vector: the container grows
   * through the reallocation callback while it is too small, then the
   * addresses fill the first slots and become the used part; the slots
   * after them keep what they held.
   */
  function StoreTargets(v: AddressVector, xs: seq<int>): (r: AddressVector)
    requires IsLive(v)
    ensures IsLive(r) && r.length == |xs| && r.arraySize >= v.arraySize
    ensures |xs| <= v.arraySize ==> r.arraySize == v.arraySize
    ensures r.container.value[..|xs|] == xs
    ensures forall k :: |xs| <= k < v.arraySize ==> r.container.value[k] == v.container.value[k]
    ensures forall k :: v.arraySize <= k < r.arraySize && |xs| <= k ==> r.container.value[k] == 0
    decreases |xs| - v.arraySize
  {
    if |xs| <= v.arraySize then
      AddressVector(Some(xs + v.container.value[|xs|..]), v.arraySize, |xs|)
    else
      var grown := ReallocAddresses(v.container.value, v.arraySize);
      StoreTargets(AddressVector(Some(grown.container), grown.newSize, v.length), xs)
  }

  /** The size after k reallocations. */
  function SizeAfter(size: int, k: nat): int
    decreases k
  {
    if k == 0 then size else SizeAfter(NewArraySize(size), k - 1)
  }

  /** Each reallocation adds at least one slot, so the vector can hold any number of targets. */
  lemma {:induction false} ReallocationsGrow(size: int, k: nat)
    ensures SizeAfter(size, k) >= size + k
    decreases k
  {
    if k > 0 {
      ReallocationsGrow(NewArraySize(size), k - 1);
    }
  }

  /** From a fresh vector, reallocation gives 6, then 9, then 13 slots. */
  lemma FreshVectorGrowth()
    ensures var v := CreateAddressVector();
      var first := ReallocAddresses(v.container.value, v.arraySize);
      var second := ReallocAddresses(first.container, first.newSize);
      first.newSize == 6 && first.container == [0, 0, 0, 0, 0, 0] &&
      second.newSize == 9 && NewArraySize(second.newSize) == 13
  {
  }

  // ---------------------------------------------------------------------
  // Reading the code

  /** The size of the instruction buffer both loops read into. */
  const BufferSize := 1000

  /**
   * The bytes one readsome call delivers: at most BufferSize of those the
   * file has from the address on, or None when the seek fails.
   */
  function ReadSome(available: Option<seq<bv8>>): (r: Option<seq<bv8>>)
    ensures available.None? <==> r.None?
    ensures r.Some? ==> |r.value| <= BufferSize && r.value <= available.value
    ensures r.Some? && |r.value| < BufferSize ==> r.value == available.value
  {
    match available
    case None => None
    case Some(bytes) => if |bytes| <= BufferSize then Some(bytes) else Some(bytes[..BufferSize])
  }

  // ---------------------------------------------------------------------
  // The linear-block walk

  /**
   * What processor_next_targets reports for one instruction: whether it
   * could decode and interpret it, the content of the target vector
   * afterwards, and the memory state it leaves.
   */
  datatype Answer<S> = Answer(valid: bool, targets: seq<int>, state: S)

  /**
   * How a walk ends: the function's return value with the targets left in
   * the vector; the abort of AssumeCondition(isValid) when the plugin
   * rejects an instruction; a jump before the start of the read buffer,
   * which the source does not guard against; or more plugin calls than
   * the fuel allows.
   */
  datatype Walk = Returned(verdict: bool, targets: seq<int>) | Rejected | LeftBuffer | OutOfFuel

  /**
   * The loop of retrieveNextTargets from the instruction at `offset` in
   * the read bytes. The plugin `next` receives the address, the bytes
   * from the instruction on, the targets already in the vector and the
   * memory state. An invalid answer aborts. A single successor other than
   * the stop address moves the walk by the distance between the two
   * addresses, empties the vector and goes on in the state the plugin
   * left; the stop address, or zero or several successors, end the walk
   * with true.
   */
  function WalkFrom<S>(address: int, bytes: seq<bv8>, offset: int, stop: int, targets: seq<int>, m: S,
                       next: (int, seq<bv8>, seq<int>, S) -> Answer<S>, fuel: nat): (w: Walk)
    ensures w.Returned? && w.verdict ==> |w.targets| != 1 || w.targets[0] == stop
    ensures w.Returned? && !w.verdict ==> w.targets == targets || w.targets == []
    ensures w.Rejected? ==> 0 <= offset < |bytes| && fuel > 0
    decreases fuel
  {
    if |bytes| - offset <= 0 then Returned(false, targets)
    else if offset < 0 then LeftBuffer
    else if fuel == 0 then OutOfFuel
    else
      var a := next(address, bytes[offset..], targets, m);
      if !a.valid then Rejected
      else if |a.targets| == 1 then
        if a.targets[0] == stop then Returned(true, a.targets)
        else WalkFrom(a.targets[0], bytes, offset + (a.targets[0] - address), stop, [], a.state, next, fuel - 1)
      else Returned(true, a.targets)
  }

  /**
   * Processor::retrieveNextTargets over the bytes the file offers at the
   * address (None when the seek fails), of which one buffer is read. A
   * vector holding exactly one address on entry gives the stop address and
   * is emptied; otherwise the stop address is 0.
   */
  function RetrieveNextTargets<S>(address: int, available: Option<seq<bv8>>, targets: seq<int>, m: S,
                                  next: (int, seq<bv8>, seq<int>, S) -> Answer<S>, fuel: nat): (w: Walk)
    ensures available.None? || available == Some([]) ==> w == Returned(false, targets)
    ensures w.Returned? && w.verdict ==>
      |w.targets| != 1 || w.targets[0] == (if |targets| == 1 then targets[0] else 0)
    ensures available.Some? && |available.value| > 0 && fuel > 0 &&
            !next(address, ReadSome(available).value, if |targets| == 1 then [] else targets, m).valid ==>
      w == Rejected
  {
    match ReadSome(available)
    case None => Returned(false, targets)
    case Some(bytes) =>
      if |bytes| == 0 then Returned(false, targets)
      else
        var stop := if |targets| == 1 then targets[0] else 0;
        WalkFrom(address, bytes, 0, stop, if |targets| == 1 then [] else targets, m, next, fuel)
  }

  /**
   * In any state, the plugin never accepts an instruction with a single
   * successor at or before it.
   */
  ghost predicate MovesForward<S(!new)>(next: (int, seq<bv8>, seq<int>, S) -> Answer<S>)
  {
    forall a, bs, ts, s :: next(a, bs, ts, s).valid && |next(a, bs, ts, s).targets| == 1 ==>
      next(a, bs, ts, s).targets[0] > a
  }

  /**
   * With a plugin whose single successors always lie ahead, the walk ends
   * inside the buffer, returned or rejected, after at most as many calls
   * as there are bytes left.
   */
  lemma {:induction false} ForwardWalkEnds<S(!new)>(address: int, bytes: seq<bv8>, offset: int, stop: int, targets: seq<int>,
                                              m: S, next: (int, seq<bv8>, seq<int>, S) -> Answer<S>, fuel: nat)
    requires MovesForward(next) && 0 <= offset
    requires fuel >= |bytes| - offset
    ensures WalkFrom(address, bytes, offset, stop, targets, m, next, fuel).Returned? ||
            WalkFrom(address, bytes, offset, stop, targets, m, next, fuel).Rejected?
    decreases fuel
  {
    if |bytes| - offset > 0 {
      var a := next(address, bytes[offset..], targets, m);
      if a.valid && |a.targets| == 1 && a.targets[0] != stop {
        assert a.targets[0] > address;
        ForwardWalkEnds(a.targets[0], bytes, offset + (a.targets[0] - address), stop, [], a.state, next, fuel - 1);
      }
    }
  }

  /**
   * One step of the walk: an invalid answer aborts; a single successor
   * equal to the stop address ends the walk at once with true; a single
   * successor elsewhere continues from it with an empty vector and the
   * plugin's memory state; zero or several successors end it with true.
   */
  lemma WalkStep<S>(address: int, bytes: seq<bv8>, offset: int, stop: int, targets: seq<int>, m: S,
                    next: (int, seq<bv8>, seq<int>, S) -> Answer<S>, fuel: nat)
    requires 0 <= offset < |bytes| && fuel > 0
    ensures var a := next(address, bytes[offset..], targets, m);
      var w := WalkFrom(address, bytes, offset, stop, targets, m, next, fuel);
      (!a.valid ==> w == Rejected) &&
      (a.valid && |a.targets| == 1 && a.targets[0] == stop ==> w == Returned(true, a.targets)) &&
      (a.valid && |a.targets| == 1 && a.targets[0] != stop ==>
         w == WalkFrom(a.targets[0], bytes, offset + (a.targets[0] - address), stop, [], a.state, next, fuel - 1)) &&
      (a.valid && |a.targets| != 1 ==> w == Returned(true, a.targets))
  {
  }

  // ---------------------------------------------------------------------
  // Interpretation

  /**
   * The loop of Processor::interpret once the bytes are read: the plugin
   * is called with the same bytes, address and target every time, since
   * the loop never moves the instruction pointer, and only the memory
   * state changes. It stops when the plugin reports the target reached;
   * None when the fuel runs out first.
   */
  function InterpretLoop<S>(address: int, bytes: seq<bv8>, target: int, m: S,
                            step: (int, seq<bv8>, int, S) -> (bool, S), fuel: nat): (r: Option<S>)
    requires |bytes| > 0
    ensures r.Some? ==> fuel > 0
    ensures fuel > 0 && step(address, bytes, target, m).0 ==> r == Some(step(address, bytes, target, m).1)
    decreases fuel
  {
    if fuel == 0 then None
    else
      var (found, m') := step(address, bytes, target, m);
      if found then Some(m') else InterpretLoop(address, bytes, target, m', step, fuel - 1)
  }

  /** The memory state after k calls of the interpreter, whatever they reported. */
  function StateAfter<S>(address: int, bytes: seq<bv8>, target: int, m: S,
                         step: (int, seq<bv8>, int, S) -> (bool, S), k: nat): S
    decreases k
  {
    if k == 0 then m else StateAfter(address, bytes, target, step(address, bytes, target, m).1, step, k - 1)
  }

  /** Whether the call after k calls reports the target reached. */
  predicate ReachesAt<S>(address: int, bytes: seq<bv8>, target: int, m: S,
                         step: (int, seq<bv8>, int, S) -> (bool, S), k: nat)
  {
    step(address, bytes, target, StateAfter(address, bytes, target, m, step, k)).0
  }

  /**
   * When the k-th call is the first one to reach the target and the fuel
   * allows it, the loop ends with the state that call leaves.
   */
  lemma {:induction false} InterpretLoopFirstReach<S>(address: int, bytes: seq<bv8>, target: int, m: S,
                                                      step: (int, seq<bv8>, int, S) -> (bool, S), fuel: nat, k: nat)
    requires |bytes| > 0 && k < fuel
    requires ReachesAt(address, bytes, target, m, step, k)
    requires forall j :: 0 <= j < k ==> !ReachesAt(address, bytes, target, m, step, j)
    ensures InterpretLoop(address, bytes, target, m, step, fuel)
         == Some(step(address, bytes, target, StateAfter(address, bytes, target, m, step, k)).1)
    decreases k
  {
    if k > 0 {
      assert !ReachesAt(address, bytes, target, m, step, 0);
      var m' := step(address, bytes, target, m).1;
      forall j | 0 <= j < k - 1
        ensures !ReachesAt(address, bytes, target, m', step, j)
      {
        assert !ReachesAt(address, bytes, target, m, step, j + 1);
      }
      InterpretLoopFirstReach(address, bytes, target, m', step, fuel - 1, k - 1);
    }
  }

  /** The loop runs out of fuel exactly when none of the calls the fuel allows reaches the target. */
  lemma {:induction false} InterpretLoopMisses<S>(address: int, bytes: seq<bv8>, target: int, m: S,
                                                  step: (int, seq<bv8>, int, S) -> (bool, S), fuel: nat)
    requires |bytes| > 0
    ensures InterpretLoop(address, bytes, target, m, step, fuel).None? <==>
            forall k :: 0 <= k < fuel ==> !ReachesAt(address, bytes, target, m, step, k)
    decreases fuel
  {
    if fuel > 0 {
      var m' := step(address, bytes, target, m).1;
      if step(address, bytes, target, m).0 {
        assert ReachesAt(address, bytes, target, m, step, 0);
      } else {
        InterpretLoopMisses(address, bytes, target, m', step, fuel - 1);
        if forall k :: 0 <= k < fuel - 1 ==> !ReachesAt(address, bytes, target, m', step, k) {
          forall k | 0 <= k < fuel
            ensures !ReachesAt(address, bytes, target, m, step, k)
          {
            if k > 0 {
              assert !ReachesAt(address, bytes, target, m', step, k - 1);
            }
          }
        } else {
          var k :| 0 <= k < fuel - 1 && ReachesAt(address, bytes, target, m', step, k);
          assert ReachesAt(address, bytes, target, m, step, k + 1);
        }
      }
    }
  }

  /**
   * Processor::interpret: a failed seek or an empty read leaves the state
   * as it was.
   */
  function Interpret<S>(address: int, available: Option<seq<bv8>>, target: int, m: S,
                        step: (int, seq<bv8>, int, S) -> (bool, S), fuel: nat): (r: Option<S>)
    ensures available.None? || available == Some([]) ==> r == Some(m)
  {
    match ReadSome(available)
    case None => Some(m)
    case Some(bytes) => if |bytes| == 0 then Some(m) else InterpretLoop(address, bytes, target, m, step, fuel)
  }

  /**
   * Termination rests on the plugin: if it never reports the target
   * reached from this address, interpretation runs out of any fuel.
   */
  lemma {:induction false} InterpretNeedsPlugin<S>(address: int, bytes: seq<bv8>, target: int, m: S,
                                                   step: (int, seq<bv8>, int, S) -> (bool, S), fuel: nat)
    requires |bytes| > 0
    requires forall s :: !step(address, bytes, target, s).0
    ensures InterpretLoop(address, bytes, target, m, step, fuel).None?
    decreases fuel
  {
    if fuel > 0 {
      InterpretNeedsPlugin(address, bytes, target, step(address, bytes, target, m).1, step, fuel - 1);
    }
  }

  /** A plugin that reports the target at the first call ends interpretation with its state. */
  lemma InterpretFirstCall<S>(address: int, bytes: seq<bv8>, target: int, m: S,
                              step: (int, seq<bv8>, int, S) -> (bool, S), fuel: nat)
    requires 0 < |bytes| <= BufferSize && fuel > 0 && step(address, bytes, target, m).0
    ensures Interpret(address, Some(bytes), target, m, step, fuel) == Some(step(address, bytes, target, m).1)
  {
  }
}
