/**
 * Memory zones: named regions whose start and length are symbolic
 * expressions, the pool that numbers them, the split/merge/rename
 * arithmetic, and the zone-set merge action.
 */
module MemoryZones {
  import opened Wrappers
  import opened Expressions

  // ---------------------------------------------------------------------
  // Pool

  /** The pool hands out zone ids from a counter that starts at 0. */
  datatype Pool = Pool(counter: int)

  function NewPool(): (p: Pool)
    ensures p.counter == 0
  { Pool(0) }

  datatype Generated = Generated(pool: Pool, id: int)

  /** generateNewId: pre-increments the counter and returns it. */
  function GenerateNewId(p: Pool): (r: Generated)
    ensures r.id > p.counter
    ensures r.pool.counter == r.id
  {
    Generated(Pool(p.counter + 1), p.counter + 1)
  }

  datatype GeneratedMany = GeneratedMany(pool: Pool, ids: seq<int>)

  /** n successive calls to generateNewId. */
  function GenerateIds(p: Pool, n: nat): GeneratedMany
    decreases n
  {
    if n == 0 then GeneratedMany(p, [])
    else
      var g := GenerateNewId(p);
      var rest := GenerateIds(g.pool, n - 1);
      GeneratedMany(rest.pool, [g.id] + rest.ids)
  }

  /**
   * Ids handed out by one pool are p.counter+1, p.counter+2, ...: strictly
   * increasing, hence distinct, and positive for a fresh pool.
   */
  lemma {:induction false} IdsStrictlyIncreasing(p: Pool, n: nat)
    ensures |GenerateIds(p, n).ids| == n
    ensures forall k :: 0 <= k < n ==> GenerateIds(p, n).ids[k] == p.counter + k + 1
    ensures forall j, k :: 0 <= j < k < n ==> GenerateIds(p, n).ids[j] < GenerateIds(p, n).ids[k]
    ensures GenerateIds(p, n).pool.counter == p.counter + n
    ensures p.counter >= 0 ==> forall k :: 0 <= k < n ==> GenerateIds(p, n).ids[k] > 0
    decreases n
  {
    if n > 0 {
      IdsStrictlyIncreasing(GenerateNewId(p).pool, n - 1);
    }
  }

  // ---------------------------------------------------------------------
  // Zones

  /**
   * A zone: its id (0 when not initialised), the code address it was
   * created at, its start and length expressions, and its name.
   */
  datatype Zone = Zone(id: int, startInCode: int, start: Expr, length: Expr, name: string)

  /** A zone is valid once it carries an id. */
  predicate IsValid(z: Zone) { z.id > 0 }

  /** The constructor taking only a pool: no id, no content. */
  function EmptyZone(): (z: Zone)
    ensures !IsValid(z)
  {
    Zone(0, 0, Null, Null, "")
  }

  datatype Created = Created(zone: Zone, pool: Pool)

  /** The full constructor: the zone takes the next id of the pool. */
  function NewZone(p: Pool, startInCode: int, name: string, start: Expr, length: Expr): (r: Created)
    ensures r.zone.id == GenerateNewId(p).id && r.pool == GenerateNewId(p).pool
    ensures p.counter >= 0 ==> IsValid(r.zone)
    ensures r.zone.startInCode == startInCode && r.zone.name == name
    ensures r.zone.start == start && r.zone.length == length
  {
    var g := GenerateNewId(p);
    Created(Zone(g.id, startInCode, start, length, name), g.pool)
  }

  /** initialize: only for a zone without id; gives it the pool's next id and its fields. */
  function Initialize(z: Zone, p: Pool, startInCode: int, name: string, start: Expr, length: Expr): (r: Created)
    requires z.id == 0
    ensures r == NewZone(p, startInCode, name, start, length)
  {
    var g := GenerateNewId(p);
    Created(Zone(g.id, startInCode, start, length, name), g.pool)
  }

  /** clear: the zone loses its id, its code address, its expressions and its name. */
  function ClearZone(z: Zone): (r: Zone)
    ensures !IsValid(r)
    ensures r.startInCode == 0 && r.name == ""
    ensures r.start == Clear(z.start) && r.length == Clear(z.length)
    ensures forall registers, load ::
      Eval(r.start, registers, load).None? && Eval(r.length, registers, load).None?
  {
    Zone(0, 0, Clear(z.start), Clear(z.length), "")
  }

  /** rename: only the name changes. */
  function Rename(z: Zone, newName: string): (r: Zone)
    ensures r.name == newName
    ensures r.id == z.id && r.startInCode == z.startInCode
    ensures r.start == z.start && r.length == z.length
  {
    z.(name := newName)
  }

  datatype Split = Split(original: Zone, created: Zone, pool: Pool)

  /**
   * newZoneFromSplit: the zone is cut at `start`. Its length becomes
   * start - old start; the new zone begins at `start`, takes the next
   * pool id and the remaining length old length - (start - old start).
   */
  function NewZoneFromSplit(z: Zone, p: Pool, startInCode: int, name: string, start: Expr): (r: Split)
    ensures r.original == z.(length := MinusAssign(start, z.start))
    ensures r.created == NewZone(p, startInCode, name, start,
                                 MinusAssign(z.length, MinusAssign(start, z.start))).zone
    ensures r.pool.counter == p.counter + 1
  {
    var shortened := MinusAssign(start, z.start);
    var remaining := MinusAssign(z.length, shortened);
    var created := NewZone(p, startInCode, name, start, remaining);
    Split(z.(length := shortened), created.zone, created.pool)
  }

  /**
   * Under any evaluation where the old start, old length and cut point
   * have values, the two lengths after a split add up to the old length,
   * and the first length is the distance to the cut point.
   */
  lemma SplitLengths(z: Zone, p: Pool, startInCode: int, name: string, start: Expr,
                     registers: string -> int, load: (int, int) -> int)
    requires Eval(z.start, registers, load).Some?
    requires Eval(z.length, registers, load).Some?
    requires Eval(start, registers, load).Some?
    ensures var r := NewZoneFromSplit(z, p, startInCode, name, start);
      var s0 := Eval(z.start, registers, load).value;
      var l0 := Eval(z.length, registers, load).value;
      var s := Eval(start, registers, load).value;
      Eval(r.original.length, registers, load) == Some(s - s0) &&
      Eval(r.created.start, registers, load) == Some(s) &&
      Eval(r.created.length, registers, load) == Some(l0 - (s - s0)) &&
      Eval(r.original.length, registers, load).value
        + Eval(r.created.length, registers, load).value == l0
  {
  }

  datatype Merged = Merged(target: Zone, source: Zone)

  /**
   * merge: the target's length becomes source.start - start + source.length
   * and the source is cleared.
   */
  function Merge(z: Zone, source: Zone): (r: Merged)
    ensures r.target == z.(length := PlusAssign(MinusAssign(source.start, z.start), source.length))
    ensures r.source == ClearZone(source)
    ensures !IsValid(r.source)
  {
    Merged(z.(length := PlusAssign(MinusAssign(source.start, z.start), source.length)),
           ClearZone(source))
  }

  /** The merged length covers both zones when they are adjacent. */
  lemma MergeLength(z: Zone, source: Zone, registers: string -> int, load: (int, int) -> int)
    requires Eval(z.start, registers, load).Some?
    requires Eval(source.start, registers, load).Some?
    requires Eval(source.length, registers, load).Some?
    ensures Eval(Merge(z, source).target.length, registers, load) ==
      Some(Eval(source.start, registers, load).value - Eval(z.start, registers, load).value
           + Eval(source.length, registers, load).value)
  {
  }

  /**
   * Splitting a zone and merging the new zone back restores the original
   * length under evaluation, keeps the original start, id and name, and
   * clears the new zone.
   */
  lemma SplitThenMerge(z: Zone, p: Pool, startInCode: int, name: string, start: Expr,
                       registers: string -> int, load: (int, int) -> int)
    requires Eval(z.start, registers, load).Some?
    requires Eval(z.length, registers, load).Some?
    requires Eval(start, registers, load).Some?
    ensures var r := NewZoneFromSplit(z, p, startInCode, name, start);
      var m := Merge(r.original, r.created);
      Eval(m.target.length, registers, load) == Eval(z.length, registers, load) &&
      m.target.start == z.start && m.target.id == z.id && m.target.name == z.name &&
      !IsValid(m.source)
  {
    SplitLengths(z, p, startInCode, name, start, registers, load);
  }

  // ---------------------------------------------------------------------
  // The zone-set merge action

  /**
   * The scan of MemoryZoneMerge::apply. hasFirst/hasSecond hold the
   * positions found so far; a zone is taken as the first one when no first
   * one is known yet and it carries the first name, otherwise as the second
   * one when none is known yet and it carries the second name. The scan
   * stops as soon as both are known.
   */
  function Scan(zones: seq<Zone>, first: string, second: string, i: nat,
                hasFirst: Option<nat>, hasSecond: Option<nat>): (r: Option<(nat, nat)>)
    requires i <= |zones|
    ensures r.Some? ==> (hasFirst.Some? ==> r.value.0 == hasFirst.value) &&
                        (hasFirst.None? ==> i <= r.value.0 < |zones| && zones[r.value.0].name == first)
    ensures r.Some? ==> (hasSecond.Some? ==> r.value.1 == hasSecond.value) &&
                        (hasSecond.None? ==> i <= r.value.1 < |zones| && zones[r.value.1].name == second)
    ensures hasFirst.None? && hasSecond.None? && r.Some? ==> r.value.0 != r.value.1
    decreases |zones| - i
  {
    if i == |zones| then None
    else if hasFirst.None? && zones[i].name == first then
      if hasSecond.Some? then Some((i, hasSecond.value))
      else Scan(zones, first, second, i + 1, Some(i), hasSecond)
    else if hasSecond.None? && zones[i].name == second then
      if hasFirst.Some? then Some((hasFirst.value, i))
      else Scan(zones, first, second, i + 1, hasFirst, Some(i))
    else Scan(zones, first, second, i + 1, hasFirst, hasSecond)
  }

  /** Smallest position at or after k whose zone carries `name`, other than `except`. */
  function IndexOfName(zones: seq<Zone>, name: string, except: int, k: nat): (r: Option<nat>)
    requires k <= |zones|
    ensures r.Some? ==> k <= r.value < |zones| && zones[r.value].name == name && r.value != except
    ensures r.Some? ==> forall j :: k <= j < r.value ==> zones[j].name != name || j == except
    ensures r.None? ==> forall j :: k <= j < |zones| ==> zones[j].name != name || j == except
    decreases |zones| - k
  {
    if k == |zones| then None
    else if zones[k].name == name && k != except then Some(k)
    else IndexOfName(zones, name, except, k + 1)
  }

  /**
   * Reference definition of the two zones the merge action touches: the
   * first zone named `first`, and the first other zone named `second`.
   */
  function MergePair(zones: seq<Zone>, first: string, second: string): (r: Option<(nat, nat)>)
    ensures r.Some? ==> r.value.0 < |zones| && r.value.1 < |zones| && r.value.0 != r.value.1 &&
                        zones[r.value.0].name == first && zones[r.value.1].name == second
    ensures (exists i, j :: 0 <= i < |zones| && 0 <= j < |zones| && i != j &&
                            zones[i].name == first && zones[j].name == second) ==> r.Some?
  {
    match IndexOfName(zones, first, -1, 0)
    case None => None
    case Some(f) =>
      match IndexOfName(zones, second, f, 0)
      case None => None
      case Some(s) => Some((f, s))
  }

  /** The scan finds exactly the pair of the reference definition. */
  lemma {:induction false} ScanFindsMergePair(zones: seq<Zone>, first: string, second: string)
    ensures Scan(zones, first, second, 0, None, None) == MergePair(zones, first, second)
  {
    ScanInvariant(zones, first, second, 0, None, None);
  }

  lemma {:induction false} ScanInvariant(zones: seq<Zone>, first: string, second: string, i: nat,
                                         hasFirst: Option<nat>, hasSecond: Option<nat>)
    requires i <= |zones|
    requires !(hasFirst.Some? && hasSecond.Some?)
    requires hasFirst.None? ==> forall j :: 0 <= j < i ==> zones[j].name != first
    requires hasFirst.Some? ==>
      hasFirst.value < i && zones[hasFirst.value].name == first &&
      forall j :: 0 <= j < hasFirst.value ==> zones[j].name != first
    requires hasSecond.None? ==>
      forall j :: 0 <= j < i ==> zones[j].name != second || hasFirst == Some(j)
    requires hasSecond.Some? ==>
      hasSecond.value < i && zones[hasSecond.value].name == second &&
      zones[hasSecond.value].name != first &&
      forall j :: 0 <= j < hasSecond.value ==> zones[j].name != second
    ensures Scan(zones, first, second, i, hasFirst, hasSecond) == MergePair(zones, first, second)
    decreases |zones| - i
  {
    var f := IndexOfName(zones, first, -1, 0);
    if i == |zones| {
      if hasFirst.Some? {
        assert f == hasFirst;
        var s := IndexOfName(zones, second, hasFirst.value, 0);
        assert s.None?;
      } else {
        assert f.None?;
      }
    } else if hasFirst.None? && zones[i].name == first {
      assert f == Some(i);
      if hasSecond.Some? {
        var s := IndexOfName(zones, second, i, 0);
        assert s == hasSecond;
      } else {
        ScanInvariant(zones, first, second, i + 1, Some(i), hasSecond);
      }
    } else if hasSecond.None? && zones[i].name == second {
      if hasFirst.Some? {
        assert f == hasFirst;
        var s := IndexOfName(zones, second, hasFirst.value, 0);
        assert s == Some(i);
      } else {
        ScanInvariant(zones, first, second, i + 1, hasFirst, Some(i));
      }
    } else {
      ScanInvariant(zones, first, second, i + 1, hasFirst, hasSecond);
    }
  }

  /** Removes the element at position k. */
  function RemoveAt(zones: seq<Zone>, k: nat): (r: seq<Zone>)
    requires k < |zones|
    ensures |r| == |zones| - 1
    ensures forall j :: 0 <= j < k ==> r[j] == zones[j]
    ensures forall j :: k <= j < |r| ==> r[j] == zones[j + 1]
  {
    zones[..k] + zones[k + 1..]
  }

  /**
   * MemoryZoneMerge::apply. When a zone named `first` and another zone
   * named `second` exist, the first one absorbs the second one, which is
   * removed; every other zone keeps its content and relative order.
   * Otherwise the zone set is unchanged.
   */
  function MergeApply(zones: seq<Zone>, first: string, second: string): (r: seq<Zone>)
    ensures MergePair(zones, first, second).None? ==> r == zones
    ensures MergePair(zones, first, second).Some? ==>
      var f := MergePair(zones, first, second).value.0;
      var s := MergePair(zones, first, second).value.1;
      |r| == |zones| - 1 &&
      r[if s < f then f - 1 else f] == Merge(zones[f], zones[s]).target &&
      (forall j :: 0 <= j < |zones| && j != f && j != s ==>
         r[if j < s then j else j - 1] == zones[j])
  {
    ScanFindsMergePair(zones, first, second);
    match Scan(zones, first, second, 0, None, None)
    case None => zones
    case Some((f, s)) =>
      RemoveAt(zones[f := Merge(zones[f], zones[s]).target], s)
  }

  /**
   * The zone set shrinks by one exactly when some zone carries the first
   * name and another one the second name.
   */
  lemma MergeApplyShrinks(zones: seq<Zone>, first: string, second: string)
    ensures (exists i, j :: 0 <= i < |zones| && 0 <= j < |zones| && i != j &&
              zones[i].name == first && zones[j].name == second)
            <==> |MergeApply(zones, first, second)| == |zones| - 1
  {
    if exists i, j :: 0 <= i < |zones| && 0 <= j < |zones| && i != j &&
                      zones[i].name == first && zones[j].name == second {
      var i, j :| 0 <= i < |zones| && 0 <= j < |zones| && i != j &&
                  zones[i].name == first && zones[j].name == second;
      PairFound(zones, first, second, i, j);
    }
    var p := MergePair(zones, first, second);
    if p.Some? {
      assert p.value.0 != p.value.1;
    }
  }

  /** Two distinct zones carrying the two names make the pair exist. */
  lemma PairFound(zones: seq<Zone>, first: string, second: string, i: nat, j: nat)
    requires i < |zones| && j < |zones| && i != j
    requires zones[i].name == first && zones[j].name == second
    ensures MergePair(zones, first, second).Some?
  {
    var f := IndexOfName(zones, first, -1, 0).value;
    if j == f {
      assert zones[i].name == second;
    }
  }
}
