/**
 * The abstract memory state handed to the instruction-set plugin: a
 * register store keyed by register index with a "top" fallback, memory
 * loads that know nothing, stores that are dropped, and the memory zones
 * the contracts act on. Domain values are opaque (type parameter V); the
 * plugin's top constructor is a parameter.
 */
module Registers {
  import opened MemoryZones

  /**
   * The register count the plugin announced, one value per register
   * index that was set, and the current memory zones.
   */
  datatype MemoryState<V> = MemoryState(registerNumber: int, registers: map<int, V>, zones: seq<Zone>)

  /** A freshly built state: no register set, no zone. */
  function NewMemoryState<V>(): (m: MemoryState<V>)
    ensures m.registerNumber == 0 && |m.registers| == 0 && m.zones == []
  {
    MemoryState(0, map[], [])
  }

  /** set_number_of_registers: stores the count and nothing else. */
  function SetNumberOfRegisters<V>(m: MemoryState<V>, count: int): (r: MemoryState<V>)
    ensures r.registerNumber == count
    ensures r.registers == m.registers && r.zones == m.zones
  {
    m.(registerNumber := count)
  }

  /**
   * set_register_value: overwrites the entry of the register when there
   * is one, adds one otherwise.
   */
  function SetRegisterValue<V>(m: MemoryState<V>, register: int, value: V): (r: MemoryState<V>)
    ensures register in r.registers && r.registers[register] == value
    ensures r.registers.Keys == m.registers.Keys + {register}
    ensures forall k :: k in m.registers && k != register ==> r.registers[k] == m.registers[k]
    ensures r.registerNumber == m.registerNumber && r.zones == m.zones
  {
    m.(registers := m.registers[register := value])
  }

  /**
   * get_register_value: the stored value, or a fresh symbolic 32-bit top
   * when the register was never set. `top(size)` stands for the plugin's
   * multibit_create_top(size, symbolic).
   */
  function GetRegisterValue<V>(m: MemoryState<V>, register: int, top: nat -> V): (v: V)
    ensures register in m.registers ==> v == m.registers[register]
    ensures register !in m.registers ==> v == top(32)
  {
    if register in m.registers then m.registers[register] else top(32)
  }

  /** Reading a register back after setting it gives the value set. */
  lemma GetAfterSet<V>(m: MemoryState<V>, register: int, value: V, top: nat -> V)
    ensures GetRegisterValue(SetRegisterValue(m, register, value), register, top) == value
  {
  }

  /** Setting a register leaves the reading of every other register unchanged. */
  lemma GetOtherAfterSet<V>(m: MemoryState<V>, register: int, other: int, value: V, top: nat -> V)
    requires other != register
    ensures GetRegisterValue(SetRegisterValue(m, register, value), other, top)
            == GetRegisterValue(m, other, top)
  {
  }

  /** Setting a register twice keeps only the second value. */
  lemma SetTwice<V>(m: MemoryState<V>, register: int, first: V, second: V)
    ensures SetRegisterValue(SetRegisterValue(m, register, first), register, second)
            == SetRegisterValue(m, register, second)
  {
  }

  /**
   * load_multibit_value, load_multibit_disjunctive_value and
   * load_multifloat_value: top of the requested size, whatever the address
   * and the state.
   */
  function LoadValue<V>(m: MemoryState<V>, address: V, size: nat, top: nat -> V): (v: V)
    ensures v == top(size)
  {
    top(size)
  }

  /** store_value: the state is left as it was. */
  function StoreValue<V>(m: MemoryState<V>, address: V, value: V): (r: MemoryState<V>)
    ensures r.registers == m.registers && r.zones == m.zones && r.registerNumber == m.registerNumber
  {
    m
  }

  /** A store is not seen by any later register read or load. */
  lemma StoreIsInvisible<V>(m: MemoryState<V>, address: V, value: V, register: int,
                            loadAddress: V, size: nat, top: nat -> V)
    ensures GetRegisterValue(StoreValue(m, address, value), register, top) == GetRegisterValue(m, register, top)
    ensures LoadValue(StoreValue(m, address, value), loadAddress, size, top) == top(size)
  {
  }

  /** contain: every state is taken to include every other one. */
  function Contain<V>(m: MemoryState<V>, source: MemoryState<V>): (b: bool)
    ensures b
  {
    true
  }
}
