/** The price of every WebAssembly 1.0 opcode (src/vm/gas_meter/Metric.cpp), without WASM_FLOAT_ENABLE. */
module Metric {
  type Opcode = n: int | 0 <= n < 256

  const UNPRICED: nat := 0xFFFF_FFFF

  const ELSE: Opcode := 0x05
  const BR: Opcode := 0x0C
  const BR_IF: Opcode := 0x0D
  const BR_TABLE: Opcode := 0x0E
  const RETURN: Opcode := 0x0F
  const CALL: Opcode := 0x10
  const CALL_INDIRECT: Opcode := 0x11
  const DROP: Opcode := 0x1A
  const SELECT: Opcode := 0x1B
  const LOCAL_GET: Opcode := 0x20
  const LOCAL_SET: Opcode := 0x21
  const LOCAL_TEE: Opcode := 0x22
  const GLOBAL_GET: Opcode := 0x23
  const GLOBAL_SET: Opcode := 0x24
  const MEMORY_SIZE: Opcode := 0x3F
  const I32_CONST: Opcode := 0x41
  const I64_CONST: Opcode := 0x42
  const I64_LE_S: Opcode := 0x57
  const I64_SUB: Opcode := 0x7D
  const UNREACHABLE: Opcode := 0x00
  const NOP: Opcode := 0x01

  /** The table entry of an opcode.  Opcodes the table does not name keep the initial 2^32 - 1. */
  function Cost(op: Opcode): nat {
    // block, loop, if, end, nop and unreachable; i32.const and i64.const
    if op <= 0x04 || op == 0x0B || op == 0x41 || op == 0x42 then 0
    // else, br, br_table, return, call_indirect
    else if op == 0x05 || op == 0x0C || op == 0x0E || op == 0x0F || op == 0x11 then 2
    // br_if, call, drop, select, the variable instructions
    else if op == 0x0D || op == 0x10 || op == 0x1A || op == 0x1B || 0x20 <= op <= 0x24 then 3
    // integer loads and stores, memory.size
    else if op == 0x28 || op == 0x29 || 0x2C <= op <= 0x37 || 0x3A <= op <= 0x3F then 3
    // memory.grow
    else if op == 0x40 then 5 * 64 * 1024
    // i32 and i64 tests and comparisons
    else if 0x45 <= op <= 0x5A then 1
    // i32 and i64 arithmetic
    else if 0x67 <= op <= 0x78 then IntegerCost(op - 0x67)
    else if 0x79 <= op <= 0x8A then IntegerCost(op - 0x79)
    // i32.wrap_i64, i64.extend_i32_s, i64.extend_i32_u
    else if op == 0xA7 || op == 0xAC || op == 0xAD then 3
    else UNPRICED
  }

  /** The 18 integer operators, in opcode order: clz ctz popcnt add sub mul div rem and or xor shifts. */
  function IntegerCost(k: nat): nat
    requires k < 18
  {
    if k == 1 then 6
    else if k == 0 || k == 2 || k == 5 then 3
    else if k <= 4 then 1
    else if k <= 9 then 80
    else if k <= 12 then 1
    else 2
  }

  /** The opcodes the injector refuses as floating point. */
  predicate IsFloatOpcode(op: Opcode) {
    || 0x2A <= op <= 0x2B || 0x38 <= op <= 0x39 || 0x43 <= op <= 0x44
    || 0x5B <= op <= 0x66 || 0x8B <= op <= 0xA6 || 0xB2 <= op <= 0xBF
  }
}
