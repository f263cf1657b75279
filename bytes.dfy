/**
 * Byte-level vocabulary shared by the interpreter, the display and the keypad:
 * the 8-bit cells of a Uint8Array, 4-bit opcode fields, 16-bit instruction
 * words, and the bitwise operators the opcodes use.
 */
module Bytes {

  /** One cell of a Uint8Array: every store into one is reduced modulo 256. */
  type byte = b: int | 0 <= b < 256

  /** A 4-bit opcode field; as a register index it names V0..VF. */
  type nibble = n: int | 0 <= n < 16

  /** A 16-bit instruction word, built from two consecutive memory bytes. */
  type word = w: int | 0 <= w < 0x1_0000

  /** A 12-bit address field (nnn). */
  type addr = a: int | 0 <= a < 0x1000

  datatype Option<T> = None | Some(value: T)

  /** The flags register VF. */
  const VF: nibble := 0xF

  function And8(a: byte, b: byte): byte
  {
    ((a as bv8) & (b as bv8)) as int
  }

  function Or8(a: byte, b: byte): byte
  {
    ((a as bv8) | (b as bv8)) as int
  }

  function Xor8(a: byte, b: byte): byte
  {
    ((a as bv8) ^ (b as bv8)) as int
  }

  /** `b & 1` is the least-significant bit of b. */
  lemma AndLowBit(b: byte)
    ensures And8(b, 1) == b % 2
  {
  }

  /** `b & 0x80` is 0x80 when the most-significant bit is set and 0 otherwise: never 1. */
  lemma AndHighBit(b: byte)
    ensures And8(b, 0x80) == if b >= 0x80 then 0x80 else 0
  {
  }

  /**
   * Reading a typed array at an index it does not have yields `undefined`, which
   * every consumer in the interpreter (a shift, a mask, a store into another
   * Uint8Array) turns into 0.
   */
  function Load(mem: seq<byte>, a: int): byte
  {
    if 0 <= a < |mem| then mem[a] else 0
  }

  /** Writing a typed array at an index it does not have is silently dropped. */
  function Store(mem: seq<byte>, a: int, b: byte): (r: seq<byte>)
    ensures |r| == |mem|
    ensures forall k :: 0 <= k < |mem| ==> r[k] == if k == a then b else mem[k]
  {
    if 0 <= a < |mem| then mem[a := b] else mem
  }

  /**
   * A read after a write: the cell written reads back the byte written, an
   * out-of-range write is not seen by any read, and every other cell reads as
   * before.
   */
  lemma LoadAfterStore(mem: seq<byte>, a: int, b: byte, c: int)
    ensures Load(Store(mem, a, b), c) == if c == a && 0 <= a < |mem| then b else Load(mem, c)
  {
  }
}
