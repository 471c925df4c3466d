/** Bit-level vocabulary for 32-bit memory-mapped registers. Bit positions are kept in
    8-bit values, as the drivers keep them in `uint8` variables. */
module Bits {

  /** A bit position inside a 32-bit register. */
  type BitPos = j: bv8 | j < 32

  /** Position of the lowest bit of a 3-bit field that fits in a 32-bit register. */
  type FieldPos = j: bv8 | j <= 29

  /** The register value with only bit `j` set. */
  function Bit(j: BitPos): bv32 {
    1 << j
  }

  predicate TestBit(w: bv32, j: BitPos) {
    w & Bit(j) != 0
  }

  /** The register value with the three bits `pos`, `pos + 1`, `pos + 2` set. */
  function FieldMask(pos: FieldPos): bv32 {
    7 << pos
  }

  /** The 3-bit field of `w` whose lowest bit is at `pos`, read as a number 0..7. */
  function Field3(w: bv32, pos: FieldPos): bv32 {
    (w >> pos) & 7
  }

  /** C's conversion of a 32-bit value to `uint8`: everything above bit 7 is dropped. */
  function TruncateToU8(x: bv32): (b: bv8)
    ensures b as bv32 == x & 0xFF
  {
    (x & 0xFF) as bv8
  }

  /** OR-ing bit `j` into a register sets it. */
  lemma SetBitSets(w: bv32, j: BitPos)
    ensures TestBit(w | Bit(j), j)
  {
  }

  /** OR-ing bit `j` into a register keeps every other bit. */
  lemma SetBitKeepsOthers(w: bv32, j: BitPos)
    ensures (w | Bit(j)) & !Bit(j) == w & !Bit(j)
  {
  }

  /** AND-ing a register with the complement of bit `j` clears it. */
  lemma ClearBitClears(w: bv32, j: BitPos)
    ensures !TestBit(w & !Bit(j), j)
  {
  }

  /** AND-ing a register with the complement of bit `j` keeps every other bit. */
  lemma ClearBitKeepsOthers(w: bv32, j: BitPos)
    ensures (w & !Bit(j)) & !Bit(j) == w & !Bit(j)
  {
  }

  /** Clearing the bits of a mask after setting them is clearing them. */
  lemma SetThenClearMask(w: bv32, m: bv32)
    ensures (w | m) & !m == w & !m
  {
  }

  /** Setting the bits of a mask after clearing them is setting them. */
  lemma ClearThenSetMask(w: bv32, m: bv32)
    ensures (w & !m) | m == w | m
  {
  }

  /** Two register values are equal exactly when their exclusive or is 0. */
  lemma XorZeroIff(a: bv32, b: bv32)
    ensures a ^ b == 0 <==> a == b
  {
  }

  /** The value a 3-bit field write leaves: the field at `pos` cleared, `p` shifted in. */
  function FieldWritten(w: bv32, pos: FieldPos, p: bv8): bv32 {
    (w & !FieldMask(pos)) | ((p as bv32) << pos)
  }

  /** After a field write of a value below 8 the field reads back as that value. */
  lemma FieldWrittenReadBack(w: bv32, pos: FieldPos, p: bv8)
    requires p < 8
    ensures Field3(FieldWritten(w, pos, p), pos) == p as bv32
  {
  }

  /** A field write of a value below 8 keeps every bit outside the field. */
  lemma FieldWrittenKeepsOthers(w: bv32, pos: FieldPos, p: bv8)
    requires p < 8
    ensures FieldWritten(w, pos, p) & !FieldMask(pos) == w & !FieldMask(pos)
  {
  }
}
