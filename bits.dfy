/** Facts about 64-bit words used by the bitboard: single bits, seven-bit
    groups, population count, and the "some bit is set" witness.

    Shifts by one are written through `Half`, so that a word and its shifted
    copy are the same term wherever they appear. */
module Bits {

  /** Bit `i` of `v` is set. */
  predicate Bit(v: bv64, i: bv64)
    requires i < 64
  {
    ((v >> i) & 1) == 1
  }

  /** `c` is a word with exactly one bit set. */
  predicate SingleBit(c: bv64) {
    c != 0 && (c & (c - 1)) == 0
  }

  /** `a` has no bit outside `b`. */
  predicate Subset(a: bv64, b: bv64) {
    (a & !b) == 0
  }

  /** The word shifted right by one bit. */
  function Half(v: bv64): bv64 {
    v >> 1
  }

  /** 1 when some bit of `b` is set in `g`, else 0. */
  function Bit01(g: bv64, b: bv64): nat {
    if (g & b) == 0 then 0 else 1
  }

  /** The number of set bits among the seven low bits of `g`. */
  function Ones7(g: bv64): nat {
    Bit01(g, 1) + Bit01(g, 2) + Bit01(g, 4) + Bit01(g, 8)
    + Bit01(g, 0x10) + Bit01(g, 0x20) + Bit01(g, 0x40)
  }

  /** Bits 7k .. 7k+6 of `v`; group 9 is bit 63 alone. */
  function Group(v: bv64, k: bv64): bv64
    requires k < 10
  {
    (v >> (k * 7)) & 0x7F
  }

  /** Number of set bits of `v` (`u64::count_ones`), counted seven bits at a time. */
  function Pop(v: bv64): nat {
    Ones7(Group(v, 0)) + Ones7(Group(v, 1)) + Ones7(Group(v, 2)) + Ones7(Group(v, 3))
    + Ones7(Group(v, 4)) + Ones7(Group(v, 5)) + Ones7(Group(v, 6)) + Ones7(Group(v, 7))
    + Ones7(Group(v, 8)) + Ones7(Group(v, 9))
  }

  lemma ShiftOne(v: bv64, i: bv64)
    requires i < 63 && (v & 1) == 0
    ensures Bit(Half(v), i) ==> Bit(v, i + 1)
    ensures v != 0 ==> Half(v) != 0 && Half(v) < v
  {
  }

  lemma ShiftTop(v: bv64, i: bv64)
    requires i < 64 && Bit(Half(v), i)
    ensures i < 63
  {
  }

  /** The lowest set bit of `w` (two's-complement `w & -w`). */
  function Lowest(w: bv64): bv64 {
    w & (0 - w)
  }

  lemma LowestBit(w: bv64)
    requires w != 0
    ensures SingleBit(Lowest(w)) && Subset(Lowest(w), w)
  {
  }

  /** A nonzero word has a set bit; returns the lowest one. */
  lemma {:induction false} SomeBit(v: bv64) returns (i: bv64)
    requires v != 0
    ensures i < 64 && Bit(v, i)
    decreases v
  {
    if (v & 1) == 1 {
      i := 0;
    } else {
      ShiftOne(v, 0);
      var j := SomeBit(Half(v));
      ShiftTop(v, j);
      ShiftOne(v, j);
      i := j + 1;
    }
  }

  // ---------------------------------------------------------------------
  // Single cells and seven-bit groups.

  /** The word with only bit r of group k set. */
  function Cell(k: bv64, r: bv64): bv64
    requires k < 7 && r < 7
  {
    1 << (r + k * 7)
  }

  lemma CellClear(w: bv64, k: bv64, r: bv64)
    requires k < 7 && r < 7
    ensures (w & Cell(k, r)) == 0 <==> (Group(w, k) & (1 << r)) == 0
  {
  }

  lemma CellZero(w: bv64, k: bv64, r: bv64)
    requires k < 7 && r < 7 && (Group(w, k) & (1 << r)) == 0
    ensures (w & Cell(k, r)) == 0
  {
    CellClear(w, k, r);
  }

  /** A cell is either outside a word or entirely inside it. */
  lemma CellInside(w: bv64, k: bv64, r: bv64)
    requires k < 7 && r < 7 && (w & Cell(k, r)) != 0
    ensures (w & Cell(k, r)) == Cell(k, r)
  {
  }

  /** A cell has the same bit in two words when their groups agree on it. */
  lemma CellSame(a: bv64, b: bv64, k: bv64, r: bv64)
    requires k < 7 && r < 7 && (Group(a, k) & (1 << r)) == (Group(b, k) & (1 << r))
    ensures (a & Cell(k, r)) == (b & Cell(k, r))
  {
    CellClear(a, k, r);
    CellClear(b, k, r);
    if (a & Cell(k, r)) != 0 {
      CellInside(a, k, r);
      CellInside(b, k, r);
    }
  }

  lemma CellSet(w: bv64, k: bv64, r: bv64)
    requires k < 7 && r < 7 && (Group(w, k) & (1 << r)) != 0
    ensures (w & Cell(k, r)) == Cell(k, r)
  {
    CellClear(w, k, r);
    CellInside(w, k, r);
  }

  lemma OrCellSame(w: bv64, k: bv64, r: bv64)
    requires k < 7 && r < 7
    ensures Group(w | Cell(k, r), k) == Group(w, k) | (1 << r)
  {
  }

  lemma OrCellOther(w: bv64, k: bv64, r: bv64, c: bv64)
    requires k < 7 && r < 7 && c < 10 && c != k
    ensures Group(w | Cell(k, r), c) == Group(w, c)
  {
  }

  /** A word is determined by its ten groups. */
  lemma Rebuild(a: bv64, b: bv64)
    requires Group(a, 0) == Group(b, 0) && Group(a, 1) == Group(b, 1) && Group(a, 2) == Group(b, 2)
    requires Group(a, 3) == Group(b, 3) && Group(a, 4) == Group(b, 4) && Group(a, 5) == Group(b, 5)
    requires Group(a, 6) == Group(b, 6) && Group(a, 7) == Group(b, 7) && Group(a, 8) == Group(b, 8)
    requires Group(a, 9) == Group(b, 9)
    ensures a == b
  {
  }

  // ---------------------------------------------------------------------
  // Adding one word c to a set s of inspected bits.

  lemma OrOutside(w: bv64, s: bv64, c: bv64)
    requires (w & c) == 0
    ensures w & (s | c) == w & s
  {
  }

  lemma OrInside(w: bv64, s: bv64, c: bv64)
    requires (w & c) == c
    ensures w & (s | c) == (w & s) | c
  {
  }

  lemma OrAgree(w: bv64, v: bv64, s: bv64, c: bv64)
    requires (v & c) == (w & c)
    ensures w & (s | c) == (w & s) | (v & c)
  {
  }
}
