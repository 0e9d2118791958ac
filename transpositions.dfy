/** The transposition table of src/transpositions.rs: TTABLE_SIZE slots,
    each a packed 64-bit entry holding a position key in its low 56 bits and
    a score byte above them. A write overwrites the slot the key hashes to;
    a read answers 0 unless that slot holds the same key.

    The table object keeps, beside its array of packed entries, a ghost view
    of the decoded slots; the search is specified over that view. */
module Transpositions {
  import opened Game

  /** The number of slots of the solver's table (a prime). */
  const TTABLE_SIZE: nat := 8388593

  /** The entry offset of the score byte, `BITMAP_SIZE_BYTES * 8`. */
  const OFFSET: bv64 := 56

  lemma OffsetIs()
    ensures OFFSET as int == BITMAP_SIZE_BYTES * 8
  {
  }

  /** Keys the low 56 bits of an entry can hold. */
  predicate FitsEntry(key: Bitmap) {
    key <= 0x00FF_FFFF_FFFF_FFFF
  }

  /** The byte whose unsigned value is n, built from n's binary digits. */
  function Bits8(n: int): (b: bv8)
    requires 0 <= n < 256
    ensures n < 128 ==> b < 128
    ensures n < 64 ==> b < 64
    ensures n < 32 ==> b < 32
    ensures n < 16 ==> b < 16
    ensures n < 8 ==> b < 8
    ensures n < 4 ==> b < 4
    ensures n < 2 ==> b < 2
    decreases n
  {
    if n == 0 then 0 else (Bits8(n / 2) << 1) | (if n % 2 == 1 then 1 else 0)
  }

  /** The low byte of a score's two's-complement form (`eval as u8`). */
  function Byte(eval: Score): bv8 {
    Bits8(eval as int % 256)
  }

  /** The value of a byte read as unsigned, from its binary digits. */
  function Unsigned(b: bv8): (n: nat)
    ensures n < 256
    ensures b < 128 ==> n < 128
    ensures b < 64 ==> n < 64
    ensures b < 32 ==> n < 32
    ensures b < 16 ==> n < 16
    ensures b < 8 ==> n < 8
    ensures b < 4 ==> n < 4
    ensures b < 2 ==> n < 2
    decreases b
  {
    if b == 0 then 0 else 2 * Unsigned(b >> 1) + (if b & 1 == 1 then 1 else 0)
  }

  /** `b as i8`: a byte read as a two's-complement score. */
  function Signed(b: bv8): Score {
    if Unsigned(b) < 128 then Unsigned(b) as Score else (Unsigned(b) - 256) as Score
  }

  /** `eval as u64`: the sign-extended 64-bit word of a score. */
  function Widen(eval: Score): bv64 {
    (Byte(eval) as bv64) | (if eval < 0 then 0xFFFF_FFFF_FFFF_FF00 else 0)
  }

  lemma {:induction false} UnsignedBits(n: int)
    requires 0 <= n < 256
    ensures Unsigned(Bits8(n)) == n
    decreases n
  {
    if n != 0 {
      var c := Bits8(n / 2);
      UnsignedBits(n / 2);
      var b := Bits8(n);
      assert b >> 1 == c && (b & 1 == 1 <==> n % 2 == 1) && b != 0 by {
        ByteShift(c, n % 2 == 1);
      }
    }
  }

  lemma ByteShift(c: bv8, odd: bool)
    requires c < 128 && (c == 0 ==> odd)
    ensures ((c << 1) | (if odd then 1 else 0)) >> 1 == c
    ensures (((c << 1) | (if odd then 1 else 0)) & 1 == 1) == odd
    ensures (c << 1) | (if odd then 1 else 0) != 0
  {
  }

  lemma SignedByte(eval: Score)
    ensures Signed(Byte(eval)) == eval
  {
    UnsignedBits(eval as int % 256);
  }

  /** Shifting the sign-extended word by 56 keeps only the score byte. */
  lemma WidenShift(eval: Score)
    ensures Widen(eval) << OFFSET == (Byte(eval) as bv64) << OFFSET
  {
  }

  datatype Entry = Entry(data: bv64) {

    /** `Entry::from_pos`: the score byte above the key. The addition wraps
        (the source uses `+` on `u64`); it carries into the score byte only
        for keys that do not fit in 56 bits. */
    static function FromPos(key: Bitmap, eval: Score): Entry {
      Entry((Widen(eval) << OFFSET) + key)
    }

    /** `get_key`: the entry under the mask `!(u64::MAX - (u64::MAX >> 8))`,
        that is its low 56 bits. */
    function GetKey(): (k: Bitmap)
      ensures FitsEntry(k)
    {
      data & !(0xFFFF_FFFF_FFFF_FFFF - (0xFFFF_FFFF_FFFF_FFFF >> 8))
    }

    /** `get_eval`: the top byte, truncated to an `i8`. */
    function GetEval(): Score {
      Signed((data >> OFFSET) as bv8)
    }
  }

  /** The entry of an empty slot. */
  const NULL_ENTRY: Entry := Entry(0)

  lemma NullEntry()
    ensures NULL_ENTRY.GetKey() == 0 && NULL_ENTRY.GetEval() == 0
  {
  }

  /** The key bits of a packed entry are the key. */
  lemma EntryKey(key: Bitmap, eval: Score)
    requires FitsEntry(key)
    ensures Entry.FromPos(key, eval).GetKey() == key
  {
    WidenShift(eval);
  }

  /** The score of a packed entry is the score, for every `i8`. */
  lemma EntryEval(key: Bitmap, eval: Score)
    requires FitsEntry(key)
    ensures Entry.FromPos(key, eval).GetEval() == eval
  {
    WidenShift(eval);
    assert (Entry.FromPos(key, eval).data >> OFFSET) as bv8 == Byte(eval);
    SignedByte(eval);
  }

  // ---------------------------------------------------------------------
  // The decoded slots.

  /** An entry as a read decodes it: its key bits and its score. */
  datatype Slot = Slot(key: Bitmap, eval: Score)

  function Decode(e: Entry): (c: Slot)
    ensures FitsEntry(c.key)
  {
    Slot(e.GetKey(), e.GetEval())
  }

  /** The empty slot decodes as key 0 with score 0. */
  lemma DecodeNull()
    ensures Decode(NULL_ENTRY) == Slot(0, 0)
  {
    NullEntry();
  }

  /** A packed entry decodes to the key and score it was built from, for
      every key that fits in 56 bits. */
  lemma DecodeFromPos(key: Bitmap, eval: Score)
    requires FitsEntry(key)
    ensures Decode(Entry.FromPos(key, eval)) == Slot(key, eval)
  {
    EntryKey(key, eval);
    EntryEval(key, eval);
  }

  /** `entry_hash`: the key modulo the table size. */
  function Hash(key: Bitmap): (i: nat)
    ensures i < TTABLE_SIZE
  {
    key as int % TTABLE_SIZE
  }

  /** `get` on the slots v: the score when the key's slot holds this key, else 0. */
  function Lookup(v: seq<Slot>, key: Bitmap): (r: Score)
    requires |v| == TTABLE_SIZE
    ensures r != 0 ==> v[Hash(key)].key == key
  {
    if v[Hash(key)].key == key then v[Hash(key)].eval else 0
  }

  /** `put` on the slots v, for a key that fits in 56 bits (see DecodeFromPos). */
  function Store(v: seq<Slot>, key: Bitmap, eval: Score): (r: seq<Slot>)
    requires |v| == TTABLE_SIZE
    ensures |r| == TTABLE_SIZE
  {
    v[Hash(key) := Slot(key, eval)]
  }

  /** Every slot is empty. */
  predicate Cleared(v: seq<Slot>) {
    forall i :: 0 <= i < |v| ==> v[i] == Slot(0, 0)
  }

  /** A cleared table answers 0 for every key, 0 included. */
  lemma LookupCleared(v: seq<Slot>, key: Bitmap)
    requires |v| == TTABLE_SIZE && Cleared(v)
    ensures Lookup(v, key) == 0
  {
  }

  /** A read right after a write of the same key returns the written score. */
  lemma LookupStore(v: seq<Slot>, key: Bitmap, eval: Score)
    requires |v| == TTABLE_SIZE
    ensures Lookup(Store(v, key, eval), key) == eval
  {
  }

  /** A write leaves the answer for a key of another slot unchanged. */
  lemma LookupOther(v: seq<Slot>, key: Bitmap, eval: Score, other: Bitmap)
    requires |v| == TTABLE_SIZE && Hash(other) != Hash(key)
    ensures Lookup(Store(v, key, eval), other) == Lookup(v, other)
  {
  }

  /** Two keys of one slot: the later write evicts the earlier. */
  lemma Collision(v: seq<Slot>, k1: Bitmap, v1: Score, k2: Bitmap, v2: Score)
    requires |v| == TTABLE_SIZE && k1 != k2 && Hash(k1) == Hash(k2)
    ensures Lookup(Store(Store(v, k1, v1), k2, v2), k1) == 0
    ensures Lookup(Store(Store(v, k1, v1), k2, v2), k2) == v2
  {
  }

  /** Every slot's score lies in lo .. hi. */
  predicate Bounded(v: seq<Slot>, lo: int, hi: int) {
    forall i :: 0 <= i < |v| ==> lo <= v[i].eval as int <= hi
  }

  lemma LookupBounded(v: seq<Slot>, key: Bitmap, lo: int, hi: int)
    requires |v| == TTABLE_SIZE && Bounded(v, lo, hi) && lo <= 0 <= hi
    ensures lo <= Lookup(v, key) as int <= hi
  {
  }

  /** Writing a score in lo .. hi keeps the table's scores in lo .. hi. */
  lemma StoreBounded(v: seq<Slot>, key: Bitmap, eval: Score, lo: int, hi: int)
    requires |v| == TTABLE_SIZE && Bounded(v, lo, hi) && lo <= eval as int <= hi
    ensures Bounded(Store(v, key, eval), lo, hi)
  {
  }

  lemma ClearedBounded(v: seq<Slot>, lo: int, hi: int)
    requires Cleared(v) && lo <= 0 <= hi
    ensures Bounded(v, lo, hi)
  {
  }

  // ---------------------------------------------------------------------
  // The table object.

  class TTable {
    /** The slots (`t: Vec<Entry>`). */
    const slots: array<Entry>
    /** The decoded slots. */
    ghost var view: seq<Slot>

    ghost predicate Valid()
      reads this, slots
    {
      slots.Length == TTABLE_SIZE && |view| == TTABLE_SIZE
      && forall i: nat :: i < TTABLE_SIZE ==> Holds(i)
    }

    /** Slot i of the view is the decoded entry i. */
    ghost predicate Holds(i: nat)
      reads this, slots
      requires i < slots.Length == |view|
    {
      view[i] == Decode(slots[i])
    }

    /** `TTable::new`: TTABLE_SIZE null entries. */
    constructor ()
      ensures Valid() && fresh(slots) && Cleared(view)
      ensures forall i :: 0 <= i < slots.Length ==> slots[i] == NULL_ENTRY
    {
      slots := new Entry[TTABLE_SIZE](_ => NULL_ENTRY);
      view := seq(TTABLE_SIZE, _ => Slot(0, 0));
      new;
      DecodeNull();
      assert forall i: nat :: i < TTABLE_SIZE ==> Holds(i);
    }

    /** `reset`: every entry becomes the null entry. */
    method Reset()
      requires Valid()
      modifies this, slots
      ensures Valid() && Cleared(view)
      ensures forall i :: 0 <= i < slots.Length ==> slots[i] == NULL_ENTRY
    {
      var i := 0;
      while i < slots.Length
        invariant 0 <= i <= slots.Length
        invariant forall j :: 0 <= j < i ==> slots[j] == NULL_ENTRY
      {
        slots[i] := NULL_ENTRY;
        i := i + 1;
      }
      view := seq(TTABLE_SIZE, _ => Slot(0, 0));
      DecodeNull();
      assert forall j: nat :: j < TTABLE_SIZE ==> Holds(j);
    }

    /** `put`: the key's slot receives the packed entry; no other slot changes. */
    method Put(key: Bitmap, eval: Score)
      requires Valid()
      modifies this, slots
      ensures Valid()
      ensures slots[..] == old(slots[..])[Hash(key) := Entry.FromPos(key, eval)]
      ensures view == old(view)[Hash(key) := Decode(Entry.FromPos(key, eval))]
    {
      var i := Hash(key);
      slots[i] := Entry.FromPos(key, eval);
      view := view[i := Decode(slots[i])];
      forall j: nat | j < TTABLE_SIZE
        ensures Holds(j)
      {
        if j != i {
          assert old(Holds(j));
        }
      }
    }

    /** `get`: the stored score when the key's slot holds this key, else 0. */
    method Get(key: Bitmap) returns (r: Score)
      requires Valid()
      ensures r == Lookup(view, key)
    {
      var e := slots[Hash(key)];
      assert Holds(Hash(key));
      if e.GetKey() == key {
        r := e.GetEval();
      } else {
        r := 0;
      }
    }
  }

  /** A write through `put` of a key that fits is Store on the view. */
  lemma PutFits(v: seq<Slot>, key: Bitmap, eval: Score)
    requires |v| == TTABLE_SIZE && FitsEntry(key)
    ensures v[Hash(key) := Decode(Entry.FromPos(key, eval))] == Store(v, key, eval)
  {
    DecodeFromPos(key, eval);
  }
}
