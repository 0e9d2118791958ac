/** Decoding a position key (`Position::from_key` in src/game.rs).

    `get_key` is `board + mask`. Adding `all_bottom_mask` to a key puts, in
    every column, a marker bit just above the column's stones, with the
    mover's stones below it. `from_key` scans the 49 bits column by column,
    each column from its guard bit down: it skips cells until it meets the
    marker, then copies every cell below it into `mask`, the key's bit into
    `board`, and counts one move per cell. */
module Keys {
  import opened Bits
  import opened Wrappers
  import opened Game

  /** The column the scan visits at step i. */
  function ScanColumn(i: bv8): bv64
    requires i < 49
  {
    (i / 7) as bv64
  }

  /** How many rows of its column the scan has passed before step i. */
  function ScanDepth(i: bv8): bv64
    requires i < 49
  {
    (i % 7) as bv64
  }

  /** The cell the scan visits at step i: bit `(HEIGHT - i % WIDTH) + (i / WIDTH) * WIDTH`,
      that is row HEIGHT - i % WIDTH of column i / WIDTH. */
  function ScanBit(i: bv8): Bitmap
    requires i < 49
  {
    Cell(ScanColumn(i), 6 - ScanDepth(i))
  }

  // The scan's variables after its first i iterations, one function each.

  /** The `empty` flag: the scan has not yet met the marker of the column it
      is in. It is set at the start of every column. */
  function ScanEmpty(pos: Bitmap, i: bv8): bool
    requires i <= 49
    decreases i, pos
  {
    if i == 0 || i % 7 == 0 then true
    else ScanEmpty(pos, i - 1) && pos & ScanBit(i - 1) == 0
  }

  /** The cells copied into `mask`: every visited cell below a marker. */
  function ScanMask(pos: Bitmap, i: bv8): Bitmap
    requires i <= 49
    decreases i, pos
  {
    if i == 0 then 0
    else if ScanEmpty(pos, i - 1) then ScanMask(pos, i - 1)
    else ScanMask(pos, i - 1) | ScanBit(i - 1)
  }

  /** The bits of `pos` copied into `board` at those cells. */
  function ScanBoard(pos: Bitmap, i: bv8): Bitmap
    requires i <= 49
    decreases i, pos
  {
    if i == 0 then 0
    else if ScanEmpty(pos, i - 1) then ScanBoard(pos, i - 1)
    else ScanBoard(pos, i - 1) | (pos & ScanBit(i - 1))
  }

  /** The move counter: one per copied cell. */
  function ScanCount(pos: Bitmap, i: bv8): nat
    requires i <= 49
    decreases i, pos
  {
    if i == 0 then 0
    else if ScanEmpty(pos, i - 1) then ScanCount(pos, i - 1)
    else ScanCount(pos, i - 1) + 1
  }

  // One iteration of the scan, stated in terms of the loop's own variables.

  /** The flag after iteration i: cleared by a set bit while searching, set again at a column's end. */
  lemma EmptyNext(pos: Bitmap, i: bv8, empty: bool, bit: Bitmap)
    requires i < 49 && empty == ScanEmpty(pos, i) && bit == ScanBit(i)
    ensures ScanEmpty(pos, i + 1) == ((i + 1) % 7 == 0 || (empty && pos & bit == 0))
  {
  }

  /** Iteration i adds its cell to `mask` once the marker is behind. */
  lemma MaskNext(pos: Bitmap, i: bv8, empty: bool, mask: Bitmap, bit: Bitmap)
    requires i < 49 && empty == ScanEmpty(pos, i) && mask == ScanMask(pos, i) && bit == ScanBit(i)
    ensures ScanMask(pos, i + 1) == if empty then mask else mask | bit
  {
  }

  /** Iteration i copies the bit of `pos` at its cell into `board` once the marker is behind. */
  lemma BoardNext(pos: Bitmap, i: bv8, empty: bool, board: Bitmap, bit: Bitmap)
    requires i < 49 && empty == ScanEmpty(pos, i) && board == ScanBoard(pos, i) && bit == ScanBit(i)
    ensures ScanBoard(pos, i + 1) == if empty then board else board | (pos & bit)
  {
  }

  /** Iteration i counts one move once the marker is behind. */
  lemma CountNext(pos: Bitmap, i: bv8, empty: bool, count: nat)
    requires i < 49 && empty == ScanEmpty(pos, i) && count == ScanCount(pos, i)
    ensures ScanCount(pos, i + 1) == if empty then count else count + 1
  {
  }

  /** Each iteration adds at most one move. */
  lemma {:induction false} CountBound(pos: Bitmap, i: bv8)
    requires i <= 49
    ensures ScanCount(pos, i) <= i as int
    decreases i
  {
    if i > 0 {
      CountBound(pos, i - 1);
    }
  }

  /** `from_key` panics when adding the bottom row overflows 64 bits. */
  datatype KeyError = KeyOverflow

  /** The position `from_key` builds from a key. */
  function KeyToPos(key: Bitmap): Result<Pos, KeyError> {
    if key > 0xFFFF_FFFF_FFFF_FFFF - BOTTOM_ROW then Err(KeyOverflow)
    else
      var pos := key + BOTTOM_ROW;
      CountBound(pos, 49);
      Ok(Pos(ScanCount(pos, 49) as Score, ScanBoard(pos, 49), ScanMask(pos, 49)))
  }

  // ---------------------------------------------------------------------
  // The round trip: decoding the key of a well-formed position gives it back.

  /** The word `from_key` scans for the key of p. */
  function Marked(p: Pos): Bitmap {
    p.board + p.mask + BOTTOM_ROW
  }

  /** Rows 7-j .. 6 of a column field: the rows a column scan has passed
      after j steps. */
  function Top(j: bv64): Bitmap
    requires j <= 7
  {
    (0x7F << (7 - j)) & 0x7F
  }

  /** A row count 0 .. 7 as a number. */
  function Rows(j: bv64): nat
    requires j <= 7
  {
    if j == 0 then 0 else if j == 1 then 1 else if j == 2 then 2 else if j == 3 then 3
    else if j == 4 then 4 else if j == 5 then 5 else if j == 6 then 6 else 7
  }

  /** The stones of a column field of height h among the top j rows. */
  function Partial(h: nat, j: bv64): nat
    requires j <= 7
  {
    if h + Rows(j) > 7 then h + Rows(j) - 7 else 0
  }

  /** The stones in columns 0 .. k-1. */
  function CountBelow(mask: Bitmap, k: bv64): nat
    requires k <= 7
    decreases k
  {
    if k == 0 then 0 else CountBelow(mask, k - 1) + Height(Group(mask, k - 1))
  }

  /** The cells the scan has visited in its first i iterations. */
  function Scanned(i: bv8): Bitmap
    requires i <= 49
  {
    if i == 49 then BITMAP
    else ((1 << (ScanColumn(i) * 7)) - 1) | (Top(ScanDepth(i)) << (ScanColumn(i) * 7))
  }

  /** At row 6-j of column k, the scan has not met the column's marker: no
      bit of the column is set among the j rows it has passed. */
  predicate SearchingAt(p: Pos, k: bv64, j: bv64)
    requires k < 7 && j < 7
  {
    j == 0 || (Group(Marked(p), k) & Top(j)) == 0
  }

  predicate Searching(p: Pos, i: bv8)
    requires i < 49
  {
    SearchingAt(p, ScanColumn(i), ScanDepth(i))
  }

  /** The number of cells the scan copies for the key of p before row 6-j
      of column k: the stones of the columns before k and those of column k
      among its top j rows. */
  function CopiedAt(p: Pos, k: bv64, j: bv64): nat
    requires k <= 7 && j <= 7
  {
    CountBelow(p.mask, k) + Partial(Height(Group(p.mask, k)), j)
  }

  function Copied(p: Pos, i: bv8): nat
    requires i <= 49
  {
    if i == 49 then CopiedAt(p, 7, 0) else CopiedAt(p, ScanColumn(i), ScanDepth(i))
  }

  // Facts about one column field: m the occupied cells (stacked), b the
  // mover's stones among them, b + m + 1 the field the scan reads.

  lemma EmptyBefore(m: Bitmap, b: Bitmap, j: bv64)
    requires Stack(m) && Subset(b, m) && j < 7
    ensures (j == 0 || ((b + m + 1) & Top(j)) == 0) <==> Height(m) + Rows(j) < 7
  {
  }

  /** Above the marker, a row holds no stone. */
  lemma FieldAbove(m: Bitmap, b: Bitmap, j: bv64)
    requires Stack(m) && Subset(b, m) && j < 7 && Height(m) + Rows(j) < 7
    ensures (m & (1 << (6 - j))) == 0
  {
  }

  /** Below the marker, a row is occupied and the scanned bit is the mover's. */
  lemma FieldBelow(m: Bitmap, b: Bitmap, j: bv64)
    requires Stack(m) && Subset(b, m) && j < 7 && Height(m) + Rows(j) >= 7
    ensures (m & (1 << (6 - j))) != 0
    ensures ((b + m + 1) & (1 << (6 - j))) == (b & (1 << (6 - j)))
  {
  }

  lemma AboveMarker(m: Bitmap, b: Bitmap, g: Bitmap, j: bv64)
    requires Stack(m) && Subset(b, m) && g == b + m + 1 && j < 7
    requires j == 0 || (g & Top(j)) == 0
    ensures (m & (1 << (6 - j))) == 0
  {
    EmptyBefore(m, b, j);
    FieldAbove(m, b, j);
  }

  lemma BelowMarker(m: Bitmap, b: Bitmap, g: Bitmap, j: bv64)
    requires Stack(m) && Subset(b, m) && g == b + m + 1 && j < 7
    requires j != 0 && (g & Top(j)) != 0
    ensures (m & (1 << (6 - j))) != 0
  {
    EmptyBefore(m, b, j);
    FieldBelow(m, b, j);
  }

  lemma MarkedBelow(m: Bitmap, b: Bitmap, g: Bitmap, j: bv64)
    requires Stack(m) && Subset(b, m) && g == b + m + 1 && j < 7
    requires j != 0 && (g & Top(j)) != 0
    ensures (g & (1 << (6 - j))) == (b & (1 << (6 - j)))
  {
    EmptyBefore(m, b, j);
    FieldBelow(m, b, j);
  }

  lemma HeightLow(m: Bitmap, b: Bitmap, g: Bitmap, j: bv64)
    requires Stack(m) && Subset(b, m) && g == b + m + 1 && j < 7
    requires j == 0 || (g & Top(j)) == 0
    ensures Height(m) + Rows(j) < 7
  {
    EmptyBefore(m, b, j);
  }

  lemma HeightHigh(m: Bitmap, b: Bitmap, g: Bitmap, j: bv64)
    requires Stack(m) && Subset(b, m) && g == b + m + 1 && j < 7
    requires j != 0 && (g & Top(j)) != 0
    ensures Height(m) + Rows(j) >= 7
  {
    EmptyBefore(m, b, j);
  }

  lemma TopGrow(j: bv64)
    requires j < 7
    ensures Top(j + 1) == Top(j) | (1 << (6 - j))
  {
  }

  // Facts about the whole words.

  lemma BoardInMask(p: Pos, c: bv64)
    requires WellFormed(p.board, p.mask) && c < 10
    ensures Subset(Group(p.board, c), Group(p.mask, c))
  {
  }

  lemma MarkedGroup(p: Pos, c: bv64)
    requires WellFormed(p.board, p.mask) && c < 7
    ensures Group(Marked(p), c) == Group(p.board, c) + Group(p.mask, c) + 1
  {
  }

  lemma HighBoard(p: Pos)
    requires WellFormed(p.board, p.mask)
    ensures Group(p.board, 7) == 0 && Group(p.board, 8) == 0 && Group(p.board, 9) == 0
  {
  }

  // ---------------------------------------------------------------------
  // The scan's index.

  lemma IndexNext(i: bv8)
    requires i < 48 && (i + 1) % 7 != 0
    ensures ScanColumn(i + 1) == ScanColumn(i) && ScanDepth(i + 1) == ScanDepth(i) + 1
  {
  }

  lemma IndexWrap(i: bv8)
    requires i < 49 && (i + 1) % 7 == 0
    ensures ScanDepth(i) == 6
    ensures i < 48 ==> ScanColumn(i + 1) == ScanColumn(i) + 1 && ScanDepth(i + 1) == 0
    ensures i == 48 ==> ScanColumn(i) == 6
  {
  }

  /** Iteration i - 1 visits one more cell. */
  lemma ScannedStep(i: bv8)
    requires 0 < i <= 49
    ensures Scanned(i) == Scanned(i - 1) | ScanBit(i - 1)
  {
  }

  // ---------------------------------------------------------------------
  // One step of the scan for the key of p.

  /** Column k of p as the scan reads it: m the occupied cells, stacked, b
      the mover's stones among them, and b + m + 1 in the scanned word. */
  predicate FieldsAt(p: Pos, k: bv64)
    requires k < 7
  {
    Stack(Group(p.mask, k)) && Subset(Group(p.board, k), Group(p.mask, k))
    && Group(Marked(p), k) == Group(p.board, k) + Group(p.mask, k) + 1
  }

  lemma ColumnFields(p: Pos, k: bv64)
    requires WellFormed(p.board, p.mask) && k < 7
    ensures FieldsAt(p, k)
  {
    FieldStack(p, k);
    BoardInMask(p, k);
    MarkedGroup(p, k);
  }

  /** Above the marker, the visited cell is empty. */
  lemma CellEmpty(p: Pos, i: bv8)
    requires WellFormed(p.board, p.mask) && i < 49 && Searching(p, i)
    ensures (p.mask & ScanBit(i)) == 0
  {
    MaskCellEmpty(p, ScanColumn(i), ScanDepth(i));
  }

  lemma MaskCellEmpty(p: Pos, k: bv64, j: bv64)
    requires WellFormed(p.board, p.mask) && k < 7 && j < 7 && SearchingAt(p, k, j)
    ensures (p.mask & Cell(k, 6 - j)) == 0
  {
    FieldEmpty(p, k, j);
    CellZeroAt(p, k, j);
  }

  lemma CellZeroAt(p: Pos, k: bv64, j: bv64)
    requires k < 7 && j < 7 && (Group(p.mask, k) & (1 << (6 - j))) == 0
    ensures (p.mask & Cell(k, 6 - j)) == 0
  {
    CellZero(p.mask, k, 6 - j);
  }

  lemma FieldEmpty(p: Pos, k: bv64, j: bv64)
    requires WellFormed(p.board, p.mask) && k < 7 && j < 7 && SearchingAt(p, k, j)
    ensures (Group(p.mask, k) & (1 << (6 - j))) == 0
  {
    ColumnFields(p, k);
    ColumnEmpty(p, k, j);
  }

  lemma ColumnEmpty(p: Pos, k: bv64, j: bv64)
    requires k < 7 && j < 7 && FieldsAt(p, k) && SearchingAt(p, k, j)
    ensures (Group(p.mask, k) & (1 << (6 - j))) == 0
  {
    AboveMarker(Group(p.mask, k), Group(p.board, k), Group(Marked(p), k), j);
  }

  /** The mover's stones are among the occupied cells. */
  lemma BoardOutside(p: Pos, c: Bitmap)
    requires WellFormed(p.board, p.mask) && (p.mask & c) == 0
    ensures (p.board & c) == 0
  {
  }

  /** Below the marker, the visited cell is occupied. */
  lemma CellFull(p: Pos, i: bv8)
    requires WellFormed(p.board, p.mask) && i < 49 && !Searching(p, i)
    ensures (p.mask & ScanBit(i)) == ScanBit(i)
  {
    MaskCellFull(p, ScanColumn(i), ScanDepth(i));
  }

  lemma CellSetAt(p: Pos, k: bv64, j: bv64)
    requires k < 7 && j < 7 && (Group(p.mask, k) & (1 << (6 - j))) != 0
    ensures (p.mask & Cell(k, 6 - j)) == Cell(k, 6 - j)
  {
    CellSet(p.mask, k, 6 - j);
  }

  lemma CellSameAt(p: Pos, k: bv64, j: bv64)
    requires k < 7 && j < 7 && (Group(Marked(p), k) & (1 << (6 - j))) == (Group(p.board, k) & (1 << (6 - j)))
    ensures (Marked(p) & Cell(k, 6 - j)) == (p.board & Cell(k, 6 - j))
  {
    CellSame(Marked(p), p.board, k, 6 - j);
  }

  /** Below the marker, the scanned word holds the mover's bit. */
  lemma CellMarked(p: Pos, i: bv8)
    requires WellFormed(p.board, p.mask) && i < 49 && !Searching(p, i)
    ensures (Marked(p) & ScanBit(i)) == (p.board & ScanBit(i))
  {
    MarkedCellFull(p, ScanColumn(i), ScanDepth(i));
  }

  lemma MaskCellFull(p: Pos, k: bv64, j: bv64)
    requires WellFormed(p.board, p.mask) && k < 7 && j < 7 && !SearchingAt(p, k, j)
    ensures (p.mask & Cell(k, 6 - j)) == Cell(k, 6 - j)
  {
    FieldFull(p, k, j);
    CellSetAt(p, k, j);
  }

  lemma MarkedCellFull(p: Pos, k: bv64, j: bv64)
    requires WellFormed(p.board, p.mask) && k < 7 && j < 7 && !SearchingAt(p, k, j)
    ensures (Marked(p) & Cell(k, 6 - j)) == (p.board & Cell(k, 6 - j))
  {
    FieldMarked(p, k, j);
    CellSameAt(p, k, j);
  }

  lemma FieldFull(p: Pos, k: bv64, j: bv64)
    requires WellFormed(p.board, p.mask) && k < 7 && j < 7 && !SearchingAt(p, k, j)
    ensures (Group(p.mask, k) & (1 << (6 - j))) != 0
  {
    ColumnFields(p, k);
    ColumnFull(p, k, j);
  }

  lemma ColumnFull(p: Pos, k: bv64, j: bv64)
    requires k < 7 && j < 7 && FieldsAt(p, k) && !SearchingAt(p, k, j)
    ensures (Group(p.mask, k) & (1 << (6 - j))) != 0
  {
    BelowMarker(Group(p.mask, k), Group(p.board, k), Group(Marked(p), k), j);
  }

  lemma FieldMarked(p: Pos, k: bv64, j: bv64)
    requires WellFormed(p.board, p.mask) && k < 7 && j < 7 && !SearchingAt(p, k, j)
    ensures (Group(Marked(p), k) & (1 << (6 - j))) == (Group(p.board, k) & (1 << (6 - j)))
  {
    ColumnFields(p, k);
    ColumnMarked(p, k, j);
  }

  lemma ColumnMarked(p: Pos, k: bv64, j: bv64)
    requires k < 7 && j < 7 && FieldsAt(p, k) && !SearchingAt(p, k, j)
    ensures (Group(Marked(p), k) & (1 << (6 - j))) == (Group(p.board, k) & (1 << (6 - j)))
  {
    MarkedBelow(Group(p.mask, k), Group(p.board, k), Group(Marked(p), k), j);
  }

  /** Inside a column, the flag stays set until the scan meets the marker. */
  lemma SearchStep(p: Pos, i: bv8)
    requires i < 48 && (i + 1) % 7 != 0
    ensures Searching(p, i + 1) == (Searching(p, i) && (Marked(p) & ScanBit(i)) == 0)
  {
    var k, j := ScanColumn(i), ScanDepth(i);
    IndexNext(i);
    TopGrow(j);
    CellClear(Marked(p), k, 6 - j);
  }

  lemma CountBelowStep(mask: Bitmap, k: bv64)
    requires k < 7
    ensures CountBelow(mask, k + 1) == CountBelow(mask, k) + Height(Group(mask, k))
  {
  }

  /** Summing the columns one at a time gives the count of stones. */
  lemma CountBelowAll(mask: Bitmap)
    ensures CountBelow(mask, 7) == Count(mask)
  {
    CountBelowStep(mask, 0); CountBelowStep(mask, 1); CountBelowStep(mask, 2); CountBelowStep(mask, 3);
    CountBelowStep(mask, 4); CountBelowStep(mask, 5); CountBelowStep(mask, 6);
  }

  /** While the flag is set, the rows passed hold no stone ... */
  lemma HeightAbove(p: Pos, k: bv64, j: bv64)
    requires WellFormed(p.board, p.mask) && k < 7 && j < 7 && SearchingAt(p, k, j)
    ensures Height(Group(p.mask, k)) + Rows(j) < 7
  {
    ColumnFields(p, k);
    ColumnLow(p, k, j);
  }

  lemma ColumnLow(p: Pos, k: bv64, j: bv64)
    requires k < 7 && j < 7 && FieldsAt(p, k) && SearchingAt(p, k, j)
    ensures Height(Group(p.mask, k)) + Rows(j) < 7
  {
    HeightLow(Group(p.mask, k), Group(p.board, k), Group(Marked(p), k), j);
  }

  /** ... and once it is clear, the scan is among the column's stones. */
  lemma HeightBelow(p: Pos, k: bv64, j: bv64)
    requires WellFormed(p.board, p.mask) && k < 7 && j < 7 && !SearchingAt(p, k, j)
    ensures Height(Group(p.mask, k)) + Rows(j) >= 7
  {
    ColumnFields(p, k);
    ColumnHigh(p, k, j);
  }

  lemma ColumnHigh(p: Pos, k: bv64, j: bv64)
    requires k < 7 && j < 7 && FieldsAt(p, k) && !SearchingAt(p, k, j)
    ensures Height(Group(p.mask, k)) + Rows(j) >= 7
  {
    HeightHigh(Group(p.mask, k), Group(p.board, k), Group(Marked(p), k), j);
  }

  /** Within a column, a step copies a cell exactly when the scan is below the marker. */
  lemma CopiedAtNext(p: Pos, k: bv64, j: bv64)
    requires WellFormed(p.board, p.mask) && k < 7 && j < 6
    ensures CopiedAt(p, k, j + 1) == CopiedAt(p, k, j) + (if SearchingAt(p, k, j) then 0 else 1)
  {
    if SearchingAt(p, k, j) {
      HeightAbove(p, k, j);
    } else {
      HeightBelow(p, k, j);
    }
  }

  /** The last step of a column copies its bottom cell exactly when the column is not empty. */
  lemma CopiedAtWrap(p: Pos, k: bv64)
    requires WellFormed(p.board, p.mask) && k < 7
    ensures CopiedAt(p, k + 1, 0) == CopiedAt(p, k, 6) + (if SearchingAt(p, k, 6) then 0 else 1)
  {
    CopiedStart(p, k + 1);
    CountBelowStep(p.mask, k);
    ColumnDone(p, k);
  }

  lemma CopiedStart(p: Pos, k: bv64)
    requires k <= 7
    ensures CopiedAt(p, k, 0) == CountBelow(p.mask, k)
  {
  }

  /** By the end of a column the scan has copied all its stones. */
  lemma ColumnDone(p: Pos, k: bv64)
    requires WellFormed(p.board, p.mask) && k < 7
    ensures Partial(Height(Group(p.mask, k)), 6) + (if SearchingAt(p, k, 6) then 0 else 1) == Height(Group(p.mask, k))
  {
    if SearchingAt(p, k, 6) {
      HeightAbove(p, k, 6);
    } else {
      HeightBelow(p, k, 6);
    }
  }

  lemma CopiedStep(p: Pos, i: bv8)
    requires WellFormed(p.board, p.mask) && i < 49
    ensures Copied(p, i + 1) == Copied(p, i) + (if Searching(p, i) then 0 else 1)
  {
    if (i + 1) % 7 != 0 {
      CopiedNext(p, i);
    } else {
      CopiedWrap(p, i);
    }
  }

  lemma CopiedNext(p: Pos, i: bv8)
    requires WellFormed(p.board, p.mask) && i < 48 && (i + 1) % 7 != 0
    ensures Copied(p, i + 1) == Copied(p, i) + (if Searching(p, i) then 0 else 1)
  {
    IndexNext(i);
    var k, j := ScanColumn(i), ScanDepth(i);
    CopiedAtNext(p, k, j);
    CopiedIn(p, i, k, j);
  }

  lemma CopiedIn(p: Pos, i: bv8, k: bv64, j: bv64)
    requires i < 48 && k == ScanColumn(i) && j == ScanDepth(i) && j < 6
    requires ScanColumn(i + 1) == k && ScanDepth(i + 1) == j + 1
    requires CopiedAt(p, k, j + 1) == CopiedAt(p, k, j) + (if SearchingAt(p, k, j) then 0 else 1)
    ensures Copied(p, i + 1) == Copied(p, i) + (if Searching(p, i) then 0 else 1)
  {
  }

  lemma CopiedWrap(p: Pos, i: bv8)
    requires WellFormed(p.board, p.mask) && i < 49 && (i + 1) % 7 == 0
    ensures Copied(p, i + 1) == Copied(p, i) + (if Searching(p, i) then 0 else 1)
  {
    IndexWrap(i);
    CopiedAtWrap(p, ScanColumn(i));
  }

  // The scan for the key of p, one variable at a time.

  lemma DepthZero(i: bv8)
    requires i < 49 && (i == 0 || i % 7 == 0)
    ensures ScanDepth(i) == 0
  {
  }

  /** The flag is set exactly while the scan is above the marker. */
  lemma {:induction false} EmptyInv(p: Pos, i: bv8)
    requires i < 49
    ensures ScanEmpty(Marked(p), i) == Searching(p, i)
    decreases i
  {
    if i == 0 || i % 7 == 0 {
      DepthZero(i);
    } else {
      EmptyInv(p, i - 1);
      SearchStep(p, i - 1);
    }
  }

  /** What the scan meets at its first n cells of the key of p: empty cells
      above each column's marker, occupied ones (holding the mover's stone
      or not, as in the key) below it. */
  ghost predicate CellsMet(p: Pos, n: bv8)
    requires n <= 49
    decreases n
  {
    n == 0 ||
    (CellsMet(p, n - 1) && CellMet(p, n - 1))
  }

  ghost predicate CellMet(p: Pos, i: bv8)
    requires i < 49
  {
    (ScanEmpty(Marked(p), i) ==> (p.mask & ScanBit(i)) == 0 && (p.board & ScanBit(i)) == 0) &&
    (!ScanEmpty(Marked(p), i) ==> (p.mask & ScanBit(i)) == ScanBit(i) && (Marked(p) & ScanBit(i)) == (p.board & ScanBit(i)))
  }

  lemma CellMetAt(p: Pos, i: bv8)
    requires WellFormed(p.board, p.mask) && i < 49
    ensures CellMet(p, i)
  {
    EmptyInv(p, i);
    if Searching(p, i) {
      CellEmpty(p, i);
      BoardOutside(p, ScanBit(i));
    } else {
      CellFull(p, i);
      CellMarked(p, i);
    }
  }

  lemma {:induction false} CellsMetAll(p: Pos, n: bv8)
    requires WellFormed(p.board, p.mask) && n <= 49
    ensures CellsMet(p, n)
    decreases n
  {
    if n > 0 {
      CellsMetAll(p, n - 1);
      CellMetAt(p, n - 1);
    }
  }

  /** After i iterations, `mask` holds the occupied cells among those visited. */
  lemma {:induction false} MaskInv(p: Pos, i: bv8)
    requires i <= 49 && CellsMet(p, i)
    ensures ScanMask(Marked(p), i) == p.mask & Scanned(i)
    decreases i
  {
    if i > 0 {
      MaskInv(p, i - 1);
      MaskStep(p, i);
    }
  }

  lemma MaskStep(p: Pos, i: bv8)
    requires 0 < i <= 49 && CellMet(p, i - 1)
    requires ScanMask(Marked(p), i - 1) == p.mask & Scanned(i - 1)
    ensures ScanMask(Marked(p), i) == p.mask & Scanned(i)
  {
    if ScanEmpty(Marked(p), i - 1) {
      MaskAbove(p, i);
    } else {
      MaskBelow(p, i);
    }
  }

  lemma MaskPrev(pos: Bitmap, i: bv8)
    requires 0 < i <= 49
    ensures ScanMask(pos, i) == if ScanEmpty(pos, i - 1) then ScanMask(pos, i - 1) else ScanMask(pos, i - 1) | ScanBit(i - 1)
  {
  }

  /** Above the marker, iteration i - 1 visits an empty cell and leaves `mask` alone. */
  lemma MaskAbove(p: Pos, i: bv8)
    requires 0 < i <= 49 && ScanEmpty(Marked(p), i - 1) && (p.mask & ScanBit(i - 1)) == 0
    requires ScanMask(Marked(p), i - 1) == p.mask & Scanned(i - 1)
    ensures ScanMask(Marked(p), i) == p.mask & Scanned(i)
  {
    MaskPrev(Marked(p), i);
    ScannedStep(i);
    OrOutside(p.mask, Scanned(i - 1), ScanBit(i - 1));
  }

  /** Below the marker, iteration i - 1 visits an occupied cell and adds it to `mask`. */
  lemma MaskBelow(p: Pos, i: bv8)
    requires 0 < i <= 49 && !ScanEmpty(Marked(p), i - 1) && (p.mask & ScanBit(i - 1)) == ScanBit(i - 1)
    requires ScanMask(Marked(p), i - 1) == p.mask & Scanned(i - 1)
    ensures ScanMask(Marked(p), i) == p.mask & Scanned(i)
  {
    MaskPrev(Marked(p), i);
    ScannedStep(i);
    OrInside(p.mask, Scanned(i - 1), ScanBit(i - 1));
  }

  /** After i iterations, `board` holds the mover's stones among the cells visited. */
  lemma {:induction false} BoardInv(p: Pos, i: bv8)
    requires i <= 49 && CellsMet(p, i)
    ensures ScanBoard(Marked(p), i) == p.board & Scanned(i)
    decreases i
  {
    if i > 0 {
      BoardInv(p, i - 1);
      BoardStep(p, i);
    }
  }

  lemma BoardStep(p: Pos, i: bv8)
    requires 0 < i <= 49 && CellMet(p, i - 1)
    requires ScanBoard(Marked(p), i - 1) == p.board & Scanned(i - 1)
    ensures ScanBoard(Marked(p), i) == p.board & Scanned(i)
  {
    if ScanEmpty(Marked(p), i - 1) {
      BoardAbove(p, i);
    } else {
      BoardBelow(p, i, Marked(p));
    }
  }

  lemma BoardPrev(pos: Bitmap, i: bv8)
    requires 0 < i <= 49
    ensures ScanBoard(pos, i) == if ScanEmpty(pos, i - 1) then ScanBoard(pos, i - 1) else ScanBoard(pos, i - 1) | (pos & ScanBit(i - 1))
  {
  }

  /** Above the marker, iteration i - 1 leaves `board` alone; the cell holds no stone. */
  lemma BoardAbove(p: Pos, i: bv8)
    requires 0 < i <= 49 && ScanEmpty(Marked(p), i - 1) && (p.board & ScanBit(i - 1)) == 0
    requires ScanBoard(Marked(p), i - 1) == p.board & Scanned(i - 1)
    ensures ScanBoard(Marked(p), i) == p.board & Scanned(i)
  {
    BoardPrev(Marked(p), i);
    ScannedStep(i);
    OrOutside(p.board, Scanned(i - 1), ScanBit(i - 1));
  }

  /** Below the marker, iteration i - 1 copies the key's bit, which is the mover's bit. */
  lemma BoardBelow(p: Pos, i: bv8, pos: Bitmap)
    requires 0 < i <= 49 && pos == Marked(p) && !ScanEmpty(pos, i - 1)
    requires (pos & ScanBit(i - 1)) == (p.board & ScanBit(i - 1))
    requires ScanBoard(pos, i - 1) == p.board & Scanned(i - 1)
    ensures ScanBoard(pos, i) == p.board & Scanned(i)
  {
    BoardPrev(pos, i);
    ScannedStep(i);
    OrAgree(p.board, pos, Scanned(i - 1), ScanBit(i - 1));
  }

  /** After i iterations, the counter holds the stones copied so far. */
  lemma {:induction false} CountInv(p: Pos, i: bv8)
    requires WellFormed(p.board, p.mask) && i <= 49
    ensures ScanCount(Marked(p), i) == Copied(p, i)
    decreases i
  {
    if i > 0 {
      CountInv(p, i - 1);
      EmptyInv(p, i - 1);
      CopiedStep(p, i - 1);
    }
  }

  /** The scan for the key of p rebuilds its occupied cells. */
  lemma MaskOfKey(p: Pos)
    requires WellFormed(p.board, p.mask)
    ensures ScanMask(Marked(p), 49) == p.mask
  {
    CellsMetAll(p, 49);
    MaskInv(p, 49);
  }

  /** The scan for the key of p rebuilds the mover's stones. */
  lemma BoardOfKey(p: Pos)
    requires WellFormed(p.board, p.mask)
    ensures ScanBoard(Marked(p), 49) == p.board
  {
    CellsMetAll(p, 49);
    BoardInv(p, 49);
  }

  /** The scan for the key of p counts its stones. */
  lemma CountOfKey(p: Pos)
    requires WellFormed(p.board, p.mask)
    ensures ScanCount(Marked(p), 49) == Count(p.mask)
  {
    CountInv(p, 49);
    CopiedStart(p, 7);
    CountBelowAll(p.mask);
  }

  /** `from_key(get_key(p)) == p` for every position reachable by play. */
  lemma KeyRoundTrip(p: Pos)
    requires p.Valid()
    ensures KeyToPos(p.GetKey()) == Ok(p)
  {
    KeyBelow(p);
    MaskOfKey(p);
    BoardOfKey(p);
    CountOfKey(p);
    KeyOfScan(p);
  }

  lemma KeyOfScan(p: Pos)
    requires p.GetKey() <= BITMAP
    requires ScanCount(Marked(p), 49) == p.moves as int
    requires ScanBoard(Marked(p), 49) == p.board && ScanMask(Marked(p), 49) == p.mask
    ensures KeyToPos(p.GetKey()) == Ok(p)
  {
  }

  /** A key identifies its position: two reachable positions with one key
      are the same position. */
  lemma KeyInjective(p: Pos, q: Pos)
    requires p.Valid() && q.Valid() && p.GetKey() == q.GetKey()
    ensures p == q
  {
    KeyRoundTrip(p);
    KeyRoundTrip(q);
  }
}
