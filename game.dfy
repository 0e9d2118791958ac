/** The 7x6 bitboard position (src/game.rs).

    Each column takes seven bits of a 64-bit word: six cells from the bottom
    up and one guard bit above them, so column x holds bits 7x .. 7x+6.
    `mask` marks the occupied cells, `board` the stones of the player to
    move, and `moves` counts the stones played. */
module Game {
  import opened Bits
  import opened Lines

  type Bitmap = bv64

  const WIDTH: nat := 7
  const HEIGHT: nat := 6
  const BOARD_SIZE: nat := WIDTH * HEIGHT
  const BITMAP_SIZE: nat := WIDTH * (HEIGHT + 1)
  /** Division rounding up: the byte count covering BITMAP_SIZE bits. */
  const BITMAP_SIZE_BYTES: nat := (BITMAP_SIZE + 8 - 1) / 8

  /** The source's `i8` score; every arithmetic step on it must stay in range. */
  newtype Score = x: int | -128 <= x < 128

  const MAX_SCORE: Score := BOARD_SIZE as Score + 1
  const MIN_SCORE: Score := -MAX_SCORE

  /** A column index, 0 .. WIDTH-1. */
  type Column = x: bv64 | x < 7

  /** Bit 0 of every column. */
  const BOTTOM_ROW: Bitmap := 0x0408_1020_4081
  /** Bit HEIGHT-1 (the top playable cell) of every column. */
  const TOP_ROW: Bitmap := 0x8102_0408_1020
  /** The 42 playable cells: bits 0 .. HEIGHT-1 of every column. */
  const CELLS: Bitmap := 0xFDFB_F7EF_DFBF
  /** The BITMAP_SIZE low bits: all columns with their guard bits. */
  const BITMAP: Bitmap := 0x1_FFFF_FFFF_FFFF

  // The masks below write HEIGHT + 1 == 7, HEIGHT == 6 and their multiples as
  // literals; `MaskShapes` relates them to the constants.

  function TopMask(x: Column): Bitmap {
    0x20 << (x * 7)
  }

  function BottomMask(x: Column): Bitmap {
    1 << (x * 7)
  }

  function ColumnMask(x: Column): Bitmap {
    0x3F << (x * 7)
  }

  /** The sum of the bottom masks of all columns. */
  function AllBottomMask(): (r: Bitmap)
    ensures r == BOTTOM_ROW
  {
    BottomMask(0) + BottomMask(1) + BottomMask(2) + BottomMask(3)
    + BottomMask(4) + BottomMask(5) + BottomMask(6)
  }

  lemma MaskShapes(x: Column)
    ensures TopMask(x) == (1 << (HEIGHT - 1)) << (x * (HEIGHT + 1) as bv64)
    ensures BottomMask(x) == 1 << (x * (HEIGHT + 1) as bv64)
    ensures ColumnMask(x) == ((1 << HEIGHT) - 1) << (x * (HEIGHT + 1) as bv64)
  {
  }

  /** `(mask + bottom_mask(x)) & column_mask(x)`: adding the bottom bit
      carries up through the occupied cells of column x. */
  function LowestEmptyCell(mask: Bitmap, x: Column): Bitmap {
    (mask + BottomMask(x)) & ColumnMask(x)
  }

  /** Stones rest on stones: every occupied cell above row 0 has an occupied cell below it. */
  predicate Stacked(mask: Bitmap) {
    ((mask & !0x0408_1020_4081) & !(mask << 1)) == 0
  }

  /** The shape of every position the solver builds, without the move count. */
  predicate WellFormed(board: Bitmap, mask: Bitmap) {
    Subset(mask, 0xFDFB_F7EF_DFBF) && Stacked(mask) && Subset(board, mask)
  }

  /** A column field holding a stack of stones from row 0: 2^h - 1 with h <= HEIGHT. */
  predicate Stack(f: Bitmap) {
    f < 0x40 && (f & (f + 1)) == 0
  }

  /** The number of stones in a stacked column field. */
  function Height(f: Bitmap): (h: nat)
    ensures h <= HEIGHT
  {
    if f == 0 then 0 else if f == 1 then 1 else if f == 3 then 2 else if f == 7 then 3
    else if f == 0xF then 4 else if f == 0x1F then 5 else 6
  }

  /** The number of stones on the board, column by column. */
  function Count(mask: Bitmap): (n: nat)
    ensures n <= BOARD_SIZE
  {
    Height(Group(mask, 0)) + Height(Group(mask, 1)) + Height(Group(mask, 2)) + Height(Group(mask, 3))
    + Height(Group(mask, 4)) + Height(Group(mask, 5)) + Height(Group(mask, 6))
  }

  /** The value of a Position: the source's `Position` is a plain copyable record. */
  datatype Pos = Pos(moves: Score, board: Bitmap, mask: Bitmap) {

    /** The invariant of every position reached by playing legal moves:
        stones only in playable cells, stacked from the bottom, the mover's
        stones among the occupied cells, and `moves` stones on the board. */
    predicate Valid() {
      WellFormed(board, mask) && moves as int == Count(mask)
    }

    static function New(): (p: Pos)
      ensures p.Valid() && p.moves == 0 && p.mask == 0 && p.board == 0
    {
      Pos(0, 0, 0)
    }

    function NumMoves(): (n: Score)
      ensures Valid() ==> 0 <= n <= BOARD_SIZE as Score
    {
      moves
    }

    /** True when an odd number of cells is occupied (the first player has just moved). */
    function GetColor(): bool {
      Pop(mask) % 2 == 1
    }

    /** The top playable cell of column x is empty. */
    predicate CanPlay(x: Column) {
      (mask & TopMask(x)) == 0
    }

    /** The position after the player to move drops a stone into column x. */
    function Play(x: Column): (r: Pos)
      requires Valid() && CanPlay(x)
      ensures r.Valid() && r.moves as int == moves as int + 1
    {
      PlayFacts(this, x);
      Pos(moves + 1, board ^ mask, Played(mask, x))
    }

    /** Playing column x would complete four in a row for the player to move. */
    predicate IsWinningMove(x: Column) {
      Alignment(board | LowestEmptyCell(mask, x))
    }

    /** `board + mask`: a word that identifies the position. */
    function GetKey(): Bitmap {
      board + mask
    }
  }

  // ---------------------------------------------------------------------
  // Counting stones. Lemmas about positions take the whole `Pos` rather than
  // its words, so that callers and callees name the same terms.

  lemma FieldStack(p: Pos, c: bv64)
    requires WellFormed(p.board, p.mask) && c < 7
    ensures Stack(Group(p.mask, c))
  {
  }

  lemma StackOnes(f: Bitmap)
    requires Stack(f)
    ensures Ones7(f) == Height(f)
  {
  }

  lemma HighGroups(p: Pos)
    requires WellFormed(p.board, p.mask)
    ensures Group(p.mask, 7) == 0 && Group(p.mask, 8) == 0 && Group(p.mask, 9) == 0
  {
  }

  /** On a well-formed mask the population count is the sum of the column heights. */
  lemma PopCount(p: Pos)
    requires WellFormed(p.board, p.mask)
    ensures Pop(p.mask) == Count(p.mask)
  {
    HighGroups(p);
    FieldStack(p, 0); StackOnes(Group(p.mask, 0));
    FieldStack(p, 1); StackOnes(Group(p.mask, 1));
    FieldStack(p, 2); StackOnes(Group(p.mask, 2));
    FieldStack(p, 3); StackOnes(Group(p.mask, 3));
    FieldStack(p, 4); StackOnes(Group(p.mask, 4));
    FieldStack(p, 5); StackOnes(Group(p.mask, 5));
    FieldStack(p, 6); StackOnes(Group(p.mask, 6));
  }

  /** `get_color` tells whose turn it is: the count of occupied cells is odd
      exactly when `moves` is. */
  lemma ColorIsParity(p: Pos)
    requires p.Valid()
    ensures p.GetColor() <==> p.moves % 2 == 1
  {
    PopCount(p);
  }

  /** With stones stacked from the bottom, the top cell of a column is empty
      exactly when the column holds fewer than HEIGHT stones. */
  lemma CanPlayIff(p: Pos, x: Column)
    requires p.Valid()
    ensures p.CanPlay(x) <==> Height(Group(p.mask, x)) < HEIGHT
  {
    FieldStack(p, x);
    TopBit(p, x);
    StackFull(Group(p.mask, x));
  }

  lemma TopBit(p: Pos, x: Column)
    ensures p.CanPlay(x) <==> (Group(p.mask, x) & 0x20) == 0
  {
  }

  lemma StackFull(f: Bitmap)
    requires Stack(f)
    ensures Height(f) < 6 <==> (f & 0x20) == 0
  {
  }

  /** A position with fewer than BOARD_SIZE stones has a playable column. */
  lemma SomeColumnPlayable(p: Pos) returns (x: Column)
    requires p.Valid() && p.moves as int < BOARD_SIZE
    ensures p.CanPlay(x)
  {
    CanPlayIff(p, 0);
    CanPlayIff(p, 1);
    CanPlayIff(p, 2);
    CanPlayIff(p, 3);
    CanPlayIff(p, 4);
    CanPlayIff(p, 5);
    CanPlayIff(p, 6);
    if p.CanPlay(0) { x := 0; }
    else if p.CanPlay(1) { x := 1; }
    else if p.CanPlay(2) { x := 2; }
    else if p.CanPlay(3) { x := 3; }
    else if p.CanPlay(4) { x := 4; }
    else if p.CanPlay(5) { x := 5; }
    else { x := 6; }
  }

  // ---------------------------------------------------------------------
  // Playing a move.

  /** `mask | (mask + bottom_mask(x))`. */
  function Played(mask: Bitmap, x: Column): Bitmap {
    mask | (mask + BottomMask(x))
  }

  lemma PlayFacts(p: Pos, x: Column)
    requires p.Valid() && p.CanPlay(x)
    ensures Pos(p.moves + 1, p.board ^ p.mask, Played(p.mask, x)).Valid()
    ensures Played(p.mask, x) == p.mask | LowestEmptyCell(p.mask, x)
    ensures Height(Group(Played(p.mask, x), x)) == Height(Group(p.mask, x)) + 1
    ensures forall y: Column :: y != x ==> Group(Played(p.mask, x), y) == Group(p.mask, y)
  {
    PlayWords(p, x);
    PlayCount(p, x);
  }

  /** What `mask + bottom_mask(x)` does to a well-formed position. */
  lemma PlayWords(p: Pos, x: Column)
    requires WellFormed(p.board, p.mask) && p.CanPlay(x)
    ensures SingleBit(LowestEmptyCell(p.mask, x))
    ensures Subset(LowestEmptyCell(p.mask, x), ColumnMask(x)) && (LowestEmptyCell(p.mask, x) & p.mask) == 0
    ensures Subset((LowestEmptyCell(p.mask, x) - 1) & ColumnMask(x), p.mask)
    ensures Played(p.mask, x) == p.mask | LowestEmptyCell(p.mask, x)
    ensures WellFormed(p.board ^ p.mask, p.mask | LowestEmptyCell(p.mask, x))
  {
    PlayCellSingle(p, x);
    PlayCellFree(p, x);
    PlayCellLowest(p, x);
    PlayCellUnion(p, x);
    PlayKeepsShape(p, x);
  }

  lemma PlayCellSingle(p: Pos, x: Column)
    requires WellFormed(p.board, p.mask) && p.CanPlay(x)
    ensures SingleBit(LowestEmptyCell(p.mask, x))
  {
  }

  lemma PlayCellFree(p: Pos, x: Column)
    requires WellFormed(p.board, p.mask) && p.CanPlay(x)
    ensures Subset(LowestEmptyCell(p.mask, x), ColumnMask(x)) && (LowestEmptyCell(p.mask, x) & p.mask) == 0
  {
  }

  lemma PlayCellLowest(p: Pos, x: Column)
    requires WellFormed(p.board, p.mask) && p.CanPlay(x)
    ensures Subset((LowestEmptyCell(p.mask, x) - 1) & ColumnMask(x), p.mask)
  {
  }

  lemma PlayCellUnion(p: Pos, x: Column)
    requires WellFormed(p.board, p.mask) && p.CanPlay(x)
    ensures Played(p.mask, x) == p.mask | LowestEmptyCell(p.mask, x)
  {
  }

  lemma PlayKeepsShape(p: Pos, x: Column)
    requires WellFormed(p.board, p.mask) && p.CanPlay(x)
    ensures WellFormed(p.board ^ p.mask, p.mask | LowestEmptyCell(p.mask, x))
  {
  }

  /** Column y of `Played(mask, x)`: one more stone in column x, the others unchanged. */
  lemma PlayField(p: Pos, x: Column, y: Column)
    requires WellFormed(p.board, p.mask) && p.CanPlay(x)
    ensures Group(Played(p.mask, x), y) == if y == x then Group(p.mask, x) * 2 + 1 else Group(p.mask, y)
  {
  }

  lemma OtherGroups(p: Pos, x: Column)
    requires WellFormed(p.board, p.mask) && p.CanPlay(x)
    ensures forall y: Column :: y != x ==> Group(Played(p.mask, x), y) == Group(p.mask, y)
  {
    forall y: Column | y != x
      ensures Group(Played(p.mask, x), y) == Group(p.mask, y)
    {
      PlayField(p, x, y);
    }
  }

  lemma HeightGrow(f: Bitmap)
    requires Stack(f) && f < 0x3F
    ensures Height(f * 2 + 1) == Height(f) + 1
  {
  }

  lemma TopFree(p: Pos, x: Column)
    requires WellFormed(p.board, p.mask) && p.CanPlay(x)
    ensures Group(p.mask, x) < 0x3F
  {
  }

  /** One more stone in column x and none elsewhere adds one to the count. */
  lemma CountStep(p: Pos, q: Pos, x: Column)
    requires forall y: Column :: y != x ==> Height(Group(q.mask, y)) == Height(Group(p.mask, y))
    requires Height(Group(q.mask, x)) == Height(Group(p.mask, x)) + 1
    ensures Count(q.mask) == Count(p.mask) + 1
  {
    if x == 0 {
    } else if x == 1 {
    } else if x == 2 {
    } else if x == 3 {
    } else if x == 4 {
    } else if x == 5 {
    } else {
    }
  }

  lemma PlayCount(p: Pos, x: Column)
    requires WellFormed(p.board, p.mask) && p.CanPlay(x)
    ensures Count(Played(p.mask, x)) == Count(p.mask) + 1
    ensures Height(Group(Played(p.mask, x), x)) == Height(Group(p.mask, x)) + 1
    ensures forall y: Column :: y != x ==> Group(Played(p.mask, x), y) == Group(p.mask, y)
  {
    OtherGroups(p, x);
    PlayField(p, x, x);
    FieldStack(p, x);
    TopFree(p, x);
    HeightGrow(Group(p.mask, x));
    CountStep(p, p.(mask := Played(p.mask, x)), x);
  }

  /** `play(x)` hands the turn over (the new board is the old `board ^ mask`)
      and adds exactly the lowest empty cell of column x to `mask`: a single
      cell of column x, free before, with every cell below it occupied. */
  lemma PlayEffect(p: Pos, x: Column)
    requires p.Valid() && p.CanPlay(x)
    ensures p.Play(x).board == p.board ^ p.mask
    ensures p.Play(x).mask == p.mask | LowestEmptyCell(p.mask, x)
    ensures SingleBit(LowestEmptyCell(p.mask, x)) && Subset(LowestEmptyCell(p.mask, x), ColumnMask(x))
    ensures (LowestEmptyCell(p.mask, x) & p.mask) == 0
    ensures Subset((LowestEmptyCell(p.mask, x) - 1) & ColumnMask(x), p.mask)
  {
    PlayWords(p, x);
  }

  /** `play(x)` puts one more stone in column x and leaves every other column as it was. */
  lemma PlayColumns(p: Pos, x: Column)
    requires p.Valid() && p.CanPlay(x)
    ensures Height(Group(p.Play(x).mask, x)) == Height(Group(p.mask, x)) + 1
    ensures forall y: Column :: y != x ==> Group(p.Play(x).mask, y) == Group(p.mask, y)
  {
    PlayCount(p, x);
  }

  /** `is_winning_move(x)` tests exactly the stones the mover owns after playing x
      (after `play`, they are `mask ^ board`). */
  lemma WinningMoveIff(p: Pos, x: Column)
    requires p.Valid() && p.CanPlay(x)
    ensures p.IsWinningMove(x) == Alignment(p.Play(x).mask ^ p.Play(x).board)
  {
    MoverAfterPlay(p, x);
  }

  lemma MoverAfterPlay(p: Pos, x: Column)
    requires p.Valid() && p.CanPlay(x)
    ensures p.Play(x).mask ^ p.Play(x).board == p.board | LowestEmptyCell(p.mask, x)
  {
    PlayEffect(p, x);
    MoverWords(p, x);
  }

  lemma MoverWords(p: Pos, x: Column)
    requires Subset(p.board, p.mask) && (LowestEmptyCell(p.mask, x) & p.mask) == 0
    ensures (p.mask | LowestEmptyCell(p.mask, x)) ^ (p.board ^ p.mask) == p.board | LowestEmptyCell(p.mask, x)
  {
  }

  // ---------------------------------------------------------------------
  // The key.

  /** Adding board and mask carries nothing out of a column field. */
  lemma KeyGroup(p: Pos, c: Column)
    requires WellFormed(p.board, p.mask)
    ensures Group(p.GetKey(), c) == Group(p.board, c) + Group(p.mask, c)
    ensures Group(p.board, c) + Group(p.mask, c) < 0x80
  {
  }

  /** The key of a reachable position fits in BITMAP_SIZE bits. */
  lemma KeyBelow(p: Pos)
    requires WellFormed(p.board, p.mask)
    ensures p.GetKey() <= BITMAP
  {
  }
}
