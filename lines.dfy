/** The line-of-four test of the bitboard (`Position::alignment`) and its
    meaning: four stones in a row along one of the four strides of the
    7-bit-per-column layout. */
module Lines {
  import opened Bits

  /** Four shift-and-AND tests, one per direction: true when `pos` holds four
      aligned stones. */
  function Alignment(pos: bv64): bool {
    // horizontal
    var m := pos & (pos >> 7);
    if (m & (m >> 14)) > 0 then true
    else
      // diagonal 1
      var m := pos & (pos >> 6);
      if (m & (m >> 12)) > 0 then true
      else
        // diagonal 2
        var m := pos & (pos >> 8);
        if (m & (m >> 16)) > 0 then true
        else
          // vertical
          var m := pos & (pos >> 1);
          (m & (m >> 2)) > 0
  }

  /** The four strides `alignment` tests: vertical 1, the two diagonals 6 and 8,
      horizontal 7. */
  predicate Stride(s: bv64) {
    s == 1 || s == 6 || s == 7 || s == 8
  }

  /** Cells c, c<<s, c<<2s and c<<3s of `pos` are all set, c being a single cell
      low enough that the fourth one is still inside the word. */
  predicate Line(pos: bv64, s: bv64, c: bv64)
    requires 0 < s < 16
  {
    SingleBit(c) && (c << (3 * s)) != 0
    && Subset(c | (c << s) | (c << (2 * s)) | (c << (3 * s)), pos)
  }

  /** One test of `alignment`: the cells of `pos` that start a line of four at
      stride s. */
  function Dir(pos: bv64, s: bv64): bv64
    requires 0 < s < 16
  {
    var m := pos & (pos >> s);
    m & (m >> (2 * s))
  }

  /** Some test of `alignment` fires. */
  predicate AnyDir(pos: bv64) {
    Dir(pos, 7) != 0 || Dir(pos, 6) != 0 || Dir(pos, 8) != 0 || Dir(pos, 1) != 0
  }

  lemma AlignmentAnyDir(pos: bv64)
    requires Alignment(pos)
    ensures AnyDir(pos)
  {
  }

  lemma AnyDirAlignment(pos: bv64)
    requires AnyDir(pos)
    ensures Alignment(pos)
  {
  }

  // One lemma per stride and direction: with the stride a literal, each is a
  // fixed wiring of shifts that the solver checks bit by bit.

  lemma VerticalLine(pos: bv64, c: bv64)
    requires SingleBit(c) && Subset(c, Dir(pos, 1))
    ensures Line(pos, 1, c)
  {
  }

  lemma VerticalDir(pos: bv64, c: bv64)
    requires Line(pos, 1, c)
    ensures Subset(c, Dir(pos, 1))
  {
  }

  lemma DiagonalLine(pos: bv64, c: bv64)
    requires SingleBit(c) && Subset(c, Dir(pos, 6))
    ensures Line(pos, 6, c)
  {
  }

  lemma DiagonalDir(pos: bv64, c: bv64)
    requires Line(pos, 6, c)
    ensures Subset(c, Dir(pos, 6))
  {
  }

  lemma HorizontalLine(pos: bv64, c: bv64)
    requires SingleBit(c) && Subset(c, Dir(pos, 7))
    ensures Line(pos, 7, c)
  {
  }

  lemma HorizontalDir(pos: bv64, c: bv64)
    requires Line(pos, 7, c)
    ensures Subset(c, Dir(pos, 7))
  {
  }

  lemma AntiDiagonalLine(pos: bv64, c: bv64)
    requires SingleBit(c) && Subset(c, Dir(pos, 8))
    ensures Line(pos, 8, c)
  {
  }

  lemma AntiDiagonalDir(pos: bv64, c: bv64)
    requires Line(pos, 8, c)
    ensures Subset(c, Dir(pos, 8))
  {
  }

  /** A cell is in a test's word exactly when a line of four starts there. */
  lemma DirCell(pos: bv64, s: bv64, c: bv64)
    requires Stride(s) && SingleBit(c)
    ensures Subset(c, Dir(pos, s)) <==> Line(pos, s, c)
  {
    if Subset(c, Dir(pos, s)) {
      if s == 1 {
        VerticalLine(pos, c);
      } else if s == 6 {
        DiagonalLine(pos, c);
      } else if s == 7 {
        HorizontalLine(pos, c);
      } else {
        AntiDiagonalLine(pos, c);
      }
    }
    if Line(pos, s, c) {
      if s == 1 {
        VerticalDir(pos, c);
      } else if s == 6 {
        DiagonalDir(pos, c);
      } else if s == 7 {
        HorizontalDir(pos, c);
      } else {
        AntiDiagonalDir(pos, c);
      }
    }
  }

  /** A test fires exactly when there is a line of four at its stride. */
  lemma DirIff(pos: bv64, s: bv64)
    requires Stride(s)
    ensures Dir(pos, s) != 0 <==> exists c :: Line(pos, s, c)
  {
    if Dir(pos, s) != 0 {
      LowestBit(Dir(pos, s));
      DirCell(pos, s, Lowest(Dir(pos, s)));
    }
    forall c | Line(pos, s, c)
      ensures Dir(pos, s) != 0
    {
      DirCell(pos, s, c);
    }
  }

  /** A line of four at any of the strides makes `alignment` true. */
  lemma LineAlignment(pos: bv64, s: bv64, c: bv64)
    requires Stride(s) && Line(pos, s, c)
    ensures Alignment(pos)
  {
    DirCell(pos, s, c);
    assert Dir(pos, s) != 0;
    assert AnyDir(pos);
    AnyDirAlignment(pos);
  }

  /** When `alignment` is true, returns a stride and the cell a line starts at. */
  lemma AlignmentLine(pos: bv64) returns (s: bv64, c: bv64)
    requires Alignment(pos)
    ensures Stride(s) && Line(pos, s, c)
  {
    AlignmentAnyDir(pos);
    s := if Dir(pos, 7) != 0 then 7 else if Dir(pos, 6) != 0 then 6 else if Dir(pos, 8) != 0 then 8 else 1;
    assert Dir(pos, s) != 0;
    LowestBit(Dir(pos, s));
    c := Lowest(Dir(pos, s));
    DirCell(pos, s, c);
  }

  /** `alignment(pos)` holds exactly when `pos` has four cells in a row at one
      of the strides 1, 6, 7, 8. */
  lemma AlignmentIff(pos: bv64)
    ensures Alignment(pos) <==> exists s, c :: Stride(s) && Line(pos, s, c)
  {
    if Alignment(pos) {
      var s, c := AlignmentLine(pos);
    }
    forall s, c | Stride(s) && Line(pos, s, c)
      ensures Alignment(pos)
    {
      LineAlignment(pos, s, c);
    }
  }
}
