/** The mutable `Position` of src/game.rs: an object whose `play` updates its
    three fields in place, and the two constructors that build one by
    looping, `from_moves` over a move string and `from_key` over the bits of
    a key. Their values are the `Game.Pos` records. */
module GamePosition {
  import opened Wrappers
  import opened Game
  import opened Keys

  class Position {
    var moves: Score
    var board: Bitmap
    var mask: Bitmap

    /** The record these fields hold. */
    function View(): Pos
      reads this
    {
      Pos(moves, board, mask)
    }

    /** `Position::new`: the empty board. */
    constructor ()
      ensures View() == Pos.New()
    {
      moves := 0;
      board := 0;
      mask := 0;
    }

    /** `play(x)`: the mover's stones become the opponent's, and the stone
        falls onto column x. The three new field values are those `Pos.Play`
        computes: `board ^ mask`, `mask | (mask + bottom_mask(x))`, `moves + 1`. */
    method Play(x: Column)
      requires View().Valid() && View().CanPlay(x)
      modifies this
      ensures View() == old(View()).Play(x)
    {
      var next := View().Play(x);
      board := next.board;
      mask := next.mask;
      moves := next.moves;
    }
  }

  // ---------------------------------------------------------------------
  // from_moves

  /** Why a move string is rejected (the source panics with these messages). */
  datatype MoveError =
    | InvalidCharacter(c: bv8)
    | ColumnFull(column: int)

  /** The column an ASCII digit '1' .. '7' names, counted from 0. */
  function ColumnOf(c: bv8): (r: Result<Column, MoveError>)
    ensures r.Ok? <==> 0x31 <= c <= 0x37
    ensures r.Ok? ==> r.value as int == c as int - 0x31
    ensures r.Err? ==> r.error == InvalidCharacter(c)
  {
    if c < 0x31 || c > 0x37 then Err(InvalidCharacter(c)) else Ok((c - 0x31) as bv64)
  }

  /** Playing the moves of `s` one after the other from p, stopping at the
      first bad character or full column. */
  function Replay(p: Pos, s: seq<bv8>): (r: Result<Pos, MoveError>)
    requires p.Valid()
    ensures r.Ok? ==> r.value.Valid()
    decreases |s|
  {
    if |s| == 0 then Ok(p)
    else
      match ColumnOf(s[0])
      case Err(e) => Err(e)
      case Ok(n) =>
        if !p.CanPlay(n) then Err(ColumnFull(n as int + 1))
        else Replay(p.Play(n), s[1..])
  }

  /** `Position::from_moves`: play every move of the string, in order, from
      the empty board. */
  method FromMoves(s: seq<bv8>) returns (r: Result<Pos, MoveError>)
    ensures r == Replay(Pos.New(), s)
  {
    var pos := new Position();
    var k := 0;
    while k < |s|
      invariant 0 <= k <= |s|
      invariant pos.View().Valid()
      invariant Replay(Pos.New(), s) == Replay(pos.View(), s[k..])
    {
      ReplayStep(pos.View(), s, k);
      var n := ColumnOf(s[k]);
      if n.Err? {
        return Err(n.error);
      }
      if pos.View().CanPlay(n.value) {
        pos.Play(n.value);
      } else {
        return Err(ColumnFull(n.value as int + 1));
      }
      k := k + 1;
    }
    return Ok(pos.View());
  }

  /** One step of a replay: the character at k is checked, then played. */
  lemma ReplayStep(p: Pos, s: seq<bv8>, k: nat)
    requires p.Valid() && k < |s|
    ensures ColumnOf(s[k]).Err? ==> Replay(p, s[k..]) == Err(InvalidCharacter(s[k]))
    ensures ColumnOf(s[k]).Ok? && !p.CanPlay(ColumnOf(s[k]).value) ==>
      Replay(p, s[k..]) == Err(ColumnFull(ColumnOf(s[k]).value as int + 1))
    ensures ColumnOf(s[k]).Ok? && p.CanPlay(ColumnOf(s[k]).value) ==>
      Replay(p, s[k..]) == Replay(p.Play(ColumnOf(s[k]).value), s[k + 1..])
  {
    assert s[k..][0] == s[k];
    assert s[k..][1..] == s[k + 1..];
  }

  /** A successful replay plays one stone per character, each a digit '1' .. '7'. */
  lemma {:induction false} ReplayOk(p: Pos, s: seq<bv8>)
    requires p.Valid() && Replay(p, s).Ok?
    ensures Replay(p, s).value.moves as int == p.moves as int + |s|
    ensures forall k :: 0 <= k < |s| ==> 0x31 <= s[k] <= 0x37
    decreases |s|
  {
    if |s| > 0 {
      var n := ColumnOf(s[0]).value;
      ReplayOk(p.Play(n), s[1..]);
      assert forall k :: 1 <= k < |s| ==> s[k] == s[1..][k - 1];
    }
  }

  /** More moves than the board has cells is always rejected. */
  lemma TooManyMoves(p: Pos, s: seq<bv8>)
    requires p.Valid() && p.moves as int + |s| > BOARD_SIZE
    ensures Replay(p, s).Err?
  {
    if Replay(p, s).Ok? {
      ReplayOk(p, s);
    }
  }

  /** Replaying s then t is replaying s + t: the first error wins. */
  lemma {:induction false} ReplayAppend(p: Pos, s: seq<bv8>, t: seq<bv8>)
    requires p.Valid()
    ensures Replay(p, s + t) == Then(Replay(p, s), t)
    decreases |s|
  {
    if |s| == 0 {
      assert s + t == t;
    } else {
      assert (s + t)[0] == s[0];
      assert (s + t)[1..] == s[1..] + t;
      var n := ColumnOf(s[0]);
      if n.Ok? && p.CanPlay(n.value) {
        var q := p.Play(n.value);
        ReplayAppend(q, s[1..], t);
        assert Replay(p, s + t) == Replay(q, s[1..] + t);
        assert Replay(p, s) == Replay(q, s[1..]);
      }
    }
  }

  /** Continue a replay with the moves t, unless it has already failed. */
  function Then(r: Result<Pos, MoveError>, t: seq<bv8>): Result<Pos, MoveError>
    requires r.Ok? ==> r.value.Valid()
  {
    match r
    case Ok(q) => Replay(q, t)
    case Err(e) => Err(e)
  }

  // ---------------------------------------------------------------------
  // from_key

  /** The cell visited at step i, computed as the source writes it:
      bit `(HEIGHT - i % WIDTH) + (i / WIDTH) * WIDTH`, i.e. row 6 - i % 7
      of column i / 7. */
  method CellBit(i: bv8) returns (bitMask: Bitmap)
    requires i < 49
    ensures bitMask == ScanBit(i)
  {
    var bit := (6 - (i as bv64) % 7) + ((i as bv64) / 7) * 7;
    bitMask := 1 << bit;
  }

  /** The loop of `Position::from_key` over the word `pos`: 49 cells,
      column by column and each column from its guard bit down. A cell is
      copied once the column's first set bit, its marker, has been met. */
  method ScanCells(pos: Bitmap) returns (moves: nat, board: Bitmap, mask: Bitmap)
    ensures moves == ScanCount(pos, 49) && board == ScanBoard(pos, 49) && mask == ScanMask(pos, 49)
  {
    moves, board, mask := 0, 0, 0;
    var empty := true;
    var i: bv8 := 0;
    while i < 49
      invariant i <= 49
      invariant empty == ScanEmpty(pos, i)
      invariant board == ScanBoard(pos, i)
      invariant mask == ScanMask(pos, i)
      invariant moves == ScanCount(pos, i)
    {
      var bitMask := CellBit(i);
      EmptyNext(pos, i, empty, bitMask);
      MaskNext(pos, i, empty, mask, bitMask);
      BoardNext(pos, i, empty, board, bitMask);
      CountNext(pos, i, empty, moves);
      if empty {
        empty := pos & bitMask == 0;
      } else {
        mask := mask | bitMask;
        board := board | (pos & bitMask);
        moves := moves + 1;
      }
      if (i + 1) % 7 == 0 {
        empty := true;
      }
      i := i + 1;
    }
  }

  /** `Position::from_key`: add the bottom row to the key (an overflow is an
      error), then scan it. */
  method FromKey(key: Bitmap) returns (r: Result<Pos, KeyError>)
    ensures r == KeyToPos(key)
  {
    if key > 0xFFFF_FFFF_FFFF_FFFF - AllBottomMask() {
      return Err(KeyOverflow);
    }
    var pos := key + AllBottomMask();
    var moves, board, mask := ScanCells(pos);
    CountBound(pos, 49);
    return Ok(Pos(moves as Score, board, mask));
  }
}
