# Connect Four solver: a Dafny model

The repository is a perfect-play solver for Connect Four on the standard
board of 7 columns and 6 rows. A position is three machine words: the
number of stones played (`moves`, an `i8`), the stones of the player to
move (`board`) and every occupied cell (`mask`). Each is a 64-bit bitmap
with 7 bits per column: 6 cells plus one spare bit on top. A move sets the
lowest empty cell of a column with one addition. The same trick gives a
unique key per position, `board + mask`, and `from_key` reverses it.

`negamax_trans` is an alpha-beta negamax search. It returns 0 on a full
board and `(MAX_SCORE - moves) / 2` when the mover can win at once.
Otherwise it lowers beta to an upper bound read from a transposition table
and tries the columns centre first. At the end it stores alpha, shifted to
be positive, in the table. The table is a vector of 8388593 packed words:
the key in the low 56 bits, the score byte above it. It is indexed by
`key % 8388593` and never chained, so a colliding write overwrites. `solve`
narrows a window `(min, max)` with null-window searches. `Evaluator` owns
the table and chooses the outer window for its strength: the full score
range for `Strong`, `(-1, 1)` for `Weak`.

The model has these modules:

- `Bits` holds word helpers: single bits, subsets, 7-bit column groups and
  population count.
- `Lines` is the four-direction alignment test.
- `Game` holds the constants, the `Score` type (`i8` as a newtype, so every
  arithmetic step of the source is proved free of overflow) and the
  position as a value `Pos` with the source's operations.
- `Keys` models `from_key` as a function of its 49-step scan and proves the
  key round trip.
- `GamePosition` holds the mutable `Position` class, `from_moves` (a loop
  over the move string) and `from_key` as a loop over the cells.
- `Transpositions` holds the packed entry, the table class over an `array`
  and the table read as a sequence of decoded slots.
- `Eval` holds the search, `solve` and the `Evaluator` class.

Each search method is proved equal to a ghost function on a game tree. The
tree holds what the search reads of each position: its move count, whether
the mover can win at once, its key, and its children in search order.
The functions thread the table through the walk. The game value `Value`
follows the plain negamax the source keeps, commented out, beside the
search (src/eval.rs lines 227-251).

The main results:

- `negamax_trans` is a fail-soft alpha-beta search of that value.
- The table stays sound: every hit bounds its position's value from above.
- `solve` on the strong window returns the exact value.
- On the weak window `solve` returns a score with the same sign as the
  value. The score is not clamped to -1 .. 1.

The source comments `Weak` as "just determines win/loss/draw". The code
returns the score of the last narrowing, and that can be a full immediate
win score such as 18. The model follows the code (`Eval.WeakWin`).

## Model

| member | source | states |
|---|---|---|
| `Game.AllBottomMask` | src/game.rs:171-173 | the sum of the seven bottom masks is the word with the lowest bit of every column set |
| `Game.MaskShapes` | src/game.rs:159-169 | the top, bottom and column masks equal the source's shift formulas in HEIGHT and the column stride HEIGHT + 1 |
| `Game.PopCount` | src/game.rs:77 | the population count of a well-formed mask is the sum of its column heights |
| `Game.ColorIsParity` | src/game.rs:74-78 | `get_color` holds exactly when an odd number of stones has been played |
| `Game.CanPlayIff` | src/game.rs:80-82 | a column can be played exactly when it holds fewer than HEIGHT stones |
| `Game.SomeColumnPlayable` | src/game.rs:80-82 | a position with fewer than 42 stones has a playable column |
| `Game.PlayEffect` | src/game.rs:84-88 | `play` flips board to the other player's stones and adds to the mask exactly one new cell, in column x, empty before and directly above the column's stones |
| `Game.PlayColumns` | src/game.rs:86 | `play` raises column x by one stone and leaves every other column unchanged |
| `Game.PlayCount` | src/game.rs:86-87 | the mask after `play` counts one more stone, so `moves` keeps equal to the number of stones |
| `Game.WinningMoveIff` | src/game.rs:100-104 | `is_winning_move(x)` is the alignment test of the mover's stones after playing x |
| `Game.MoverAfterPlay` | src/game.rs:101-102 | after `play`, the stones of the player who moved are the old board plus the new cell |
| `Game.KeyGroup` | src/game.rs:155-157 | the key's 7-bit column groups are the sums of the board and mask groups, with no carry between columns |
| `Game.KeyBelow` | src/game.rs:155-157 | a key uses only the 49 bits of the bitmap |
| `Lines.DirIff` | src/game.rs:106-131 | each shift-and step of `alignment` is nonzero exactly when four stones lie in a row in that direction |
| `Lines.AlignmentIff` | src/game.rs:106-131 | `alignment` holds exactly when some cell starts four stones in a row horizontally, vertically or on a diagonal |
| `Keys.EmptyNext` | src/game.rs:56-65 | one step of the `from_key` scan updates the `empty` flag as the loop does, resetting at each column's end |
| `Keys.MaskNext` | src/game.rs:59 | one step of the scan adds the cell to the mask once the marker has been passed |
| `Keys.BoardNext` | src/game.rs:60 | one step of the scan copies the cell's bit into the board once the marker has been passed |
| `Keys.CountNext` | src/game.rs:61 | one step of the scan counts the cell once the marker has been passed |
| `Keys.CountBound` | src/game.rs:61 | the scan counts at most one stone per cell, so the `i8` counter cannot overflow |
| `Keys.EmptyInv` | src/game.rs:53-66 | on the key of a position, the scan's `empty` flag holds exactly while it is above the column's topmost stone and its marker bit |
| `Keys.MaskOfKey` | src/game.rs:53-66 | scanning the marked key of a position rebuilds its mask |
| `Keys.BoardOfKey` | src/game.rs:53-66 | scanning the marked key of a position rebuilds its board |
| `Keys.CountOfKey` | src/game.rs:53-66 | scanning the marked key of a position counts its stones |
| `Keys.KeyRoundTrip` | src/game.rs:49-68 | `from_key(get_key(p))` is p, for every valid position |
| `Keys.KeyInjective` | src/game.rs:155-157 | two valid positions with the same key are the same position |
| `GamePosition.Position.constructor` | src/game.rs:24-29 | a new position has no stones and no moves |
| `GamePosition.Position.Play` | src/game.rs:84-88 | the in-place `play` leaves the object equal to the value-level `play` of its old state |
| `GamePosition.ColumnOf` | src/game.rs:34-37 | a move character is accepted exactly when it is '1' to '7', maps to column c - '1', and otherwise is the invalid-character error |
| `GamePosition.Replay` | src/game.rs:31-46 | replaying a move string from a valid position gives a valid position when it succeeds |
| `GamePosition.FromMoves` | src/game.rs:31-46 | the loop of `from_moves` computes the replay of the string from the empty position, including both panics as errors |
| `GamePosition.ReplayStep` | src/game.rs:33-44 | a bad character stops with that character's error, a full column stops with the one-based column's error, and otherwise play continues from the moved position |
| `GamePosition.ReplayOk` | src/game.rs:31-46 | a successful replay adds one move per character, and every character is a digit 1 to 7 |
| `GamePosition.TooManyMoves` | src/game.rs:39-43 | a string with more moves than the board has empty cells is rejected |
| `GamePosition.ReplayAppend` | src/game.rs:33-44 | replaying s + t is replaying s, then t from where s ended |
| `GamePosition.CellBit` | src/game.rs:54-55 | the bit index formula of the scan gives the cell of the scan order |
| `GamePosition.ScanCells` | src/game.rs:52-66 | the scan loop computes the stone count, board and mask of the scan function |
| `GamePosition.FromKey` | src/game.rs:49-68 | the method computes the key decoder, with the overflow of `pos + all_bottom_mask` as an error |
| `Transpositions.OffsetIs` | src/transpositions.rs:16 | the score offset is BITMAP_SIZE_BYTES * 8 = 56 |
| `Transpositions.SignedByte` | src/transpositions.rs:15 | an `i8`, cast to its byte and back, is itself |
| `Transpositions.NullEntry` | src/transpositions.rs:5 | the null entry reads as key 0 and score 0 |
| `Transpositions.EntryKey` | src/transpositions.rs:12-25 | `get_key` of a packed entry returns the key, for every key that fits in 56 bits |
| `Transpositions.EntryEval` | src/transpositions.rs:27-30 | `get_eval` of a packed entry returns the score, for every `i8`, negative ones included |
| `Transpositions.DecodeFromPos` | src/transpositions.rs:12-30 | decoding a packed entry gives back its key and score |
| `Transpositions.Hash` | src/transpositions.rs:71-73 | the slot index is below TTABLE_SIZE |
| `Transpositions.Lookup` | src/transpositions.rs:62-69 | a nonzero read comes from a slot that holds the key |
| `Transpositions.LookupCleared` | src/transpositions.rs:45-54 | every key reads 0 from a cleared table |
| `Transpositions.LookupStore` | src/transpositions.rs:56-69 | a key reads back the score just stored for it |
| `Transpositions.LookupOther` | src/transpositions.rs:56-69 | a store leaves the reads of keys in other slots unchanged |
| `Transpositions.Collision` | src/transpositions.rs:56-69 | of two keys in one slot, the later store wins and the earlier key then reads as a miss |
| `Transpositions.PutFits` | src/transpositions.rs:56-60 | for a key that fits in 56 bits, `put` stores exactly the key and score in the key's slot |
| `Transpositions.TTable.constructor` | src/transpositions.rs:45-49 | a new table has TTABLE_SIZE null entries |
| `Transpositions.TTable.Reset` | src/transpositions.rs:51-54 | `reset` makes every entry the null entry |
| `Transpositions.TTable.Put` | src/transpositions.rs:56-60 | `put` writes the packed entry to the key's slot and changes no other slot |
| `Transpositions.TTable.Get` | src/transpositions.rs:62-69 | `get` returns the read of the key on the decoded slots |
| `Eval.TDiv` | src/eval.rs:69-72 | Rust's integer division rounds toward zero |
| `Eval.WinScore` | src/eval.rs:100 | the immediate-win score `(MAX_SCORE - moves) / 2` lies in 0 .. 21 |
| `Eval.Bound` | src/eval.rs:107-115 | the bound from a miss or a hit is a score in range, so no `i8` step overflows |
| `Eval.Stored` | src/eval.rs:141 | the stored form of alpha is at least 1, so it never reads as a miss |
| `Eval.TreeOf` | src/eval.rs:92-130 | the game tree of a position records its move count, its key and whether the mover can win at once |
| `Eval.Kid` | src/eval.rs:125-129 | a column has a child tree exactly when it can be played, with one more move |
| `Eval.TreeKids` | src/eval.rs:125-129 | the children of a position's tree are the trees of its moves in the order 3, 2, 4, 1, 5, 0, 6 |
| `Eval.TreeOfModels` | src/eval.rs:125-130 | a position's tree describes every position the search reaches from it |
| `Eval.ModelsUnique` | src/eval.rs:125-130 | a position has only one such tree |
| `Eval.Search` | src/eval.rs:86-143 | the search of a tree returns a score in range and a table of the same size, with scores in the stored range |
| `Eval.Next` | src/eval.rs:125-142 | the child loop returns a score in range and a table with scores in the stored range |
| `Eval.FullBoard` | src/eval.rs:92-95 | a full board scores 0 and leaves the table alone |
| `Eval.ImmediateWin` | src/eval.rs:97-104 | a position with a winning move scores `(MAX_SCORE - moves) / 2` and leaves the table alone |
| `Eval.BoundCutoff` | src/eval.rs:106-123 | when the table bound lowers beta to alpha or below, the search returns the bound and leaves the table alone |
| `Eval.BoundOpen` | src/eval.rs:116-125 | otherwise the search is the child loop with beta lowered to the bound when the bound is smaller |
| `Eval.ChildMissing` | src/eval.rs:125-126 | a full column is skipped |
| `Eval.ChildCutoff` | src/eval.rs:130-135 | a child whose negated score reaches beta ends the loop with that score |
| `Eval.ChildRaise` | src/eval.rs:130-136 | otherwise the loop continues with alpha raised to the score and the child's table |
| `Eval.StoreAtEnd` | src/eval.rs:141-142 | after the last column the search stores alpha and returns it, and the stored bound read back is alpha |
| `Eval.NextAtLeastAlpha` | src/eval.rs:125-142 | the child loop never returns less than alpha |
| `Eval.CanWinNow` | src/eval.rs:97-104 | the column loop finds a winning move exactly when one exists |
| `Eval.NegamaxTrans` | src/eval.rs:86-143 | the method returns the search's score of the position's tree and leaves the table in the search's state |
| `Eval.SearchChildren` | src/eval.rs:125-142 | the child loop method computes the child loop function |
| `Eval.SearchColumn` | src/eval.rs:126-130 | one column is searched exactly when it can be played, with the negated window, and gives the negated child score |
| `Eval.ProbeInWindow` | src/eval.rs:69-74 | the probe `med` lies in min .. max - 1, so `med + 1` is in range |
| `Eval.Narrowing` | src/eval.rs:76-80 | each round of `solve` narrows the window, so the loop ends |
| `Eval.SolveLoop` | src/eval.rs:67-83 | the loop of `solve` ends with min >= max, and the result is at least the first min |
| `Eval.SolveStep` | src/eval.rs:68-81 | one round probes the null window (med, med + 1) and moves max or min to the result |
| `Eval.Solve` | src/eval.rs:67-83 | the method computes the loop of `solve` and leaves the table in its final state |
| `Eval.ValueBounds` | src/eval.rs:227-251 | the game value of a position lies between minus the opponent's quickest win and the mover's quickest win |
| `Eval.LiveValue` | src/eval.rs:239-250 | when the mover cannot win at once, the value is the best negated child value, and it is in score range |
| `Eval.TreeSolid` | src/eval.rs:106-115 | each position the search reaches has a move when its board is not full, and its key decodes to a position of the same value |
| `Eval.SoundLookup` | src/eval.rs:106-115 | in a sound table every hit on a key bounds that position's value from above |
| `Eval.ClearedSound` | src/transpositions.rs:45-54 | a cleared table is sound |
| `Eval.SoundStore` | src/eval.rs:141 | storing a fail-low alpha keeps the table sound |
| `Eval.SearchFailSoft` | src/eval.rs:86-143 | `negamax_trans` is fail-soft on the game value: a result at or below alpha bounds it from above, a result inside the window is the value, and a result at or above beta bounds it from below; the table stays sound |
| `Eval.NextFailSoft` | src/eval.rs:125-142 | the child loop is fail-soft on the best negated child value, given the children already tried |
| `Eval.SolveFailSoft` | src/eval.rs:67-83 | the result of `solve` is fail-soft on the game value for its first window, and the table stays sound |
| `Eval.SolveExact` | src/eval.rs:67-83 | `solve` on a window that holds the value returns the value |
| `Eval.StrongValue` | src/eval.rs:33-34 | `solve` on the full window returns the game value |
| `Eval.WeakSign` | src/eval.rs:35 | `solve` on (-1, 1) returns a negative score exactly for a loss, 0 exactly for a draw and a positive one exactly for a win |
| `Eval.WeakWin` | src/eval.rs:75-82 | on (-1, 1) an immediate win returns its full score of at least 1, not a clamped 1 |
| `Eval.Window` | src/eval.rs:33-36 | each strength's outer window is a nonempty window of scores in range |
| `Eval.StrongWindow` | src/game.rs:11-12 | the strong window is -43 .. 43 |
| `Eval.Evaluator.constructor` | src/eval.rs:31-43 | a new evaluator has a fresh cleared table and its strength's window |
| `Eval.Evaluator.Reset` | src/eval.rs:44-46 | `reset` clears the table and keeps the evaluator valid |
| `Eval.Evaluator.Eval` | src/eval.rs:47-63 | `eval` runs `solve` on the evaluator's window. The strong evaluator returns the game value. The weak one returns a score of the value's sign. Both results are fail-soft for their window, and the table stays sound for later calls |

## Left out

- src/main.rs and src/play.rs are not part of this model. They hold command-line and terminal I/O around the evaluator.
- `pause` reads standard input and is not modelled.
- `unplay` and `unplay_row` only panic with "not implemented" and are not modelled.
- `board_to_string`, the `Display` implementation and `Entry::bit_string` format text and are not modelled.
- The other search variants in src/eval.rs are commented out. Only the plain `negamax` is used, as the definition of the game value.
- The table's memory layout and the single `memset` of `reset` are not modelled. `reset` is a loop that writes the null entry to every slot.
- A Rust panic is modelled as an error result: an invalid character or a full column in `from_moves`, and the overflow of `pos + all_bottom_mask` in `from_key`. The latter is possible only for keys that no position has.
- `from_key` counts stones in an unbounded integer and converts the count to `i8` at the end. The conversion is proved to be in range.
- `entry_hash` takes `usize` to be 64 bits wide, so `key as usize` is the key itself.
- The game value and the table's soundness are stated over the game tree of a position. For a key that no valid position has, the value of a key is taken as 0. Such keys never reach the table from the search.
- Eval.WeakSign: states agreement in sign with the game value, not the value itself. The weak window's result is not clamped to -1, 0 or 1, as `Eval.WeakWin` shows.
