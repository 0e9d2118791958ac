/** The search of src/eval.rs: `negamax_trans`, a fail-soft alpha-beta
    search with a fixed column order and an upper bound read from the
    transposition table; `solve`, which narrows a null window around the
    score; and `Evaluator`, which owns the table and picks the outer window.

    The methods work on positions and the table object. Each is proved equal
    to a function on values: the search functions walk the game tree of the
    position (what `negamax_trans` reads of each position it visits) and
    thread the table's slots through the walk.

    The game value of a position is defined after the plain negamax the
    source keeps beside the search (`Value`). On it the model proves that
    `negamax_trans` is a fail-soft alpha-beta search that keeps every table
    entry an upper bound of its position's value, that `solve` returns the
    value on the full window and a score of the value's sign on (-1, 1), and
    so what `Evaluator::eval` returns for each strength. */
module Eval {
  import opened Wrappers
  import opened Game
  import opened Transpositions
  import Keys

  /** `Strength`: `Strong` computes the exact score, `Weak` searches the
      window (-1, 1). */
  datatype Strength = Strong | Weak

  /** Rust's `/` on integers: the quotient rounded toward zero. */
  function TDiv(a: int, d: nat): (q: int)
    requires d > 0
    ensures a >= 0 ==> q * d <= a < q * d + d
    ensures a < 0 ==> q * d - d < a <= q * d
  {
    if a >= 0 then a / d else -((-a) / d)
  }

  /** Scores a search can return: MIN_SCORE .. MAX_SCORE. */
  predicate InRange(s: int) {
    MIN_SCORE as int <= s <= MAX_SCORE as int
  }

  /** The largest value the search stores, `MAX_SCORE - MIN_SCORE + 1`;
      stored values lie in 1 .. STORED_MAX and an empty slot reads 0. */
  const STORED_MAX: int := MAX_SCORE as int - MIN_SCORE as int + 1

  /** The table invariant of the search: every slot reads 0 .. STORED_MAX. */
  predicate TableOk(s: seq<Slot>) {
    |s| == TTABLE_SIZE && Bounded(s, 0, STORED_MAX)
  }

  /** The column order of the child search: centre first. */
  const ORDER: seq<Column> := [3, 2, 4, 1, 5, 0, 6]

  /** The score of a position with `moves` stones whose mover wins with the
      next stone: `(MAX_SCORE - moves) / 2`. */
  function WinScore(moves: Score): (s: Score)
    requires 0 <= moves as int <= BOARD_SIZE
    ensures 0 <= s as int <= 21
  {
    TDiv(MAX_SCORE as int - moves as int, 2) as Score
  }

  /** The upper bound the table gives: a miss bounds the score by the
      immediate-win score, a hit `v` by `v + MIN_SCORE - 1`. */
  function Bound(moves: Score, cached: Score): (b: Score)
    requires 0 <= moves as int <= BOARD_SIZE && 0 <= cached as int <= STORED_MAX
    ensures InRange(b as int)
  {
    if cached == 0 then WinScore(moves) else cached + MIN_SCORE - 1
  }

  /** The value stored for a position searched without a cutoff:
      `alpha - MIN_SCORE + 1`. */
  function Stored(alpha: Score): (v: Score)
    requires InRange(alpha as int)
    ensures 1 <= v as int <= STORED_MAX
  {
    alpha - MIN_SCORE + 1
  }

  // ---------------------------------------------------------------------
  // The game tree.

  /** What the search reads of a position: its move count, whether the mover
      has an immediate win, its key, and one entry per column in search order
      (`kids[i]` for column ORDER[i]): the child position's tree when that
      column is playable. */
  datatype Tree = Node(moves: Score, win: bool, key: Bitmap, kids: seq<Option<Tree>>)

  /** The shape of every tree built from a valid position. */
  ghost predicate Good(n: Tree)
    decreases n
  {
    0 <= n.moves as int <= BOARD_SIZE && FitsEntry(n.key) && |n.kids| == 7
    && forall i :: 0 <= i < |n.kids| && n.kids[i].Some? ==>
         n.kids[i].value.moves as int == n.moves as int + 1 && Good(n.kids[i].value)
  }

  /** Some playable column completes four in a row for the mover. */
  ghost predicate HasWin(g: Pos) {
    exists x: Column {:trigger g.IsWinningMove(x)} :: g.CanPlay(x) && g.IsWinningMove(x)
  }

  /** The tree of position g. */
  ghost function TreeOf(g: Pos): (n: Tree)
    requires g.Valid()
    ensures Good(n) && n.moves == g.moves && n.win == HasWin(g) && n.key == g.GetKey()
    decreases BOARD_SIZE - g.moves as int, 1
  {
    KeyBelow(g);
    Node(g.moves, HasWin(g), g.GetKey(), seq(7, i requires 0 <= i < 7 => Kid(g, ORDER[i])))
  }

  /** The entry of column x in the tree of g. */
  ghost function Kid(g: Pos, x: Column): (k: Option<Tree>)
    requires g.Valid()
    ensures k.Some? <==> g.CanPlay(x)
    ensures k.Some? ==> Good(k.value) && k.value.moves as int == g.moves as int + 1
    decreases BOARD_SIZE - g.moves as int, 0
  {
    if g.CanPlay(x) then Some(TreeOf(g.Play(x))) else None
  }

  /** The children of g are the positions after each playable column, in
      the order 3, 2, 4, 1, 5, 0, 6; a full column has no child. */
  lemma TreeKids(g: Pos, i: nat)
    requires g.Valid() && i < 7
    ensures TreeOf(g).kids[i].Some? <==> g.CanPlay(ORDER[i])
    ensures TreeOf(g).kids[i].Some? ==> TreeOf(g).kids[i].value == TreeOf(g.Play(ORDER[i]))
  {
  }

  /** n is the tree of g, level by level: the same move count, win flag and
      key, and for each column in search order a child exactly when the
      column is playable, which is the tree of the position after the move. */
  ghost predicate Models(n: Tree, g: Pos)
    decreases n, 1
  {
    g.Valid() && n.moves == g.moves && n.win == HasWin(g) && n.key == g.GetKey() && |n.kids| == 7
    && forall i: nat :: i < 7 ==> ModelsAt(n, g, i)
  }

  /** The child in position i of the search order: present exactly when
      column ORDER[i] is playable, and then the tree of the position after
      that move. */
  ghost predicate ModelsAt(n: Tree, g: Pos, i: nat)
    requires g.Valid() && |n.kids| == 7 && i < 7
    decreases n, 0
  {
    (n.kids[i].Some? <==> g.CanPlay(ORDER[i]))
    && (n.kids[i].Some? ==> Models(n.kids[i].value, g.Play(ORDER[i])))
  }

  /** One level of Models: the child in position i of the search order. */
  lemma ModelsKid(n: Tree, g: Pos, i: nat)
    requires Models(n, g) && i < 7
    ensures n.kids[i].Some? <==> g.CanPlay(ORDER[i])
    ensures n.kids[i].Some? ==> Models(n.kids[i].value, g.Play(ORDER[i]))
  {
    assert ModelsAt(n, g, i);
  }

  /** The tree built by TreeOf is the one Models describes. */
  lemma {:induction false} TreeOfModels(g: Pos)
    requires g.Valid()
    ensures Models(TreeOf(g), g)
    decreases BOARD_SIZE - g.moves as int
  {
    var n := TreeOf(g);
    forall i: nat | i < 7
      ensures ModelsAt(n, g, i)
    {
      TreeKids(g, i);
      if n.kids[i].Some? {
        TreeOfModels(g.Play(ORDER[i]));
      }
    }
  }

  /** A position has one tree. */
  lemma {:induction false} ModelsUnique(n: Tree, m: Tree, g: Pos)
    requires Models(n, g) && Models(m, g)
    ensures n == m
    decreases n
  {
    forall i | 0 <= i < 7
      ensures n.kids[i] == m.kids[i]
    {
      ModelsKid(n, g, i);
      ModelsKid(m, g, i);
      if n.kids[i].Some? {
        ModelsUnique(n.kids[i].value, m.kids[i].value, g.Play(ORDER[i]));
      }
    }
    assert n.kids == m.kids;
  }

  // ---------------------------------------------------------------------
  // negamax_trans on values.

  /** What a search returns, and the table's slots after it. */
  datatype Outcome = Outcome(score: Score, table: seq<Slot>)

  /** `negamax_trans` on the tree n with the window (alpha, beta) and slots t. */
  ghost function Search(n: Tree, alpha: Score, beta: Score, t: seq<Slot>): (o: Outcome)
    requires Good(n) && InRange(alpha as int) && InRange(beta as int) && TableOk(t)
    ensures InRange(o.score as int) && TableOk(o.table) && |o.table| == |t|
    decreases n, 1, |t|
  {
    if n.moves as int >= BOARD_SIZE then Outcome(0, t)
    else if n.win then Outcome(WinScore(n.moves), t)
    else
      var best := Bound(n.moves, Lookup(t, n.key));
      if beta > best && alpha >= best then Outcome(best, t)
      else Next(n, alpha, if beta > best then best else beta, t, 0)
  }

  /** The child loop from position i of the search order on: each child is
      searched with the window (-beta, -alpha); a score reaching beta is
      returned at once; otherwise alpha rises to the score. After the last
      column, `alpha - MIN_SCORE + 1` is stored under the key. */
  ghost function Next(n: Tree, alpha: Score, beta: Score, t: seq<Slot>, i: nat): (o: Outcome)
    requires Good(n) && i <= 7
    requires InRange(alpha as int) && InRange(beta as int) && TableOk(t)
    ensures InRange(o.score as int) && TableOk(o.table) && |o.table| == |t|
    decreases n, 0, 7 - i
  {
    if i == 7 then
      StoreBounded(t, n.key, Stored(alpha), 0, STORED_MAX);
      Outcome(alpha, Store(t, n.key, Stored(alpha)))
    else
      match n.kids[i]
      case None => Next(n, alpha, beta, t, i + 1)
      case Some(c) =>
        var child := Search(c, -beta, -alpha, t);
        var score := -child.score;
        if score >= beta then Outcome(score, child.table)
        else Next(n, if alpha > score then alpha else score, beta, child.table, i + 1)
  }

  // ---------------------------------------------------------------------
  // Properties of the search.

  // Each lemma below states the search's score and its table separately:
  // callers then equate two fields rather than two records.

  /** A full board is a draw, found without touching the table. */
  lemma FullBoard(n: Tree, alpha: Score, beta: Score, t: seq<Slot>)
    requires Good(n) && InRange(alpha as int) && InRange(beta as int) && TableOk(t)
    requires n.moves as int >= BOARD_SIZE
    ensures Search(n, alpha, beta, t).score == 0 && Search(n, alpha, beta, t).table == t
  {
  }

  /** An immediate win is scored before the table is read or written. */
  lemma ImmediateWin(n: Tree, alpha: Score, beta: Score, t: seq<Slot>)
    requires Good(n) && InRange(alpha as int) && InRange(beta as int) && TableOk(t)
    requires n.moves as int < BOARD_SIZE && n.win
    ensures Search(n, alpha, beta, t).score == WinScore(n.moves)
    ensures Search(n, alpha, beta, t).table == t
  {
  }

  /** When the table's bound lies below beta and at or below alpha, the
      search returns the bound at once and writes nothing. */
  lemma BoundCutoff(n: Tree, alpha: Score, beta: Score, t: seq<Slot>)
    requires Good(n) && InRange(alpha as int) && InRange(beta as int) && TableOk(t)
    requires n.moves as int < BOARD_SIZE && !n.win
    requires beta > Bound(n.moves, Lookup(t, n.key)) && alpha >= Bound(n.moves, Lookup(t, n.key))
    ensures Search(n, alpha, beta, t).score == Bound(n.moves, Lookup(t, n.key))
    ensures Search(n, alpha, beta, t).table == t
  {
  }

  /** Otherwise the search is the child loop, with beta lowered to the bound
      when the bound lies below it. */
  lemma BoundOpen(n: Tree, alpha: Score, beta: Score, t: seq<Slot>)
    requires Good(n) && InRange(alpha as int) && InRange(beta as int) && TableOk(t)
    requires n.moves as int < BOARD_SIZE && !n.win
    requires !(beta > Bound(n.moves, Lookup(t, n.key)) && alpha >= Bound(n.moves, Lookup(t, n.key)))
    ensures var b := if beta > Bound(n.moves, Lookup(t, n.key)) then Bound(n.moves, Lookup(t, n.key)) else beta;
      Search(n, alpha, beta, t).score == Next(n, alpha, b, t, 0).score
      && Search(n, alpha, beta, t).table == Next(n, alpha, b, t, 0).table
  {
  }

  /** A column without a child is skipped. */
  lemma ChildMissing(n: Tree, alpha: Score, beta: Score, t: seq<Slot>, i: nat)
    requires Good(n) && i < 7 && InRange(alpha as int) && InRange(beta as int) && TableOk(t)
    requires n.kids[i].None?
    ensures Next(n, alpha, beta, t, i).score == Next(n, alpha, beta, t, i + 1).score
    ensures Next(n, alpha, beta, t, i).table == Next(n, alpha, beta, t, i + 1).table
  {
  }

  /** A child scoring s (from the child's side) with the window (-beta,
      -alpha) and leaving the table t1: when -s reaches beta the loop ends
      with -s and t1, and no write for this position. */
  lemma ChildCutoff(n: Tree, alpha: Score, beta: Score, t: seq<Slot>, i: nat, s: Score, t1: seq<Slot>)
    requires Good(n) && i < 7 && InRange(alpha as int) && InRange(beta as int) && TableOk(t)
    requires n.kids[i].Some?
    requires s == Search(n.kids[i].value, -beta, -alpha, t).score
    requires t1 == Search(n.kids[i].value, -beta, -alpha, t).table
    requires -s >= beta
    ensures Next(n, alpha, beta, t, i).score == -s && Next(n, alpha, beta, t, i).table == t1
  {
  }

  /** Otherwise alpha rises to -s and the loop goes on with t1. */
  lemma ChildRaise(n: Tree, alpha: Score, beta: Score, t: seq<Slot>, i: nat, s: Score, t1: seq<Slot>)
    requires Good(n) && i < 7 && InRange(alpha as int) && InRange(beta as int) && TableOk(t)
    requires n.kids[i].Some?
    requires s == Search(n.kids[i].value, -beta, -alpha, t).score
    requires t1 == Search(n.kids[i].value, -beta, -alpha, t).table
    requires -s < beta
    ensures Next(n, alpha, beta, t, i).score == Next(n, if alpha > -s then alpha else -s, beta, t1, i + 1).score
    ensures Next(n, alpha, beta, t, i).table == Next(n, if alpha > -s then alpha else -s, beta, t1, i + 1).table
  {
  }

  /** Without a cutoff the loop ends by storing `alpha - MIN_SCORE + 1` under
      the key of the position, and returns alpha; a read of that key right
      after gives a value of at least 1, never the empty sentinel 0, and its
      bound is alpha itself. */
  lemma StoreAtEnd(n: Tree, alpha: Score, beta: Score, t: seq<Slot>)
    requires Good(n) && InRange(alpha as int) && InRange(beta as int) && TableOk(t)
    ensures Next(n, alpha, beta, t, 7).score == alpha
    ensures Next(n, alpha, beta, t, 7).table == Store(t, n.key, Stored(alpha))
    ensures Lookup(Next(n, alpha, beta, t, 7).table, n.key) == Stored(alpha) >= 1
    ensures Bound(n.moves, Lookup(Next(n, alpha, beta, t, 7).table, n.key)) == alpha
  {
    LookupStore(t, n.key, Stored(alpha));
  }

  /** Fail-soft: once the window is open, the child loop never returns less
      than alpha, since alpha only grows and a cutoff score reaches beta. */
  lemma {:induction false} NextAtLeastAlpha(n: Tree, alpha: Score, beta: Score, t: seq<Slot>, i: nat)
    requires Good(n) && i <= 7 && InRange(alpha as int) && InRange(beta as int) && TableOk(t)
    requires alpha < beta
    ensures Next(n, alpha, beta, t, i).score >= alpha
    decreases 7 - i
  {
    if i < 7 {
      match n.kids[i]
      case None =>
        NextAtLeastAlpha(n, alpha, beta, t, i + 1);
      case Some(c) =>
        var child := Search(c, -beta, -alpha, t);
        var score := -child.score;
        if score < beta {
          NextAtLeastAlpha(n, if alpha > score then alpha else score, beta, child.table, i + 1);
        }
    }
  }

  // ---------------------------------------------------------------------
  // negamax_trans

  /** The loop of `negamax_trans` over the columns 0 .. 6 that looks for a
      playable column completing four in a row. */
  method CanWinNow(g: Pos) returns (w: bool)
    ensures w == HasWin(g)
  {
    var x: bv64 := 0;
    while x < 7
      invariant x <= 7
      invariant forall y: Column {:trigger g.IsWinningMove(y)} :: y < x ==> !(g.CanPlay(y) && g.IsWinningMove(y))
    {
      if g.CanPlay(x) && g.IsWinningMove(x) {
        return true;
      }
      x := x + 1;
    }
    return false;
  }

  /** `negamax_trans(g, alpha, beta, t)`: a full board is a draw, an
      immediate win scores at once, and otherwise the table's bound may
      close the window before the children are searched. The position is a
      value (the source hands each child a copy); only the table's slots
      change. */
  method NegamaxTrans(g: Pos, alpha: Score, beta: Score, t: TTable, ghost node: Tree) returns (r: Score)
    requires g.Valid() && InRange(alpha as int) && InRange(beta as int) && t.Valid() && TableOk(t.view)
    requires Good(node) && Models(node, g)
    modifies t, t.slots
    ensures t.Valid()
    ensures r == Search(node, alpha, beta, old(t.view)).score
    ensures t.view == Search(node, alpha, beta, old(t.view)).table
    decreases BOARD_SIZE - g.moves as int, 2
  {
    ghost var t0 := t.view;
    if g.NumMoves() as int >= BOARD_SIZE {
      FullBoard(node, alpha, beta, t0);
      return 0;
    }
    var win := CanWinNow(g);
    if win {
      ImmediateWin(node, alpha, beta, t0);
      return WinScore(g.NumMoves());
    }
    var cached := t.Get(g.GetKey());
    LookupBounded(t0, g.GetKey(), 0, STORED_MAX);
    var best := Bound(g.NumMoves(), cached);
    var b := beta;
    if b > best {
      b := best;
      if alpha >= b {
        BoundCutoff(node, alpha, beta, t0);
        return b;
      }
    }
    BoundOpen(node, alpha, beta, t0);
    r := SearchChildren(g, alpha, b, t, node);
  }

  /** The second half of `negamax_trans`: the children in the order
      3, 2, 4, 1, 5, 0, 6, each searched with the negated window; a child
      score at or above beta is returned at once, otherwise alpha rises to
      the best child score and is stored before it is returned. */
  method SearchChildren(g: Pos, alpha: Score, beta: Score, t: TTable, ghost node: Tree) returns (r: Score)
    requires g.Valid() && InRange(alpha as int) && InRange(beta as int) && t.Valid() && TableOk(t.view)
    requires Good(node) && Models(node, g)
    modifies t, t.slots
    ensures t.Valid()
    ensures r == Next(node, alpha, beta, old(t.view), 0).score
    ensures t.view == Next(node, alpha, beta, old(t.view), 0).table
    decreases BOARD_SIZE - g.moves as int, 1
  {
    ghost var t0 := t.view;
    var a := alpha;
    var i := 0;
    while i < 7
      invariant i <= 7 && InRange(a as int) && t.Valid() && TableOk(t.view)
      invariant Next(node, alpha, beta, t0, 0).score == Next(node, a, beta, t.view, i).score
      invariant Next(node, alpha, beta, t0, 0).table == Next(node, a, beta, t.view, i).table
    {
      ghost var before := t.view;
      var s := SearchColumn(g, i, a, beta, t, node);
      if s.Some? {
        if s.value >= beta {
          ChildCutoff(node, a, beta, before, i, -s.value, t.view);
          return s.value;
        }
        ChildRaise(node, a, beta, before, i, -s.value, t.view);
        a := if a > s.value then a else s.value;
      } else {
        ChildMissing(node, a, beta, before, i);
      }
      i := i + 1;
    }
    ghost var before := t.view;
    t.Put(g.GetKey(), Stored(a));
    PutFits(before, g.GetKey(), Stored(a));
    StoreAtEnd(node, a, beta, before);
    return a;
  }

  /** One step of the child loop: when column ORDER[i] is playable, the
      negated score of the position after that move, searched with the
      window (-beta, -alpha); nothing when the column is full. */
  method SearchColumn(g: Pos, i: nat, alpha: Score, beta: Score, t: TTable, ghost node: Tree) returns (s: Option<Score>)
    requires g.Valid() && i < 7 && InRange(alpha as int) && InRange(beta as int) && t.Valid() && TableOk(t.view)
    requires Good(node) && Models(node, g)
    modifies t, t.slots
    ensures t.Valid()
    ensures s.Some? <==> node.kids[i].Some?
    ensures s.Some? ==> s.value == -Search(node.kids[i].value, -beta, -alpha, old(t.view)).score
    ensures s.Some? ==> t.view == Search(node.kids[i].value, -beta, -alpha, old(t.view)).table
    ensures s.None? ==> t.view == old(t.view)
    decreases BOARD_SIZE - g.moves as int, 0
  {
    var col := ORDER[i];
    ModelsKid(node, g, i);
    if g.CanPlay(col) {
      var score := NegamaxTrans(g.Play(col), -beta, -alpha, t, node.kids[i].value);
      return Some(-score);
    }
    return None;
  }

  // ---------------------------------------------------------------------
  // solve

  /** The null window `solve` tests while min < max: the midpoint, moved
      toward zero by `min / 2` or `max / 2` (rounded toward zero). */
  function Probe(min: Score, max: Score): Score
    requires InRange(min as int) && InRange(max as int) && min < max
  {
    var med := min as int + TDiv(max as int - min as int, 2);
    if med <= 0 && TDiv(min as int, 2) < med then TDiv(min as int, 2) as Score
    else if med >= 0 && TDiv(max as int, 2) > med then TDiv(max as int, 2) as Score
    else med as Score
  }

  /** The probe lies in min .. max - 1, so `med + 1` stays within max. */
  lemma ProbeInWindow(min: Score, max: Score)
    requires InRange(min as int) && InRange(max as int) && min < max
    ensures min <= Probe(min, max) < max
  {
  }

  /** Whatever the search returns for the probe, the window shrinks. */
  lemma Narrowing(min: Score, max: Score, r: Score)
    requires InRange(min as int) && InRange(max as int) && min < max
    ensures r <= Probe(min, max) ==> r as int - min as int < max as int - min as int
    ensures r > Probe(min, max) ==> max as int - r as int < max as int - min as int
  {
    ProbeInWindow(min, max);
  }

  /** The final window of `solve` and the table after it. */
  datatype Narrowed = Narrowed(min: Score, max: Score, table: seq<Slot>)

  /** `solve` on the tree n: the loop's state when it exits. */
  ghost function SolveLoop(n: Tree, min: Score, max: Score, t: seq<Slot>): (w: Narrowed)
    requires Good(n) && InRange(min as int) && InRange(max as int) && TableOk(t)
    ensures w.min >= w.max
    ensures InRange(w.min as int) && InRange(w.max as int) && TableOk(w.table)
    ensures w.min >= min && (min < max ==> w.max <= max)
    decreases max as int - min as int
  {
    if min >= max then Narrowed(min, max, t)
    else
      var med := Probe(min, max);
      ProbeInWindow(min, max);
      var o := Search(n, med, med + 1, t);
      Narrowing(min, max, o.score);
      if o.score <= med then SolveLoop(n, min, o.score, o.table)
      else SolveLoop(n, o.score, max, o.table)
  }

  /** One round of `solve`: the probe's result narrows the window and the
      rest of the loop starts from the narrowed window and the new slots. */
  lemma SolveStep(n: Tree, min: Score, max: Score, t: seq<Slot>, s: Score, t1: seq<Slot>)
    requires Good(n) && InRange(min as int) && InRange(max as int) && TableOk(t) && min < max
    requires InRange(Probe(min, max) as int) && InRange(Probe(min, max) as int + 1)
    requires s == Search(n, Probe(min, max), Probe(min, max) + 1, t).score
    requires t1 == Search(n, Probe(min, max), Probe(min, max) + 1, t).table
    ensures s <= Probe(min, max) ==>
      (SolveLoop(n, min, max, t).min == SolveLoop(n, min, s, t1).min
       && SolveLoop(n, min, max, t).table == SolveLoop(n, min, s, t1).table)
    ensures s > Probe(min, max) ==>
      (SolveLoop(n, min, max, t).min == SolveLoop(n, s, max, t1).min
       && SolveLoop(n, min, max, t).table == SolveLoop(n, s, max, t1).table)
  {
  }

  /** `solve(g, min, max, t)`. */
  method Solve(g: Pos, min0: Score, max0: Score, t: TTable, ghost node: Tree) returns (r: Score)
    requires g.Valid() && InRange(min0 as int) && InRange(max0 as int) && t.Valid() && TableOk(t.view)
    requires Good(node) && Models(node, g)
    modifies t, t.slots
    ensures t.Valid()
    ensures r == SolveLoop(node, min0, max0, old(t.view)).min
    ensures t.view == SolveLoop(node, min0, max0, old(t.view)).table
  {
    ghost var t0 := t.view;
    var min, max := min0, max0;
    while min < max
      invariant InRange(min as int) && InRange(max as int) && t.Valid() && TableOk(t.view)
      invariant SolveLoop(node, min, max, t.view).min == SolveLoop(node, min0, max0, t0).min
      invariant SolveLoop(node, min, max, t.view).table == SolveLoop(node, min0, max0, t0).table
      decreases max as int - min as int
    {
      var med := Probe(min, max);
      ProbeInWindow(min, max);
      ghost var before := t.view;
      var s := NegamaxTrans(g, med, med + 1, t, node);
      SolveStep(node, min, max, before, s, t.view);
      Narrowing(min, max, s);
      if s <= med {
        max := s;
      } else {
        min := s;
      }
    }
    return min;
  }

  // ---------------------------------------------------------------------
  // The game value, and what the search computes of it.

  function Max(a: int, b: int): int {
    if a >= b then a else b
  }

  /** Below every score: the best of no children. */
  const NO_CHILD: int := MIN_SCORE as int - 1

  /** The score of the tree n under perfect play, as the plain negamax of
      the source defines it: 0 for a full board, the immediate-win score
      when the mover can win at once, and otherwise the best negated child
      value, starting from `-BOARD_SIZE`. */
  ghost function Value(n: Tree): int
    requires Good(n)
    decreases n, 1
  {
    if n.moves as int >= BOARD_SIZE then 0
    else if n.win then WinScore(n.moves) as int
    else Max(-(BOARD_SIZE as int), Best(n, 0))
  }

  /** The best negated value among the children from position i of the
      search order on; NO_CHILD when there are none. */
  ghost function Best(n: Tree, i: nat): int
    requires Good(n) && i <= 7
    decreases n, 0, 7 - i
  {
    if i == 7 then NO_CHILD
    else
      match n.kids[i]
      case None => Best(n, i + 1)
      case Some(c) => Max(-Value(c), Best(n, i + 1))
  }

  /** The best negated value among the children before position i of the
      search order; NO_CHILD when there are none. */
  ghost function Upto(n: Tree, i: nat): int
    requires Good(n) && i <= 7
    decreases n, 0, i
  {
    if i == 0 then NO_CHILD
    else
      match n.kids[i - 1]
      case None => Upto(n, i - 1)
      case Some(c) => Max(-Value(c), Upto(n, i - 1))
  }

  /** Best never falls below NO_CHILD. */
  lemma {:induction false} BestFloor(n: Tree, i: nat)
    requires Good(n) && i <= 7
    ensures Best(n, i) >= NO_CHILD
    decreases 7 - i
  {
    if i < 7 {
      BestFloor(n, i + 1);
    }
  }

  /** The children before i and those from i on make up all children. */
  lemma {:induction false} UptoBest(n: Tree, i: nat)
    requires Good(n) && i <= 7
    ensures Max(Upto(n, i), Best(n, i)) == Best(n, 0)
    decreases i
  {
    if i == 0 {
      BestFloor(n, 0);
    } else {
      UptoBest(n, i - 1);
    }
  }

  /** Every child from position i on counts toward Best. */
  lemma {:induction false} BestAbove(n: Tree, i: nat, j: nat)
    requires Good(n) && i <= j < 7 && n.kids[j].Some?
    ensures Best(n, i) >= -Value(n.kids[j].value)
    decreases j - i
  {
    if i < j {
      BestAbove(n, i + 1, j);
    }
  }

  /** Best is the least bound of the children from position i on. */
  lemma {:induction false} BestBelow(n: Tree, i: nat, u: int)
    requires Good(n) && i <= 7 && u >= NO_CHILD
    requires forall j :: i <= j < 7 && n.kids[j].Some? ==> -Value(n.kids[j].value) <= u
    ensures Best(n, i) <= u
    decreases 7 - i
  {
    if i < 7 {
      BestBelow(n, i + 1, u);
    }
  }

  /** The value of the position a key decodes to (0 for a word that is
      not the key of a reachable position). */
  ghost function KeyValue(key: Bitmap): int {
    match Keys.KeyToPos(key)
    case Ok(p) => if p.Valid() then Value(TreeOf(p)) else 0
    case Err(_) => 0
  }

  /** The facts about a position's tree that the search's correctness rests
      on, at every node: a board that is not full has a child, and kv maps
      the node's key to the node's value. The search lemmas take kv as a
      parameter; for the tree of a position it is KeyValue (TreeSolid). */
  ghost predicate Solid(n: Tree, kv: Bitmap -> int)
    requires Good(n)
    decreases n
  {
    ((n.moves as int) < BOARD_SIZE ==> exists i :: 0 <= i < 7 && n.kids[i].Some?)
    && kv(n.key) == Value(n)
    && forall i :: 0 <= i < 7 && n.kids[i].Some? ==> Solid(n.kids[i].value, kv)
  }

  /** A position that is not full has a child: some column is playable. */
  lemma SomeKid(g: Pos) returns (i: nat)
    requires g.Valid() && (g.moves as int) < BOARD_SIZE
    ensures i < 7 && TreeOf(g).kids[i].Some?
  {
    var x := SomeColumnPlayable(g);
    i := if x == 3 then 0 else if x == 2 then 1 else if x == 4 then 2
      else if x == 1 then 3 else if x == 5 then 4 else if x == 0 then 5 else 6;
    TreeKids(g, i);
  }

  /** The key of a reachable position decodes to that position. */
  lemma KeyValueOf(g: Pos)
    requires g.Valid()
    ensures KeyValue(g.GetKey()) == Value(TreeOf(g))
  {
    Keys.KeyRoundTrip(g);
  }

  /** The tree of every reachable position is solid, with KeyValue. */
  lemma {:induction false} TreeSolid(g: Pos)
    requires g.Valid()
    ensures Solid(TreeOf(g), KeyValue)
    decreases BOARD_SIZE - g.moves as int
  {
    var n := TreeOf(g);
    if g.moves as int < BOARD_SIZE {
      var i := SomeKid(g);
    }
    KeyValueOf(g);
    forall i | 0 <= i < 7 && n.kids[i].Some?
      ensures Solid(n.kids[i].value, KeyValue)
    {
      TreeKids(g, i);
      TreeSolid(g.Play(ORDER[i]));
    }
  }

  /** Scores are bounded by the number of stones left: at most the
      immediate-win score, and, before the board is full, at least minus
      the opponent's immediate-win score after one more stone. */
  lemma {:induction false} ValueBounds(n: Tree, kv: Bitmap -> int)
    requires Good(n) && Solid(n, kv)
    ensures Value(n) <= WinScore(n.moves) as int
    ensures (n.moves as int) < BOARD_SIZE ==> -(WinScore(n.moves + 1) as int) <= Value(n)
    decreases n
  {
    if n.moves as int < BOARD_SIZE && !n.win {
      forall j | 0 <= j < 7 && n.kids[j].Some?
        ensures -Value(n.kids[j].value) <= WinScore(n.moves) as int
      {
        ValueBounds(n.kids[j].value, kv);
      }
      BestBelow(n, 0, WinScore(n.moves) as int);
      var i :| 0 <= i < 7 && n.kids[i].Some?;
      ValueBounds(n.kids[i].value, kv);
      BestAbove(n, 0, i);
    }
  }

  /** Before the board is full and without an immediate win, the value is
      the best negated child value: the floor `-BOARD_SIZE` never counts. */
  lemma LiveValue(n: Tree, kv: Bitmap -> int)
    requires Good(n) && Solid(n, kv) && (n.moves as int) < BOARD_SIZE && !n.win
    ensures Value(n) == Best(n, 0) && InRange(Value(n))
  {
    var i :| 0 <= i < 7 && n.kids[i].Some?;
    ValueBounds(n.kids[i].value, kv);
    BestAbove(n, 0, i);
    ValueBounds(n, kv);
  }

  /** The table never overstates a value: every hit bounds the value of
      the key's position from above, the bound being `cached + MIN_SCORE - 1`
      as the search reads it. */
  ghost predicate Sound(t: seq<Slot>, kv: Bitmap -> int) {
    SoundUpto(t, kv, |t|)
  }

  /** Every slot below j is sound. */
  ghost predicate SoundUpto(t: seq<Slot>, kv: Bitmap -> int, j: nat)
    requires j <= |t|
    decreases j, t
  {
    j == 0 || (SoundUpto(t, kv, j - 1) && SlotSound(t[j - 1], kv))
  }

  /** A slot holding a score bounds kv of its key by that score's alpha. */
  ghost predicate SlotSound(s: Slot, kv: Bitmap -> int) {
    s.eval != 0 ==> kv(s.key) <= s.eval as int + MIN_SCORE as int - 1
  }

  lemma {:induction false} SoundAt(t: seq<Slot>, kv: Bitmap -> int, j: nat, k: nat)
    requires k < j <= |t| && SoundUpto(t, kv, j)
    ensures SlotSound(t[k], kv)
    decreases j
  {
    if k < j - 1 {
      SoundAt(t, kv, j - 1, k);
    }
  }

  /** Every hit in a sound table is an upper bound of kv of the key. */
  lemma SoundLookup(t: seq<Slot>, key: Bitmap, kv: Bitmap -> int)
    requires |t| == TTABLE_SIZE && Sound(t, kv)
    ensures Lookup(t, key) != 0 ==> kv(key) <= Lookup(t, key) as int + MIN_SCORE as int - 1
  {
    SoundAt(t, kv, |t|, Hash(key));
  }

  lemma {:induction false} ClearedUpto(t: seq<Slot>, kv: Bitmap -> int, j: nat)
    requires j <= |t| && Cleared(t)
    ensures SoundUpto(t, kv, j)
    decreases j
  {
    if j > 0 {
      ClearedUpto(t, kv, j - 1);
      assert t[j - 1] == Slot(0, 0);
    }
  }

  /** A cleared table is sound. */
  lemma ClearedSound(t: seq<Slot>, kv: Bitmap -> int)
    requires Cleared(t)
    ensures Sound(t, kv)
  {
    ClearedUpto(t, kv, |t|);
  }

  lemma {:induction false} StoreUpto(t: seq<Slot>, kv: Bitmap -> int, j: nat, h: nat, s: Slot)
    requires j <= |t| && h < |t| && SoundUpto(t, kv, j) && SlotSound(s, kv)
    ensures SoundUpto(t[h := s], kv, j)
    decreases j
  {
    if j > 0 {
      StoreUpto(t, kv, j - 1, h, s);
    }
  }

  /** Storing `alpha - MIN_SCORE + 1` under the key of n keeps the table
      sound when alpha bounds n's value. */
  lemma SoundStore(t: seq<Slot>, n: Tree, alpha: Score, kv: Bitmap -> int)
    requires |t| == TTABLE_SIZE && Sound(t, kv) && Good(n) && Solid(n, kv) && InRange(alpha as int)
    requires Value(n) <= alpha as int
    ensures Sound(Store(t, n.key, Stored(alpha)), kv)
  {
    StoreUpto(t, kv, |t|, Hash(n.key), Slot(n.key, Stored(alpha)));
  }

  /** `r` is a fail-soft result of a search of a position of value v with
      the window (alpha, beta): at or below alpha it bounds v from above,
      inside the window it is v, at or above beta it bounds v from below. */
  predicate FailSoft(v: int, alpha: int, beta: int, r: int) {
    (r <= alpha ==> v <= r) && (alpha < r < beta ==> v == r) && (r >= beta ==> v >= r)
  }

  /** `negamax_trans` is a fail-soft alpha-beta search of the game value,
      and keeps the table sound. */
  lemma {:induction false} SearchFailSoft(n: Tree, alpha: Score, beta: Score, t: seq<Slot>, kv: Bitmap -> int)
    requires Good(n) && Solid(n, kv) && InRange(alpha as int) && InRange(beta as int) && alpha < beta
    requires TableOk(t) && Sound(t, kv)
    ensures FailSoft(Value(n), alpha as int, beta as int, Search(n, alpha, beta, t).score as int)
    ensures Sound(Search(n, alpha, beta, t).table, kv)
    decreases n, 1
  {
    if n.moves as int < BOARD_SIZE && !n.win {
      var best := Bound(n.moves, Lookup(t, n.key));
      SoundLookup(t, n.key, kv);
      ValueBounds(n, kv);
      LiveValue(n, kv);
      assert Value(n) <= best as int;
      if !(beta > best && alpha >= best) {
        var b := if beta > best then best else beta;
        NextFailSoft(n, alpha, b, t, 0, kv);
      }
    }
  }

  /** The child loop from position i on, with every earlier child's negated
      value at most alpha (Upto): a cutoff score is at most the best of the
      remaining children, and otherwise the loop returns the larger of
      alpha and that best. */
  lemma {:induction false} NextFailSoft(n: Tree, alpha: Score, beta: Score, t: seq<Slot>, i: nat, kv: Bitmap -> int)
    requires Good(n) && Solid(n, kv) && i <= 7 && (n.moves as int) < BOARD_SIZE && !n.win
    requires InRange(alpha as int) && InRange(beta as int) && alpha < beta && TableOk(t) && Sound(t, kv)
    requires Upto(n, i) <= alpha as int
    ensures Sound(Next(n, alpha, beta, t, i).table, kv)
    ensures Next(n, alpha, beta, t, i).score >= beta ==> Best(n, i) >= Next(n, alpha, beta, t, i).score as int
    ensures Next(n, alpha, beta, t, i).score < beta ==> Next(n, alpha, beta, t, i).score as int == Max(alpha as int, Best(n, i))
    decreases n, 0, 7 - i, 2
  {
    if i == 7 {
      UptoBest(n, 7);
      LiveValue(n, kv);
      SoundStore(t, n, alpha, kv);
    } else {
      match n.kids[i]
      case None =>
        NextFailSoft(n, alpha, beta, t, i + 1, kv);
      case Some(c) =>
        NextChild(n, alpha, beta, t, i, c, kv);
    }
  }

  /** NextFailSoft's step over a present child c. */
  lemma {:induction false} NextChild(n: Tree, alpha: Score, beta: Score, t: seq<Slot>, i: nat, c: Tree, kv: Bitmap -> int)
    requires Good(n) && Solid(n, kv) && i < 7 && (n.moves as int) < BOARD_SIZE && !n.win
    requires InRange(alpha as int) && InRange(beta as int) && alpha < beta && TableOk(t) && Sound(t, kv)
    requires Upto(n, i) <= alpha as int && n.kids[i] == Some(c)
    ensures Sound(Next(n, alpha, beta, t, i).table, kv)
    ensures Next(n, alpha, beta, t, i).score >= beta ==> Best(n, i) >= Next(n, alpha, beta, t, i).score as int
    ensures Next(n, alpha, beta, t, i).score < beta ==> Next(n, alpha, beta, t, i).score as int == Max(alpha as int, Best(n, i))
    decreases n, 0, 7 - i, 1
  {
    SearchFailSoft(c, -beta, -alpha, t, kv);
    var child := Search(c, -beta, -alpha, t);
    if -child.score < beta {
      NextGo(n, alpha, beta, t, i, c, child.score, child.table, kv);
      NextGoTable(n, alpha, beta, t, i, c, child.score, child.table, kv);
    } else {
      NextCutEq(n, alpha, beta, t, i, c, child.score, child.table);
    }
  }

  /** NextChild when the child's score does not cut off: the loop goes on
      with alpha raised to it, and returns what the loop over this child and
      the rest returns. */
  lemma {:induction false} NextGo(n: Tree, alpha: Score, beta: Score, t: seq<Slot>, i: nat, c: Tree, cs: Score, ct: seq<Slot>, kv: Bitmap -> int)
    requires Good(n) && Solid(n, kv) && i < 7 && (n.moves as int) < BOARD_SIZE && !n.win
    requires InRange(alpha as int) && InRange(beta as int) && alpha < beta && TableOk(t)
    requires Upto(n, i) <= alpha as int && n.kids[i] == Some(c)
    requires cs == Search(c, -beta, -alpha, t).score && ct == Search(c, -beta, -alpha, t).table
    requires FailSoft(Value(c), -beta as int, -alpha as int, cs as int) && Sound(ct, kv) && -cs < beta
    ensures Next(n, alpha, beta, t, i).score >= beta ==> Best(n, i) >= Next(n, alpha, beta, t, i).score as int
    ensures Next(n, alpha, beta, t, i).score < beta ==> Next(n, alpha, beta, t, i).score as int == Max(alpha as int, Best(n, i))
    decreases n, 0, 7 - i, 0
  {
    var score := -cs;
    var a := if alpha > score then alpha else score;
    ChildStep(Value(c), alpha as int, beta as int, cs as int, a as int);
    NextGoEq(n, alpha, beta, t, i, c, cs, ct, a);
    NextFailSoft(n, a, beta, ct, i + 1, kv);
    var r := Next(n, a, beta, ct, i + 1).score;
    ChildRest(-Value(c), alpha as int, beta as int, score as int, a as int, Best(n, i + 1), r as int);
  }

  /** Next's unfolding over a present child that cuts off. */
  lemma NextCutEq(n: Tree, alpha: Score, beta: Score, t: seq<Slot>, i: nat, c: Tree, cs: Score, ct: seq<Slot>)
    requires Good(n) && i < 7
    requires InRange(alpha as int) && InRange(beta as int) && alpha < beta && TableOk(t)
    requires n.kids[i] == Some(c)
    requires cs == Search(c, -beta, -alpha, t).score && ct == Search(c, -beta, -alpha, t).table
    requires -cs >= beta
    ensures Next(n, alpha, beta, t, i) == Outcome(-cs, ct)
  {
  }

  /** Next's unfolding over a present child that does not cut off. */
  lemma NextGoEq(n: Tree, alpha: Score, beta: Score, t: seq<Slot>, i: nat, c: Tree, cs: Score, ct: seq<Slot>, a: Score)
    requires Good(n) && i < 7
    requires InRange(alpha as int) && InRange(beta as int) && alpha < beta && TableOk(t)
    requires n.kids[i] == Some(c)
    requires cs == Search(c, -beta, -alpha, t).score && ct == Search(c, -beta, -alpha, t).table
    requires -cs < beta && a == (if alpha > -cs then alpha else -cs)
    ensures Next(n, alpha, beta, t, i) == Next(n, a, beta, ct, i + 1)
  {
  }

  /** NextGo's table: the rest of the loop keeps it sound. */
  lemma {:induction false} NextGoTable(n: Tree, alpha: Score, beta: Score, t: seq<Slot>, i: nat, c: Tree, cs: Score, ct: seq<Slot>, kv: Bitmap -> int)
    requires Good(n) && Solid(n, kv) && i < 7 && (n.moves as int) < BOARD_SIZE && !n.win
    requires InRange(alpha as int) && InRange(beta as int) && alpha < beta && TableOk(t)
    requires Upto(n, i) <= alpha as int && n.kids[i] == Some(c)
    requires cs == Search(c, -beta, -alpha, t).score && ct == Search(c, -beta, -alpha, t).table
    requires FailSoft(Value(c), -beta as int, -alpha as int, cs as int) && Sound(ct, kv) && -cs < beta
    ensures Sound(Next(n, alpha, beta, t, i).table, kv)
    decreases n, 0, 7 - i, 0
  {
    var score := -cs;
    var a := if alpha > score then alpha else score;
    ChildStep(Value(c), alpha as int, beta as int, cs as int, a as int);
    NextGoEq(n, alpha, beta, t, i, c, cs, ct, a);
    NextFailSoft(n, a, beta, ct, i + 1, kv);
  }

  /** A child's fail-soft score, negated, raises alpha to at least the
      child's negated value, or cuts off. */
  lemma ChildStep(v: int, alpha: int, beta: int, s: int, a: int)
    requires FailSoft(v, -beta, -alpha, s) && -s < beta && a == Max(alpha, -s)
    ensures -v <= a
    ensures Max(alpha, -v) == a || (-v <= alpha && -s <= alpha)
  {
  }

  /** The rest of the loop, run with alpha raised to a, returns what the
      loop over this child and the rest returns. */
  lemma ChildRest(w: int, alpha: int, beta: int, score: int, a: int, b: int, r: int)
    requires w <= a && a == Max(alpha, score) && score < beta
    requires Max(alpha, w) == a || (w <= alpha && score <= alpha)
    requires r >= beta ==> b >= r
    requires r < beta ==> r == Max(a, b)
    ensures r >= beta ==> Max(w, b) >= r
    ensures r < beta ==> r == Max(alpha, Max(w, b))
  {
  }

  /** The loop of `solve` with the window (min, max) inside the first
      window (min0, max0): a raised min is a lower bound of the value, a
      lowered max an upper bound. Its result is a fail-soft result for the
      first window, and the table stays sound. */
  lemma {:induction false} SolveFailSoft(n: Tree, min0: Score, max0: Score, min: Score, max: Score, t: seq<Slot>, kv: Bitmap -> int)
    requires Good(n) && Solid(n, kv) && InRange(min as int) && InRange(max as int) && TableOk(t) && Sound(t, kv)
    requires min0 < max0 && min0 <= min && max <= max0
    requires min > min0 ==> Value(n) >= min as int
    requires max < max0 ==> Value(n) <= max as int
    ensures FailSoft(Value(n), min0 as int, max0 as int, SolveLoop(n, min, max, t).min as int)
    ensures Sound(SolveLoop(n, min, max, t).table, kv)
    decreases max as int - min as int, 1
  {
    if min < max {
      var med := Probe(min, max);
      ProbeInWindow(min, max);
      var o := Search(n, med, med + 1, t);
      SolveStep(n, min, max, t, o.score, o.table);
      SolveRound(n, min0, max0, min, max, med, t, o.score, o.table, kv);
    }
  }

  /** SolveFailSoft after one probe med with result s and table t1. */
  lemma {:induction false} SolveRound(n: Tree, min0: Score, max0: Score, min: Score, max: Score, med: Score, t: seq<Slot>, s: Score, t1: seq<Slot>, kv: Bitmap -> int)
    requires Good(n) && Solid(n, kv) && InRange(min as int) && InRange(max as int)
    requires TableOk(t) && Sound(t, kv)
    requires min0 < max0 && min0 <= min && max <= max0 && min <= med < max
    requires min > min0 ==> Value(n) >= min as int
    requires max < max0 ==> Value(n) <= max as int
    requires s == Search(n, med, med + 1, t).score && t1 == Search(n, med, med + 1, t).table
    ensures s <= med ==> FailSoft(Value(n), min0 as int, max0 as int, SolveLoop(n, min, s, t1).min as int)
    ensures s <= med ==> Sound(SolveLoop(n, min, s, t1).table, kv)
    ensures s > med ==> FailSoft(Value(n), min0 as int, max0 as int, SolveLoop(n, s, max, t1).min as int)
    ensures s > med ==> Sound(SolveLoop(n, s, max, t1).table, kv)
    decreases max as int - min as int, 0
  {
    SearchFailSoft(n, med, med + 1, t, kv);
    if s <= med {
      SolveFailSoft(n, min0, max0, min, s, t1, kv);
    } else {
      SolveFailSoft(n, min0, max0, s, max, t1, kv);
    }
  }

  /** `solve` over a window holding the value returns the value. */
  lemma SolveExact(n: Tree, min: Score, max: Score, t: seq<Slot>, kv: Bitmap -> int)
    requires Good(n) && Solid(n, kv) && InRange(min as int) && InRange(max as int) && TableOk(t) && Sound(t, kv)
    requires min < max && min as int <= Value(n) <= max as int
    ensures SolveLoop(n, min, max, t).min as int == Value(n)
    ensures Sound(SolveLoop(n, min, max, t).table, kv)
  {
    SolveFailSoft(n, min, max, min, max, t, kv);
  }

  /** With the strong window, `solve` returns the game value. */
  lemma StrongValue(n: Tree, t: seq<Slot>, kv: Bitmap -> int)
    requires Good(n) && Solid(n, kv) && TableOk(t) && Sound(t, kv)
    ensures SolveLoop(n, MIN_SCORE, MAX_SCORE, t).min as int == Value(n)
    ensures Sound(SolveLoop(n, MIN_SCORE, MAX_SCORE, t).table, kv)
  {
    ValueBounds(n, kv);
    SolveExact(n, MIN_SCORE, MAX_SCORE, t, kv);
  }

  /** With the weak window (-1, 1), `solve` returns a score of the game
      value's sign: negative for a loss, 0 for a draw, positive for a win. */
  lemma WeakSign(n: Tree, t: seq<Slot>, kv: Bitmap -> int)
    requires Good(n) && Solid(n, kv) && TableOk(t) && Sound(t, kv)
    ensures SolveLoop(n, -1, 1, t).min < 0 <==> Value(n) < 0
    ensures SolveLoop(n, -1, 1, t).min == 0 <==> Value(n) == 0
    ensures SolveLoop(n, -1, 1, t).min > 0 <==> Value(n) > 0
    ensures Sound(SolveLoop(n, -1, 1, t).table, kv)
  {
    SolveFailSoft(n, -1, 1, -1, 1, t, kv);
  }

  /** The weak result is not clamped to -1 .. 1: an immediate win returns
      its full score `(MAX_SCORE - moves) / 2`, since the first probe is 0
      and its result becomes min, which already reaches max. */
  lemma WeakWin(n: Tree, t: seq<Slot>)
    requires Good(n) && TableOk(t) && (n.moves as int) < BOARD_SIZE && n.win
    ensures SolveLoop(n, -1, 1, t).min == WinScore(n.moves) >= 1
  {
    assert Probe(-1, 1) == 0;
    ImmediateWin(n, 0, 1, t);
    SolveStep(n, -1, 1, t, WinScore(n.moves), t);
  }

  // ---------------------------------------------------------------------
  // Evaluator

  /** The outer window `Evaluator::new` picks for a strength. */
  function Window(strength: Strength): (w: (Score, Score))
    ensures InRange(w.0 as int) && InRange(w.1 as int) && w.0 < w.1
  {
    match strength
    case Strong => (MIN_SCORE, MAX_SCORE)
    case Weak => (-1, 1)
  }

  /** The strong window is the whole score range, -43 .. 43. */
  lemma StrongWindow()
    ensures Window(Strong) == (-43, 43)
  {
  }

  class Evaluator {
    const t: TTable
    const strength: Strength
    const gmin: Score
    const gmax: Score

    ghost predicate Valid()
      reads this, t, t.slots
    {
      t.Valid() && TableOk(t.view) && Sound(t.view, KeyValue) && (gmin, gmax) == Window(strength)
    }

    /** `Evaluator::new`: a fresh cleared table and the strength's window. */
    constructor (strength: Strength)
      ensures Valid() && this.strength == strength && fresh(t) && fresh(t.slots)
      ensures Cleared(t.view)
    {
      var table := new TTable();
      ClearedBounded(table.view, 0, STORED_MAX);
      ClearedSound(table.view, KeyValue);
      t := table;
      this.strength := strength;
      gmin := Window(strength).0;
      gmax := Window(strength).1;
    }

    /** `reset`: clears the table and nothing else. */
    method Reset()
      requires Valid()
      modifies t, t.slots
      ensures Valid() && Cleared(t.view)
    {
      t.Reset();
      ClearedBounded(t.view, 0, STORED_MAX);
      ClearedSound(t.view, KeyValue);
    }

    /** `eval`: `solve` over the evaluator's window with its table. The
        strong evaluator returns the game value of g; the weak one a score
        of the same sign; both a fail-soft result for their window. */
    method Eval(g: Pos) returns (r: Score)
      requires Valid() && g.Valid()
      modifies t, t.slots
      ensures Valid()
      ensures r == SolveLoop(TreeOf(g), gmin, gmax, old(t.view)).min
      ensures t.view == SolveLoop(TreeOf(g), gmin, gmax, old(t.view)).table
      ensures FailSoft(Value(TreeOf(g)), gmin as int, gmax as int, r as int)
      ensures strength == Strong ==> r as int == Value(TreeOf(g))
      ensures strength == Weak ==> (r < 0 <==> Value(TreeOf(g)) < 0) && (r == 0 <==> Value(TreeOf(g)) == 0)
      ensures strength == Weak ==> (r > 0 <==> Value(TreeOf(g)) > 0)
    {
      ghost var t0 := t.view;
      TreeOfModels(g);
      TreeSolid(g);
      SolveFailSoft(TreeOf(g), gmin, gmax, gmin, gmax, t0, KeyValue);
      if strength == Strong {
        StrongValue(TreeOf(g), t0, KeyValue);
      } else {
        WeakSign(TreeOf(g), t0, KeyValue);
      }
      r := Solve(g, gmin, gmax, t, TreeOf(g));
    }
  }
}
