/** The board engine: a game whose three parallel grids (mine counts,
    revealed cells, flags) are updated in place by reveal and flag actions,
    with lazy mine placement and the save-file decision. */
module Minesweeper {
  import opened Grid
  import opened Optional

  /** The saved form of a game: every field of the engine plus the time of
      the save ("YYYY-MM-DD_HH-MM-SS"). The mine positions are kept as a set,
      which is what loading turns the saved list back into. */
  datatype GameRecord = GameRecord(
    width: nat, height: nat, mines: nat,
    board: seq<seq<int>>, revealed: seq<seq<bool>>, flagged: seq<seq<bool>>,
    gameOver: bool, firstMove: bool, minePositions: set<Pos>,
    timestamp: string)

  /** The number of mines among the neighbours of (x, y). */
  function MineCount(w: int, h: int, mines: set<Pos>, x: int, y: int): nat {
    CountIn(Adjacent(w, h, x, y), mines)
  }

  /** The board holds -1 on every mine and, everywhere else, the number of
      mines among the cell's neighbours. */
  ghost predicate Seeded(w: int, h: int, board: seq<seq<int>>, mines: set<Pos>)
    requires IsGrid(board, w, h)
  {
    && (forall p :: p in mines ==> InBounds(w, h, p))
    && (forall y, x {:trigger board[y][x]} :: 0 <= y < h && 0 <= x < w ==>
          (board[y][x] == -1 <==> (x, y) in mines) && board[y][x] >= -1)
    && (forall y, x {:trigger MineCount(w, h, mines, x, y)} :: 0 <= y < h && 0 <= x < w && (x, y) !in mines ==>
          board[y][x] == MineCount(w, h, mines, x, y))
  }

  /** The seeded board is determined by the mine set alone, so the order in
      which the mines were counted in does not matter. */
  lemma SeededUnique(w: int, h: int, b1: seq<seq<int>>, b2: seq<seq<int>>, mines: set<Pos>)
    requires IsGrid(b1, w, h) && IsGrid(b2, w, h)
    requires Seeded(w, h, b1, mines) && Seeded(w, h, b2, mines)
    ensures b1 == b2
  {
    forall y | 0 <= y < h
      ensures b1[y] == b2[y]
    {
      forall x | 0 <= x < w
        ensures b1[y][x] == b2[y][x]
      {
        if (x, y) !in mines {
          assert b1[y][x] == MineCount(w, h, mines, x, y);
        }
      }
    }
  }

  /** The state invariant of a game: three w-by-h grids, no cell both
      flagged and revealed, an untouched all-zero board before the first
      reveal and a board seeded with exactly `mines` mines after it. */
  ghost predicate Consistent(w: nat, h: nat, mines: nat, board: seq<seq<int>>,
                             revealed: seq<seq<bool>>, flagged: seq<seq<bool>>,
                             firstMove: bool, minePositions: set<Pos>)
  {
    && IsGrid(board, w, h) && IsGrid(revealed, w, h) && IsGrid(flagged, w, h)
    && (forall y, x {:trigger revealed[y][x]} :: 0 <= y < h && 0 <= x < w ==> !(revealed[y][x] && flagged[y][x]))
    && (firstMove ==>
          && board == Fill(w, h, 0) && minePositions == {}
          && forall y, x {:trigger revealed[y][x]} :: 0 <= y < h && 0 <= x < w ==> !revealed[y][x])
    && (!firstMove ==> Seeded(w, h, board, minePositions) && |minePositions| == mines)
  }

  /** A record that a consistent game produced. */
  ghost predicate WellFormed(r: GameRecord) {
    Consistent(r.width, r.height, r.mines, r.board, r.revealed, r.flagged, r.firstMove, r.minePositions)
  }

  /** Every cell that is not a mine is revealed; flags play no part. */
  ghost predicate AllSafeRevealed(w: int, h: int, board: seq<seq<int>>, revealed: seq<seq<bool>>)
    requires IsGrid(board, w, h) && IsGrid(revealed, w, h)
  {
    forall y, x {:trigger revealed[y][x]} :: 0 <= y < h && 0 <= x < w && board[y][x] != -1 ==> revealed[y][x]
  }

  /** Some mine cell is revealed in `after` that was not in `before`. */
  ghost predicate MineRevealedSince(w: int, h: int, board: seq<seq<int>>,
                                    before: seq<seq<bool>>, after: seq<seq<bool>>)
    requires IsGrid(board, w, h) && IsGrid(before, w, h) && IsGrid(after, w, h)
  {
    exists y, x {:trigger after[y][x]} :: 0 <= y < h && 0 <= x < w && !before[y][x] && after[y][x] && board[y][x] == -1
  }

  /** Once every safe cell is revealed, revealing more keeps it so. */
  lemma WonStaysWon(w: int, h: int, board: seq<seq<int>>, a: seq<seq<bool>>, b: seq<seq<bool>>)
    requires IsGrid(board, w, h) && IsGrid(a, w, h) && IsGrid(b, w, h)
    requires Grows(w, h, a, b) && AllSafeRevealed(w, h, board, a)
    ensures AllSafeRevealed(w, h, board, b)
  {
  }

  /** The saves made by a reveal, as a change of the store from (cp, ar) to
      (cp', ar'): when the reveal changed the revealed grid and left the game
      finished, no checkpoint is left and the archive holds `last`, the final
      state, under `now`; otherwise the store is as it was. */
  ghost predicate Saved(cp': Option<GameRecord>, ar': map<string, GameRecord>,
                        cp: Option<GameRecord>, ar: map<string, GameRecord>,
                        changed: bool, finished: bool, last: GameRecord, now: string)
  {
    if changed && finished then cp' == None && ar' == ar[now := last] else cp' == cp && ar' == ar
  }

  /** Two reveals in a row, the second of which changed something, save as
      one would, provided a game finished after the first is still finished
      after the second: a later save under `now` overwrites an earlier one. */
  lemma SavedThen(cp0: Option<GameRecord>, ar0: map<string, GameRecord>,
                  cp1: Option<GameRecord>, ar1: map<string, GameRecord>,
                  cp2: Option<GameRecord>, ar2: map<string, GameRecord>,
                  c1: bool, f1: bool, s1: GameRecord, f2: bool, s2: GameRecord, now: string)
    requires Saved(cp1, ar1, cp0, ar0, c1, f1, s1, now)
    requires Saved(cp2, ar2, cp1, ar1, true, f2, s2, now)
    requires c1 && f1 ==> f2
    ensures Saved(cp2, ar2, cp0, ar0, true, f2, s2, now)
  {
    if f2 && c1 && f1 {
      assert ar0[now := s1][now := s2] == ar0[now := s2];
    }
  }

  /** Growing a revealed grid in two steps reveals a new mine exactly when
      one of the steps does. */
  lemma MineRevealedThen(w: int, h: int, board: seq<seq<int>>, a: seq<seq<bool>>, b: seq<seq<bool>>, c: seq<seq<bool>>)
    requires IsGrid(board, w, h) && IsGrid(a, w, h) && IsGrid(b, w, h) && IsGrid(c, w, h)
    requires Grows(w, h, a, b) && Grows(w, h, b, c)
    ensures Grows(w, h, a, c)
    ensures MineRevealedSince(w, h, board, a, c) <==>
      MineRevealedSince(w, h, board, a, b) || MineRevealedSince(w, h, board, b, c)
  {
    if MineRevealedSince(w, h, board, a, c) {
      var y, x :| 0 <= y < h && 0 <= x < w && !a[y][x] && c[y][x] && board[y][x] == -1;
      if !b[y][x] {
        assert MineRevealedSince(w, h, board, b, c);
      } else {
        assert MineRevealedSince(w, h, board, a, b);
      }
    }
    if MineRevealedSince(w, h, board, a, b) {
      var y, x :| 0 <= y < h && 0 <= x < w && !a[y][x] && b[y][x] && board[y][x] == -1;
      assert c[y][x];
    }
    if MineRevealedSince(w, h, board, b, c) {
      var y, x :| 0 <= y < h && 0 <= x < w && !b[y][x] && c[y][x] && board[y][x] == -1;
      assert !a[y][x];
    }
  }

  /** Revealing one unrevealed cell grows the grid, and reveals a new mine
      exactly when that cell is one. */
  lemma RevealOne(w: int, h: int, board: seq<seq<int>>, a: seq<seq<bool>>, x: int, y: int)
    requires IsGrid(board, w, h) && IsGrid(a, w, h) && InBounds(w, h, (x, y)) && !a[y][x]
    ensures IsGrid(Update(a, x, y, true), w, h) && Grows(w, h, a, Update(a, x, y, true))
    ensures MineRevealedSince(w, h, board, a, Update(a, x, y, true)) <==> board[y][x] == -1
    ensures forall p :: Opened(w, h, a, Update(a, x, y, true), p) ==> p == (x, y)
    ensures forall q :: NewZero(w, h, board, a, Update(a, x, y, true), q) ==> q == (x, y)
  {
    var b := Update(a, x, y, true);
    if MineRevealedSince(w, h, board, a, b) {
      var j, i :| 0 <= j < h && 0 <= i < w && !a[j][i] && b[j][i] && board[j][i] == -1;
      assert (i, j) == (x, y);
    }
    if board[y][x] == -1 {
      assert !a[y][x] && b[y][x];
    }
  }

  /** Every listed neighbour is on the board. */
  lemma AdjacentInBounds(w: int, h: int, x: int, y: int)
    ensures forall k :: 0 <= k < |Adjacent(w, h, x, y)| ==> InBounds(w, h, Adjacent(w, h, x, y)[k])
  {
    AdjacentSpec(w, h, x, y);
    forall k | 0 <= k < |Adjacent(w, h, x, y)|
      ensures InBounds(w, h, Adjacent(w, h, x, y)[k])
    {
      assert Adjacent(w, h, x, y)[k] in Adjacent(w, h, x, y);
    }
  }

  /** No neighbour of a cell that counts zero mines is a mine. */
  lemma ZeroNeighboursSafe(w: int, h: int, board: seq<seq<int>>, mines: set<Pos>, x: int, y: int)
    requires IsGrid(board, w, h) && Seeded(w, h, board, mines)
    requires InBounds(w, h, (x, y)) && board[y][x] == 0
    ensures forall k :: 0 <= k < |Adjacent(w, h, x, y)| ==>
      var p := Adjacent(w, h, x, y)[k]; InBounds(w, h, p) && board[p.1][p.0] != -1
  {
    var adj := Adjacent(w, h, x, y);
    AdjacentInBounds(w, h, x, y);
    assert board[y][x] == MineCount(w, h, mines, x, y);
    CountInZero(adj, mines);
    forall k | 0 <= k < |adj|
      ensures board[adj[k].1][adj[k].0] != -1
    {
      assert adj[k] in adj;
      assert (adj[k].0, adj[k].1) == adj[k];
    }
  }

  /** The first n cells of s are on the board and revealed or flagged. */
  ghost predicate Covered(w: int, h: int, revealed: seq<seq<bool>>, flagged: seq<seq<bool>>, s: seq<Pos>, n: int)
    requires IsGrid(revealed, w, h) && IsGrid(flagged, w, h)
  {
    && 0 <= n <= |s|
    && forall k :: 0 <= k < n ==>
         InBounds(w, h, s[k]) && (revealed[s[k].1][s[k].0] || flagged[s[k].1][s[k].0])
  }

  /** Covered cells stay covered while the revealed grid grows, and one more
      covered cell extends the prefix. */
  lemma CoveredStep(w: int, h: int, before: seq<seq<bool>>, after: seq<seq<bool>>, flagged: seq<seq<bool>>, s: seq<Pos>, n: int)
    requires IsGrid(before, w, h) && IsGrid(after, w, h) && IsGrid(flagged, w, h)
    requires Covered(w, h, before, flagged, s, n) && Grows(w, h, before, after)
    requires n < |s| && InBounds(w, h, s[n]) && (after[s[n].1][s[n].0] || flagged[s[n].1][s[n].0])
    ensures Covered(w, h, after, flagged, s, n + 1)
  {
  }

  /** Once all the neighbours of (x, y) are covered, every cell touching it is. */
  lemma CoveredNeighbours(w: int, h: int, revealed: seq<seq<bool>>, flagged: seq<seq<bool>>, x: int, y: int)
    requires IsGrid(revealed, w, h) && IsGrid(flagged, w, h)
    requires Covered(w, h, revealed, flagged, Adjacent(w, h, x, y), |Adjacent(w, h, x, y)|)
    ensures NeighboursCovered(w, h, revealed, flagged, x, y)
  {
    var adj := Adjacent(w, h, x, y);
    AdjacentSpec(w, h, x, y);
    forall p | InBounds(w, h, p) && Touches(p, (x, y))
      ensures revealed[p.1][p.0] || flagged[p.1][p.0]
    {
      assert p in adj;
      var k :| 0 <= k < |adj| && adj[k] == p;
    }
  }

  /** Every cell touching (x, y) on the board is revealed or flagged. */
  ghost predicate NeighboursCovered(w: int, h: int, revealed: seq<seq<bool>>, flagged: seq<seq<bool>>, x: int, y: int)
    requires IsGrid(revealed, w, h) && IsGrid(flagged, w, h)
  {
    forall p {:trigger Touches(p, (x, y))} :: InBounds(w, h, p) && Touches(p, (x, y)) ==>
      revealed[p.1][p.0] || flagged[p.1][p.0]
  }

  /** p is a cell hidden in `before` and revealed in `after`. */
  ghost predicate Opened(w: int, h: int, before: seq<seq<bool>>, after: seq<seq<bool>>, p: Pos)
    requires IsGrid(before, w, h) && IsGrid(after, w, h)
  {
    InBounds(w, h, p) && !before[p.1][p.0] && after[p.1][p.0]
  }

  /** q is a zero cell hidden in `before` and revealed in `after`. */
  ghost predicate NewZero(w: int, h: int, board: seq<seq<int>>, before: seq<seq<bool>>, after: seq<seq<bool>>, q: Pos)
    requires IsGrid(board, w, h) && IsGrid(before, w, h) && IsGrid(after, w, h)
  {
    InBounds(w, h, q) && !before[q.1][q.0] && after[q.1][q.0] && board[q.1][q.0] == 0
  }

  /** The flood went all the way: every zero cell revealed since `before`
      has every touching cell revealed or flagged. */
  ghost predicate FloodClosed(w: int, h: int, board: seq<seq<int>>, flagged: seq<seq<bool>>,
                              before: seq<seq<bool>>, after: seq<seq<bool>>)
    requires IsGrid(board, w, h) && IsGrid(flagged, w, h) && IsGrid(before, w, h) && IsGrid(after, w, h)
  {
    forall q {:trigger NewZero(w, h, board, before, after, q)} ::
      NewZero(w, h, board, before, after, q) ==> NeighboursCovered(w, h, after, flagged, q.0, q.1)
  }

  /** The flood went no further than it should: every cell revealed since
      `before` is one of the `direct` cells or touches a zero cell that was
      also revealed since `before`. */
  ghost predicate Spread(w: int, h: int, board: seq<seq<int>>, before: seq<seq<bool>>, after: seq<seq<bool>>, direct: seq<Pos>)
    requires IsGrid(board, w, h) && IsGrid(before, w, h) && IsGrid(after, w, h)
  {
    forall p {:trigger Opened(w, h, before, after, p)} :: Opened(w, h, before, after, p) ==>
      p in direct || exists q :: NewZero(w, h, board, before, after, q) && Touches(q, p)
  }

  /** A chord over the neighbour list `adj` that stopped at its k-th entry:
      that neighbour is a mine just revealed, every earlier neighbour is
      revealed or flagged, no later neighbour was revealed except by the
      flood of an earlier one, and no other mine was revealed. */
  ghost predicate StoppedAt(w: int, h: int, board: seq<seq<int>>, flagged: seq<seq<bool>>,
                            before: seq<seq<bool>>, after: seq<seq<bool>>, adj: seq<Pos>, k: int)
    requires IsGrid(board, w, h) && IsGrid(flagged, w, h) && IsGrid(before, w, h) && IsGrid(after, w, h)
  {
    && 0 <= k < |adj| && InBounds(w, h, adj[k])
    && board[adj[k].1][adj[k].0] == -1 && !before[adj[k].1][adj[k].0] && after[adj[k].1][adj[k].0]
    && Covered(w, h, after, flagged, adj, k)
    && Spread(w, h, board, before, after, adj[..k + 1])
    && forall p {:trigger Opened(w, h, before, after, p)} ::
         Opened(w, h, before, after, p) && board[p.1][p.0] == -1 ==> p == adj[k]
  }

  /** Covered neighbours stay covered while the revealed grid grows. */
  lemma NeighboursCoveredGrows(w: int, h: int, flagged: seq<seq<bool>>, a: seq<seq<bool>>, b: seq<seq<bool>>, x: int, y: int)
    requires IsGrid(flagged, w, h) && IsGrid(a, w, h) && IsGrid(b, w, h)
    requires Grows(w, h, a, b) && NeighboursCovered(w, h, a, flagged, x, y)
    ensures NeighboursCovered(w, h, b, flagged, x, y)
  {
    forall p | InBounds(w, h, p) && Touches(p, (x, y))
      ensures b[p.1][p.0] || flagged[p.1][p.0]
    {
      assert a[p.1][p.0] || flagged[p.1][p.0];
    }
  }

  /** Two complete floods in a row make one complete flood. */
  lemma FloodThen(w: int, h: int, board: seq<seq<int>>, flagged: seq<seq<bool>>,
                  a: seq<seq<bool>>, b: seq<seq<bool>>, c: seq<seq<bool>>)
    requires IsGrid(board, w, h) && IsGrid(flagged, w, h) && IsGrid(a, w, h) && IsGrid(b, w, h) && IsGrid(c, w, h)
    requires Grows(w, h, a, b) && Grows(w, h, b, c)
    requires FloodClosed(w, h, board, flagged, a, b) && FloodClosed(w, h, board, flagged, b, c)
    ensures FloodClosed(w, h, board, flagged, a, c)
  {
    forall q | NewZero(w, h, board, a, c, q)
      ensures NeighboursCovered(w, h, c, flagged, q.0, q.1)
    {
      if b[q.1][q.0] {
        assert NewZero(w, h, board, a, b, q);
        NeighboursCoveredGrows(w, h, flagged, b, c, q.0, q.1);
      } else {
        assert NewZero(w, h, board, b, c, q);
      }
    }
  }

  /** Two reveals in a row reveal directly only what either did. */
  lemma SpreadThen(w: int, h: int, board: seq<seq<int>>, a: seq<seq<bool>>, b: seq<seq<bool>>, c: seq<seq<bool>>,
                   d1: seq<Pos>, d2: seq<Pos>)
    requires IsGrid(board, w, h) && IsGrid(a, w, h) && IsGrid(b, w, h) && IsGrid(c, w, h)
    requires Grows(w, h, a, b) && Grows(w, h, b, c)
    requires Spread(w, h, board, a, b, d1) && Spread(w, h, board, b, c, d2)
    ensures Spread(w, h, board, a, c, d1 + d2)
  {
    forall p | Opened(w, h, a, c, p)
      ensures p in d1 + d2 || exists q :: NewZero(w, h, board, a, c, q) && Touches(q, p)
    {
      if b[p.1][p.0] {
        assert Opened(w, h, a, b, p);
        if p !in d1 {
          var q :| NewZero(w, h, board, a, b, q) && Touches(q, p);
          assert NewZero(w, h, board, a, c, q);
        }
      } else {
        assert Opened(w, h, b, c, p);
        if p !in d2 {
          var q :| NewZero(w, h, board, b, c, q) && Touches(q, p);
          assert NewZero(w, h, board, a, c, q);
        }
      }
    }
  }

  /** Allowing more direct cells keeps a bound on the spread. */
  lemma SpreadWider(w: int, h: int, board: seq<seq<int>>, a: seq<seq<bool>>, c: seq<seq<bool>>, d: seq<Pos>, e: seq<Pos>)
    requires IsGrid(board, w, h) && IsGrid(a, w, h) && IsGrid(c, w, h)
    requires Spread(w, h, board, a, c, d) && forall p :: p in d ==> p in e
    ensures Spread(w, h, board, a, c, e)
  {
    forall r | Opened(w, h, a, c, r)
      ensures r in e || exists q :: NewZero(w, h, board, a, c, q) && Touches(q, r)
    {
    }
  }

  /** Revealing the zero cell (x, y) and then flooding its neighbours
      completely, and no further than their own floods, is a complete flood
      from (x, y) that reveals directly only (x, y). */
  lemma FloodFromZero(w: int, h: int, board: seq<seq<int>>, flagged: seq<seq<bool>>,
                      a: seq<seq<bool>>, c: seq<seq<bool>>, x: int, y: int)
    requires IsGrid(board, w, h) && IsGrid(flagged, w, h) && IsGrid(a, w, h) && IsGrid(c, w, h)
    requires InBounds(w, h, (x, y)) && !a[y][x] && board[y][x] == 0
    requires IsGrid(Update(a, x, y, true), w, h) && Grows(w, h, Update(a, x, y, true), c)
    requires FloodClosed(w, h, board, flagged, Update(a, x, y, true), c)
    requires Spread(w, h, board, Update(a, x, y, true), c, Adjacent(w, h, x, y))
    requires NeighboursCovered(w, h, c, flagged, x, y)
    ensures Grows(w, h, a, c)
    ensures FloodClosed(w, h, board, flagged, a, c)
    ensures Spread(w, h, board, a, c, [(x, y)])
  {
    var b := Update(a, x, y, true);
    RevealOne(w, h, board, a, x, y);
    assert NewZero(w, h, board, a, c, (x, y));
    forall q | NewZero(w, h, board, a, c, q)
      ensures NeighboursCovered(w, h, c, flagged, q.0, q.1)
    {
      if q != (x, y) {
        assert NewZero(w, h, board, b, c, q);
      }
    }
    AdjacentSpec(w, h, x, y);
    forall p | Opened(w, h, a, c, p)
      ensures p in [(x, y)] || exists q :: NewZero(w, h, board, a, c, q) && Touches(q, p)
    {
      if p != (x, y) {
        assert Opened(w, h, b, c, p);
        if p in Adjacent(w, h, x, y) {
          assert Touches((x, y), p);
        } else {
          var q :| NewZero(w, h, board, b, c, q) && Touches(q, p);
          assert NewZero(w, h, board, a, c, q);
        }
      }
    }
  }

  /** One step of a loop over the neighbour list adj that reveals adj[i]
      (with its flood) or skips it, going from b to c: the loop's facts about
      everything revealed since a carry over to the longer prefix. */
  lemma FloodStep(w: int, h: int, board: seq<seq<int>>, flagged: seq<seq<bool>>,
                  a: seq<seq<bool>>, b: seq<seq<bool>>, c: seq<seq<bool>>, adj: seq<Pos>, i: int)
    requires IsGrid(board, w, h) && IsGrid(flagged, w, h) && IsGrid(a, w, h) && IsGrid(b, w, h) && IsGrid(c, w, h)
    requires 0 <= i < |adj| && InBounds(w, h, adj[i])
    requires Grows(w, h, a, b) && Grows(w, h, b, c)
    requires Covered(w, h, b, flagged, adj, i) && Spread(w, h, board, a, b, adj[..i]) && FloodClosed(w, h, board, flagged, a, b)
    requires Spread(w, h, board, b, c, [adj[i]]) && FloodClosed(w, h, board, flagged, b, c)
    requires c[adj[i].1][adj[i].0] || flagged[adj[i].1][adj[i].0]
    ensures Grows(w, h, a, c) && Covered(w, h, c, flagged, adj, i + 1)
    ensures Spread(w, h, board, a, c, adj[..i + 1]) && FloodClosed(w, h, board, flagged, a, c)
    ensures MineRevealedSince(w, h, board, a, c) <==>
      MineRevealedSince(w, h, board, a, b) || MineRevealedSince(w, h, board, b, c)
  {
    MineRevealedThen(w, h, board, a, b, c);
    CoveredStep(w, h, b, c, flagged, adj, i);
    SpreadThen(w, h, board, a, b, c, adj[..i], [adj[i]]);
    assert adj[..i] + [adj[i]] == adj[..i + 1];
    FloodThen(w, h, board, flagged, a, b, c);
  }

  /** A chord whose i-th neighbour m turns out to be a mine stops there:
      the state after revealing m is a chord stopped at i. */
  lemma ChordStops(w: int, h: int, board: seq<seq<int>>, flagged: seq<seq<bool>>,
                   a: seq<seq<bool>>, b: seq<seq<bool>>, adj: seq<Pos>, i: int)
    requires IsGrid(board, w, h) && IsGrid(flagged, w, h) && IsGrid(a, w, h) && IsGrid(b, w, h)
    requires Grows(w, h, a, b) && !MineRevealedSince(w, h, board, a, b)
    requires 0 <= i < |adj| && InBounds(w, h, adj[i])
    requires Covered(w, h, b, flagged, adj, i) && Spread(w, h, board, a, b, adj[..i])
    requires !b[adj[i].1][adj[i].0] && board[adj[i].1][adj[i].0] == -1
    ensures IsGrid(Update(b, adj[i].0, adj[i].1, true), w, h)
    ensures StoppedAt(w, h, board, flagged, a, Update(b, adj[i].0, adj[i].1, true), adj, i)
  {
    var m := adj[i];
    var c := Update(b, m.0, m.1, true);
    RevealOne(w, h, board, b, m.0, m.1);
    assert (m.0, m.1) == m;
    SpreadThen(w, h, board, a, b, c, adj[..i], [m]);
    assert adj[..i] + [m] == adj[..i + 1];
    assert !a[m.1][m.0];
  }

  /** The saved-file state the engine writes to: the single in-progress
      checkpoint (saved_game.json) and the archive of finished games, one
      file per save timestamp (Saves/game_<timestamp>.json). */
  class Store {
    var checkpoint: Option<GameRecord>
    var archive: map<string, GameRecord>

    ghost predicate Valid()
      reads this
    {
      checkpoint.Some? ==> WellFormed(checkpoint.value)
    }
  }

  class Game {
    const width: nat
    const height: nat
    const mines: nat
    var board: seq<seq<int>>
    var revealed: seq<seq<bool>>
    var flagged: seq<seq<bool>>
    var gameOver: bool
    var firstMove: bool
    var minePositions: set<Pos>

    ghost predicate Valid()
      reads this
    {
      Consistent(width, height, mines, board, revealed, flagged, firstMove, minePositions)
    }

    /** A fresh game: an all-zero board, nothing revealed or flagged, and
        mines still to be placed. */
    constructor (width: nat, height: nat, mines: nat)
      ensures Valid()
      ensures this.width == width && this.height == height && this.mines == mines
      ensures board == Fill(width, height, 0)
      ensures revealed == Fill(width, height, false) && flagged == Fill(width, height, false)
      ensures !gameOver && firstMove && minePositions == {}
    {
      this.width := width;
      this.height := height;
      this.mines := mines;
      board := Fill(width, height, 0);
      revealed := Fill(width, height, false);
      flagged := Fill(width, height, false);
      gameOver := false;
      firstMove := true;
      minePositions := {};
    }

    /** The number of flagged neighbours of (x, y). */
    function CountAdjacentFlags(x: int, y: int): (n: nat)
      reads this`flagged
      requires IsGrid(flagged, width, height)
      ensures n <= 8
      ensures n == |set p | p in Adjacent(width, height, x, y) && p in Flags()|
    {
      AdjacentSpec(width, height, x, y);
      CountInIsCardinality(Adjacent(width, height, x, y), Flags());
      CountIn(Adjacent(width, height, x, y), Flags())
    }

    /** The flagged cells, as positions. */
    function Flags(): set<Pos>
      reads this`flagged
      requires IsGrid(flagged, width, height)
    {
      set x, y {:trigger flagged[y][x]} | 0 <= x < width && 0 <= y < height && flagged[y][x] :: (x, y)
    }

    /** The first click and its neighbours: no mine may go there. */
    function SafeZone(x: int, y: int): (r: set<Pos>)
      ensures |r| <= 9
    {
      ElementsSize(Adjacent(width, height, x, y));
      (set p | p in Adjacent(width, height, x, y)) + {(x, y)}
    }

    /** The cells a mine may be placed on when the first click is (x, y):
        every cell of the board but the safe zone. */
    function Candidates(x: int, y: int): (c: set<Pos>)
      ensures forall p :: p in c <==> InBounds(width, height, p) && p !in SafeZone(x, y)
    {
      Cells(width, height) - SafeZone(x, y)
    }

    /** The safe zone of a click is that cell and the cells touching it. */
    lemma SafeZoneMembers(x: int, y: int)
      ensures forall p :: p in SafeZone(x, y) <==> p == (x, y) || (InBounds(width, height, p) && Touches(p, (x, y)))
    {
      AdjacentSpec(width, height, x, y);
    }

    /** The safe zone of an in-bounds click, at most nine cells, lies on
        the board and leaves every other cell of it to the mines. */
    lemma CandidatesSize(x: int, y: int)
      requires InBounds(width, height, (x, y))
      ensures |Candidates(x, y)| == width * height - |SafeZone(x, y)| >= width * height - 9
    {
      SafeZoneMembers(x, y);
      var all, safe := Cells(width, height), SafeZone(x, y);
      assert all * safe == safe;
      assert Candidates(x, y) == all - safe;
    }

    /** Every game the menu offers (9x9 with 10 mines, 16x16 with 40,
        30x16 with 99) leaves room for its mines whatever the first click. */
    lemma MenuGamesFit(x: int, y: int)
      requires || (width == 9 && height == 9 && mines == 10)
               || (width == 16 && height == 16 && mines == 40)
               || (width == 30 && height == 16 && mines == 99)
      requires InBounds(width, height, (x, y))
      ensures mines <= width * height - |SafeZone(x, y)| == |Candidates(x, y)|
    {
      CandidatesSize(x, y);
      MenuGamesRoom(width, height, mines);
    }

    /** A snapshot of the whole game, as saved at time `now`. */
    function Snapshot(now: string): (r: GameRecord)
      reads this
      ensures Valid() ==> WellFormed(r)
    {
      GameRecord(width, height, mines, board, revealed, flagged, gameOver, firstMove, minePositions, now)
    }

    ghost predicate Won()
      reads this`board, this`revealed
      requires IsGrid(board, width, height) && IsGrid(revealed, width, height)
    {
      AllSafeRevealed(width, height, board, revealed)
    }

    /** Places the mines on a random choice of `mines` cells outside the
        safe zone of the first click, then counts every cell's mine
        neighbours. */
    method PlaceMines(firstX: int, firstY: int)
      requires board == Fill(width, height, 0)
      requires mines <= |Candidates(firstX, firstY)|
      modifies this`board, this`minePositions
      ensures IsGrid(board, width, height)
      ensures minePositions <= Candidates(firstX, firstY) && |minePositions| == mines
      ensures Seeded(width, height, board, minePositions)
    {
      SubsetOfSize(Candidates(firstX, firstY), mines);
      var chosen: set<Pos> :| chosen <= Candidates(firstX, firstY) && |chosen| == mines;
      minePositions := chosen;
      CountMines(chosen);
    }

    /** Starting from the all-zero board, sets each of the given mines and
        counts it into its neighbours, one mine at a time, so that the board
        ends up seeded with exactly those mines. */
    method CountMines(chosen: set<Pos>)
      requires board == Fill(width, height, 0)
      requires forall p :: p in chosen ==> InBounds(width, height, p)
      modifies this`board
      ensures IsGrid(board, width, height) && Seeded(width, height, board, chosen)
    {
      var todo := chosen;
      ghost var done: set<Pos> := {};
      ZeroBoardSeeded(width, height);
      while todo != {}
        invariant todo <= chosen && done == chosen - todo
        invariant IsGrid(board, width, height)
        invariant Seeded(width, height, board, done)
        decreases todo
      {
        var m :| m in todo;
        AddMine(m, done);
        todo := todo - {m};
        done := done + {m};
      }
      assert done == chosen;
    }

    /** Sets mine m on a board seeded with the mines in done and adds one
        to each of its neighbours that is not a mine. */
    method AddMine(m: Pos, ghost done: set<Pos>)
      requires IsGrid(board, width, height) && Seeded(width, height, board, done)
      requires InBounds(width, height, m) && m !in done
      modifies this`board
      ensures IsGrid(board, width, height) && Seeded(width, height, board, done + {m})
    {
      var (mx, my) := m;
      ghost var seeded := board;
      board := Update(board, mx, my, -1);
      var adj := Adjacent(width, height, mx, my);
      AdjacentInBounds(width, height, mx, my);
      CountingStarts(width, height, seeded, board, done, m);
      var i := 0;
      while i < |adj|
        invariant 0 <= i <= |adj|
        invariant IsGrid(board, width, height)
        invariant PartlyCounted(width, height, board, done, m, adj[..i])
      {
        var ax, ay := adj[i].0, adj[i].1;
        ghost var before := board;
        if board[ay][ax] != -1 {
          board := Update(board, ax, ay, board[ay][ax] + 1);
          CountingBumps(width, height, before, done, m, adj, i);
        } else {
          CountingSkips(width, height, board, done, m, adj, i);
        }
        i := i + 1;
      }
      assert adj[..i] == adj;
      CountingEnds(width, height, board, done, m);
    }

    /** Every non-mine cell is revealed; flags do not matter. */
    method CheckWin() returns (won: bool)
      requires IsGrid(board, width, height) && IsGrid(revealed, width, height)
      ensures won == Won()
    {
      var y := 0;
      while y < height
        invariant 0 <= y <= height
        invariant forall j, i :: 0 <= j < y && 0 <= i < width && board[j][i] != -1 ==> revealed[j][i]
      {
        var x := 0;
        while x < width
          invariant 0 <= x <= width
          invariant forall i :: 0 <= i < x && board[y][i] != -1 ==> revealed[y][i]
        {
          if board[y][x] != -1 && !revealed[y][x] {
            return false;
          }
          x := x + 1;
        }
        y := y + 1;
      }
      return true;
    }

    /** Flips the flag on (x, y) unless the cell is revealed. */
    method ToggleFlag(x: int, y: int)
      requires Valid() && InBounds(width, height, (x, y))
      modifies this`flagged
      ensures Valid()
      ensures old(revealed[y][x]) ==> flagged == old(flagged)
      ensures !old(revealed[y][x]) ==> flagged == Update(old(flagged), x, y, !old(flagged[y][x]))
    {
      if !revealed[y][x] {
        flagged := Update(flagged, x, y, !flagged[y][x]);
      }
    }

    /** What the saves made during one reveal leave behind, given the store
        (cp, ar) and the revealed grid from before it: when the reveal
        revealed something and left the game lost or won, the archive entry
        for `now` holds the final state and no checkpoint is left; otherwise
        the store is as it was. */
    ghost predicate SavedAfterReveal(store: Store, cp: Option<GameRecord>, ar: map<string, GameRecord>,
                                     before: seq<seq<bool>>, lost: bool, now: string)
      reads this, store
      requires IsGrid(board, width, height) && IsGrid(revealed, width, height)
    {
      Saved(store.checkpoint, store.archive, cp, ar, revealed != before, lost || Won(), Snapshot(now), now)
    }

    /** Reveals (x, y). The first reveal of a game places the mines, away
        from (x, y) and its neighbours. A revealed cell is chorded, a flagged
        one is left alone; otherwise the cell is uncovered. The result is
        false exactly when a mine was revealed. */
    method Reveal(x: int, y: int, store: Store, now: string) returns (ok: bool)
      requires Valid() && InBounds(width, height, (x, y))
      requires firstMove ==> mines <= width * height - |SafeZone(x, y)|
      modifies this`board, this`minePositions, this`firstMove, this`revealed, this`gameOver, store
      ensures Valid() && !firstMove
      ensures old(firstMove) ==> minePositions !! SafeZone(x, y) && ok
      ensures !old(firstMove) ==> board == old(board) && minePositions == old(minePositions)
      ensures Grows(width, height, old(revealed), revealed)
      ensures revealed[y][x] || flagged[y][x]
      ensures old(!revealed[y][x] && flagged[y][x]) ==> ok && revealed == old(revealed)
      ensures ok <==> !MineRevealedSince(width, height, board, old(revealed), revealed)
      ensures gameOver == (old(gameOver) || !ok)
      ensures old(!revealed[y][x]) && board[y][x] != -1 ==> ok
      ensures old(!revealed[y][x] && !flagged[y][x]) && board[y][x] == 0 ==> NeighboursCovered(width, height, revealed, flagged, x, y)
      ensures old(!revealed[y][x] && !flagged[y][x]) && board[y][x] != 0 ==> revealed == Update(old(revealed), x, y, true)
      ensures old(revealed[y][x]) && !(board[y][x] > 0 && CountAdjacentFlags(x, y) == board[y][x]) ==>
        ok && revealed == old(revealed)
      ensures old(revealed[y][x]) && ok && board[y][x] > 0 && CountAdjacentFlags(x, y) == board[y][x] ==> NeighboursCovered(width, height, revealed, flagged, x, y)
      ensures old(revealed[y][x]) && !ok ==>
        exists k :: StoppedAt(width, height, board, flagged, old(revealed), revealed, Adjacent(width, height, x, y), k)
      ensures Spread(width, height, board, old(revealed), revealed,
                     if old(revealed[y][x]) then Adjacent(width, height, x, y) else [(x, y)])
      ensures FloodClosed(width, height, board, flagged, old(revealed), revealed)
      ensures SavedAfterReveal(store, old(store.checkpoint), old(store.archive), old(revealed), !ok, now)
    {
      if firstMove {
        CandidatesSize(x, y);
        PlaceMines(x, y);
        firstMove := false;
      }
      if revealed[y][x] {
        ok := RevealAdjacentCells(x, y, store, now);
        return;
      }
      if flagged[y][x] {
        return true;
      }
      ok := Uncover(x, y, store, now);
    }

    /** The part of a reveal after the first move that acts on an
        unrevealed, unflagged cell: the cell is revealed; a mine ends and
        archives the game; a zero cascades to its neighbours; a win archives
        the game. */
    method Uncover(x: int, y: int, store: Store, now: string) returns (ok: bool)
      requires Valid() && !firstMove && InBounds(width, height, (x, y))
      requires !revealed[y][x] && !flagged[y][x]
      modifies this`revealed, this`gameOver, store
      decreases CountFalse(revealed), 0
      ensures Valid()
      ensures Grows(width, height, old(revealed), revealed) && revealed[y][x]
      ensures ok <==> board[y][x] != -1
      ensures ok <==> !MineRevealedSince(width, height, board, old(revealed), revealed)
      ensures gameOver == (old(gameOver) || !ok)
      ensures board[y][x] == 0 ==> NeighboursCovered(width, height, revealed, flagged, x, y)
      ensures board[y][x] != 0 ==> revealed == Update(old(revealed), x, y, true)
      ensures Spread(width, height, board, old(revealed), revealed, [(x, y)])
      ensures FloodClosed(width, height, board, flagged, old(revealed), revealed)
      ensures Saved(store.checkpoint, store.archive, old(store.checkpoint), old(store.archive), true, !ok || Won(), Snapshot(now), now)
    {
      RevealOne(width, height, board, revealed, x, y);
      revealed := Update(revealed, x, y, true);
      if board[y][x] == -1 {
        gameOver := true;
        SaveGame(store, now);
        return false;
      }
      ghost var mid, cp, ar := revealed, store.checkpoint, store.archive;
      if board[y][x] == 0 {
        CountFalseGrows(width, height, old(revealed), revealed);
        Cascade(x, y, store, now);
        MineRevealedThen(width, height, board, old(revealed), mid, revealed);
        FloodFromZero(width, height, board, flagged, old(revealed), revealed, x, y);
      }
      ghost var cp1, ar1 := store.checkpoint, store.archive;
      var won := CheckWin();
      if won {
        SaveGame(store, now);
      }
      SavedThen(old(store.checkpoint), old(store.archive), cp1, ar1, store.checkpoint, store.archive,
                revealed != mid, Won(), Snapshot(now), Won(), Snapshot(now), now);
      ok := true;
    }

    /** Reveals, in order, every unrevealed neighbour of the revealed zero
        cell (x, y). None of them is a mine, so the game is not lost; if the
        game gets won on the way it has been archived. */
    method Cascade(x: int, y: int, store: Store, now: string)
      requires Valid() && !firstMove && InBounds(width, height, (x, y))
      requires revealed[y][x] && board[y][x] == 0
      modifies this`revealed, this`gameOver, store
      decreases CountFalse(revealed), 2
      ensures Valid()
      ensures Grows(width, height, old(revealed), revealed)
      ensures gameOver == old(gameOver)
      ensures !MineRevealedSince(width, height, board, old(revealed), revealed)
      ensures NeighboursCovered(width, height, revealed, flagged, x, y)
      ensures Spread(width, height, board, old(revealed), revealed, Adjacent(width, height, x, y))
      ensures FloodClosed(width, height, board, flagged, old(revealed), revealed)
      ensures Saved(store.checkpoint, store.archive, old(store.checkpoint), old(store.archive),
                    revealed != old(revealed), Won(), Snapshot(now), now)
    {
      var adj := Adjacent(width, height, x, y);
      ZeroNeighboursSafe(width, height, board, minePositions, x, y);
      var i := 0;
      while i < |adj|
        invariant 0 <= i <= |adj|
        invariant Valid()
        invariant gameOver == old(gameOver)
        invariant Grows(width, height, old(revealed), revealed)
        invariant !MineRevealedSince(width, height, board, old(revealed), revealed)
        invariant Covered(width, height, revealed, flagged, adj, i)
        invariant Saved(store.checkpoint, store.archive, old(store.checkpoint), old(store.archive),
                        revealed != old(revealed), Won(), Snapshot(now), now)
        invariant Spread(width, height, board, old(revealed), revealed, adj[..i])
        invariant FloodClosed(width, height, board, flagged, old(revealed), revealed)
      {
        CountFalseGrows(width, height, old(revealed), revealed);
        var _ := UncoverNeighbour(adj, i, store, now, old(revealed), old(store.checkpoint), old(store.archive));
        i := i + 1;
      }
      CoveredNeighbours(width, height, revealed, flagged, x, y);
      assert adj[..i] == adj;
    }

    /** One step of a cascade or a chord over the neighbour list adj,
        which started from the revealed grid a0 and the store (cp0, ar0):
        uncovers adj[i] unless it is revealed or flagged already. The result
        is false exactly when adj[i] was uncovered and is a mine, which is
        where a chord stops. What the sweep has revealed stays within the
        floods of adj[..i + 1] and every flood in it is complete; what it
        has saved stays saved, and is overwritten if this step ends the
        game. */
    method UncoverNeighbour(adj: seq<Pos>, i: int, store: Store, now: string,
                            ghost a0: seq<seq<bool>>, ghost cp0: Option<GameRecord>, ghost ar0: map<string, GameRecord>)
      returns (ok: bool)
      requires Valid() && !firstMove && 0 <= i < |adj| && InBounds(width, height, adj[i])
      requires IsGrid(a0, width, height) && Grows(width, height, a0, revealed)
      requires !MineRevealedSince(width, height, board, a0, revealed)
      requires Covered(width, height, revealed, flagged, adj, i)
      requires Spread(width, height, board, a0, revealed, adj[..i]) && FloodClosed(width, height, board, flagged, a0, revealed)
      requires Saved(store.checkpoint, store.archive, cp0, ar0, revealed != a0, Won(), Snapshot(now), now)
      modifies this`revealed, this`gameOver, store
      decreases CountFalse(revealed), 1
      ensures Valid()
      ensures gameOver == (old(gameOver) || !ok)
      ensures old(revealed[adj[i].1][adj[i].0] || flagged[adj[i].1][adj[i].0]) ==> ok && revealed == old(revealed)
      ensures !ok ==> board[adj[i].1][adj[i].0] == -1
      ensures Grows(width, height, a0, revealed) && Covered(width, height, revealed, flagged, adj, i + 1)
      ensures ok <==> !MineRevealedSince(width, height, board, a0, revealed)
      ensures Spread(width, height, board, a0, revealed, adj[..i + 1]) && FloodClosed(width, height, board, flagged, a0, revealed)
      ensures !ok ==> StoppedAt(width, height, board, flagged, a0, revealed, adj, i)
      ensures Saved(store.checkpoint, store.archive, cp0, ar0, revealed != a0, !ok || Won(), Snapshot(now), now)
    {
      var ax, ay := adj[i].0, adj[i].1;
      ghost var before := revealed;
      if revealed[ay][ax] || flagged[ay][ax] {
        ok := true;
      } else {
        ghost var cp, ar, snap, won := store.checkpoint, store.archive, Snapshot(now), Won();
        ok := Uncover(ax, ay, store, now);
        assert (ax, ay) == adj[i];
        if won {
          WonStaysWon(width, height, board, before, revealed);
        }
        SavedThen(cp0, ar0, cp, ar, store.checkpoint, store.archive, before != a0, won, snap, !ok || Won(), Snapshot(now), now);
        assert revealed != a0 by {
          assert !a0[ay][ax];
        }
      }
      FloodStep(width, height, board, flagged, a0, before, revealed, adj, i);
      if !ok {
        ChordStops(width, height, board, flagged, a0, before, adj, i);
      }
    }

    /** Chords on (x, y): when the cell is revealed, holds a positive count
        and exactly that many of its neighbours are flagged, reveals its
        unflagged unrevealed neighbours in order, stopping at the first mine.
        Otherwise does nothing. The result is false exactly when a mine was
        revealed. */
    method RevealAdjacentCells(x: int, y: int, store: Store, now: string) returns (ok: bool)
      requires Valid() && InBounds(width, height, (x, y))
      modifies this`revealed, this`gameOver, store
      ensures Valid()
      ensures Grows(width, height, old(revealed), revealed)
      ensures !(old(revealed[y][x]) && board[y][x] > 0 && CountAdjacentFlags(x, y) == board[y][x]) ==>
        ok && revealed == old(revealed)
      ensures ok && old(revealed[y][x]) && board[y][x] > 0 && CountAdjacentFlags(x, y) == board[y][x] ==> NeighboursCovered(width, height, revealed, flagged, x, y)
      ensures !ok ==>
        exists k :: StoppedAt(width, height, board, flagged, old(revealed), revealed, Adjacent(width, height, x, y), k)
      ensures Spread(width, height, board, old(revealed), revealed, Adjacent(width, height, x, y))
      ensures FloodClosed(width, height, board, flagged, old(revealed), revealed)
      ensures ok <==> !MineRevealedSince(width, height, board, old(revealed), revealed)
      ensures gameOver == (old(gameOver) || !ok)
      ensures SavedAfterReveal(store, old(store.checkpoint), old(store.archive), old(revealed), !ok, now)
    {
      if !revealed[y][x] || board[y][x] <= 0 {
        return true;
      }
      assert !firstMove;
      var flagCount := CountAdjacentFlags(x, y);
      if flagCount == board[y][x] {
        ok := Chord(x, y, store, now);
      } else {
        ok := true;
      }
    }

    /** Reveals, in order, the unrevealed unflagged neighbours of (x, y),
        stopping at the first that is a mine. */
    method Chord(x: int, y: int, store: Store, now: string) returns (ok: bool)
      requires Valid() && !firstMove && InBounds(width, height, (x, y))
      modifies this`revealed, this`gameOver, store
      ensures Valid()
      ensures Grows(width, height, old(revealed), revealed)
      ensures ok ==> NeighboursCovered(width, height, revealed, flagged, x, y)
      ensures !ok ==>
        exists k :: StoppedAt(width, height, board, flagged, old(revealed), revealed, Adjacent(width, height, x, y), k)
      ensures Spread(width, height, board, old(revealed), revealed, Adjacent(width, height, x, y))
      ensures FloodClosed(width, height, board, flagged, old(revealed), revealed)
      ensures ok <==> !MineRevealedSince(width, height, board, old(revealed), revealed)
      ensures gameOver == (old(gameOver) || !ok)
      ensures SavedAfterReveal(store, old(store.checkpoint), old(store.archive), old(revealed), !ok, now)
    {
      var adj := Adjacent(width, height, x, y);
      AdjacentInBounds(width, height, x, y);
      var i := 0;
      while i < |adj|
        invariant 0 <= i <= |adj|
        invariant Valid()
        invariant gameOver == old(gameOver)
        invariant Grows(width, height, old(revealed), revealed)
        invariant !MineRevealedSince(width, height, board, old(revealed), revealed)
        invariant Covered(width, height, revealed, flagged, adj, i)
        invariant Saved(store.checkpoint, store.archive, old(store.checkpoint), old(store.archive),
                        revealed != old(revealed), Won(), Snapshot(now), now)
        invariant Spread(width, height, board, old(revealed), revealed, adj[..i])
        invariant FloodClosed(width, height, board, flagged, old(revealed), revealed)
      {
        var safe := UncoverNeighbour(adj, i, store, now, old(revealed), old(store.checkpoint), old(store.archive));
        if !safe {
          assert StoppedAt(width, height, board, flagged, old(revealed), revealed, adj, i);
          SpreadWider(width, height, board, old(revealed), revealed, adj[..i + 1], adj);
          return false;
        }
        i := i + 1;
      }
      CoveredNeighbours(width, height, revealed, flagged, x, y);
      assert adj[..i] == adj;
      return true;
    }

    /** Writes the game out: a finished game (lost, or won) goes to the
        archive under `now` and the checkpoint is removed; a game in
        progress replaces the checkpoint. */
    method SaveGame(store: Store, now: string)
      requires Valid()
      modifies store
      ensures gameOver || Won() ==>
        store.checkpoint == None && store.archive == old(store.archive)[now := Snapshot(now)]
      ensures !(gameOver || Won()) ==>
        store.checkpoint == Some(Snapshot(now)) && store.archive == old(store.archive)
      ensures old(store.Valid()) ==> store.Valid()
    {
      var state := Snapshot(now);
      var finished := gameOver;
      if !finished {
        finished := CheckWin();
      }
      if finished {
        store.archive := store.archive[now := state];
        store.checkpoint := None;
      } else {
        store.checkpoint := Some(state);
      }
    }

    /** Restores the checkpointed game, if there is one. */
    static method LoadGame(store: Store) returns (g: Game?)
      requires store.Valid()
      ensures store.checkpoint.None? ==> g == null
      ensures store.checkpoint.Some? ==> (g != null && fresh(g) && g.Valid() &&
        var r := store.checkpoint.value;
        && g.width == r.width && g.height == r.height && g.mines == r.mines
        && g.board == r.board && g.revealed == r.revealed && g.flagged == r.flagged
        && g.gameOver == r.gameOver && g.firstMove == r.firstMove && g.minePositions == r.minePositions)
    {
      if store.checkpoint.None? {
        return null;
      }
      var data := store.checkpoint.value;
      g := new Game(data.width, data.height, data.mines);
      g.board := data.board;
      g.revealed := data.revealed;
      g.flagged := data.flagged;
      g.gameOver := data.gameOver;
      g.firstMove := data.firstMove;
      g.minePositions := data.minePositions;
    }

    /** Saving a game in progress and loading it back gives a new game
        equal to it in every field. */
    static method SaveThenLoad(g: Game, store: Store, now: string) returns (h: Game?)
      requires g.Valid() && store.Valid() && !g.gameOver && !g.Won()
      modifies store
      ensures h != null && h != g && h.Valid()
      ensures h.width == g.width && h.height == g.height && h.mines == g.mines
      ensures h.board == g.board && h.revealed == g.revealed && h.flagged == g.flagged
      ensures h.gameOver == g.gameOver && h.firstMove == g.firstMove && h.minePositions == g.minePositions
    {
      g.SaveGame(store, now);
      h := LoadGame(store);
    }
  }

  /** Each of the menu's games has at least nine cells more than mines. */
  lemma MenuGamesRoom(w: int, h: int, m: int)
    requires || (w == 9 && h == 9 && m == 10)
             || (w == 16 && h == 16 && m == 40)
             || (w == 30 && h == 16 && m == 99)
    ensures m + 9 <= w * h
  {
  }

  /** While mine m is being counted in: cells in done + {m} hold -1, every
      other cell its count of mines in done, plus one if it is a neighbour
      of m already visited. */
  ghost predicate PartlyCounted(w: int, h: int, board: seq<seq<int>>, done: set<Pos>, m: Pos, visited: seq<Pos>)
    requires IsGrid(board, w, h)
  {
    && (forall y, x {:trigger board[y][x]} :: 0 <= y < h && 0 <= x < w ==>
          (board[y][x] == -1 <==> (x, y) in done + {m}) && board[y][x] >= -1)
    && (forall y, x {:trigger MineCount(w, h, done, x, y)} :: 0 <= y < h && 0 <= x < w && (x, y) !in done + {m} ==>
          board[y][x] == MineCount(w, h, done, x, y) + (if (x, y) in visited then 1 else 0))
  }

  lemma ZeroBoardSeeded(w: nat, h: nat)
    ensures Seeded(w, h, Fill(w, h, 0), {})
  {
    forall y, x | 0 <= y < h && 0 <= x < w
      ensures MineCount(w, h, {}, x, y) == 0
    {
      CountInEmpty(Adjacent(w, h, x, y));
    }
  }

  lemma CountingStarts(w: int, h: int, seeded: seq<seq<int>>, board: seq<seq<int>>, done: set<Pos>, m: Pos)
    requires IsGrid(seeded, w, h) && Seeded(w, h, seeded, done)
    requires InBounds(w, h, m) && board == Update(seeded, m.0, m.1, -1)
    ensures IsGrid(board, w, h) && PartlyCounted(w, h, board, done, m, [])
  {
  }

  /** Visiting a neighbour of m that is not yet a mine adds one to it. */
  lemma CountingBumps(w: int, h: int, before: seq<seq<int>>, done: set<Pos>, m: Pos, adj: seq<Pos>, i: int)
    requires IsGrid(before, w, h) && InBounds(w, h, m) && m !in done
    requires adj == Adjacent(w, h, m.0, m.1) && 0 <= i < |adj| && InBounds(w, h, adj[i])
    requires PartlyCounted(w, h, before, done, m, adj[..i])
    requires before[adj[i].1][adj[i].0] != -1
    ensures IsGrid(Update(before, adj[i].0, adj[i].1, before[adj[i].1][adj[i].0] + 1), w, h)
    ensures PartlyCounted(w, h, Update(before, adj[i].0, adj[i].1, before[adj[i].1][adj[i].0] + 1), done, m, adj[..i + 1])
  {
    AdjacentSpec(w, h, m.0, m.1);
    assert adj[..i + 1] == adj[..i] + [adj[i]];
    assert adj[i] !in adj[..i];
    assert before[adj[i].1][adj[i].0] == MineCount(w, h, done, adj[i].0, adj[i].1) + 0;
  }

  /** Visiting a neighbour of m that is a mine leaves it at -1. */
  lemma CountingSkips(w: int, h: int, board: seq<seq<int>>, done: set<Pos>, m: Pos, adj: seq<Pos>, i: int)
    requires IsGrid(board, w, h) && InBounds(w, h, m) && m !in done
    requires adj == Adjacent(w, h, m.0, m.1) && 0 <= i < |adj| && InBounds(w, h, adj[i])
    requires PartlyCounted(w, h, board, done, m, adj[..i])
    requires board[adj[i].1][adj[i].0] == -1
    ensures PartlyCounted(w, h, board, done, m, adj[..i + 1])
  {
    assert adj[..i + 1] == adj[..i] + [adj[i]];
  }

  lemma CountingEnds(w: int, h: int, board: seq<seq<int>>, done: set<Pos>, m: Pos)
    requires IsGrid(board, w, h) && InBounds(w, h, m) && m !in done
    requires forall p :: p in done ==> InBounds(w, h, p)
    requires PartlyCounted(w, h, board, done, m, Adjacent(w, h, m.0, m.1))
    ensures Seeded(w, h, board, done + {m})
  {
    forall y, x {:trigger board[y][x]} | 0 <= y < h && 0 <= x < w && (x, y) !in done + {m}
      ensures board[y][x] == MineCount(w, h, done + {m}, x, y)
    {
      assert board[y][x] == MineCount(w, h, done, x, y) + (if (x, y) in Adjacent(w, h, m.0, m.1) then 1 else 0);
      AdjacentSpec(w, h, x, y);
      CountInAdd(Adjacent(w, h, x, y), done, m);
      AdjacentSymmetric(w, h, (x, y), m);
    }
  }

  /** A set has subsets of every size up to its own. */
  lemma {:induction false} SubsetOfSize(s: set<Pos>, n: nat)
    requires n <= |s|
    ensures exists t :: t <= s && |t| == n
  {
    if n == 0 {
      var t: set<Pos> := {};
      assert t <= s && |t| == 0;
    } else {
      var e :| e in s;
      SubsetOfSize(s - {e}, n - 1);
      var t :| t <= s - {e} && |t| == n - 1;
      assert t + {e} <= s && |t + {e}| == n;
    }
  }
}
