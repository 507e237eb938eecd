/** Cells, neighbourhoods and rectangular grids of the minesweeper board.
    A position is an (x, y) pair, column first, as the engine's tuples are;
    a grid is indexed row first, grid[y][x]. */
module Grid {

  type Pos = (int, int)

  predicate InBounds(w: int, h: int, p: Pos) {
    0 <= p.0 < w && 0 <= p.1 < h
  }

  /** p and q are distinct cells of one 3x3 block. */
  predicate Touches(p: Pos, q: Pos) {
    p != q && -1 <= p.0 - q.0 <= 1 && -1 <= p.1 - q.1 <= 1
  }

  predicate NoDup<T(==)>(s: seq<T>) {
    forall i, j :: 0 <= i < j < |s| ==> s[i] != s[j]
  }

  /** The eight cells around (x, y), in the order of the engine's loops:
      dx outer, dy inner, each over -1, 0, 1, skipping (0, 0). */
  function Around(x: int, y: int): seq<Pos> {
    [(x - 1, y - 1), (x - 1, y), (x - 1, y + 1), (x, y - 1),
     (x, y + 1), (x + 1, y - 1), (x + 1, y), (x + 1, y + 1)]
  }

  /** The elements of s that lie on a w-by-h board, in order. */
  function InBoundsOnly(w: int, h: int, s: seq<Pos>): (r: seq<Pos>)
    ensures |r| <= |s|
  {
    if s == [] then []
    else (if InBounds(w, h, s[0]) then [s[0]] else []) + InBoundsOnly(w, h, s[1..])
  }

  lemma {:induction false} InBoundsOnlySpec(w: int, h: int, s: seq<Pos>)
    ensures forall p :: p in InBoundsOnly(w, h, s) <==> p in s && InBounds(w, h, p)
    ensures NoDup(s) ==> NoDup(InBoundsOnly(w, h, s))
  {
    if s != [] {
      InBoundsOnlySpec(w, h, s[1..]);
      assert NoDup(s) ==> NoDup(s[1..]) && s[0] !in s[1..];
    }
  }

  /** The in-bounds neighbours of (x, y), as the engine lists them. */
  function Adjacent(w: int, h: int, x: int, y: int): (r: seq<Pos>)
    ensures |r| <= 8
  {
    InBoundsOnly(w, h, Around(x, y))
  }

  /** The neighbour list holds exactly the in-bounds cells of the 3x3 block
      around (x, y) other than (x, y) itself, each once. */
  lemma AdjacentSpec(w: int, h: int, x: int, y: int)
    ensures NoDup(Adjacent(w, h, x, y))
    ensures forall p :: p in Adjacent(w, h, x, y) <==> InBounds(w, h, p) && Touches(p, (x, y))
  {
    var around := Around(x, y);
    assert NoDup(around);
    assert forall p :: p in around <==> Touches(p, (x, y));
    InBoundsOnlySpec(w, h, around);
  }

  /** A list of cells holds at most as many distinct cells as entries. */
  lemma {:induction false} ElementsSize(s: seq<Pos>)
    ensures |set p | p in s| <= |s|
  {
    if s != [] {
      ElementsSize(s[1..]);
      assert (set p | p in s) == (set p | p in s[1..]) + {s[0]};
    }
  }

  /** The cells (0, y) .. (w - 1, y) of row y. */
  function Row(w: nat, y: int): (r: set<Pos>)
    ensures forall p :: p in r <==> 0 <= p.0 < w && p.1 == y
    ensures |r| == w
  {
    if w == 0 then {} else Row(w - 1, y) + {(w - 1, y)}
  }

  /** All the cells of a w-by-h board. */
  function Cells(w: nat, h: nat): (r: set<Pos>)
    ensures forall p :: p in r <==> InBounds(w, h, p)
    ensures |r| == w * h
  {
    if h == 0 then {}
    else
      var above, row := Cells(w, h - 1), Row(w, h - 1);
      assert above * row == {};
      assert w * (h - 1) + w == w * h;
      above + row
  }

  /** Being neighbours is symmetric between in-bounds cells. */
  lemma AdjacentSymmetric(w: int, h: int, p: Pos, q: Pos)
    requires InBounds(w, h, p) && InBounds(w, h, q)
    ensures p in Adjacent(w, h, q.0, q.1) <==> q in Adjacent(w, h, p.0, p.1)
  {
    AdjacentSpec(w, h, q.0, q.1);
    AdjacentSpec(w, h, p.0, p.1);
  }

  /** How many elements of s lie in S. */
  function CountIn(s: seq<Pos>, S: set<Pos>): (n: nat)
    ensures n <= |s|
  {
    if s == [] then 0 else (if s[0] in S then 1 else 0) + CountIn(s[1..], S)
  }

  lemma {:induction false} CountInEmpty(s: seq<Pos>)
    ensures CountIn(s, {}) == 0
  {
    if s != [] {
      CountInEmpty(s[1..]);
    }
  }

  lemma {:induction false} CountInZero(s: seq<Pos>, S: set<Pos>)
    requires CountIn(s, S) == 0
    ensures forall p :: p in s ==> p !in S
  {
    if s != [] {
      CountInZero(s[1..], S);
    }
  }

  /** Adding m to S raises the count by one exactly when m is a new member
      that s mentions (s has no duplicates). */
  lemma {:induction false} CountInAdd(s: seq<Pos>, S: set<Pos>, m: Pos)
    requires NoDup(s)
    ensures CountIn(s, S + {m}) == CountIn(s, S) + (if m in s && m !in S then 1 else 0)
  {
    if s != [] {
      assert NoDup(s[1..]);
      CountInAdd(s[1..], S, m);
      assert m in s <==> m == s[0] || m in s[1..];
      if m == s[0] {
        assert m !in s[1..];
      }
    }
  }

  /** For a list without duplicates the count is the size of the set of
      listed members. */
  lemma {:induction false} CountInIsCardinality(s: seq<Pos>, S: set<Pos>)
    requires NoDup(s)
    ensures CountIn(s, S) == |set p | p in s && p in S|
  {
    if s == [] {
      assert (set p | p in s && p in S) == {};
    } else {
      assert NoDup(s[1..]);
      CountInIsCardinality(s[1..], S);
      var rest := set p | p in s[1..] && p in S;
      assert s[0] !in rest;
      if s[0] in S {
        assert (set p | p in s && p in S) == rest + {s[0]};
      } else {
        assert (set p | p in s && p in S) == rest;
      }
    }
  }

  predicate IsGrid<T>(g: seq<seq<T>>, w: int, h: int) {
    |g| == h && forall y :: 0 <= y < h ==> |g[y]| == w
  }

  /** A w-by-h grid holding v everywhere. */
  function Fill<T>(w: nat, h: nat, v: T): (g: seq<seq<T>>)
    ensures IsGrid(g, w, h)
    ensures forall y, x :: 0 <= y < h && 0 <= x < w ==> g[y][x] == v
  {
    seq(h, _ => seq(w, _ => v))
  }

  /** The grid with the cell at column x of row y replaced by v. */
  function Update<T>(g: seq<seq<T>>, x: int, y: int, v: T): (r: seq<seq<T>>)
    requires 0 <= y < |g| && 0 <= x < |g[y]|
    ensures |r| == |g| && forall j :: 0 <= j < |g| ==> |r[j]| == |g[j]|
    ensures r[y][x] == v
    ensures forall j, i {:trigger r[j][i]} :: 0 <= j < |g| && 0 <= i < |g[j]| && (i, j) != (x, y) ==> r[j][i] == g[j][i]
  {
    g[y := g[y][x := v]]
  }

  /** The number of false cells of a boolean row. */
  function RowFalse(r: seq<bool>): nat {
    if r == [] then 0 else (if r[0] then 0 else 1) + RowFalse(r[1..])
  }

  /** The number of false cells of a boolean grid. */
  function CountFalse(g: seq<seq<bool>>): nat {
    if g == [] then 0 else RowFalse(g[0]) + CountFalse(g[1..])
  }

  /** Every cell true in a is true in b: cells only go from false to true. */
  ghost predicate Grows(w: int, h: int, a: seq<seq<bool>>, b: seq<seq<bool>>)
    requires IsGrid(a, w, h) && IsGrid(b, w, h)
  {
    forall y, x {:trigger b[y][x]} :: 0 <= y < h && 0 <= x < w && a[y][x] ==> b[y][x]
  }

  lemma {:induction false} RowFalseGrows(a: seq<bool>, b: seq<bool>)
    requires |a| == |b| && forall i :: 0 <= i < |a| && a[i] ==> b[i]
    ensures RowFalse(b) <= RowFalse(a)
    ensures (exists i :: 0 <= i < |a| && !a[i] && b[i]) ==> RowFalse(b) < RowFalse(a)
  {
    if a != [] {
      RowFalseGrows(a[1..], b[1..]);
      if exists i :: 0 <= i < |a| && !a[i] && b[i] {
        var i :| 0 <= i < |a| && !a[i] && b[i];
        if i > 0 {
          assert !a[1..][i - 1] && b[1..][i - 1];
        }
      }
    }
  }

  /** Growing a grid never adds false cells, and turning one on removes one. */
  lemma {:induction false} CountFalseGrows(w: int, h: int, a: seq<seq<bool>>, b: seq<seq<bool>>)
    requires IsGrid(a, w, h) && IsGrid(b, w, h) && Grows(w, h, a, b)
    ensures CountFalse(b) <= CountFalse(a)
    ensures (exists y, x :: 0 <= y < h && 0 <= x < w && !a[y][x] && b[y][x]) ==> CountFalse(b) < CountFalse(a)
    decreases h
  {
    if h > 0 {
      RowFalseGrows(a[0], b[0]);
      assert IsGrid(a[1..], w, h - 1) && IsGrid(b[1..], w, h - 1);
      CountFalseGrows(w, h - 1, a[1..], b[1..]);
      if exists y, x :: 0 <= y < h && 0 <= x < w && !a[y][x] && b[y][x] {
        var y, x :| 0 <= y < h && 0 <= x < w && !a[y][x] && b[y][x];
        if y > 0 {
          assert !a[1..][y - 1][x] && b[1..][y - 1][x];
        }
      }
    }
  }
}
