/**
 * Step 1 of `processCollisionsWithGrid`: every ball is appended to the list
 * of the grid cell `(floor(x / cs), floor(y / cs))` it lies in. The grid is a
 * JavaScript `Map`, so besides its contents it has an insertion order, which
 * fixes the order in which step 2 visits the cells.
 */
module SpatialGrid {
  import opened Balls

  /**
   * The grid. `cells[c]` lists the slots (positions in the ball array) of
   * the balls of cell `c`; `order` is the map's key insertion order. A slot
   * stands for the ball object: the shallow copy `[...balls]` holds the same
   * objects in the same slots.
   */
  datatype Grid = Grid(order: seq<Cell>, cells: map<Cell, seq<nat>>)

  /** The cell of a ball, by floor division of each coordinate. */
  function CellOf(b: Ball, cs: real): Cell
    requires cs != 0.0
  {
    ((b.x / cs).Floor, (b.y / cs).Floor)
  }

  /** The cell of every ball, slot by slot. */
  function CellsOf(balls: seq<Ball>, cs: real): (keys: seq<Cell>)
    requires cs != 0.0
    ensures |keys| == |balls| && forall k :: 0 <= k < |balls| ==> keys[k] == CellOf(balls[k], cs)
  {
    seq(|balls|, k requires 0 <= k < |balls| => CellOf(balls[k], cs))
  }

  /** One iteration of the grid loop: get the cell's list, create it if absent, push. */
  function Insert(g: Grid, c: Cell, k: nat): Grid
  {
    if c in g.cells then Grid(g.order, g.cells[c := g.cells[c] + [k]])
    else Grid(g.order + [c], g.cells[c := [k]])
  }

  /** The grid after the loop has seen balls lying in the cells `keys`, in order. */
  function GridFor(keys: seq<Cell>): Grid
    decreases |keys|
  {
    if keys == [] then Grid([], map[])
    else Insert(GridFor(keys[..|keys| - 1]), keys[|keys| - 1], |keys| - 1)
  }

  /** The grid of `balls` at cell size `cs`. */
  function GridOf(balls: seq<Ball>, cs: real): Grid
    requires cs != 0.0
  {
    GridFor(CellsOf(balls, cs))
  }

  /** The list is strictly increasing (the stated form; `Candidates.Ascending` is its recursive copy). */
  predicate Increasing(s: seq<nat>)
  {
    forall i, j :: 0 <= i < j < |s| ==> s[i] < s[j]
  }

  /** The keys are exactly the cells of `order`, each listed once. */
  ghost predicate KeyedByOrder(g: Grid)
  {
    && (forall c :: c in g.cells <==> c in g.order)
    && (forall i, j :: 0 <= i < j < |g.order| ==> g.order[i] != g.order[j])
  }

  /** Every list is non-empty and in ball order. */
  ghost predicate SortedLists(g: Grid)
  {
    forall c :: c in g.cells ==> |g.cells[c]| > 0 && Increasing(g.cells[c])
  }

  /** Slot `k` is in the list of cell `c` exactly when ball `k` lies in `c`, and that cell is a key. */
  ghost predicate HoldsCells(g: Grid, keys: seq<Cell>)
  {
    && (forall c, i :: c in g.cells && 0 <= i < |g.cells[c]| ==> g.cells[c][i] < |keys| && keys[g.cells[c][i]] == c)
    && (forall k :: 0 <= k < |keys| ==> keys[k] in g.cells && k in g.cells[keys[k]])
  }

  /** The cells are ordered by the first ball that lies in them. */
  ghost predicate FirstSeenOrder(g: Grid)
    requires KeyedByOrder(g) && SortedLists(g)
  {
    forall i, j :: 0 <= i < j < |g.order| ==> g.cells[g.order[i]][0] < g.cells[g.order[j]][0]
  }

  /** The grid of balls lying in the cells `keys`. */
  ghost predicate GridOfKeys(g: Grid, keys: seq<Cell>)
  {
    KeyedByOrder(g) && SortedLists(g) && HoldsCells(g, keys) && FirstSeenOrder(g)
  }

  /** The loop builds a grid with all of the properties above. */
  lemma {:induction false} GridForIsGridOfKeys(keys: seq<Cell>)
    ensures GridOfKeys(GridFor(keys), keys)
    decreases |keys|
  {
    if keys != [] {
      var n := |keys| - 1;
      var prefix := keys[..n];
      GridForIsGridOfKeys(prefix);
      var g := GridFor(prefix);
      InsertHoldsCells(g, keys);
      forall d, i | d in g.cells && 0 <= i < |g.cells[d]| ensures g.cells[d][i] < n {
      }
      InsertKeyedByOrder(g, keys[n], n);
      InsertSortedLists(g, keys[n], n);
      InsertFirstSeenOrder(g, keys[n], n);
    }
  }

  lemma InsertKeyedByOrder(g: Grid, c: Cell, n: nat)
    requires KeyedByOrder(g)
    ensures KeyedByOrder(Insert(g, c, n))
  {
  }

  lemma InsertSortedLists(g: Grid, c: Cell, n: nat)
    requires SortedLists(g)
    requires forall d, i :: d in g.cells && 0 <= i < |g.cells[d]| ==> g.cells[d][i] < n
    ensures SortedLists(Insert(g, c, n))
  {
    if c in g.cells {
      AppendIncreasing(g.cells[c], n);
    }
  }

  lemma InsertFirstSeenOrder(g: Grid, c: Cell, n: nat)
    requires KeyedByOrder(g) && SortedLists(g) && FirstSeenOrder(g)
    requires forall d, i :: d in g.cells && 0 <= i < |g.cells[d]| ==> g.cells[d][i] < n
    ensures KeyedByOrder(Insert(g, c, n)) && SortedLists(Insert(g, c, n))
    ensures FirstSeenOrder(Insert(g, c, n))
  {
    InsertKeyedByOrder(g, c, n);
    InsertSortedLists(g, c, n);
    var h := Insert(g, c, n);
    if c in g.cells {
      forall i, j | 0 <= i < j < |h.order|
        ensures h.cells[h.order[i]][0] < h.cells[h.order[j]][0]
      {
        assert h.cells[h.order[i]][0] == g.cells[g.order[i]][0];
        assert h.cells[h.order[j]][0] == g.cells[g.order[j]][0];
      }
    } else {
      forall i, j | 0 <= i < j < |h.order|
        ensures h.cells[h.order[i]][0] < h.cells[h.order[j]][0]
      {
        if j == |g.order| {
          assert g.order[i] in g.cells;
        }
      }
    }
  }

  /** Pushing the last ball onto the grid of the others files it, and only it, anew. */
  lemma InsertHoldsCells(g: Grid, keys: seq<Cell>)
    requires |keys| > 0 && HoldsCells(g, keys[..|keys| - 1])
    ensures HoldsCells(Insert(g, keys[|keys| - 1], |keys| - 1), keys)
  {
    var n := |keys| - 1;
    var prefix := keys[..n];
    var c := keys[n];
    var h := Insert(g, c, n);
    assert forall k :: 0 <= k < n ==> keys[k] == prefix[k];
    forall d, i | d in h.cells && 0 <= i < |h.cells[d]|
      ensures h.cells[d][i] < |keys| && keys[h.cells[d][i]] == d
    {
      if d == c && c in g.cells {
        assert h.cells[d] == g.cells[c] + [n];
      } else if d != c {
        assert h.cells[d] == g.cells[d];
      }
    }
    forall k | 0 <= k < |keys|
      ensures keys[k] in h.cells && k in h.cells[keys[k]]
    {
      if k < n {
        var d := prefix[k];
        assert d in g.cells && k in g.cells[d];
        if d == c {
          assert h.cells[d] == g.cells[c] + [n];
        } else {
          assert h.cells[d] == g.cells[d];
        }
      }
    }
  }

  lemma AppendIncreasing(s: seq<nat>, n: nat)
    requires Increasing(s) && forall i :: 0 <= i < |s| ==> s[i] < n
    ensures Increasing(s + [n])
  {
  }

  /** Each ball lies in exactly one list, and appears there once. */
  lemma GridPlacesEachBallOnce(balls: seq<Ball>, cs: real, k: nat)
    requires cs != 0.0 && k < |balls|
    ensures var g := GridOf(balls, cs);
            && CellOf(balls[k], cs) in g.cells
            && multiset(g.cells[CellOf(balls[k], cs)])[k] == 1
            && (forall c :: c in g.cells && c != CellOf(balls[k], cs) ==> k !in g.cells[c])
  {
    var keys := CellsOf(balls, cs);
    GridForIsGridOfKeys(keys);
    var g := GridOf(balls, cs);
    var c := CellOf(balls[k], cs);
    assert keys[k] == c;
    OccursOnce(g.cells[c], k);
  }

  lemma {:induction false} OccursOnce(l: seq<nat>, k: nat)
    requires Increasing(l) && k in l
    ensures multiset(l)[k] == 1
  {
    assert l == [l[0]] + l[1..];
    if l[0] == k {
      assert k !in l[1..];
    } else {
      OccursOnce(l[1..], k);
    }
  }

  /** The cells are visited in the order of the first ball lying in each. */
  lemma GridOrderIsFirstSeen(balls: seq<Ball>, cs: real, i: nat, j: nat)
    requires cs != 0.0 && i < j < |GridOf(balls, cs).order|
    ensures var g := GridOf(balls, cs);
            && GridOfKeys(g, CellsOf(balls, cs))
            && g.cells[g.order[i]][0] < g.cells[g.order[j]][0] < |balls|
            && CellOf(balls[g.cells[g.order[i]][0]], cs) == g.order[i]
            && CellOf(balls[g.cells[g.order[j]][0]], cs) == g.order[j]
            && (forall k :: 0 <= k < g.cells[g.order[i]][0] ==> CellOf(balls[k], cs) != g.order[i])
  {
    var keys := CellsOf(balls, cs);
    GridForIsGridOfKeys(keys);
    var g := GridOf(balls, cs);
    assert g.order[i] in g.cells && g.order[j] in g.cells;
  }

  lemma GridForSnoc(keys: seq<Cell>, i: nat)
    requires i < |keys|
    ensures GridFor(keys[..i + 1]) == Insert(GridFor(keys[..i]), keys[i], i)
  {
    assert keys[..i + 1][..i] == keys[..i];
  }

  /** Step 1 of `processCollisionsWithGrid`, as the loop over the balls. */
  method BuildGrid(balls: seq<Ball>, gridCellSize: real) returns (grid: Grid)
    requires gridCellSize != 0.0
    ensures grid == GridOf(balls, gridCellSize)
  {
    ghost var keys := CellsOf(balls, gridCellSize);
    grid := Grid([], map[]);
    for i := 0 to |balls|
      invariant grid == GridFor(keys[..i])
    {
      GridForSnoc(keys, i);
      var key := CellOf(balls[i], gridCellSize);
      ghost var before := grid;
      var cellBalls: seq<nat>;
      if key in grid.cells {
        cellBalls := grid.cells[key];
      } else {
        cellBalls := [];
        grid := grid.(order := grid.order + [key], cells := grid.cells[key := cellBalls]);
        assert cellBalls + [i] == [i];
      }
      grid := grid.(cells := grid.cells[key := cellBalls + [i]]);
      assert grid.cells == Insert(before, key, i).cells;
    }
    assert keys[..|balls|] == keys;
  }
}
