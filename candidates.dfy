/**
 * The pairs step 2 of `processCollisionsWithGrid` offers to the resolver, in
 * the order its loops offer them, before the `checkedPairs` filter: for each
 * cell in map order, the pairs `i < j` of its own list, then for each of the
 * eight neighbour offsets `(nx, ny)` that is a cell of the map, every ball of
 * the cell against every ball of the neighbour.
 */
module Candidates {
  import opened Balls
  import opened SpatialGrid

  /**
   * A pair of slots offered to the resolver. `cross` marks a pair from two
   * different cells, for which the loop also tests the reversed key.
   */
  datatype Candidate = Candidate(p: nat, q: nat, cross: bool)

  /** The inner same-cell loop for `i`, up to (excluding) `j`: pairs `(cb[i], cb[j'])`, `i < j' < j`. */
  function SameRow(cb: seq<nat>, i: nat, j: nat): seq<Candidate>
    requires i < |cb| && j <= |cb|
    decreases j
  {
    if j <= i + 1 then [] else SameRow(cb, i, j - 1) + [Candidate(cb[i], cb[j - 1], false)]
  }

  /** The same-cell loops up to (excluding) row `i`. */
  function SamePairs(cb: seq<nat>, i: nat): seq<Candidate>
    requires i <= |cb|
  {
    if i == 0 then [] else SamePairs(cb, i - 1) + SameRow(cb, i - 1, |cb|)
  }

  /** The inner cross loop for one `ball1`, up to (excluding) position `j` of the neighbour's list. */
  function CrossRow(b1: nat, nb: seq<nat>, j: nat): seq<Candidate>
    requires j <= |nb|
  {
    if j == 0 then [] else CrossRow(b1, nb, j - 1) + [Candidate(b1, nb[j - 1], true)]
  }

  /** The cross loops of a cell against one neighbour, up to (excluding) position `i` of the cell's list. */
  function CrossPairs(cb: seq<nat>, nb: seq<nat>, i: nat): seq<Candidate>
    requires i <= |cb|
  {
    if i == 0 then [] else CrossPairs(cb, nb, i - 1) + CrossRow(cb[i - 1], nb, |nb|)
  }

  /** The pairs of cell `c` against cell `d`: none when `d` is `c` itself (offset `(0, 0)`) or not a key. */
  function Offset(g: Grid, c: Cell, d: Cell): seq<Candidate>
    requires c in g.cells
  {
    CrossPairs(g.cells[c], NeighbourList(g, c, d), |g.cells[c]|)
  }

  /** The list the cross loops run over for cell `d`: empty for `c` itself and for a cell that is no key. */
  function NeighbourList(g: Grid, c: Cell, d: Cell): seq<nat>
  {
    if d == c || d !in g.cells then [] else g.cells[d]
  }

  /** The `ny` loop for the neighbour column `x`: the cells `(x, y')` with `c.1 - 1 <= y' < y`. */
  function Column(g: Grid, c: Cell, x: int, y: int): seq<Candidate>
    requires c in g.cells && c.1 - 1 <= y <= c.1 + 2
    decreases y - c.1 + 1
  {
    if y == c.1 - 1 then [] else Column(g, c, x, y - 1) + Offset(g, c, (x, y - 1))
  }

  /** The `nx` loop: the neighbour columns `x'` with `c.0 - 1 <= x' < x`, each for `ny` from -1 to 1. */
  function Columns(g: Grid, c: Cell, x: int): seq<Candidate>
    requires c in g.cells && c.0 - 1 <= x <= c.0 + 2
    decreases x - c.0 + 1
  {
    if x == c.0 - 1 then [] else Columns(g, c, x - 1) + Column(g, c, x - 1, c.1 + 2)
  }

  /** Everything the body of the `forEach` offers for one cell. */
  function CellCandidates(g: Grid, c: Cell): seq<Candidate>
    requires c in g.cells
  {
    SamePairs(g.cells[c], |g.cells[c]|) + Columns(g, c, c.0 + 2)
  }

  /**
   * Every cell of `order` is a key: the one half of `SpatialGrid.KeyedByOrder`
   * that `PassCandidates` needs to be defined. `KeyedByOrder` is the stated
   * form; this weaker, compiled copy keeps the other half and its
   * quantifiers out of the candidate functions' preconditions.
   */
  predicate OrderKeyed(g: Grid)
  {
    forall i :: 0 <= i < |g.order| ==> g.order[i] in g.cells
  }

  /** The lists of the cells in `order` are increasing. */
  ghost predicate OrderSorted(g: Grid)
    requires OrderKeyed(g)
  {
    forall i :: 0 <= i < |g.order| ==> Ascending(g.cells[g.order[i]])
  }

  /**
   * `SpatialGrid.Increasing`, stated one neighbouring pair at a time.
   * `Increasing` is the stated form (`AscendingIncreasing` proves the two
   * equal); this recursive copy only keeps the pairwise quantifier out of
   * the membership inductions.
   */
  predicate Ascending(s: seq<nat>)
    decreases |s|
  {
    |s| <= 1 || (s[0] < s[1] && Ascending(s[1..]))
  }

  lemma {:induction false} AscendingIncreasing(s: seq<nat>)
    ensures Ascending(s) <==> Increasing(s)
    decreases |s|
  {
    if |s| > 1 {
      AscendingIncreasing(s[1..]);
      if Ascending(s) {
        forall i, j | 0 <= i < j < |s| ensures s[i] < s[j] {
          if i > 0 {
            assert s[1..][i - 1] < s[1..][j - 1];
          } else if j > 1 {
            assert s[1..][0] < s[1..][j - 1];
          }
        }
      }
      if Increasing(s) {
        assert Increasing(s[1..]) by {
          forall i, j | 0 <= i < j < |s| - 1 ensures s[1..][i] < s[1..][j] {
            assert s[i + 1] < s[j + 1];
          }
        }
      }
    }
  }

  /** The body of the `forEach` for each cell, in map order. */
  function CellParts(g: Grid): (r: seq<seq<Candidate>>)
    requires OrderKeyed(g)
    ensures |r| == |g.order|
  {
    seq(|g.order|, i requires 0 <= i < |g.order| => CellCandidates(g, g.order[i]))
  }

  /** The lists of the parts, concatenated in order. */
  function Flatten(parts: seq<seq<Candidate>>): seq<Candidate>
  {
    if parts == [] then [] else Flatten(parts[..|parts| - 1]) + parts[|parts| - 1]
  }

  /** Everything the `forEach` offers, cell after cell. */
  function PassCandidates(g: Grid): seq<Candidate>
    requires OrderKeyed(g)
  {
    Flatten(CellParts(g))
  }

  /** Two cells are neighbours or the same: they differ by at most one in each coordinate. */
  predicate Adjacent(a: Cell, b: Cell)
  {
    -1 <= b.0 - a.0 <= 1 && -1 <= b.1 - a.1 <= 1
  }

  /**
   * The pairs of slots the loops offer, described without the loops: both
   * slots are balls; a same-cell pair has its slots in the same cell, first
   * one earlier; a cross pair has its slots in two different neighbouring cells.
   */
  predicate Offered(keys: seq<Cell>, c: Candidate)
  {
    c.p < |keys| && c.q < |keys| &&
    if c.cross then
      keys[c.p] != keys[c.q] && Adjacent(keys[c.p], keys[c.q])
    else
      keys[c.p] == keys[c.q] && c.p < c.q
  }

  lemma PrefixMember<T>(s: seq<T>, n: nat, x: T)
    requires 0 < n <= |s|
    ensures x in s[..n] <==> x in s[..n - 1] || x == s[n - 1]
  {
    assert s[..n] == s[..n - 1] + [s[n - 1]];
  }

  lemma RangeMember<T>(s: seq<T>, a: nat, b: nat, x: T)
    requires a < b <= |s|
    ensures x in s[a..b] <==> x in s[a..b - 1] || x == s[b - 1]
  {
    assert s[a..b] == s[a..b - 1] + [s[b - 1]];
  }

  /** A slot after position `a` of an ascending list is a later slot of the list. */
  lemma AfterIn(cb: seq<nat>, a: nat, q: nat)
    requires Ascending(cb) && a < |cb|
    ensures q in cb[a + 1..|cb|] <==> q in cb && q > cb[a]
  {
    AscendingIncreasing(cb);
    if q in cb && q > cb[a] {
      var b :| 0 <= b < |cb| && cb[b] == q;
      assert cb[a + 1..|cb|][b - a - 1] == q;
    }
  }

  lemma {:induction false} SameRowMember(cb: seq<nat>, i: nat, j: nat, c: Candidate)
    requires i < j <= |cb|
    ensures c in SameRow(cb, i, j) <==> !c.cross && c.p == cb[i] && c.q in cb[i + 1..j]
    decreases j
  {
    if j > i + 1 {
      assert SameRow(cb, i, j) == SameRow(cb, i, j - 1) + [Candidate(cb[i], cb[j - 1], false)];
      SameRowMember(cb, i, j - 1, c);
      RangeMember(cb, i + 1, j, c.q);
    }
  }

  /** The same-cell loops over an increasing list offer its pairs `p < q` with `p` in the rows done. */
  lemma {:induction false} SamePairsMember(cb: seq<nat>, i: nat, c: Candidate)
    requires Ascending(cb) && i <= |cb|
    ensures c in SamePairs(cb, i) <==> !c.cross && c.p in cb[..i] && c.q in cb && c.p < c.q
  {
    if i > 0 {
      assert SamePairs(cb, i) == SamePairs(cb, i - 1) + SameRow(cb, i - 1, |cb|);
      SamePairsMember(cb, i - 1, c);
      SameRowMember(cb, i - 1, |cb|, c);
      AfterIn(cb, i - 1, c.q);
      PrefixMember(cb, i, c.p);
      assert c in SameRow(cb, i - 1, |cb|) <==> !c.cross && c.p == cb[i - 1] && c.q in cb && c.p < c.q;
    }
  }

  lemma {:induction false} CrossRowMember(b1: nat, nb: seq<nat>, j: nat, c: Candidate)
    requires j <= |nb|
    ensures c in CrossRow(b1, nb, j) <==> c.cross && c.p == b1 && c.q in nb[..j]
  {
    if j > 0 {
      assert CrossRow(b1, nb, j) == CrossRow(b1, nb, j - 1) + [Candidate(b1, nb[j - 1], true)];
      CrossRowMember(b1, nb, j - 1, c);
      PrefixMember(nb, j, c.q);
    }
  }

  lemma {:induction false} CrossPairsMember(cb: seq<nat>, nb: seq<nat>, i: nat, c: Candidate)
    requires i <= |cb|
    ensures c in CrossPairs(cb, nb, i) <==> c.cross && c.p in cb[..i] && c.q in nb
  {
    if i > 0 {
      assert CrossPairs(cb, nb, i) == CrossPairs(cb, nb, i - 1) + CrossRow(cb[i - 1], nb, |nb|);
      CrossPairsMember(cb, nb, i - 1, c);
      CrossRowMember(cb[i - 1], nb, |nb|, c);
      PrefixMember(cb, i, c.p);
      assert nb[..|nb|] == nb;
    }
  }

  /**
   * Where slot `k` is filed: in the list of its own cell, which is a key,
   * and in no other list. This is `SpatialGrid.HoldsCells` for one slot
   * (`LocatedByGrid` derives it); `HoldsCells` is the stated form, and the
   * membership lemmas take this per-slot copy to keep its quantifiers small.
   */
  ghost predicate Located(g: Grid, keys: seq<Cell>, k: nat)
  {
    && (k < |keys| ==> keys[k] in g.cells)
    && forall d :: d in g.cells ==> (k in g.cells[d] <==> k < |keys| && keys[k] == d)
  }

  lemma LocatedByGrid(g: Grid, keys: seq<Cell>, k: nat)
    requires HoldsCells(g, keys)
    ensures Located(g, keys, k)
  {
    forall d | d in g.cells && k in g.cells[d] ensures k < |keys| && keys[k] == d {
      var i :| 0 <= i < |g.cells[d]| && g.cells[d][i] == k;
    }
  }

  /** The cross pairs of cell `c0` against cell `d`. */
  lemma OffsetMember(g: Grid, keys: seq<Cell>, c0: Cell, d: Cell, c: Candidate)
    requires c0 in g.cells && Located(g, keys, c.q)
    ensures c in Offset(g, c0, d) <==> c.cross && c.p in g.cells[c0] && d != c0 && c.q < |keys| && keys[c.q] == d
  {
    var cb := g.cells[c0];
    CrossPairsMember(cb, NeighbourList(g, c0, d), |cb|, c);
    assert cb[..|cb|] == cb;
  }

  /** A slot of a cell other than `c0` in column `x`, row below `y`. */
  ghost predicate InColumn(keys: seq<Cell>, c0: Cell, x: int, y: int, k: nat)
  {
    k < |keys| && keys[k] != c0 && keys[k].0 == x && c0.1 - 1 <= keys[k].1 < y
  }

  lemma {:induction false} ColumnMember(g: Grid, keys: seq<Cell>, c0: Cell, x: int, y: int, c: Candidate)
    requires c0 in g.cells && Located(g, keys, c.q) && c0.1 - 1 <= y <= c0.1 + 2
    ensures c in Column(g, c0, x, y) <==> c.cross && c.p in g.cells[c0] && InColumn(keys, c0, x, y, c.q)
    decreases y - c0.1 + 1
  {
    if y > c0.1 - 1 {
      assert Column(g, c0, x, y) == Column(g, c0, x, y - 1) + Offset(g, c0, (x, y - 1));
      ColumnMember(g, keys, c0, x, y - 1, c);
      OffsetMember(g, keys, c0, (x, y - 1), c);
      ColumnStep(keys, c0, x, y, c.q);
    }
  }

  lemma ColumnStep(keys: seq<Cell>, c0: Cell, x: int, y: int, k: nat)
    requires c0.1 - 1 < y
    ensures InColumn(keys, c0, x, y, k) <==>
            InColumn(keys, c0, x, y - 1, k) || ((x, y - 1) != c0 && k < |keys| && keys[k] == (x, y - 1))
  {
  }

  /** A slot of a neighbour of `c0` (not `c0` itself) in a column left of `x`. */
  ghost predicate InColumns(keys: seq<Cell>, c0: Cell, x: int, k: nat)
  {
    k < |keys| && keys[k] != c0 && c0.0 - 1 <= keys[k].0 < x && c0.1 - 1 <= keys[k].1 < c0.1 + 2
  }

  lemma {:induction false} ColumnsMember(g: Grid, keys: seq<Cell>, c0: Cell, x: int, c: Candidate)
    requires c0 in g.cells && Located(g, keys, c.q) && c0.0 - 1 <= x <= c0.0 + 2
    ensures c in Columns(g, c0, x) <==> c.cross && c.p in g.cells[c0] && InColumns(keys, c0, x, c.q)
    decreases x - c0.0 + 1
  {
    if x > c0.0 - 1 {
      assert Columns(g, c0, x) == Columns(g, c0, x - 1) + Column(g, c0, x - 1, c0.1 + 2);
      ColumnsMember(g, keys, c0, x - 1, c);
      ColumnMember(g, keys, c0, x - 1, c0.1 + 2, c);
      ColumnsStep(keys, c0, x, c.q);
    }
  }

  lemma ColumnsStep(keys: seq<Cell>, c0: Cell, x: int, k: nat)
    requires c0.0 - 1 < x
    ensures InColumns(keys, c0, x, k) <==> InColumns(keys, c0, x - 1, k) || InColumn(keys, c0, x - 1, c0.1 + 2, k)
  {
  }

  /** What the body for one cell offers: the offered pairs whose first slot lies in that cell. */
  lemma CellMember(g: Grid, keys: seq<Cell>, c0: Cell, c: Candidate)
    requires c0 in g.cells && Ascending(g.cells[c0]) && Located(g, keys, c.p) && Located(g, keys, c.q)
    ensures c in CellCandidates(g, c0) <==> Offered(keys, c) && keys[c.p] == c0
  {
    var cb := g.cells[c0];
    assert CellCandidates(g, c0) == SamePairs(cb, |cb|) + Columns(g, c0, c0.0 + 2);
    SamePairsMember(cb, |cb|, c);
    assert cb[..|cb|] == cb;
    ColumnsMember(g, keys, c0, c0.0 + 2, c);
  }

  lemma FlattenSnoc(parts: seq<seq<Candidate>>, n: nat)
    requires n < |parts|
    ensures Flatten(parts[..n + 1]) == Flatten(parts[..n]) + parts[n]
  {
    assert parts[..n + 1][..n] == parts[..n];
  }

  /** A candidate of one part is a candidate of the concatenation. */
  lemma {:induction false} FlattenHas(parts: seq<seq<Candidate>>, i: nat, c: Candidate)
    requires i < |parts| && c in parts[i]
    ensures c in Flatten(parts)
  {
    var n := |parts| - 1;
    if i < n {
      FlattenHas(parts[..n], i, c);
    }
  }

  /** A candidate of the concatenation comes from some part. */
  lemma {:induction false} FlattenFrom(parts: seq<seq<Candidate>>, c: Candidate) returns (i: nat)
    requires c in Flatten(parts)
    ensures i < |parts| && c in parts[i]
  {
    var n := |parts| - 1;
    if c in parts[n] {
      i := n;
    } else {
      i := FlattenFrom(parts[..n], c);
    }
  }

  /** The grid the loop builds is ready for the scan: every cell of `order` is a key with an ascending list. */
  lemma GridForScans(keys: seq<Cell>)
    ensures OrderKeyed(GridFor(keys)) && OrderSorted(GridFor(keys))
    ensures forall k :: 0 <= k < |keys| ==> keys[k] in GridFor(keys).order
  {
    var g := GridFor(keys);
    GridForIsGridOfKeys(keys);
    forall i | 0 <= i < |g.order| ensures g.order[i] in g.cells && Ascending(g.cells[g.order[i]]) {
      AscendingIncreasing(g.cells[g.order[i]]);
    }
  }

  lemma GridForLocates(keys: seq<Cell>, k: nat)
    ensures Located(GridFor(keys), keys, k)
  {
    GridForIsGridOfKeys(keys);
    LocatedByGrid(GridFor(keys), keys, k);
  }

  /**
   * The loops offer exactly the pairs `Offered` describes: every same-cell
   * pair once in slot order, every pair of neighbouring cells in both orders.
   */
  lemma PassCandidatesAreOffered(keys: seq<Cell>, c: Candidate)
    ensures OrderKeyed(GridFor(keys))
    ensures c in PassCandidates(GridFor(keys)) <==> Offered(keys, c)
  {
    var g := GridFor(keys);
    GridForScans(keys);
    GridForLocates(keys, c.p);
    GridForLocates(keys, c.q);
    var parts := CellParts(g);
    if c in PassCandidates(g) {
      var i := FlattenFrom(parts, c);
      CellMember(g, keys, g.order[i], c);
    }
    if Offered(keys, c) {
      var c0 := keys[c.p];
      var i :| 0 <= i < |g.order| && g.order[i] == c0;
      CellMember(g, keys, c0, c);
      FlattenHas(parts, i, c);
    }
  }
}
