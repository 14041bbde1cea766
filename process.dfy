/**
 * `processCollisionsWithGrid` as the loops it is: the grid build, then the
 * `forEach` over the cells with its same-cell loops and its neighbour loops,
 * the `checkedPairs` set and the resolver writing into the shared array.
 * Each loop is proved to offer exactly the candidates of its part of
 * `PassCandidates`, so that the method computes `Pass`.
 */
module Process {
  import opened Balls
  import opened SpatialGrid
  import opened Candidates
  import opened Resolver
  import opened CollisionPass

  /** Every list of the grid holds slots below `n`. */
  ghost predicate SlotsBelow(g: Grid, n: nat)
  {
    forall d :: d in g.cells ==> ListBelow(g.cells[d], n)
  }

  /** All slots of a list are below `n`. */
  ghost predicate ListBelow(l: seq<nat>, n: nat)
  {
    forall t :: 0 <= t < |l| ==> l[t] < n
  }

  /** What the loops have done after offering some candidates: the filter's set and the balls. */
  datatype LoopState = LoopState(checkedPairs: set<PairKey>, state: seq<Ball>)

  /**
   * The loop state after the candidates `offered`, one at a time: a candidate
   * whose key (or, across cells, reversed key) is in `checkedPairs` is
   * skipped; any other is resolved against the current balls and its key added.
   * A candidate naming a slot outside the array is passed over; the pass
   * offers none (`PassOffers`).
   */
  function Replay(balls: seq<Ball>, offered: seq<Candidate>, env: MathLib): (r: LoopState)
    ensures |r.state| == |balls|
    decreases |offered|
  {
    if |offered| == 0 then LoopState({}, balls)
    else
      var r := Replay(balls, offered[..|offered| - 1], env);
      var c := offered[|offered| - 1];
      if |balls| <= c.p || |balls| <= c.q || Skips(r.checkedPairs, balls, c) then r
      else LoopState(r.checkedPairs + {PairKeyOf(balls, c)}, Resolved(r.state[c.p], r.state[c.q], r.state, env))
  }

  /** The loop state after `offered`, with `processedBalls` holding `state`. */
  ghost predicate Tracks(balls: seq<Ball>, env: MathLib, state: seq<Ball>, checkedPairs: set<PairKey>, offered: seq<Candidate>)
  {
    Replay(balls, offered, env) == LoopState(checkedPairs, state)
  }

  /** A stand-in for `Tracks` that the loops pass along without looking inside. */
  type Tracker = (seq<Ball>, set<PairKey>, seq<Candidate>) -> bool

  /** `tracks` is `Tracks` for `balls` and `env`. */
  ghost predicate IsTracker(tracks: Tracker, balls: seq<Ball>, env: MathLib)
  {
    forall state, checkedPairs, offered {:trigger Tracks(balls, env, state, checkedPairs, offered)} ::
      tracks(state, checkedPairs, offered) == Tracks(balls, env, state, checkedPairs, offered)
  }

  lemma AppendAssoc(a: seq<Candidate>, b: seq<Candidate>, c: seq<Candidate>)
    ensures (a + b) + c == a + (b + c)
  {
  }

  /** The filter after one more candidate. */
  lemma DedupeSnoc(balls: seq<Ball>, cands: seq<Candidate>, c: Candidate)
    requires InRange(|balls|, cands) && c.p < |balls| && c.q < |balls|
    ensures InRange(|balls|, cands + [c])
    ensures var f := Dedupe(balls, cands);
            Dedupe(balls, cands + [c])
              == if Skips(f.checked, balls, c) then f else Filtered(f.checked + {PairKeyOf(balls, c)}, f.calls + [c])
  {
    assert (cands + [c])[..|cands|] == cands;
  }

  /** The state after one more call. */
  lemma ApplyAllSnoc(s: seq<Ball>, calls: seq<Candidate>, c: Candidate, env: MathLib)
    requires InRange(|s|, calls) && c.p < |s| && c.q < |s|
    ensures InRange(|s|, calls + [c])
    ensures var t := ApplyAll(s, calls, env);
            |t| == |s| && ApplyAll(s, calls + [c], env) == Resolved(t[c.p], t[c.q], t, env)
  {
    assert (calls + [c])[..|calls|] == calls;
  }

  /** The loop state after one more candidate. */
  lemma ReplaySnoc(balls: seq<Ball>, offered: seq<Candidate>, c: Candidate, env: MathLib)
    requires c.p < |balls| && c.q < |balls|
    ensures var r := Replay(balls, offered, env);
            Replay(balls, offered + [c], env)
              == if Skips(r.checkedPairs, balls, c) then r
                 else LoopState(r.checkedPairs + {PairKeyOf(balls, c)}, Resolved(r.state[c.p], r.state[c.q], r.state, env))
  {
    assert (offered + [c])[..|offered|] == offered;
  }

  /** The loops' own bookkeeping agrees with the filter followed by the calls it lets through. */
  lemma {:induction false} ReplayIsFilteredCalls(balls: seq<Ball>, offered: seq<Candidate>, env: MathLib)
    requires InRange(|balls|, offered)
    ensures Replay(balls, offered, env)
            == LoopState(Dedupe(balls, offered).checked, ApplyAll(balls, Dedupe(balls, offered).calls, env))
    decreases |offered|
  {
    if offered != [] {
      var n := |offered| - 1;
      var prefix, c := offered[..n], offered[n];
      assert offered == prefix + [c];
      ReplayIsFilteredCalls(balls, prefix, env);
      DedupeSnoc(balls, prefix, c);
      ReplaySnoc(balls, prefix, c, env);
      ApplyAllSnoc(balls, Dedupe(balls, prefix).calls, c, env);
    }
  }

  /** The loops change no ball's id, size or mass. */
  lemma {:induction false} ReplayKeepsRoster(balls: seq<Ball>, offered: seq<Candidate>, env: MathLib)
    ensures SameRoster(balls, Replay(balls, offered, env).state)
    decreases |offered|
  {
    if |offered| > 0 {
      var n := |offered| - 1;
      var c := offered[n];
      ReplayKeepsRoster(balls, offered[..n], env);
      var r := Replay(balls, offered[..n], env);
      if !(|balls| <= c.p || |balls| <= c.q || Skips(r.checkedPairs, balls, c)) {
        SameRosterTrans(balls, r.state, Resolved(r.state[c.p], r.state[c.q], r.state, env));
      }
    }
  }

  /** The slot `k` of the live array still holds the id of ball `k`. */
  lemma RosterAt(balls: seq<Ball>, env: MathLib, offered: seq<Candidate>, k: nat)
    requires k < |balls|
    ensures Replay(balls, offered, env).state[k].id == balls[k].id
  {
    ReplayKeepsRoster(balls, offered, env);
    assert SameBookkeeping(balls[k], Replay(balls, offered, env).state[k]);
  }

  /** A skipped candidate leaves the state as it is. */
  lemma TracksSkip(balls: seq<Ball>, env: MathLib, state: seq<Ball>, checkedPairs: set<PairKey>,
                   offered: seq<Candidate>, c: Candidate)
    requires c.p < |balls| && c.q < |balls|
    requires Tracks(balls, env, state, checkedPairs, offered) && Skips(checkedPairs, balls, c)
    ensures Tracks(balls, env, state, checkedPairs, offered + [c])
  {
    ReplaySnoc(balls, offered, c, env);
  }

  /** A candidate that is not skipped is resolved, and its key recorded. */
  lemma TracksResolve(balls: seq<Ball>, env: MathLib, state: seq<Ball>, checkedPairs: set<PairKey>,
                      offered: seq<Candidate>, c: Candidate)
    requires c.p < |balls| && c.q < |balls|
    requires Tracks(balls, env, state, checkedPairs, offered) && !Skips(checkedPairs, balls, c)
    ensures c.p < |state| && c.q < |state|
    ensures Tracks(balls, env, Resolved(state[c.p], state[c.q], state, env),
                   checkedPairs + {PairKeyOf(balls, c)}, offered + [c])
  {
    ReplaySnoc(balls, offered, c, env);
  }

  // How each loop's candidates grow: before its first pass, and by one more pass.

  lemma SameRowStart(cb: seq<nat>, i: nat, offered: seq<Candidate>)
    requires i < |cb|
    ensures offered + SameRow(cb, i, i + 1) == offered
  {
  }

  lemma SameRowNext(cb: seq<nat>, i: nat, j: nat, offered: seq<Candidate>)
    requires i < j < |cb|
    ensures (offered + SameRow(cb, i, j)) + [Candidate(cb[i], cb[j], false)] == offered + SameRow(cb, i, j + 1)
  {
    AppendAssoc(offered, SameRow(cb, i, j), [Candidate(cb[i], cb[j], false)]);
  }

  lemma SamePairsStart(cb: seq<nat>, offered: seq<Candidate>)
    ensures offered + SamePairs(cb, 0) == offered
  {
  }

  lemma SamePairsNext(cb: seq<nat>, i: nat, offered: seq<Candidate>)
    requires i < |cb|
    ensures (offered + SamePairs(cb, i)) + SameRow(cb, i, |cb|) == offered + SamePairs(cb, i + 1)
  {
    AppendAssoc(offered, SamePairs(cb, i), SameRow(cb, i, |cb|));
  }

  lemma CrossRowStart(b1: nat, nb: seq<nat>, offered: seq<Candidate>)
    ensures offered + CrossRow(b1, nb, 0) == offered
  {
  }

  lemma CrossRowNext(b1: nat, nb: seq<nat>, j: nat, offered: seq<Candidate>)
    requires j < |nb|
    ensures (offered + CrossRow(b1, nb, j)) + [Candidate(b1, nb[j], true)] == offered + CrossRow(b1, nb, j + 1)
  {
    AppendAssoc(offered, CrossRow(b1, nb, j), [Candidate(b1, nb[j], true)]);
  }

  lemma CrossPairsStart(cb: seq<nat>, nb: seq<nat>, offered: seq<Candidate>)
    ensures offered + CrossPairs(cb, nb, 0) == offered
  {
  }

  lemma CrossPairsNext(cb: seq<nat>, nb: seq<nat>, i: nat, offered: seq<Candidate>)
    requires i < |cb|
    ensures (offered + CrossPairs(cb, nb, i)) + CrossRow(cb[i], nb, |nb|) == offered + CrossPairs(cb, nb, i + 1)
  {
    AppendAssoc(offered, CrossPairs(cb, nb, i), CrossRow(cb[i], nb, |nb|));
  }

  /** Against an empty neighbour list the cross loops offer nothing. */
  lemma {:induction false} CrossPairsNoNeighbour(cb: seq<nat>, i: nat)
    requires i <= |cb|
    ensures CrossPairs(cb, [], i) == []
  {
    if i > 0 {
      CrossPairsNoNeighbour(cb, i - 1);
    }
  }

  lemma OffsetNone(g: Grid, c: Cell, d: Cell, offered: seq<Candidate>)
    requires c in g.cells && (d == c || d !in g.cells)
    ensures offered + Offset(g, c, d) == offered
  {
    CrossPairsNoNeighbour(g.cells[c], |g.cells[c]|);
    assert Offset(g, c, d) == [];
  }

  lemma OffsetCross(g: Grid, c: Cell, d: Cell, offered: seq<Candidate>)
    requires c in g.cells && d in g.cells && d != c
    ensures offered + CrossPairs(g.cells[c], g.cells[d], |g.cells[c]|) == offered + Offset(g, c, d)
  {
    assert NeighbourList(g, c, d) == g.cells[d];
  }

  lemma ColumnStart(g: Grid, c: Cell, nx: int, offered: seq<Candidate>)
    requires c in g.cells
    ensures offered + Column(g, c, c.0 + nx, c.1 - 1) == offered
  {
  }

  lemma ColumnNext(g: Grid, c: Cell, nx: int, ny: int, next: int, offered: seq<Candidate>)
    requires c in g.cells && -1 <= ny <= 1 && next == ny + 1
    ensures (offered + Column(g, c, c.0 + nx, c.1 + ny)) + Offset(g, c, (c.0 + nx, c.1 + ny))
         == offered + Column(g, c, c.0 + nx, c.1 + next)
  {
    var y := c.1 + ny;
    assert c.1 + next == y + 1;
    assert Column(g, c, c.0 + nx, y + 1) == Column(g, c, c.0 + nx, y) + Offset(g, c, (c.0 + nx, y));
    AppendAssoc(offered, Column(g, c, c.0 + nx, c.1 + ny), Offset(g, c, (c.0 + nx, c.1 + ny)));
  }

  lemma ColumnsStart(g: Grid, c: Cell, offered: seq<Candidate>)
    requires c in g.cells
    ensures offered + Columns(g, c, c.0 - 1) == offered
  {
  }

  lemma ColumnsNext(g: Grid, c: Cell, nx: int, next: int, offered: seq<Candidate>)
    requires c in g.cells && -1 <= nx <= 1 && next == nx + 1
    ensures (offered + Columns(g, c, c.0 + nx)) + Column(g, c, c.0 + nx, c.1 + 2)
         == offered + Columns(g, c, c.0 + next)
  {
    var x := c.0 + nx;
    assert c.0 + next == x + 1;
    assert Columns(g, c, x + 1) == Columns(g, c, x) + Column(g, c, x, c.1 + 2);
    AppendAssoc(offered, Columns(g, c, c.0 + nx), Column(g, c, c.0 + nx, c.1 + 2));
  }

  lemma CellCandidatesSplit(grid: Grid, key: Cell, offered: seq<Candidate>)
    requires key in grid.cells
    ensures (offered + SamePairs(grid.cells[key], |grid.cells[key]|)) + Columns(grid, key, key.0 + 2)
         == offered + CellCandidates(grid, key)
  {
    AppendAssoc(offered, SamePairs(grid.cells[key], |grid.cells[key]|), Columns(grid, key, key.0 + 2));
  }

  /** The body of the same-cell loops for the pair of slots `p`, `q`. */
  method VisitSamePair(processedBalls: array<Ball>, checkedPairs: set<PairKey>, p: nat, q: nat,
      ghost balls: seq<Ball>, env: MathLib, ghost tracks: Tracker, ghost offered: seq<Candidate>)
    returns (checked: set<PairKey>)
    requires p < |balls| && q < |balls|
    requires IsTracker(tracks, balls, env) && tracks(processedBalls[..], checkedPairs, offered)
    modifies processedBalls
    ensures tracks(processedBalls[..], checked, offered + [Candidate(p, q, false)])
  {
    ghost var c := Candidate(p, q, false);
    assert Tracks(balls, env, processedBalls[..], checkedPairs, offered);
    RosterAt(balls, env, offered, p);
    RosterAt(balls, env, offered, q);
    var pairKey := (processedBalls[p].id, processedBalls[q].id);
    if pairKey in checkedPairs {
      TracksSkip(balls, env, processedBalls[..], checkedPairs, offered, c);
      checked := checkedPairs;
    } else {
      TracksResolve(balls, env, processedBalls[..], checkedPairs, offered, c);
      CheckAndResolveCollision(processedBalls[p], processedBalls[q], processedBalls, env);
      checked := checkedPairs + {pairKey};
    }
  }

  /** The body of the neighbour loops for the pair of slots `p`, `q` of two different cells. */
  method VisitCrossPair(processedBalls: array<Ball>, checkedPairs: set<PairKey>, p: nat, q: nat,
      ghost balls: seq<Ball>, env: MathLib, ghost tracks: Tracker, ghost offered: seq<Candidate>)
    returns (checked: set<PairKey>)
    requires p < |balls| && q < |balls|
    requires IsTracker(tracks, balls, env) && tracks(processedBalls[..], checkedPairs, offered)
    modifies processedBalls
    ensures tracks(processedBalls[..], checked, offered + [Candidate(p, q, true)])
  {
    ghost var c := Candidate(p, q, true);
    assert Tracks(balls, env, processedBalls[..], checkedPairs, offered);
    RosterAt(balls, env, offered, p);
    RosterAt(balls, env, offered, q);
    var pairKey := (processedBalls[p].id, processedBalls[q].id);
    var reversePairKey := (processedBalls[q].id, processedBalls[p].id);
    if pairKey in checkedPairs || reversePairKey in checkedPairs {
      TracksSkip(balls, env, processedBalls[..], checkedPairs, offered, c);
      checked := checkedPairs;
    } else {
      TracksResolve(balls, env, processedBalls[..], checkedPairs, offered, c);
      CheckAndResolveCollision(processedBalls[p], processedBalls[q], processedBalls, env);
      checked := checkedPairs + {pairKey};
    }
  }

  /** The inner same-cell loop for row `i`: the pairs `(i, j)` with `i < j`. */
  method VisitSameRow(processedBalls: array<Ball>, checkedPairs: set<PairKey>, cellBalls: seq<nat>, i: nat,
      ghost balls: seq<Ball>, env: MathLib, ghost tracks: Tracker, ghost offered: seq<Candidate>)
    returns (checked: set<PairKey>)
    requires i < |cellBalls| && ListBelow(cellBalls, |balls|)
    requires IsTracker(tracks, balls, env) && tracks(processedBalls[..], checkedPairs, offered)
    modifies processedBalls
    ensures tracks(processedBalls[..], checked, offered + SameRow(cellBalls, i, |cellBalls|))
  {
    checked := checkedPairs;
    SameRowStart(cellBalls, i, offered);
    for j := i + 1 to |cellBalls|
      invariant tracks(processedBalls[..], checked, offered + SameRow(cellBalls, i, j))
    {
      checked := VisitSamePair(processedBalls, checked, cellBalls[i], cellBalls[j],
          balls, env, tracks, offered + SameRow(cellBalls, i, j));
      SameRowNext(cellBalls, i, j, offered);
    }
  }

  /** The same-cell loops: every pair `i < j` of the cell's list. */
  method VisitSameCell(processedBalls: array<Ball>, checkedPairs: set<PairKey>, cellBalls: seq<nat>,
      ghost balls: seq<Ball>, env: MathLib, ghost tracks: Tracker, ghost offered: seq<Candidate>)
    returns (checked: set<PairKey>)
    requires ListBelow(cellBalls, |balls|)
    requires IsTracker(tracks, balls, env) && tracks(processedBalls[..], checkedPairs, offered)
    modifies processedBalls
    ensures tracks(processedBalls[..], checked, offered + SamePairs(cellBalls, |cellBalls|))
  {
    checked := checkedPairs;
    SamePairsStart(cellBalls, offered);
    for i := 0 to |cellBalls|
      invariant tracks(processedBalls[..], checked, offered + SamePairs(cellBalls, i))
    {
      checked := VisitSameRow(processedBalls, checked, cellBalls, i,
          balls, env, tracks, offered + SamePairs(cellBalls, i));
      SamePairsNext(cellBalls, i, offered);
    }
  }

  /** The inner neighbour loop for one `ball1`: every `ball2` of the neighbour cell. */
  method VisitCrossRow(processedBalls: array<Ball>, checkedPairs: set<PairKey>, ball1: nat, neighborBalls: seq<nat>,
      ghost balls: seq<Ball>, env: MathLib, ghost tracks: Tracker, ghost offered: seq<Candidate>)
    returns (checked: set<PairKey>)
    requires ball1 < |balls| && ListBelow(neighborBalls, |balls|)
    requires IsTracker(tracks, balls, env) && tracks(processedBalls[..], checkedPairs, offered)
    modifies processedBalls
    ensures tracks(processedBalls[..], checked, offered + CrossRow(ball1, neighborBalls, |neighborBalls|))
  {
    checked := checkedPairs;
    CrossRowStart(ball1, neighborBalls, offered);
    for b := 0 to |neighborBalls|
      invariant tracks(processedBalls[..], checked, offered + CrossRow(ball1, neighborBalls, b))
    {
      checked := VisitCrossPair(processedBalls, checked, ball1, neighborBalls[b],
          balls, env, tracks, offered + CrossRow(ball1, neighborBalls, b));
      CrossRowNext(ball1, neighborBalls, b, offered);
    }
  }

  /** The loops over `ball1` of the cell and `ball2` of one neighbour cell. */
  method VisitNeighbour(processedBalls: array<Ball>, checkedPairs: set<PairKey>, cellBalls: seq<nat>, neighborBalls: seq<nat>,
      ghost balls: seq<Ball>, env: MathLib, ghost tracks: Tracker, ghost offered: seq<Candidate>)
    returns (checked: set<PairKey>)
    requires ListBelow(cellBalls, |balls|) && ListBelow(neighborBalls, |balls|)
    requires IsTracker(tracks, balls, env) && tracks(processedBalls[..], checkedPairs, offered)
    modifies processedBalls
    ensures tracks(processedBalls[..], checked, offered + CrossPairs(cellBalls, neighborBalls, |cellBalls|))
  {
    checked := checkedPairs;
    CrossPairsStart(cellBalls, neighborBalls, offered);
    for a := 0 to |cellBalls|
      invariant tracks(processedBalls[..], checked, offered + CrossPairs(cellBalls, neighborBalls, a))
    {
      checked := VisitCrossRow(processedBalls, checked, cellBalls[a], neighborBalls,
          balls, env, tracks, offered + CrossPairs(cellBalls, neighborBalls, a));
      CrossPairsNext(cellBalls, neighborBalls, a, offered);
    }
  }

  /** One pass of the `ny` loop: the neighbour cell at offset `(nx, ny)`, if it is another cell of the map. */
  method VisitOffset(grid: Grid, key: Cell, nx: int, ny: int, processedBalls: array<Ball>, checkedPairs: set<PairKey>,
      ghost balls: seq<Ball>, env: MathLib, ghost tracks: Tracker, ghost offered: seq<Candidate>)
    returns (checked: set<PairKey>)
    requires key in grid.cells && SlotsBelow(grid, |balls|)
    requires IsTracker(tracks, balls, env) && tracks(processedBalls[..], checkedPairs, offered)
    modifies processedBalls
    ensures tracks(processedBalls[..], checked, offered + Offset(grid, key, (key.0 + nx, key.1 + ny)))
  {
    checked := checkedPairs;
    // Skip the current cell
    if nx == 0 && ny == 0 {
      OffsetNone(grid, key, (key.0 + nx, key.1 + ny), offered);
      return;
    }
    var neighborKey := (key.0 + nx, key.1 + ny);
    if neighborKey in grid.cells {
      var cellBalls, neighborBalls := grid.cells[key], grid.cells[neighborKey];
      assert ListBelow(cellBalls, |balls|) && ListBelow(neighborBalls, |balls|);
      checked := VisitNeighbour(processedBalls, checked, cellBalls, neighborBalls, balls, env, tracks, offered);
      OffsetCross(grid, key, neighborKey, offered);
    } else {
      OffsetNone(grid, key, neighborKey, offered);
    }
  }

  /** The `ny` loop for the neighbour column `key.0 + nx`. */
  method VisitColumn(grid: Grid, key: Cell, nx: int, processedBalls: array<Ball>, checkedPairs: set<PairKey>,
      ghost balls: seq<Ball>, env: MathLib, ghost tracks: Tracker, ghost offered: seq<Candidate>)
    returns (checked: set<PairKey>)
    requires key in grid.cells && SlotsBelow(grid, |balls|)
    requires IsTracker(tracks, balls, env) && tracks(processedBalls[..], checkedPairs, offered)
    modifies processedBalls
    ensures tracks(processedBalls[..], checked, offered + Column(grid, key, key.0 + nx, key.1 + 2))
  {
    checked := checkedPairs;
    ColumnStart(grid, key, nx, offered);
    var ny := -1;
    while ny < 2
      invariant -1 <= ny <= 2
      invariant tracks(processedBalls[..], checked, offered + Column(grid, key, key.0 + nx, key.1 + ny))
    {
      ghost var done := offered + Column(grid, key, key.0 + nx, key.1 + ny);
      checked := VisitOffset(grid, key, nx, ny, processedBalls, checked, balls, env, tracks, done);
      ghost var prev := ny;
      ny := ny + 1;
      ColumnNext(grid, key, nx, prev, ny, offered);
    }
  }

  /** The `nx` loop: the eight neighbour offsets of the cell `key`. */
  method VisitNeighbours(grid: Grid, key: Cell, processedBalls: array<Ball>, checkedPairs: set<PairKey>,
      ghost balls: seq<Ball>, env: MathLib, ghost tracks: Tracker, ghost offered: seq<Candidate>)
    returns (checked: set<PairKey>)
    requires key in grid.cells && SlotsBelow(grid, |balls|)
    requires IsTracker(tracks, balls, env) && tracks(processedBalls[..], checkedPairs, offered)
    modifies processedBalls
    ensures tracks(processedBalls[..], checked, offered + Columns(grid, key, key.0 + 2))
  {
    checked := checkedPairs;
    ColumnsStart(grid, key, offered);
    var nx := -1;
    while nx < 2
      invariant -1 <= nx <= 2
      invariant tracks(processedBalls[..], checked, offered + Columns(grid, key, key.0 + nx))
    {
      ghost var done := offered + Columns(grid, key, key.0 + nx);
      checked := VisitColumn(grid, key, nx, processedBalls, checked, balls, env, tracks, done);
      ghost var prev := nx;
      nx := nx + 1;
      ColumnsNext(grid, key, prev, nx, offered);
    }
  }

  /** The body of the `forEach` for the cell `key`. */
  method VisitCell(grid: Grid, key: Cell, processedBalls: array<Ball>, checkedPairs: set<PairKey>,
      ghost balls: seq<Ball>, env: MathLib, ghost tracks: Tracker, ghost offered: seq<Candidate>)
    returns (checked: set<PairKey>)
    requires key in grid.cells && SlotsBelow(grid, |balls|)
    requires IsTracker(tracks, balls, env) && tracks(processedBalls[..], checkedPairs, offered)
    modifies processedBalls
    ensures tracks(processedBalls[..], checked, offered + CellCandidates(grid, key))
  {
    var cellBalls := grid.cells[key];
    checked := VisitSameCell(processedBalls, checkedPairs, cellBalls, balls, env, tracks, offered);
    checked := VisitNeighbours(grid, key, processedBalls, checked,
        balls, env, tracks, offered + SamePairs(cellBalls, |cellBalls|));
    CellCandidatesSplit(grid, key, offered);
  }

  /** The grid of `balls`, as step 2 relies on it: every key in `order` and every slot a ball. */
  lemma GridForPass(balls: seq<Ball>, cs: real)
    requires cs != 0.0
    ensures OrderKeyed(GridOf(balls, cs)) && SlotsBelow(GridOf(balls, cs), |balls|)
  {
    GridForIsGridOfKeys(CellsOf(balls, cs));
    PassOffers(balls, cs);
  }

  /** Having offered every candidate of the pass, the state is that of `Pass`. */
  lemma TracksPass(balls: seq<Ball>, cs: real, env: MathLib, state: seq<Ball>, checkedPairs: set<PairKey>)
    requires cs != 0.0 && OrderKeyed(GridOf(balls, cs))
    requires Tracks(balls, env, state, checkedPairs, PassCandidates(GridOf(balls, cs)))
    ensures state == Pass(balls, cs, env)
  {
    PassOffers(balls, cs);
    ReplayIsFilteredCalls(balls, PassCandidates(GridOf(balls, cs)), env);
  }

  /** `processCollisionsWithGrid`: the resolved balls, one pass over the grid. */
  method ProcessCollisionsWithGrid(balls: seq<Ball>, gridCellSize: real, env: MathLib) returns (result: seq<Ball>)
    requires gridCellSize != 0.0
    ensures result == Pass(balls, gridCellSize, env)
  {
    // Step 1: the spatial grid
    var grid := BuildGrid(balls, gridCellSize);
    GridForPass(balls, gridCellSize);

    // Step 2: the shallow copy, the filter and the cells in map order
    var processedBalls := new Ball[|balls|](k requires 0 <= k < |balls| => balls[k]);
    var checkedPairs: set<PairKey> := {};
    ghost var parts := CellParts(grid);
    ghost var tracks: Tracker := (state, checked, offered) => Tracks(balls, env, state, checked, offered);
    assert IsTracker(tracks, balls, env);
    assert processedBalls[..] == balls;
    assert parts[..0] == [];
    for n := 0 to |grid.order|
      invariant tracks(processedBalls[..], checkedPairs, Flatten(parts[..n]))
    {
      assert parts[n] == CellCandidates(grid, grid.order[n]);
      checkedPairs := VisitCell(grid, grid.order[n], processedBalls, checkedPairs, balls, env, tracks, Flatten(parts[..n]));
      FlattenSnoc(parts, n);
    }
    assert parts[..|grid.order|] == parts;
    TracksPass(balls, gridCellSize, env, processedBalls[..], checkedPairs);
    result := processedBalls[..];
  }
}
