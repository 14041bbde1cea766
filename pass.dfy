/**
 * Step 2 of `processCollisionsWithGrid`, described without its loops: the
 * candidate pairs in loop order, the `checkedPairs` filter that decides which
 * of them reach the resolver, and the resolver applied to each of those in
 * turn. The theorems say which pairs of balls are resolved, that none is
 * resolved twice, and what the whole pass conserves.
 */
module CollisionPass {
  import opened Balls
  import opened SpatialGrid
  import opened Candidates
  import opened Resolver

  /** Every candidate names two slots below `n`. */
  predicate InRange(n: nat, cands: seq<Candidate>)
  {
    forall t :: 0 <= t < |cands| ==> cands[t].p < n && cands[t].q < n
  }

  /** The key `${ball1.id}-${ball2.id}` of a candidate, as the pair of ids. */
  function PairKeyOf(balls: seq<Ball>, c: Candidate): PairKey
    requires c.p < |balls| && c.q < |balls|
  {
    (balls[c.p].id, balls[c.q].id)
  }

  /** The key of the same two balls taken the other way round. */
  function ReversePairKeyOf(balls: seq<Ball>, c: Candidate): PairKey
    requires c.p < |balls| && c.q < |balls|
  {
    (balls[c.q].id, balls[c.p].id)
  }

  /**
   * The `continue` test: a same-cell pair is skipped when its key was
   * checked, a cross pair also when its reverse key was.
   */
  predicate Skips(checked: set<PairKey>, balls: seq<Ball>, c: Candidate)
    requires c.p < |balls| && c.q < |balls|
  {
    PairKeyOf(balls, c) in checked || (c.cross && ReversePairKeyOf(balls, c) in checked)
  }

  /** The keys of a list of candidates. */
  function KeysOf(balls: seq<Ball>, calls: seq<Candidate>): set<PairKey>
    requires InRange(|balls|, calls)
    decreases |calls|
  {
    if calls == [] then {}
    else KeysOf(balls, calls[..|calls| - 1]) + {PairKeyOf(balls, calls[|calls| - 1])}
  }

  /** The set `checkedPairs` and the candidates handed to the resolver so far. */
  datatype Filtered = Filtered(checked: set<PairKey>, calls: seq<Candidate>)

  /**
   * The `checkedPairs` filter over the candidates in loop order: a candidate
   * that is not skipped is handed to the resolver and its key is added.
   */
  function Dedupe(balls: seq<Ball>, cands: seq<Candidate>): (r: Filtered)
    requires InRange(|balls|, cands)
    ensures InRange(|balls|, r.calls)
    decreases |cands|
  {
    if cands == [] then Filtered({}, [])
    else
      var f := Dedupe(balls, cands[..|cands| - 1]);
      var c := cands[|cands| - 1];
      if Skips(f.checked, balls, c) then f
      else Filtered(f.checked + {PairKeyOf(balls, c)}, f.calls + [c])
  }

  /** The resolver applied to each call in turn, to the balls' current state. */
  function ApplyAll(s: seq<Ball>, calls: seq<Candidate>, env: MathLib): (r: seq<Ball>)
    requires InRange(|s|, calls)
    ensures |r| == |s|
    decreases |calls|
  {
    if calls == [] then s
    else
      var t := ApplyAll(s, calls[..|calls| - 1], env);
      var c := calls[|calls| - 1];
      Resolved(t[c.p], t[c.q], t, env)
  }

  /** The calls keep every ball in its slot, with its id, size, colour, rotation and bounce count. */
  lemma {:induction false} ApplyAllKeepsRoster(s: seq<Ball>, calls: seq<Candidate>, env: MathLib)
    requires InRange(|s|, calls)
    ensures SameRoster(s, ApplyAll(s, calls, env))
    decreases |calls|
  {
    if calls != [] {
      var n := |calls| - 1;
      ApplyAllKeepsRoster(s, calls[..n], env);
      var t := ApplyAll(s, calls[..n], env);
      SameRosterTrans(s, t, Resolved(t[calls[n].p], t[calls[n].q], t, env));
    }
  }

  /**
   * The candidate pairs of the grid of `balls` are exactly the offered pairs,
   * and so name slots of `balls`.
   */
  lemma PassOffers(balls: seq<Ball>, cs: real)
    requires cs != 0.0
    ensures OrderKeyed(GridOf(balls, cs))
    ensures forall c :: c in PassCandidates(GridOf(balls, cs)) <==> Offered(CellsOf(balls, cs), c)
    ensures InRange(|balls|, PassCandidates(GridOf(balls, cs)))
  {
    var keys := CellsOf(balls, cs);
    PassCandidatesAreOffered(keys, Candidate(0, 0, false));
    forall c ensures c in PassCandidates(GridOf(balls, cs)) <==> Offered(keys, c) {
      PassCandidatesAreOffered(keys, c);
    }
    var l := PassCandidates(GridOf(balls, cs));
    forall t | 0 <= t < |l| ensures l[t].p < |balls| && l[t].q < |balls| {
      assert l[t] in l;
    }
  }

  /** The pairs `processCollisionsWithGrid` hands to the resolver, in order. */
  function PassCalls(balls: seq<Ball>, cs: real): (calls: seq<Candidate>)
    requires cs != 0.0
    ensures InRange(|balls|, calls)
  {
    PassOffers(balls, cs);
    Dedupe(balls, PassCandidates(GridOf(balls, cs))).calls
  }

  /** The balls after `processCollisionsWithGrid`, slot by slot. */
  function Pass(balls: seq<Ball>, cs: real, env: MathLib): (r: seq<Ball>)
    requires cs != 0.0
    ensures SameRoster(balls, r)
  {
    ApplyAllKeepsRoster(balls, PassCalls(balls, cs), env);
    ApplyAll(balls, PassCalls(balls, cs), env)
  }

  // ---------------------------------------------------------------------------
  // The filter, for any list of candidates

  lemma {:induction false} KeysHas(balls: seq<Ball>, calls: seq<Candidate>, t: nat)
    requires InRange(|balls|, calls) && t < |calls|
    ensures PairKeyOf(balls, calls[t]) in KeysOf(balls, calls)
    decreases |calls|
  {
    if t < |calls| - 1 {
      KeysHas(balls, calls[..|calls| - 1], t);
    }
  }

  lemma {:induction false} KeysFrom(balls: seq<Ball>, calls: seq<Candidate>, k: PairKey) returns (t: nat)
    requires InRange(|balls|, calls) && k in KeysOf(balls, calls)
    ensures t < |calls| && PairKeyOf(balls, calls[t]) == k
    decreases |calls|
  {
    var n := |calls| - 1;
    if PairKeyOf(balls, calls[n]) == k {
      t := n;
    } else {
      t := KeysFrom(balls, calls[..n], k);
    }
  }

  /** Every call is one of the candidates. */
  lemma {:induction false} CallIsCandidate(balls: seq<Ball>, cands: seq<Candidate>, t: nat) returns (u: nat)
    requires InRange(|balls|, cands) && t < |Dedupe(balls, cands).calls|
    ensures u < |cands| && cands[u] == Dedupe(balls, cands).calls[t]
    decreases |cands|
  {
    var n := |cands| - 1;
    var f := Dedupe(balls, cands[..n]);
    if t < |f.calls| {
      u := CallIsCandidate(balls, cands[..n], t);
    } else {
      u := n;
    }
  }

  /** One step of the filter: the calls of the prefix, and the last candidate unless it is skipped. */
  lemma DedupeStep(balls: seq<Ball>, cands: seq<Candidate>)
    requires InRange(|balls|, cands) && |cands| > 0
    ensures var f, c := Dedupe(balls, cands[..|cands| - 1]), cands[|cands| - 1];
            Dedupe(balls, cands).calls == if Skips(f.checked, balls, c) then f.calls else f.calls + [c]
  {
  }

  /** `checkedPairs` holds exactly the keys of the calls made. */
  lemma {:induction false} DedupeKeys(balls: seq<Ball>, cands: seq<Candidate>)
    requires InRange(|balls|, cands)
    ensures Dedupe(balls, cands).checked == KeysOf(balls, Dedupe(balls, cands).calls)
    decreases |cands|
  {
    if cands != [] {
      var n := |cands| - 1;
      var f := Dedupe(balls, cands[..n]);
      DedupeKeys(balls, cands[..n]);
      if !Skips(f.checked, balls, cands[n]) {
        assert (f.calls + [cands[n]])[..|f.calls|] == f.calls;
      }
    }
  }

  /**
   * Every candidate is covered by a call with its key, or, for a cross pair,
   * with its reverse key.
   */
  lemma {:induction false} CandidateIsCovered(balls: seq<Ball>, cands: seq<Candidate>, u: nat) returns (t: nat)
    requires InRange(|balls|, cands) && u < |cands|
    ensures var calls := Dedupe(balls, cands).calls;
            && t < |calls|
            && (PairKeyOf(balls, calls[t]) == PairKeyOf(balls, cands[u]) ||
                (cands[u].cross && PairKeyOf(balls, calls[t]) == ReversePairKeyOf(balls, cands[u])))
    decreases |cands|
  {
    var n := |cands| - 1;
    var prefix := cands[..n];
    var f := Dedupe(balls, prefix);
    var c := cands[n];
    DedupeStep(balls, cands);
    if u < n {
      assert prefix[u] == cands[u];
      t := CandidateIsCovered(balls, prefix, u);
    } else if !Skips(f.checked, balls, c) {
      t := |f.calls|;
    } else {
      DedupeKeys(balls, prefix);
      if PairKeyOf(balls, c) in f.checked {
        t := KeysFrom(balls, f.calls, PairKeyOf(balls, c));
      } else {
        t := KeysFrom(balls, f.calls, ReversePairKeyOf(balls, c));
      }
    }
  }

  /**
   * A call never repeats the key of an earlier call, and a cross call never
   * has the reverse of an earlier call's key.
   */
  lemma {:induction false} CallsAreFresh(balls: seq<Ball>, cands: seq<Candidate>, t1: nat, t2: nat)
    requires InRange(|balls|, cands) && t1 < t2 < |Dedupe(balls, cands).calls|
    ensures var calls := Dedupe(balls, cands).calls;
            && PairKeyOf(balls, calls[t2]) != PairKeyOf(balls, calls[t1])
            && (calls[t2].cross ==> ReversePairKeyOf(balls, calls[t2]) != PairKeyOf(balls, calls[t1]))
    decreases |cands|
  {
    var n := |cands| - 1;
    var f := Dedupe(balls, cands[..n]);
    if t2 < |f.calls| {
      CallsAreFresh(balls, cands[..n], t1, t2);
    } else {
      DedupeKeys(balls, cands[..n]);
      KeysHas(balls, f.calls, t1);
    }
  }

  // ---------------------------------------------------------------------------
  // Which pairs of balls meet in the resolver

  /** A call joins the two slots `p` and `q`, in either order. */
  predicate Joins(c: Candidate, p: nat, q: nat)
  {
    (c.p == p && c.q == q) || (c.p == q && c.q == p)
  }

  lemma SameIdSameSlot(s: seq<Ball>, i: nat, j: nat)
    requires DistinctIds(s) && i < |s| && j < |s| && s[i].id == s[j].id
    ensures i == j
  {
  }

  /** With distinct ids, two in-range candidates with the same key name the same slots. */
  lemma SameKeySameSlots(balls: seq<Ball>, c: Candidate, d: Candidate)
    requires DistinctIds(balls) && c.p < |balls| && c.q < |balls| && d.p < |balls| && d.q < |balls|
    requires PairKeyOf(balls, c) == PairKeyOf(balls, d)
    ensures c.p == d.p && c.q == d.q
  {
    SameIdSameSlot(balls, c.p, d.p);
    SameIdSameSlot(balls, c.q, d.q);
  }

  /** Every call is an offered pair when every candidate is. */
  lemma CallsOffered(balls: seq<Ball>, keys: seq<Cell>, cands: seq<Candidate>, t: nat)
    requires InRange(|balls|, cands) && t < |Dedupe(balls, cands).calls|
    requires forall c :: c in cands ==> Offered(keys, c)
    ensures Offered(keys, Dedupe(balls, cands).calls[t])
  {
    var u := CallIsCandidate(balls, cands, t);
    assert cands[u] in cands;
  }

  /** A pair of slots that an offered pair joins lies in the same or in neighbouring cells. */
  lemma JoinedPairsAreAdjacent(keys: seq<Cell>, c: Candidate, p: nat, q: nat)
    requires Offered(keys, c) && Joins(c, p, q)
    ensures p != q && p < |keys| && q < |keys| && Adjacent(keys[p], keys[q])
  {
    if c.p == q {
      assert Adjacent(keys[q], keys[p]);
    }
  }

  /** Two different balls in the same or in neighbouring cells meet in the resolver. */
  lemma AdjacentPairsAreJoined(balls: seq<Ball>, keys: seq<Cell>, cands: seq<Candidate>, p: nat, q: nat) returns (t: nat)
    requires DistinctIds(balls) && |keys| == |balls| && InRange(|balls|, cands)
    requires forall c :: Offered(keys, c) ==> c in cands
    requires p < |balls| && q < |balls| && p != q && Adjacent(keys[p], keys[q])
    ensures t < |Dedupe(balls, cands).calls| && Joins(Dedupe(balls, cands).calls[t], p, q)
  {
    var c := if keys[p] != keys[q] then Candidate(p, q, true)
             else if p < q then Candidate(p, q, false)
             else Candidate(q, p, false);
    assert Offered(keys, c);
    var u :| 0 <= u < |cands| && cands[u] == c;
    t := CandidateIsCovered(balls, cands, u);
    var d := Dedupe(balls, cands).calls[t];
    if PairKeyOf(balls, d) == PairKeyOf(balls, c) {
      SameKeySameSlots(balls, d, c);
    } else {
      SameKeySameSlots(balls, d, Candidate(c.q, c.p, c.cross));
    }
  }

  /** No two calls join the same two slots. */
  lemma JoinedAtMostOnce(balls: seq<Ball>, keys: seq<Cell>, cands: seq<Candidate>, p: nat, q: nat, t1: nat, t2: nat)
    requires DistinctIds(balls) && InRange(|balls|, cands)
    requires forall c :: c in cands ==> Offered(keys, c)
    requires t1 < t2 < |Dedupe(balls, cands).calls|
    ensures !(Joins(Dedupe(balls, cands).calls[t1], p, q) && Joins(Dedupe(balls, cands).calls[t2], p, q))
  {
    var calls := Dedupe(balls, cands).calls;
    var c1, c2 := calls[t1], calls[t2];
    if Joins(c1, p, q) && Joins(c2, p, q) {
      CallsAreFresh(balls, cands, t1, t2);
      CallsOffered(balls, keys, cands, t1);
      CallsOffered(balls, keys, cands, t2);
    }
  }

  // ---------------------------------------------------------------------------
  // What the pass conserves

  /** Two ball states with the same sums of x, y, momentum and kinetic energy. */
  predicate Conserves(a: seq<Ball>, b: seq<Ball>)
  {
    && Total(b, XOf) == Total(a, XOf)
    && Total(b, YOf) == Total(a, YOf)
    && Total(b, MomentumOf) == Total(a, MomentumOf)
    && Total(b, EnergyOf) == Total(a, EnergyOf)
  }

  lemma TotalPair(s: seq<Ball>, p: nat, q: nat, a: Ball, b: Ball, f: Ball -> real)
    requires p < |s| && q < |s| && p != q
    ensures Total(s[p := a][q := b], f) == Total(s, f) - f(s[p]) - f(s[q]) + f(a) + f(b)
  {
    TotalUpdate(s, p, a, f);
    TotalUpdate(s[p := a], q, b, f);
  }

  /** Replacing two balls by two with the same pairwise sums keeps the totals. */
  lemma PairConserves(s: seq<Ball>, p: nat, q: nat, a: Ball, b: Ball)
    requires p < |s| && q < |s| && p != q
    requires XOf(a) + XOf(b) == XOf(s[p]) + XOf(s[q])
    requires YOf(a) + YOf(b) == YOf(s[p]) + YOf(s[q])
    requires MomentumOf(a) + MomentumOf(b) == MomentumOf(s[p]) + MomentumOf(s[q])
    requires EnergyOf(a) + EnergyOf(b) == EnergyOf(s[p]) + EnergyOf(s[q])
    ensures Conserves(s, s[p := a][q := b])
  {
    TotalPair(s, p, q, a, b, XOf);
    TotalPair(s, p, q, a, b, YOf);
    TotalPair(s, p, q, a, b, MomentumOf);
    TotalPair(s, p, q, a, b, EnergyOf);
  }

  /** The exchange laws, read as sums over the two balls before and after. */
  lemma LawsAsSums(a0: Ball, b0: Ball, a: Ball, b: Ball)
    requires a.size == a0.size && b.size == b0.size
    requires ConservesMomentum(Mass(a0), Mass(b0), a0.velocity, b0.velocity, a.velocity, b.velocity)
    requires ConservesEnergy(Mass(a0), Mass(b0), a0.velocity, b0.velocity, a.velocity, b.velocity)
    ensures MomentumOf(a) + MomentumOf(b) == MomentumOf(a0) + MomentumOf(b0)
    ensures EnergyOf(a) + EnergyOf(b) == EnergyOf(a0) + EnergyOf(b0)
  {
    assert Mass(a) == Mass(a0) && Mass(b) == Mass(b0);
  }

  /** With distinct ids, resolving the balls of two different slots conserves the sums. */
  lemma ResolvedConserves(s: seq<Ball>, p: nat, q: nat, env: MathLib)
    requires DistinctIds(s) && p < |s| && q < |s| && p != q
    ensures Conserves(s, Resolved(s[p], s[q], s, env))
  {
    var r := Resolved(s[p], s[q], s, env);
    FindIndexOfDistinct(s, p);
    FindIndexOfDistinct(s, q);
    if Collides(s[p], s[q], env) {
      ResolvedDisplacement(s[p], s[q], s, env);
      ResolvedExchange(s[p], s[q], s, env);
      assert SameBookkeeping(s[p], r[p]) && SameBookkeeping(s[q], r[q]);
      LawsAsSums(s[p], s[q], r[p], r[q]);
      assert r == s[p := r[p]][q := r[q]];
      PairConserves(s, p, q, r[p], r[q]);
    }
  }

  lemma {:induction false} ApplyAllConserves(s: seq<Ball>, calls: seq<Candidate>, env: MathLib)
    requires DistinctIds(s) && InRange(|s|, calls)
    requires forall t :: 0 <= t < |calls| ==> calls[t].p != calls[t].q
    ensures Conserves(s, ApplyAll(s, calls, env))
    decreases |calls|
  {
    if calls != [] {
      var n := |calls| - 1;
      ApplyAllConserves(s, calls[..n], env);
      var t := ApplyAll(s, calls[..n], env);
      ApplyAllKeepsRoster(s, calls[..n], env);
      SameRosterKeepsDistinctIds(s, t);
      ResolvedConserves(t, calls[n].p, calls[n].q, env);
    }
  }

  // ---------------------------------------------------------------------------
  // The theorems about the pass

  /**
   * Two different balls of distinct ids meet in the resolver exactly when their
   * cells are the same or neighbours, and at most once.
   */
  lemma PassResolvesEachAdjacentPairOnce(balls: seq<Ball>, cs: real, p: nat, q: nat)
    requires cs != 0.0 && DistinctIds(balls) && p < |balls| && q < |balls| && p != q
    ensures var calls := PassCalls(balls, cs);
            && ((exists t :: 0 <= t < |calls| && Joins(calls[t], p, q)) <==>
                Adjacent(CellOf(balls[p], cs), CellOf(balls[q], cs)))
            && (forall t1, t2 :: 0 <= t1 < t2 < |calls| && Joins(calls[t1], p, q) ==> !Joins(calls[t2], p, q))
  {
    PassOffers(balls, cs);
    var keys, cands := CellsOf(balls, cs), PassCandidates(GridOf(balls, cs));
    var calls := PassCalls(balls, cs);
    assert calls == Dedupe(balls, cands).calls;
    if Adjacent(keys[p], keys[q]) {
      var t := AdjacentPairsAreJoined(balls, keys, cands, p, q);
    }
    forall t | 0 <= t < |calls| && Joins(calls[t], p, q) ensures Adjacent(keys[p], keys[q]) {
      CallsOffered(balls, keys, cands, t);
      JoinedPairsAreAdjacent(keys, calls[t], p, q);
    }
    forall t1, t2 | 0 <= t1 < t2 < |calls| && Joins(calls[t1], p, q) ensures !Joins(calls[t2], p, q) {
      JoinedAtMostOnce(balls, keys, cands, p, q, t1, t2);
    }
  }

  /**
   * Every pair handed to the resolver is two different balls: of the same
   * cell, the earlier first, or of two different neighbouring cells.
   */
  lemma PassCallsAreOffered(balls: seq<Ball>, cs: real)
    requires cs != 0.0
    ensures var calls := PassCalls(balls, cs);
            forall t :: 0 <= t < |calls| ==> Offered(CellsOf(balls, cs), calls[t]) && calls[t].p != calls[t].q
  {
    PassOffers(balls, cs);
    var keys, cands := CellsOf(balls, cs), PassCandidates(GridOf(balls, cs));
    var calls := PassCalls(balls, cs);
    assert calls == Dedupe(balls, cands).calls;
    forall t | 0 <= t < |calls| ensures Offered(keys, calls[t]) {
      CallsOffered(balls, keys, cands, t);
    }
  }

  /**
   * With distinct ids, the pass keeps the sums of x, of y, of momentum and of
   * kinetic energy, and every ball's bookkeeping fields.
   */
  lemma PassConserves(balls: seq<Ball>, cs: real, env: MathLib)
    requires cs != 0.0 && DistinctIds(balls)
    ensures Conserves(balls, Pass(balls, cs, env))
  {
    PassCallsAreOffered(balls, cs);
    ApplyAllConserves(balls, PassCalls(balls, cs), env);
  }
}
