/** The ball record that the collision worker receives, updates and posts back. */
module Balls {

  datatype Option<T> = None | Some(value: T)

  /** One ball. `velocity` is the vertical speed; `rotation` is cosmetic. */
  datatype Ball = Ball(
    id: int,
    x: real,
    y: real,
    size: real,
    color: string,
    velocity: real,
    rotation: real,
    bounceCount: int)

  /** Integer grid-cell coordinates `(floor(x / cs), floor(y / cs))`. */
  type Cell = (int, int)

  /** The dedup key of an ordered pair of ball ids. */
  type PairKey = (int, int)

  /** The ids of `s` are pairwise different. */
  predicate DistinctIds(s: seq<Ball>)
  {
    forall i, j :: 0 <= i < j < |s| ==> s[i].id != s[j].id
  }

  /** `b` agrees with `a` on everything a collision may not change. */
  predicate SameBookkeeping(a: Ball, b: Ball)
  {
    a.id == b.id && a.size == b.size && a.color == b.color &&
    a.rotation == b.rotation && a.bounceCount == b.bounceCount
  }

  /** Same length, same order, and every slot keeps its bookkeeping fields. */
  predicate SameRoster(a: seq<Ball>, b: seq<Ball>)
  {
    |a| == |b| && forall k :: 0 <= k < |a| ==> SameBookkeeping(a[k], b[k])
  }

  lemma SameRosterTrans(a: seq<Ball>, b: seq<Ball>, c: seq<Ball>)
    requires SameRoster(a, b) && SameRoster(b, c)
    ensures SameRoster(a, c)
  {
  }

  lemma SameRosterKeepsDistinctIds(a: seq<Ball>, b: seq<Ball>)
    requires SameRoster(a, b) && DistinctIds(a)
    ensures DistinctIds(b)
  {
    forall i, j | 0 <= i < j < |b| ensures b[i].id != b[j].id {
      assert SameBookkeeping(a[i], b[i]) && SameBookkeeping(a[j], b[j]);
    }
  }

  /** Sum of `f` over the balls of `s`. */
  function Total(s: seq<Ball>, f: Ball -> real): real
    decreases |s|
  {
    if s == [] then 0.0 else Total(s[..|s| - 1], f) + f(s[|s| - 1])
  }

  /** Replacing one ball changes the sum by exactly that ball's difference. */
  lemma {:induction false} TotalUpdate(s: seq<Ball>, i: nat, b: Ball, f: Ball -> real)
    requires i < |s|
    ensures Total(s[i := b], f) == Total(s, f) - f(s[i]) + f(b)
  {
    var n := |s|;
    if i == n - 1 {
      assert s[i := b][..n - 1] == s[..n - 1];
    } else {
      assert s[i := b][..n - 1] == s[..n - 1][i := b];
      TotalUpdate(s[..n - 1], i, b, f);
    }
  }

  function XOf(b: Ball): real { b.x }
  function YOf(b: Ball): real { b.y }

  /** Mass proportional to area: `size * size`. */
  function Mass(b: Ball): real { b.size * b.size }

  function MomentumOf(b: Ball): real { Mass(b) * b.velocity }
  function EnergyOf(b: Ball): real { Mass(b) * b.velocity * b.velocity }
}
