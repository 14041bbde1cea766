/**
 * The worker's message handler: it takes the balls out of the message, hands
 * them to the grid pass unless there are fewer than two, and posts the
 * result back.
 */
module Worker {
  import opened Balls
  import opened SpatialGrid
  import opened Candidates
  import opened Resolver
  import opened CollisionPass
  import opened Process

  /**
   * The fields of the incoming message. A missing or null `balls` is `None`;
   * a missing, null or NaN `gridCellSize` is `None`. The window sizes are
   * read but not used.
   */
  datatype Message = Message(
    balls: Option<seq<Ball>>,
    windowWidth: real,
    windowHeight: real,
    gridCellSize: Option<real>)

  /** The fallback cell size when the message gives none, or gives 0. */
  const DefaultCellSize: real := 200.0

  /** `gridCellSize || 200`: every falsy cell size becomes the default. */
  function CellSizeOrDefault(gridCellSize: Option<real>): (cs: real)
    ensures cs != 0.0
    ensures gridCellSize.Some? && gridCellSize.value != 0.0 ==> cs == gridCellSize.value
    ensures gridCellSize.None? || gridCellSize.value == 0.0 ==> cs == DefaultCellSize
  {
    match gridCellSize
    case Some(v) => if v != 0.0 then v else DefaultCellSize
    case None => DefaultCellSize
  }

  /** `balls || []`. */
  function BallsOrEmpty(msg: Message): seq<Ball>
  {
    match msg.balls
    case Some(b) => b
    case None => []
  }

  /**
   * The handler. `posted` is what it hands to `postMessage`: the balls as
   * received when there are none or one, otherwise the grid pass over them.
   */
  method OnMessage(msg: Message, env: MathLib) returns (posted: seq<Ball>)
    ensures msg.balls.None? ==> posted == []
    ensures msg.balls.Some? && |msg.balls.value| <= 1 ==> posted == msg.balls.value
    ensures msg.balls.Some? && |msg.balls.value| > 1 ==>
              posted == Pass(msg.balls.value, CellSizeOrDefault(msg.gridCellSize), env)
    ensures SameRoster(BallsOrEmpty(msg), posted)
    ensures DistinctIds(BallsOrEmpty(msg)) ==> Conserves(BallsOrEmpty(msg), posted)
  {
    if msg.balls.None? || |msg.balls.value| <= 1 {
      posted := BallsOrEmpty(msg);
      return;
    }
    var balls := msg.balls.value;
    var cs := CellSizeOrDefault(msg.gridCellSize);
    posted := ProcessCollisionsWithGrid(balls, cs, env);
    if DistinctIds(balls) {
      PassConserves(balls, cs, env);
    }
  }

  /**
   * The early return for zero or one ball posts what the grid pass would
   * have produced: with fewer than two balls there is no pair to resolve.
   */
  lemma FewBallsPassUnchanged(balls: seq<Ball>, cs: real, env: MathLib)
    requires cs != 0.0 && |balls| <= 1
    ensures PassCalls(balls, cs) == []
    ensures Pass(balls, cs, env) == balls
  {
    PassCallsAreOffered(balls, cs);
    var calls := PassCalls(balls, cs);
    assert |calls| > 0 ==> calls[0].p == 0;
  }
}
