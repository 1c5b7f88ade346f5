/**
 * The `Player` actor: its fields change in place as `walk`, `update` and the
 * tween completions run. Every method is tied to the state-machine functions
 * of `Motion` through `Snapshot()`, and keeps `Motion.Consistent`.
 */
module PlayerActor {
  import opened Directions
  import opened Animation
  import opened Input
  import opened Motion

  class Player {
    var state: PlayerState
    var dir: Dir
    var colRow: Point
    var restTime: int
    /** The tween in flight on `colRow`; its completion is a method call here. */
    var tween: Tween
    /** The animation last requested by `updateAnim`. */
    var anim: string
    /** How many "walked" events the player has emitted. */
    var walked: nat

    ghost function Snapshot(): View
      reads this
    {
      View(state, dir, colRow, restTime, tween, anim, walked)
    }

    ghost predicate Valid()
      reads this
    {
      Consistent(Snapshot())
    }

    /** A new player stands idle on cell (1, 1) facing right, showing the
        animation that loading the sprite sheet finally plays. */
    constructor ()
      ensures Valid()
      ensures Snapshot() == View(Idle, Right, Point(1.0, 1.0), 0, NoTween, AnimName(Idle, Right), 0)
    {
      state := Idle;
      dir := Right;
      colRow := Point(1.0, 1.0);
      restTime := 0;
      tween := NoTween;
      anim := AnimName(Idle, Right);
      walked := 0;
      RoundOfWhole(1);
    }

    /** Play the animation named after the current state and facing. */
    method UpdateAnim()
      modifies this`anim
      ensures anim == AnimName(state, dir)
    {
      anim := PlayerStateToAnim(state) + "-" + DirToString(dir);
    }

    /** Start a walk toward `d`: a bump when the next cell is solid, a move otherwise. */
    method Walk(d: Dir, tiles: TileMap)
      requires Valid() && state != PlayerState.Walk
      modifies this
      ensures Valid()
      ensures Snapshot() == WalkStep(old(Snapshot()), d, tiles)
    {
      WalkStepConsistent(Snapshot(), d, tiles);
      dir := d;
      // the cell at the rounded position one step ahead; a missing cell does not block
      var cell := LookAhead(tiles, colRow, d);
      if Blocks(cell) {
        var far := Offset(colRow, d, BumpReach);
        var near := Point(Round(colRow.x) as real, Round(colRow.y) as real);
        state := PlayerState.Walk;
        tween := BumpForth(far, near);
        UpdateAnim();
        walked := walked + 1;
        return;
      }

      state := PlayerState.Walk;
      UpdateAnim();
      tween := Move(Offset(colRow, d, 1.0));
      walked := walked + 1;
    }

    /** The forth tween of a bump completed: the player is at the far point and
        the chained back tween starts. */
    method CompleteBumpForth()
      requires Valid() && tween.BumpForth?
      modifies this
      ensures Valid()
      ensures Snapshot() == TweenStep(old(Snapshot()))
    {
      TweenStepConsistent(Snapshot());
      var far, near := tween.far, tween.near;
      colRow := far;
      tween := BumpBack(near);
    }

    /** The back tween of a bump completed: the player is on its cell again and rests. */
    method CompleteBumpBack()
      requires Valid() && tween.BumpBack?
      modifies this
      ensures Valid()
      ensures Snapshot() == TweenStep(old(Snapshot()))
    {
      TweenStepConsistent(Snapshot());
      colRow := tween.near;
      tween := NoTween;
      state := Rest;
      restTime := RestDuration;
      UpdateAnim();
    }

    /** The move tween completed: the player is on the next cell and idle. */
    method CompleteMove()
      requires Valid() && tween.Move?
      modifies this
      ensures Valid()
      ensures Snapshot() == TweenStep(old(Snapshot()))
    {
      TweenStepConsistent(Snapshot());
      colRow := tween.target;
      tween := NoTween;
      state := Idle;
      UpdateAnim();
    }

    /** Walk toward the first held key of W, A, S, D, if any. */
    method HandleInputs(keys: Keys, tiles: TileMap)
      requires Valid() && state != PlayerState.Walk
      modifies this
      ensures Valid()
      ensures Snapshot() == InputStep(old(Snapshot()), keys, tiles)
    {
      if keys.w {
        Walk(Up, tiles);
      } else if keys.a {
        Walk(Left, tiles);
      } else if keys.s {
        Walk(Down, tiles);
      } else if keys.d {
        Walk(Right, tiles);
      }
    }

    /** One tick of `delta` milliseconds with `keys` held. */
    method Update(delta: int, keys: Keys, tiles: TileMap)
      requires Valid()
      modifies this
      ensures Valid()
      ensures Snapshot() == UpdateStep(old(Snapshot()), delta, keys, tiles)
    {
      match state
      case Walk =>
      case Rest =>
        restTime := restTime - delta;
        if restTime <= 0 {
          state := Idle;
        }
      case Idle =>
        HandleInputs(keys, tiles);
    }
  }

  /** A new player bumping into a solid cell to its right: it reaches (1.1, 1),
      comes back to (1, 1) and rests for 200 ms, ignoring the keys held meanwhile;
      "walked" is emitted once. */
  method BumpRightScenario(tiles: TileMap)
    requires tiles(2, 1) == Tile(true)
  {
    var p := new Player();
    RoundOfWhole(2);
    assert LookAhead(tiles, p.colRow, Right) == tiles(2, 1);
    p.Walk(Right, tiles);
    assert p.tween == BumpForth(Point(1.1, 1.0), Point(1.0, 1.0));
    p.Update(16, Keys(true, false, false, false), tiles);
    p.CompleteBumpForth();
    assert p.colRow == Point(1.1, 1.0) && p.tween == BumpBack(Point(1.0, 1.0));
    p.CompleteBumpBack();
    assert p.colRow == Point(1.0, 1.0) && p.state == Rest && p.restTime == 200;
    p.Update(150, Keys(true, false, false, false), tiles);
    assert p.state == Rest && p.restTime == 50;
    p.Update(50, NoKeys, tiles);
    assert p.state == Idle && p.dir == Right && p.walked == 1;
  }
}
