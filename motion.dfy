/**
 * The player's movement state machine as functions on a snapshot of its fields:
 * `walk`, the completions of the tweens it starts, `handleInputs` and `update`.
 * A tween is modelled by its end points only: the fields jump to a tween's end
 * value when that tween completes.
 */
module Motion {
  import opened Directions
  import opened Animation
  import opened Input
  import opened Options
  import opened Sums

  /** How long the player rests after a bump, in milliseconds of engine time. */
  const RestDuration: int := 200
  /** How far into a solid cell a bump reaches, as a fraction of a cell. */
  const BumpReach: real := 0.1

  /** A position in cell units; whole numbers are cell centres. */
  datatype Point = Point(x: real, y: real)

  /** What the tile map answers for a coordinate: no cell there, or a cell with its solid flag. */
  datatype Cell = Missing | Tile(solid: bool)

  /** The tile map as it stands when the player looks at it. */
  type TileMap = (int, int) -> Cell

  /** The tween in flight on `colRow`, with the end points still to be reached. */
  datatype Tween =
    | NoTween
    | BumpForth(far: Point, near: Point)  // heading into the wall; `back` is chained after it
    | BumpBack(near: Point)               // heading back to the start cell
    | Move(target: Point)                 // a full step into a free cell

  /** The player's fields: state, facing, position, rest left, the tween in flight,
      the animation last played and how many "walked" events were emitted. */
  datatype View = View(
    state: PlayerState,
    dir: Dir,
    colRow: Point,
    restTime: int,
    tween: Tween,
    anim: string,
    walked: nat)

  /** JavaScript's `Math.round`: nearest integer, halves rounded up. */
  function Round(r: real): (n: int)
    ensures r - 0.5 < n as real <= r + 0.5
  {
    (r + 0.5).Floor
  }

  /** The logical cell of a position. */
  function CellOf(p: Point): (int, int) {
    (Round(p.x), Round(p.y))
  }

  /** The position sits exactly on a cell. */
  predicate OnCell(p: Point) {
    p == Point(Round(p.x) as real, Round(p.y) as real)
  }

  /** `p` moved `k` cells toward facing `d`. */
  function Offset(p: Point, d: Dir, k: real): Point {
    var (dx, dy) := DirToDelta(d);
    Point(p.x + k * (dx as real), p.y + k * (dy as real))
  }

  /** The cell `walk` looks up: one step from `p` toward `d`, rounded. */
  function TargetCell(p: Point, d: Dir): (int, int) {
    CellOf(Offset(p, d, 1.0))
  }

  /** The tile-map cell `walk` looks up. */
  function LookAhead(tiles: TileMap, p: Point, d: Dir): Cell {
    var (col, row) := TargetCell(p, d);
    tiles(col, row)
  }

  /** `cell && cell.solid`: a missing cell does not block. */
  predicate Blocks(c: Cell) {
    c.Tile? && c.solid
  }

  /**
   * The invariant the player's fields keep: a tween is in flight exactly while
   * walking, the animation shown matches state and facing, the player is on a
   * cell whenever no tween runs, and each tween's end points lie on the line
   * from the start cell toward the facing.
   */
  predicate Consistent(v: View) {
    && (v.state == Walk <==> !v.tween.NoTween?)
    && v.anim == AnimName(v.state, v.dir)
    && (match v.tween
        case NoTween => OnCell(v.colRow)
        case BumpForth(far, near) =>
          OnCell(near) && v.colRow == near && far == Offset(near, v.dir, BumpReach)
        case BumpBack(near) =>
          OnCell(near) && v.colRow == Offset(near, v.dir, BumpReach)
        case Move(target) =>
          OnCell(v.colRow) && target == Offset(v.colRow, v.dir, 1.0))
  }

  /** `walk(d)`: face `d`, look up the next cell, then start a bump into it when
      it is solid and a one-cell move otherwise; either way emit "walked" once. */
  function WalkStep(v: View, d: Dir, tiles: TileMap): (w: View)
    ensures w.state == Walk && w.dir == d
    ensures w.walked == v.walked + 1
    ensures w.colRow == v.colRow && w.restTime == v.restTime
    ensures w.tween.BumpForth? <==> Blocks(LookAhead(tiles, v.colRow, d))
  {
    if Blocks(LookAhead(tiles, v.colRow, d)) then
      var far := Offset(v.colRow, d, BumpReach);
      var near := Point(Round(v.colRow.x) as real, Round(v.colRow.y) as real);
      v.(state := Walk, dir := d, tween := BumpForth(far, near),
         anim := AnimName(Walk, d), walked := v.walked + 1)
    else
      v.(state := Walk, dir := d, tween := Move(Offset(v.colRow, d, 1.0)),
         anim := AnimName(Walk, d), walked := v.walked + 1)
  }

  /** The tween in flight completes: the forth tween hands over to the chained
      back tween, the back tween ends in a rest, a move ends idle. */
  function TweenStep(v: View): (w: View)
    requires !v.tween.NoTween?
    // facing persists and no completion emits "walked"
    ensures w.dir == v.dir && w.walked == v.walked
  {
    match v.tween
    case BumpForth(far, near) =>
      v.(colRow := far, tween := BumpBack(near))
    case BumpBack(near) =>
      v.(colRow := near, tween := NoTween, state := Rest, restTime := RestDuration,
         anim := AnimName(Rest, v.dir))
    case Move(target) =>
      v.(colRow := target, tween := NoTween, state := Idle, anim := AnimName(Idle, v.dir))
  }

  /** `handleInputs`: walk toward the highest-priority held key, if any. */
  function InputStep(v: View, keys: Keys, tiles: TileMap): (w: View)
    ensures PickDir(keys).None? ==> w == v
    ensures PickDir(keys).Some? ==> w.dir == PickDir(keys).value && w.walked == v.walked + 1
    ensures PickDir(keys).Some? ==> w == WalkStep(v, PickDir(keys).value, tiles)
  {
    match PickDir(keys)
    case None => v
    case Some(d) => WalkStep(v, d, tiles)
  }

  /** `update(delta)`: nothing while walking, count the rest down while resting,
      poll the keys while idle. */
  function UpdateStep(v: View, delta: int, keys: Keys, tiles: TileMap): (w: View)
    ensures v.state == Walk ==> w == v
    ensures v.state == Rest ==>
              && w.restTime == v.restTime - delta
              && (w.state == Idle <==> w.restTime <= 0)
              && (w.state != Idle ==> w.state == Rest)
    // input is dropped unless idle
    ensures v.state != Idle ==>
              w.dir == v.dir && w.colRow == v.colRow && w.tween == v.tween && w.walked == v.walked
    // at most one walk starts per tick, and only from idle
    ensures w.walked <= v.walked + 1
    ensures w.walked != v.walked ==> v.state == Idle && PickDir(keys).Some?
    ensures v.state == Idle && PickDir(keys).None? ==> w == v
    // an idle tick with a key held starts a walk toward the highest-priority key
    ensures v.state == Idle && PickDir(keys).Some? ==> w == WalkStep(v, PickDir(keys).value, tiles)
  {
    match v.state
    case Walk => v
    case Rest =>
      var left := v.restTime - delta;
      if left <= 0 then v.(restTime := left, state := Idle) else v.(restTime := left)
    case Idle => InputStep(v, keys, tiles)
  }

  lemma RoundOfWhole(n: int)
    ensures Round(n as real) == n
  {
  }

  /** A bump never leaves the start cell: `n + 0.1 * dx` still rounds to `n`. */
  lemma RoundNearWhole(n: int, e: real)
    requires -0.5 < e < 0.5
    ensures Round(n as real + e) == n
  {
  }

  lemma WalkStepConsistent(v: View, d: Dir, tiles: TileMap)
    requires Consistent(v) && v.state != Walk
    ensures Consistent(WalkStep(v, d, tiles))
  {
    assert OnCell(v.colRow);
    RoundOfWhole(Round(v.colRow.x));
    RoundOfWhole(Round(v.colRow.y));
    var (dx, dy) := DirToDelta(d);
    RoundOfWhole(Round(v.colRow.x) + dx);
    RoundOfWhole(Round(v.colRow.y) + dy);
  }

  lemma TweenStepConsistent(v: View)
    requires Consistent(v) && !v.tween.NoTween?
    ensures Consistent(TweenStep(v))
  {
    match v.tween
    case BumpForth(far, near) =>
    case BumpBack(near) =>
    case Move(target) =>
      var (dx, dy) := DirToDelta(v.dir);
      RoundOfWhole(Round(v.colRow.x) + dx);
      RoundOfWhole(Round(v.colRow.y) + dy);
  }

  lemma UpdateStepConsistent(v: View, delta: int, keys: Keys, tiles: TileMap)
    requires Consistent(v)
    ensures Consistent(UpdateStep(v, delta, keys, tiles))
  {
    if v.state == Idle && PickDir(keys).Some? {
      WalkStepConsistent(v, PickDir(keys).value, tiles);
    }
  }

  /**
   * A walk into a solid cell, run to completion: the far point is 0.1 of a cell
   * toward the wall, the player comes back exactly to the start cell, the
   * logical cell never changes, and the walk ends resting for 200 ms with one
   * "walked" event emitted.
   */
  lemma BlockedWalk(v: View, d: Dir, tiles: TileMap)
    requires Consistent(v) && v.state != Walk
    requires Blocks(LookAhead(tiles, v.colRow, d))
    ensures var s1 := WalkStep(v, d, tiles);
            && s1.state == Walk && s1.tween.BumpForth?
            && var s2 := TweenStep(s1);
            && s2.state == Walk && s2.tween.BumpBack?
            && s2.colRow == Offset(v.colRow, d, BumpReach)
            && CellOf(s2.colRow) == CellOf(v.colRow)
            && var s3 := TweenStep(s2);
            && s3.colRow == v.colRow
            && s3.state == Rest && s3.restTime == RestDuration && s3.tween == NoTween
            && s3.dir == d && s3.walked == v.walked + 1
            && Consistent(s3)
  {
    WalkStepConsistent(v, d, tiles);
    var s1 := WalkStep(v, d, tiles);
    TweenStepConsistent(s1);
    TweenStepConsistent(TweenStep(s1));
    var (dx, dy) := DirToDelta(d);
    RoundNearWhole(Round(v.colRow.x), BumpReach * (dx as real));
    RoundNearWhole(Round(v.colRow.y), BumpReach * (dy as real));
  }

  /**
   * A walk toward a free or missing cell, run to completion: the player ends
   * one cell further toward `d`, idle, without resting, with one "walked"
   * event emitted.
   */
  lemma FreeWalk(v: View, d: Dir, tiles: TileMap)
    requires Consistent(v) && v.state != Walk
    requires !Blocks(LookAhead(tiles, v.colRow, d))
    ensures var s1 := WalkStep(v, d, tiles);
            && s1.state == Walk && s1.tween.Move?
            && var s2 := TweenStep(s1);
            && s2.colRow == Offset(v.colRow, d, 1.0)
            && CellOf(s2.colRow) ==
                 (CellOf(v.colRow).0 + DirToDelta(d).0, CellOf(v.colRow).1 + DirToDelta(d).1)
            && s2.state == Idle && s2.tween == NoTween && s2.restTime == v.restTime
            && s2.dir == d && s2.walked == v.walked + 1
            && Consistent(s2)
  {
    WalkStepConsistent(v, d, tiles);
    TweenStepConsistent(WalkStep(v, d, tiles));
    var (dx, dy) := DirToDelta(d);
    RoundOfWhole(Round(v.colRow.x) + dx);
    RoundOfWhole(Round(v.colRow.y) + dy);
  }

  /** One tick of the game loop as seen by the player: its length and the keys held. */
  datatype Tick = Tick(delta: int, keys: Keys)

  /** The player after `update` has run for each tick in turn. */
  function UpdateRun(v: View, ticks: seq<Tick>, tiles: TileMap): View
    decreases |ticks|
  {
    if ticks == [] then v
    else UpdateRun(UpdateStep(v, ticks[0].delta, ticks[0].keys, tiles), ticks[1..], tiles)
  }

  /** The lengths of the ticks, in order. */
  function Deltas(ticks: seq<Tick>): (ds: seq<int>)
    ensures |ds| == |ticks|
    ensures forall i :: 0 <= i < |ticks| ==> ds[i] == ticks[i].delta
  {
    seq(|ticks|, i requires 0 <= i < |ticks| => ticks[i].delta)
  }

  /** The total length of a run of ticks. */
  function TotalDelta(ticks: seq<Tick>): int {
    Sum(Deltas(ticks))
  }

  /** While a tween runs, no number of updates changes anything, whatever keys are held. */
  lemma {:induction false} WalkIgnoresUpdates(v: View, ticks: seq<Tick>, tiles: TileMap)
    requires v.state == Walk
    ensures UpdateRun(v, ticks, tiles) == v
    decreases |ticks|
  {
    if ticks != [] {
      WalkIgnoresUpdates(v, ticks[1..], tiles);
    }
  }

  /** An idle player with no keys held stays exactly as it is. */
  lemma {:induction false} IdleWithoutKeysStays(v: View, ticks: seq<Tick>, tiles: TileMap)
    requires v.state == Idle
    requires forall i :: 0 <= i < |ticks| ==> ticks[i].keys == NoKeys
    ensures UpdateRun(v, ticks, tiles) == v
    decreases |ticks|
  {
    if ticks != [] {
      assert PickDir(ticks[0].keys) == None;
      IdleWithoutKeysStays(v, ticks[1..], tiles);
    }
  }

  /**
   * Resting counts down: after one or more ticks of non-negative length with no
   * keys held, the player is idle exactly when the ticks add up to the rest
   * time, and otherwise still resting with the rest reduced by their total;
   * position, facing and events are untouched.
   */
  lemma {:induction false} RestCountdown(v: View, ticks: seq<Tick>, tiles: TileMap)
    requires v.state == Rest && |ticks| > 0
    requires forall i :: 0 <= i < |ticks| ==> ticks[i].delta >= 0 && ticks[i].keys == NoKeys
    ensures var u := UpdateRun(v, ticks, tiles);
            && (u.state == Idle <==> v.restTime <= TotalDelta(ticks))
            && (u.state != Idle ==> u.state == Rest && u.restTime == v.restTime - TotalDelta(ticks))
            && u.colRow == v.colRow && u.dir == v.dir && u.walked == v.walked
    decreases |ticks|
  {
    var v1 := UpdateStep(v, ticks[0].delta, ticks[0].keys, tiles);
    var rest := ticks[1..];
    assert forall i :: 0 <= i < |rest| ==> rest[i] == ticks[i + 1];
    assert Deltas(ticks)[1..] == Deltas(rest);
    assert TotalDelta(ticks) == ticks[0].delta + TotalDelta(rest);
    if rest == [] {
      assert UpdateRun(v1, rest, tiles) == v1;
    } else if v1.state == Idle {
      IdleWithoutKeysStays(v1, rest, tiles);
      SumNonNegative(Deltas(rest));
    } else {
      RestCountdown(v1, rest, tiles);
    }
  }
}
