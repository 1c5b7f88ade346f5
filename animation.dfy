/** Player states and the animation names `updateAnim` builds from state and facing. */
module Animation {
  import opened Directions

  /** The player's movement state. */
  datatype PlayerState = Idle | Rest | Walk

  /** The state's part of an animation name: resting looks like standing still. */
  function PlayerStateToAnim(ps: PlayerState): (kind: string)
    ensures kind == "idle" || kind == "walk"
    ensures |kind| == 4
    ensures kind == "walk" <==> ps == Walk
  {
    match ps
    case Idle => "idle"
    case Rest => "idle"
    case Walk => "walk"
  }

  /** The eight animations the player loads with its sprite sheet. */
  const LoadedAnims: set<string> :=
    {"idle-down", "walk-down", "idle-up", "walk-up",
     "idle-right", "walk-right", "idle-left", "walk-left"}

  /** The name `updateAnim` plays: `<idle|walk>-<facing>`. */
  function AnimName(ps: PlayerState, d: Dir): (name: string)
    ensures |name| == 5 + |DirToString(d)|
    ensures name[..5] == PlayerStateToAnim(ps) + "-"
    ensures name[5..] == DirToString(d)
  {
    PlayerStateToAnim(ps) + "-" + DirToString(d)
  }

  /** Every name `updateAnim` asks for was loaded, so the missing-animation warning never fires. */
  lemma AnimNamesAreLoaded(ps: PlayerState, d: Dir)
    ensures AnimName(ps, d) in LoadedAnims
  {
    var name := AnimName(ps, d);
    if ps == Walk {
      match d
      case Up => assert name == "walk-up";
      case Left => assert name == "walk-left";
      case Down => assert name == "walk-down";
      case Right => assert name == "walk-right";
    } else {
      match d
      case Up => assert name == "idle-up";
      case Left => assert name == "idle-left";
      case Down => assert name == "idle-down";
      case Right => assert name == "idle-right";
    }
  }

  /** Two states and facings give the same animation exactly when they look alike and face the same way. */
  lemma AnimNameInjective(p1: PlayerState, d1: Dir, p2: PlayerState, d2: Dir)
    ensures AnimName(p1, d1) == AnimName(p2, d2) <==>
            PlayerStateToAnim(p1) == PlayerStateToAnim(p2) && d1 == d2
  {
    if AnimName(p1, d1) == AnimName(p2, d2) {
      assert PlayerStateToAnim(p1) + "-" == AnimName(p1, d1)[..5] == AnimName(p2, d2)[..5];
      assert PlayerStateToAnim(p1) == (PlayerStateToAnim(p1) + "-")[..4];
      assert PlayerStateToAnim(p2) == (PlayerStateToAnim(p2) + "-")[..4];
      DirToStringInjective(d1, d2);
    }
  }
}
