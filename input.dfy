/** Keyboard input: which of W, A, S and D are held, and which facing wins. */
module Input {
  import opened Directions
  import opened Options

  /** The four movement keys' held flags for one tick. */
  datatype Keys = Keys(w: bool, a: bool, s: bool, d: bool)

  const NoKeys: Keys := Keys(false, false, false, false)

  /** The key bound to a facing is held. */
  predicate Held(k: Keys, d: Dir) {
    match d
    case Up => k.w
    case Left => k.a
    case Down => k.s
    case Right => k.d
  }

  /** Rank of a facing in the input priority; lower wins. */
  function Priority(d: Dir): nat {
    match d
    case Up => 0
    case Left => 1
    case Down => 2
    case Right => 3
  }

  /** The facing `handleInputs` walks toward: the first held key of W, A, S, D. */
  function PickDir(k: Keys): (r: Option<Dir>)
    ensures r.None? <==> forall d :: !Held(k, d)
    ensures r.Some? ==> Held(k, r.value)
    ensures r.Some? ==> forall d :: Priority(d) < Priority(r.value) ==> !Held(k, d)
  {
    if k.w then assert Held(k, Up); Some(Up)
    else if k.a then assert Held(k, Left); Some(Left)
    else if k.s then assert Held(k, Down); Some(Down)
    else if k.d then assert Held(k, Right); Some(Right)
    else None
  }
}
