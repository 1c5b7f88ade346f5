/**
 * The map decay: a timer that accumulates tick lengths and, each time the
 * total passes 250 ms, rewrites one cell of the map grid with a random symbol.
 * The random row, column and symbol are parameters here.
 */
module MapDecay {
  import opened Sums

  /** Accumulated time above which one cell decays, in milliseconds. */
  const Threshold: int := 250

  /** The symbols a decayed cell may get. */
  const Symbols: seq<string> := ["0", "1", "2", "3", "4"]

  /** One timer step: the new accumulated time, and whether a cell is rewritten. */
  function TimerStep(time: int, delta: int): (r: (int, bool))
    // a cell is rewritten exactly when the accumulated time passes the threshold
    ensures r.1 <==> time + delta > Threshold
    ensures !r.1 ==> r.0 == time + delta
    // the timer never rests above the threshold, and a rewrite resets it
    ensures r.0 <= Threshold
    ensures r.1 ==> r.0 == 0
    ensures time >= 0 && delta >= 0 ==> r.0 >= 0
  {
    var t := time + delta;
    if t > Threshold then (0, true) else (t, false)
  }

  /** The timer after a run of ticks, and how many cells were rewritten on the way. */
  function Elapse(time: int, deltas: seq<int>): (int, nat)
    decreases |deltas|
  {
    if deltas == [] then (time, 0)
    else
      var (t, rewrite) := TimerStep(time, deltas[0]);
      var (final, count) := Elapse(t, deltas[1..]);
      (final, if rewrite then count + 1 else count)
  }

  /**
   * Starting from a timer at or below the threshold (where every step leaves
   * it) with ticks of non-negative length, no cell decays exactly when the
   * accumulated time never gets past the threshold, and then the timer holds
   * the plain sum.
   */
  lemma {:induction false} QuietBelowThreshold(time: int, deltas: seq<int>)
    requires time <= Threshold
    requires forall i :: 0 <= i < |deltas| ==> deltas[i] >= 0
    ensures Elapse(time, deltas).1 == 0 <==> time + Sum(deltas) <= Threshold
    ensures time + Sum(deltas) <= Threshold ==> Elapse(time, deltas).0 == time + Sum(deltas)
    decreases |deltas|
  {
    if deltas != [] {
      var rest := deltas[1..];
      assert forall i :: 0 <= i < |rest| ==> rest[i] == deltas[i + 1];
      SumNonNegative(rest);
      assert Sum(deltas) == deltas[0] + Sum(rest);
      var (t, rewrite) := TimerStep(time, deltas[0]);
      assert Elapse(time, deltas).1 == (if rewrite then Elapse(t, rest).1 + 1 else Elapse(t, rest).1);
      QuietBelowThreshold(t, rest);
    }
  }

  /**
   * Every rewrite consumes more than the threshold of accumulated time: over
   * any run, 251 ms per rewrite plus what is left on the timer never exceed
   * the starting time plus the ticks' total.
   */
  lemma {:induction false} RewritesAreRationed(time: int, deltas: seq<int>)
    ensures Elapse(time, deltas).1 * (Threshold + 1) + Elapse(time, deltas).0 <= time + Sum(deltas)
    decreases |deltas|
  {
    if deltas != [] {
      var (t, rewrite) := TimerStep(time, deltas[0]);
      RewritesAreRationed(t, deltas[1..]);
    }
  }

  /** The decay actor, holding the timer and the map grid `mapSpec[row][col]` it rewrites. */
  class Decay {
    var time: int
    const mapSpec: array2<string>

    constructor (mapSpec: array2<string>)
      ensures this.mapSpec == mapSpec && time == 0
    {
      this.mapSpec := mapSpec;
      time := 0;
    }

    /** Every cell holds one of the decay symbols. */
    ghost predicate SymbolsOnly()
      reads mapSpec
    {
      forall i, j :: 0 <= i < mapSpec.Length0 && 0 <= j < mapSpec.Length1 ==> mapSpec[i, j] in Symbols
    }

    /**
     * One tick of `delta` milliseconds. When the timer passes the threshold it
     * resets, cell (`row`, `col`) gets `symbol` (even if it already held it),
     * every other cell stays, and the result tells that the map must be redrawn.
     */
    method Update(delta: int, row: int, col: int, symbol: string) returns (redraw: bool)
      requires 0 <= row < mapSpec.Length0 && 0 <= col < mapSpec.Length1
      requires symbol in Symbols
      modifies this, mapSpec
      ensures (time, redraw) == TimerStep(old(time), delta)
      ensures forall i, j :: 0 <= i < mapSpec.Length0 && 0 <= j < mapSpec.Length1 ==>
                mapSpec[i, j] == if redraw && i == row && j == col then symbol else old(mapSpec[i, j])
      ensures old(SymbolsOnly()) ==> SymbolsOnly()
    {
      time := time + delta;
      redraw := false;
      if time > Threshold {
        time := 0;
        mapSpec[row, col] := symbol;
        redraw := true;
      }
    }
  }
}
