/** The rotation tracker: drag adjustments accumulated into a wrapped
    rotation, rounded up to whole ticks, with repeats suppressed. */
module Rotation {
  import opened Streams

  /** A rotation strictly less than one full turn either way. */
  predicate WithinTurn(x: real) {
    -360.0 < x < 360.0
  }

  predicate AllWithinTurn(xs: seq<real>) {
    forall i :: 0 <= i < |xs| ==> WithinTurn(xs[i])
  }

  /** One step of the accumulating scan: the adjustment is added and a total
      that reaches a full turn either way is brought back by one turn. */
  function Wrap(current: real, adjustment: real): (r: real)
    ensures WithinTurn(current) && WithinTurn(adjustment) ==> WithinTurn(r)
    ensures WithinTurn(current + adjustment) ==> r == current + adjustment
    ensures current + adjustment >= 360.0 ==> r == current + adjustment - 360.0
    ensures current + adjustment <= -360.0 ==> r == current + adjustment + 360.0
  {
    var newRotation := current + adjustment;
    if newRotation >= 360.0 then newRotation - 360.0
    else if newRotation <= -360.0 then newRotation + 360.0
    else newRotation
  }

  /** The scan's emissions, seeded with 0: one rotation per adjustment. */
  function Rotations(adjustments: seq<real>): (rs: seq<real>)
    ensures |rs| == |adjustments|
    ensures AllWithinTurn(adjustments) ==> AllWithinTurn(rs)
  {
    if |adjustments| == 0 then []
    else
      var prior := Rotations(DropLast(adjustments));
      assert AllWithinTurn(adjustments) ==> AllWithinTurn(DropLast(adjustments));
      prior + [Wrap(CurrentRotation(prior), Last(adjustments))]
  }

  /** The rotation before any drag, or after the latest emission. */
  function CurrentRotation(rs: seq<real>): real {
    if |rs| == 0 then 0.0 else Last(rs)
  }

  function Sum(xs: seq<real>): real {
    if |xs| == 0 then 0.0 else Sum(DropLast(xs)) + Last(xs)
  }

  /** `turns` whole turns, in degrees. */
  function FullTurns(turns: int): real {
    360.0 * turns as real
  }

  /** The wrapped rotation differs from the plain sum of all adjustments by
      a whole number of turns. */
  lemma {:induction false} RotationIsSumModuloTurns(adjustments: seq<real>)
    ensures exists turns: int :: CurrentRotation(Rotations(adjustments)) == Sum(adjustments) + FullTurns(turns)
  {
    if |adjustments| == 0 {
      assert CurrentRotation(Rotations(adjustments)) == Sum(adjustments) + FullTurns(0);
    } else {
      var prefix := DropLast(adjustments);
      RotationIsSumModuloTurns(prefix);
      var turns: int :| CurrentRotation(Rotations(prefix)) == Sum(prefix) + FullTurns(turns);
      var before := CurrentRotation(Rotations(prefix));
      var after := Wrap(before, Last(adjustments));
      assert CurrentRotation(Rotations(adjustments)) == after;
      if before + Last(adjustments) >= 360.0 {
        assert after == Sum(adjustments) + FullTurns(turns - 1);
      } else if before + Last(adjustments) <= -360.0 {
        assert after == Sum(adjustments) + FullTurns(turns + 1);
      } else {
        assert after == Sum(adjustments) + FullTurns(turns);
      }
    }
  }

  /** Accumulating +370 degrees in two drags from 0 gives 10 degrees, and
      -370 degrees gives -10 degrees. */
  lemma FullTurnExamples()
    ensures CurrentRotation(Rotations([185.0, 185.0])) == 10.0
    ensures CurrentRotation(Rotations([-185.0, -185.0])) == -10.0
  {
    assert DropLast([185.0]) == [];
    assert Rotations([185.0]) == [Wrap(0.0, 185.0)] == [185.0];
    assert DropLast([185.0, 185.0]) == [185.0];
    assert Wrap(185.0, 185.0) == 10.0;
    assert DropLast([-185.0]) == [];
    assert Rotations([-185.0]) == [Wrap(0.0, -185.0)] == [-185.0];
    assert DropLast([-185.0, -185.0]) == [-185.0];
    assert Wrap(-185.0, -185.0) == -10.0;
  }

  /** `Math.ceil`: the least integer not below `x`. */
  function Ceil(x: real): (k: int)
    ensures (k as real) - 1.0 < x <= k as real
  {
    -((-x).Floor)
  }

  /** The quantised rotation, as a whole number of ticks: the rotation
      rounded UP to a multiple of `360 / tickCount` degrees. */
  function TickIndex(rotation: real, tickCount: int): (k: int)
    requires tickCount > 0
    ensures (k - 1) as real * 360.0 < rotation * tickCount as real <= k as real * 360.0
    ensures WithinTurn(rotation) ==> -(tickCount - 1) <= k <= tickCount
  {
    var t := tickCount as real;
    var x := rotation * t / 360.0;
    var k := Ceil(x);
    ScaledBounds(rotation, t, x);
    k
  }

  lemma ScaledBounds(rotation: real, t: real, x: real)
    requires t > 0.0 && x == rotation * t / 360.0
    ensures x * 360.0 == rotation * t
    ensures WithinTurn(rotation) ==> -t < x < t
  {
    if WithinTurn(rotation) {
      ScaleStrict(-360.0, rotation, t);
      ScaleStrict(rotation, 360.0, t);
    }
  }

  lemma ScaleStrict(a: real, b: real, c: real)
    requires a < b && c > 0.0
    ensures a * c < b * c
  {
  }

  predicate TicksInRange(ticks: seq<int>, tickCount: int) {
    forall i :: 0 <= i < |ticks| ==> -(tickCount - 1) <= ticks[i] <= tickCount
  }

  /** The rotation stream of the tracker: every accumulated rotation
      quantised to ticks, with repeated quantised values suppressed. */
  function RotationTicks(adjustments: seq<real>, tickCount: int): (ticks: seq<int>)
    requires tickCount > 0
    ensures AllWithinTurn(adjustments) ==> TicksInRange(ticks, tickCount)
    ensures NoRepeats(ticks)
    ensures |ticks| > 0 <==> |adjustments| > 0
    ensures |ticks| > 0 ==> Last(ticks) == TickIndex(Last(Rotations(adjustments)), tickCount)
  {
    var rs := Rotations(adjustments);
    var quantised := Quantise(rs, tickCount);
    if AllWithinTurn(adjustments) then DistinctInRange(quantised, tickCount); Distinct(quantised)
    else Distinct(quantised)
  }

  /** What one more adjustment emits: the newly quantised rotation, unless
      it equals the quantised rotation emitted last. */
  lemma RotationTicksEmission(adjustments: seq<real>, tickCount: int)
    requires tickCount > 0 && |adjustments| > 0
    ensures var prior := RotationTicks(DropLast(adjustments), tickCount);
      var k := TickIndex(Last(Rotations(adjustments)), tickCount);
      RotationTicks(adjustments, tickCount) == if |prior| > 0 && Last(prior) == k then prior else prior + [k]
  {
    var rs := Rotations(adjustments);
    var before := Rotations(DropLast(adjustments));
    assert DropLast(rs) == before;
    var quantised := Quantise(rs, tickCount);
    assert DropLast(quantised) == Quantise(before, tickCount);
    assert Last(quantised) == TickIndex(Last(rs), tickCount);
  }

  /** Every quantised rotation of the trace is emitted: suppressing repeats
      loses no value. */
  lemma RotationTicksKeepEveryRotation(adjustments: seq<real>, i: int, tickCount: int)
    requires tickCount > 0 && 0 <= i < |adjustments|
    ensures TickIndex(Rotations(adjustments)[i], tickCount) in RotationTicks(adjustments, tickCount)
  {
    var quantised := Quantise(Rotations(adjustments), tickCount);
    assert quantised[i] in quantised;
    DistinctKeepsValues(quantised, quantised[i]);
  }

  /** Two drags of 100 degrees on a 40-tick dial emit both quantised
      rotations, 12 and 23 ticks, and not only the last. */
  lemma TwoDragsEmitBoth()
    ensures RotationTicks([100.0, 100.0], 40) == [12, 23]
  {
    assert DropLast([100.0]) == [];
    assert DropLast([100.0, 100.0]) == [100.0];
    assert Rotations([100.0]) == [100.0];
    assert Rotations([100.0, 100.0]) == [100.0, 200.0];
    assert TickIndex(100.0, 40) == 12;
    assert TickIndex(200.0, 40) == 23;
    RotationTicksEmission([100.0], 40);
    RotationTicksEmission([100.0, 100.0], 40);
  }

  lemma DistinctInRange(ks: seq<int>, tickCount: int)
    requires TicksInRange(ks, tickCount)
    ensures TicksInRange(Distinct(ks), tickCount)
  {
    var d := Distinct(ks);
    forall i | 0 <= i < |d|
      ensures -(tickCount - 1) <= d[i] <= tickCount
    {
      assert d[i] in d;
      var j :| 0 <= j < |ks| && ks[j] == d[i];
    }
  }

  /** Every rotation of a trace quantised to ticks. */
  function Quantise(rs: seq<real>, tickCount: int): (ks: seq<int>)
    requires tickCount > 0
    ensures |ks| == |rs|
    ensures forall i :: 0 <= i < |rs| ==> ks[i] == TickIndex(rs[i], tickCount)
    ensures AllWithinTurn(rs) ==> TicksInRange(ks, tickCount)
  {
    if |rs| == 0 then []
    else Quantise(DropLast(rs), tickCount) + [TickIndex(Last(rs), tickCount)]
  }
}
