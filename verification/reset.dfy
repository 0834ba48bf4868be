/** The reset detector: the lock is reset when the dial is turned clockwise
    past 0 three times. While the dial turns clockwise the zeros passed are
    counted, and every third one fires a reset; turning counterclockwise
    drops the count and never resets. */
module Reset {
  import opened Streams
  import opened Direction
  import Dial

  /** The dial, and the zeros counted (modulo three) in the current
      clockwise run. */
  datatype ResetState = ResetState(dial: Dial.Dial, zeros: nat)

  const Initial := ResetState(Dial.Start, 0)

  /** One number arrives: the new state, what the dial showed, and whether a
      reset fired. A direction change restarts the count without counting
      the number that caused it. */
  function Step(s: ResetState, n: int, tickCount: int): (r: (ResetState, Dial.Observation, bool))
    requires s.zeros < 3
    ensures r.0.zeros < 3
    ensures r.0.dial == Dial.Observe(s.dial, n, tickCount).0
    ensures r.1 == Dial.Observe(s.dial, n, tickCount).1
    ensures r.2 ==> n == 0 && r.1.change.None? && r.0.dial.heading == Some(Clockwise)
  {
    var (d, o) := Dial.Observe(s.dial, n, tickCount);
    if o.change.Some? then (ResetState(d, 0), o, false)
    else if d.heading == Some(Clockwise) && n == 0 then
      if s.zeros + 1 == 3 then (ResetState(d, 0), o, true)
      else (ResetState(d, s.zeros + 1), o, false)
    else (ResetState(d, s.zeros), o, false)
  }

  /** The detector after a trace of numbers. */
  function After(numbers: seq<int>, tickCount: int): (s: ResetState)
    ensures s.zeros < 3
  {
    if |numbers| == 0 then Initial
    else Step(After(DropLast(numbers), tickCount), Last(numbers), tickCount).0
  }

  /** The latest number of a non-empty trace fired a reset. */
  predicate FiresAt(numbers: seq<int>, tickCount: int)
    requires |numbers| > 0
  {
    Step(After(DropLast(numbers), tickCount), Last(numbers), tickCount).2
  }

  /** The reset stream: a reset before any rotation, then one for every
      number that fires. */
  function Resets(numbers: seq<int>, tickCount: int): (rs: seq<bool>)
    ensures 1 <= |rs| <= |numbers| + 1
    ensures rs[0]
    ensures forall i :: 0 <= i < |rs| ==> rs[i]
  {
    if |numbers| == 0 then [true]
    else Resets(DropLast(numbers), tickCount) + (if FiresAt(numbers, tickCount) then [true] else [])
  }

  /** The zeros passed since the direction stream last emitted, not counting
      the number at which it emitted. */
  function RunZeros(numbers: seq<int>, tickCount: int): nat {
    if |numbers| == 0 || Changed(numbers, tickCount) then 0
    else RunZeros(DropLast(numbers), tickCount) + (if Last(numbers) == 0 then 1 else 0)
  }

  /** When a reset is due, stated over the direction stream alone: the
      latest number is a 0 passed while turning clockwise, and it is the
      third, sixth, ... zero of the clockwise run. */
  predicate ResetDue(numbers: seq<int>, tickCount: int) {
    && |numbers| > 0
    && !Changed(numbers, tickCount)
    && Heading(numbers, tickCount) == Some(Clockwise)
    && Last(numbers) == 0
    && RunZeros(numbers, tickCount) % 3 == 0
  }

  /** The detector's state is the dial and the clockwise run's zero count
      modulo three. */
  lemma {:induction false} AfterCountsRunZeros(numbers: seq<int>, tickCount: int)
    ensures After(numbers, tickCount).dial == Dial.After(numbers, tickCount)
    ensures After(numbers, tickCount).zeros ==
      if Heading(numbers, tickCount) == Some(Clockwise) then RunZeros(numbers, tickCount) % 3 else 0
  {
    if |numbers| > 0 {
      var prefix := DropLast(numbers);
      var n := Last(numbers);
      AfterCountsRunZeros(prefix, tickCount);
      Dial.ObservationMatchesDirections(numbers, tickCount);
      Dial.AfterTracksDirections(numbers, tickCount);
      var s := After(prefix, tickCount);
      var (d, o) := Dial.Observe(s.dial, n, tickCount);
      StepCounts(s, n, tickCount);
      assert After(numbers, tickCount) == Step(s, n, tickCount).0;
      assert o == Dial.ObservationAt(numbers, tickCount);
      assert d == Dial.After(numbers, tickCount);
      assert d.heading == Heading(numbers, tickCount);
      assert o.change.None? <==> !Changed(numbers, tickCount);
      if !Changed(numbers, tickCount) {
        var z := RunZeros(prefix, tickCount);
        assert RunZeros(numbers, tickCount) == z + (if n == 0 then 1 else 0);
        assert Heading(numbers, tickCount) == Heading(prefix, tickCount);
        CountModThree(z);
      } else {
        assert RunZeros(numbers, tickCount) == 0;
      }
    }
  }

  /** How one number changes the count. */
  lemma StepCounts(s: ResetState, n: int, tickCount: int)
    requires s.zeros < 3
    ensures var (d, o) := Dial.Observe(s.dial, n, tickCount);
      Step(s, n, tickCount).0.zeros ==
        if o.change.Some? then 0
        else if d.heading == Some(Clockwise) && n == 0 then (s.zeros + 1) % 3
        else s.zeros
  {
  }

  lemma CountModThree(z: nat)
    ensures (z % 3 + 1) % 3 == (z + 1) % 3
  {
  }

  /** A reset fires exactly when one is due. */
  lemma FiresExactlyWhenDue(numbers: seq<int>, tickCount: int)
    requires |numbers| > 0
    ensures FiresAt(numbers, tickCount) <==> ResetDue(numbers, tickCount)
  {
    var prefix := DropLast(numbers);
    var n := Last(numbers);
    AfterCountsRunZeros(prefix, tickCount);
    Dial.ObservationMatchesDirections(numbers, tickCount);
    Dial.AfterTracksDirections(numbers, tickCount);
    var s := After(prefix, tickCount);
    var (d, o) := Dial.Observe(s.dial, n, tickCount);
    StepFires(s, n, tickCount);
    assert FiresAt(numbers, tickCount) == Step(s, n, tickCount).2;
    assert o == Dial.ObservationAt(numbers, tickCount);
    assert d == Dial.After(numbers, tickCount);
    var quiet := !Changed(numbers, tickCount);
    var clockwise := Heading(numbers, tickCount) == Some(Clockwise);
    assert o.change.None? == quiet && (d.heading == Some(Clockwise)) == clockwise;
    assert FiresAt(numbers, tickCount) <==> quiet && clockwise && n == 0 && s.zeros == 2;
    DueStep(numbers, tickCount);
    if quiet && clockwise {
      assert s.zeros == RunZeros(prefix, tickCount) % 3;
    }
  }

  /** A reset is due at the latest number exactly when it is a quiet 0
      passed clockwise and two zeros of the run came before it. */
  lemma DueStep(numbers: seq<int>, tickCount: int)
    requires |numbers| > 0
    ensures !Changed(numbers, tickCount) ==>
      Heading(numbers, tickCount) == Heading(DropLast(numbers), tickCount)
    ensures ResetDue(numbers, tickCount) <==>
      && !Changed(numbers, tickCount)
      && Heading(numbers, tickCount) == Some(Clockwise)
      && Last(numbers) == 0
      && RunZeros(DropLast(numbers), tickCount) % 3 == 2
  {
    ChangedExactly(numbers, tickCount);
    if !Changed(numbers, tickCount) && Last(numbers) == 0 {
      var z := RunZeros(DropLast(numbers), tickCount);
      assert RunZeros(numbers, tickCount) == z + 1;
      ThirdZero(z);
    }
  }

  /** When one number fires a reset. */
  lemma StepFires(s: ResetState, n: int, tickCount: int)
    requires s.zeros < 3
    ensures var (d, o) := Dial.Observe(s.dial, n, tickCount);
      Step(s, n, tickCount).2 <==> o.change.None? && d.heading == Some(Clockwise) && n == 0 && s.zeros == 2
  {
  }

  lemma ThirdZero(z: nat)
    ensures (z + 1) % 3 == 0 <==> z % 3 == 2
  {
  }

  /** Turning counterclockwise through 0 never resets: a reset needs the
      latest direction to be clockwise. */
  lemma NoResetUnlessClockwise(numbers: seq<int>, tickCount: int)
    requires |numbers| > 0 && Heading(numbers, tickCount) != Some(Clockwise)
    ensures !FiresAt(numbers, tickCount)
  {
    FiresExactlyWhenDue(numbers, tickCount);
  }

  /** On a four-number dial, turning clockwise from 2 past 0 three times
      resets once, at the third 0, and not before. */
  lemma ThreeClockwisePassesResetOnce()
    ensures Resets([2, 1, 0, 3, 2, 1, 0, 3, 2, 1, 0], 4) == [true, true]
    ensures FiresAt([2, 1, 0, 3, 2, 1, 0, 3, 2, 1, 0], 4)
    ensures !FiresAt([2, 1, 0, 3, 2, 1, 0], 4)
  {
    assert After([2], 4) == ResetState(Dial.Dial(Some(2), None), 0);
    assert DropLast([2, 1]) == [2];
    assert After([2, 1], 4) == ResetState(Dial.Dial(Some(1), Some(Clockwise)), 0);
    assert DropLast([2, 1, 0]) == [2, 1];
    assert After([2, 1, 0], 4) == ResetState(Dial.Dial(Some(0), Some(Clockwise)), 1);
    assert DropLast([2, 1, 0, 3]) == [2, 1, 0];
    assert After([2, 1, 0, 3], 4) == ResetState(Dial.Dial(Some(3), Some(Clockwise)), 1);
    assert DropLast([2, 1, 0, 3, 2]) == [2, 1, 0, 3];
    assert After([2, 1, 0, 3, 2], 4) == ResetState(Dial.Dial(Some(2), Some(Clockwise)), 1);
    assert DropLast([2, 1, 0, 3, 2, 1]) == [2, 1, 0, 3, 2];
    assert After([2, 1, 0, 3, 2, 1], 4) == ResetState(Dial.Dial(Some(1), Some(Clockwise)), 1);
    assert DropLast([2, 1, 0, 3, 2, 1, 0]) == [2, 1, 0, 3, 2, 1];
    assert After([2, 1, 0, 3, 2, 1, 0], 4) == ResetState(Dial.Dial(Some(0), Some(Clockwise)), 2);
    assert DropLast([2, 1, 0, 3, 2, 1, 0, 3]) == [2, 1, 0, 3, 2, 1, 0];
    assert After([2, 1, 0, 3, 2, 1, 0, 3], 4) == ResetState(Dial.Dial(Some(3), Some(Clockwise)), 2);
    assert DropLast([2, 1, 0, 3, 2, 1, 0, 3, 2]) == [2, 1, 0, 3, 2, 1, 0, 3];
    assert After([2, 1, 0, 3, 2, 1, 0, 3, 2], 4) == ResetState(Dial.Dial(Some(2), Some(Clockwise)), 2);
    assert DropLast([2, 1, 0, 3, 2, 1, 0, 3, 2, 1]) == [2, 1, 0, 3, 2, 1, 0, 3, 2];
    assert After([2, 1, 0, 3, 2, 1, 0, 3, 2, 1], 4) == ResetState(Dial.Dial(Some(1), Some(Clockwise)), 2);
    assert DropLast([2, 1, 0, 3, 2, 1, 0, 3, 2, 1, 0]) == [2, 1, 0, 3, 2, 1, 0, 3, 2, 1];
  }
}
