/** The unlock detector: a staged machine over the trace of dial numbers and
    settle events (the dial resting on a number for the debounce period).

    1. a counterclockwise change whose number before it is the first
       number of the combination arms stage 2 (restarted by every reset);
    2. the next visit to the first number arms stage 3;
    3. a clockwise change whose number before it is the second number arms
       stage 4 afresh;
    4. a settle on the third number unlocks.

    Stages 3 and 4, once armed, stay armed; they are only restarted when the
    stage before them fires again. The stream starts `false` and after that
    only ever emits `true`. */
module Unlock {
  import opened Streams
  import opened Direction
  import Dial
  import Reset

  /** A number arriving from the decoder, or the end of a quiet period with
      no number arriving (the debounce timer running out). */
  datatype Event = Turn(number: int) | Settle

  datatype UnlockState = UnlockState(
    reset: Reset.ResetState,
    revisiting: bool,     // stage 2: waiting for the first number again
    secondArmed: bool,    // stage 3: waiting for a clockwise change after the second number
    finalArmed: bool,     // stage 4: waiting for a settle on the third number
    pending: Option<int>) // the number stage 4 would report when the dial settles

  const Initial := UnlockState(Reset.Initial, false, false, false, None)

  /** One event: the new state, and whether the lock unlocked. A stage armed
      while a number is delivered does not see that number. */
  function Step(s: UnlockState, e: Event, tickCount: int, combination: seq<int>): (r: (UnlockState, bool))
    requires |combination| == 3 && s.reset.zeros < 3
    ensures r.0.reset.zeros < 3
    ensures s.secondArmed ==> r.0.secondArmed
    ensures s.finalArmed ==> r.0.finalArmed
    ensures r.1 <==> e == Settle && s.finalArmed && s.pending == Some(combination[2])
    ensures e == Settle ==> r.0 == s.(pending := None)
    ensures e.Turn? ==> r.0.reset == Reset.Step(s.reset, e.number, tickCount).0
    // a counterclockwise change after the first number arms stage 2
    ensures e.Turn? && FirstCueStep(s, e.number, tickCount, combination) ==> r.0.revisiting
    // a reset stops the wait for the first number
    ensures e.Turn? && Reset.Step(s.reset, e.number, tickCount).2 ==> !r.0.revisiting
    // the visit to the first number arms stage 3
    ensures s.revisiting && e == Turn(combination[0]) ==> r.0.secondArmed
    // a clockwise change after the second number arms stage 4 afresh
    ensures e.Turn? && SecondCueStep(s, e.number, tickCount, combination) ==> r.0.finalArmed && r.0.pending.None?
    // once stage 4 is armed, any other number becomes the number it reports
    ensures e.Turn? && s.finalArmed && !SecondCueStep(s, e.number, tickCount, combination) ==> r.0.pending == Some(e.number)
    ensures !s.finalArmed ==> r.0.pending.None?
  {
    match e
    case Settle =>
      (s.(pending := None), s.finalArmed && s.pending == Some(combination[2]))
    case Turn(n) =>
      var (reset, o, resetFired) := Reset.Step(s.reset, n, tickCount);
      var firstFires := o.change == Some(Counterclockwise) && o.previous == Some(combination[0]);
      var secondFires := s.revisiting && n == combination[0];
      var thirdFires := s.secondArmed && o.change == Some(Clockwise) && o.previous == Some(combination[1]);
      var revisiting :=
        if resetFired then false
        else if firstFires then true
        else if secondFires then false
        else s.revisiting;
      var pending := if thirdFires || !s.finalArmed then None else Some(n);
      (UnlockState(reset, revisiting, s.secondArmed || secondFires, s.finalArmed || thirdFires, pending), false)
  }

  /** Number `n` makes the direction stream turn counterclockwise right
      after the first number. */
  predicate FirstCueStep(s: UnlockState, n: int, tickCount: int, combination: seq<int>)
    requires |combination| == 3 && s.reset.zeros < 3
  {
    var o := Reset.Step(s.reset, n, tickCount).1;
    o.change == Some(Counterclockwise) && o.previous == Some(combination[0])
  }

  /** With stage 3 armed, number `n` makes the direction stream turn
      clockwise right after the second number. */
  predicate SecondCueStep(s: UnlockState, n: int, tickCount: int, combination: seq<int>)
    requires |combination| == 3 && s.reset.zeros < 3
  {
    var o := Reset.Step(s.reset, n, tickCount).1;
    s.secondArmed && o.change == Some(Clockwise) && o.previous == Some(combination[1])
  }

  /** Once stage 4 is armed, turning to the third number and resting there
      unlocks, unless that very number is a fresh clockwise change after the
      second number (which re-arms stage 4 and drops the pending number). */
  lemma RestOnThirdUnlocks(s: UnlockState, tickCount: int, combination: seq<int>)
    requires |combination| == 3 && s.reset.zeros < 3 && s.finalArmed
    requires !SecondCueStep(s, combination[2], tickCount, combination)
    ensures var t := Step(s, Turn(combination[2]), tickCount, combination).0;
      t.finalArmed && Step(t, Settle, tickCount, combination).1
  {
    var t := Step(s, Turn(combination[2]), tickCount, combination).0;
    assert t.pending == Some(combination[2]);
  }

  /** For every combination: after any trace that leaves stage 4 armed,
      turning to the third number and resting there unlocks. */
  lemma ArmedTraceUnlocks(events: seq<Event>, tickCount: int, combination: seq<int>)
    requires |combination| == 3 && After(events, tickCount, combination).finalArmed
    requires !SecondCueStep(After(events, tickCount, combination), combination[2], tickCount, combination)
    ensures FiresAt(events + [Turn(combination[2]), Settle], tickCount, combination)
  {
    var grown := events + [Turn(combination[2])];
    assert DropLast(grown) == events;
    assert DropLast(grown + [Settle]) == grown;
    assert events + [Turn(combination[2]), Settle] == grown + [Settle];
    RestOnThirdUnlocks(After(events, tickCount, combination), tickCount, combination);
  }

  /** The detector after a trace of events. */
  function After(events: seq<Event>, tickCount: int, combination: seq<int>): (s: UnlockState)
    requires |combination| == 3
    ensures s.reset.zeros < 3
  {
    if |events| == 0 then Initial
    else Step(After(DropLast(events), tickCount, combination), Last(events), tickCount, combination).0
  }

  /** The latest event of a non-empty trace unlocked the lock. */
  predicate FiresAt(events: seq<Event>, tickCount: int, combination: seq<int>)
    requires |combination| == 3 && |events| > 0
  {
    Step(After(DropLast(events), tickCount, combination), Last(events), tickCount, combination).1
  }

  /** The unlocked stream: `false` before any event, then `true` for every
      event that unlocks. */
  function Unlocked(events: seq<Event>, tickCount: int, combination: seq<int>): (us: seq<bool>)
    requires |combination| == 3
    ensures 1 <= |us| <= |events| + 1
    ensures !us[0]
    ensures forall i :: 1 <= i < |us| ==> us[i]
  {
    if |events| == 0 then [false]
    else Unlocked(DropLast(events), tickCount, combination) + (if FiresAt(events, tickCount, combination) then [true] else [])
  }

  /** The numbers of a trace, settles left out. */
  function NumbersOf(events: seq<Event>): (ns: seq<int>)
    ensures |ns| <= |events|
  {
    if |events| == 0 then []
    else NumbersOf(DropLast(events)) + (match Last(events) case Turn(n) => [n] case Settle => [])
  }

  /** The latest number of `numbers` made the direction stream emit `d`, and
      the number before it was `x`. */
  predicate TurnedAfter(numbers: seq<int>, d: Direction, x: int, tickCount: int) {
    && |numbers| >= 2
    && Changed(numbers, tickCount)
    && Heading(numbers, tickCount) == Some(d)
    && numbers[|numbers| - 2] == x
  }

  /** Event `i` is a counterclockwise change after the first number. */
  predicate FirstCue(events: seq<Event>, i: int, tickCount: int, combination: seq<int>)
    requires |combination| == 3
  {
    0 <= i < |events| && events[i].Turn?
    && TurnedAfter(NumbersOf(events[..i + 1]), Counterclockwise, combination[0], tickCount)
  }

  /** Event `i` is a visit to the first number. */
  predicate Revisit(events: seq<Event>, i: int, combination: seq<int>)
    requires |combination| == 3
  {
    0 <= i < |events| && events[i] == Turn(combination[0])
  }

  /** Event `i` is a clockwise change after the second number. */
  predicate SecondCue(events: seq<Event>, i: int, tickCount: int, combination: seq<int>)
    requires |combination| == 3
  {
    0 <= i < |events| && events[i].Turn?
    && TurnedAfter(NumbersOf(events[..i + 1]), Clockwise, combination[1], tickCount)
  }

  /** Before event `k`, the trace holds a first cue. */
  ghost predicate ReachedFirst(events: seq<Event>, k: int, tickCount: int, combination: seq<int>)
    requires |combination| == 3
  {
    exists i1 :: 0 <= i1 < k && FirstCue(events, i1, tickCount, combination)
  }

  /** Before event `k`, the trace holds a first cue and, later, a revisit. */
  ghost predicate ReachedSecond(events: seq<Event>, k: int, tickCount: int, combination: seq<int>)
    requires |combination| == 3
  {
    exists i1, i2 :: 0 <= i1 < i2 < k && FirstCue(events, i1, tickCount, combination) && Revisit(events, i2, combination)
  }

  /** Before event `k`, the trace holds a first cue, a revisit and a second
      cue, in that order. */
  ghost predicate ReachedThird(events: seq<Event>, k: int, tickCount: int, combination: seq<int>)
    requires |combination| == 3
  {
    exists i1, i2, i3 :: 0 <= i1 < i2 < i3 < k
      && FirstCue(events, i1, tickCount, combination)
      && Revisit(events, i2, combination)
      && SecondCue(events, i3, tickCount, combination)
  }

  /** What happened at an event stays true when the trace grows. */
  lemma CuesPersist(events: seq<Event>, e: Event, i: int, tickCount: int, combination: seq<int>)
    requires |combination| == 3 && 0 <= i < |events|
    ensures FirstCue(events, i, tickCount, combination) ==> FirstCue(events + [e], i, tickCount, combination)
    ensures Revisit(events, i, combination) ==> Revisit(events + [e], i, combination)
    ensures SecondCue(events, i, tickCount, combination) ==> SecondCue(events + [e], i, tickCount, combination)
  {
    assert (events + [e])[..i + 1] == events[..i + 1];
  }

  lemma ReachedPersists(events: seq<Event>, e: Event, k: int, tickCount: int, combination: seq<int>)
    requires |combination| == 3 && k <= |events|
    ensures ReachedFirst(events, k, tickCount, combination) ==> ReachedFirst(events + [e], k, tickCount, combination)
    ensures ReachedSecond(events, k, tickCount, combination) ==> ReachedSecond(events + [e], k, tickCount, combination)
    ensures ReachedThird(events, k, tickCount, combination) ==> ReachedThird(events + [e], k, tickCount, combination)
  {
    if ReachedFirst(events, k, tickCount, combination) {
      var i1 :| 0 <= i1 < k && FirstCue(events, i1, tickCount, combination);
      CuesPersist(events, e, i1, tickCount, combination);
    }
    if ReachedSecond(events, k, tickCount, combination) {
      var i1, i2 :| 0 <= i1 < i2 < k && FirstCue(events, i1, tickCount, combination) && Revisit(events, i2, combination);
      CuesPersist(events, e, i1, tickCount, combination);
      CuesPersist(events, e, i2, tickCount, combination);
    }
    if ReachedThird(events, k, tickCount, combination) {
      var i1, i2, i3 :| 0 <= i1 < i2 < i3 < k
        && FirstCue(events, i1, tickCount, combination)
        && Revisit(events, i2, combination)
        && SecondCue(events, i3, tickCount, combination);
      CuesPersist(events, e, i1, tickCount, combination);
      CuesPersist(events, e, i2, tickCount, combination);
      CuesPersist(events, e, i3, tickCount, combination);
    }
  }

  /** The observation the detector makes on a number is what the direction
      stream says about the trace up to that number. */
  lemma ObservationOfTurn(events: seq<Event>, n: int, tickCount: int, combination: seq<int>)
    requires |combination| == 3
    requires After(events, tickCount, combination).reset == Reset.After(NumbersOf(events), tickCount)
    ensures var o := Reset.Step(After(events, tickCount, combination).reset, n, tickCount).1;
      var numbers := NumbersOf((events + [Turn(n)])[..|events| + 1]);
      && (o.change == Some(Counterclockwise) && o.previous.Some? ==> TurnedAfter(numbers, Counterclockwise, o.previous.value, tickCount))
      && (o.change == Some(Clockwise) && o.previous.Some? ==> TurnedAfter(numbers, Clockwise, o.previous.value, tickCount))
  {
    var grown := events + [Turn(n)];
    assert grown[..|events| + 1] == grown;
    assert DropLast(grown) == events;
    var numbers := NumbersOf(grown);
    assert numbers == NumbersOf(events) + [n];
    assert DropLast(numbers) == NumbersOf(events);
    var r := After(events, tickCount, combination).reset;
    var o := Reset.Step(r, n, tickCount).1;
    Reset.AfterCountsRunZeros(NumbersOf(events), tickCount);
    assert r.dial == Dial.After(DropLast(numbers), tickCount);
    assert o == Dial.ObservationAt(numbers, tickCount);
    Dial.ObservationMatchesDirections(numbers, tickCount);
    if o.previous.Some? {
      assert |numbers| >= 2 && numbers[|numbers| - 2] == o.previous.value;
    }
  }

  /** What each armed stage of `s` implies about the trace `events` that
      led to it. */
  ghost predicate Progress(events: seq<Event>, s: UnlockState, tickCount: int, combination: seq<int>)
    requires |combination| == 3
  {
    && s.reset == Reset.After(NumbersOf(events), tickCount)
    && (s.revisiting ==> ReachedFirst(events, |events|, tickCount, combination))
    && (s.secondArmed ==> ReachedSecond(events, |events|, tickCount, combination))
    && (s.finalArmed ==> ReachedThird(events, |events|, tickCount, combination))
    && (s.pending.Some? ==>
          && s.finalArmed
          && |events| > 0
          && Last(events) == Turn(s.pending.value)
          && ReachedThird(events, |events| - 1, tickCount, combination))
  }

  /** Every state the detector reaches is explained by its trace. */
  lemma {:induction false} AfterProgress(events: seq<Event>, tickCount: int, combination: seq<int>)
    requires |combination| == 3
    ensures Progress(events, After(events, tickCount, combination), tickCount, combination)
  {
    if |events| > 0 {
      var prefix := DropLast(events);
      assert events == prefix + [Last(events)];
      AfterProgress(prefix, tickCount, combination);
      match Last(events)
      case Settle => SettleProgress(prefix, tickCount, combination);
      case Turn(n) => TurnProgress(prefix, n, tickCount, combination);
    }
  }

  lemma SettleProgress(prefix: seq<Event>, tickCount: int, combination: seq<int>)
    requires |combination| == 3
    requires Progress(prefix, After(prefix, tickCount, combination), tickCount, combination)
    ensures Progress(prefix + [Settle], After(prefix + [Settle], tickCount, combination), tickCount, combination)
  {
    var events := prefix + [Settle];
    assert DropLast(events) == prefix;
    assert NumbersOf(events) == NumbersOf(prefix);
    ReachedPersists(prefix, Settle, |prefix|, tickCount, combination);
  }

  lemma TurnProgress(prefix: seq<Event>, n: int, tickCount: int, combination: seq<int>)
    requires |combination| == 3
    requires Progress(prefix, After(prefix, tickCount, combination), tickCount, combination)
    ensures Progress(prefix + [Turn(n)], After(prefix + [Turn(n)], tickCount, combination), tickCount, combination)
  {
    var events := prefix + [Turn(n)];
    var t := After(events, tickCount, combination);
    assert DropLast(events) == prefix;
    assert NumbersOf(events) == NumbersOf(prefix) + [n];
    assert DropLast(NumbersOf(events)) == NumbersOf(prefix);
    assert t.reset == Reset.After(NumbersOf(events), tickCount);
    ReachedPersists(prefix, Turn(n), |prefix|, tickCount, combination);
    FirstStageProgress(prefix, n, tickCount, combination);
    SecondStageProgress(prefix, n, tickCount, combination);
    ThirdStageProgress(prefix, n, tickCount, combination);
    PendingProgress(prefix, n, tickCount, combination);
  }

  lemma FirstStageProgress(prefix: seq<Event>, n: int, tickCount: int, combination: seq<int>)
    requires |combination| == 3
    requires Progress(prefix, After(prefix, tickCount, combination), tickCount, combination)
    ensures After(prefix + [Turn(n)], tickCount, combination).revisiting ==>
      ReachedFirst(prefix + [Turn(n)], |prefix| + 1, tickCount, combination)
  {
    var events := prefix + [Turn(n)];
    assert DropLast(events) == prefix;
    if After(events, tickCount, combination).revisiting {
      if After(prefix, tickCount, combination).revisiting {
        ReachedPersists(prefix, Turn(n), |prefix|, tickCount, combination);
        assert ReachedFirst(events, |prefix|, tickCount, combination);
      } else {
        FirstStageExplained(prefix, n, tickCount, combination);
      }
    }
  }

  lemma SecondStageProgress(prefix: seq<Event>, n: int, tickCount: int, combination: seq<int>)
    requires |combination| == 3
    requires Progress(prefix, After(prefix, tickCount, combination), tickCount, combination)
    ensures After(prefix + [Turn(n)], tickCount, combination).secondArmed ==>
      ReachedSecond(prefix + [Turn(n)], |prefix| + 1, tickCount, combination)
  {
    var events := prefix + [Turn(n)];
    assert DropLast(events) == prefix;
    if After(events, tickCount, combination).secondArmed {
      if After(prefix, tickCount, combination).secondArmed {
        ReachedPersists(prefix, Turn(n), |prefix|, tickCount, combination);
        assert ReachedSecond(events, |prefix|, tickCount, combination);
      } else {
        SecondStageExplained(prefix, n, tickCount, combination);
      }
    }
  }

  lemma ThirdStageProgress(prefix: seq<Event>, n: int, tickCount: int, combination: seq<int>)
    requires |combination| == 3
    requires Progress(prefix, After(prefix, tickCount, combination), tickCount, combination)
    ensures After(prefix + [Turn(n)], tickCount, combination).finalArmed ==>
      ReachedThird(prefix + [Turn(n)], |prefix| + 1, tickCount, combination)
  {
    var events := prefix + [Turn(n)];
    assert DropLast(events) == prefix;
    if After(events, tickCount, combination).finalArmed {
      if After(prefix, tickCount, combination).finalArmed {
        ReachedPersists(prefix, Turn(n), |prefix|, tickCount, combination);
        assert ReachedThird(events, |prefix|, tickCount, combination);
      } else {
        ThirdStageExplained(prefix, n, tickCount, combination);
      }
    }
  }

  lemma PendingProgress(prefix: seq<Event>, n: int, tickCount: int, combination: seq<int>)
    requires |combination| == 3
    requires Progress(prefix, After(prefix, tickCount, combination), tickCount, combination)
    ensures var t := After(prefix + [Turn(n)], tickCount, combination);
      t.pending.Some? ==>
        && t.finalArmed
        && t.pending.value == n
        && ReachedThird(prefix + [Turn(n)], |prefix|, tickCount, combination)
  {
    var events := prefix + [Turn(n)];
    assert DropLast(events) == prefix;
    var s := After(prefix, tickCount, combination);
    var t := After(events, tickCount, combination);
    if t.pending.Some? {
      assert s.finalArmed && t.pending == Some(n);
      ReachedPersists(prefix, Turn(n), |prefix|, tickCount, combination);
    }
  }

  lemma FirstStageExplained(prefix: seq<Event>, n: int, tickCount: int, combination: seq<int>)
    requires |combination| == 3
    requires Progress(prefix, After(prefix, tickCount, combination), tickCount, combination)
    requires !After(prefix, tickCount, combination).revisiting
    requires After(prefix + [Turn(n)], tickCount, combination).revisiting
    ensures FirstCue(prefix + [Turn(n)], |prefix|, tickCount, combination)
  {
    var events := prefix + [Turn(n)];
    assert DropLast(events) == prefix;
    ObservationOfTurn(prefix, n, tickCount, combination);
  }

  lemma SecondStageExplained(prefix: seq<Event>, n: int, tickCount: int, combination: seq<int>)
    requires |combination| == 3
    requires Progress(prefix, After(prefix, tickCount, combination), tickCount, combination)
    requires !After(prefix, tickCount, combination).secondArmed
    requires After(prefix + [Turn(n)], tickCount, combination).secondArmed
    ensures ReachedSecond(prefix + [Turn(n)], |prefix| + 1, tickCount, combination)
  {
    var events := prefix + [Turn(n)];
    assert DropLast(events) == prefix;
    var s := After(prefix, tickCount, combination);
    assert s.revisiting && n == combination[0];
    var i1 :| 0 <= i1 < |prefix| && FirstCue(prefix, i1, tickCount, combination);
    CuesPersist(prefix, Turn(n), i1, tickCount, combination);
    assert Revisit(events, |prefix|, combination);
  }

  lemma ThirdStageExplained(prefix: seq<Event>, n: int, tickCount: int, combination: seq<int>)
    requires |combination| == 3
    requires Progress(prefix, After(prefix, tickCount, combination), tickCount, combination)
    requires !After(prefix, tickCount, combination).finalArmed
    requires After(prefix + [Turn(n)], tickCount, combination).finalArmed
    ensures ReachedThird(prefix + [Turn(n)], |prefix| + 1, tickCount, combination)
  {
    var events := prefix + [Turn(n)];
    assert DropLast(events) == prefix;
    var s := After(prefix, tickCount, combination);
    ObservationOfTurn(prefix, n, tickCount, combination);
    var o := Reset.Step(s.reset, n, tickCount).1;
    assert s.secondArmed && o.change == Some(Clockwise) && o.previous == Some(combination[1]);
    assert SecondCue(events, |prefix|, tickCount, combination);
    assert ReachedSecond(prefix, |prefix|, tickCount, combination);
    var i1, i2 :| 0 <= i1 < i2 < |prefix| && FirstCue(prefix, i1, tickCount, combination) && Revisit(prefix, i2, combination);
    CuesPersist(prefix, Turn(n), i1, tickCount, combination);
    CuesPersist(prefix, Turn(n), i2, tickCount, combination);
    ThirdFromCues(events, i1, i2, |prefix|, tickCount, combination);
  }

  /** Three cues in order make the third stage reached just after the last. */
  lemma ThirdFromCues(events: seq<Event>, i1: int, i2: int, i3: int, tickCount: int, combination: seq<int>)
    requires |combination| == 3 && 0 <= i1 < i2 < i3
    requires FirstCue(events, i1, tickCount, combination) && Revisit(events, i2, combination)
    requires SecondCue(events, i3, tickCount, combination)
    ensures ReachedThird(events, i3 + 1, tickCount, combination)
  {
  }

  /** The lock unlocks only on a settle right after the dial reached the
      third number, once the trace before that number holds, in order, a
      counterclockwise change after the first number, a later visit to the
      first number and a later clockwise change after the second number. */
  lemma UnlockNeedsCombination(events: seq<Event>, tickCount: int, combination: seq<int>)
    requires |combination| == 3 && |events| > 0
    requires FiresAt(events, tickCount, combination)
    ensures |events| >= 2 && Last(events) == Settle && events[|events| - 2] == Turn(combination[2])
    ensures ReachedThird(events, |events| - 2, tickCount, combination)
  {
    var prefix := DropLast(events);
    var s := After(prefix, tickCount, combination);
    assert Step(s, Last(events), tickCount, combination).1;
    assert Last(events) == Settle && s.finalArmed && s.pending == Some(combination[2]);
    assert events == prefix + [Settle];
    AfterProgress(prefix, tickCount, combination);
    assert Progress(prefix, s, tickCount, combination);
    assert |prefix| > 0 && Last(prefix) == Turn(combination[2]);
    assert ReachedThird(prefix, |prefix| - 1, tickCount, combination);
    ReachedPersists(prefix, Settle, |prefix| - 1, tickCount, combination);
    assert events[|events| - 2] == Last(prefix);
  }

  /** A reset stops the wait for the first number again and leaves stages 3
      and 4 as they were. */
  lemma ResetRestartsOnlyFirstStage(s: UnlockState, n: int, tickCount: int, combination: seq<int>)
    requires |combination| == 3 && combination[0] != 0 && s.reset.zeros < 3
    requires Reset.Step(s.reset, n, tickCount).2
    ensures !Step(s, Turn(n), tickCount, combination).0.revisiting
    ensures Step(s, Turn(n), tickCount, combination).0.secondArmed == s.secondArmed
    ensures Step(s, Turn(n), tickCount, combination).0.finalArmed == s.finalArmed
  {
  }

  /** A number that is no cue for any stage leaves every stage as it was. */
  lemma OtherNumbersKeepStage(s: UnlockState, n: int, tickCount: int, combination: seq<int>)
    requires |combination| == 3 && s.reset.zeros < 3
    requires !Reset.Step(s.reset, n, tickCount).2 && n != combination[0]
    requires var o := Reset.Step(s.reset, n, tickCount).1;
      !(o.change == Some(Counterclockwise) && o.previous == Some(combination[0]))
      && !(o.change == Some(Clockwise) && o.previous == Some(combination[1]))
    ensures Step(s, Turn(n), tickCount, combination).0.revisiting == s.revisiting
    ensures Step(s, Turn(n), tickCount, combination).0.secondArmed == s.secondArmed
    ensures Step(s, Turn(n), tickCount, combination).0.finalArmed == s.finalArmed
  {
  }

  /** With combination 3, 6, 4 on a 40-tick dial: turn clockwise to 3, back
      counterclockwise past it, clockwise onto 3 again, counterclockwise to
      6, clockwise to 4 and rest there. The lock unlocks once, at the end. */
  lemma UnlockExample()
    ensures Unlocked([Turn(5), Turn(4), Turn(3), Turn(4), Turn(3), Turn(4), Turn(5), Turn(6), Turn(5), Turn(4), Settle], 40, [3, 6, 4]) == [false, true]
  {
    assert After([Turn(5)], 40, [3, 6, 4]) == UnlockState(Reset.ResetState(Dial.Dial(Some(5), None), 0), false, false, false, None);
    assert DropLast([Turn(5), Turn(4)]) == [Turn(5)];
    assert After([Turn(5), Turn(4)], 40, [3, 6, 4]) == UnlockState(Reset.ResetState(Dial.Dial(Some(4), Some(Clockwise)), 0), false, false, false, None);
    assert DropLast([Turn(5), Turn(4), Turn(3)]) == [Turn(5), Turn(4)];
    assert After([Turn(5), Turn(4), Turn(3)], 40, [3, 6, 4]) == UnlockState(Reset.ResetState(Dial.Dial(Some(3), Some(Clockwise)), 0), false, false, false, None);
    assert DropLast([Turn(5), Turn(4), Turn(3), Turn(4)]) == [Turn(5), Turn(4), Turn(3)];
    assert After([Turn(5), Turn(4), Turn(3), Turn(4)], 40, [3, 6, 4]) == UnlockState(Reset.ResetState(Dial.Dial(Some(4), Some(Counterclockwise)), 0), true, false, false, None);
    assert DropLast([Turn(5), Turn(4), Turn(3), Turn(4), Turn(3)]) == [Turn(5), Turn(4), Turn(3), Turn(4)];
    assert After([Turn(5), Turn(4), Turn(3), Turn(4), Turn(3)], 40, [3, 6, 4]) == UnlockState(Reset.ResetState(Dial.Dial(Some(3), Some(Clockwise)), 0), false, true, false, None);
    assert DropLast([Turn(5), Turn(4), Turn(3), Turn(4), Turn(3), Turn(4)]) == [Turn(5), Turn(4), Turn(3), Turn(4), Turn(3)];
    assert After([Turn(5), Turn(4), Turn(3), Turn(4), Turn(3), Turn(4)], 40, [3, 6, 4]) == UnlockState(Reset.ResetState(Dial.Dial(Some(4), Some(Counterclockwise)), 0), true, true, false, None);
    assert DropLast([Turn(5), Turn(4), Turn(3), Turn(4), Turn(3), Turn(4), Turn(5)]) == [Turn(5), Turn(4), Turn(3), Turn(4), Turn(3), Turn(4)];
    assert After([Turn(5), Turn(4), Turn(3), Turn(4), Turn(3), Turn(4), Turn(5)], 40, [3, 6, 4]) == UnlockState(Reset.ResetState(Dial.Dial(Some(5), Some(Counterclockwise)), 0), true, true, false, None);
    assert DropLast([Turn(5), Turn(4), Turn(3), Turn(4), Turn(3), Turn(4), Turn(5), Turn(6)]) == [Turn(5), Turn(4), Turn(3), Turn(4), Turn(3), Turn(4), Turn(5)];
    assert After([Turn(5), Turn(4), Turn(3), Turn(4), Turn(3), Turn(4), Turn(5), Turn(6)], 40, [3, 6, 4]) == UnlockState(Reset.ResetState(Dial.Dial(Some(6), Some(Counterclockwise)), 0), true, true, false, None);
    assert DropLast([Turn(5), Turn(4), Turn(3), Turn(4), Turn(3), Turn(4), Turn(5), Turn(6), Turn(5)]) == [Turn(5), Turn(4), Turn(3), Turn(4), Turn(3), Turn(4), Turn(5), Turn(6)];
    assert After([Turn(5), Turn(4), Turn(3), Turn(4), Turn(3), Turn(4), Turn(5), Turn(6), Turn(5)], 40, [3, 6, 4]) == UnlockState(Reset.ResetState(Dial.Dial(Some(5), Some(Clockwise)), 0), true, true, true, None);
    assert DropLast([Turn(5), Turn(4), Turn(3), Turn(4), Turn(3), Turn(4), Turn(5), Turn(6), Turn(5), Turn(4)]) == [Turn(5), Turn(4), Turn(3), Turn(4), Turn(3), Turn(4), Turn(5), Turn(6), Turn(5)];
    assert After([Turn(5), Turn(4), Turn(3), Turn(4), Turn(3), Turn(4), Turn(5), Turn(6), Turn(5), Turn(4)], 40, [3, 6, 4]) == UnlockState(Reset.ResetState(Dial.Dial(Some(4), Some(Clockwise)), 0), true, true, true, Some(4));
    assert DropLast([Turn(5), Turn(4), Turn(3), Turn(4), Turn(3), Turn(4), Turn(5), Turn(6), Turn(5), Turn(4), Settle]) == [Turn(5), Turn(4), Turn(3), Turn(4), Turn(3), Turn(4), Turn(5), Turn(6), Turn(5), Turn(4)];
  }
}
