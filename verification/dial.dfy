/** What the detectors know about the dial when a number arrives: the number
    before it and whether the direction stream emitted. One dial state is
    kept for the whole trace; it is proved to agree with the direction
    stream. */
module Dial {
  import opened Streams
  import opened Direction

  /** The latest number seen and the latest direction emitted. */
  datatype Dial = Dial(last: Option<int>, heading: Option<Direction>)

  /** What one arriving number shows: the number before it (the first of
      the latest `pairwise` pair) and the direction emitted, if any. */
  datatype Observation = Observation(previous: Option<int>, change: Option<Direction>)

  const Start := Dial(None, None)

  /** A number arrives at the dial. */
  function Observe(d: Dial, n: int, tickCount: int): (r: (Dial, Observation))
    ensures r.0.last == Some(n)
    ensures r.1.previous == d.last
    ensures r.1.change.Some? ==> d.last.Some? && d.last.value != n && r.1.change != d.heading
    ensures r.0.heading == if r.1.change.Some? then r.1.change else d.heading
  {
    match d.last
    case None => (Dial(Some(n), d.heading), Observation(None, None))
    case Some(p) =>
      if p == n then (Dial(Some(n), d.heading), Observation(Some(p), None))
      else
        var dir := Classify(p, n, tickCount);
        if d.heading == Some(dir) then (Dial(Some(n), d.heading), Observation(Some(p), None))
        else (Dial(Some(n), Some(dir)), Observation(Some(p), Some(dir)))
  }

  /** The dial after a trace of numbers. */
  function After(numbers: seq<int>, tickCount: int): Dial {
    if |numbers| == 0 then Start
    else Observe(After(DropLast(numbers), tickCount), Last(numbers), tickCount).0
  }

  /** What the latest number of a non-empty trace shows. */
  function ObservationAt(numbers: seq<int>, tickCount: int): Observation
    requires |numbers| > 0
  {
    Observe(After(DropLast(numbers), tickCount), Last(numbers), tickCount).1
  }

  /** The dial remembers the latest number and the latest direction of the
      direction stream. */
  lemma {:induction false} AfterTracksDirections(numbers: seq<int>, tickCount: int)
    ensures After(numbers, tickCount).last == Latest(numbers)
    ensures After(numbers, tickCount).heading == Heading(numbers, tickCount)
    decreases |numbers|, 1
  {
    if |numbers| > 0 {
      AfterTracksDirections(DropLast(numbers), tickCount);
      ObservationMatchesDirections(numbers, tickCount);
    }
  }

  /** An arriving number reports a change exactly when the direction stream
      emits, and the change reported is the direction emitted. */
  lemma {:induction false} ObservationMatchesDirections(numbers: seq<int>, tickCount: int)
    requires |numbers| > 0
    ensures ObservationAt(numbers, tickCount).previous == Latest(DropLast(numbers))
    ensures ObservationAt(numbers, tickCount).change.Some? <==> Changed(numbers, tickCount)
    ensures Changed(numbers, tickCount) ==> ObservationAt(numbers, tickCount).change == Heading(numbers, tickCount)
    ensures !Changed(numbers, tickCount) ==> Heading(numbers, tickCount) == Heading(DropLast(numbers), tickCount)
    decreases |numbers|, 0
  {
    var prefix := DropLast(numbers);
    var n := Last(numbers);
    AfterTracksDirections(prefix, tickCount);
    var before := Moves(prefix, tickCount);
    var moves := Moves(numbers, tickCount);
    if |numbers| >= 2 && Last(prefix) != n {
      var dir := Classify(Last(prefix), n, tickCount);
      assert moves == before + [dir];
      assert DropLast(moves) == before;
    } else {
      assert moves == before;
    }
  }
}
