/** The direction detector: which way the dial turned between two distinct
    consecutive numbers, emitted only when it changes. */
module Direction {
  import opened Streams
  import opened Numbers

  datatype Direction = Clockwise | Counterclockwise

  /** The direction of a move from `previous` to `next`. The two moves
      across the 0 / `tickCount - 1` seam are special-cased; otherwise a
      move to a number no smaller is counterclockwise. */
  function Classify(previous: int, next: int, tickCount: int): (d: Direction)
    ensures tickCount >= 3 && InDial(previous, tickCount) ==>
      && (next == Up(previous, tickCount) ==> d == Counterclockwise)
      && (next == Down(previous, tickCount) ==> d == Clockwise)
  {
    if previous == tickCount - 1 && next == 0 then Counterclockwise
    else if previous == 0 && next == tickCount - 1 then Clockwise
    else if next >= previous then Counterclockwise
    else Clockwise
  }

  /** On a dial of at least three numbers, one step up is counterclockwise and
      one step down is clockwise, across the seam included. */
  lemma ClassifyStep(x: int, tickCount: int)
    requires tickCount >= 3 && InDial(x, tickCount)
    ensures Classify(x, (x + 1) % tickCount, tickCount) == Counterclockwise
    ensures Classify(x, (x - 1) % tickCount, tickCount) == Clockwise
  {
    ModNear(x + 1, tickCount);
    ModNear(x - 1, tickCount);
  }

  /** On a two-number dial the seam rule wins: 0 to 1 is one step up (1 is
      both `0 + 1` and `0 - 1` modulo 2), yet it is classified clockwise. */
  lemma TwoTickDialSeam()
    ensures Classify(0, 1, 2) == Clockwise
  {
  }

  /** One classification per consecutive pair of distinct numbers (`pairwise`,
      then the filter dropping equal pairs). */
  function Moves(numbers: seq<int>, tickCount: int): (ds: seq<Direction>)
    ensures |ds| <= |numbers|
    ensures Resting(numbers) ==> ds == []
    ensures |numbers| >= 2 && numbers[|numbers| - 2] != Last(numbers) ==>
      |ds| > 0 && Last(ds) == Classify(numbers[|numbers| - 2], Last(numbers), tickCount)
  {
    if |numbers| < 2 then []
    else
      var prefix := DropLast(numbers);
      Moves(prefix, tickCount)
        + (if Last(prefix) != Last(numbers) then [Classify(Last(prefix), Last(numbers), tickCount)] else [])
  }

  /** The dial has not moved: every number of the trace is the first. */
  predicate Resting(numbers: seq<int>) {
    forall i :: 0 <= i < |numbers| ==> numbers[i] == numbers[0]
  }

  /** The direction stream: the classifications with repeats suppressed. */
  function Directions(numbers: seq<int>, tickCount: int): (ds: seq<Direction>)
    ensures NoRepeats(ds)
    ensures forall d :: d in ds ==> d in Moves(numbers, tickCount)
    ensures |Moves(numbers, tickCount)| > 0 ==> |ds| > 0 && Last(ds) == Last(Moves(numbers, tickCount))
  {
    Distinct(Moves(numbers, tickCount))
  }

  /** The latest direction emitted for a trace of numbers, if any. */
  function Heading(numbers: seq<int>, tickCount: int): Option<Direction> {
    Latest(Directions(numbers, tickCount))
  }

  /** The latest number of the trace made the direction stream emit. */
  predicate Changed(numbers: seq<int>, tickCount: int) {
    |numbers| > 0 && |Directions(numbers, tickCount)| != |Directions(DropLast(numbers), tickCount)|
  }

  /** The direction stream emits on the latest number exactly when that
      number differs from the one before it and its move is classified
      differently from the latest direction emitted so far; what it emits
      is that classification. */
  lemma ChangedExactly(numbers: seq<int>, tickCount: int)
    requires |numbers| > 0
    ensures Changed(numbers, tickCount) <==>
      && |numbers| >= 2
      && numbers[|numbers| - 2] != Last(numbers)
      && Heading(DropLast(numbers), tickCount) != Some(Classify(numbers[|numbers| - 2], Last(numbers), tickCount))
    ensures Changed(numbers, tickCount) ==>
      Heading(numbers, tickCount) == Some(Classify(numbers[|numbers| - 2], Last(numbers), tickCount))
    ensures !Changed(numbers, tickCount) ==> Heading(numbers, tickCount) == Heading(DropLast(numbers), tickCount)
  {
    var prefix := DropLast(numbers);
    var before := Moves(prefix, tickCount);
    var moves := Moves(numbers, tickCount);
    if |numbers| >= 2 && Last(prefix) != Last(numbers) {
      assert numbers[|numbers| - 2] == Last(prefix);
      var dir := Classify(Last(prefix), Last(numbers), tickCount);
      assert moves == before + [dir];
      assert DropLast(moves) == before;
    } else {
      assert moves == before;
    }
  }

  /** Along one walk of the decoder, every move goes the same way: all up
      moves are counterclockwise and all down moves clockwise, so the walk
      produces at most one direction change. */
  lemma {:induction false} WalkMovesOneWay(start: int, p: seq<int>, delta: int, tickCount: int)
    requires tickCount >= 3 && InDial(start, tickCount) && AllInDial(p, tickCount)
    requires delta == 1 || delta == -1
    requires Steps(start, p, delta, tickCount)
    ensures forall i :: 0 <= i < |Moves([start] + p, tickCount)| ==>
      Moves([start] + p, tickCount)[i] == (if delta == 1 then Counterclockwise else Clockwise)
    ensures |Moves([start] + p, tickCount)| == |p|
  {
    var w := [start] + p;
    if |p| > 0 {
      var q := DropLast(p);
      assert DropLast(w) == [start] + q;
      assert Steps(start, q, delta, tickCount) by {
        var v := [start] + q;
        forall i | 0 < i < |v|
          ensures MovedBy(v[i - 1], v[i], delta, tickCount)
        {
          assert v[i - 1] == w[i - 1] && v[i] == w[i];
        }
      }
      WalkMovesOneWay(start, q, delta, tickCount);
      var x := Last(DropLast(w));
      assert MovedBy(w[|w| - 2], w[|w| - 1], delta, tickCount);
      assert InDial(x, tickCount);
      ClassifyStep(x, tickCount);
      ModNear(x + 1, tickCount);
      ModNear(x - 1, tickCount);
    }
  }

  /** The direction stream of a single walk holds one direction, the
      walk's own, unless the walk is empty. */
  lemma WalkTurnsOnce(a: int, b: int, tickCount: int)
    requires tickCount >= 3 && InDial(a, tickCount) && InDial(b, tickCount)
    ensures Directions([a] + Path(a, b, tickCount), tickCount) ==
      if a == b then []
      else if (b - a) % tickCount < (a - b) % tickCount then [Counterclockwise]
      else [Clockwise]
  {
    var p := Path(a, b, tickCount);
    var up := (b - a) % tickCount < (a - b) % tickCount;
    var delta := if up then 1 else -1;
    WalkMovesOneWay(a, p, delta, tickCount);
    DistinctOfConstant(Moves([a] + p, tickCount), if up then Counterclockwise else Clockwise);
  }
}
