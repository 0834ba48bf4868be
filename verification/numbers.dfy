/** The tick decoder: quantised rotations become dial numbers in
    `[0, tickCount)`, and every number passed over between two rotations is
    emitted, one step at a time along the shorter way round. */
module Numbers {
  import opened Streams
  import Rotation

  predicate InDial(x: int, tickCount: int) {
    0 <= x < tickCount
  }

  predicate AllInDial(xs: seq<int>, tickCount: int) {
    forall i :: 0 <= i < |xs| ==> InDial(xs[i], tickCount)
  }

  /** The number a quantised rotation of `k` ticks points at: a positive
      rotation counts back from `tickCount`, any other counts up from 0.
      It is the tick index negated, modulo `tickCount`. */
  function RawNumber(k: int, tickCount: int): (n: int)
    requires tickCount > 0
    requires -(tickCount - 1) <= k <= tickCount
    ensures InDial(n, tickCount)
    ensures n == (-k) % tickCount
  {
    ModNear(-k, tickCount);
    if k > 0 then tickCount - k else -k
  }

  lemma ModNear(x: int, m: int)
    requires m > 0 && -m <= x < 2 * m
    ensures x % m == (if x < 0 then x + m else if x < m then x else x - m)
  {
  }

  /** The non-negative elements of `xs`, in order (`filter(num => num >= 0)`). */
  function NonNegatives(xs: seq<int>): (r: seq<int>)
    ensures forall x :: x in r <==> x in xs && x >= 0
  {
    if |xs| == 0 then [] else (if xs[0] >= 0 then [xs[0]] else []) + NonNegatives(xs[1..])
  }

  /** `Math.min` over a non-empty list. */
  function Min(xs: seq<int>): (m: int)
    requires |xs| > 0
    ensures m in xs
    ensures forall x :: x in xs ==> m <= x
  {
    if |xs| == 1 then xs[0]
    else
      var rest := Min(xs[1..]);
      assert forall x :: x in xs ==> x == xs[0] || x in xs[1..];
      if xs[0] <= rest then xs[0] else rest
  }

  /** The number of steps from `a` up to `b`, computed as the source does:
      the least non-negative of `b - a`, `b - a + tickCount` and
      `tickCount`. */
  function StepsUp(a: int, b: int, tickCount: int): (r: int)
    requires tickCount > 0
    ensures 0 <= r <= tickCount
    ensures r == b - a || r == b - a + tickCount || r == tickCount
    ensures b - a >= 0 ==> r <= b - a
    ensures b - a + tickCount >= 0 ==> r <= b - a + tickCount
  {
    var candidates := NonNegatives([b - a, b - a + tickCount, tickCount]);
    assert tickCount in candidates;
    assert b - a + tickCount >= 0 ==> b - a + tickCount in candidates;
    assert b - a >= 0 ==> b - a in candidates;
    Min(candidates)
  }

  /** The number of steps from `a` down to `b`, by the same computation. */
  function StepsDown(a: int, b: int, tickCount: int): (r: int)
    requires tickCount > 0
    ensures 0 <= r <= tickCount
    ensures r == a - b || r == a - b + tickCount || r == tickCount
    ensures a - b >= 0 ==> r <= a - b
    ensures a - b + tickCount >= 0 ==> r <= a - b + tickCount
  {
    StepsUp(b, a, tickCount)
  }

  /** On the dial, the source's step counts are the circular distances:
      `(b - a) mod tickCount` going up and `(a - b) mod tickCount` going
      down. */
  lemma StepsAreCircularDistances(a: int, b: int, tickCount: int)
    requires tickCount > 0 && InDial(a, tickCount) && InDial(b, tickCount)
    ensures StepsUp(a, b, tickCount) == (b - a) % tickCount
    ensures StepsDown(a, b, tickCount) == (a - b) % tickCount
  {
    ModNear(b - a, tickCount);
    ModNear(a - b, tickCount);
    var up := NonNegatives([b - a, b - a + tickCount, tickCount]);
    var down := NonNegatives([a - b, a - b + tickCount, tickCount]);
    assert (b - a) % tickCount in up;
    assert (a - b) % tickCount in down;
  }

  /** One step up the dial, wrapping from `tickCount - 1` to 0. */
  function Up(x: int, tickCount: int): (r: int)
    requires tickCount > 0 && InDial(x, tickCount)
    ensures InDial(r, tickCount)
    ensures r == (x + 1) % tickCount
  {
    ModNear(x + 1, tickCount);
    if x == tickCount - 1 then 0 else x + 1
  }

  /** One step down the dial, wrapping from 0 to `tickCount - 1`. */
  function Down(x: int, tickCount: int): (r: int)
    requires tickCount > 0 && InDial(x, tickCount)
    ensures InDial(r, tickCount)
    ensures r == (x - 1) % tickCount
  {
    ModNear(x - 1, tickCount);
    if x == 0 then tickCount - 1 else x - 1
  }

  /** `s` is what one walk from `start` emits: each element is its
      predecessor (the first one's is `start`) moved by `delta` modulo
      `tickCount`. */
  ghost predicate Steps(start: int, s: seq<int>, delta: int, tickCount: int)
    requires tickCount > 0
  {
    var w := [start] + s;
    forall i :: 0 < i < |w| ==> MovedBy(w[i - 1], w[i], delta, tickCount)
  }

  /** `y` is `x` moved by `delta` round a dial of `tickCount` numbers. */
  predicate MovedBy(x: int, y: int, delta: int, tickCount: int)
    requires tickCount > 0
  {
    y == (x + delta) % tickCount
  }

  /** Neighbouring dial positions. */
  predicate Adjacent(x: int, y: int, tickCount: int)
    requires tickCount > 0
  {
    y == (x + 1) % tickCount || y == (x - 1) % tickCount
  }

  /** Every element of `s` is a neighbour of its predecessor, the first
      one's being `start`: no number is skipped. */
  predicate GapFree(start: int, s: seq<int>, tickCount: int)
    requires tickCount > 0
  {
    var w := [start] + s;
    forall i :: 0 < i < |w| ==> Adjacent(w[i - 1], w[i], tickCount)
  }

  /** The numbers emitted between two consecutive raw numbers `a` and `b`:
      the walk along the shorter way, going up only when that way is
      strictly shorter (a tie goes down), ending at `b`. */
  function Path(a: int, b: int, tickCount: int): (p: seq<int>)
    requires tickCount > 0 && InDial(a, tickCount) && InDial(b, tickCount)
    ensures |p| == if (b - a) % tickCount < (a - b) % tickCount then (b - a) % tickCount else (a - b) % tickCount
    ensures |p| == 0 <==> a == b
    ensures |p| > 0 ==> Last(p) == b
    ensures AllInDial(p, tickCount)
    ensures (b - a) % tickCount < (a - b) % tickCount ==> Steps(a, p, 1, tickCount)
    ensures (b - a) % tickCount >= (a - b) % tickCount ==> Steps(a, p, -1, tickCount)
    ensures GapFree(a, p, tickCount)
  {
    StepsAreCircularDistances(a, b, tickCount);
    ModNear(b - a, tickCount);
    ModNear(a - b, tickCount);
    if StepsUp(a, b, tickCount) < StepsDown(a, b, tickCount) then
      var p := seq(StepsUp(a, b, tickCount), i requires 0 <= i => (a + i + 1) % tickCount);
      PathUpShape(a, b, tickCount, p);
      p
    else
      var p := seq(StepsDown(a, b, tickCount), i requires 0 <= i => (a - i - 1) % tickCount);
      PathDownShape(a, b, tickCount, p);
      p
  }

  lemma PathUpShape(a: int, b: int, tickCount: int, p: seq<int>)
    requires tickCount > 0 && InDial(a, tickCount) && InDial(b, tickCount)
    requires |p| == (b - a) % tickCount
    requires forall i :: 0 <= i < |p| ==> p[i] == (a + i + 1) % tickCount
    ensures |p| > 0 ==> Last(p) == b
    ensures AllInDial(p, tickCount)
    ensures Steps(a, p, 1, tickCount)
    ensures GapFree(a, p, tickCount)
  {
    ModNear(b - a, tickCount);
    var w := [a] + p;
    forall i | 0 < i < |w|
      ensures MovedBy(w[i - 1], w[i], 1, tickCount)
    {
      assert w[i] == p[i - 1];
      ModNear(a + i, tickCount);
      if i > 1 {
        assert w[i - 1] == p[i - 2];
        ModNear(a + i - 1, tickCount);
        ModNear(w[i - 1] + 1, tickCount);
      }
    }
    if |p| > 0 {
      ModNear(a + |p|, tickCount);
    }
  }

  lemma PathDownShape(a: int, b: int, tickCount: int, p: seq<int>)
    requires tickCount > 0 && InDial(a, tickCount) && InDial(b, tickCount)
    requires |p| == (a - b) % tickCount
    requires forall i :: 0 <= i < |p| ==> p[i] == (a - i - 1) % tickCount
    ensures |p| > 0 ==> Last(p) == b
    ensures AllInDial(p, tickCount)
    ensures Steps(a, p, -1, tickCount)
    ensures GapFree(a, p, tickCount)
  {
    ModNear(a - b, tickCount);
    var w := [a] + p;
    forall i | 0 < i < |w|
      ensures MovedBy(w[i - 1], w[i], -1, tickCount)
    {
      assert w[i] == p[i - 1];
      ModNear(a - i, tickCount);
      if i > 1 {
        assert w[i - 1] == p[i - 2];
        ModNear(a - i + 1, tickCount);
        ModNear(w[i - 1] - 1, tickCount);
      }
    }
    if |p| > 0 {
      ModNear(a - |p|, tickCount);
    }
  }

  /** The walk without wrapping arithmetic: going up, the i-th number is
      `i + 1` steps above `a`; going down, `i + 1` steps below it. */
  lemma PathSteps(a: int, b: int, tickCount: int)
    requires tickCount > 0 && InDial(a, tickCount) && InDial(b, tickCount)
    ensures var p := Path(a, b, tickCount);
      if StepsUp(a, b, tickCount) < StepsDown(a, b, tickCount) then
        && |p| == Span(a, b, tickCount)
        && forall i :: 0 <= i < |p| ==> p[i] == Ahead(a, i + 1, tickCount)
      else
        && |p| == Span(b, a, tickCount)
        && forall i :: 0 <= i < |p| ==> p[i] == Behind(a, i + 1, tickCount)
  {
    StepsAreCircularDistances(a, b, tickCount);
    ModNear(b - a, tickCount);
    ModNear(a - b, tickCount);
    var p := Path(a, b, tickCount);
    if StepsUp(a, b, tickCount) < StepsDown(a, b, tickCount) {
      forall i | 0 <= i < |p|
        ensures p[i] == Ahead(a, i + 1, tickCount)
      {
        ModNear(a + i + 1, tickCount);
      }
    } else {
      forall i | 0 <= i < |p|
        ensures p[i] == Behind(a, i + 1, tickCount)
      {
        ModNear(a - i - 1, tickCount);
      }
    }
  }

  /** The source's loop: step from `previous` towards `next` until they
      meet, pushing each number reached; it emits exactly `Path`. */
  method Walk(previous: int, next: int, tickCount: int) returns (output: seq<int>)
    requires tickCount > 0 && InDial(previous, tickCount) && InDial(next, tickCount)
    ensures output == Path(previous, next, tickCount)
  {
    PathSteps(previous, next, tickCount);
    if StepsUp(previous, next, tickCount) < StepsDown(previous, next, tickCount) {
      output := Climb(previous, next, tickCount);
    } else {
      output := Descend(previous, next, tickCount);
    }
  }

  /** The number of steps up from `a` to `b`, without wrapping arithmetic. */
  function Span(a: int, b: int, tickCount: int): int {
    if a <= b then b - a else b - a + tickCount
  }

  /** `j` steps up from `start`, at most one wrap. */
  function Ahead(start: int, j: int, tickCount: int): int {
    if start + j < tickCount then start + j else start + j - tickCount
  }

  /** `j` steps down from `start`, at most one wrap. */
  function Behind(start: int, j: int, tickCount: int): int {
    if start - j >= 0 then start - j else start - j + tickCount
  }

  /** The loop taken when the way up is shorter. */
  method Climb(previous: int, next: int, tickCount: int) returns (output: seq<int>)
    requires tickCount > 0 && InDial(previous, tickCount) && InDial(next, tickCount)
    ensures |output| == Span(previous, next, tickCount)
    ensures forall i :: 0 <= i < |output| ==> output[i] == Ahead(previous, i + 1, tickCount)
  {
    var start := previous;
    var current := previous;
    output := [];
    while current != next
      invariant 0 <= |output| <= Span(start, next, tickCount)
      invariant current == Ahead(start, |output|, tickCount)
      invariant forall i :: 0 <= i < |output| ==> output[i] == Ahead(start, i + 1, tickCount)
      decreases Span(start, next, tickCount) - |output|
    {
      current := Up(current, tickCount);
      output := output + [current];
    }
  }

  /** The loop taken when the way down is no longer. */
  method Descend(previous: int, next: int, tickCount: int) returns (output: seq<int>)
    requires tickCount > 0 && InDial(previous, tickCount) && InDial(next, tickCount)
    ensures |output| == Span(next, previous, tickCount)
    ensures forall i :: 0 <= i < |output| ==> output[i] == Behind(previous, i + 1, tickCount)
  {
    var start := previous;
    var current := previous;
    output := [];
    while current != next
      invariant 0 <= |output| <= Span(next, start, tickCount)
      invariant current == Behind(start, |output|, tickCount)
      invariant forall i :: 0 <= i < |output| ==> output[i] == Behind(start, i + 1, tickCount)
      decreases Span(next, start, tickCount) - |output|
    {
      current := Down(current, tickCount);
      output := output + [current];
    }
  }

  /** A jump of exactly half the dial is a tie, and goes down: on a dial
      of `2 * h` numbers, 0 to `h` passes `2 * h - 1`, `2 * h - 2`, ...,
      `h`. */
  lemma HalfTurnGoesDown(h: int)
    requires h > 0
    ensures Path(0, h, 2 * h) == seq(h, i => 2 * h - 1 - i)
  {
    var tickCount := 2 * h;
    StepsAreCircularDistances(0, h, tickCount);
    ModNear(h, tickCount);
    ModNear(-h, tickCount);
    assert !(StepsUp(0, h, tickCount) < StepsDown(0, h, tickCount));
    PathSteps(0, h, tickCount);
    var p := Path(0, h, tickCount);
    var q := seq(h, i => 2 * h - 1 - i);
    assert |p| == |q|;
    forall i | 0 <= i < h
      ensures p[i] == q[i]
    {
      assert p[i] == Behind(0, i + 1, tickCount);
    }
  }

  /** A jump from 38 to 3 on a 40-tick dial goes up across the seam through
      39, 0, 1, 2, 3. */
  lemma SeamJumpGoesUp()
    ensures Path(38, 3, 40) == [39, 0, 1, 2, 3]
  {
    StepsAreCircularDistances(38, 3, 40);
    PathSteps(38, 3, 40);
  }

  /** The number stream for a trace of raw numbers: the walk between every
      consecutive pair, concatenated. */
  function Numbers(raws: seq<int>, tickCount: int): (ns: seq<int>)
    requires tickCount > 0 && |raws| > 0 && AllInDial(raws, tickCount)
    ensures AllInDial(ns, tickCount)
    ensures GapFree(raws[0], ns, tickCount)
    ensures Last([raws[0]] + ns) == Last(raws)
    ensures |ns| == TotalDistance(raws, tickCount)
  {
    if |raws| == 1 then []
    else
      var prefix := DropLast(raws);
      var before := Numbers(prefix, tickCount);
      var step := Path(Last(prefix), Last(raws), tickCount);
      JoinWalks(raws[0], before, step, Last(raws), tickCount);
      assert raws[|raws| - 2] == Last(prefix);
      assert |step| == Distance(Last(prefix), Last(raws), tickCount);
      before + step
  }

  /** How far apart two dial numbers are, the shorter way round. */
  function Distance(a: int, b: int, tickCount: int): nat
    requires tickCount > 0
  {
    if (b - a) % tickCount < (a - b) % tickCount then (b - a) % tickCount else (a - b) % tickCount
  }

  /** The distances between consecutive numbers of a trace, added up. */
  function TotalDistance(raws: seq<int>, tickCount: int): nat
    requires tickCount > 0
  {
    if |raws| < 2 then 0
    else TotalDistance(DropLast(raws), tickCount) + Distance(raws[|raws| - 2], Last(raws), tickCount)
  }

  /** The number stream of every prefix of the raw numbers is a prefix of
      the whole stream, and ends at the raw number that closes that prefix:
      every raw number is reached, in order. */
  lemma {:induction false} NumbersReachEveryRaw(raws: seq<int>, i: int, tickCount: int)
    requires tickCount > 0 && AllInDial(raws, tickCount)
    requires 0 < i < |raws|
    ensures AllInDial(raws[..i + 1], tickCount)
    ensures Numbers(raws[..i + 1], tickCount) <= Numbers(raws, tickCount)
    ensures Last([raws[0]] + Numbers(raws[..i + 1], tickCount)) == raws[i]
  {
    var part := raws[..i + 1];
    assert AllInDial(part, tickCount) by {
      forall j | 0 <= j < |part|
        ensures InDial(part[j], tickCount)
      {
        assert part[j] == raws[j];
      }
    }
    assert part[0] == raws[0] && Last(part) == raws[i];
    if i < |raws| - 1 {
      var prefix := DropLast(raws);
      assert AllInDial(prefix, tickCount) by {
        forall j | 0 <= j < |prefix|
          ensures InDial(prefix[j], tickCount)
        {
          assert prefix[j] == raws[j];
        }
      }
      assert prefix[..i + 1] == part;
      NumbersReachEveryRaw(prefix, i, tickCount);
      var step := Path(Last(prefix), Last(raws), tickCount);
      assert Numbers(raws, tickCount) == Numbers(prefix, tickCount) + step;
    } else {
      assert part == raws;
    }
  }

  /** A walk that continues a gap-free stream from where it ended, to `b`,
      extends it to a gap-free stream ending at `b`. */
  lemma JoinWalks(start: int, s: seq<int>, t: seq<int>, b: int, tickCount: int)
    requires tickCount > 0
    requires AllInDial(s, tickCount) && AllInDial(t, tickCount)
    requires GapFree(start, s, tickCount) && GapFree(Last([start] + s), t, tickCount)
    requires if |t| == 0 then Last([start] + s) == b else Last(t) == b
    ensures AllInDial(s + t, tickCount)
    ensures GapFree(start, s + t, tickCount)
    ensures Last([start] + (s + t)) == b
  {
    GapFreeAppend(start, s, t, tickCount);
    assert [start] + (s + t) == ([start] + s) + t;
  }

  lemma GapFreeAppend(start: int, s: seq<int>, t: seq<int>, tickCount: int)
    requires tickCount > 0
    requires GapFree(start, s, tickCount)
    requires GapFree(Last([start] + s), t, tickCount)
    ensures GapFree(start, s + t, tickCount)
  {
    var v := [start] + s;
    var w := [start] + (s + t);
    var x := [Last(v)] + t;
    forall i | 0 < i < |w|
      ensures Adjacent(w[i - 1], w[i], tickCount)
    {
      if i < |v| {
        assert w[i - 1] == v[i - 1] && w[i] == v[i];
      } else {
        var j := i - |v| + 1;
        assert w[i - 1] == x[j - 1] && w[i] == x[j];
      }
    }
  }

  /** The raw numbers of a quantised rotation trace, after the initial
      rotation of 0. */
  function RawNumbers(ticks: seq<int>, tickCount: int): (raws: seq<int>)
    requires tickCount > 0 && Rotation.TicksInRange(ticks, tickCount)
    ensures |raws| == |ticks| + 1 && raws[0] == 0
    ensures forall i :: 0 <= i < |ticks| ==> raws[i + 1] == RawNumber(ticks[i], tickCount)
    ensures AllInDial(raws, tickCount)
  {
    [0] + seq(|ticks|, i requires 0 <= i < |ticks| => RawNumber(ticks[i], tickCount))
  }

  /** The whole decoder: from drag adjustments to the numbers the dial
      passes, starting from 0. Every number is on the dial, none is
      skipped, and the last one is the number the final rotation points
      at. */
  function Decode(adjustments: seq<real>, tickCount: int): (ns: seq<int>)
    requires tickCount > 0 && Rotation.AllWithinTurn(adjustments)
    ensures AllInDial(ns, tickCount)
    ensures GapFree(0, ns, tickCount)
    ensures |adjustments| > 0 ==>
      Last([0] + ns) == RawNumber(Rotation.TickIndex(Last(Rotation.Rotations(adjustments)), tickCount), tickCount)
    ensures ns == Numbers(RawNumbers(Rotation.RotationTicks(adjustments, tickCount), tickCount), tickCount)
    ensures |ns| == TotalDistance(RawNumbers(Rotation.RotationTicks(adjustments, tickCount), tickCount), tickCount)
  {
    var ticks := Rotation.RotationTicks(adjustments, tickCount);
    var raws := RawNumbers(ticks, tickCount);
    var ns := Numbers(raws, tickCount);
    assert |ticks| > 0 ==> Last(raws) == RawNumber(Last(ticks), tickCount);
    ns
  }

  /** The decoder passes every raw number of the rotation trace, in order:
      the stream up to the i-th raw number is a prefix of the whole stream
      and ends there. */
  lemma DecodeReachesEveryRaw(adjustments: seq<real>, i: int, tickCount: int)
    requires tickCount > 0 && Rotation.AllWithinTurn(adjustments)
    requires 0 < i <= |Rotation.RotationTicks(adjustments, tickCount)|
    ensures var raws := RawNumbers(Rotation.RotationTicks(adjustments, tickCount), tickCount);
      && AllInDial(raws[..i + 1], tickCount)
      && Numbers(raws[..i + 1], tickCount) <= Decode(adjustments, tickCount)
      && Last([0] + Numbers(raws[..i + 1], tickCount)) == raws[i]
  {
    var raws := RawNumbers(Rotation.RotationTicks(adjustments, tickCount), tickCount);
    NumbersReachEveryRaw(raws, i, tickCount);
  }
}
