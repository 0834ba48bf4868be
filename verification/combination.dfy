/** The combination generator: random draws are accepted until three
    distinct numbers are held, the first of them not 0. The random source is
    replaced by a supplied sequence of draws. */
module Combination {
  import opened Streams
  import opened Numbers

  /** A draw is kept unless it is already held, or is a 0 offered as the
      first number. */
  predicate Accepts(held: seq<int>, draw: int) {
    draw !in held && !(|held| == 0 && draw == 0)
  }

  /** A combination being built: at most three distinct numbers on the dial,
      the first of them not 0. */
  predicate Partial(c: seq<int>, tickCount: int) {
    && |c| <= 3
    && (forall i, j :: 0 <= i < j < |c| ==> c[i] != c[j])
    && AllInDial(c, tickCount)
    && (|c| > 0 ==> c[0] != 0)
  }

  /** A finished combination. */
  predicate Valid(c: seq<int>, tickCount: int) {
    |c| == 3 && Partial(c, tickCount)
  }

  /** The numbers kept from a sequence of draws, the generator's loop run to
      the end of the draws: draws after the third kept one are ignored. */
  function Kept(draws: seq<int>, tickCount: int): (c: seq<int>)
    requires AllInDial(draws, tickCount)
    ensures Partial(c, tickCount)
    ensures forall x :: x in c ==> x in draws
  {
    if |draws| == 0 then []
    else
      var held := Kept(DropLast(draws), tickCount);
      if |held| < 3 && Accepts(held, Last(draws)) then held + [Last(draws)] else held
  }

  /** The generator's loop over the supplied draws. It stops as soon as it
      holds three numbers; if the draws run out first it reports `None`,
      standing for a loop that would go on drawing. */
  method NewCombination(tickCount: int, draws: seq<int>) returns (result: Option<seq<int>>, used: nat)
    requires AllInDial(draws, tickCount)
    ensures used <= |draws|
    ensures result.Some? <==> |Kept(draws, tickCount)| == 3
    ensures result.Some? ==> result.value == Kept(draws, tickCount) && Valid(result.value, tickCount)
    ensures result.Some? ==> result.value == Kept(draws[..used], tickCount)
    ensures result.Some? ==> used > 0 && |Kept(draws[..used - 1], tickCount)| < 3
    ensures result.None? ==> used == |draws|
  {
    var combination: seq<int> := [];
    used := 0;
    while |combination| < 3 && used < |draws|
      invariant used <= |draws|
      invariant combination == Kept(draws[..used], tickCount)
      invariant Partial(combination, tickCount)
      invariant used > 0 && |combination| == 3 ==> |Kept(draws[..used - 1], tickCount)| < 3
    {
      var number := draws[used];
      assert draws[..used + 1] == draws[..used] + [number];
      assert DropLast(draws[..used + 1]) == draws[..used];
      if number !in combination && !(|combination| == 0 && number == 0) {
        combination := combination + [number];
      }
      used := used + 1;
    }
    if |combination| == 3 {
      KeptStopsAtThree(draws, used, tickCount);
      result := Some(combination);
    } else {
      assert draws[..used] == draws;
      result := None;
    }
  }

  /** Once three numbers are kept, later draws change nothing. */
  lemma {:induction false} KeptStopsAtThree(draws: seq<int>, k: nat, tickCount: int)
    requires AllInDial(draws, tickCount) && k <= |draws|
    requires |Kept(draws[..k], tickCount)| == 3
    ensures Kept(draws, tickCount) == Kept(draws[..k], tickCount)
    decreases |draws| - k
  {
    if k < |draws| {
      assert draws[..k + 1][..k] == draws[..k];
      assert DropLast(draws[..k + 1]) == draws[..k];
      KeptStopsAtThree(draws, k + 1, tickCount);
    } else {
      assert draws[..k] == draws;
    }
  }

  /** Three distinct draws, the first not 0, are kept as they are. */
  lemma ThreeGoodDraws(a: int, b: int, c: int, tickCount: int)
    requires AllInDial([a, b, c], tickCount)
    requires a != 0 && a != b && a != c && b != c
    ensures Kept([a, b, c], tickCount) == [a, b, c]
  {
    assert InDial([a, b, c][0], tickCount) && InDial([a, b, c][1], tickCount);
    assert AllInDial([a], tickCount) && AllInDial([a, b], tickCount);
    assert DropLast([a]) == [];
    assert Kept([a], tickCount) == [a];
    assert DropLast([a, b]) == [a];
    assert Kept([a, b], tickCount) == [a, b];
    assert DropLast([a, b, c]) == [a, b];
  }

  /** One more draw, as the generator's loop sees it. */
  lemma KeptStep(draws: seq<int>, k: nat, tickCount: int)
    requires AllInDial(draws, tickCount) && k < |draws|
    ensures var held := Kept(draws[..k], tickCount);
      Kept(draws[..k + 1], tickCount) ==
        if |held| < 3 && Accepts(held, draws[k]) then held + [draws[k]] else held
  {
    assert DropLast(draws[..k + 1]) == draws[..k];
  }

  /** A first draw of 0 and a repeated draw are skipped; a 0 drawn later
      is kept. */
  lemma LeadingZeroSkipped()
    ensures Kept([0, 5, 5, 0], 40) == [5, 0]
  {
    assert DropLast([0, 5, 5, 0]) == [0, 5, 5];
    assert DropLast([0, 5, 5]) == [0, 5];
    assert DropLast([0, 5]) == [0];
    assert DropLast([0]) == [];
  }

  /** Once three numbers are kept, the draws after them are ignored. */
  lemma SkippedDraws()
    ensures Kept([0, 5, 5, 0, 7, 9, 3], 40) == [5, 0, 7]
  {
    var draws := [0, 5, 5, 0, 7, 9, 3];
    LeadingZeroSkipped();
    assert draws[..4] == [0, 5, 5, 0];
    KeptStep(draws, 4, 40);
    assert Kept(draws[..5], 40) == [5, 0, 7];
    KeptStopsAtThree(draws, 5, 40);
    assert draws[..7] == draws;
  }
}
