/** Finite traces of stream emissions and the stream operators the lock
    pipeline is built from.  Every operator is defined by what it emits when
    one more element arrives, so that properties are proved by induction on
    the prefix seen so far. */
module Streams {

  datatype Option<+T> = None | Some(value: T)

  function Last<T>(s: seq<T>): T
    requires |s| > 0
  {
    s[|s| - 1]
  }

  function DropLast<T>(s: seq<T>): seq<T>
    requires |s| > 0
  {
    s[..|s| - 1]
  }

  /** The last element of a trace, if any. */
  function Latest<T>(s: seq<T>): Option<T> {
    if |s| == 0 then None else Some(Last(s))
  }

  /** No two neighbouring elements are equal. */
  predicate NoRepeats<T(==)>(s: seq<T>) {
    forall i :: 0 < i < |s| ==> s[i - 1] != s[i]
  }

  /** `distinctUntilChanged()`: an element is passed on unless it equals the
      one passed on just before it. */
  function Distinct<T(==)>(s: seq<T>): (r: seq<T>)
    ensures |r| <= |s|
    ensures |r| == 0 <==> |s| == 0
    ensures |s| > 0 ==> Last(r) == Last(s)
    ensures NoRepeats(r)
    ensures forall x :: x in r ==> x in s
  {
    if |s| == 0 then []
    else
      var d := Distinct(DropLast(s));
      if |d| > 0 && Last(d) == Last(s) then d else d + [Last(s)]
  }

  /** Passing a trace that has no repeats through `Distinct` changes nothing. */
  lemma {:induction false} DistinctOfNoRepeats<T>(s: seq<T>)
    requires NoRepeats(s)
    ensures Distinct(s) == s
  {
    if |s| > 0 {
      assert NoRepeats(DropLast(s));
      DistinctOfNoRepeats(DropLast(s));
      assert s == DropLast(s) + [Last(s)];
    }
  }

  /** `Distinct` drops repeats but no value: every element of the input
      appears in the output. */
  lemma {:induction false} DistinctKeepsValues<T>(s: seq<T>, x: T)
    requires x in s
    ensures x in Distinct(s)
  {
    if x == Last(s) {
    } else {
      assert s == DropLast(s) + [Last(s)];
      assert x in DropLast(s);
      DistinctKeepsValues(DropLast(s), x);
    }
  }

  /** A trace holding one value throughout passes through `Distinct` as
      that value alone. */
  lemma {:induction false} DistinctOfConstant<T>(s: seq<T>, c: T)
    requires forall i :: 0 <= i < |s| ==> s[i] == c
    ensures Distinct(s) == if |s| == 0 then [] else [c]
  {
    if |s| > 0 {
      DistinctOfConstant(DropLast(s), c);
    }
  }
}
