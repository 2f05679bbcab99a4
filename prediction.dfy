/**
 * Prediction aggregation: `Stream.max` over the per-user scores with the
 * comparator `(a, b) -> (int) (a.getValue() - b.getValue())`. The stream
 * reduces left to right, keeping the current best `a` against the next
 * candidate `b` whenever the comparator gives `>= 0`.
 */
module Prediction {

  /**
   * Java's `(int)` cast of a double: truncation toward zero (saturation at
   * the `int` bounds and NaN are not modelled).
   */
  function TruncateToInt(x: real): (r: int)
    ensures 0.0 <= x ==> r as real <= x < r as real + 1.0
    ensures x < 0.0 ==> r as real - 1.0 < x <= r as real
  {
    if x >= 0.0 then x.Floor else -((-x).Floor)
  }

  /**
   * The comparator of the source: `(int) (a - b)`. It ranks `a` below `b`
   * only when `b` is at least 1 more, above only when `a` is at least 1
   * more, and calls every closer pair equal.
   */
  function Compare(a: real, b: real): (c: int)
    ensures c < 0 <==> b >= a + 1.0
    ensures c > 0 <==> a >= b + 1.0
  {
    TruncateToInt(a - b)
  }

  /** The later candidate replaces the current best exactly when it scores at least 1 more. */
  lemma NextWinsIff(best: real, next: real)
    ensures Compare(best, next) < 0 <==> next >= best + 1.0
  {
  }

  /** Position, among `scores`, of the candidate the reduction returns. */
  function MaxIndex(scores: seq<real>): (k: nat)
    requires scores != []
    ensures k < |scores|
  {
    if |scores| == 1 then 0
    else
      var k := MaxIndex(scores[..|scores| - 1]);
      if Compare(scores[k], scores[|scores| - 1]) >= 0 then k else |scores| - 1
  }

  /**
   * The winner is within 1 of every score: no candidate beats it by 1 or
   * more. Its score is also at least the first candidate's.
   */
  lemma {:induction false} MaxIndexNearMaximum(scores: seq<real>)
    requires scores != []
    ensures forall j :: 0 <= j < |scores| ==> scores[j] < scores[MaxIndex(scores)] + 1.0
    ensures scores[MaxIndex(scores)] >= scores[0]
  {
    if |scores| > 1 {
      var init := scores[..|scores| - 1];
      MaxIndexNearMaximum(init);
      var k := MaxIndex(init);
      assert scores[k] == init[k];
      NextWinsIff(scores[k], scores[|scores| - 1]);
      forall j | 0 <= j < |init| ensures scores[j] == init[j] { }
    }
  }

  /**
   * The first candidate wins exactly when no other scores at least 1 more
   * than it; in particular on equal scores the first one wins.
   */
  lemma {:induction false} MaxIndexFirstIff(scores: seq<real>)
    requires scores != []
    ensures MaxIndex(scores) == 0 <==> forall j :: 0 <= j < |scores| ==> scores[j] < scores[0] + 1.0
  {
    if |scores| > 1 {
      var init := scores[..|scores| - 1];
      MaxIndexFirstIff(init);
      MaxIndexNearMaximum(init);
      NextWinsIff(scores[MaxIndex(init)], scores[|scores| - 1]);
      assert scores[0] == init[0];
      forall j | 0 <= j < |init| ensures scores[j] == init[j] { }
      if MaxIndex(init) != 0 {
        assert scores[MaxIndex(init)] >= scores[0] + 1.0 by {
          var k := MaxIndex(init);
          MaxIndexLaterBeatsFirst(init);
          assert scores[k] == init[k];
        }
      }
    }
  }

  /** A candidate other than the first wins only with a score at least 1 above the first's. */
  lemma {:induction false} MaxIndexLaterBeatsFirst(scores: seq<real>)
    requires scores != []
    ensures MaxIndex(scores) != 0 ==> scores[MaxIndex(scores)] >= scores[0] + 1.0
  {
    if |scores| > 1 {
      var init := scores[..|scores| - 1];
      MaxIndexLaterBeatsFirst(init);
      MaxIndexNearMaximum(init);
      var k := MaxIndex(init);
      assert scores[k] == init[k] && scores[0] == init[0];
      NextWinsIff(scores[k], scores[|scores| - 1]);
    }
  }

  /**
   * The reduction is not an arg-max: with scores 0 and 0.5 the first
   * candidate is returned although the second scores strictly higher.
   */
  lemma MaxIndexIsNotArgMax()
    ensures MaxIndex([0.0, 0.5]) == 0
  {
    assert [0.0, 0.5][..1] == [0.0];
    assert Compare(0.0, 0.5) == 0;
  }
}
