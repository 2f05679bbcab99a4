/**
 * One-vs-rest label encoding: each training task duplicates the shared
 * label vector (one identity index per sample) and rewrites the copy in
 * place with two `replaceWhere` passes, first -1 wherever the entry is not
 * that training run's identity index, then +1 wherever it is.
 */
module OneVsRest {

  /**
   * The conditions of the two passes. The library compares within a small
   * epsilon; every label here is a whole number, so exact comparison
   * decides the same way.
   */
  datatype Condition = EqualTo(v: real) | NotEqualTo(v: real)
  {
    predicate Holds(x: real) {
      match this
      case EqualTo(v) => x == v
      case NotEqualTo(v) => x != v
    }
  }

  /** `s` after `replaceWhere(s, value, c)`. */
  function Replaced(s: seq<real>, value: real, c: Condition): seq<real> {
    seq(|s|, i requires 0 <= i < |s| => if c.Holds(s[i]) then value else s[i])
  }

  /** What a training task's two passes make of the labels for identity index `target`. */
  function TwoPass(labels: seq<real>, target: real): seq<real> {
    Replaced(Replaced(labels, -1.0, NotEqualTo(target)), 1.0, EqualTo(target))
  }

  /** The one-vs-rest rule: +1 where the sample belongs to `target`, -1 elsewhere. */
  function Encode(labels: seq<real>, target: real): seq<real> {
    seq(|labels|, i requires 0 <= i < |labels| => if labels[i] == target then 1.0 else -1.0)
  }

  /** Number of entries of `s` equal to `v`. */
  function Count(s: seq<real>, v: real): nat {
    if s == [] then 0 else (if s[0] == v then 1 else 0) + Count(s[1..], v)
  }

  /**
   * The two passes follow the one-vs-rest rule exactly when the target is
   * not -1 (the first pass writes -1, which the second pass would then take
   * for the target), or when every label is already -1.
   */
  lemma TwoPassIsOneVsRest(labels: seq<real>, target: real)
    ensures TwoPass(labels, target) == Encode(labels, target)
        <==> target != -1.0 || forall i :: 0 <= i < |labels| ==> labels[i] == -1.0
  {
    var two, enc := TwoPass(labels, target), Encode(labels, target);
    if target != -1.0 {
      assert forall i :: 0 <= i < |labels| ==> two[i] == enc[i];
    } else if forall i :: 0 <= i < |labels| ==> labels[i] == -1.0 {
      assert forall i :: 0 <= i < |labels| ==> two[i] == enc[i];
    } else {
      var i :| 0 <= i < |labels| && labels[i] != -1.0;
      assert two[i] == 1.0 && enc[i] == -1.0;
    }
  }

  /** A list position is never -1, so every task's labels follow the one-vs-rest rule. */
  lemma TwoPassAtIndex(labels: seq<real>, userIndex: nat)
    ensures TwoPass(labels, userIndex as real) == Encode(labels, userIndex as real)
  {
    TwoPassIsOneVsRest(labels, userIndex as real);
  }

  /**
   * The encoding keeps the length and order; it has as many +1 entries as
   * the labels have entries equal to the target, and -1 everywhere else.
   */
  lemma {:induction false} EncodeCounts(labels: seq<real>, target: real)
    ensures |Encode(labels, target)| == |labels|
    ensures Count(Encode(labels, target), 1.0) == Count(labels, target)
    ensures Count(Encode(labels, target), -1.0) == |labels| - Count(labels, target)
  {
    if labels != [] {
      EncodeCounts(labels[1..], target);
      assert Encode(labels, target)[1..] == Encode(labels[1..], target);
    }
  }

  /** `replaceWhere`: rewrites, in place, every entry of `a` where `c` holds. */
  method ReplaceWhere(a: array<real>, value: real, c: Condition)
    modifies a
    ensures a[..] == Replaced(old(a[..]), value, c)
  {
    for i := 0 to a.Length
      invariant forall k :: 0 <= k < i ==> a[k] == if c.Holds(old(a[k])) then value else old(a[k])
      invariant forall k :: i <= k < a.Length ==> a[k] == old(a[k])
    {
      if c.Holds(a[i]) {
        a[i] := value;
      }
    }
  }

  /**
   * A training task's label encoding: `labels.dup()`, then the two passes
   * on the copy. The shared `labels` array is left as it was.
   */
  method EncodeLabels(labels: array<real>, userIndex: int) returns (encoded: array<real>)
    ensures fresh(encoded)
    ensures encoded[..] == TwoPass(labels[..], userIndex as real)
    ensures userIndex >= 0 ==> encoded[..] == Encode(labels[..], userIndex as real)
    ensures labels[..] == old(labels[..])
  {
    encoded := new real[labels.Length](i reads labels => if 0 <= i < labels.Length then labels[i] else 0.0);
    assert encoded[..] == labels[..];
    ReplaceWhere(encoded, -1.0, NotEqualTo(userIndex as real));
    ReplaceWhere(encoded, 1.0, EqualTo(userIndex as real));
    if userIndex >= 0 {
      TwoPassAtIndex(labels[..], userIndex);
    }
  }
}
