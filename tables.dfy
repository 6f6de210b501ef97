/// A score table: a fixed list of weights, each awarded once when its field is present.
/// This is the reference definition the scorers are proved against: a score is the sum of
/// the weights of the present fields, so it never exceeds the table's total and it grows
/// when a field becomes present.
module Tables {

  /** The points one field earns: its weight when it is present, nothing otherwise. */
  function Award(present: bool, weight: nat): nat
  {
    if present then weight else 0
  }

  /** The sum of the weights of a table from position `from` on. */
  function TotalFrom(weights: seq<nat>, from: nat): nat
    requires from <= |weights|
    decreases |weights| - from
  {
    if from == |weights| then 0 else weights[from] + TotalFrom(weights, from + 1)
  }

  /** The sum of all weights of a table. */
  function Total(weights: seq<nat>): nat
  {
    TotalFrom(weights, 0)
  }

  /** The points earned by the fields from position `from` on: the weight of every field
      marked present, each once. */
  function EarnedFrom(weights: seq<nat>, present: seq<bool>, from: nat): (points: nat)
    requires |present| == |weights| && from <= |weights|
    ensures points <= TotalFrom(weights, from)
    decreases |weights| - from
  {
    if from == |weights| then 0
    else Award(present[from], weights[from]) + EarnedFrom(weights, present, from + 1)
  }

  /** The points a record earns from the whole table. */
  function Earned(weights: seq<nat>, present: seq<bool>): (points: nat)
    requires |present| == |weights|
    ensures points <= Total(weights)
  {
    EarnedFrom(weights, present, 0)
  }

  /** A table of three to seven fields, written out field by field. */
  lemma Earned3(w: seq<nat>, p: seq<bool>)
    requires |w| == |p| == 3
    ensures Earned(w, p) == Award(p[0], w[0]) + Award(p[1], w[1]) + Award(p[2], w[2])
  {
    assert EarnedFrom(w, p, 2) == Award(p[2], w[2]);
    assert EarnedFrom(w, p, 0) == Award(p[0], w[0]) + EarnedFrom(w, p, 1);
  }

  lemma Earned4(w: seq<nat>, p: seq<bool>)
    requires |w| == |p| == 4
    ensures Earned(w, p) == Award(p[0], w[0]) + Award(p[1], w[1]) + Award(p[2], w[2]) + Award(p[3], w[3])
  {
    assert EarnedFrom(w, p, 3) == Award(p[3], w[3]);
    assert EarnedFrom(w, p, 1) == Award(p[1], w[1]) + EarnedFrom(w, p, 2);
  }

  lemma Earned5(w: seq<nat>, p: seq<bool>)
    requires |w| == |p| == 5
    ensures Earned(w, p) == Award(p[0], w[0]) + Award(p[1], w[1]) + Award(p[2], w[2]) + Award(p[3], w[3]) + Award(p[4], w[4])
  {
    assert EarnedFrom(w, p, 4) == Award(p[4], w[4]);
    assert EarnedFrom(w, p, 2) == Award(p[2], w[2]) + EarnedFrom(w, p, 3);
    assert EarnedFrom(w, p, 0) == Award(p[0], w[0]) + EarnedFrom(w, p, 1);
  }

  lemma Earned6(w: seq<nat>, p: seq<bool>)
    requires |w| == |p| == 6
    ensures Earned(w, p) == Award(p[0], w[0]) + Award(p[1], w[1]) + Award(p[2], w[2]) + Award(p[3], w[3]) + Award(p[4], w[4]) + Award(p[5], w[5])
  {
    assert EarnedFrom(w, p, 5) == Award(p[5], w[5]);
    assert EarnedFrom(w, p, 3) == Award(p[3], w[3]) + EarnedFrom(w, p, 4);
    assert EarnedFrom(w, p, 1) == Award(p[1], w[1]) + EarnedFrom(w, p, 2);
  }

  lemma Earned7(w: seq<nat>, p: seq<bool>)
    requires |w| == |p| == 7
    ensures Earned(w, p) == Award(p[0], w[0]) + Award(p[1], w[1]) + Award(p[2], w[2]) + Award(p[3], w[3]) + Award(p[4], w[4]) + Award(p[5], w[5]) + Award(p[6], w[6])
  {
    assert EarnedFrom(w, p, 6) == Award(p[6], w[6]);
    assert EarnedFrom(w, p, 4) == Award(p[4], w[4]) + EarnedFrom(w, p, 5);
    assert EarnedFrom(w, p, 2) == Award(p[2], w[2]) + EarnedFrom(w, p, 3);
    assert EarnedFrom(w, p, 0) == Award(p[0], w[0]) + EarnedFrom(w, p, 1);
  }

  /** Every field present in `fewer` is present in `more`. */
  predicate Covers(fewer: seq<bool>, more: seq<bool>)
  {
    |fewer| == |more| && forall i :: 0 <= i < |fewer| && fewer[i] ==> more[i]
  }

  /** The second of two tables side by side earns what it earns alone. */
  lemma {:induction false} EarnedFromShift(w1: seq<nat>, p1: seq<bool>, w2: seq<nat>, p2: seq<bool>, j: nat)
    requires |p1| == |w1| && |p2| == |w2| && j <= |w2|
    ensures EarnedFrom(w1 + w2, p1 + p2, |w1| + j) == EarnedFrom(w2, p2, j)
    decreases |w2| - j
  {
    if j < |w2| {
      EarnedFromShift(w1, p1, w2, p2, j + 1);
    }
  }

  /** Earning from two tables side by side, from a position in the first. */
  lemma {:induction false} EarnedFromAppend(w1: seq<nat>, p1: seq<bool>, w2: seq<nat>, p2: seq<bool>, i: nat)
    requires |p1| == |w1| && |p2| == |w2| && i <= |w1|
    ensures EarnedFrom(w1 + w2, p1 + p2, i) == EarnedFrom(w1, p1, i) + Earned(w2, p2)
    decreases |w1| - i
  {
    if i == |w1| {
      EarnedFromShift(w1, p1, w2, p2, 0);
    } else {
      EarnedFromAppend(w1, p1, w2, p2, i + 1);
    }
  }

  /** Earning from two tables side by side is earning from each. */
  lemma EarnedAppend(w1: seq<nat>, p1: seq<bool>, w2: seq<nat>, p2: seq<bool>)
    requires |p1| == |w1| && |p2| == |w2|
    ensures Earned(w1 + w2, p1 + p2) == Earned(w1, p1) + Earned(w2, p2)
  {
    EarnedFromAppend(w1, p1, w2, p2, 0);
  }

  /** The second of two tables side by side totals what it totals alone. */
  lemma {:induction false} TotalFromShift(w1: seq<nat>, w2: seq<nat>, j: nat)
    requires j <= |w2|
    ensures TotalFrom(w1 + w2, |w1| + j) == TotalFrom(w2, j)
    decreases |w2| - j
  {
    if j < |w2| {
      TotalFromShift(w1, w2, j + 1);
    }
  }

  /** The total of two tables side by side, from a position in the first. */
  lemma {:induction false} TotalFromAppend(w1: seq<nat>, w2: seq<nat>, i: nat)
    requires i <= |w1|
    ensures TotalFrom(w1 + w2, i) == TotalFrom(w1, i) + Total(w2)
    decreases |w1| - i
  {
    if i == |w1| {
      TotalFromShift(w1, w2, 0);
    } else {
      TotalFromAppend(w1, w2, i + 1);
    }
  }

  /** The total of two tables side by side is the sum of their totals. */
  lemma TotalAppend(w1: seq<nat>, w2: seq<nat>)
    ensures Total(w1 + w2) == Total(w1) + Total(w2)
  {
    TotalFromAppend(w1, w2, 0);
  }

  /** Making more fields present never lowers the points earned. */
  lemma {:induction false} EarnedFromMonotone(weights: seq<nat>, fewer: seq<bool>, more: seq<bool>, i: nat)
    requires |fewer| == |weights| && Covers(fewer, more) && i <= |weights|
    ensures EarnedFrom(weights, fewer, i) <= EarnedFrom(weights, more, i)
    decreases |weights| - i
  {
    if i < |weights| {
      EarnedFromMonotone(weights, fewer, more, i + 1);
    }
  }

  /** Making more fields present never lowers the points earned. */
  lemma EarnedMonotone(weights: seq<nat>, fewer: seq<bool>, more: seq<bool>)
    requires |fewer| == |weights| && Covers(fewer, more)
    ensures Earned(weights, fewer) <= Earned(weights, more)
  {
    EarnedFromMonotone(weights, fewer, more, 0);
  }

  /** Making one more field present raises the points earned by at least its weight. */
  lemma {:induction false} EarnedFromStrictlyMonotone(weights: seq<nat>, fewer: seq<bool>, more: seq<bool>, i: nat, k: nat)
    requires |fewer| == |weights| && Covers(fewer, more)
    requires i <= k < |weights| && !fewer[k] && more[k]
    ensures EarnedFrom(weights, fewer, i) + weights[k] <= EarnedFrom(weights, more, i)
    decreases k - i
  {
    if i == k {
      EarnedFromMonotone(weights, fewer, more, i + 1);
    } else {
      EarnedFromStrictlyMonotone(weights, fewer, more, i + 1, k);
    }
  }

  /** Making one more field present raises the points earned by at least its weight. */
  lemma EarnedStrictlyMonotone(weights: seq<nat>, fewer: seq<bool>, more: seq<bool>, k: nat)
    requires |fewer| == |weights| && Covers(fewer, more)
    requires k < |weights| && !fewer[k] && more[k]
    ensures Earned(weights, fewer) + weights[k] <= Earned(weights, more)
  {
    EarnedFromStrictlyMonotone(weights, fewer, more, 0, k);
  }

  /** A record with no field present earns nothing. */
  lemma {:induction false} EarnedFromNothing(weights: seq<nat>, present: seq<bool>, i: nat)
    requires |present| == |weights| && i <= |weights| && forall j :: 0 <= j < |present| ==> !present[j]
    ensures EarnedFrom(weights, present, i) == 0
    decreases |weights| - i
  {
    if i < |weights| {
      EarnedFromNothing(weights, present, i + 1);
    }
  }

  /** A record with every field present earns the whole table. */
  lemma {:induction false} EarnedFromEverything(weights: seq<nat>, present: seq<bool>, i: nat)
    requires |present| == |weights| && i <= |weights| && forall j :: 0 <= j < |present| ==> present[j]
    ensures EarnedFrom(weights, present, i) == TotalFrom(weights, i)
    decreases |weights| - i
  {
    if i < |weights| {
      EarnedFromEverything(weights, present, i + 1);
    }
  }
}
