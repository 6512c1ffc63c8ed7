/**
 * Keeping the present results of a partial function over a sequence, in order. The sheet
 * parser does this three times: it keeps the rows whose date parses, it melts one hour column
 * into the readings that have a level, and it pairs the day and night levels of each row.
 */
module FilterMaps {
  import opened Wrappers

  /** The results of `f` that are present, in the order of `xs`. */
  function FilterMap<A, B>(xs: seq<A>, f: A -> Option<B>): (r: seq<B>)
    ensures |r| <= |xs|
  {
    if |xs| == 0 then []
    else
      var rest := FilterMap(xs[1..], f);
      match f(xs[0])
      case Some(y) => [y] + rest
      case None => rest
  }

  /** How many elements of `xs` have a result under `f`. */
  function Present<A, B>(xs: seq<A>, f: A -> Option<B>): nat {
    if |xs| == 0 then 0
    else (if f(xs[0]).Some? then 1 else 0) + Present(xs[1..], f)
  }

  /** Output `p` is the result of element `idx[p]`, for every `p`. */
  predicate Picks<A, B(==)>(xs: seq<A>, f: A -> Option<B>, out: seq<B>, idx: seq<nat>) {
    |idx| == |out| &&
    forall p :: 0 <= p < |idx| ==> idx[p] < |xs| && f(xs[idx[p]]) == Some(out[p])
  }

  predicate Increasing(idx: seq<nat>) {
    forall k, l :: 0 <= k < l < |idx| ==> idx[k] < idx[l]
  }

  /** Every element with a result is listed in `idx`. */
  predicate ListsPresent<A, B>(xs: seq<A>, f: A -> Option<B>, idx: seq<nat>) {
    forall i :: 0 <= i < |xs| && f(xs[i]).Some? ==> i in idx
  }

  /**
   * The output holds the result of every element that has one, each exactly once (the
   * positions increase strictly) and in the order of the input.
   */
  lemma {:induction false} FilterMapInOrder<A, B>(xs: seq<A>, f: A -> Option<B>) returns (idx: seq<nat>)
    ensures Picks(xs, f, FilterMap(xs, f), idx)
    ensures Increasing(idx) && ListsPresent(xs, f, idx)
  {
    if |xs| == 0 {
      idx := [];
    } else {
      var rest := FilterMapInOrder(xs[1..], f);
      var tail := FilterMap(xs[1..], f);
      var shifted := Shift(rest);
      ShiftPicks(xs, f, tail, rest);
      ShiftListsPresent(xs, f, rest);
      match f(xs[0])
      case Some(y) =>
        idx := [0] + shifted;
        assert FilterMap(xs, f) == [y] + tail;
        ConsPicks(xs, f, tail, shifted, y);
        ConsListed(xs, f, shifted);
      case None =>
        idx := shifted;
        assert FilterMap(xs, f) == tail;
    }
  }

  /** Every position one further on. */
  function Shift(idx: seq<nat>): (r: seq<nat>)
    ensures |r| == |idx| && forall k :: 0 <= k < |idx| ==> r[k] == idx[k] + 1
  {
    seq(|idx|, k requires 0 <= k < |idx| => idx[k] + 1)
  }

  lemma ShiftPicks<A, B>(xs: seq<A>, f: A -> Option<B>, out: seq<B>, rest: seq<nat>)
    requires |xs| > 0 && Picks(xs[1..], f, out, rest) && Increasing(rest)
    ensures Picks(xs, f, out, Shift(rest)) && Increasing(Shift(rest))
  {
    var shifted := Shift(rest);
    forall p | 0 <= p < |shifted| ensures shifted[p] < |xs| && xs[shifted[p]] == xs[1..][rest[p]] {
    }
  }

  lemma ShiftListsPresent<A, B>(xs: seq<A>, f: A -> Option<B>, rest: seq<nat>)
    requires |xs| > 0 && ListsPresent(xs[1..], f, rest)
    ensures forall i :: 1 <= i < |xs| && f(xs[i]).Some? ==> i in Shift(rest)
  {
    var shifted := Shift(rest);
    forall i | 1 <= i < |xs| && f(xs[i]).Some? ensures i in shifted {
      assert xs[i] == xs[1..][i - 1];
      assert i - 1 in rest;
      var k :| 0 <= k < |rest| && rest[k] == i - 1;
      assert shifted[k] == i;
    }
  }

  /** Putting the first element's result in front keeps the positions matching. */
  lemma ConsPicks<A, B>(xs: seq<A>, f: A -> Option<B>, out: seq<B>, shifted: seq<nat>, y: B)
    requires |xs| > 0 && f(xs[0]) == Some(y)
    requires Picks(xs, f, out, shifted)
    ensures Picks(xs, f, [y] + out, [0] + shifted)
  {
    var idx, ys := [0] + shifted, [y] + out;
    forall p | 0 <= p < |idx| ensures idx[p] < |xs| && f(xs[idx[p]]) == Some(ys[p]) {
      if p > 0 {
        assert idx[p] == shifted[p - 1] && ys[p] == out[p - 1];
      }
    }
  }

  /** Putting position 0 in front keeps the positions increasing and complete. */
  lemma ConsListed<A, B>(xs: seq<A>, f: A -> Option<B>, shifted: seq<nat>)
    requires |xs| > 0 && Increasing(shifted)
    requires forall k :: 0 <= k < |shifted| ==> shifted[k] >= 1
    requires forall i :: 1 <= i < |xs| && f(xs[i]).Some? ==> i in shifted
    ensures Increasing([0] + shifted) && ListsPresent(xs, f, [0] + shifted)
  {
    var idx := [0] + shifted;
    assert forall k :: 1 <= k < |idx| ==> idx[k] == shifted[k - 1];
    forall i | 0 <= i < |xs| && f(xs[i]).Some? ensures i in idx {
      if i > 0 {
        var k :| 0 <= k < |shifted| && shifted[k] == i;
        assert idx[k + 1] == i;
      }
    }
  }

  /** The output has one element per input element that has a result. */
  lemma {:induction false} FilterMapCount<A, B>(xs: seq<A>, f: A -> Option<B>)
    ensures |FilterMap(xs, f)| == Present(xs, f)
  {
    if |xs| > 0 {
      FilterMapCount(xs[1..], f);
    }
  }

  /** When every element has a result, nothing is dropped. */
  lemma {:induction false} PresentAll<A, B>(xs: seq<A>, f: A -> Option<B>)
    requires forall i :: 0 <= i < |xs| ==> f(xs[i]).Some?
    ensures Present(xs, f) == |xs|
  {
    if |xs| > 0 {
      assert forall i :: 0 <= i < |xs[1..]| ==> xs[1..][i] == xs[i + 1];
      PresentAll(xs[1..], f);
    }
  }
}
