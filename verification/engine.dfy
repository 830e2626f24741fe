/** The engine both implementations share: a left fold of a transition
    function over a message list, either keeping every intermediate model
    (`runWithHistory`) or only the final one. */
module Engine {

  /** One model per message: element `i` is message `i` applied to element
      `i - 1`, and element 0 is the first message applied to `m`. */
  function History<Msg, M>(step: (Msg, M) -> M, m: M, msgs: seq<Msg>): (h: seq<M>)
    ensures |h| == |msgs|
    ensures |msgs| > 0 ==> h[0] == step(msgs[0], m)
    ensures forall i :: 0 < i < |msgs| ==> h[i] == step(msgs[i], h[i - 1])
    decreases |msgs|
  {
    if |msgs| == 0 then []
    else
      var next := step(msgs[0], m);
      [next] + History(step, next, msgs[1..])
  }

  /** The model reached after applying every message in order; `m` itself
      for an empty list. */
  function Fold<Msg, M>(step: (Msg, M) -> M, m: M, msgs: seq<Msg>): M
    decreases |msgs|
  {
    if |msgs| == 0 then m else Fold(step, step(msgs[0], m), msgs[1..])
  }

  /** The last history element is the fold. */
  lemma {:induction false} HistoryLastIsFold<Msg, M>(step: (Msg, M) -> M, m: M, msgs: seq<Msg>)
    requires |msgs| > 0
    ensures History(step, m, msgs)[|msgs| - 1] == Fold(step, m, msgs)
    decreases |msgs|
  {
    if |msgs| > 1 {
      HistoryLastIsFold(step, step(msgs[0], m), msgs[1..]);
    }
  }

  /** Folding a concatenation folds the second part from where the first
      stopped. */
  lemma {:induction false} FoldAppend<Msg, M>(step: (Msg, M) -> M, m: M, a: seq<Msg>, b: seq<Msg>)
    ensures Fold(step, m, a + b) == Fold(step, Fold(step, m, a), b)
    decreases |a|
  {
    if |a| == 0 {
      assert a + b == b;
    } else {
      assert (a + b)[1..] == a[1..] + b;
      FoldAppend(step, step(a[0], m), a[1..], b);
    }
  }

  /** The history of `a + b` is the history of `a` followed by the history of
      `b` started from the model `a` ends in (`m` itself when `a` is empty). */
  lemma {:induction false} HistoryAppend<Msg, M>(step: (Msg, M) -> M, m: M, a: seq<Msg>, b: seq<Msg>)
    ensures History(step, m, a + b) == History(step, m, a) + History(step, Fold(step, m, a), b)
    decreases |a|
  {
    if |a| == 0 {
      assert a + b == b;
    } else {
      assert (a + b)[1..] == a[1..] + b;
      HistoryAppend(step, step(a[0], m), a[1..], b);
    }
  }

  /** A property every transition preserves holds of every model in the
      history. */
  lemma {:induction false} HistoryPreserves<Msg, M>(step: (Msg, M) -> M, inv: M -> bool, m: M, msgs: seq<Msg>)
    requires inv(m)
    requires forall msg, x :: inv(x) ==> inv(step(msg, x))
    ensures forall i :: 0 <= i < |msgs| ==> inv(History(step, m, msgs)[i])
    decreases |msgs|
  {
    if |msgs| > 0 {
      HistoryPreserves(step, inv, step(msgs[0], m), msgs[1..]);
    }
  }

  /** The recurrence determines the history: any sequence that starts with
      the first message applied to `m` and follows each further message is
      the history. */
  lemma {:induction false} HistoryIsDeterminedByRecurrence<Msg, M>(step: (Msg, M) -> M, m: M, msgs: seq<Msg>, h: seq<M>)
    requires |h| == |msgs|
    requires |msgs| > 0 ==> h[0] == step(msgs[0], m)
    requires forall i :: 0 < i < |msgs| ==> h[i] == step(msgs[i], h[i - 1])
    ensures History(step, m, msgs) == h
    decreases |msgs|
  {
    if |msgs| > 0 {
      var tail := h[1..];
      forall i | 0 < i < |msgs| - 1
        ensures tail[i] == step(msgs[1..][i], tail[i - 1])
      {
        assert h[i + 1] == step(msgs[i + 1], h[i]);
      }
      HistoryIsDeterminedByRecurrence(step, h[0], msgs[1..], tail);
      assert h == [h[0]] + tail;
    }
  }

  /** Two transitions that agree on every message of the list produce the
      same history from the same model. */
  lemma {:induction false} HistoriesAgree<Msg, M>(step1: (Msg, M) -> M, step2: (Msg, M) -> M, m: M, msgs: seq<Msg>)
    requires forall i, x :: 0 <= i < |msgs| ==> step1(msgs[i], x) == step2(msgs[i], x)
    ensures History(step1, m, msgs) == History(step2, m, msgs)
    decreases |msgs|
  {
    if |msgs| > 0 {
      forall i, x | 0 <= i < |msgs| - 1
        ensures step1(msgs[1..][i], x) == step2(msgs[1..][i], x)
      {
        assert msgs[1..][i] == msgs[i + 1];
      }
      HistoriesAgree(step1, step2, step1(msgs[0], m), msgs[1..]);
    }
  }
}
