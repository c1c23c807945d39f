/** What holds over whole runs of the interleaving model. */
module Runs {
  import opened Types
  import opened TupleSpace
  import opened Interleaving

  lemma {:induction false} PrefixRuns(ls: seq<Label>, m: nat)
    requires Run(ls) && m <= |ls|
    ensures Run(ls[..m])
    ensures m < |ls| ==> Enabled(After(ls[..m]), ls[m])
    ensures m < |ls| ==> Run(ls[..m + 1]) && After(ls[..m + 1]) == Apply(After(ls[..m]), ls[m], m)
    decreases |ls|
  {
    if m < |ls| {
      if m + 1 < |ls| {
        PrefixRuns(Before(ls), m);
        assert Before(ls)[..m] == ls[..m] && Before(ls)[..m + 1] == ls[..m + 1];
      } else {
        assert Before(ls) == ls[..m] && ls[..m + 1] == ls;
      }
    } else {
      assert ls[..m] == ls;
    }
  }

  lemma Extend(ls: seq<Label>, l: Label)
    requires Run(ls) && Enabled(After(ls), l)
    ensures Run(ls + [l]) && After(ls + [l]) == Apply(After(ls), l, |ls|)
  {
    assert Before(ls + [l]) == ls && Last(ls + [l]) == l;
  }

  lemma InformNobody(s: State, t: Tid, x: Tuple, now: nat)
    requires t in s.threads && s.queue == []
    ensures InformStep(s, t, x, now) ==
            s.(threads := s.threads[t := s.threads[t].(phase := Informed(x, now))])
  {
    assert forall u :: !ServedBy(s, x, u);
    assert InformStep(s, t, x, now).threads == s.threads[t := s.threads[t].(phase := Informed(x, now))];
  }

  // ---- Where the state comes from ----------------------------------------------------

  // Thread t takes no step strictly between a and b.
  ghost predicate Quiet(ls: seq<Label>, t: Tid, a: nat, b: nat)
    requires b <= |ls|
  {
    forall m :: a < m < b ==> ls[m].actor != t
  }

  // t searched for r at k, found nothing, and queued itself at l.
  ghost predicate WaitOp(ls: seq<Label>, t: Tid, r: Request, k: nat, l: nat) {
    k < l < |ls| && ls[k] == Search(t, r) && ls[l] == Enqueue(t) && Quiet(ls, t, k, l)
  }

  // u offered x to the queue at i, no input took it, and u inserted it at j.
  ghost predicate WriteOp(ls: seq<Label>, u: Tid, x: Tuple, i: nat, j: nat) {
    i < j < |ls| && ls[i] == Inform(u, x) && ls[j] == Insert(u) && Quiet(ls, u, i, j)
  }

  ghost predicate Offered(ls: seq<Label>, x: Tuple) {
    exists i :: 0 <= i < |ls| && ls[i].Inform? && ls[i].tuple == x
  }

  ghost predicate ThreadHistory(ls: seq<Label>, t: Tid, th: Thread) {
    && (match th.phase
        case Idle => true
        case Searched(k) => k < |ls| && ls[k] == Search(t, th.request) && Quiet(ls, t, k, |ls|)
        case Waiting(k, l) => WaitOp(ls, t, th.request, k, l) && Quiet(ls, t, l, |ls|)
        case Informed(x, i) => i < |ls| && ls[i] == Inform(t, x) && Quiet(ls, t, i, |ls|))
    && (th.locked || Offered(ls, th.passed))
  }

  ghost predicate CopyHistory(ls: seq<Label>, x: Tuple, w: Stamp) {
    WriteOp(ls, w.writer, x, w.informAt, w.insertAt)
  }

  ghost predicate History(ls: seq<Label>)
    requires Run(ls)
  {
    var s := After(ls);
    && (forall t :: t in s.threads ==> ThreadHistory(ls, t, s.threads[t]))
    && (forall c :: 0 <= c < |s.store| ==> CopyHistory(ls, s.store[c], s.stamps[c]))
  }

  lemma ThreadHistoryGrows(ls: seq<Label>, l: Label, t: Tid, th: Thread)
    requires ThreadHistory(ls, t, th) && l.actor != t
    ensures ThreadHistory(ls + [l], t, th)
  {
    if !th.locked {
      var i :| 0 <= i < |ls| && ls[i].Inform? && ls[i].tuple == th.passed;
      assert (ls + [l])[i] == ls[i];
    }
  }

  lemma ActorHistory(pre: seq<Label>, l: Label)
    requires Run(pre) && Enabled(After(pre), l) && TokensOk(After(pre))
    requires l.actor in After(pre).threads ==> ThreadHistory(pre, l.actor, After(pre).threads[l.actor])
    requires l.actor in Apply(After(pre), l, |pre|).threads
    ensures ThreadHistory(pre + [l], l.actor, Apply(After(pre), l, |pre|).threads[l.actor])
  {
    assert l.actor in After(pre).threads ==> TokenOk(After(pre), l.actor);
    assert (pre + [l])[|pre|] == l;
  }

  lemma BystanderHistory(pre: seq<Label>, l: Label, t: Tid)
    requires Run(pre) && Enabled(After(pre), l) && t != l.actor
    requires t in After(pre).threads && ThreadHistory(pre, t, After(pre).threads[t])
    ensures ThreadHistory(pre + [l], t, Apply(After(pre), l, |pre|).threads[t])
  {
    ThreadHistoryGrows(pre, l, t, After(pre).threads[t]);
    assert (pre + [l])[|pre|] == l;
    assert l.Inform? ==> Offered(pre + [l], l.tuple);
  }

  lemma InsertHistory(ls: seq<Label>, t: Tid, th: Thread)
    requires th.phase.Informed? && ThreadHistory(ls, t, th)
    ensures CopyHistory(ls + [Insert(t)], th.phase.tuple, Stamp(t, th.phase.informAt, |ls|))
  {
  }

  lemma StepCopyHistory(pre: seq<Label>, l: Label, s: State, c: nat)
    requires Run(pre) && s == After(pre) && Enabled(s, l) && History(pre)
    requires c < |Apply(s, l, |pre|).store| == |Apply(s, l, |pre|).stamps|
    ensures CopyHistory(pre + [l], Apply(s, l, |pre|).store[c], Apply(s, l, |pre|).stamps[c])
  {
    if l.Insert? && c == |s.store| {
      InsertHistory(pre, l.actor, s.threads[l.actor]);
    } else {
      var d := OldCopy(s, l, |pre|, c);
    }
  }

  lemma {:induction false} HistoryInvariant(ls: seq<Label>)
    requires Run(ls)
    ensures History(ls)
  {
    if ls != [] {
      HistoryInvariant(Before(ls));
      TokenInvariant(Before(ls));
      forall t | t in After(ls).threads ensures ThreadHistory(ls, t, After(ls).threads[t]) {
        assert ls == Before(ls) + [Last(ls)];
        assert t in After(Before(ls)).threads ==> ThreadHistory(Before(ls), t, After(Before(ls)).threads[t]);
        if t == Last(ls).actor {
          ActorHistory(Before(ls), Last(ls));
        } else {
          BystanderHistory(Before(ls), Last(ls), t);
        }
      }
      forall c | 0 <= c < |After(ls).store| ensures CopyHistory(ls, After(ls).store[c], After(ls).stamps[c]) {
        assert ls == Before(ls) + [Last(ls)];
        StepCopyHistory(Before(ls), Last(ls), After(Before(ls)), c);
      }
    }
  }
}
