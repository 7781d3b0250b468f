/**
 The send decision of the publish loop: a snapshot is sent when at least one
 window (1.0 s) has passed since the last send, and `last_send_time` moves
 only when a send happens. It starts at 0. Clock readings are inputs.
 */
module RateLimit {

  const Window: real := 1.0

  datatype Limiter = Limiter(lastSendTime: real)

  /** `last_send_time = 0` before the loop. */
  const Start: Limiter := Limiter(0.0)

  datatype Decision = Decision(send: bool, next: Limiter)

  /**
   One snapshot offered at clock reading `now`: it is sent iff a whole window
   has passed since the last send; a send records `now`, a drop leaves the
   limiter as it was.
   */
  function Offer(l: Limiter, now: real): (d: Decision)
    ensures d.send <==> now - l.lastSendTime >= Window
    ensures d.send ==> d.next.lastSendTime == now
    ensures !d.send ==> d.next == l
  {
    if now - l.lastSendTime >= Window then Decision(true, Limiter(now)) else Decision(false, l)
  }

  /** Each send is at least one window after the one before it, the first one after `last`. */
  ghost predicate Spaced(last: real, sent: seq<real>)
  {
    && (|sent| > 0 ==> sent[0] - last >= Window)
    && forall i, j :: 0 <= i && j == i + 1 && j < |sent| ==> sent[j] - sent[i] >= Window
  }

  /** The times at which snapshots were sent, and the limiter after the trace. */
  datatype Outcome = Outcome(sent: seq<real>, final: Limiter)

  /**
   Offering one snapshot at each clock reading of `ts`, in order. Only
   offered readings are sent, consecutive sends are a window apart whatever
   the order of the readings, and the limiter ends at the last send.
   */
  function Trace(l: Limiter, ts: seq<real>): (o: Outcome)
    ensures |o.sent| <= |ts|
    ensures Spaced(l.lastSendTime, o.sent)
    ensures o.final.lastSendTime == if o.sent == [] then l.lastSendTime else o.sent[|o.sent| - 1]
    decreases |ts|
  {
    if ts == [] then Outcome([], l)
    else
      var d := Offer(l, ts[0]);
      var rest := Trace(d.next, ts[1..]);
      if d.send then
        SpacedCons(l.lastSendTime, ts[0], rest.sent);
        Outcome([ts[0]] + rest.sent, rest.final)
      else rest
  }

  /** Unfolding the trace by its first reading. */
  lemma TraceCons(l: Limiter, ts: seq<real>)
    requires ts != []
    ensures var d := Offer(l, ts[0]);
      Trace(l, ts).sent == (if d.send then [ts[0]] else []) + Trace(d.next, ts[1..]).sent
  {
  }

  /** A send a window after `last`, followed by sends spaced from it, is spaced from `last`. */
  lemma SpacedCons(last: real, t: real, rest: seq<real>)
    requires t - last >= Window
    requires Spaced(t, rest)
    ensures Spaced(last, [t] + rest)
  {
    var sent := [t] + rest;
    forall i, j | 0 <= i && j == i + 1 && j < |sent|
      ensures sent[j] - sent[i] >= Window
    {
      if i == 0 {
        assert sent[1] == rest[0] && sent[0] == t;
      } else {
        assert sent[j] == rest[j - 1] && sent[i] == rest[i - 1];
      }
    }
  }

  /** Only offered readings are sent: every send time is one of the readings. */
  lemma {:induction false} SentAreOffered(l: Limiter, ts: seq<real>)
    ensures forall k :: 0 <= k < |Trace(l, ts).sent| ==> Trace(l, ts).sent[k] in ts
    decreases |ts|
  {
    if ts != [] {
      SentAreOffered(Offer(l, ts[0]).next, ts[1..]);
      TraceCons(l, ts);
    }
  }

  /** The position in the readings of the k-th send. */
  lemma SentPosition(l: Limiter, ts: seq<real>, k: nat) returns (i: nat)
    requires k < |Trace(l, ts).sent|
    ensures i < |ts| && ts[i] == Trace(l, ts).sent[k]
  {
    SentAreOffered(l, ts);
    i :| 0 <= i < |ts| && ts[i] == Trace(l, ts).sent[k];
  }

  /** Readings that all lie within less than one window of each other produce at most one send. */
  lemma BurstSendsAtMostOnce(l: Limiter, ts: seq<real>)
    requires forall i, j :: 0 <= i < |ts| && 0 <= j < |ts| ==> ts[j] - ts[i] < Window
    ensures |Trace(l, ts).sent| <= 1
  {
    var sent := Trace(l, ts).sent;
    if |sent| >= 2 {
      var i := SentPosition(l, ts, 0);
      var j := SentPosition(l, ts, 1);
      assert false;
    }
  }

  /** A burst whose first reading is a window past the last send sends exactly that first reading. */
  lemma BurstSendsFirst(l: Limiter, ts: seq<real>)
    requires |ts| > 0 && ts[0] - l.lastSendTime >= Window
    requires forall i, j :: 0 <= i < |ts| && 0 <= j < |ts| ==> ts[j] - ts[i] < Window
    ensures Trace(l, ts).sent == [ts[0]]
  {
    BurstSendsAtMostOnce(l, ts);
  }

  /**
   Every reading is sent exactly when each reading is at least a window after
   the one before it, the first one a window after the last send.
   */
  lemma AllSentIffSpaced(l: Limiter, ts: seq<real>)
    ensures Trace(l, ts).sent == ts <==> Spaced(l.lastSendTime, ts)
  {
    if Spaced(l.lastSendTime, ts) {
      SpacedAllSent(l, ts);
    }
  }

  lemma {:induction false} SpacedAllSent(l: Limiter, ts: seq<real>)
    requires Spaced(l.lastSendTime, ts)
    ensures Trace(l, ts).sent == ts
    decreases |ts|
  {
    if ts != [] {
      var rest := ts[1..];
      forall i, j | 0 <= i && j == i + 1 && j < |rest|
        ensures rest[j] - rest[i] >= Window
      {
        assert rest[j] == ts[j + 1] && rest[i] == ts[i + 1];
      }
      if |rest| > 0 {
        assert rest[0] == ts[1];
      }
      SpacedAllSent(Limiter(ts[0]), rest);
      TraceCons(l, ts);
      assert [ts[0]] + rest == ts;
    }
  }

  /** Ten snapshots within 0.1 s, starting from a fresh limiter, yield one send. */
  lemma TenInABurst()
    ensures Trace(Start, [1000.0, 1000.01, 1000.02, 1000.03, 1000.04, 1000.05, 1000.06, 1000.07, 1000.08, 1000.09]).sent
            == [1000.0]
  {
    var ts := [1000.0, 1000.01, 1000.02, 1000.03, 1000.04, 1000.05, 1000.06, 1000.07, 1000.08, 1000.09];
    assert forall i :: 0 <= i < |ts| ==> 1000.0 <= ts[i] <= 1000.09;
    BurstSendsFirst(Start, ts);
  }

  /** Snapshots 1.1 s apart, starting from a fresh limiter, are each sent. */
  lemma SpacedOutAllSent()
    ensures Trace(Start, [1000.0, 1001.1, 1002.2, 1003.3]).sent == [1000.0, 1001.1, 1002.2, 1003.3]
  {
    SpacedAllSent(Start, [1000.0, 1001.1, 1002.2, 1003.3]);
  }
}
