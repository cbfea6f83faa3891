/** The notification tracker's specification: the message for a talk, the
    five-minute window, and what one evaluation of a talk list does to the set
    of notified codes. */
module Notifications {
  import Text
  import opened Talks

  /** How long before a talk's start its notification becomes due: five
      minutes, in microseconds. */
  const NotifyLead: int := 5 * 60 * 1_000_000

  /** The fixed pieces of the message around the title and the room name. */
  const MessageOpen: string := "下一場演講： `"
  const MessageIn: string := "` 即將在 `"
  const MessageBridge: string := "` 開始，過程中如果有想要需要的問題，歡迎在留言處詢問\nNext talk: `"
  const MessageAbout: string := "` is about to begin in `"
  const MessageClose: string := "`. If you have any questions during the session, feel free to ask in the comments section."

  /** The text of the webhook payload for a talk: Chinese then English, each
      naming the talk's title and room. */
  function FormatMessage(t: Talk): (m: string)
    ensures Text.Contains(m, t.title) && Text.Contains(m, t.roomName)
  {
    var chinese := MessageOpen + t.title + MessageIn + t.roomName;
    var english := MessageBridge + t.title + MessageAbout + t.roomName + MessageClose;
    Text.ContainsSuffix(MessageOpen, t.title);
    Text.ContainsAppend(MessageOpen + t.title, t.title, MessageIn);
    Text.ContainsAppend(MessageOpen + t.title + MessageIn, t.title, t.roomName);
    Text.ContainsSuffix(MessageOpen + t.title + MessageIn, t.roomName);
    Text.ContainsAppend(chinese, t.title, english);
    Text.ContainsAppend(chinese, t.roomName, english);
    chinese + english
  }

  /** The window \`start - 5 min <= now < start\`. */
  predicate InWindow(start: Instant, now: Instant) {
    start - NotifyLead <= now < start
  }

  /** A talk is dispatched when it is in its window and its code has not been
      notified yet. */
  predicate Eligible(t: Talk, now: Instant, sent: set<Code>) {
    InWindow(t.start, now) && t.code !in sent
  }

  /** The notified set after an evaluation, and the positions of the talks
      whose message was posted, in the order they were posted. */
  datatype Outcome = Outcome(sent: set<Code>, attempts: seq<nat>)

  /** The first `n` talks of one evaluation, at the single instant `now`.
      `reply(i)` is whether the webhook answers HTTP 200 when talk `i` is
      posted; only then is its code recorded. */
  function Evaluate(sent: set<Code>, talks: seq<Talk>, now: Instant, reply: nat -> bool, n: nat): (o: Outcome)
    requires n <= |talks|
    ensures sent <= o.sent
    ensures forall i :: i in o.attempts ==> i < n
  {
    if n == 0 then Outcome(sent, [])
    else
      var before := Evaluate(sent, talks, now, reply, n - 1);
      var t := talks[n - 1];
      if Eligible(t, now, before.sent) then
        Outcome(if reply(n - 1) then before.sent + {t.code} else before.sent, before.attempts + [n - 1])
      else before
  }

  /** One more position of an evaluation. */
  lemma EvaluateNext(sent: set<Code>, talks: seq<Talk>, now: Instant, reply: nat -> bool, i: nat, before: Outcome)
    requires i < |talks| && before == Evaluate(sent, talks, now, reply, i)
    ensures Evaluate(sent, talks, now, reply, i + 1)
         == if Eligible(talks[i], now, before.sent) then
              Outcome(if reply(i) then before.sent + {talks[i].code} else before.sent, before.attempts + [i])
            else before
  {
  }

  /** One whole call of the tracker over a talk list. */
  function Dispatch(sent: set<Code>, talks: seq<Talk>, now: Instant, reply: nat -> bool): (o: Outcome)
    ensures forall i :: i in o.attempts ==> i < |talks|
  {
    Evaluate(sent, talks, now, reply, |talks|)
  }

  /** Only the notified set is carried between positions: it never shrinks. */
  lemma {:induction false} EvaluateGrows(sent: set<Code>, talks: seq<Talk>, now: Instant, reply: nat -> bool, m: nat, n: nat)
    requires m <= n <= |talks|
    ensures sent <= Evaluate(sent, talks, now, reply, m).sent <= Evaluate(sent, talks, now, reply, n).sent
    decreases n
  {
    if n > m {
      EvaluateGrows(sent, talks, now, reply, m, n - 1);
    } else if m > 0 {
      EvaluateGrows(sent, talks, now, reply, m - 1, m - 1);
    }
  }

  /** Talk `i` is posted exactly when it is eligible against the set as it
      stands when the loop reaches it. */
  lemma {:induction false} EvaluateAttempts(sent: set<Code>, talks: seq<Talk>, now: Instant, reply: nat -> bool, n: nat, i: nat)
    requires n <= |talks|
    ensures i in Evaluate(sent, talks, now, reply, n).attempts <==>
            i < n && Eligible(talks[i], now, Evaluate(sent, talks, now, reply, i).sent)
  {
    if n > 0 {
      EvaluateAttempts(sent, talks, now, reply, n - 1, i);
    }
  }

  /** Positions are posted in increasing order, so in list order. */
  lemma {:induction false} EvaluateAttemptsIncreasing(sent: set<Code>, talks: seq<Talk>, now: Instant, reply: nat -> bool, n: nat)
    requires n <= |talks|
    ensures forall p, q :: 0 <= p < q < |Evaluate(sent, talks, now, reply, n).attempts| ==>
      Evaluate(sent, talks, now, reply, n).attempts[p] < Evaluate(sent, talks, now, reply, n).attempts[q]
  {
    if n > 0 {
      EvaluateAttemptsIncreasing(sent, talks, now, reply, n - 1);
      var b := Evaluate(sent, talks, now, reply, n - 1).attempts;
      assert forall p :: 0 <= p < |b| ==> b[p] < n - 1 by {
        forall p | 0 <= p < |b| ensures b[p] < n - 1 { assert b[p] in b; }
      }
      var a := Evaluate(sent, talks, now, reply, n).attempts;
      if a != b {
        assert a == b + [n - 1];
        forall p, q | 0 <= p < q < |a| ensures a[p] < a[q] {
          if q < |b| { assert a[p] == b[p] && a[q] == b[q]; } else { assert a[p] == b[p] && a[q] == n - 1; }
        }
      }
    }
  }

  /** A code is in the resulting set exactly when it was there before or some
      posted talk with that code got a successful reply. */
  lemma {:induction false} EvaluateSent(sent: set<Code>, talks: seq<Talk>, now: Instant, reply: nat -> bool, n: nat, c: Code)
    requires n <= |talks|
    ensures var o := Evaluate(sent, talks, now, reply, n);
      c in o.sent <==> c in sent || exists i | i in o.attempts :: reply(i) && talks[i].code == c
  {
    if n > 0 {
      EvaluateSent(sent, talks, now, reply, n - 1, c);
      var before := Evaluate(sent, talks, now, reply, n - 1);
      var o := Evaluate(sent, talks, now, reply, n);
      if Eligible(talks[n - 1], now, before.sent) {
        assert o.attempts == before.attempts + [n - 1];
        if exists i | i in before.attempts :: reply(i) && talks[i].code == c {
          var i :| i in before.attempts && reply(i) && talks[i].code == c;
          assert i in o.attempts;
        }
      }
    }
  }

  // ---- the tracker's promises, for one whole call ----

  /** Every post happens inside the window of its talk, never before
      start - 5 min and never at or after start, and only for a code not
      notified before the call. Conversely a talk in its window whose code was
      not yet notified, by the earlier set or earlier in this call, is posted. */
  lemma DispatchWindow(sent: set<Code>, talks: seq<Talk>, now: Instant, reply: nat -> bool, i: nat)
    requires i < |talks|
    ensures var o := Dispatch(sent, talks, now, reply);
      i in o.attempts <==> Eligible(talks[i], now, Evaluate(sent, talks, now, reply, i).sent)
    ensures i in Dispatch(sent, talks, now, reply).attempts ==>
      InWindow(talks[i].start, now) && talks[i].code !in sent
  {
    EvaluateAttempts(sent, talks, now, reply, |talks|, i);
    EvaluateGrows(sent, talks, now, reply, i, i);
  }

  /** The set only grows, and it grows by exactly the codes of the talks whose
      post succeeded: a failed post adds nothing. */
  lemma DispatchSent(sent: set<Code>, talks: seq<Talk>, now: Instant, reply: nat -> bool)
    ensures var o := Dispatch(sent, talks, now, reply);
      o.sent == sent + set i | i in o.attempts && reply(i) :: talks[i].code
  {
    var o := Dispatch(sent, talks, now, reply);
    forall c ensures c in o.sent <==> c in sent + set i | i in o.attempts && reply(i) :: talks[i].code {
      EvaluateSent(sent, talks, now, reply, |talks|, c);
    }
  }

  /** At most once: no code already notified is posted again, and after one
      successful post of a code no later talk with that code is posted in the
      same call. */
  lemma DispatchAtMostOnce(sent: set<Code>, talks: seq<Talk>, now: Instant, reply: nat -> bool, i: nat, j: nat)
    requires i < j < |talks|
    requires var o := Dispatch(sent, talks, now, reply); i in o.attempts && j in o.attempts
    ensures reply(i) ==> talks[i].code != talks[j].code
  {
    EvaluateAttempts(sent, talks, now, reply, |talks|, i);
    EvaluateAttempts(sent, talks, now, reply, |talks|, j);
    assert Evaluate(sent, talks, now, reply, i + 1).sent <= Evaluate(sent, talks, now, reply, j).sent by {
      EvaluateGrows(sent, talks, now, reply, i + 1, j);
    }
  }

  /** Idempotence: a second call at the same instant, on the set the first
      left, posts no code the first delivered; if every post of the first call
      succeeded it posts nothing at all. */
  lemma DispatchIdempotent(sent: set<Code>, talks: seq<Talk>, now: Instant, reply: nat -> bool, reply2: nat -> bool)
    ensures var first := Dispatch(sent, talks, now, reply);
      var second := Dispatch(first.sent, talks, now, reply2);
      && (forall i | i in second.attempts :: talks[i].code !in first.sent)
      && ((forall i | i in first.attempts :: reply(i)) ==> second.attempts == [])
  {
    var first := Dispatch(sent, talks, now, reply);
    var second := Dispatch(first.sent, talks, now, reply2);
    forall i | i in second.attempts ensures talks[i].code !in first.sent {
      DispatchWindow(first.sent, talks, now, reply2, i);
    }
    if forall i | i in first.attempts :: reply(i) {
      if second.attempts != [] {
        var i := second.attempts[0];
        assert i in second.attempts;
        EvaluateAttemptsIncreasing(first.sent, talks, now, reply2, |talks|);
        DispatchWindow(first.sent, talks, now, reply2, i);
        EvaluateGrows(sent, talks, now, reply, i, |talks|);
        DispatchWindow(sent, talks, now, reply, i);
        EvaluateSent(sent, talks, now, reply, |talks|, talks[i].code);
        assert false;
      }
    }
  }

  /** A failed post leaves the code out of the set, unless a post of another
      talk with the same code succeeded in the same call. */
  lemma DispatchFailedStaysOut(sent: set<Code>, talks: seq<Talk>, now: Instant, reply: nat -> bool, i: nat)
    requires i < |talks|
    requires var o := Dispatch(sent, talks, now, reply);
      i in o.attempts && forall j | j in o.attempts && reply(j) :: talks[j].code != talks[i].code
    ensures talks[i].code !in Dispatch(sent, talks, now, reply).sent
  {
    EvaluateSent(sent, talks, now, reply, |talks|, talks[i].code);
    DispatchWindow(sent, talks, now, reply, i);
  }

  /** Retry: after a failed post, a later call over the same talk list posts
      that talk again exactly while its window is still open, so never once
      `now >= start`. This needs that no earlier talk of the list shares its
      code, since such a talk would be posted first in the later call. */
  lemma DispatchRetriesFailed(sent: set<Code>, talks: seq<Talk>, now: Instant, reply: nat -> bool,
                              later: Instant, reply2: nat -> bool, i: nat)
    requires i < |talks|
    requires var o := Dispatch(sent, talks, now, reply);
      i in o.attempts && forall j | j in o.attempts && reply(j) :: talks[j].code != talks[i].code
    requires forall j | 0 <= j < i :: talks[j].code != talks[i].code
    ensures talks[i].code !in Dispatch(sent, talks, now, reply).sent
    ensures var next := Dispatch(Dispatch(sent, talks, now, reply).sent, talks, later, reply2);
      i in next.attempts <==> InWindow(talks[i].start, later)
  {
    var first := Dispatch(sent, talks, now, reply);
    var c := talks[i].code;
    DispatchFailedStaysOut(sent, talks, now, reply, i);
    DispatchWindow(first.sent, talks, later, reply2, i);
    var mid := Evaluate(first.sent, talks, later, reply2, i);
    assert c !in mid.sent by {
      EvaluateSent(first.sent, talks, later, reply2, i, c);
    }
  }
}
