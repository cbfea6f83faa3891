/** The bot's long-running part: the object that owns the notified set and the
    running flag, the tracker that updates the set, the interruptible sleep,
    and the poll loop. The schedule fetch, the webhook post, the clock and the
    termination signals are inputs of each cycle. */
module SlackBot {
  import opened Wrappers
  import opened Talks
  import Notifications

  /** Seconds to wait after a failed fetch or a cycle that raised. */
  const ErrorBackoff: nat := 60
  /** Seconds to wait after a cycle that reached the tracker. */
  const NormalBackoff: nat := 30

  /** The first second in [from, bound) during which a termination signal
      arrives, or `bound` when none does. */
  function FirstSignal(signal: nat -> bool, from: nat, bound: nat): (k: nat)
    requires from <= bound
    ensures from <= k <= bound
    ensures forall j :: from <= j < k ==> !signal(j)
    ensures k < bound ==> signal(k)
    decreases bound - from
  {
    if from == bound then bound
    else if signal(from) then from
    else FirstSignal(signal, from + 1, bound)
  }

  /** How many one-second sleeps an interruptible wait of `seconds` performs,
      when `running` is the flag on entry and `signal(j)` says that a
      termination signal arrives during sleep `j`. */
  function SecondsSlept(running: bool, seconds: nat, signal: nat -> bool): (n: nat)
    ensures n <= seconds
    ensures !running ==> n == 0
    // with the flag set, it sleeps until the full time is up or until the
    // second in which the signal arrives, and no longer
    ensures running ==> forall j :: 0 <= j < n - 1 ==> !signal(j)
    ensures running ==> n == seconds || (0 < n && signal(n - 1))
    ensures forall j :: 0 <= j < seconds && signal(j) ==> n <= j + 1
  {
    if !running then 0
    else
      var k := FirstSignal(signal, 0, seconds);
      if k < seconds then k + 1 else seconds
  }

  /** What a fetch produced: a transport or JSON error (fetch_schedule
      returns None), another exception escaping it, or a document. */
  datatype Fetch = FetchFailed | FetchRaised | Fetched(doc: Document)

  /** Everything one poll cycle sees from outside: the fetch, the clock value
      the tracker reads, the webhook's answer per talk position, whether a
      termination signal arrives while the cycle is working, and per second of
      the wait whether one arrives then. */
  datatype CycleInput = CycleInput(
    fetch: Fetch,
    now: Instant,
    reply: nat -> bool,
    signalDuringWork: bool,
    signalDuringWait: nat -> bool)

  /** What a cycle did: the wait it asked for, the seconds it slept, and the
      codes it added to the notified set. */
  datatype CycleReport = CycleReport(backoff: nat, slept: nat, delivered: set<Code>)

  /** The talks a cycle hands to the tracker; None when the cycle backs off
      with the error interval instead (fetch failure, empty document, or an
      exception while parsing). */
  function CycleTalks(fetch: Fetch, parse: string -> Option<Instant>): Option<seq<Talk>> {
    match fetch
    case Fetched(doc) => if IsEmptyDocument(doc) then None else Normalized(doc, parse)
    case _ => None
  }

  /** The wait a cycle asks for, given what it handed to the tracker. */
  function Backoff(talks: Option<seq<Talk>>): nat {
    if talks.Some? then NormalBackoff else ErrorBackoff
  }

  /** What each cycle of an input sequence hands to the tracker. */
  function Plan(env: seq<CycleInput>, parse: string -> Option<Instant>): (plan: seq<Option<seq<Talk>>>)
    ensures |plan| == |env|
    ensures forall k :: 0 <= k < |env| ==> plan[k] == CycleTalks(env[k].fetch, parse)
  {
    seq(|env|, k requires 0 <= k < |env| => CycleTalks(env[k].fetch, parse))
  }

  /** The codes added by a sequence of cycles. */
  function Delivered(reports: seq<CycleReport>): set<Code> {
    if reports == [] then {}
    else Delivered(reports[..|reports| - 1]) + reports[|reports| - 1].delivered
  }

  lemma {:induction false} DeliveredIncludes(reports: seq<CycleReport>, k: int)
    requires 0 <= k < |reports|
    ensures reports[k].delivered <= Delivered(reports)
  {
    if k < |reports| - 1 {
      DeliveredIncludes(reports[..|reports| - 1], k);
    }
  }

  /** No code is delivered by two cycles, nor by a cycle when it was already
      in the set the run started with. */
  predicate DeliveredOnce(reports: seq<CycleReport>, initial: set<Code>) {
    && (forall k :: 0 <= k < |reports| ==> reports[k].delivered !! initial)
    && (forall k, l :: 0 <= k < l < |reports| ==> reports[k].delivered !! reports[l].delivered)
  }

  /** A cycle that adds only codes missing from the current set keeps every
      code delivered at most once. */
  lemma {:induction false} DeliveredOnceExtend(reports: seq<CycleReport>, initial: set<Code>, report: CycleReport)
    requires DeliveredOnce(reports, initial)
    requires report.delivered !! initial + Delivered(reports)
    ensures DeliveredOnce(reports + [report], initial)
    ensures Delivered(reports + [report]) == Delivered(reports) + report.delivered
  {
    var next := reports + [report];
    assert next[..|reports|] == reports;
    forall k | 0 <= k < |reports| ensures reports[k].delivered !! report.delivered {
      DeliveredIncludes(reports, k);
    }
  }


  /** The notified set once a cycle's tracker call, if it got that far, has
      run. */
  function SentAfter(c: CycleInput, sent: set<Code>, talks: Option<seq<Talk>>): (s: set<Code>)
    ensures sent <= s
  {
    match talks
    case None => sent
    case Some(ts) => Notifications.Dispatch(sent, ts, c.now, c.reply).sent
  }

  /** A cycle's report together with the notified set and the flag after it. */
  datatype CycleEnd = CycleEnd(report: CycleReport, sent: set<Code>, running: bool)

  /** One pass of run's loop from a state with the flag set: the tracker
      step, then the wait of the interval the pass calls for. A signal while
      working clears the flag before the wait, which then sleeps not at all. */
  function CycleOutcome(c: CycleInput, sent: set<Code>, talks: Option<seq<Talk>>): (e: CycleEnd)
    ensures e.sent == sent + e.report.delivered && e.report.delivered !! sent
    ensures e.report.backoff == Backoff(talks)
    // the flag survives exactly when no signal arrives, whatever the fetch did
    ensures e.running <==>
      !c.signalDuringWork && forall j :: 0 <= j < e.report.backoff ==> !c.signalDuringWait(j)
    ensures e.running ==> e.report.slept == e.report.backoff
  {
    var backoff := Backoff(talks);
    var after := SentAfter(c, sent, talks);
    var slept := SecondsSlept(!c.signalDuringWork, backoff, c.signalDuringWait);
    CycleEnd(CycleReport(backoff, slept, after - sent), after,
             !c.signalDuringWork && FirstSignal(c.signalDuringWait, 0, backoff) == backoff)
  }

  /** The reports of a run and the state it leaves. */
  datatype RunEnd = RunEnd(reports: seq<CycleReport>, sent: set<Code>, running: bool)

  /** The run over the first `n` cycle inputs, from the notified set `sent`
      and the flag `running`, where `plan[k]` is what pass `k` hands to the
      tracker: a pass is made only while the flag is set. */
  function RunPrefix(env: seq<CycleInput>, plan: seq<Option<seq<Talk>>>, sent: set<Code>, running: bool, n: nat): (e: RunEnd)
    requires |plan| == |env| && n <= |env|
    ensures |e.reports| <= n
    ensures e.running ==> |e.reports| == n
    ensures !running ==> e == RunEnd([], sent, false)
  {
    if n == 0 then RunEnd([], sent, running)
    else
      var p := RunPrefix(env, plan, sent, running, n - 1);
      if !p.running then p
      else
        var c := CycleOutcome(env[n - 1], p.sent, plan[n - 1]);
        RunEnd(p.reports + [c.report], c.sent, c.running)
  }

  /** A pass from a state with the flag set extends the run by its report. */
  lemma RunPrefixStep(env: seq<CycleInput>, plan: seq<Option<seq<Talk>>>, sent: set<Code>, running: bool,
                      reports: seq<CycleReport>, current: set<Code>, after: CycleEnd)
    requires |plan| == |env| && |reports| < |env|
    requires RunPrefix(env, plan, sent, running, |reports|) == RunEnd(reports, current, true)
    requires after == CycleOutcome(env[|reports|], current, plan[|reports|])
    ensures RunPrefix(env, plan, sent, running, |reports| + 1) == RunEnd(reports + [after.report], after.sent, after.running)
  {
  }

  /** Once the flag is down no further pass is made. */
  lemma {:induction false} RunStopped(env: seq<CycleInput>, plan: seq<Option<seq<Talk>>>, sent: set<Code>, running: bool, n: nat, m: nat)
    requires |plan| == |env| && n <= m <= |env|
    requires !RunPrefix(env, plan, sent, running, n).running
    ensures RunPrefix(env, plan, sent, running, m) == RunPrefix(env, plan, sent, running, n)
    decreases m
  {
    if m > n {
      RunStopped(env, plan, sent, running, n, m - 1);
    }
  }

  /** Pass `k` of a run asked for the interval its fetch and parse call for
      and slept no longer than that. */
  lemma {:induction false} RunBackoff(env: seq<CycleInput>, plan: seq<Option<seq<Talk>>>, sent: set<Code>, running: bool, n: nat, k: nat)
    requires |plan| == |env| && n <= |env| && k < |RunPrefix(env, plan, sent, running, n).reports|
    ensures RunPrefix(env, plan, sent, running, n).reports[k].backoff == Backoff(plan[k])
    ensures RunPrefix(env, plan, sent, running, n).reports[k].slept <= RunPrefix(env, plan, sent, running, n).reports[k].backoff
  {
    var r := RunPrefix(env, plan, sent, running, n);
    var p := RunPrefix(env, plan, sent, running, n - 1);
    if !p.running {
      assert r == p;
      RunBackoff(env, plan, sent, running, n - 1, k);
    } else {
      var c := CycleOutcome(env[n - 1], p.sent, plan[n - 1]);
      assert r.reports == p.reports + [c.report];
      if k < |p.reports| {
        RunBackoff(env, plan, sent, running, n - 1, k);
        assert r.reports[k] == p.reports[k];
      } else {
        assert r.reports[k] == c.report;
      }
    }
  }

  /** Every pass of a run but the last saw no signal and waited its whole
      interval; while the flag is still set, the last one did too. */
  lemma {:induction false} RunFullWaits(env: seq<CycleInput>, plan: seq<Option<seq<Talk>>>, sent: set<Code>, running: bool, n: nat, k: nat)
    requires |plan| == |env| && n <= |env|
    requires k < |RunPrefix(env, plan, sent, running, n).reports| - 1
          || (RunPrefix(env, plan, sent, running, n).running && k < |RunPrefix(env, plan, sent, running, n).reports|)
    ensures !env[k].signalDuringWork
    ensures RunPrefix(env, plan, sent, running, n).reports[k].slept == RunPrefix(env, plan, sent, running, n).reports[k].backoff
    ensures forall j :: 0 <= j < RunPrefix(env, plan, sent, running, n).reports[k].backoff ==> !env[k].signalDuringWait(j)
  {
    var r := RunPrefix(env, plan, sent, running, n);
    var p := RunPrefix(env, plan, sent, running, n - 1);
    if !p.running {
      assert r == p;
      RunFullWaits(env, plan, sent, running, n - 1, k);
    } else {
      var c := CycleOutcome(env[n - 1], p.sent, plan[n - 1]);
      assert r.reports == p.reports + [c.report];
      if k < |p.reports| {
        RunFullWaits(env, plan, sent, running, n - 1, k);
        assert r.reports[k] == p.reports[k];
      } else {
        assert r.reports[k] == c.report;
      }
    }
  }

  /** A pass whose work and wait see no signal keeps the flag set, even when
      its fetch failed or raised: only the signal handler stops the loop. */
  lemma CycleKeepsRunning(c: CycleInput, sent: set<Code>, talks: Option<seq<Talk>>)
    requires !c.signalDuringWork && forall j :: 0 <= j < Backoff(talks) ==> !c.signalDuringWait(j)
    ensures CycleOutcome(c, sent, talks).running
  {
  }

  /** A run started with the flag set in which no signal arrives makes a pass
      for every input and ends with the flag still set. */
  lemma {:induction false} RunContinues(env: seq<CycleInput>, plan: seq<Option<seq<Talk>>>, sent: set<Code>, n: nat)
    requires |plan| == |env| && n <= |env|
    requires forall k :: 0 <= k < n ==>
      !env[k].signalDuringWork && forall j :: 0 <= j < Backoff(plan[k]) ==> !env[k].signalDuringWait(j)
    ensures RunPrefix(env, plan, sent, true, n).running
    ensures |RunPrefix(env, plan, sent, true, n).reports| == n
  {
    if n > 0 {
      RunContinues(env, plan, sent, n - 1);
      var p := RunPrefix(env, plan, sent, true, n - 1);
      CycleKeepsRunning(env[n - 1], p.sent, plan[n - 1]);
    }
  }

  /** The notified set grows by exactly what the passes delivered. */
  lemma {:induction false} RunSent(env: seq<CycleInput>, plan: seq<Option<seq<Talk>>>, sent: set<Code>, running: bool, n: nat)
    requires |plan| == |env| && n <= |env|
    ensures RunPrefix(env, plan, sent, running, n).sent == sent + Delivered(RunPrefix(env, plan, sent, running, n).reports)
  {
    if n > 0 {
      RunSent(env, plan, sent, running, n - 1);
      var r := RunPrefix(env, plan, sent, running, n);
      var p := RunPrefix(env, plan, sent, running, n - 1);
      if p.running {
        var c := CycleOutcome(env[n - 1], p.sent, plan[n - 1]);
        assert r == RunEnd(p.reports + [c.report], c.sent, c.running);
        assert r.reports[..|r.reports| - 1] == p.reports;
      } else {
        assert r == p;
      }
    }
  }

  /** No code is delivered by two passes of a run, nor by a pass when it was
      notified before the run started. */
  lemma {:induction false} RunDeliversOnce(env: seq<CycleInput>, plan: seq<Option<seq<Talk>>>, sent: set<Code>, running: bool, n: nat)
    requires |plan| == |env| && n <= |env|
    ensures DeliveredOnce(RunPrefix(env, plan, sent, running, n).reports, sent)
  {
    if n > 0 {
      RunDeliversOnce(env, plan, sent, running, n - 1);
      var r := RunPrefix(env, plan, sent, running, n);
      var p := RunPrefix(env, plan, sent, running, n - 1);
      if p.running {
        RunSent(env, plan, sent, running, n - 1);
        var c := CycleOutcome(env[n - 1], p.sent, plan[n - 1]);
        assert r.reports == p.reports + [c.report];
        assert c.report.delivered !! sent + Delivered(p.reports);
        DeliveredOnceExtend(p.reports, sent, c.report);
      } else {
        assert r.reports == p.reports;
      }
    }
  }

  /** The codes a cycle adds are exactly those of its tracker posts that got
      HTTP 200; a cycle that backed off adds none. */
  lemma CycleDeliveredPosts(c: CycleInput, sent: set<Code>, talks: Option<seq<Talk>>)
    ensures talks.None? ==> CycleOutcome(c, sent, talks).report.delivered == {}
    ensures talks.Some? ==>
      var o := Notifications.Dispatch(sent, talks.value, c.now, c.reply);
      CycleOutcome(c, sent, talks).report.delivered == set i | i in o.attempts && c.reply(i) :: talks.value[i].code
  {
    if talks.Some? {
      var ts := talks.value;
      var o := Notifications.Dispatch(sent, ts, c.now, c.reply);
      var posted := set i | i in o.attempts && c.reply(i) :: ts[i].code;
      Notifications.DispatchSent(sent, ts, c.now, c.reply);
      forall i | i in o.attempts ensures ts[i].code !in sent {
        Notifications.DispatchWindow(sent, ts, c.now, c.reply, i);
      }
      assert posted !! sent;
      assert (sent + posted) - sent == posted;
    }
  }

  /** Pass `l` of a run is the cycle specification applied to the state the
      first `l` passes left, which still had the flag set. */
  lemma {:induction false} RunPass(env: seq<CycleInput>, plan: seq<Option<seq<Talk>>>, sent: set<Code>, running: bool, n: nat, l: nat)
    requires |plan| == |env| && n <= |env| && l < |RunPrefix(env, plan, sent, running, n).reports|
    ensures RunPrefix(env, plan, sent, running, l).running
    ensures |RunPrefix(env, plan, sent, running, l).reports| == l
    ensures RunPrefix(env, plan, sent, running, n).reports[l]
         == CycleOutcome(env[l], RunPrefix(env, plan, sent, running, l).sent, plan[l]).report
  {
    var r := RunPrefix(env, plan, sent, running, n);
    var p := RunPrefix(env, plan, sent, running, n - 1);
    if !p.running {
      assert r == p;
      RunPass(env, plan, sent, running, n - 1, l);
    } else {
      var c := CycleOutcome(env[n - 1], p.sent, plan[n - 1]);
      assert r.reports == p.reports + [c.report];
      if l < |p.reports| {
        RunPass(env, plan, sent, running, n - 1, l);
        assert r.reports[l] == p.reports[l];
      } else {
        assert l == n - 1;
        assert r.reports[l] == c.report;
      }
    }
  }

  /** The codes pass `l` delivers are exactly those of the posts its tracker
      call made that got HTTP 200. */
  lemma RunDeliveredPosts(env: seq<CycleInput>, plan: seq<Option<seq<Talk>>>, sent: set<Code>, running: bool, n: nat, l: nat)
    requires |plan| == |env| && n <= |env| && l < |RunPrefix(env, plan, sent, running, n).reports|
    requires plan[l].Some?
    ensures var ts := plan[l].value;
      var o := Notifications.Dispatch(RunPrefix(env, plan, sent, running, l).sent, ts, env[l].now, env[l].reply);
      RunPrefix(env, plan, sent, running, n).reports[l].delivered == set i | i in o.attempts && env[l].reply(i) :: ts[i].code
  {
    RunPass(env, plan, sent, running, n, l);
    CycleDeliveredPosts(env[l], RunPrefix(env, plan, sent, running, l).sent, plan[l]);
  }

  /** Across passes, at most once: a pass never posts a talk whose code was
      notified before the run or delivered by an earlier pass. */
  lemma RunNoRepost(env: seq<CycleInput>, plan: seq<Option<seq<Talk>>>, sent: set<Code>, running: bool,
                    n: nat, k: nat, l: nat, i: nat)
    requires |plan| == |env| && n <= |env| && k < l < |RunPrefix(env, plan, sent, running, n).reports|
    requires plan[l].Some? && i < |plan[l].value|
    requires i in Notifications.Dispatch(RunPrefix(env, plan, sent, running, l).sent, plan[l].value, env[l].now, env[l].reply).attempts
    ensures plan[l].value[i].code !in sent
    ensures plan[l].value[i].code !in RunPrefix(env, plan, sent, running, n).reports[k].delivered
  {
    var q := RunPrefix(env, plan, sent, running, l);
    RunPass(env, plan, sent, running, n, l);
    RunPass(env, plan, sent, running, n, k);
    RunPass(env, plan, sent, running, l, k);
    assert RunPrefix(env, plan, sent, running, n).reports[k] == q.reports[k];
    DeliveredIncludes(q.reports, k);
    RunSent(env, plan, sent, running, l);
    Notifications.DispatchWindow(q.sent, plan[l].value, env[l].now, env[l].reply, i);
  }

  class Bot {
    /** Codes of the talks already notified; only ever grows. */
    var sentNotifications: set<Code>
    /** Cleared by the termination signal handler. */
    var running: bool

    constructor ()
      ensures sentNotifications == {} && running
    {
      sentNotifications := {};
      running := true;
    }

    /** The effect of the SIGINT/SIGTERM handler on the loop. */
    method Stop()
      modifies this`running
      ensures !running
    {
      running := false;
    }

    /** check_and_send_notifications: one evaluation of the talk list at the
        instant `now`, read once. Returns the positions posted, in order, and
        the messages posted. */
    method CheckAndSendNotifications(talks: seq<Talk>, now: Instant, reply: nat -> bool)
      returns (attempted: seq<nat>, posted: seq<string>)
      modifies this`sentNotifications
      ensures Notifications.Dispatch(old(sentNotifications), talks, now, reply)
           == Notifications.Outcome(sentNotifications, attempted)
      ensures forall k :: 0 <= k < |attempted| ==> attempted[k] < |talks|
      ensures |posted| == |attempted|
      ensures forall k :: 0 <= k < |posted| ==> posted[k] == Notifications.FormatMessage(talks[attempted[k]])
    {
      attempted, posted := [], [];
      var i := 0;
      while i < |talks|
        invariant 0 <= i <= |talks|
        invariant Notifications.Evaluate(old(sentNotifications), talks, now, reply, i)
               == Notifications.Outcome(sentNotifications, attempted)
        invariant forall k :: 0 <= k < |attempted| ==> attempted[k] < i
        invariant |posted| == |attempted|
        invariant forall k :: 0 <= k < |posted| ==> posted[k] == Notifications.FormatMessage(talks[attempted[k]])
      {
        Notifications.EvaluateNext(old(sentNotifications), talks, now, reply, i,
                                   Notifications.Outcome(sentNotifications, attempted));
        var talk := talks[i];
        var notificationTime := talk.start - Notifications.NotifyLead;
        if now >= notificationTime && now < talk.start && talk.code !in sentNotifications {
          var payload := Notifications.FormatMessage(talk);
          attempted, posted := attempted + [i], posted + [payload];
          if reply(i) {
            sentNotifications := sentNotifications + {talk.code};
          }
        }
        i := i + 1;
      }
    }

    /** _sleep_with_interrupt_check: up to `seconds` one-second sleeps,
        checking the flag before each. */
    method SleepWithInterruptCheck(seconds: nat, signal: nat -> bool) returns (slept: nat)
      modifies this`running
      ensures slept == SecondsSlept(old(running), seconds, signal)
      ensures running == (old(running) && forall j :: 0 <= j < slept ==> !signal(j))
    {
      slept := 0;
      while slept < seconds
        invariant slept <= seconds
        invariant running == (old(running) && forall j :: 0 <= j < slept ==> !signal(j))
        invariant !old(running) ==> slept == 0
        invariant old(running) ==> forall j :: 0 <= j < slept - 1 ==> !signal(j)
        invariant old(running) && !running ==> 0 < slept && signal(slept - 1)
      {
        if !running {
          break;
        }
        // time.sleep(1); the signal handler may run meanwhile
        if signal(slept) {
          Stop();
        }
        slept := slept + 1;
      }
      ghost var k := FirstSignal(signal, 0, seconds);
      if old(running) && !running {
        assert k == slept - 1;
      }
    }

    /** The working part of one pass of run's loop: fetch, parse, track.
        Returns the wait the pass then asks for. */
    method Poll(fetch: Fetch, now: Instant, reply: nat -> bool, parse: string -> Option<Instant>) returns (backoff: nat)
      modifies this`sentNotifications
      ensures backoff == Backoff(CycleTalks(fetch, parse))
      ensures CycleTalks(fetch, parse).Some? ==>
        sentNotifications
          == Notifications.Dispatch(old(sentNotifications), CycleTalks(fetch, parse).value, now, reply).sent
      ensures CycleTalks(fetch, parse).None? ==> sentNotifications == old(sentNotifications)
      ensures old(sentNotifications) <= sentNotifications
    {
      match fetch {
        case FetchFailed =>
          backoff := ErrorBackoff;
        case FetchRaised =>
          // caught at the loop level
          backoff := ErrorBackoff;
        case Fetched(doc) =>
          if IsEmptyDocument(doc) {
            backoff := ErrorBackoff;
          } else {
            var talks := ParseTalks(doc, parse);
            if talks.None? {
              // the exception from a null title is caught at the loop level
              backoff := ErrorBackoff;
            } else {
              var attempted, posted := CheckAndSendNotifications(talks.value, now, reply);
              backoff := NormalBackoff;
            }
          }
      }
    }

    /** One pass of the body of run's loop, including its wait. */
    method RunCycle(cycle: CycleInput, parse: string -> Option<Instant>) returns (report: CycleReport)
      requires running
      modifies this`sentNotifications, this`running
      ensures CycleEnd(report, sentNotifications, running) == CycleOutcome(cycle, old(sentNotifications), CycleTalks(cycle.fetch, parse))
    {
      var before := sentNotifications;
      var backoff := Poll(cycle.fetch, cycle.now, cycle.reply, parse);
      if cycle.signalDuringWork {
        Stop();
      }
      var slept := SleepWithInterruptCheck(backoff, cycle.signalDuringWait);
      report := CycleReport(backoff, slept, sentNotifications - before);
    }

    /** run: passes while the flag is set. `env` supplies the cycle inputs the
        surroundings produce; the loop also ends when they run out. */
    method Run(env: seq<CycleInput>, parse: string -> Option<Instant>) returns (reports: seq<CycleReport>)
      modifies this`sentNotifications, this`running
      ensures RunEnd(reports, sentNotifications, running)
           == RunPrefix(env, Plan(env, parse), old(sentNotifications), old(running), |env|)
    {
      reports := [];
      while running && |reports| < |env|
        invariant |reports| <= |env|
        invariant RunPrefix(env, Plan(env, parse), old(sentNotifications), old(running), |reports|)
               == RunEnd(reports, sentNotifications, running)
        decreases |env| - |reports|
      {
        ghost var current := sentNotifications;
        var report := RunCycle(env[|reports|], parse);
        RunPrefixStep(env, Plan(env, parse), old(sentNotifications), old(running), reports, current,
                      CycleEnd(report, sentNotifications, running));
        reports := reports + [report];
      }
      if !running {
        RunStopped(env, Plan(env, parse), old(sentNotifications), old(running), |reports|, |env|);
      }
    }
  }
}
