/** The poller that keeps asking the cloud for telemetry configuration.

    The poller arms one-shot timers.  A timer that is stopped may already have expired, with
    its callback waiting for the lock, so callbacks recognise that they were superseded by
    comparing their own timer with the poller's current one.  Each event below is one section
    run under the lock, or one move of the timer runtime or the clock. */
module ConfigPoll {
  import opened Wrappers

  const MINUTE: int := 60_000_000_000
  const HOUR: int := 60 * MINUTE
  const DEFAULT_POLL: int := 6 * HOUR
  const JITTER_RANGE: int := 30 * MINUTE
  const MAX_POLL: int := 24 * HOUR

  // The longest the poller may stay silent: the longest poll interval with all of its jitter.
  const SILENCE_LIMIT: int := MAX_POLL + JITTER_RANGE

  // The next_update field of a report: absent, unparseable or an instant.
  datatype NextUpdateAt = Absent | Malformed | At(instant: int)

  /** The delay until the next poll.  An instant that lies ahead, at most a day away, is never
      anticipated, and overshot by less than the jitter. */
  function NextUpdate(at: NextUpdateAt, now: int, jitter: int): (delay: int)
    requires 0 <= jitter < JITTER_RANGE
    ensures 0 < delay < SILENCE_LIMIT
    ensures at.At? && now < at.instant <= now + MAX_POLL ==>
              at.instant <= now + delay < at.instant + JITTER_RANGE
  {
    if at.At? && at.instant - now > 0 then
      (if at.instant - now < MAX_POLL then at.instant - now else MAX_POLL) + jitter
    else
      DEFAULT_POLL + jitter
  }

  datatype State = State(
    timer: Option<nat>,           // the current timer
    stopped: bool,
    lastReceived: Option<int>,    // when the last report arrived
    armed: map<nat, int>,         // timers that have not expired, with their deadlines
    waiting: set<nat>,            // expired timers whose callback has not taken the lock yet
    sending: nat,                 // callbacks past the lock, publishing a request
    timers: nat,                  // how many timers were ever created
    now: int,
    lastActivity: int)            // when a request was last attempted, or a report last arrived

  function Initial(now: int): State {
    State(None, false, None, map[], {}, 0, 0, now, now)
  }

  function Disarm(s: State): State {
    if s.timer.Some? then s.(armed := s.armed - {s.timer.value}) else s
  }

  function Schedule(s: State, delay: int): State {
    var d := Disarm(s);
    d.(timer := Some(s.timers), timers := s.timers + 1, armed := d.armed[s.timers := s.now + delay])
  }

  datatype Event =
    | Start
    | Stop
    | Report(at: NextUpdateAt, jitter: int)
    | Expire(id: nat)
    | Callback(id: nat)
    | Sent
    | Tick(dt: nat)

  function AfterStart(s: State): State {
    if s.timer.Some? then s else Schedule(s.(stopped := false, lastActivity := s.now), DEFAULT_POLL)
  }

  function AfterStop(s: State): State { Disarm(s).(stopped := true, timer := None) }

  function AfterReport(s: State, at: NextUpdateAt, jitter: int): State
    requires 0 <= jitter < JITTER_RANGE
  {
    var received := s.(lastReceived := Some(s.now), lastActivity := s.now);
    if s.stopped then received else Schedule(received, NextUpdate(at, s.now, jitter))
  }

  predicate IsFresh(s: State) {
    s.lastReceived.Some? && s.now - s.lastReceived.value < JITTER_RANGE
  }

  function AfterCallback(s: State, id: nat): State {
    var taken := s.(waiting := s.waiting - {id});
    if s.stopped || s.timer != Some(id) then taken
    else if IsFresh(s) then Schedule(taken, DEFAULT_POLL)
    else taken.(sending := s.sending + 1, lastActivity := s.now)
  }

  function AfterSent(s: State): State
    requires s.sending > 0
  {
    var done := s.(sending := s.sending - 1, lastActivity := s.now);
    if s.stopped then done else Schedule(done, DEFAULT_POLL)
  }

  predicate Enabled(s: State, e: Event) {
    match e
    case Report(_, jitter) => 0 <= jitter < JITTER_RANGE
    case Expire(id) => id in s.armed && s.armed[id] <= s.now
    case Callback(id) => id in s.waiting
    case Sent => s.sending > 0
    case _ => true
  }

  function Step(s: State, e: Event): State
    requires Enabled(s, e)
  {
    match e
    case Start => AfterStart(s)
    case Stop => AfterStop(s)
    case Report(at, jitter) => AfterReport(s, at, jitter)
    case Expire(id) => s.(armed := s.armed - {id}, waiting := s.waiting + {id})
    case Callback(id) => AfterCallback(s, id)
    case Sent => AfterSent(s)
    case Tick(dt) => s.(now := s.now + dt)
  }

  /** The poller object, with the timer runtime it runs against. */
  class Poller {
    var timer: Option<nat>
    var stopped: bool
    var lastReceived: Option<int>
    var armed: map<nat, int>
    var waiting: set<nat>
    var sending: nat
    var timers: nat
    var now: int
    ghost var lastActivity: int

    constructor (now: int)
      ensures View() == Initial(now)
    {
      timer, stopped, lastReceived := None, false, None;
      armed, waiting, sending, timers := map[], {}, 0, 0;
      this.now, lastActivity := now, now;
    }

    ghost function View(): State
      reads this
    {
      State(timer, stopped, lastReceived, armed, waiting, sending, timers, now, lastActivity)
    }

    method StopTimer()
      modifies this`armed
      ensures View() == Disarm(old(View()))
    {
      if timer.Some? {
        armed := armed - {timer.value};
      }
    }

    method ScheduleLocked(delay: int)
      modifies this
      ensures View() == Schedule(old(View()), delay)
    {
      StopTimer();
      armed := armed[timers := now + delay];
      timer := Some(timers);
      timers := timers + 1;
    }

    method Start()
      modifies this
      ensures View() == AfterStart(old(View()))
    {
      if timer.Some? {
        return;
      }
      stopped := false;
      lastActivity := now;
      ScheduleLocked(DEFAULT_POLL);
    }

    method HandleConfigReport(at: NextUpdateAt, jitter: int)
      requires 0 <= jitter < JITTER_RANGE
      modifies this
      ensures View() == AfterReport(old(View()), at, jitter)
    {
      var delay := NextUpdate(at, now, jitter);
      lastReceived, lastActivity := Some(now), now;
      if !stopped {
        ScheduleLocked(delay);
      }
    }

    // The first locked section of timer id's callback.
    method TimerCallback(id: nat) returns (send: bool)
      requires id in waiting
      modifies this
      ensures View() == AfterCallback(old(View()), id)
      ensures send <==> sending > old(sending)
    {
      waiting := waiting - {id};
      if stopped || timer != Some(id) {
        return false;
      }
      if lastReceived.Some? && now - lastReceived.value < JITTER_RANGE {
        ScheduleLocked(DEFAULT_POLL);
        return false;
      }
      sending, lastActivity := sending + 1, now;
      return true;
    }

    // The second locked section, after the request was published or failed to be published.
    method RequestPublished()
      requires sending > 0
      modifies this
      ensures View() == AfterSent(old(View()))
    {
      sending, lastActivity := sending - 1, now;
      if !stopped {
        ScheduleLocked(DEFAULT_POLL);
      }
    }

    method Stop()
      modifies this
      ensures View() == AfterStop(old(View()))
    {
      stopped := true;
      StopTimer();
      timer := None;
    }
  }

  // ---------------------------------------------------------------- every reachable state

  // The current timer's callback is still to run, or a request is being published.
  predicate Pending(s: State) {
    s.timer.Some? && (s.timer.value in s.armed || s.timer.value in s.waiting || s.sending > 0)
  }

  ghost predicate Invariant(s: State) {
    && (forall id :: id in s.armed || id in s.waiting ==> id < s.timers)
    && (forall id :: id in s.armed ==> s.timer == Some(id) && id !in s.waiting)
    && (s.timer.Some? ==> s.timer.value < s.timers && !s.stopped && Pending(s))
    && (s.lastReceived.Some? ==> s.lastReceived.value <= s.lastActivity)
    && s.lastActivity <= s.now
    && (forall id :: id in s.armed ==> s.armed[id] < s.lastActivity + SILENCE_LIMIT)
  }

  lemma ScheduleKeepsInvariant(s: State, delay: int)
    requires forall id :: id in s.armed || id in s.waiting ==> id < s.timers
    requires forall id :: id in s.armed ==> s.timer == Some(id)
    requires s.lastReceived.Some? ==> s.lastReceived.value <= s.lastActivity
    requires s.lastActivity <= s.now && s.now + delay < s.lastActivity + SILENCE_LIMIT
    requires !s.stopped
    ensures Invariant(Schedule(s, delay))
  {
  }

  lemma StepKeepsInvariant(s: State, e: Event)
    requires Invariant(s) && Enabled(s, e)
    ensures Invariant(Step(s, e))
  {
    match e
    case Start =>
      if s.timer.None? {
        ScheduleKeepsInvariant(s.(stopped := false, lastActivity := s.now), DEFAULT_POLL);
      }
    case Report(at, jitter) =>
      if !s.stopped {
        var received := s.(lastReceived := Some(s.now), lastActivity := s.now);
        ScheduleKeepsInvariant(received, NextUpdate(at, s.now, jitter));
      }
    case Callback(id) =>
      if !s.stopped && s.timer == Some(id) && IsFresh(s) {
        ScheduleKeepsInvariant(s.(waiting := s.waiting - {id}), DEFAULT_POLL);
      }
    case Sent =>
      if !s.stopped {
        ScheduleKeepsInvariant(s.(sending := s.sending - 1, lastActivity := s.now), DEFAULT_POLL);
      }
    case _ =>
  }

  // States reached from s by a run of enabled events.
  ghost predicate Reaches(s: State, run: seq<Event>, t: State)
    decreases |run|
  {
    if run == [] then s == t else Enabled(s, run[0]) && Reaches(Step(s, run[0]), run[1..], t)
  }

  lemma {:induction false} RunKeepsInvariant(s: State, run: seq<Event>, t: State)
    requires Invariant(s) && Reaches(s, run, t)
    ensures Invariant(t)
    decreases |run|
  {
    if run != [] {
      StepKeepsInvariant(s, run[0]);
      RunKeepsInvariant(Step(s, run[0]), run[1..], t);
    }
  }

  lemma {:induction false} RunningUntilStop(s: State, run: seq<Event>, t: State)
    requires Reaches(s, run, t) && s.timer.Some? && Stop !in run
    ensures t.timer.Some?
    decreases |run|
  {
    if run != [] {
      RunningUntilStop(Step(s, run[0]), run[1..], t);
    }
  }

  /** Polling never dies: in every interleaving from Start until Stop the newest timer's callback
      is still to run or a request that will arm a timer is in flight; no other timer is armed; and
      once the poller has been silent for SILENCE_LIMIT, that callback or request is overdue. */
  lemma PollingNeverStops(now: int, before: seq<Event>, after: seq<Event>, s: State, t: State)
    requires Reaches(Initial(now), before, s)
    requires Stop !in after && Reaches(AfterStart(s), after, t)
    ensures Pending(t) && !t.stopped
    ensures forall id :: id in t.armed ==> t.timer == Some(id) && t.armed[id] - t.lastActivity < SILENCE_LIMIT
    ensures t.now - t.lastActivity >= SILENCE_LIMIT ==>
              t.sending > 0 || t.timer.value in t.waiting || t.armed[t.timer.value] <= t.now
  {
    RunKeepsInvariant(Initial(now), before, s);
    StepKeepsInvariant(s, Start);
    RunKeepsInvariant(AfterStart(s), after, t);
    RunningUntilStop(AfterStart(s), after, t);
  }

  /** A timer that has been superseded stays so: whatever happens before its callback gets the lock,
      the callback then changes nothing but its own place in the queue. */
  lemma {:induction false} SupersededStaysSuperseded(s: State, run: seq<Event>, t: State, id: nat)
    requires Invariant(s) && Reaches(s, run, t)
    requires id < s.timers && s.timer != Some(id)
    ensures AfterCallback(t, id) == t.(waiting := t.waiting - {id})
    decreases |run|
  {
    if run != [] {
      StepKeepsInvariant(s, run[0]);
      SupersededStaysSuperseded(Step(s, run[0]), run[1..], t, id);
    }
  }

  /** After Stop no callback, report or completed send arms a timer or sends again, until Start. */
  lemma {:induction false} StoppedStaysQuiet(s: State, run: seq<Event>, t: State)
    requires Invariant(s) && s.stopped && Reaches(s, run, t) && Start !in run
    ensures t.timer.None? && t.armed == map[] && t.sending <= s.sending
    decreases |run|
  {
    if run == [] {
      assert t.armed == map[];
    } else {
      StepKeepsInvariant(s, run[0]);
      StoppedStaysQuiet(Step(s, run[0]), run[1..], t);
    }
  }

  // ---------------------------------------------------------------- when requests are made

  // The instant up to which a report promises that no request is needed: the one it names, but not more
  // than a day away, or the default poll interval from now if it names none that lies ahead.
  function Promised(at: NextUpdateAt, now: int): int {
    match at
    case At(instant) =>
      if instant <= now then now + DEFAULT_POLL else if instant <= now + MAX_POLL then instant else now + MAX_POLL
    case _ => now + DEFAULT_POLL
  }

  /** A report arms the timer for the promised instant, overshooting it by less than the jitter. */
  lemma ReportKeepsPromise(s: State, at: NextUpdateAt, jitter: int)
    requires !s.stopped && 0 <= jitter < JITTER_RANGE
    ensures var t := Step(s, Report(at, jitter));
      && t.timer.Some? && t.timer.value in t.armed
      && Promised(at, s.now) <= t.armed[t.timer.value] < Promised(at, s.now) + JITTER_RANGE
  {
  }

  // How many requests the run starts.
  ghost function Requests(s: State, run: seq<Event>, t: State): nat
    requires Reaches(s, run, t)
    decreases |run|
  {
    if run == [] then 0
    else (if Step(s, run[0]).sending > s.sending then 1 else 0) + Requests(Step(s, run[0]), run[1..], t)
  }

  predicate IsReportOrStart(e: Event) { e.Report? || e.Start? }

  ghost predicate NoReportOrStart(run: seq<Event>) { forall i :: 0 <= i < |run| ==> !IsReportOrStart(run[i]) }

  // No timer is due before the instant, and neither would one be that a request in flight arms.
  ghost predicate QuietUntil(s: State, instant: int) {
    && (forall id :: id in s.armed ==> s.armed[id] >= instant)
    && (s.timer.Some? ==> s.timer.value !in s.waiting)
    && (s.sending == 0 || instant <= s.now + DEFAULT_POLL)
  }

  lemma StepKeepsQuiet(s: State, e: Event, instant: int)
    requires Invariant(s) && Enabled(s, e) && QuietUntil(s, instant) && s.now < instant && !IsReportOrStart(e)
    ensures QuietUntil(Step(s, e), instant) && Step(s, e).sending <= s.sending && s.now <= Step(s, e).now
  {
  }

  lemma {:induction false} TimeGoesOn(s: State, run: seq<Event>, t: State)
    requires Reaches(s, run, t)
    ensures s.now <= t.now
    decreases |run|
  {
    if run != [] {
      TimeGoesOn(Step(s, run[0]), run[1..], t);
    }
  }

  lemma {:induction false} QuietRun(s: State, run: seq<Event>, t: State, instant: int)
    requires Invariant(s) && Reaches(s, run, t) && QuietUntil(s, instant) && NoReportOrStart(run) && t.now < instant
    ensures Requests(s, run, t) == 0
    decreases |run|
  {
    if run != [] {
      var next := Step(s, run[0]);
      TimeGoesOn(s, run, t);
      TimeGoesOn(next, run[1..], t);
      StepKeepsQuiet(s, run[0], instant);
      StepKeepsInvariant(s, run[0]);
      QuietRun(next, run[1..], t, instant);
    }
  }

  /** After a start, and after every request that was published or failed to be, the next one is made no
      earlier than the default poll interval, unless a report or a start intervenes. */
  lemma NoRequestForAnInterval(s: State, e: Event, run: seq<Event>, t: State)
    requires Invariant(s) && Enabled(s, e) && ((e.Start? && s.timer.None?) || (e.Sent? && !s.stopped))
    requires Reaches(Step(s, e), run, t) && NoReportOrStart(run) && t.now < s.now + DEFAULT_POLL
    ensures Requests(Step(s, e), run, t) == 0
    ensures Step(s, e).timer.Some? && Get(Step(s, e).armed, Step(s, e).timer.value) == Some(s.now + DEFAULT_POLL)
  {
    StepKeepsInvariant(s, e);
    QuietRun(Step(s, e), run, t, s.now + DEFAULT_POLL);
  }

  // No request is made before the promised instant, whatever happens but another report or a start.
  ghost predicate PromiseHolds(s: State, at: NextUpdateAt, jitter: int)
    requires 0 <= jitter < JITTER_RANGE
  {
    forall run, t ::
      Reaches(Step(s, Report(at, jitter)), run, t) && NoReportOrStart(run) && t.now < Promised(at, s.now) ==>
      Requests(Step(s, Report(at, jitter)), run, t) == 0
  }

  /** The promise of a report holds if and only if no request was in flight when it came, or it promises no
      more than the default poll interval: the end of a request replaces the timer of the report. */
  lemma PromiseHoldsIff(s: State, at: NextUpdateAt, jitter: int)
    requires Invariant(s) && !s.stopped && 0 <= jitter < JITTER_RANGE
    ensures PromiseHolds(s, at, jitter) <==> s.sending == 0 || Promised(at, s.now) <= s.now + DEFAULT_POLL
  {
    var u := Step(s, Report(at, jitter));
    StepKeepsInvariant(s, Report(at, jitter));
    if s.sending == 0 || Promised(at, s.now) <= s.now + DEFAULT_POLL {
      forall run, t | Reaches(u, run, t) && NoReportOrStart(run) && t.now < Promised(at, s.now)
        ensures Requests(u, run, t) == 0
      {
        QuietRun(u, run, t, Promised(at, s.now));
      }
    } else {
      PromiseBroken(s, at, jitter);
    }
  }

  lemma PromiseBroken(s: State, at: NextUpdateAt, jitter: int)
    requires Invariant(s) && !s.stopped && 0 <= jitter < JITTER_RANGE
    requires s.sending > 0 && Promised(at, s.now) > s.now + DEFAULT_POLL
    ensures !PromiseHolds(s, at, jitter)
  {
    var a := Step(s, Report(at, jitter));
    var b := AfterSent(a);
    var id := b.timer.value;
    var c := b.(now := b.now + DEFAULT_POLL);
    var d := Step(c, Expire(id));
    var e := AfterCallback(d, id);
    var run := [Sent, Tick(DEFAULT_POLL), Expire(id), Callback(id)];
    assert e.sending > d.sending;
    RunOfFour(a, b, c, d, e, run);
  }

  lemma RunOfFour(a: State, b: State, c: State, d: State, e: State, run: seq<Event>)
    requires |run| == 4
    requires Enabled(a, run[0]) && b == Step(a, run[0]) && Enabled(b, run[1]) && c == Step(b, run[1])
    requires Enabled(c, run[2]) && d == Step(c, run[2]) && Enabled(d, run[3]) && e == Step(d, run[3])
    ensures Reaches(a, run, e)
    ensures e.sending > d.sending ==> Requests(a, run, e) > 0
  {
    assert run[1..][1..] == run[2..] && run[2..][1..] == run[3..] && run[3..][1..] == [];
    assert Reaches(e, [], e) && Reaches(d, run[3..], e) && Reaches(c, run[2..], e) && Reaches(b, run[1..], e);
    assert e.sending > d.sending ==> Requests(d, run[3..], e) > 0;
    assert Requests(b, run[1..], e) >= Requests(c, run[2..], e) >= Requests(d, run[3..], e);
  }

  // ---------------------------------------------------------------- fresh reports

  lemma {:induction false} ReportStaysFresh(s: State, run: seq<Event>, t: State, at: int)
    requires Reaches(s, run, t) && s.lastReceived.Some? && at <= s.lastReceived.value <= s.now
    requires t.now - at < JITTER_RANGE
    ensures Requests(s, run, t) == 0 && t.lastReceived.Some? && at <= t.lastReceived.value
    decreases |run|
  {
    if run != [] {
      TimeGoesOn(s, run, t);
      TimeGoesOn(Step(s, run[0]), run[1..], t);
      ReportStaysFresh(Step(s, run[0]), run[1..], t, at);
    }
  }

  lemma {:induction false} LastReportIsKnown(s: State, run: seq<Event>, t: State)
    requires Reaches(s, run, t) && forall i :: 0 <= i < |run| ==> !run[i].Report?
    ensures t.lastReceived == s.lastReceived
    decreases |run|
  {
    if run != [] {
      LastReportIsKnown(Step(s, run[0]), run[1..], t);
    }
  }

  /** No request is made within the jitter of a report, whoever asked for it and whatever else happens; and
      once the last report is older than that, the callback of the current timer makes one, and before that
      it waits for another default poll interval. */
  lemma RequestsFollowAge(s: State, at: NextUpdateAt, jitter: int, run: seq<Event>, t: State, id: nat)
    requires 0 <= jitter < JITTER_RANGE && Reaches(Step(s, Report(at, jitter)), run, t)
    ensures t.now - s.now < JITTER_RANGE ==> Requests(Step(s, Report(at, jitter)), run, t) == 0
    ensures (forall i :: 0 <= i < |run| ==> !run[i].Report?) && !t.stopped && t.timer == Some(id) ==>
              var u := AfterCallback(t, id);
              && (u.sending > t.sending <==> t.now - s.now >= JITTER_RANGE)
              && (u.sending == t.sending ==>
                    u.timer == Some(t.timers) && Get(u.armed, t.timers) == Some(t.now + DEFAULT_POLL))
  {
    if t.now - s.now < JITTER_RANGE {
      ReportStaysFresh(Step(s, Report(at, jitter)), run, t, s.now);
    }
    if forall i :: 0 <= i < |run| ==> !run[i].Report? {
      LastReportIsKnown(Step(s, Report(at, jitter)), run, t);
    }
  }

  /** A second start of a running poller changes nothing. */
  lemma StartIsIdempotent(s: State)
    ensures AfterStart(AfterStart(s)) == AfterStart(s)
    ensures s.timer.Some? ==> AfterStart(s) == s
  {
  }

  /** Stop takes effect at once and lasts: nothing late arms a timer or starts a request until the next
      start. */
  lemma StopIsQuiet(s: State, run: seq<Event>, t: State)
    requires Invariant(s) && Reaches(Step(s, Stop), run, t) && Start !in run
    ensures t.stopped && t.timer.None? && t.armed == map[] && Requests(Step(s, Stop), run, t) == 0
  {
    StepKeepsInvariant(s, Stop);
    StoppedStaysQuiet(Step(s, Stop), run, t);
    NoRequestWhileStopped(Step(s, Stop), run, t);
  }

  lemma {:induction false} NoRequestWhileStopped(s: State, run: seq<Event>, t: State)
    requires Reaches(s, run, t) && s.stopped && Start !in run
    ensures t.stopped && Requests(s, run, t) == 0
    decreases |run|
  {
    if run != [] {
      NoRequestWhileStopped(Step(s, run[0]), run[1..], t);
    }
  }

  function Completions(run: seq<Event>): nat
    decreases |run|
  {
    if run == [] then 0 else (if run[0].Sent? then 1 else 0) + Completions(run[1..])
  }

  /** Every request that is started is in flight until it completes, once. */
  lemma {:induction false} RequestsBalance(s: State, run: seq<Event>, t: State)
    requires Reaches(s, run, t)
    ensures s.sending + Requests(s, run, t) == t.sending + Completions(run)
    decreases |run|
  {
    if run != [] {
      RequestsBalance(Step(s, run[0]), run[1..], t);
    }
  }
}
