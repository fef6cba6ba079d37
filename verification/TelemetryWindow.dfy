/** The validity window of telemetry: enabling it arms a one-shot timer that disables it again,
    and the window survives restarts through the persisted configuration.

    Setting the configuration changes memory first and then saves it, which may fail.  Callbacks
    of stopped timers may still be waiting for the lock, as in the configuration poller. */
module TelemetryWindow {
  import opened Wrappers

  const DEFAULT_VALIDITY: int := 30 * 24 * 3_600_000_000_000

  datatype Suppressed = Suppressed(domains: seq<string>, events: seq<string>)

  datatype Config = Config(enabled: bool, enabledAt: Option<int>, validity: int, suppressed: Option<Suppressed>)

  function EffectiveValidity(c: Config): int {
    if c.validity > 0 then c.validity else DEFAULT_VALIDITY
  }

  datatype State = State(
    config: Config,               // in memory
    saved: Option<Config>,        // on disk; None before telemetry was ever configured
    timer: Option<nat>,
    armed: map<nat, int>,         // timers that have not expired, with their deadlines
    waiting: set<nat>,            // expired timers whose callback has not taken the lock yet
    timers: nat,                  // how many timers were ever created
    now: int)

  // Memory always takes the new configuration; the disk only when the save succeeds.
  function Store(s: State, next: Config, ok: bool): State {
    s.(config := next, saved := if ok then Some(next) else s.saved)
  }

  function StopTimer(s: State): State {
    if s.timer.None? then s else s.(armed := s.armed - {s.timer.value}, timer := None)
  }

  function StartTimer(s: State, delay: int): State {
    s.(timer := Some(s.timers), armed := s.armed[s.timers := s.now + delay], timers := s.timers + 1)
  }

  function AfterEnable(s: State, enabled: bool, ok: bool): State {
    var next := s.config.(enabled := enabled, enabledAt := if enabled then Some(s.now) else None);
    var stored := Store(s, next, ok);
    if !ok then stored
    else if enabled then StartTimer(StopTimer(stored), EffectiveValidity(next))
    else StopTimer(stored)
  }

  function Elapsed(s: State): int
    requires s.config.enabledAt.Some?
  {
    if s.now < s.config.enabledAt.value then 0 else s.now - s.config.enabledAt.value
  }

  function AfterSetValidity(s: State, validity: int, ok: bool): State {
    if validity <= 0 then s
    else
      var open := s.config.enabled && s.config.enabledAt.Some?;
      var over := open && Elapsed(s) >= validity;
      var next := s.config.(validity := validity);
      var stored := Store(s, if over then next.(enabled := false, enabledAt := None) else next, ok);
      if !ok then stored
      else if open && !over then StartTimer(StopTimer(stored), validity - Elapsed(s))
      else StopTimer(stored)
  }

  function AfterSetSuppressed(s: State, suppressed: Option<Suppressed>, ok: bool): State {
    Store(s, s.config.(suppressed := suppressed), ok)
  }

  // A callback disables telemetry only if its own timer is still the current one.
  function AfterCallback(s: State, id: nat, ok: bool): State {
    var taken := s.(waiting := s.waiting - {id});
    if s.timer != Some(id) then taken
    else Store(taken.(timer := None), s.config.(enabled := false, enabledAt := None), ok)
  }

  // Startup on what is on disk: every timer of the previous process is gone.  A seed that cannot be saved
  // ends startup; a resumed window that cannot be saved is logged and goes on in memory.
  function AfterBoot(s: State, now: int, ok: bool): State {
    var config := match s.saved case Some(c) => c case None => Config(true, Some(now), 0, None);
    Resume(State(config, Some(config), None, map[], {}, s.timers, now), ok)
  }

  function Resume(s: State, ok: bool): State {
    if !s.config.enabled then s
    else
      var validity := EffectiveValidity(s.config);
      var enabledAt := match s.config.enabledAt
        case Some(at) => if at > s.now then s.now else at
        case None => s.now;
      if s.now - enabledAt >= validity then Store(s, s.config.(enabled := false, enabledAt := None), ok)
      else if s.config.enabledAt == Some(enabledAt) then StartTimer(s, validity - (s.now - enabledAt))
      else StartTimer(Store(s, s.config.(enabledAt := Some(enabledAt)), ok), validity - (s.now - enabledAt))
  }

  datatype Event =
    | Enable(enabled: bool)
    | SetValidity(validity: int)
    | SetSuppressed(suppressed: Option<Suppressed>)
    | Expire(id: nat)
    | Callback(id: nat)
    | Tick(dt: nat)
    | Restart(now: int)           // the clock may have been set back in between

  predicate Enabled(s: State, e: Event) {
    match e
    case Expire(id) => id in s.armed && s.armed[id] <= s.now
    case Callback(id) => id in s.waiting
    case _ => true
  }

  // One step, whose save succeeds or not.
  function StepWith(s: State, e: Event, ok: bool): State
    requires Enabled(s, e)
  {
    match e
    case Enable(enabled) => AfterEnable(s, enabled, ok)
    case SetValidity(validity) => AfterSetValidity(s, validity, ok)
    case SetSuppressed(suppressed) => AfterSetSuppressed(s, suppressed, ok)
    case Expire(id) => s.(armed := s.armed - {id}, waiting := s.waiting + {id})
    case Callback(id) => AfterCallback(s, id, ok)
    case Tick(dt) => s.(now := s.now + dt)
    case Restart(now) => AfterBoot(s, now, ok)
  }

  function Step(s: State, e: Event): State
    requires Enabled(s, e)
  {
    StepWith(s, e, true)
  }

  /** The telemetry object with its configuration store and the timer runtime. */
  class Telemetry {
    var config: Config
    var saved: Option<Config>
    var timer: Option<nat>
    var armed: map<nat, int>
    var waiting: set<nat>
    var timers: nat
    var now: int

    // A new process on what the previous one left on disk.
    constructor (ghost left: State, saved: Option<Config>, timers: nat, now: int, ok: bool)
      requires left.saved == saved && left.timers == timers
      ensures View() == AfterBoot(left, now, ok)
    {
      var seeded := match saved case Some(c) => c case None => Config(true, Some(now), 0, None);
      config, this.saved, timer := seeded, Some(seeded), None;
      armed, waiting, this.timers, this.now := map[], {}, timers, now;
      new;
      ResumeValidityWindow(ok);
    }

    ghost function View(): State
      reads this
    {
      State(config, saved, timer, armed, waiting, timers, now)
    }

    method SetTelemetry(next: Config, ok: bool)
      modifies this`config, this`saved
      ensures View() == Store(old(View()), next, ok)
    {
      config := next;
      if ok {
        saved := Some(next);
      }
    }

    method StartTimerLocked(delay: int)
      modifies this`timer, this`armed, this`timers
      ensures View() == StartTimer(old(View()), delay)
    {
      armed := armed[timers := now + delay];
      timer := Some(timers);
      timers := timers + 1;
    }

    method StopTimerLocked()
      modifies this`timer, this`armed
      ensures View() == StopTimer(old(View()))
    {
      if timer.Some? {
        armed := armed - {timer.value};
        timer := None;
      }
    }

    method ResumeValidityWindow(ok: bool)
      modifies this
      ensures View() == Resume(old(View()), ok)
    {
      if !config.enabled {
        return;
      }
      var next, validity := config, EffectiveValidity(config);
      if next.enabledAt.None? || next.enabledAt.value > now {
        next := next.(enabledAt := Some(now));
      }
      var elapsed := now - next.enabledAt.value;
      if elapsed >= validity {
        next := next.(enabled := false, enabledAt := None);
      }
      if next != config {
        SetTelemetry(next, ok);
      }
      if next.enabled {
        StartTimerLocked(validity - elapsed);
      }
    }

    method Enable(enabled: bool, ok: bool)
      modifies this
      ensures View() == AfterEnable(old(View()), enabled, ok)
    {
      var next := config.(enabled := enabled, enabledAt := if enabled then Some(now) else None);
      SetTelemetry(next, ok);
      if !ok {
        return;
      }
      StopTimerLocked();
      if enabled {
        StartTimerLocked(EffectiveValidity(next));
      }
    }

    method SetValidity(validity: int, ok: bool) returns (accepted: bool)
      modifies this
      ensures View() == AfterSetValidity(old(View()), validity, ok)
      ensures accepted <==> validity > 0 && ok
    {
      if validity <= 0 {
        return false;
      }
      var next, elapsed, over := config, 0, false;
      if next.enabled && next.enabledAt.Some? {
        elapsed := if now < next.enabledAt.value then 0 else now - next.enabledAt.value;
        over := elapsed >= validity;
      }
      next := next.(validity := validity);
      if over {
        next := next.(enabled := false, enabledAt := None);
      }
      SetTelemetry(next, ok);
      if !ok {
        return false;
      }
      StopTimerLocked();
      if !over && next.enabled && next.enabledAt.Some? {
        StartTimerLocked(validity - elapsed);
      }
      return true;
    }

    method TimerCallback(id: nat, ok: bool)
      requires id in waiting
      modifies this
      ensures View() == AfterCallback(old(View()), id, ok)
    {
      waiting := waiting - {id};
      if timer != Some(id) {
        return;
      }
      timer := None;
      SetTelemetry(config.(enabled := false, enabledAt := None), ok);
    }
  }

  // ---------------------------------------------------------------- the window invariant

  // When the open window ends.
  function Expiry(c: Config): int
    requires c.enabledAt.Some?
  {
    c.enabledAt.value + EffectiveValidity(c)
  }

  // The current timer is live and ends the window exactly when it is over.
  predicate TimerMatches(s: State) {
    && s.timer.Some?
    && s.config.enabledAt.Some? && s.config.enabledAt.value <= s.now
    && (s.timer.value in s.armed || s.timer.value in s.waiting)
    && (s.timer.value in s.armed ==> s.armed[s.timer.value] == Expiry(s.config))
    && (s.timer.value in s.waiting ==> s.now >= Expiry(s.config))
  }

  predicate TimerAgrees(s: State) { if s.config.enabled then TimerMatches(s) else s.timer.None? }

  ghost predicate Invariant(s: State) {
    && s.saved == Some(s.config)
    && TimerAgrees(s)
    && (forall id :: id in s.armed ==> s.timer == Some(id) && id !in s.waiting)
    && (forall id :: id in s.armed || id in s.waiting ==> id < s.timers)
  }

  // Whether resuming a window on this clock has anything to save: its start is missing or lies ahead,
  // or the window is over.
  predicate NeedsSave(c: Config, now: int) {
    c.enabled && (c.enabledAt.None? || now < c.enabledAt.value || Expiry(c) <= now)
  }

  /** Whatever configuration a process finds on disk, and whatever the clock says, it starts up with timer
      and memory in agreement even if it cannot save what it resumes; the whole invariant, of which
      the disk is part, is in place if and only if it can or has nothing to save. */
  lemma BootEstablishesInvariantIff(s: State, now: int, ok: bool)
    ensures TimerAgrees(AfterBoot(s, now, ok))
    ensures Invariant(AfterBoot(s, now, ok)) <==> ok || s.saved.None? || !NeedsSave(s.saved.value, now)
  {
  }

  lemma BootEstablishesInvariant(s: State, now: int)
    ensures Invariant(AfterBoot(s, now, true))
  {
    BootEstablishesInvariantIff(s, now, true);
  }

  lemma StepKeepsInvariant(s: State, e: Event)
    requires Invariant(s) && Enabled(s, e)
    ensures Invariant(Step(s, e))
  {
    if e.SetValidity? && e.validity > 0 && s.config.enabled {
      assert Elapsed(s) == s.now - s.config.enabledAt.value;
    }
  }

  ghost predicate Reaches(s: State, run: seq<Event>, t: State)
    decreases |run|
  {
    if run == [] then s == t else Enabled(s, run[0]) && Reaches(Step(s, run[0]), run[1..], t)
  }

  lemma {:induction false} RunKeepsInvariant(s: State, run: seq<Event>, t: State)
    requires Invariant(s) && Reaches(s, run, t)
    ensures Invariant(t)
    decreases |run|
  {
    if run != [] {
      StepKeepsInvariant(s, run[0]);
      RunKeepsInvariant(Step(s, run[0]), run[1..], t);
    }
  }

  /** From startup on, in every interleaving and across restarts: telemetry is enabled exactly when
      a live timer is armed for the end of the window or its callback is due; and telemetry that is
      enabled past its window has an overdue timer. */
  lemma EnabledExactlyWhileTimed(left: State, now: int, run: seq<Event>, t: State)
    requires Reaches(AfterBoot(left, now, true), run, t)
    ensures t.config.enabled <==> t.timer.Some?
    ensures t.config.enabled ==> TimerMatches(t)
    ensures t.config.enabled && t.now >= Expiry(t.config) ==>
              t.timer.value in t.waiting || t.armed[t.timer.value] <= t.now
  {
    BootEstablishesInvariant(left, now);
    RunKeepsInvariant(AfterBoot(left, now, true), run, t);
  }

  /** No callback ends a window early: stale ones leave the configuration alone, and the one that
      disables telemetry runs only when the window it belongs to is over. */
  lemma CallbackNeverEndsEarly(left: State, now: int, run: seq<Event>, s: State, id: nat)
    requires Reaches(AfterBoot(left, now, true), run, s) && id in s.waiting
    ensures var t := AfterCallback(s, id, true);
      (t.config == s.config && t.timer == s.timer)
      || (s.config.enabled && s.config.enabledAt.Some? && s.now >= Expiry(s.config) && !t.config.enabled)
  {
    BootEstablishesInvariant(left, now);
    RunKeepsInvariant(AfterBoot(left, now, true), run, s);
  }

  predicate Renews(e: Event) { (e.Enable? && e.enabled) || e.SetValidity? }

  // t's window, if open, is s's window and ends no later.
  predicate NotExtended(s: State, t: State) {
    t.config.enabled ==>
      && s.config.enabled && s.config.enabledAt.Some? && t.config.enabledAt.Some?
      && Expiry(t.config) <= Expiry(s.config)
  }

  lemma StepNeverExtends(s: State, e: Event)
    requires Invariant(s) && Enabled(s, e) && !Renews(e)
    ensures NotExtended(s, Step(s, e))
  {
  }

  /** Only enabling telemetry or setting the validity can move the end of the window back: no run of
      anything else, restarts on any clock included, extends it. */
  lemma {:induction false} RestartNeverExtends(s: State, run: seq<Event>, t: State)
    requires Invariant(s) && Reaches(s, run, t)
    requires forall i :: 0 <= i < |run| ==> !Renews(run[i])
    ensures NotExtended(s, t)
    decreases |run|
  {
    if run != [] {
      StepKeepsInvariant(s, run[0]);
      StepNeverExtends(s, run[0]);
      RestartNeverExtends(Step(s, run[0]), run[1..], t);
    }
  }

  /** Memory changes before the save, so a failing save parts the timer from the configuration in
      memory - except exactly when the call asked for the window that was already open, or for none
      when none was. */
  lemma FailedEnableKeepsTimerIff(s: State, enabled: bool)
    requires Invariant(s)
    ensures TimerAgrees(AfterEnable(s, enabled, false))
       <==> s.config.enabled == enabled && (enabled ==> s.config.enabledAt == Some(s.now))
  {
  }

  /** Likewise for the validity: a failing save keeps them together exactly when no window is open, or
      the requested validity is the effective one and has not run out. */
  lemma FailedSetValidityKeepsTimerIff(s: State, validity: int)
    requires Invariant(s) && validity > 0
    ensures TimerAgrees(AfterSetValidity(s, validity, false))
       <==> !s.config.enabled || (validity == EffectiveValidity(s.config) && s.now < Expiry(s.config))
  {
    if s.config.enabled {
      assert Elapsed(s) == s.now - s.config.enabledAt.value;
    }
  }

  /** They do part: in the first process ever, when disabling telemetry or giving it another validity
      cannot be saved. */
  lemma FailedSavesPart(left: State, now: int, validity: int)
    requires left.saved.None? && validity > 0 && validity != DEFAULT_VALIDITY
    ensures var s := AfterBoot(left, now, true);
      Invariant(s) && !TimerAgrees(AfterEnable(s, false, false)) && !TimerAgrees(AfterSetValidity(s, validity, false))
  {
    var s := AfterBoot(left, now, true);
    BootEstablishesInvariant(left, now);
    FailedEnableKeepsTimerIff(s, false);
    FailedSetValidityKeepsTimerIff(s, validity);
  }

  // ---------------------------------------------------------------- failing saves in runs

  // What even failing saves keep: an open window has a start, and only the current timer is live.
  ghost predicate WeakInvariant(s: State) {
    && (s.config.enabled ==> s.config.enabledAt.Some? && s.config.enabledAt.value <= s.now)
    && (s.timer.Some? ==> s.timer.value in s.armed || s.timer.value in s.waiting)
    && (forall id :: id in s.armed ==> s.timer == Some(id) && id !in s.waiting)
    && (forall id :: id in s.armed || id in s.waiting ==> id < s.timers)
  }

  lemma StepKeepsWeakInvariant(s: State, e: Event, ok: bool)
    requires WeakInvariant(s) && Enabled(s, e)
    ensures WeakInvariant(StepWith(s, e, ok))
  {
  }

  ghost predicate ReachesWith(s: State, run: seq<(Event, bool)>, t: State)
    decreases |run|
  {
    if run == [] then s == t
    else Enabled(s, run[0].0) && ReachesWith(StepWith(s, run[0].0, run[0].1), run[1..], t)
  }

  lemma {:induction false} RunKeepsWeakInvariant(s: State, run: seq<(Event, bool)>, t: State)
    requires WeakInvariant(s) && ReachesWith(s, run, t)
    ensures WeakInvariant(t)
    decreases |run|
  {
    if run != [] {
      StepKeepsWeakInvariant(s, run[0].0, run[0].1);
      RunKeepsWeakInvariant(StepWith(s, run[0].0, run[0].1), run[1..], t);
    }
  }

  // The operations that set the timer anew.
  predicate Rearms(e: Event) { e.Enable? || (e.SetValidity? && e.validity > 0) || e.Restart? }

  lemma RearmingHeals(s: State, e: Event)
    requires WeakInvariant(s) && Enabled(s, e) && Rearms(e)
    ensures Invariant(Step(s, e))
  {
  }

  /** However many saves failed before, and wherever, the first enabling, disabling, new validity or restart
      whose save succeeds puts disk, memory and timer back in agreement, which then lasts while saves
      succeed. */
  lemma FailuresHeal(left: State, now: int, ok: bool, run: seq<(Event, bool)>, s: State, e: Event,
                     after: seq<Event>, t: State)
    requires ReachesWith(AfterBoot(left, now, ok), run, s)
    requires Enabled(s, e) && Rearms(e) && Reaches(Step(s, e), after, t)
    ensures Invariant(t)
  {
    BootEstablishesInvariantIff(left, now, ok);
    RunKeepsWeakInvariant(AfterBoot(left, now, ok), run, s);
    RearmingHeals(s, e);
    RunKeepsInvariant(Step(s, e), after, t);
  }

  // ---------------------------------------------------------------- what was asked for

  // The validity and the suppression that a configuration was given.
  datatype Asked = Asked(validity: int, suppressed: Option<Suppressed>)

  // What has been asked for after an event: a validity that is not positive is refused.
  function Ask(a: Asked, e: Event): Asked {
    match e
    case SetValidity(validity) => if validity > 0 then a.(validity := validity) else a
    case SetSuppressed(suppressed) => a.(suppressed := suppressed)
    case _ => a
  }

  function AskAll(a: Asked, run: seq<Event>): Asked
    decreases |run|
  {
    if run == [] then a else AskAll(Ask(a, run[0]), run[1..])
  }

  predicate Holds(s: State, a: Asked) { s.config.validity == a.validity && s.config.suppressed == a.suppressed }

  /** Through every run, restarts and expiries included, the configuration in memory and on disk holds the
      validity and the suppression last asked for, open window or not; so every open window ends that
      validity after its start. */
  lemma {:induction false} AskedIsKept(s: State, run: seq<Event>, t: State, a: Asked)
    requires Invariant(s) && Reaches(s, run, t) && Holds(s, a)
    ensures Holds(t, AskAll(a, run)) && t.saved == Some(t.config)
    ensures t.config.enabled && AskAll(a, run).validity > 0 ==>
              && t.config.enabledAt.Some? && t.timer.Some?
              && (t.timer.value in t.armed ==>
                    t.armed[t.timer.value] == t.config.enabledAt.value + AskAll(a, run).validity)
    decreases |run|
  {
    if run != [] {
      StepKeepsInvariant(s, run[0]);
      AskedIsKept(Step(s, run[0]), run[1..], t, Ask(a, run[0]));
    }
  }

  // ---------------------------------------------------------------- how long a window lasts

  // The clock stays between two instants throughout the run.
  ghost predicate StaysWithin(s: State, run: seq<Event>, from: int, to: int)
    decreases |run|
  {
    from <= s.now < to &&
    (run == [] || (Enabled(s, run[0]) ==> StaysWithin(Step(s, run[0]), run[1..], from, to)))
  }

  predicate IsOpen(s: State, at: int, end: int) {
    s.config.enabled && s.config.enabledAt == Some(at) && Expiry(s.config) == end
  }

  predicate ChangesWindow(e: Event) { e.Enable? || (e.SetValidity? && e.validity > 0) }

  /** An open window stays open, with its start and its end, until its end: through every run that neither
      enables, disables nor sets a validity, whatever expires late and however often the process restarts, as
      long as the clock stays within the window. */
  lemma {:induction false} WindowLasts(s: State, run: seq<Event>, t: State, at: int, end: int)
    requires Invariant(s) && Reaches(s, run, t) && IsOpen(s, at, end) && StaysWithin(s, run, at, end)
    requires forall i :: 0 <= i < |run| ==> !ChangesWindow(run[i])
    ensures IsOpen(t, at, end)
    decreases |run|
  {
    if run != [] {
      StepKeepsInvariant(s, run[0]);
      WindowLasts(Step(s, run[0]), run[1..], t, at, end);
    }
  }

  lemma {:induction false} ClosedStaysClosed(s: State, run: seq<Event>, t: State)
    requires Invariant(s) && Reaches(s, run, t) && !s.config.enabled
    requires forall i :: 0 <= i < |run| ==> !(run[i].Enable? && run[i].enabled)
    ensures !t.config.enabled
    decreases |run|
  {
    if run != [] {
      StepKeepsInvariant(s, run[0]);
      ClosedStaysClosed(Step(s, run[0]), run[1..], t);
    }
  }

  /** Enabling opens a window from now on, disabling closes it, and a validity closes an open window if it
      has passed since its start and otherwise moves its end. */
  lemma OperationsOnWindow(s: State, enabled: bool, validity: int)
    requires Invariant(s) && validity > 0
    ensures var t := AfterEnable(s, enabled, true);
      if enabled then IsOpen(t, s.now, s.now + EffectiveValidity(s.config)) else !t.config.enabled
    ensures var t := AfterSetValidity(s, validity, true);
      if s.config.enabled && s.now < s.config.enabledAt.value + validity then
        IsOpen(t, s.config.enabledAt.value, s.config.enabledAt.value + validity)
      else !t.config.enabled
  {
    if s.config.enabled {
      assert Elapsed(s) == s.now - s.config.enabledAt.value;
    }
  }

  /** A restart resumes a window exactly if the clock is before its end; a window whose start is missing or
      lies ahead starts at the restart; and the first process opens one, with nothing asked for. */
  lemma RestartResumesIff(s: State, now: int, ok: bool)
    ensures s.saved.Some? ==>
      var c, t := s.saved.value, AfterBoot(s, now, ok);
      var anew := c.enabledAt.None? || now < c.enabledAt.value;
      && (t.config.enabled <==> c.enabled && (anew || now < Expiry(c)))
      && (t.config.enabled ==> t.config.enabledAt == if anew then Some(now) else c.enabledAt)
      && EffectiveValidity(t.config) == EffectiveValidity(c)
    ensures s.saved.None? ==> AfterBoot(s, now, ok).config == Config(true, Some(now), 0, None)
  {
  }

  /** If the clock was set back behind the start of an open window, a new validity counts from the clock. */
  lemma ClockBehindStart(s: State, validity: int)
    requires validity > 0 && s.config.enabled && s.config.enabledAt.Some? && s.now < s.config.enabledAt.value
    ensures var t := AfterSetValidity(s, validity, true);
      t.config.enabled && t.timer.Some? && Get(t.armed, t.timer.value) == Some(s.now + validity)
  {
  }

  // A window that is closed has no start.
  predicate IsClean(c: Config) { !c.enabled ==> c.enabledAt.None? }

  /** Through every run, whatever saves fail, a configuration that is disabled has no start of a window left in
      memory or on disk, if there was none when the process first started. */
  lemma {:induction false} ClosedHasNoStart(s: State, run: seq<(Event, bool)>, t: State)
    requires ReachesWith(s, run, t) && IsClean(s.config) && (s.saved.Some? ==> IsClean(s.saved.value))
    ensures IsClean(t.config) && (t.saved.Some? ==> IsClean(t.saved.value))
    decreases |run|
  {
    if run != [] {
      ClosedHasNoStart(StepWith(s, run[0].0, run[0].1), run[1..], t);
    }
  }

  /** Every open window can end, and ends by its own timer: once the clock has reached its end, the timer expires
      and its callback disables telemetry. */
  lemma WindowEnds(s: State, id: nat)
    requires Invariant(s) && s.config.enabled && s.timer == Some(id) && id in s.armed && s.now <= Expiry(s.config)
    ensures var late := Step(s, Tick(Expiry(s.config) - s.now));
      && Enabled(late, Expire(id)) && Enabled(Step(late, Expire(id)), Callback(id))
      && var t := Step(Step(late, Expire(id)), Callback(id)); !t.config.enabled && id !in t.waiting
  {
  }
}
