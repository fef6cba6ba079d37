/** The log level and its revert deadline.

    A verbose level is temporary: it carries a deadline, and a startup at or after the deadline
    comes up at info.  Every store write changes memory and then saves all of it; the save may
    fail, and the process may die before or after any save. */
module LogManager {
  import opened Wrappers
  import opened Saves

  const DEFAULT_TIMEOUT: int := 7 * 24 * 3_600_000_000_000

  // Levels in order of verbosity; Invalid stands for text that names no level.
  datatype Level = Invalid | Quiet | Info | Debug | Trace

  predicate IsVerbose(level: Level) { level.Debug? || level.Trace? }

  datatype Config = Config(level: Level, revertAt: Option<int>, timeout: int)

  datatype State = State(
    memory: Config,
    disk: Config,
    running: bool,
    live: Level,            // the level the logger runs at
    now: int)

  // A store write: memory changes first, then all of memory is saved.
  function Write(s: State, memory: Config, o: Outcome): State {
    s.(memory := memory, disk := if Reached(o) then memory else s.disk, running := !Died(o))
  }

  function WriteLevel(s: State, level: Level, o: Outcome): State { Write(s, s.memory.(level := level), o) }

  function WriteRevertAt(s: State, at: Option<int>, o: Outcome): State { Write(s, s.memory.(revertAt := at), o) }

  function WriteTimeout(s: State, timeout: int, o: Outcome): State { Write(s, s.memory.(timeout := timeout), o) }

  function Timeout(s: State): int { if s.memory.timeout <= 0 then DEFAULT_TIMEOUT else s.memory.timeout }

  // Lowering the level clears the deadline after the level is saved; raising it to a verbose one
  // sets the deadline before.
  function AfterSetLevel(s: State, level: Level, first: Outcome, second: Outcome): State {
    if level.Invalid? then s
    else if !IsVerbose(level) then
      var t := WriteLevel(s, level, first);
      if !first.Saved? then t
      else
        var u := WriteRevertAt(t, None, second);
        if Died(second) then u else u.(live := level)
    else
      var t := WriteRevertAt(s, Some(s.now + Timeout(s)), first);
      if !first.Saved? then t
      else
        var u := WriteLevel(t, level, second);
        if second.Saved? then u.(live := level) else u
  }

  function AfterSetTimeout(s: State, timeout: int, first: Outcome, second: Outcome): State {
    if timeout <= 0 then s
    else
      var t := WriteTimeout(s, timeout, first);
      if !first.Saved? || t.memory.revertAt.None? then t
      else WriteRevertAt(t, Some(s.now + timeout), second)
  }

  predicate IsDue(c: Config, now: int) {
    IsVerbose(c.level) && c.revertAt.Some? && now >= c.revertAt.value
  }

  // A new process loads what is on disk; the logger starts out at info.
  function AfterStartup(s: State, first: Outcome, second: Outcome): State {
    var t := s.(memory := s.disk, running := true, live := Info);
    if t.memory.level.Invalid? then t
    else if IsDue(t.memory, s.now) then
      var u := WriteLevel(t, Info, first);
      if !first.Saved? then u else WriteRevertAt(u, None, second)
    else
      t.(live := t.memory.level)
  }

  datatype Event =
    | SetLevel(level: Level, first: Outcome, second: Outcome)
    | SetTimeout(timeout: int, first: Outcome, second: Outcome)
    | OtherWrite(outcome: Outcome)         // another setting of the same configuration
    | Startup(first: Outcome, second: Outcome)
    | Tick(dt: nat)

  // Nothing but a startup happens to a process that is not running.
  predicate Enabled(s: State, e: Event) { s.running || e.Startup? || e.Tick? }

  function Step(s: State, e: Event): State {
    match e
    case SetLevel(level, first, second) => AfterSetLevel(s, level, first, second)
    case SetTimeout(timeout, first, second) => AfterSetTimeout(s, timeout, first, second)
    case OtherWrite(outcome) => Write(s, s.memory, outcome)
    case Startup(first, second) => AfterStartup(s, first, second)
    case Tick(dt) => s.(now := s.now + dt)
  }

  /** The log manager on its store; a write answers with its outcome, and after one in which the
      process died nothing more is executed. */
  class Manager {
    var memory: Config
    var disk: Config
    var running: bool
    var live: Level
    var now: int

    constructor (memory: Config, disk: Config, now: int)
      ensures View() == State(memory, disk, true, Info, now)
    {
      this.memory, this.disk, running, live, this.now := memory, disk, true, Info, now;
    }

    ghost function View(): State
      reads this
    {
      State(memory, disk, running, live, now)
    }

    method Save(o: Outcome)
      modifies this`disk, this`running
      ensures View() == Write(old(View()), memory, o)
    {
      if o.Saved? || o.DiedAfter? {
        disk := memory;
      }
      running := !(o.DiedBefore? || o.DiedAfter?);
    }

    method StoreLevel(level: Level, o: Outcome) returns (ok: bool)
      modifies this
      ensures View() == WriteLevel(old(View()), level, o) && ok == o.Saved?
    {
      memory := memory.(level := level);
      Save(o);
      return o.Saved?;
    }

    method StoreRevertAt(at: Option<int>, o: Outcome) returns (ok: bool)
      modifies this
      ensures View() == WriteRevertAt(old(View()), at, o) && ok == o.Saved?
    {
      memory := memory.(revertAt := at);
      Save(o);
      return o.Saved?;
    }

    method SetLevel(level: Level, first: Outcome, second: Outcome) returns (ok: bool)
      modifies this
      ensures View() == AfterSetLevel(old(View()), level, first, second)
      ensures ok <==> !level.Invalid? && first.Saved? && (IsVerbose(level) ==> second.Saved?)
    {
      if level.Invalid? {
        return false;
      }
      if !IsVerbose(level) {
        ok := StoreLevel(level, first);
        if !ok {
          return;
        }
        var _ := StoreRevertAt(None, second);
        if running {
          live := level;
        }
        return;
      }
      var timeout := if memory.timeout <= 0 then DEFAULT_TIMEOUT else memory.timeout;
      ok := StoreRevertAt(Some(now + timeout), first);
      if !ok {
        return;
      }
      ok := StoreLevel(level, second);
      if ok {
        live := level;
      }
    }

    method SetRevertTimeout(timeout: int, first: Outcome, second: Outcome) returns (ok: bool)
      modifies this
      ensures View() == AfterSetTimeout(old(View()), timeout, first, second)
      ensures ok <==> timeout > 0 && first.Saved? && (old(memory).revertAt.Some? ==> second.Saved?)
    {
      if timeout <= 0 {
        return false;
      }
      memory := memory.(timeout := timeout);
      Save(first);
      ok := first.Saved?;
      if ok && memory.revertAt.Some? {
        ok := StoreRevertAt(Some(now + timeout), second);
      }
    }

    // Startup of a new process on the same disk.
    method ApplyPersistedLevel(first: Outcome, second: Outcome)
      modifies this
      ensures View() == AfterStartup(old(View()), first, second)
    {
      memory, running, live := disk, true, Info;
      if memory.level.Invalid? {
        return;
      }
      if IsVerbose(memory.level) && memory.revertAt.Some? && now >= memory.revertAt.value {
        var ok := StoreLevel(Info, first);
        if ok {
          var _ := StoreRevertAt(None, second);
        }
        return;
      }
      live := memory.level;
    }
  }

  // ---------------------------------------------------------------- no verbose level without a deadline

  predicate HasDeadline(c: Config) { IsVerbose(c.level) ==> c.revertAt.Some? }

  // Memory matters only while the process runs.
  predicate Safe(s: State) { HasDeadline(s.disk) && (s.running ==> HasDeadline(s.memory)) }

  // No deadline lies further ahead than the given instant.
  predicate DueBy(s: State, limit: int) {
    && (s.disk.revertAt.Some? ==> s.disk.revertAt.value <= limit)
    && (s.running && s.memory.revertAt.Some? ==> s.memory.revertAt.value <= limit)
  }

  function Later(a: int, b: int): int { if a < b then b else a }

  // The latest instant any deadline can name after an event.
  function Limit(s: State, e: Event, limit: int): int {
    match e
    case SetLevel(_, _, _) => Later(limit, s.now + Timeout(s))
    case SetTimeout(timeout, _, _) => Later(limit, s.now + timeout)
    case _ => limit
  }

  lemma StepKeepsSafe(s: State, e: Event, limit: int)
    requires Safe(s) && DueBy(s, limit) && Enabled(s, e)
    ensures Safe(Step(s, e)) && DueBy(Step(s, e), Limit(s, e, limit))
  {
  }

  ghost predicate Reaches(s: State, run: seq<Event>, limit: int, t: State, end: int)
    decreases |run|
  {
    if run == [] then s == t && limit == end
    else Enabled(s, run[0]) && Reaches(Step(s, run[0]), run[1..], Limit(s, run[0], limit), t, end)
  }

  lemma {:induction false} RunKeepsSafe(s: State, run: seq<Event>, limit: int, t: State, end: int)
    requires Safe(s) && DueBy(s, limit) && Reaches(s, run, limit, t, end)
    ensures Safe(t) && DueBy(t, end)
    decreases |run|
  {
    if run != [] {
      StepKeepsSafe(s, run[0], limit);
      RunKeepsSafe(Step(s, run[0]), run[1..], Limit(s, run[0], limit), t, end);
    }
  }

  /** Whatever writes fail and wherever the process dies: memory and disk never hold a verbose level
      without a deadline; a startup that finds a verbose level due and can save the level comes up,
      and leaves the disk, at info; and once the last deadline anyone asked for has passed, no startup
      comes up verbose. */
  lemma VerboseLevelsExpire(s: State, run: seq<Event>, limit: int, t: State, end: int,
                            first: Outcome, second: Outcome)
    requires Safe(s) && DueBy(s, limit) && Reaches(s, run, limit, t, end)
    ensures HasDeadline(t.disk) && (t.running ==> HasDeadline(t.memory))
    ensures var u := Step(t, Startup(first, second));
      && (IsDue(t.disk, t.now) && first.Saved? ==> u.live.Info? && u.memory.level.Info? && u.disk.level.Info?)
      && (IsVerbose(u.live) ==> u.disk == t.disk && t.now < t.disk.revertAt.value)
      && (t.now >= end ==> !IsVerbose(u.live))
  {
    RunKeepsSafe(s, run, limit, t, end);
  }

  // ---------------------------------------------------------------- how long a level lasts

  // Neither the level nor the timeout is set anew.
  predicate LeavesLevel(e: Event) { !e.SetLevel? && !e.SetTimeout? }

  // The level is in memory and on disk with its deadline, and the logger of a running process is at it.
  predicate IsAt(s: State, level: Level, revertAt: Option<int>) {
    && s.disk.level == level && s.disk.revertAt == revertAt
    && (s.running ==> s.memory.level == level && s.memory.revertAt == revertAt && s.live == level)
  }

  /** A level that was set and saved is the level of every process, however many restarts and failing or
      dying writes of other settings follow: a verbose one until its deadline, which is the timeout after
      it was set, any other for good. */
  lemma {:induction false} LevelLasts(s: State, run: seq<Event>, t: State, limit: int, end: int, level: Level,
                                      revertAt: Option<int>)
    requires IsAt(s, level, revertAt) && !level.Invalid? && Reaches(s, run, limit, t, end)
    requires forall i :: 0 <= i < |run| ==> LeavesLevel(run[i])
    requires IsVerbose(level) && revertAt.Some? ==> t.now < revertAt.value
    ensures IsAt(t, level, revertAt) && s.now <= t.now
    decreases |run|
  {
    if run != [] {
      RunGoesOn(s, run, limit, t, end);
      RunGoesOn(Step(s, run[0]), run[1..], Limit(s, run[0], limit), t, end);
      LevelLasts(Step(s, run[0]), run[1..], t, Limit(s, run[0], limit), end, level, revertAt);
    }
  }

  lemma {:induction false} RunGoesOn(s: State, run: seq<Event>, limit: int, t: State, end: int)
    requires Reaches(s, run, limit, t, end)
    ensures s.now <= t.now
    decreases |run|
  {
    if run != [] {
      RunGoesOn(Step(s, run[0]), run[1..], Limit(s, run[0], limit), t, end);
    }
  }

  /** Setting a level, all saves succeeding, puts it in force; a verbose one gets a deadline, after the timeout
      that was configured or else a week, and any other none. */
  lemma SetLevelTakesEffect(s: State, level: Level)
    requires !level.Invalid?
    ensures var timeout := if s.memory.timeout > 0 then s.memory.timeout else DEFAULT_TIMEOUT;
      IsAt(Step(s, SetLevel(level, Saved, Saved)), level, if IsVerbose(level) then Some(s.now + timeout) else None)
    ensures Step(s, SetLevel(level, Saved, Saved)).running
  {
  }

  lemma {:induction false} TimeoutStays(s: State, run: seq<Event>, limit: int, t: State, end: int, timeout: int)
    requires Reaches(s, run, limit, t, end) && s.disk.timeout == timeout && (s.running ==> s.memory.timeout == timeout)
    requires forall i :: 0 <= i < |run| ==> !run[i].SetTimeout?
    ensures t.disk.timeout == timeout && (t.running ==> t.memory.timeout == timeout)
    decreases |run|
  {
    if run != [] {
      TimeoutStays(Step(s, run[0]), run[1..], Limit(s, run[0], limit), t, end, timeout);
    }
  }

  /** A timeout that was set and saved moves an armed deadline, and is the one every later verbose level gets
      until another is set, whatever fails, dies or restarts in between. */
  lemma TimeoutIsUsed(s: State, timeout: int, run: seq<Event>, limit: int, t: State, end: int, level: Level)
    requires timeout > 0 && IsVerbose(level)
    requires Reaches(Step(s, SetTimeout(timeout, Saved, Saved)), run, limit, t, end) && t.running
    requires forall i :: 0 <= i < |run| ==> !run[i].SetTimeout?
    ensures Step(s, SetTimeout(timeout, Saved, Saved)).disk.revertAt
         == (if s.memory.revertAt.Some? then Some(s.now + timeout) else None)
    ensures Step(t, SetLevel(level, Saved, Saved)).disk.revertAt == Some(t.now + timeout)
  {
    TimeoutStays(Step(s, SetTimeout(timeout, Saved, Saved)), run, limit, t, end, timeout);
  }

  /** What a change of level comes to, whatever becomes of its two writes.  Memory changes before each write,
      the disk only when that write reaches it; the logger changes exactly if the level is persisted and the
      process lives on, a deadline that cannot be cleared notwithstanding; text that names no level is
      refused. */
  lemma SetLevelOutcomes(s: State, level: Level, first: Outcome, second: Outcome)
    ensures level.Invalid? ==> Step(s, SetLevel(level, first, second)) == s
    ensures !level.Invalid? ==>
      var t := Step(s, SetLevel(level, first, second));
      var at := Some(s.now + Timeout(s));
      && (!Reached(first) ==> t.disk == s.disk)
      && (if IsVerbose(level) then
            && t.memory == s.memory.(revertAt := at, level := if first.Saved? then level else s.memory.level)
            && (Reached(first) ==> t.disk == s.memory.(revertAt := at, level :=
                 if first.Saved? && Reached(second) then level else s.memory.level))
          else
            && t.memory == s.memory.(level := level, revertAt := if first.Saved? then None else s.memory.revertAt)
            && (Reached(first) ==> t.disk == s.memory.(level := level, revertAt :=
                 if first.Saved? && Reached(second) then None else s.memory.revertAt)))
      && (t.running <==> !Died(first) && (first.Saved? ==> !Died(second)))
      && t.live == if first.Saved? && (if IsVerbose(level) then second.Saved? else !Died(second)) then level else s.live
  {
  }

  /** What a startup comes to.  One that reverts a level and can save it leaves no deadline behind; one that
      cannot keeps it, so the next one tries again; and an unknown level on disk comes up at info. */
  lemma StartupOutcomes(s: State, first: Outcome, second: Outcome)
    ensures var t := Step(s, Startup(first, second));
      && (IsDue(s.disk, s.now) && first.Saved? && second.Saved? ==>
            t.disk == t.memory == Config(Info, None, s.disk.timeout))
      && (IsDue(s.disk, s.now) && !Reached(first) ==>
            t.disk == s.disk && t.memory.revertAt == s.disk.revertAt && t.live.Info?)
      && (!IsDue(s.disk, s.now) ==> t.disk == t.memory == s.disk)
      && (s.disk.level.Invalid? ==> t.live.Info?)
      && (!IsDue(s.disk, s.now) || (!Died(first) && !Died(second)) ==> t.running)
  {
  }

  /** Every save writes the whole configuration, so any other setting that is saved makes what is in memory
      permanent; and a timeout that is not positive is refused. */
  lemma OtherWrites(s: State, o: Outcome, timeout: int, second: Outcome)
    ensures Step(s, OtherWrite(o)) == s.(disk := if Reached(o) then s.memory else s.disk, running := !Died(o))
    ensures timeout <= 0 ==> Step(s, SetTimeout(timeout, o, second)) == s
  {
  }
}
