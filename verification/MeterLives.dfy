/** The history of one device inside the meter manager.

    Whatever happens to the manager, a stored device is a blank one of the moment it was created,
    followed by the operations that concerned it; so what holds of a lone meter holds of it. */
module MeterLives {
  import opened Wrappers
  import opened Meter
  import Manager = MeterManager

  // A device's creation and the operations on it since.
  datatype Life = Life(born: real, ops: seq<Timed>)

  // The operation an event amounts to for a device.
  function OpFor(s: Manager.State, site: Manager.Site, e: Manager.Event, addr: string): Option<Op> {
    match e
    case RegisterThing(thing, a) =>
      if a == addr && thing in s.things && site.VirtualTopic(addr) !in s.things[thing] then Some(Register) else None
    case AddMeter(a, at, modes, unit) =>
      if a == addr && Manager.CanAdd(s, addr, at) then Some(Add(modes, unit)) else None
    case RemoveMeter(a, at) => if a == addr && Manager.CanRemove(s, addr, at) then Some(Remove) else None
    case Metering(a, op) => if a == addr && Manager.IsMeterOp(op) then Some(op) else None
    case Activity(thing, active) => if Manager.IsMetered(s, site, thing, addr) then Some(SetActive(active)) else None
    case _ => None
  }

  predicate IsCleaned(s: Manager.State, site: Manager.Site, e: Manager.Event, now: real, addr: string) {
    e == Manager.Cleaning(addr) && Manager.IsStale(s, site, addr, now)
  }

  // Registering or removing a device that is not stored creates a blank one.
  function NextLife(life: Option<Life>, s: Manager.State, site: Manager.Site, e: Manager.Event, now: real,
                    addr: string): Option<Life>
  {
    var op := OpFor(s, site, e, addr);
    if IsCleaned(s, site, e, now, addr) then None
    else if op.None? then life
    else if life.Some? then Some(life.value.(ops := life.value.ops + [Timed(op.value, now)]))
    else if op.value.Register? || op.value.Remove? then Some(Life(now, []))
    else None
  }

  function LifeAfter(life: Option<Life>, s: Manager.State, site: Manager.Site, run: seq<(Manager.Event, real)>,
                     addr: string): Option<Life>
    decreases |run|
  {
    if run == [] then life
    else
      LifeAfter(NextLife(life, s, site, run[0].0, run[0].1, addr),
                Manager.Step(s, site, run[0].0, run[0].1), site, run[1..], addr)
  }

  // Events come in the order of time.
  predicate InTime(now: real, run: seq<(Manager.Event, real)>)
    decreases |run|
  {
    run == [] || (now <= run[0].1 && InTime(run[0].1, run[1..]))
  }

  function TimeAfter(now: real, run: seq<(Manager.Event, real)>): real {
    if run == [] then now else run[|run| - 1].1
  }

  // Powers and levels are not negative.
  predicate IsNonNegative(e: Manager.Event) {
    match e
    case AddMeter(_, _, modes, _) => forall m :: m in modes ==> modes[m] >= 0.0
    case Metering(_, op) => NonNegativeOp(op)
    case _ => true
  }

  predicate IsSound(life: Life, now: real) {
    && InOrder(life.born, life.ops) && EndOf(life.born, life.ops) <= now
    && forall i :: 0 <= i < |life.ops| ==> NonNegativeOp(life.ops[i].op)
  }

  // The device is stored exactly if it has a life, and is what that life made it.
  predicate Lives(s: Manager.State, site: Manager.Site, addr: string, life: Option<Life>, now: real) {
    match life
    case None => addr !in s.devices
    case Some(l) =>
      && Get(s.devices, addr) == Some(Meter.Run(Blank(l.born), l.ops, site.period))
      && IsSound(l, now)
  }

  lemma {:induction false} RunConcat(d: Device, a: seq<Timed>, b: seq<Timed>, period: real)
    ensures Meter.Run(d, a + b, period) == Meter.Run(Meter.Run(d, a, period), b, period)
    decreases |a|
  {
    if a == [] {
      assert a + b == b;
    } else {
      assert (a + b)[1..] == a[1..] + b;
      RunConcat(Apply(d, a[0].op, a[0].at, period), a[1..], b, period);
    }
  }

  lemma {:induction false} InOrderMore(from: real, run: seq<Timed>, t: Timed)
    requires InOrder(from, run) && EndOf(from, run) <= t.at
    ensures InOrder(from, run + [t])
    decreases |run|
  {
    if run == [] {
      assert run + [t] == [t] && [t][1..] == [];
    } else {
      assert (run + [t])[1..] == run[1..] + [t];
      InOrderMore(run[0].at, run[1..], t);
    }
  }

  // One event is one operation on a stored device, or nothing.
  lemma StepIsApply(s: Manager.State, site: Manager.Site, e: Manager.Event, now: real, addr: string)
    requires addr in s.devices && !IsCleaned(s, site, e, now, addr)
    ensures var op := OpFor(s, site, e, addr);
      Get(Manager.Step(s, site, e, now).devices, addr)
      == Some(if op.Some? then Apply(s.devices[addr], op.value, now, site.period) else s.devices[addr])
  {
  }

  // Nothing but a registration or a removal creates a device, and it is a blank one.
  lemma StepIsBirth(s: Manager.State, site: Manager.Site, e: Manager.Event, now: real, addr: string)
    requires addr !in s.devices
    ensures var op := OpFor(s, site, e, addr);
      Get(Manager.Step(s, site, e, now).devices, addr)
      == if op.Some? && (op.value.Register? || op.value.Remove?) then Some(Blank(now)) else None
  {
  }

  lemma StepLives(s: Manager.State, site: Manager.Site, e: Manager.Event, at: real, addr: string,
                  life: Option<Life>, now: real)
    requires Lives(s, site, addr, life, now) && now <= at && IsNonNegative(e)
    ensures Lives(Manager.Step(s, site, e, at), site, addr, NextLife(life, s, site, e, at, addr), at)
  {
    var op := OpFor(s, site, e, addr);
    if life.None? {
      StepIsBirth(s, site, e, at, addr);
    } else if !IsCleaned(s, site, e, at, addr) {
      StepIsApply(s, site, e, at, addr);
      if op.Some? {
        var l, t := life.value, Timed(op.value, at);
        RunConcat(Blank(l.born), l.ops, [t], site.period);
        assert [t][1..] == [];
        InOrderMore(l.born, l.ops, t);
      }
    }
  }

  /** Over every run of the manager, cleaning and restarts included, a stored device is the blank one of its
      creation after the operations of its life. */
  lemma {:induction false} DeviceIsItsLife(s: Manager.State, site: Manager.Site, run: seq<(Manager.Event, real)>,
                                           addr: string, life: Option<Life>, now: real)
    requires Lives(s, site, addr, life, now) && InTime(now, run)
    requires forall i :: 0 <= i < |run| ==> IsNonNegative(run[i].0)
    ensures Lives(Manager.Run(s, site, run), site, addr, LifeAfter(life, s, site, run, addr), TimeAfter(now, run))
    decreases |run|
  {
    if run != [] {
      StepLives(s, site, run[0].0, run[0].1, addr, life, now);
      DeviceIsItsLife(Manager.Step(s, site, run[0].0, run[0].1), site, run[1..], addr,
                      NextLife(life, s, site, run[0].0, run[0].1, addr), run[0].1);
    }
  }

  // ---------------------------------------------------------------- the laws of the meter, in the manager

  // The most a device can have stored after a life.
  function MostEnergy(life: Life, period: real): real {
    var blank := Blank(life.born);
    Energy(PeakSince(blank, Power(blank), life.ops, period),
           EndOf(life.born, life.ops) - Since(blank, life.born, life.ops, period))
  }

  lemma LifeIsBounded(life: Life, period: real, now: real)
    requires IsSound(life, now) && period >= 0.0
    ensures Meter.Run(Blank(life.born), life.ops, period).energy <= MostEnergy(life, period)
  {
    EnergyNeverExceedsPeak(life.born, life.ops, period);
  }

  /** No stored device of a manager that started with none holds more energy than its peak power since
      its energy was last cleared, over the time since then. */
  lemma ManagedEnergyNeverExceedsPeak(s: Manager.State, site: Manager.Site, run: seq<(Manager.Event, real)>,
                                      addr: string, now: real)
    requires s.devices == map[] && InTime(now, run) && site.period >= 0.0
    requires forall i :: 0 <= i < |run| ==> IsNonNegative(run[i].0)
    requires addr in Manager.Run(s, site, run).devices
    ensures var life := LifeAfter(None, s, site, run, addr);
      life.Some? && Manager.Run(s, site, run).devices[addr].energy <= MostEnergy(life.value, site.period)
  {
    DeviceIsItsLife(s, site, run, addr, None, now);
    LifeIsBounded(LifeAfter(None, s, site, run, addr).value, site.period, TimeAfter(now, run));
  }

  /** The energy of a stored device falls only by an event that is a reset, a removal or a registration
      without modes for it. */
  lemma ManagedEnergyFallsOnlyWhenCleared(s: Manager.State, site: Manager.Site, run: seq<(Manager.Event, real)>,
                                          addr: string, now: real, e: Manager.Event, at: real)
    requires s.devices == map[] && InTime(now, run) && TimeAfter(now, run) <= at && site.period >= 0.0
    requires (forall i :: 0 <= i < |run| ==> IsNonNegative(run[i].0)) && IsNonNegative(e)
    ensures var t := Manager.Run(s, site, run);
      var u := Manager.Step(t, site, e, at);
      addr in t.devices && addr in u.devices && u.devices[addr].energy < t.devices[addr].energy ==>
        OpFor(t, site, e, addr).Some? && Clears(t.devices[addr], OpFor(t, site, e, addr).value)
  {
    var t := Manager.Run(s, site, run);
    DeviceIsItsLife(s, site, run, addr, None, now);
    var life, op := LifeAfter(None, s, site, run, addr), OpFor(t, site, e, addr);
    if life.Some? && !IsCleaned(t, site, e, at, addr) {
      StepIsApply(t, site, e, at, addr);
      if op.Some? {
        var l, o := life.value, Timed(op.value, at);
        InOrderMore(l.born, l.ops, o);
        EnergyFallsOnlyWhenCleared(l.born, l.ops, o, site.period);
      }
    }
  }

  /** And from a moment on which the device is in step with one that integrates all the time, it stays in
      step through every run whose operations on it are timely. */
  lemma ManagedMeterIsExact(s: Manager.State, site: Manager.Site, run: seq<(Manager.Event, real)>, addr: string,
                            now: real, before: seq<Timed>, after: seq<Timed>, i: Ideal)
    requires s.devices == map[] && InTime(now, run) && addr in Manager.Run(s, site, run).devices
    requires forall i :: 0 <= i < |run| ==> IsNonNegative(run[i].0)
    requires var life := LifeAfter(None, s, site, run, addr);
      && life.Some? && life.value.ops == before + after
      && var d := Meter.Run(Blank(life.value.born), before, site.period);
         Refines(d, i) && InOrder(i.at, after) && AllTimely(d, after, site.period)
    ensures Refines(Manager.Run(s, site, run).devices[addr], RunIdeal(i, after))
  {
    DeviceIsItsLife(s, site, run, addr, None, now);
    var l := LifeAfter(None, s, site, run, addr).value;
    RunConcat(Blank(l.born), before, after, site.period);
    LazyMeterIsExact(Meter.Run(Blank(l.born), before, site.period), i, after, site.period);
  }

  // The operations that concern a device, with their times.
  function OwnOps(s: Manager.State, site: Manager.Site, run: seq<(Manager.Event, real)>, addr: string): seq<Timed>
    decreases |run|
  {
    if run == [] then []
    else
      var op, next := OpFor(s, site, run[0].0, addr), Manager.Step(s, site, run[0].0, run[0].1);
      var rest := OwnOps(next, site, run[1..], addr);
      if op.Some? then [Timed(op.value, run[0].1)] + rest else rest
  }

  predicate NeverCleaned(s: Manager.State, site: Manager.Site, run: seq<(Manager.Event, real)>, addr: string)
    decreases |run|
  {
    run == [] ||
    (!IsCleaned(s, site, run[0].0, run[0].1, addr)
     && NeverCleaned(Manager.Step(s, site, run[0].0, run[0].1), site, run[1..], addr))
  }

  /** Between any two moments of the manager in which it is not cleaned away, a stored device goes through
      its own operations and nothing else. */
  lemma {:induction false} DeviceRunsItsOps(s: Manager.State, site: Manager.Site, run: seq<(Manager.Event, real)>,
                                            addr: string)
    requires addr in s.devices && NeverCleaned(s, site, run, addr)
    ensures Get(Manager.Run(s, site, run).devices, addr)
         == Some(Meter.Run(s.devices[addr], OwnOps(s, site, run, addr), site.period))
    decreases |run|
  {
    if run != [] {
      var e, at := run[0].0, run[0].1;
      var op, next := OpFor(s, site, e, addr), Manager.Step(s, site, e, at);
      StepIsApply(s, site, e, at, addr);
      DeviceRunsItsOps(next, site, run[1..], addr);
      if op.Some? {
        var t := Timed(op.value, at);
        RunConcat(s.devices[addr], [t], OwnOps(next, site, run[1..], addr), site.period);
        assert [t][1..] == [];
      }
    }
  }

  /** A stored device that is inactive keeps its energy through every run of the manager in which its thing
      is not reported active and it is neither reset, removed nor registered. */
  lemma ManagedInactiveDrawsNothing(s: Manager.State, site: Manager.Site, run: seq<(Manager.Event, real)>,
                                    addr: string)
    requires addr in s.devices && !s.devices[addr].active && NeverCleaned(s, site, run, addr)
    requires var ops := OwnOps(s, site, run, addr);
      forall i :: 0 <= i < |ops| ==> LeavesInactive(ops[i].op) && !ops[i].op.Reset?
    ensures var t := Manager.Run(s, site, run);
      addr in t.devices && !t.devices[addr].active && t.devices[addr].energy == s.devices[addr].energy
  {
    DeviceRunsItsOps(s, site, run, addr);
    InactiveDrawsNothing(s.devices[addr], OwnOps(s, site, run, addr), site.period);
  }

  /** And its settings are the ones its own events last gave it. */
  lemma ManagedSettingsAreKept(s: Manager.State, site: Manager.Site, run: seq<(Manager.Event, real)>, addr: string)
    requires addr in s.devices && NeverCleaned(s, site, run, addr)
    ensures var t := Manager.Run(s, site, run);
      addr in t.devices
      && SettingsOf(t.devices[addr]) == AskedAll(SettingsOf(s.devices[addr]), OwnOps(s, site, run, addr))
  {
    DeviceRunsItsOps(s, site, run, addr);
    SettingsAreKept(s.devices[addr], OwnOps(s, site, run, addr), site.period);
  }

  // Nothing cleans the device within the cleaning period of its last recalculation.
  predicate CleanedInTime(s: Manager.State, site: Manager.Site, run: seq<(Manager.Event, real)>, addr: string)
    decreases |run|
  {
    run == [] ||
    ((run[0].0 == Manager.Cleaning(addr) && addr in s.devices ==> run[0].1 - s.devices[addr].last <= site.cleaning)
     && CleanedInTime(Manager.Step(s, site, run[0].0, run[0].1), site, run[1..], addr))
  }

  /** A device that is brought up to date often enough is never cleaned away, and one that is not is. */
  lemma {:induction false} CleaningSparesTheRecent(s: Manager.State, site: Manager.Site,
                                                   run: seq<(Manager.Event, real)>, addr: string, now: real)
    ensures addr in s.devices && CleanedInTime(s, site, run, addr) ==> addr in Manager.Run(s, site, run).devices
    ensures addr in s.devices && now - s.devices[addr].last > site.cleaning ==>
              addr !in Manager.Step(s, site, Manager.Cleaning(addr), now).devices
    decreases |run|
  {
    if run != [] {
      if addr in s.devices && !IsCleaned(s, site, run[0].0, run[0].1, addr) {
        StepIsApply(s, site, run[0].0, run[0].1, addr);
      }
      CleaningSparesTheRecent(Manager.Step(s, site, run[0].0, run[0].1), site, run[1..], addr, now);
    }
  }
}
