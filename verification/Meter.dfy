/** The virtual electricity meter of one device.

    Energy is integrated lazily: the power since the last recalculation is added up only when the
    device changes or is reported, and one recalculation accounts for at most two periods.  Times
    are in hours, power in watts, energy in kilowatt-hours. */
module Meter {
  type Modes = map<string, real>

  datatype Device = Device(
    modes: Modes,
    mode: string,
    level: real,
    energy: real,
    last: real,           // when the energy was last brought up to date
    unit: string,
    active: bool)

  function Blank(now: real): Device { Device(map[], "", 0.0, 0.0, now, "", false) }

  function PowerOf(modes: Modes, mode: string, level: real): real {
    (if mode in modes then modes[mode] else 0.0) * level
  }

  function Power(d: Device): real { PowerOf(d.modes, d.mode, d.level) }

  function Min(a: real, b: real): real { if a < b then a else b }

  // Power drawn for a time, in kilowatt-hours.
  function Energy(power: real, hours: real): real { hours * power / 1000.0 }

  predicate Recalculates(d: Device, force: bool, now: real, period: real) {
    d.active && (force || now - d.last >= period)
  }

  function Recalculated(d: Device, force: bool, now: real, period: real): Device {
    if !Recalculates(d, force, now, period) then d
    else d.(energy := d.energy + Energy(Power(d), Min(now - d.last, 2.0 * period)), last := now)
  }

  datatype Op =
    | Update(mode: string, level: real)
    | Report
    | Reset
    | Add(modes: Modes, unit: string)
    | Remove
    | Register
    | SetActive(active: bool)

  predicate Unchanged(d: Device, mode: string, level: real) {
    d.modes == map[] || (d.mode == mode && d.level == level)
  }

  // Whether an operation brings the energy up to date regardless of the period.
  predicate Forces(d: Device, op: Op) {
    match op
    case Update(mode, level) => !Unchanged(d, mode, level)
    case Add(_, _) => d.modes != map[]
    case _ => false
  }

  function Apply(d: Device, op: Op, now: real, period: real): Device {
    match op
    case Update(mode, level) =>
      if Unchanged(d, mode, level) then d
      else Recalculated(d, true, now, period).(mode := mode, level := level)
    case Report => Recalculated(d, false, now, period)
    case Reset => d.(energy := 0.0, last := now)
    case Add(modes, unit) =>
      (if d.modes != map[] then Recalculated(d, true, now, period) else d).(modes := modes, unit := unit, last := now)
    case Remove => Blank(now)
    case Register => if d.modes != map[] then d else Blank(now)
    case SetActive(active) => d.(active := active)
  }

  // ---------------------------------------------------------------- exactness

  // A meter that integrates all the time.
  datatype Ideal = Ideal(modes: Modes, mode: string, level: real, energy: real, at: real)

  function Advance(i: Ideal, now: real): Ideal {
    i.(energy := i.energy + Energy(PowerOf(i.modes, i.mode, i.level), now - i.at), at := now)
  }

  function ApplyIdeal(i: Ideal, op: Op): Ideal {
    match op
    case Update(mode, level) => if i.modes == map[] then i else i.(mode := mode, level := level)
    case Reset => i.(energy := 0.0)
    case Add(modes, _) => i.(modes := modes)
    case _ => i
  }

  // An operation at a time.
  datatype Timed = Timed(op: Op, at: real)

  // While a device stays active it sees no removal, re-registration or change of activity.
  predicate IsMetering(op: Op) { op.Update? || op.Report? || op.Reset? || op.Add? }

  // If the operation brings the energy up to date, it does so within two periods of the last time.
  predicate Timely(d: Device, t: Timed, period: real) {
    Forces(d, t.op) || (t.op.Report? && t.at - d.last >= period) ==> t.at - d.last <= 2.0 * period
  }

  // The lazy meter plus what it has not accounted for yet is the ideal one.
  predicate Refines(d: Device, i: Ideal) {
    && d.active && d.last <= i.at
    && d.modes == i.modes && d.mode == i.mode && d.level == i.level
    && d.energy + Energy(Power(d), i.at - d.last) == i.energy
  }

  lemma EnergyAdds(power: real, a: real, b: real)
    ensures Energy(power, a + b) == Energy(power, a) + Energy(power, b)
  {
  }

  lemma AdvanceRefines(d: Device, i: Ideal, now: real)
    requires Refines(d, i) && i.at <= now
    ensures Refines(d, Advance(i, now))
  {
    EnergyAdds(Power(d), i.at - d.last, now - i.at);
    assert (i.at - d.last) + (now - i.at) == now - d.last;
  }

  lemma RecalculatedRefines(d: Device, i: Ideal, force: bool, period: real)
    requires Refines(d, i)
    requires Recalculates(d, force, i.at, period) ==> i.at - d.last <= 2.0 * period
    ensures Refines(Recalculated(d, force, i.at, period), i)
    ensures Recalculates(d, force, i.at, period) ==> Recalculated(d, force, i.at, period).energy == i.energy
  {
  }

  lemma ApplyRefines(d: Device, i: Ideal, op: Op, period: real)
    requires Refines(d, i) && IsMetering(op) && Timely(d, Timed(op, i.at), period)
    ensures Refines(Apply(d, op, i.at, period), ApplyIdeal(i, op))
  {
    match op
    case Update(_, _) =>
      if Forces(d, op) {
        RecalculatedRefines(d, i, true, period);
      }
    case Report => RecalculatedRefines(d, i, false, period);
    case Reset =>
    case Add(_, _) =>
      if Forces(d, op) {
        RecalculatedRefines(d, i, true, period);
      } else {
        assert Power(d) == 0.0;
      }
  }

  function Run(d: Device, run: seq<Timed>, period: real): Device
    decreases |run|
  {
    if run == [] then d else Run(Apply(d, run[0].op, run[0].at, period), run[1..], period)
  }

  function RunIdeal(i: Ideal, run: seq<Timed>): Ideal
    decreases |run|
  {
    if run == [] then i else RunIdeal(ApplyIdeal(Advance(i, run[0].at), run[0].op), run[1..])
  }

  ghost predicate AllTimely(d: Device, run: seq<Timed>, period: real)
    decreases |run|
  {
    run == [] ||
    (IsMetering(run[0].op) && Timely(d, run[0], period) &&
     AllTimely(Apply(d, run[0].op, run[0].at, period), run[1..], period))
  }

  predicate InOrder(from: real, run: seq<Timed>)
    decreases |run|
  {
    run == [] || (from <= run[0].at && InOrder(run[0].at, run[1..]))
  }

  /** For an active device whose energy is brought up to date at gaps of at most two periods, the
      stored energy plus the current power since then is exactly the integral of the power since the
      last reset, over every run of updates, reports, resets and changes of modes. */
  lemma {:induction false} LazyMeterIsExact(d: Device, i: Ideal, run: seq<Timed>, period: real)
    requires Refines(d, i) && InOrder(i.at, run) && AllTimely(d, run, period)
    ensures Refines(Run(d, run, period), RunIdeal(i, run))
    decreases |run|
  {
    if run != [] {
      var now := Advance(i, run[0].at);
      AdvanceRefines(d, i, run[0].at);
      ApplyRefines(d, now, run[0].op, period);
      LazyMeterIsExact(Apply(d, run[0].op, run[0].at, period), ApplyIdeal(now, run[0].op), run[1..], period);
    }
  }

  /** One recalculation is exact if and only if it comes within two periods or no power was drawn. */
  lemma RecalculationIsExactIff(d: Device, now: real, period: real)
    requires d.active
    ensures Recalculated(d, true, now, period).energy == d.energy + Energy(Power(d), now - d.last)
       <==> now - d.last <= 2.0 * period || Power(d) == 0.0
  {
    if now - d.last > 2.0 * period {
      var gap := now - d.last - 2.0 * period;
      EnergyAdds(Power(d), 2.0 * period, gap);
      assert 2.0 * period + gap == now - d.last;
      assert Energy(Power(d), gap) == 0.0 <==> Power(d) == 0.0;
    }
  }

  // ---------------------------------------------------------------- the bound that always holds

  // The operation makes the energy start again from zero.
  predicate Clears(d: Device, op: Op) {
    op.Reset? || op.Remove? || (op.Register? && d.modes == map[])
  }

  predicate NonNegative(d: Device) {
    d.level >= 0.0 && forall m :: m in d.modes ==> d.modes[m] >= 0.0
  }

  predicate NonNegativeOp(op: Op) {
    match op
    case Update(_, level) => level >= 0.0
    case Add(modes, _) => forall m :: m in modes ==> modes[m] >= 0.0
    case _ => true
  }

  function Max(a: real, b: real): real { if a < b then b else a }

  // The largest power drawn since the energy was last cleared, given the one before the run.
  function PeakSince(d: Device, peak: real, run: seq<Timed>, period: real): real
    decreases |run|
  {
    if run == [] then peak
    else
      var e := Apply(d, run[0].op, run[0].at, period);
      PeakSince(e, if Clears(d, run[0].op) then Power(e) else Max(peak, Power(e)), run[1..], period)
  }

  // When the energy last started from zero, given that it did so at `since` before the run.
  function Since(d: Device, since: real, run: seq<Timed>, period: real): real
    decreases |run|
  {
    if run == [] then since
    else Since(Apply(d, run[0].op, run[0].at, period),
               if Clears(d, run[0].op) then run[0].at else since, run[1..], period)
  }

  // No more energy is stored than the given power draws from `since` to the last recalculation.
  predicate Bounded(d: Device, power: real, since: real) {
    since <= d.last && d.energy <= Energy(power, d.last - since)
  }

  lemma EnergyMonotone(power: real, peak: real, a: real, b: real)
    requires 0.0 <= power <= peak && 0.0 <= a <= b
    ensures 0.0 <= Energy(power, a) <= Energy(peak, b)
  {
    assert a * power <= b * power <= b * peak;
  }

  lemma PowerIsNonNegative(d: Device)
    requires NonNegative(d)
    ensures Power(d) >= 0.0
  {
  }

  lemma RecalculatedIsBounded(d: Device, peak: real, since: real, force: bool, now: real, period: real)
    requires NonNegative(d) && Power(d) <= peak && Bounded(d, peak, since) && d.last <= now && period >= 0.0
    ensures Bounded(Recalculated(d, force, now, period), peak, since)
    ensures Recalculated(d, force, now, period).energy >= d.energy
  {
    PowerIsNonNegative(d);
    var counted := Min(now - d.last, 2.0 * period);
    EnergyMonotone(Power(d), peak, counted, now - d.last);
    EnergyAdds(peak, d.last - since, now - d.last);
    assert (d.last - since) + (now - d.last) == now - since;
  }

  lemma ApplyIsBounded(d: Device, peak: real, since: real, op: Op, now: real, period: real)
    requires NonNegative(d) && Power(d) <= peak && Bounded(d, peak, since) && d.last <= now && period >= 0.0
    requires NonNegativeOp(op)
    ensures var e := Apply(d, op, now, period);
      && NonNegative(e) && e.last <= now
      && Bounded(e, peak, if Clears(d, op) then now else since)
      && (!Clears(d, op) ==> e.energy >= d.energy)
  {
    PowerIsNonNegative(d);
    RecalculatedIsBounded(d, peak, since, true, now, period);
    RecalculatedIsBounded(d, peak, since, false, now, period);
    EnergyMonotone(peak, peak, d.last - since, now - since);
  }

  lemma {:induction false} RunIsBounded(d: Device, peak: real, since: real, now: real, run: seq<Timed>, period: real)
    requires NonNegative(d) && Power(d) <= peak && Bounded(d, peak, since) && d.last <= now
    requires InOrder(now, run) && period >= 0.0
    requires forall i :: 0 <= i < |run| ==> NonNegativeOp(run[i].op)
    ensures var e, top := Run(d, run, period), PeakSince(d, peak, run, period);
      top >= 0.0 && Bounded(e, top, Since(d, since, run, period)) && e.last <= EndOf(now, run)
    decreases |run|
  {
    PowerIsNonNegative(d);
    if run != [] {
      var t := run[0];
      var e := Apply(d, t.op, t.at, period);
      ApplyIsBounded(d, peak, since, t.op, t.at, period);
      PowerIsNonNegative(e);
      if Clears(d, t.op) {
        RunIsBounded(e, Power(e), t.at, t.at, run[1..], period);
      } else {
        EnergyMonotone(peak, Max(peak, Power(e)), e.last - since, e.last - since);
        RunIsBounded(e, Max(peak, Power(e)), since, t.at, run[1..], period);
      }
    }
  }

  function EndOf(now: real, run: seq<Timed>): real { if run == [] then now else run[|run| - 1].at }

  /** In every run, outages and inactive spells included, the stored energy never exceeds the peak
      power since it was last cleared over the time since then. */
  lemma EnergyNeverExceedsPeak(now: real, run: seq<Timed>, period: real)
    requires InOrder(now, run) && period >= 0.0
    requires forall i :: 0 <= i < |run| ==> NonNegativeOp(run[i].op)
    ensures var d := Blank(now);
      Run(d, run, period).energy
      <= Energy(PeakSince(d, Power(d), run, period), EndOf(now, run) - Since(d, now, run, period))
  {
    var d := Blank(now);
    var peak, since := PeakSince(d, Power(d), run, period), Since(d, now, run, period);
    RunIsBounded(d, Power(d), now, now, run, period);
    EnergyMonotone(peak, peak, Run(d, run, period).last - since, EndOf(now, run) - since);
  }

  /** Stored energy falls only when it is cleared: by a reset, a removal or a registration that finds
      no modes. */
  lemma {:induction false} EnergyFallsOnlyWhenCleared(now: real, before: seq<Timed>, t: Timed, period: real)
    requires InOrder(now, before + [t]) && period >= 0.0
    requires forall i :: 0 <= i < |before| ==> NonNegativeOp(before[i].op)
    requires NonNegativeOp(t.op)
    ensures var d := Run(Blank(now), before, period);
      Apply(d, t.op, t.at, period).energy < d.energy ==> Clears(d, t.op)
  {
    StaysNonNegative(Blank(now), now, before, t, period);
    var d := Run(Blank(now), before, period);
    PowerIsNonNegative(d);
    var counted := Min(t.at - d.last, 2.0 * period);
    EnergyMonotone(Power(d), Power(d), counted, counted);
  }

  lemma {:induction false} StaysNonNegative(d: Device, now: real, run: seq<Timed>, t: Timed, period: real)
    requires NonNegative(d) && d.last <= now && InOrder(now, run + [t])
    requires forall i :: 0 <= i < |run| ==> NonNegativeOp(run[i].op)
    ensures NonNegative(Run(d, run, period)) && Run(d, run, period).last <= t.at
    decreases |run|
  {
    if run == [] {
      assert run + [t] == [t];
    } else {
      assert (run + [t])[1..] == run[1..] + [t];
      StaysNonNegative(Apply(d, run[0].op, run[0].at, period), run[0].at, run[1..], t, period);
    }
  }

  // ---------------------------------------------------------------- inactive devices

  predicate Activates(op: Op) { op.SetActive? && op.active }

  // Neither activated nor made anew.
  predicate LeavesInactive(op: Op) { !Activates(op) && !op.Remove? && !op.Register? }

  // Updates, reports and further deactivations.
  predicate IsPassive(op: Op) { op.Update? || op.Report? || op.SetActive? }

  /** An inactive device draws nothing: through every run without an activation or a clearing operation its
      stored energy stays what it is, and through updates and reports so does the time it was last
      brought up to date. */
  lemma {:induction false} InactiveDrawsNothing(d: Device, run: seq<Timed>, period: real)
    requires !d.active
    requires forall i :: 0 <= i < |run| ==> LeavesInactive(run[i].op) && !run[i].op.Reset?
    ensures var e := Run(d, run, period);
      && !e.active && e.energy == d.energy
      && ((forall i :: 0 <= i < |run| ==> IsPassive(run[i].op)) ==> e.last == d.last)
    decreases |run|
  {
    if run != [] {
      InactiveDrawsNothing(Apply(d, run[0].op, run[0].at, period), run[1..], period);
    }
  }

  /** A device that was just created or removed stores nothing until it is activated. */
  lemma {:induction false} BlankStoresNothing(d: Device, run: seq<Timed>, period: real)
    requires !d.active && d.energy == 0.0 && forall i :: 0 <= i < |run| ==> !Activates(run[i].op)
    ensures var e := Run(d, run, period); !e.active && e.energy == 0.0
    decreases |run|
  {
    if run != [] {
      BlankStoresNothing(Apply(d, run[0].op, run[0].at, period), run[1..], period);
    }
  }

  lemma ClearedStoresNothing(d: Device, op: Op, now: real, run: seq<Timed>, period: real)
    requires op.Remove? || (op.Register? && d.modes == map[])
    requires forall i :: 0 <= i < |run| ==> !Activates(run[i].op)
    ensures var e := Run(Apply(d, op, now, period), run, period); !e.active && e.energy == 0.0
    ensures Apply(d, op, now, period).modes == map[] && Apply(d, op, now, period).last == now
  {
    BlankStoresNothing(Apply(d, op, now, period), run, period);
  }

  /** But activating a device does not bring it up to date: the first recalculation counts the inactive spell
      before it, up to two periods, if and only if the device then draws power. */
  lemma InactiveSpellIsCountedIff(d: Device, from: real, now: real, period: real)
    requires !d.active && d.last < from <= now && period > 0.0
    ensures var e := Recalculated(Apply(d, SetActive(true), from, period), true, now, period);
      e.energy == d.energy <==> Power(d) == 0.0
  {
    var hours := Min(now - d.last, 2.0 * period);
    assert hours > 0.0;
    assert Energy(Power(d), hours) == 0.0 <==> Power(d) == 0.0;
  }

  // ---------------------------------------------------------------- what a device was given

  /** A steady load is counted as it is: watts of the mode, none for a mode the device was not given, times
      level times hours, in thousands. */
  lemma SteadyLoad(d: Device, mode: string, level: real, from: real, to: real, period: real)
    requires d.active && d.modes != map[] && (d.mode != mode || d.level != level)
    requires period <= to - from <= 2.0 * period
    ensures var e := Apply(d, Update(mode, level), from, period);
      var f, watts := Apply(e, Report, to, period), if mode in d.modes then d.modes[mode] * level else 0.0;
      f.last == to && Power(f) == watts && f.energy == e.energy + watts * (to - from) / 1000.0
  {
    var watts, hours := if mode in d.modes then d.modes[mode] * level else 0.0, to - from;
    assert hours * watts == watts * hours;
  }

  /** A report changes nothing within a period of the last recalculation. */
  lemma {:induction false} ReportsAreThrottled(d: Device, run: seq<Timed>, period: real)
    requires forall i :: 0 <= i < |run| ==> run[i].op.Report? && run[i].at - d.last < period
    ensures Run(d, run, period) == d
    decreases |run|
  {
    if run != [] {
      ReportsAreThrottled(d, run[1..], period);
    }
  }

  // The settings of a device.
  datatype Settings = Settings(modes: Modes, unit: string, mode: string, level: real, active: bool)

  function SettingsOf(d: Device): Settings { Settings(d.modes, d.unit, d.mode, d.level, d.active) }

  const BLANK: Settings := Settings(map[], "", "", 0.0, false)

  // What an operation asks for; a device without modes takes no updates and is made anew when registered.
  function Asked(a: Settings, op: Op): Settings {
    match op
    case Update(mode, level) => if a.modes == map[] then a else a.(mode := mode, level := level)
    case Add(modes, unit) => a.(modes := modes, unit := unit)
    case Remove => BLANK
    case Register => if a.modes == map[] then BLANK else a
    case SetActive(active) => a.(active := active)
    case _ => a
  }

  function AskedAll(a: Settings, run: seq<Timed>): Settings
    decreases |run|
  {
    if run == [] then a else AskedAll(Asked(a, run[0].op), run[1..])
  }

  /** Whatever is recalculated in between, a device's modes, unit, mode, level and activity are those it was
      last given. */
  lemma {:induction false} SettingsAreKept(d: Device, run: seq<Timed>, period: real)
    ensures SettingsOf(Run(d, run, period)) == AskedAll(SettingsOf(d), run)
    decreases |run|
  {
    if run != [] {
      SettingsAreKept(Apply(d, run[0].op, run[0].at, period), run[1..], period);
    }
  }
}
