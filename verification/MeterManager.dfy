/** The manager of virtual meters: stored devices, service templates and the things they appear on.

    A device is known by its service address.  Its virtual meter service is on the thing it was
    registered for; the numeric meter service joins that thing when the device is given modes and
    leaves it when they are removed. */
module MeterManager {
  import opened Wrappers
  import opened Things
  import Lookup
  import opened Meter

  const VIRTUAL_METER := "virtual_meter_elec"
  const NUMERIC_METER := "meter_elec"

  // The adapter the topics are built for, and the periods of recalculation and of garbage cleaning.
  datatype Site = Site(rn: string, ad: string, period: real, cleaning: real) {
    function VirtualTopic(addr: string): string { Topic(rn, ad, VIRTUAL_METER, addr) }

    function MeterTopic(addr: string): string { Topic(rn, ad, NUMERIC_METER, addr) }
  }

  function SitePrefix(site: Site): string { "/rt:dev/rn:" + site.rn + "/ad:" + site.ad + "/sv:" }

  lemma TopicsAreDistinct(site: Site, a: string, b: string)
    ensures site.VirtualTopic(a) == site.VirtualTopic(b) ==> a == b
    ensures site.MeterTopic(a) == site.MeterTopic(b) ==> a == b
    ensures site.VirtualTopic(a) != site.MeterTopic(b)
  {
    var n := |SitePrefix(site)|;
    assert site.VirtualTopic(a)[n] == 'v' && site.MeterTopic(b)[n] == 'm';
    var v, m := n + |VIRTUAL_METER| + 4, n + |NUMERIC_METER| + 4;
    assert site.VirtualTopic(a)[v..] == a && site.VirtualTopic(b)[v..] == b;
    assert site.MeterTopic(a)[m..] == a && site.MeterTopic(b)[m..] == b;
  }

  lemma AllTopicsAreDistinct(site: Site)
    ensures forall a, b :: site.VirtualTopic(a) == site.VirtualTopic(b) ==> a == b
    ensures forall a, b :: site.MeterTopic(a) == site.MeterTopic(b) ==> a == b
    ensures forall a, b :: site.VirtualTopic(a) != site.MeterTopic(b)
  {
    forall a, b
      ensures site.VirtualTopic(a) == site.VirtualTopic(b) ==> a == b
      ensures site.MeterTopic(a) == site.MeterTopic(b) ==> a == b
      ensures site.VirtualTopic(a) != site.MeterTopic(b)
    {
      TopicsAreDistinct(site, a, b);
    }
  }

  lemma TopicsHaveFiveSegments(site: Site, addr: string)
    requires SlashFree(site.rn) && SlashFree(site.ad) && SlashFree(addr)
    ensures HasFiveSegments(site.VirtualTopic(addr)) && HasFiveSegments(site.MeterTopic(addr))
  {
    TopicCounts(site.rn, site.ad, VIRTUAL_METER, addr);
    TopicCounts(site.rn, site.ad, NUMERIC_METER, addr);
  }

  type Topics = set<string>

  datatype State = State(
    devices: map<string, Device>,   // in the database
    templates: set<string>,         // devices with a numeric meter service ready to be added
    things: map<string, Topics>)    // the topics of the services of each thing, by its address

  predicate Carries(s: State, thing: string, topic: string) { thing in s.things && topic in s.things[thing] }

  predicate HasModes(s: State, addr: string) { addr in s.devices && s.devices[addr].modes != map[] }

  function Indexed(s: State, thing: string, topics: Topics): State { s.(things := s.things[thing := topics]) }

  // ---------------------------------------------------------------- the operations

  predicate Matches(topics: Topics, message: string) { exists t :: t in topics && IsSuffix(t, message) }

  // What looking a thing up by topic may answer: any thing with a matching service, none only if there is none.
  predicate IsAnswer(s: State, message: string, at: Option<string>) {
    match at
    case Some(thing) => thing in s.things && Matches(s.things[thing], message)
    case None => forall thing :: thing in s.things ==> !Matches(s.things[thing], message)
  }

  // The numeric meter service is kept ready, and added at once for a stored device with modes.
  function AfterTemplate(s: State, site: Site, thing: string, addr: string, now: real): State
    requires thing in s.things
  {
    var t := s.(templates := s.templates + {addr});
    if HasModes(s, addr) then
      Indexed(t, thing, s.things[thing] + {site.MeterTopic(addr)})
    else
      t.(devices := s.devices[addr := Blank(now)])
  }

  function AfterRegister(s: State, site: Site, thing: string, addr: string, now: real): State {
    if thing !in s.things || site.VirtualTopic(addr) in s.things[thing] then s
    else
      var t := Indexed(s, thing, s.things[thing] + {site.VirtualTopic(addr)});
      AfterTemplate(t, site, thing, addr, now)
  }

  predicate CanAdd(s: State, addr: string, at: Option<string>) {
    addr in s.templates && at.Some? && at.value in s.things && addr in s.devices
  }

  // The service is added only to a device that had no modes.
  function AddedAt(s: State, site: Site, addr: string, at: string, d: Device): State
    requires addr in s.devices && at in s.things
  {
    var t := s.(devices := s.devices[addr := d]);
    if HasModes(s, addr) then t else Indexed(t, at, s.things[at] + {site.MeterTopic(addr)})
  }

  function AfterAdd(s: State, site: Site, addr: string, at: Option<string>, modes: Modes, unit: string, now: real)
    : State
  {
    if !CanAdd(s, addr, at) then s
    else AddedAt(s, site, addr, at.value, Apply(s.devices[addr], Add(modes, unit), now, site.period))
  }

  predicate CanRemove(s: State, addr: string, at: Option<string>) {
    addr in s.templates && at.Some? && at.value in s.things
  }

  // The device is blanked whether or not there is one.
  function RemovedAt(s: State, site: Site, addr: string, at: string, now: real): State
    requires at in s.things
  {
    Indexed(s.(devices := s.devices[addr := Blank(now)]), at, s.things[at] - {site.MeterTopic(addr)})
  }

  function AfterRemove(s: State, site: Site, addr: string, at: Option<string>, now: real): State {
    if CanRemove(s, addr, at) then RemovedAt(s, site, addr, at.value, now) else s
  }

  // Updates, reports and resets touch the stored device only.
  predicate IsMeterOp(op: Op) { op.Update? || op.Report? || op.Reset? }

  function AfterMetering(s: State, site: Site, addr: string, op: Op, now: real): State {
    if addr !in s.devices || !IsMeterOp(op) then s
    else s.(devices := s.devices[addr := Apply(s.devices[addr], op, now, site.period)])
  }

  // A device whose virtual meter service is on the thing.
  predicate IsMetered(s: State, site: Site, thing: string, addr: string) {
    addr in s.templates && Carries(s, thing, site.VirtualTopic(addr))
  }

  // The devices once the given ones are active or inactive.
  function Activated(devices: map<string, Device>, metered: set<string>, active: bool): map<string, Device> {
    map a | a in devices :: if a in metered then devices[a].(active := active) else devices[a]
  }

  function Metered(s: State, site: Site, thing: string): set<string> {
    set a | a in s.templates && IsMetered(s, site, thing, a)
  }

  // Every metered device of the thing becomes active or inactive.
  function AfterActivity(s: State, site: Site, thing: string, active: bool): State {
    s.(devices := Activated(s.devices, Metered(s, site, thing), active))
  }

  predicate IsStale(s: State, site: Site, addr: string, now: real) {
    addr in s.devices && now - s.devices[addr].last > site.cleaning
  }

  function AfterCleaning(s: State, site: Site, addr: string, now: real): State {
    if IsStale(s, site, addr, now) then s.(devices := s.devices - {addr}) else s
  }

  datatype Event =
    | RegisterThing(thing: string, addr: string)
    | AddMeter(addr: string, at: Option<string>, modes: Modes, unit: string)
    | RemoveMeter(addr: string, at: Option<string>)
    | Metering(addr: string, op: Op)
    | Activity(thing: string, active: bool)
    | Cleaning(addr: string)
    | NewThing(thing: string, topics: Topics)      // made by the factory
    | DropThing(thing: string)
    | Restart

  function Step(s: State, site: Site, e: Event, now: real): State {
    match e
    case RegisterThing(thing, addr) => AfterRegister(s, site, thing, addr, now)
    case AddMeter(addr, at, modes, unit) => AfterAdd(s, site, addr, at, modes, unit, now)
    case RemoveMeter(addr, at) => AfterRemove(s, site, addr, at, now)
    case Metering(addr, op) => AfterMetering(s, site, addr, op, now)
    case Activity(thing, active) => AfterActivity(s, site, thing, active)
    case Cleaning(addr) => AfterCleaning(s, site, addr, now)
    case NewThing(thing, topics) => Indexed(s, thing, topics)
    case DropThing(thing) => s.(things := s.things - {thing})
    case Restart => s.(things := map[], templates := {})
  }

  datatype Unit = Watts | KilowattHours | OtherUnit

  /** The manager object. */
  class Manager {
    var devices: map<string, Device>
    var templates: set<string>
    var things: map<string, Thing>
    const site: Site

    constructor (site: Site, devices: map<string, Device>, things: map<string, Thing>)
      ensures this.site == site && this.things == things
      ensures this.devices == devices && templates == {}
    {
      this.site, this.devices, this.things := site, devices, things;
      templates := {};
    }

    // Index and report of every thing agree, and it is kept under its address.
    ghost predicate Valid()
      reads this`things, things.Values
    {
      forall a :: a in things ==> things[a].Valid() && things[a].address == a
    }

    ghost function TopicsOfThings(): map<string, Topics>
      reads this`things, things.Values
    {
      map a | a in things :: things[a].services.Keys
    }

    ghost function View(): State
      reads this, things.Values
    {
      State(devices, templates, TopicsOfThings())
    }

    method AddService(at: string, s: Service)
      requires Valid() && at in things
      modifies things[at]
      ensures Valid() && View() == Indexed(old(View()), at, old(View()).things[at] + {s.topic})
    {
      things[at].AddService(s);
      assert View().things[at] == old(View()).things[at] + {s.topic};
    }

    method RemoveService(at: string, s: Service)
      requires Valid() && at in things
      modifies things[at]
      ensures Valid() && View() == Indexed(old(View()), at, old(View()).things[at] - {s.topic})
    {
      things[at].RemoveService(s);
      assert View().things[at] == old(View()).things[at] - {s.topic};
    }

    method AddTemplate(at: string, addr: string, now: real)
      requires Valid() && at in things
      modifies this`devices, this`templates, things[at]
      ensures Valid() && View() == AfterTemplate(old(View()), site, at, addr, now)
    {
      templates := templates + {addr};
      if addr in devices && devices[addr].modes != map[] {
        AddService(at, Service(site.MeterTopic(addr), NUMERIC_METER));
      } else {
        devices := devices[addr := Blank(now)];
      }
    }

    method RegisterVirtualServices(at: string, addr: string, now: real)
      requires Valid() && at in things
      modifies this`devices, this`templates, things[at]
      ensures Valid() && View() == AfterRegister(old(View()), site, at, addr, now)
    {
      if site.VirtualTopic(addr) !in things[at].services {
        AddService(at, Service(site.VirtualTopic(addr), VIRTUAL_METER));
        AddTemplate(at, addr, now);
      }
    }

    method RecalculateEnergy(force: bool, d: Device, now: real) returns (updated: bool, e: Device)
      ensures e == Recalculated(d, force, now, site.period)
      ensures updated <==> Recalculates(d, force, now, site.period)
    {
      if !d.active || (!force && now - d.last < site.period) {
        return false, d;
      }
      var hours := Min(now - d.last, 2.0 * site.period);
      var increase := hours * (if d.mode in d.modes then d.modes[d.mode] else 0.0) * d.level;
      increase := increase / 1000.0;
      return true, d.(energy := d.energy + increase, last := now);
    }

    // The adapter's lookup, over its things in any order.
    method ThingByTopic(topic: string) returns (at: Option<string>)
      requires Valid()
      ensures IsAnswer(View(), topic, at)
    {
      var found, _, _ := Lookup.ThingByTopic(things, topic);
      at := found;
      assert forall a :: a in things ==> Lookup.Indexes(things)[a].Keys == View().things[a];
      assert forall a :: a in things && Lookup.Matches(Lookup.Indexes(things)[a], topic) <==>
               a in things && Matches(View().things[a], topic);
    }

    method WithModes(d: Device, modes: Modes, unit: string, now: real) returns (e: Device)
      ensures e == Apply(d, Add(modes, unit), now, site.period)
    {
      e := d;
      if d.modes != map[] {
        var _, r := RecalculateEnergy(true, d, now);
        e := r;
      }
      e := e.(modes := modes, unit := unit, last := now);
    }

    method AddAt(addr: string, at: string, d: Device)
      requires Valid() && addr in devices && at in things
      modifies this`devices, things[at]
      ensures Valid() && View() == AddedAt(old(View()), site, addr, at, d)
    {
      var initialised := devices[addr].modes != map[];
      devices := devices[addr := d];
      if !initialised {
        AddService(at, Service(site.MeterTopic(addr), NUMERIC_METER));
      }
    }

    method AddMeter(addr: string, modes: Modes, unit: string, now: real) returns (ok: bool, at: Option<string>)
      requires Valid()
      modifies this`devices, things.Values
      ensures addr in templates ==> IsAnswer(old(View()), site.VirtualTopic(addr), at)
      ensures Valid() && View() == AfterAdd(old(View()), site, addr, at, modes, unit, now)
      ensures ok <==> CanAdd(old(View()), addr, at)
    {
      if addr !in templates {
        return false, None;
      }
      at := ThingByTopic(site.VirtualTopic(addr));
      if at.None? || addr !in devices {
        return false, at;
      }
      var d := WithModes(devices[addr], modes, unit, now);
      AddAt(addr, at.value, d);
      return true, at;
    }

    method RemoveAt(addr: string, at: string, now: real)
      requires Valid() && at in things
      modifies this`devices, things[at]
      ensures Valid() && View() == RemovedAt(old(View()), site, addr, at, now)
    {
      devices := devices[addr := Blank(now)];
      RemoveService(at, Service(site.MeterTopic(addr), NUMERIC_METER));
    }

    method RemoveMeter(addr: string, now: real) returns (ok: bool, at: Option<string>)
      requires Valid()
      modifies this`devices, things.Values
      ensures addr in templates ==> IsAnswer(old(View()), site.VirtualTopic(addr), at)
      ensures Valid() && View() == AfterRemove(old(View()), site, addr, at, now)
      ensures ok <==> CanRemove(old(View()), addr, at)
    {
      if addr !in templates {
        return false, None;
      }
      at := ThingByTopic(site.VirtualTopic(addr));
      if at.None? {
        return false, at;
      }
      RemoveAt(addr, at.value, now);
      return true, at;
    }

    method UpdateMeter(addr: string, mode: string, level: real, now: real) returns (ok: bool)
      modifies this`devices
      ensures View() == AfterMetering(old(View()), site, addr, Update(mode, level), now)
      ensures ok <==> addr in devices
    {
      if addr !in devices {
        return false;
      }
      var d := devices[addr];
      if d.modes == map[] || (d.mode == mode && d.level == level) {
        assert devices == devices[addr := d];
        return true;
      }
      var _, e := RecalculateEnergy(true, d, now);
      devices := devices[addr := e.(mode := mode, level := level)];
      return true;
    }

    // A report in an unknown unit fails, but only after bringing the energy up to date.
    method ReportMeter(addr: string, unit: Unit, now: real) returns (value: Option<real>)
      modifies this`devices
      ensures View() == AfterMetering(old(View()), site, addr, Report, now)
      ensures value.None? <==> addr !in devices || unit.OtherUnit?
      ensures value.Some? ==> value.value == if unit.Watts? then Power(devices[addr]) else devices[addr].energy
    {
      if addr !in devices {
        return None;
      }
      var updated, d := RecalculateEnergy(false, devices[addr], now);
      if updated {
        devices := devices[addr := d];
      }
      var power := (if d.mode in d.modes then d.modes[d.mode] else 0.0) * d.level;
      assert power == Power(d);
      value := match unit case Watts => Some(power) case KilowattHours => Some(d.energy) case OtherUnit => None;
      assert devices == old(devices)[addr := d] && devices[addr] == d;
    }

    method ResetMeter(addr: string, now: real) returns (ok: bool)
      modifies this`devices
      ensures View() == AfterMetering(old(View()), site, addr, Reset, now)
      ensures ok <==> addr in devices
    {
      if addr !in devices {
        return false;
      }
      devices := devices[addr := devices[addr].(energy := 0.0, last := now)];
      return true;
    }

    // Whether the meter is in use makes no difference.
    method DeleteDeviceEntry(addr: string, now: real) returns (ok: bool)
      modifies this`devices
      ensures View() == AfterCleaning(old(View()), site, addr, now)
      ensures ok <==> addr in old(devices)
    {
      if addr !in devices {
        return false;
      }
      if now - devices[addr].last > site.cleaning {
        devices := devices - {addr};
      }
      return true;
    }

    // Whatever order the services come in; a device that is missing from the database ends it early,
    // with some of the others done.
    method UpdateDeviceActivity(at: string, active: bool) returns (ok: bool)
      modifies this`devices
      ensures ok <==> at in things && Metered(old(View()), site, at) <= old(devices).Keys
      ensures ok ==> View() == AfterActivity(old(View()), site, at, active)
      ensures devices.Keys == old(devices).Keys
      ensures forall a :: a in devices && devices[a] != old(devices)[a] ==>
                a in Metered(old(View()), site, at) && devices[a] == old(devices)[a].(active := active)
    {
      if at !in things {
        return false;
      }
      ghost var metered := Metered(View(), site, at);
      var left := templates;
      while left != {}
        invariant left <= templates
        invariant metered - left <= devices.Keys
        invariant devices == Activated(old(devices), metered - left, active)
      {
        var a :| a in left;
        assert a in metered <==> site.VirtualTopic(a) in things[at].services;
        if site.VirtualTopic(a) in things[at].services {
          if a !in devices {
            return false;
          }
          if devices[a].active != active {
            devices := devices[a := devices[a].(active := active)];
          }
        }
        left := left - {a};
      }
      return true;
    }
  }

  // ---------------------------------------------------------------- agreement

  // On a thing that carries the virtual meter service of a device, the numeric meter service is
  // there exactly when the stored device has modes; elsewhere it is not there.
  predicate AgreesAt(s: State, site: Site, thing: string, addr: string) {
    thing in s.things ==>
      if site.VirtualTopic(addr) in s.things[thing] then
        && addr in s.templates && addr in s.devices
        && (site.MeterTopic(addr) in s.things[thing] <==> HasModes(s, addr))
      else
        site.MeterTopic(addr) !in s.things[thing]
  }

  ghost predicate Agrees(s: State, site: Site) { forall thing, addr :: AgreesAt(s, site, thing, addr) }

  // No other thing carries the virtual meter service of the device.
  ghost predicate IsOnlyOn(s: State, site: Site, thing: string, addr: string) {
    forall other :: Carries(s, other, site.VirtualTopic(addr)) ==> other == thing
  }

  // Topics have the framework's shape, which lets a topic be looked up.
  ghost predicate WellShaped(s: State, site: Site) {
    && SlashFree(site.rn) && SlashFree(site.ad)
    && (forall addr :: addr in s.templates ==> SlashFree(addr))
    && (forall thing, t :: Carries(s, thing, t) ==> HasFiveSegments(t))
  }

  // Every virtual meter service is on one thing only.
  ghost predicate Unshared(s: State, site: Site) {
    forall thing, addr :: Carries(s, thing, site.VirtualTopic(addr)) ==> IsOnlyOn(s, site, thing, addr)
  }

  ghost predicate Good(s: State, site: Site) { Agrees(s, site) && WellShaped(s, site) && Unshared(s, site) }

  // Looking up a virtual topic finds a thing that carries exactly that topic.
  lemma AnswerCarries(s: State, site: Site, addr: string, at: Option<string>)
    requires WellShaped(s, site) && addr in s.templates
    requires IsAnswer(s, site.VirtualTopic(addr), at)
    ensures at.Some? ==> Carries(s, at.value, site.VirtualTopic(addr))
    ensures at.None? ==> forall thing :: !Carries(s, thing, site.VirtualTopic(addr))
  {
    var topic := site.VirtualTopic(addr);
    TopicsHaveFiveSegments(site, addr);
    match at
    case Some(thing) =>
      var t :| t in s.things[thing] && IsSuffix(t, topic);
      assert Carries(s, thing, t);
      AtMostOneSuffix(t, topic, topic);
    case None =>
      assert IsSuffix(topic, topic);
  }

  // What callers must observe: lookups answer as they may, meters are added with modes, a device is
  // registered on one thing, factories make no virtual services themselves, and no device in use goes stale.
  ghost predicate Allowed(s: State, site: Site, e: Event, now: real) {
    match e
    case RegisterThing(thing, addr) => SlashFree(addr) && IsOnlyOn(s, site, thing, addr)
    case AddMeter(addr, at, modes, _) => IsAnswer(s, site.VirtualTopic(addr), at) && modes != map[]
    case RemoveMeter(addr, at) => IsAnswer(s, site.VirtualTopic(addr), at)
    case Cleaning(addr) =>
      IsStale(s, site, addr, now) ==> forall thing :: !Carries(s, thing, site.VirtualTopic(addr))
    case NewThing(_, topics) =>
      && (forall t :: t in topics ==> HasFiveSegments(t))
      && (forall addr :: site.VirtualTopic(addr) !in topics && site.MeterTopic(addr) !in topics)
    case _ => true
  }

  lemma StepKeepsAgreement(s: State, site: Site, e: Event, now: real)
    requires Good(s, site) && Allowed(s, site, e, now)
    ensures Agrees(Step(s, site, e, now), site)
  {
    AllTopicsAreDistinct(site);
    match e
    case AddMeter(addr, at, modes, unit) =>
      if CanAdd(s, addr, at) {
        AnswerCarries(s, site, addr, at);
        AddAgreesIff(s, site, addr, at.value, modes, unit, now);
      }
    case RemoveMeter(addr, at) =>
      if CanRemove(s, addr, at) {
        AnswerCarries(s, site, addr, at);
        RemoveAgreesIff(s, site, addr, at.value, now);
      }
    case Cleaning(addr) => CleaningAgreesIff(s, site, addr, now);
    case _ =>
      forall thing, addr ensures AgreesAt(Step(s, site, e, now), site, thing, addr) {
        assert AgreesAt(s, site, thing, addr);
      }
  }

  lemma StepKeepsShape(s: State, site: Site, e: Event, now: real)
    requires WellShaped(s, site) && Allowed(s, site, e, now)
    ensures WellShaped(Step(s, site, e, now), site)
  {
    var t := Step(s, site, e, now);
    forall thing, topic | Carries(t, thing, topic) ensures HasFiveSegments(topic) {
      assert Carries(s, thing, topic) ==> HasFiveSegments(topic);
      match e
      case RegisterThing(_, addr) => TopicsHaveFiveSegments(site, addr);
      case AddMeter(addr, _, _, _) =>
        if addr in s.templates {
          TopicsHaveFiveSegments(site, addr);
        }
      case _ =>
    }
  }

  lemma StepKeepsUnshared(s: State, site: Site, e: Event, now: real)
    requires Good(s, site) && Allowed(s, site, e, now)
    ensures Unshared(Step(s, site, e, now), site)
  {
    AllTopicsAreDistinct(site);
    var t := Step(s, site, e, now);
    forall thing, addr, other
      | Carries(t, thing, site.VirtualTopic(addr)) && Carries(t, other, site.VirtualTopic(addr))
      ensures other == thing
    {
      assert Carries(s, thing, site.VirtualTopic(addr)) ==> IsOnlyOn(s, site, thing, addr);
      assert Carries(s, other, site.VirtualTopic(addr)) ==> IsOnlyOn(s, site, other, addr);
    }
  }

  function Run(s: State, site: Site, run: seq<(Event, real)>): State
    decreases |run|
  {
    if run == [] then s else Run(Step(s, site, run[0].0, run[0].1), site, run[1..])
  }

  ghost predicate AllAllowed(s: State, site: Site, run: seq<(Event, real)>)
    decreases |run|
  {
    run == [] || (Allowed(s, site, run[0].0, run[0].1) && AllAllowed(Step(s, site, run[0].0, run[0].1), site, run[1..]))
  }

  /** Over every run of registrations, additions, removals, meter operations, cleaning, new and dropped
      things and restarts, each thing has the numeric meter service of a device exactly when it has its
      virtual meter service and the stored device has modes. */
  lemma {:induction false} ServicesFollowModes(s: State, site: Site, run: seq<(Event, real)>)
    requires Good(s, site) && AllAllowed(s, site, run)
    ensures Good(Run(s, site, run), site)
    decreases |run|
  {
    if run != [] {
      StepKeepsAgreement(s, site, run[0].0, run[0].1);
      StepKeepsShape(s, site, run[0].0, run[0].1);
      StepKeepsUnshared(s, site, run[0].0, run[0].1);
      ServicesFollowModes(Step(s, site, run[0].0, run[0].1), site, run[1..]);
    }
  }

  // ---------------------------------------------------------------- where agreement ends

  /** Adding a meter keeps the agreement if and only if it is added with modes and, for a first meter,
      no other thing has the virtual meter service: the numeric one joins a single thing. */
  lemma AddAgreesIff(s: State, site: Site, addr: string, at: string, modes: Modes, unit: string, now: real)
    requires Agrees(s, site) && Carries(s, at, site.VirtualTopic(addr))
    ensures Agrees(AfterAdd(s, site, addr, Some(at), modes, unit, now), site)
       <==> modes != map[] && (HasModes(s, addr) || IsOnlyOn(s, site, at, addr))
  {
    AllTopicsAreDistinct(site);
    assert AgreesAt(s, site, at, addr);
    var t := AfterAdd(s, site, addr, Some(at), modes, unit, now);
    AppliedModes(s.devices[addr], modes, unit, now, site.period);
    if modes == map[] {
      assert !AgreesAt(t, site, at, addr);
    } else if HasModes(s, addr) || IsOnlyOn(s, site, at, addr) {
      forall thing, a ensures AgreesAt(t, site, thing, a) {
        assert AgreesAt(s, site, thing, a);
        assert Carries(s, thing, site.VirtualTopic(addr)) && !HasModes(s, addr) ==> thing == at;
      }
    } else {
      var other :| Carries(s, other, site.VirtualTopic(addr)) && other != at;
      assert AgreesAt(s, site, other, addr) && !AgreesAt(t, site, other, addr);
    }
  }

  lemma AppliedModes(d: Device, modes: Modes, unit: string, now: real, period: real)
    ensures Apply(d, Add(modes, unit), now, period).modes == modes
  {
  }

  /** Removing one keeps it if and only if there were no modes or no other thing has the virtual meter
      service: the numeric one leaves a single thing. */
  lemma RemoveAgreesIff(s: State, site: Site, addr: string, at: string, now: real)
    requires Agrees(s, site) && Carries(s, at, site.VirtualTopic(addr))
    ensures Agrees(AfterRemove(s, site, addr, Some(at), now), site)
       <==> !HasModes(s, addr) || IsOnlyOn(s, site, at, addr)
  {
    AllTopicsAreDistinct(site);
    assert AgreesAt(s, site, at, addr);
    var t := AfterRemove(s, site, addr, Some(at), now);
    if !HasModes(s, addr) || IsOnlyOn(s, site, at, addr) {
      forall thing, a ensures AgreesAt(t, site, thing, a) {
        assert AgreesAt(s, site, thing, a);
        assert Carries(s, thing, site.VirtualTopic(addr)) && HasModes(s, addr) ==> thing == at;
      }
    } else {
      var other :| Carries(s, other, site.VirtualTopic(addr)) && other != at;
      assert AgreesAt(s, site, other, addr) && !AgreesAt(t, site, other, addr);
    }
  }

  /** Garbage cleaning looks at the age of a device only: it keeps the agreement if and only if the
      device is not stale or no thing has its virtual meter service. */
  lemma CleaningAgreesIff(s: State, site: Site, addr: string, now: real)
    requires Agrees(s, site)
    ensures Agrees(AfterCleaning(s, site, addr, now), site)
       <==> (IsStale(s, site, addr, now) ==> forall thing :: !Carries(s, thing, site.VirtualTopic(addr)))
  {
    AllTopicsAreDistinct(site);
    var t := AfterCleaning(s, site, addr, now);
    if IsStale(s, site, addr, now) && exists thing :: Carries(s, thing, site.VirtualTopic(addr)) {
      var thing :| Carries(s, thing, site.VirtualTopic(addr));
      assert !AgreesAt(t, site, thing, addr);
    } else {
      forall thing, a ensures AgreesAt(t, site, thing, a) {
        assert AgreesAt(s, site, thing, a);
        assert IsStale(s, site, addr, now) ==> !Carries(s, thing, site.VirtualTopic(addr));
      }
    }
  }

  // One device with its virtual meter service on the given things.
  function OneDevice(site: Site, addr: string, d: Device, on: set<string>): State {
    State(map[addr := d], {addr}, map thing | thing in on :: {site.VirtualTopic(addr)})
  }

  lemma OneDeviceAgrees(site: Site, addr: string, d: Device, on: set<string>)
    requires d.modes == map[]
    ensures Agrees(OneDevice(site, addr, d, on), site)
  {
    AllTopicsAreDistinct(site);
    assert !HasModes(OneDevice(site, addr, d, on), addr);
  }

  /** Agreement does end so: a device registered on two things and then given modes, and one that is not
      updated for the cleaning period while it is in use. */
  lemma AgreementCanEnd(site: Site, addr: string, d: Device, a: string, b: string, modes: Modes, unit: string,
                        now: real)
    requires d.modes == map[] && a != b
    ensures var s := OneDevice(site, addr, d, {a, b});
      Agrees(s, site) && !Agrees(AfterAdd(s, site, addr, Some(a), modes, unit, now), site)
    ensures var s := OneDevice(site, addr, d, {a});
      Agrees(s, site) && (now - d.last > site.cleaning ==> !Agrees(AfterCleaning(s, site, addr, now), site))
  {
    var two, one := OneDevice(site, addr, d, {a, b}), OneDevice(site, addr, d, {a});
    OneDeviceAgrees(site, addr, d, {a, b});
    OneDeviceAgrees(site, addr, d, {a});
    assert Carries(two, a, site.VirtualTopic(addr)) && Carries(two, b, site.VirtualTopic(addr));
    AddAgreesIff(two, site, addr, a, modes, unit, now);
    assert Carries(one, a, site.VirtualTopic(addr));
    CleaningAgreesIff(one, site, addr, now);
  }

  // The thing stays, and the device is neither removed nor registered on another thing.
  predicate LeavesMissing(e: Event, thing: string, addr: string) {
    match e
    case RegisterThing(other, a) => a == addr ==> other == thing
    case RemoveMeter(a, _) => a != addr
    case NewThing(other, _) => other != thing
    case DropThing(other) => other != thing
    case Restart => false
    case _ => true
  }

  /** A meter that was cleaned away while its service is on a thing stays gone: registering the thing
      again does not bring it back, so no addition, update, report or reset of it succeeds until it is
      removed, or the thing is made anew. */
  lemma {:induction false} CleanedMeterStaysGone(s: State, site: Site, run: seq<(Event, real)>, thing: string,
                                                 addr: string)
    requires addr !in s.devices && Carries(s, thing, site.VirtualTopic(addr))
    requires forall i :: 0 <= i < |run| ==> LeavesMissing(run[i].0, thing, addr)
    ensures var t := Run(s, site, run);
      addr !in t.devices && Carries(t, thing, site.VirtualTopic(addr)) && forall at :: !CanAdd(t, addr, at)
    decreases |run|
  {
    if run != [] {
      AllTopicsAreDistinct(site);
      CleanedMeterStaysGone(Step(s, site, run[0].0, run[0].1), site, run[1..], thing, addr);
    }
  }

  // ---------------------------------------------------------------- which operations succeed

  /** As long as agreement holds, a meter can be added or removed exactly if some thing has the virtual
      meter service of its device. */
  lemma AddSucceedsIff(s: State, site: Site, addr: string, at: Option<string>)
    requires Agrees(s, site) && WellShaped(s, site) && IsAnswer(s, site.VirtualTopic(addr), at)
    ensures CanAdd(s, addr, at) <==> exists thing :: Carries(s, thing, site.VirtualTopic(addr))
    ensures CanRemove(s, addr, at) <==> CanAdd(s, addr, at)
  {
    if thing :| Carries(s, thing, site.VirtualTopic(addr)) {
      assert AgreesAt(s, site, thing, addr);
    }
    if addr in s.templates {
      AnswerCarries(s, site, addr, at);
      if at.Some? {
        assert AgreesAt(s, site, at.value, addr);
      }
    }
  }

  /** Reporting a thing active or inactive reaches exactly the devices whose virtual meter service it has. */
  lemma ActivityReaches(s: State, site: Site, thing: string, active: bool, addr: string)
    requires Agrees(s, site) && addr in s.devices
    ensures Get(AfterActivity(s, site, thing, active).devices, addr)
         == Some(if Carries(s, thing, site.VirtualTopic(addr)) then s.devices[addr].(active := active)
                 else s.devices[addr])
  {
    assert AgreesAt(s, site, thing, addr);
  }
}
