/** The adapter's persistent state: the address index and the records of things.

    Every operation changes memory and then saves all of it; the save may fail, and the process may
    die before or after it.  A restart loads what is on disk. */
module AdapterState {
  import opened Wrappers
  import opened Saves
  import opened Registry

  datatype Model = Model(addressIndex: nat, records: map<string, Record>)

  datatype Store = Store(memory: Model, disk: Model, running: bool)

  // Memory changes first, then all of memory is saved.
  function Write(s: Store, memory: Model, o: Outcome): Store {
    Store(memory, if Reached(o) then memory else s.disk, !Died(o))
  }

  function AfterAcquire(s: Store, o: Outcome): Store {
    Write(s, s.memory.(addressIndex := s.memory.addressIndex + 1), o)
  }

  // An address is handed out only if the index was saved.
  function Issued(s: Store, o: Outcome): Option<string> {
    if o.Saved? then Some(Itoa(s.memory.addressIndex + 1)) else None
  }

  function AfterAdd(s: Store, id: string, record: Record, o: Outcome): Store {
    Write(s, s.memory.(records := s.memory.records[id := record]), o)
  }

  function AfterRemove(s: Store, id: string, o: Outcome): Store {
    Write(s, s.memory.(records := s.memory.records - {id}), o)
  }

  function AfterLoad(s: Store): Store { Store(s.disk, s.disk, true) }

  /** The state object on its storage. */
  class StateFile {
    var memory: Model
    var disk: Model
    var running: bool

    constructor (disk: Model)
      ensures View() == Store(disk, disk, true)
    {
      memory, this.disk, running := disk, disk, true;
    }

    ghost function View(): Store
      reads this
    {
      Store(memory, disk, running)
    }

    method Save(o: Outcome) returns (ok: bool)
      modifies this`disk, this`running
      ensures View() == Write(old(View()), memory, o) && ok == o.Saved?
    {
      if o.Saved? || o.DiedAfter? {
        disk := memory;
      }
      running := !(o.DiedBefore? || o.DiedAfter?);
      return o.Saved?;
    }

    method AcquireAddress(o: Outcome) returns (address: Option<string>)
      modifies this
      ensures View() == AfterAcquire(old(View()), o) && address == Issued(old(View()), o)
    {
      memory := memory.(addressIndex := memory.addressIndex + 1);
      var ok := Save(o);
      return if ok then Some(Itoa(memory.addressIndex)) else None;
    }

    method Add(id: string, record: Record, o: Outcome) returns (ok: bool)
      modifies this
      ensures View() == AfterAdd(old(View()), id, record, o) && ok == o.Saved?
    {
      memory := memory.(records := memory.records[id := record]);
      ok := Save(o);
    }

    method Remove(id: string, o: Outcome) returns (ok: bool)
      modifies this
      ensures View() == AfterRemove(old(View()), id, o) && ok == o.Saved?
    {
      memory := memory.(records := memory.records - {id});
      ok := Save(o);
    }

    method Load()
      modifies this
      ensures View() == AfterLoad(old(View()))
    {
      memory, running := disk, true;
    }
  }

  // ---------------------------------------------------------------- runs

  datatype Event =
    | Acquire(outcome: Outcome)
    | Add(id: string, record: Record, outcome: Outcome)
    | Remove(id: string, outcome: Outcome)
    | OtherWrite(outcome: Outcome)            // another part of a record
    | Restart

  function Step(s: Store, e: Event): Store {
    match e
    case Acquire(o) => AfterAcquire(s, o)
    case Add(id, record, o) => AfterAdd(s, id, record, o)
    case Remove(id, o) => AfterRemove(s, id, o)
    case OtherWrite(o) => Write(s, s.memory, o)
    case Restart => AfterLoad(s)
  }

  predicate IsAtMost(address: string, n: nat) { IsNumeric(address) ==> Value(address) <= n }

  // A process that died does nothing; a numeric address on a record was handed out before.
  predicate Allowed(s: Store, e: Event) {
    (s.running || e.Restart?) && (e.Add? ==> IsAtMost(e.record.address, s.disk.addressIndex))
  }

  predicate AllAtMost(records: map<string, Record>, n: nat) {
    forall id :: id in records ==> IsAtMost(records[id].address, n)
  }

  // Memory is never behind the disk, and no record is ahead of what is on disk.
  predicate Good(s: Store) {
    && s.disk.addressIndex <= s.memory.addressIndex
    && AllAtMost(s.disk.records, s.disk.addressIndex)
    && AllAtMost(s.memory.records, s.disk.addressIndex)
  }

  lemma StepKeepsGood(s: Store, e: Event)
    requires Good(s) && Allowed(s, e)
    ensures Good(Step(s, e)) && s.disk.addressIndex <= Step(s, e).disk.addressIndex
  {
  }

  ghost predicate Reaches(s: Store, run: seq<Event>, t: Store)
    decreases |run|
  {
    if run == [] then s == t else Allowed(s, run[0]) && Reaches(Step(s, run[0]), run[1..], t)
  }

  lemma {:induction false} RunKeepsGood(s: Store, run: seq<Event>, t: Store)
    requires Good(s) && Reaches(s, run, t)
    ensures Good(t) && s.disk.addressIndex <= t.disk.addressIndex
    decreases |run|
  {
    if run != [] {
      StepKeepsGood(s, run[0]);
      RunKeepsGood(Step(s, run[0]), run[1..], t);
    }
  }

  /** Whatever saves fail and wherever the process dies or restarts: an address that is handed out is on no
      record, in memory or on disk, and is a larger number than any handed out before. */
  lemma IssuedIsFresh(s: Store, first: Outcome, run: seq<Event>, t: Store, second: Outcome)
    requires Good(s) && Issued(s, first).Some? && Issued(t, second).Some? && Reaches(AfterAcquire(s, first), run, t)
    ensures var a, b := Issued(s, first).value, Issued(t, second).value;
      && IsNumeric(a) && IsNumeric(b) && Value(a) < Value(b)
      && (forall id :: id in t.memory.records ==> t.memory.records[id].address != b)
      && (forall id :: id in t.disk.records ==> t.disk.records[id].address != b)
  {
    RunKeepsGood(AfterAcquire(s, first), run, t);
    ItoaReadsBack(s.memory.addressIndex + 1);
    ItoaReadsBack(t.memory.addressIndex + 1);
  }

  /** A number may be used up without being handed out: after a failing save the next one is skipped, unless
      a restart comes first. */
  lemma SkippedIff(s: Store, restart: bool)
    requires Good(s)
    ensures Issued(s, Saved).Some?
    ensures var t := AfterAcquire(s, Failed);
      Issued(if restart then Step(t, Event.Restart) else t, Saved) == Issued(s, Saved)
      <==> restart && s.disk.addressIndex == s.memory.addressIndex
  {
    ItoaReadsBack(s.memory.addressIndex + 1);
    ItoaReadsBack(s.memory.addressIndex + 2);
    ItoaReadsBack(s.disk.addressIndex + 1);
  }

  /** A record whose removal was refused is gone from memory all the same, and back after a restart if and
      only if it was on disk and the removal did not get there. */
  lemma RemovedComesBackIff(s: Store, id: string, o: Outcome)
    ensures id !in Step(s, Remove(id, o)).memory.records && (Step(s, Remove(id, o)).running <==> !Died(o))
    ensures id in Step(Step(s, Remove(id, o)), Event.Restart).memory.records <==> id in s.disk.records && !Reached(o)
  {
  }

  // The event neither removes the record nor adds it again.
  predicate Leaves(e: Event, id: string) { (e.Remove? ==> e.id != id) && (e.Add? ==> e.id != id) }

  /** An addition that was refused is in memory all the same: any later save that succeeds makes it
      permanent, and a restart before that forgets it. */
  lemma RefusedAdditionLasts(s: Store, id: string, record: Record, e: Event)
    requires id !in s.disk.records && Leaves(e, id)
    ensures var t := Step(Step(s, Add(id, record, Failed)), e);
      Get(Step(t, Event.Restart).memory.records, id) == Some(record) <==> !e.Restart? && Reached(e.outcome)
  {
  }
}
