/** The adapter's registry: persisted records of things, the things registered in this process, and
    the index from which addresses are taken.

    Creating a thing persists its record before the factory runs, so a factory that fails leaves a
    record without a registered thing.  Destroying one removes record and thing before the exclusion
    report is sent, which may fail. */
module Registry {
  import opened Wrappers
  import opened Orders

  datatype Record = Record(address: string, info: string)

  datatype Seed = Seed(id: string, info: string, customAddress: string)

  datatype State = State(
    addressIndex: nat,
    records: map<string, Record>,   // by ID
    things: map<string, string>)    // registered things: ID by address

  // ---------------------------------------------------------------- addresses as numbers

  function Digit(n: nat): char
    requires n < 10
  {
    ('0' as int + n) as char
  }

  function Itoa(n: nat): string {
    if n < 10 then [Digit(n)] else Itoa(n / 10) + [Digit(n % 10)]
  }

  function Value(s: string): int {
    if s == "" then 0 else 10 * Value(s[..|s| - 1]) + (s[|s| - 1] as int - '0' as int)
  }

  predicate IsNumeric(s: string) { forall c :: c in s ==> '0' <= c <= '9' }

  lemma {:induction false} ItoaReadsBack(n: nat)
    ensures Itoa(n) != "" && IsNumeric(Itoa(n)) && Value(Itoa(n)) == n
  {
    if n < 10 {
      assert [Digit(n)][..0] == "";
    } else {
      ItoaReadsBack(n / 10);
      assert Itoa(n)[..|Itoa(n)| - 1] == Itoa(n / 10);
    }
  }

  // ---------------------------------------------------------------- operations

  function AddressFor(s: State, seed: Seed): string {
    if seed.customAddress == "" then Itoa(s.addressIndex + 1) else seed.customAddress
  }

  function AfterCreate(s: State, seed: Seed, ok: bool): State {
    var address := AddressFor(s, seed);
    State(if seed.customAddress == "" then s.addressIndex + 1 else s.addressIndex,
          s.records[seed.id := Record(address, seed.info)],
          if ok then s.things[address := seed.id] else s.things)
  }

  // Without the records and the things at the given addresses.
  function Vacated(s: State, addresses: set<string>): State {
    s.(records := map id | id in s.records && s.records[id].address !in addresses :: s.records[id],
       things := s.things - addresses)
  }

  function AfterDestroy(s: State, address: string): State { Vacated(s, {address}) }

  function AddressesOf(records: map<string, Record>, ids: set<string>): set<string> {
    set id | id in ids && id in records :: records[id].address
  }

  // The addresses of records whose ID is not to be kept.
  function Unwanted(s: State, keep: set<string>): set<string> { AddressesOf(s.records, s.records.Keys - keep) }

  // Every persisted thing is registered at its address.
  function AllRegistered(s: State): State
    requires Unique(s.records)
  {
    s.(things := map a | a in AddressesOf(s.records, s.records.Keys) :: ByAddress(s.records, a).value)
  }

  // A new process: nothing is registered unless every factory call succeeds.
  function AfterRestart(s: State, fails: set<string>): State
    requires Unique(s.records)
  {
    if s.records.Keys !! fails then AllRegistered(s) else s.(things := map[])
  }

  function Ids(seeds: seq<Seed>): set<string> { set seed | seed in seeds :: seed.id }

  // The seeds whose ID is not among the given ones, in order.
  function NewSeeds(seeds: seq<Seed>, ids: set<string>): seq<Seed> {
    if seeds == [] then []
    else
      var rest := NewSeeds(seeds[..|seeds| - 1], ids);
      if seeds[|seeds| - 1].id in ids then rest else rest + [seeds[|seeds| - 1]]
  }

  // Creating things one by one, stopping at the first whose creation fails.
  function CreateAll(s: State, seeds: seq<Seed>, fails: set<string>): (State, bool)
    decreases |seeds|
  {
    if seeds == [] then (s, true)
    else if seeds[0].id in fails then (AfterCreate(s, seeds[0], false), false)
    else CreateAll(AfterCreate(s, seeds[0], true), seeds[1..], fails)
  }

  // Destroying things one by one, stopping after the first whose exclusion report fails.
  function DestroyEach(s: State, addresses: seq<string>, silent: set<string>): (State, bool)
    decreases |addresses|
  {
    if addresses == [] then (s, true)
    else
      var t := AfterDestroy(s, addresses[0]);
      if addresses[0] in silent then (t, false) else DestroyEach(t, addresses[1..], silent)
  }

  // Things without a seed are destroyed, in some order; then seeds without a record are created.
  function Ensured(s: State, seeds: seq<Seed>, fails: set<string>, order: seq<string>, silent: set<string>)
    : (State, bool)
  {
    var (t, ok) := DestroyEach(s, order, silent);
    if ok then CreateAll(t, NewSeeds(seeds, s.records.Keys), fails) else (t, false)
  }

  // ---------------------------------------------------------------- lookups by address

  // A lookup by address may find any record there is.
  predicate MayFind(records: map<string, Record>, address: string, id: string) {
    id in records && records[id].address == address
  }

  ghost predicate IsFound(records: map<string, Record>, address: string, found: Option<string>) {
    match found
    case Some(id) => MayFind(records, address, id)
    case None => forall id :: !MayFind(records, address, id)
  }

  // Without the record that was found and the thing at the address.
  function Removed(s: State, address: string, found: Option<string>): State {
    s.(records := if found.Some? then s.records - {found.value} else s.records, things := s.things - {address})
  }

  /** What destroying the things at the given addresses one by one may come to, stopping after the first
      whose exclusion report fails. */
  ghost predicate MayDestroy(s: State, addresses: seq<string>, silent: set<string>, t: State, ok: bool)
    decreases |addresses|
  {
    if addresses == [] then t == s && ok
    else
      exists found :: (
        && IsFound(s.records, addresses[0], found)
        && var u := Removed(s, addresses[0], found);
           if addresses[0] in silent then t == u && !ok else MayDestroy(u, addresses[1..], silent, t, ok))
  }

  // The addresses of the given records, in their order.
  function AddressesIn(records: map<string, Record>, ids: seq<string>): (addresses: seq<string>)
    requires forall id :: id in ids ==> id in records
    ensures |addresses| == |ids| && forall i :: 0 <= i < |ids| ==> addresses[i] == records[ids[i]].address
  {
    if ids == [] then [] else [records[ids[0]].address] + AddressesIn(records, ids[1..])
  }

  /** What a reconciliation may come to that visits the unwanted records in the given order. */
  ghost predicate MayEnsure(s: State, seeds: seq<Seed>, fails: set<string>, silent: set<string>, ids: seq<string>,
                            t: State, ok: bool)
    requires forall id :: id in ids ==> id in s.records
  {
    exists u, destroyed :: (
      && MayDestroy(s, AddressesIn(s.records, ids), silent, u, destroyed)
      && if destroyed then (t, ok) == CreateAll(u, NewSeeds(seeds, s.records.Keys), fails) else t == u && !ok)
  }

  // No two records share an address.
  ghost predicate Unique(records: map<string, Record>) {
    forall i, j :: i in records && j in records && records[i].address == records[j].address ==> i == j
  }

  function ByAddress(records: map<string, Record>, address: string): (id: Option<string>)
    requires Unique(records)
    ensures id.Some? ==> id.value in records && records[id.value].address == address
    ensures id.None? ==> forall i :: i in records ==> records[i].address != address
  {
    if i :| i in records && records[i].address == address then Some(i) else None
  }

  // ---------------------------------------------------------------- seeds

  lemma {:induction false} NewSeedsWithout(seeds: seq<Seed>, ids: set<string>, id: string)
    ensures NewSeeds(NewSeeds(seeds, ids), {id}) == NewSeeds(seeds, ids + {id})
  {
    if seeds != [] {
      var init, last := seeds[..|seeds| - 1], seeds[|seeds| - 1];
      NewSeedsWithout(init, ids, id);
      if last.id !in ids {
        assert (NewSeeds(init, ids) + [last])[..|NewSeeds(init, ids)|] == NewSeeds(init, ids);
      }
    }
  }

  lemma {:induction false} NewSeedsMembers(seeds: seq<Seed>, ids: set<string>, seed: Seed)
    ensures seed in NewSeeds(seeds, ids) <==> seed in seeds && seed.id !in ids
  {
    if seeds != [] {
      var init, last := seeds[..|seeds| - 1], seeds[|seeds| - 1];
      NewSeedsMembers(init, ids, seed);
      assert seeds == init + [last];
    }
  }

  predicate DistinctIds(seeds: seq<Seed>) {
    forall i, j :: 0 <= i < j < |seeds| ==> seeds[i].id != seeds[j].id
  }

  // Custom addresses of distinct seeds differ.
  predicate DistinctCustoms(seeds: seq<Seed>) {
    forall i, j :: 0 <= i < j < |seeds| && seeds[i].customAddress != "" ==>
      seeds[i].customAddress != seeds[j].customAddress
  }

  lemma {:induction false} NewSeedsDistinct(seeds: seq<Seed>, ids: set<string>)
    requires DistinctIds(seeds) && DistinctCustoms(seeds)
    ensures DistinctIds(NewSeeds(seeds, ids)) && DistinctCustoms(NewSeeds(seeds, ids))
  {
    if seeds != [] {
      var init, last := seeds[..|seeds| - 1], seeds[|seeds| - 1];
      NewSeedsDistinct(init, ids);
      forall seed | seed in NewSeeds(init, ids)
        ensures seed.id != last.id && (seed.customAddress != "" ==> seed.customAddress != last.customAddress)
      {
        NewSeedsMembers(init, ids, seed);
        var k :| 0 <= k < |init| && init[k] == seed;
        assert seeds[k] == seed;
      }
    }
  }

  /** The adapter object. */
  class Adapter {
    var addressIndex: nat
    var records: map<string, Record>
    var things: map<string, string>

    constructor (addressIndex: nat, records: map<string, Record>)
      ensures View() == State(addressIndex, records, map[])
    {
      this.addressIndex, this.records, things := addressIndex, records, map[];
    }

    function View(): State
      reads this
    {
      State(addressIndex, records, things)
    }

    // Whatever order the records come in; things are registered once all of them are made.  Of records
    // that share an address any one is registered.
    method InitializeThings(fails: set<string>) returns (ok: bool)
      modifies this`things
      ensures ok <==> records.Keys !! fails
      ensures !ok ==> things == old(things)
      ensures Unique(records) && old(things) == map[] ==> View() == AfterRestart(old(View()), fails)
      ensures ok ==> things.Keys == old(things).Keys + AddressesOf(records, records.Keys)
      ensures ok ==> forall a :: a in things ==>
                MayFind(records, a, things[a])
                || (a in old(things) && things[a] == old(things)[a] && IsFound(records, a, None))
    {
      var left, made := records.Keys, {};
      while left != {}
        invariant left + made == records.Keys && made !! fails
      {
        var id :| id in left;
        if id in fails {
          return false;
        }
        left, made := left - {id}, made + {id};
      }
      ghost var registered := {};
      while made != {}
        invariant made + registered == records.Keys
        invariant things.Keys == old(things).Keys + AddressesOf(records, registered)
        invariant forall a :: a in things ==>
          MayFind(records, a, things[a])
          || (a in old(things) && things[a] == old(things)[a] && a !in AddressesOf(records, registered))
      {
        var id :| id in made;
        AddressesMore(records, registered, id);
        things := things[records[id].address := id];
        made, registered := made - {id}, registered + {id};
      }
      forall a | a !in AddressesOf(records, records.Keys) ensures IsFound(records, a, None) {
        assert forall id :: id in records ==> records[id].address in AddressesOf(records, records.Keys);
      }
      if Unique(records) && old(things) == map[] {
        RegisteredIsAll(View());
      }
      return true;
    }

    method AcquireAddress() returns (address: string)
      modifies this`addressIndex
      ensures addressIndex == old(addressIndex) + 1 && address == Itoa(addressIndex)
    {
      addressIndex := addressIndex + 1;
      return Itoa(addressIndex);
    }

    method CreateThing(seed: Seed, ok: bool)
      modifies this
      ensures View() == AfterCreate(old(View()), seed, ok)
    {
      var address := seed.customAddress;
      if address == "" {
        address := AcquireAddress();
      }
      records := records[seed.id := Record(address, seed.info)];
      if ok {
        things := things[address := seed.id];
      }
    }

    // Whatever order the records come in.
    method ExchangeAddress(address: string) returns (id: Option<string>)
      ensures IsFound(records, address, id)
      ensures Unique(records) ==> id == ByAddress(records, address)
    {
      var left := records.Keys;
      while left != {}
        invariant left <= records.Keys
        invariant forall i :: i in records && i !in left ==> records[i].address != address
      {
        var i :| i in left;
        if records[i].address == address {
          return Some(i);
        }
        left := left - {i};
      }
      return None;
    }

    method ExchangeID(id: string) returns (address: Option<string>)
      ensures forall a :: address == Some(a) <==> id in records && records[id].address == a
    {
      return if id in records then Some(records[id].address) else None;
    }

    // Of records that share the address any one goes.
    method DestroyThing(address: string, reported: bool) returns (ok: bool, found: Option<string>)
      modifies this`records, this`things
      ensures IsFound(old(records), address, found) && View() == Removed(old(View()), address, found)
      ensures ok == reported
    {
      found := ExchangeAddress(address);
      if found.Some? {
        records := records - {found.value};
      }
      things := things - {address};
      return reported, found;
    }

    method Contains(seeds: seq<Seed>, id: string) returns (found: bool)
      ensures found <==> id in Ids(seeds)
    {
      for n := 0 to |seeds|
        invariant forall i :: 0 <= i < n ==> seeds[i].id != id
      {
        if seeds[n].id == id {
          assert seeds[n] in seeds;
          return true;
        }
      }
      return false;
    }

    method Without(seeds: seq<Seed>, id: string) returns (kept: seq<Seed>)
      ensures kept == NewSeeds(seeds, {id})
    {
      kept := [];
      for n := 0 to |seeds|
        invariant kept == NewSeeds(seeds[..n], {id})
      {
        assert seeds[..n + 1][..n] == seeds[..n];
        if seeds[n].id != id {
          kept := kept + [seeds[n]];
        }
      }
      assert seeds[..|seeds|] == seeds;
    }

    // The first pass: whatever order the records come in, it finds the addresses to vacate, one for each
    // record without a seed, and leaves the seeds that have no record.
    method Sort(seeds: seq<Seed>) returns (remove: seq<string>, create: seq<Seed>, ghost ids: seq<string>)
      ensures IsOrderOf(ids, records.Keys - Ids(seeds)) && remove == AddressesIn(records, ids)
      ensures create == NewSeeds(seeds, records.Keys)
    {
      var left := records.Keys;
      ghost var visited := {};
      remove, create, ids := [], seeds, [];
      NewSeedsOfNone(seeds);
      while left != {}
        invariant left + visited == records.Keys && left !! visited
        invariant IsOrderOf(ids, visited - Ids(seeds)) && remove == AddressesIn(records, ids)
        invariant create == NewSeeds(seeds, visited)
      {
        var id :| id in left;
        SortStep(seeds, visited, id);
        var found := Contains(create, id);
        if found {
          create := Without(create, id);
          assert visited + {id} - Ids(seeds) == visited - Ids(seeds);
        } else {
          remove := remove + [records[id].address];
          OrderConcat(ids, visited - Ids(seeds), [id], {id});
          ids := ids + [id];
          NewSeedsUnaffected(create, id);
          assert visited + {id} - Ids(seeds) == visited - Ids(seeds) + {id};
        }
        left, visited := left - {id}, visited + {id};
      }
    }

    method DestroyInOrder(addresses: seq<string>, silent: set<string>) returns (ok: bool)
      modifies this`records, this`things
      ensures MayDestroy(old(View()), addresses, silent, View(), ok)
    {
      for n := 0 to |addresses|
        invariant forall t, done :: MayDestroy(View(), addresses[n..], silent, t, done) ==>
                    MayDestroy(old(View()), addresses, silent, t, done)
      {
        assert addresses[n..][1..] == addresses[n + 1..];
        ghost var s := View();
        ghost var found;
        ok, found := DestroyThing(addresses[n], addresses[n] !in silent);
        assert IsFound(s.records, addresses[n], found);
        if !ok {
          return;
        }
      }
      return true;
    }

    /** Reconciliation: the records are visited in any order, which is the order in which unwanted
        things are destroyed. */
    method EnsureThings(seeds: seq<Seed>, fails: set<string>, silent: set<string>)
      returns (ok: bool, ghost ids: seq<string>)
      modifies this
      ensures IsOrderOf(ids, old(records).Keys - Ids(seeds))
      ensures MayEnsure(old(View()), seeds, fails, silent, ids, View(), ok)
    {
      var remove, create;
      remove, create, ids := Sort(seeds);
      ok := DestroyInOrder(remove, silent);
      if !ok {
        return;
      }
      ghost var s := View();
      for n := 0 to |create|
        invariant CreateAll(View(), create[n..], fails) == CreateAll(s, create, fails)
      {
        CreateThing(create[n], create[n].id !in fails);
        if create[n].id in fails {
          return false, ids;
        }
        assert create[n..][1..] == create[n + 1..];
      }
      return true, ids;
    }
  }

  lemma RegisteredIsAll(s: State)
    requires Unique(s.records) && Registered(s)
    ensures s == AllRegistered(s)
  {
    var r := AllRegistered(s);
    forall a ensures a in s.things <==> a in r.things {
      assert a in r.things <==> exists id :: id in s.records && s.records[id].address == a;
    }
    assert s.things == r.things;
  }

  // One record visited in the first pass.
  lemma SortStep(seeds: seq<Seed>, visited: set<string>, id: string)
    requires id !in visited
    ensures id in Ids(NewSeeds(seeds, visited)) <==> id in Ids(seeds)
    ensures NewSeeds(NewSeeds(seeds, visited), {id}) == NewSeeds(seeds, visited + {id})
  {
    forall seed ensures seed in NewSeeds(seeds, visited) <==> seed in seeds && seed.id !in visited {
      NewSeedsMembers(seeds, visited, seed);
    }
    NewSeedsWithout(seeds, visited, id);
  }

  lemma AddressesMore(records: map<string, Record>, ids: set<string>, id: string)
    requires id in records
    ensures AddressesOf(records, ids + {id}) == AddressesOf(records, ids) + {records[id].address}
  {
  }

  lemma {:induction false} NewSeedsOfNone(seeds: seq<Seed>)
    ensures NewSeeds(seeds, {}) == seeds
  {
    if seeds != [] {
      NewSeedsOfNone(seeds[..|seeds| - 1]);
    }
  }

  lemma {:induction false} NewSeedsUnaffected(seeds: seq<Seed>, id: string)
    requires id !in Ids(seeds)
    ensures NewSeeds(seeds, {id}) == seeds
  {
    if seeds != [] {
      var init, last := seeds[..|seeds| - 1], seeds[|seeds| - 1];
      assert seeds == init + [last] && last in seeds;
      assert forall seed :: seed in init ==> seed in seeds;
      NewSeedsUnaffected(init, id);
    }
  }

  // ---------------------------------------------------------------- unique addresses

  lemma RemovedIsVacated(s: State, address: string, found: Option<string>)
    requires Unique(s.records) && IsFound(s.records, address, found)
    ensures Removed(s, address, found) == AfterDestroy(s, address)
  {
    var t, v := Removed(s, address, found), AfterDestroy(s, address);
    assert forall id :: id in s.records && s.records[id].address == address ==> MayFind(s.records, address, id);
    assert t.records == v.records;
  }

  /** With unique addresses there is one outcome of destroying things in an order. */
  lemma {:induction false} DestroyIsDetermined(s: State, addresses: seq<string>, silent: set<string>, t: State,
                                               ok: bool)
    requires Unique(s.records) && MayDestroy(s, addresses, silent, t, ok)
    ensures (t, ok) == DestroyEach(s, addresses, silent)
    decreases |addresses|
  {
    if addresses != [] {
      var found :|
        && IsFound(s.records, addresses[0], found)
        && var u := Removed(s, addresses[0], found);
           if addresses[0] in silent then t == u && !ok else MayDestroy(u, addresses[1..], silent, t, ok);
      RemovedIsVacated(s, addresses[0], found);
      if addresses[0] !in silent {
        DestroyIsDetermined(Removed(s, addresses[0], found), addresses[1..], silent, t, ok);
      }
    }
  }

  lemma UniqueAddressesInOrder(s: State, ids: seq<string>, keep: set<string>)
    requires Unique(s.records) && IsOrderOf(ids, s.records.Keys - keep)
    ensures IsOrderOf(AddressesIn(s.records, ids), Unwanted(s, keep))
  {
    var addresses := AddressesIn(s.records, ids);
    forall i, j | 0 <= i < j < |ids| ensures addresses[i] != addresses[j] {
      assert ids[i] in ids && ids[j] in ids;
    }
    forall a ensures a in addresses <==> a in Unwanted(s, keep) {
      if a in addresses {
        var i :| 0 <= i < |addresses| && addresses[i] == a;
        assert ids[i] in ids;
      }
      if a in Unwanted(s, keep) {
        var id :| id in s.records.Keys - keep && s.records[id].address == a;
        var i :| 0 <= i < |ids| && ids[i] == id;
        assert addresses[i] == a;
      }
    }
  }

  /** With unique addresses the order of the records determines what a reconciliation comes to. */
  lemma EnsureIsDetermined(s: State, seeds: seq<Seed>, fails: set<string>, silent: set<string>, ids: seq<string>,
                           t: State, ok: bool)
    requires Unique(s.records) && IsOrderOf(ids, s.records.Keys - Ids(seeds))
    requires MayEnsure(s, seeds, fails, silent, ids, t, ok)
    ensures var order := AddressesIn(s.records, ids);
      IsOrderOf(order, Unwanted(s, Ids(seeds))) && (t, ok) == Ensured(s, seeds, fails, order, silent)
  {
    UniqueAddressesInOrder(s, ids, Ids(seeds));
    var u, destroyed :|
      && MayDestroy(s, AddressesIn(s.records, ids), silent, u, destroyed)
      && if destroyed then (t, ok) == CreateAll(u, NewSeeds(seeds, s.records.Keys), fails) else t == u && !ok;
    DestroyIsDetermined(s, AddressesIn(s.records, ids), silent, u, destroyed);
  }

  // ---------------------------------------------------------------- reconciliation

  // Addresses are unique, and numeric ones do not run ahead of the index.
  ghost predicate Good(s: State) {
    && Unique(s.records)
    && forall id :: id in s.records && IsNumeric(s.records[id].address) ==>
         Value(s.records[id].address) <= s.addressIndex
  }

  // The things registered are exactly those persisted, at their addresses.
  ghost predicate Registered(s: State) {
    && (forall id :: id in s.records ==> s.records[id].address in s.things)
    && (forall a :: a in s.things ==> s.things[a] in s.records && s.records[s.things[a]].address == a)
  }

  // A custom address is not a number and belongs to no other thing.
  ghost predicate Admissible(s: State, seed: Seed) {
    seed.customAddress != "" ==>
      !IsNumeric(seed.customAddress) &&
      forall id :: id in s.records && id != seed.id ==> s.records[id].address != seed.customAddress
  }

  lemma AddressIsFresh(s: State, seed: Seed)
    requires Good(s) && Admissible(s, seed)
    ensures forall id :: id in s.records && id != seed.id ==> s.records[id].address != AddressFor(s, seed)
  {
    ItoaReadsBack(s.addressIndex + 1);
  }

  lemma CreateKeepsGood(s: State, seed: Seed, ok: bool)
    requires Good(s) && Admissible(s, seed)
    ensures Good(AfterCreate(s, seed, ok))
  {
    AddressIsFresh(s, seed);
    ItoaReadsBack(s.addressIndex + 1);
  }

  lemma CreateKeepsRegistered(s: State, seed: Seed, ok: bool)
    requires Good(s) && Admissible(s, seed) && Registered(s) && seed.id !in s.records
    ensures Registered(AfterCreate(s, seed, ok)) <==> ok
  {
    AddressIsFresh(s, seed);
    var t := AfterCreate(s, seed, ok);
    if !ok {
      assert t.records[seed.id].address !in t.things;
    }
  }

  // Seeds of distinct IDs and custom addresses, none of them on record yet.
  ghost predicate Creatable(s: State, seeds: seq<Seed>) {
    && DistinctIds(seeds) && DistinctCustoms(seeds)
    && forall i :: 0 <= i < |seeds| ==> seeds[i].id !in s.records && Admissible(s, seeds[i])
  }

  lemma CreatableNext(s: State, seeds: seq<Seed>, ok: bool)
    requires Good(s) && Creatable(s, seeds) && seeds != []
    ensures Creatable(AfterCreate(s, seeds[0], ok), seeds[1..])
  {
    var t, rest := AfterCreate(s, seeds[0], ok), seeds[1..];
    ItoaReadsBack(s.addressIndex + 1);
    forall i | 0 <= i < |rest| ensures rest[i].id !in t.records && Admissible(t, rest[i]) {
      assert rest[i] == seeds[i + 1];
    }
  }

  lemma IdsOf(seeds: seq<Seed>)
    requires seeds != []
    ensures Ids(seeds) == {seeds[0].id} + Ids(seeds[1..])
  {
    assert seeds == [seeds[0]] + seeds[1..];
  }

  lemma {:induction false} CreateAllKeeps(s: State, seeds: seq<Seed>, fails: set<string>)
    requires Good(s) && Registered(s) && Creatable(s, seeds)
    ensures var (t, ok) := CreateAll(s, seeds, fails);
      && Good(t)
      && (ok <==> Ids(seeds) !! fails)
      && (Registered(t) <==> ok)
      && (ok ==> t.records.Keys == s.records.Keys + Ids(seeds))
      && (forall id :: id in s.records ==> id in t.records && t.records[id] == s.records[id])
    decreases |seeds|
  {
    if seeds != [] {
      var ok := seeds[0].id !in fails;
      CreateKeepsGood(s, seeds[0], ok);
      CreateKeepsRegistered(s, seeds[0], ok);
      IdsOf(seeds);
      if ok {
        CreatableNext(s, seeds, ok);
        CreateAllKeeps(AfterCreate(s, seeds[0], ok), seeds[1..], fails);
      }
    }
  }

  lemma VacatedKeeps(s: State, addresses: set<string>)
    requires Good(s)
    ensures Good(Vacated(s, addresses)) && (Registered(s) ==> Registered(Vacated(s, addresses)))
  {
  }

  lemma WantedStay(s: State, keep: set<string>, addresses: set<string>)
    requires Unique(s.records) && addresses <= Unwanted(s, keep)
    ensures var t := Vacated(s, addresses);
      && (forall id :: id in s.records && id in keep ==> id in t.records && t.records[id] == s.records[id])
      && (forall id :: id in t.records ==> id in s.records && t.records[id] == s.records[id])
      && (addresses == Unwanted(s, keep) ==> t.records.Keys == s.records.Keys * keep)
  {
  }

  // What was destroyed is part of what was to be, and all of it exactly when every report was sent.
  lemma {:induction false} DestroyEachVacates(s: State, order: seq<string>, silent: set<string>)
    returns (gone: set<string>)
    ensures DestroyEach(s, order, silent).0 == Vacated(s, gone)
    ensures forall a :: a in gone ==> a in order
    ensures order != [] ==> order[0] in gone
    ensures DestroyEach(s, order, silent).1 <==> forall a :: a in order ==> a !in silent
    ensures DestroyEach(s, order, silent).1 ==> forall a :: a in order ==> a in gone
    decreases |order|
  {
    if order == [] {
      gone := {};
      assert Vacated(s, {}) == s;
    } else if order[0] in silent {
      gone := {order[0]};
    } else {
      var rest := DestroyEachVacates(AfterDestroy(s, order[0]), order[1..], silent);
      gone := {order[0]} + rest;
      assert order == [order[0]] + order[1..];
      VacatedTwice(s, {order[0]}, rest);
    }
  }

  lemma VacatedTwice(s: State, a: set<string>, b: set<string>)
    ensures Vacated(Vacated(s, a), b) == Vacated(s, a + b)
  {
  }

  // Seeds of distinct IDs whose custom addresses are admissible once unwanted things are gone.
  ghost predicate Ensurable(s: State, seeds: seq<Seed>) {
    DistinctIds(seeds) && DistinctCustoms(seeds) &&
    forall seed :: seed in seeds && seed.id !in s.records ==> Admissible(Vacated(s, Unwanted(s, Ids(seeds))), seed)
  }

  lemma EnsurableCreates(s: State, seeds: seq<Seed>)
    requires Good(s) && Ensurable(s, seeds)
    ensures Creatable(Vacated(s, Unwanted(s, Ids(seeds))), NewSeeds(seeds, s.records.Keys))
    ensures Ids(NewSeeds(seeds, s.records.Keys)) == Ids(seeds) - s.records.Keys
  {
    NewSeedsDistinct(seeds, s.records.Keys);
    forall seed ensures seed in NewSeeds(seeds, s.records.Keys) <==> seed in seeds && seed.id !in s.records {
      NewSeedsMembers(seeds, s.records.Keys, seed);
    }
  }

  // The first half of a reconciliation.
  lemma EnsureDestroys(s: State, seeds: seq<Seed>, order: seq<string>, silent: set<string>) returns (gone: set<string>)
    requires Good(s) && IsOrderOf(order, Unwanted(s, Ids(seeds)))
    ensures var (t, ok) := DestroyEach(s, order, silent);
      && gone <= Unwanted(s, Ids(seeds)) && t == Vacated(s, gone)
      && (ok <==> Unwanted(s, Ids(seeds)) !! silent)
      && (ok ==> gone == Unwanted(s, Ids(seeds)))
  {
    gone := DestroyEachVacates(s, order, silent);
  }

  /** Reconciling an adapter whose registered things are its persisted ones, with seeds of distinct
      IDs and admissible custom addresses.  It succeeds exactly when no exclusion report and no factory
      call fails; then the persisted IDs are the seeds' IDs.  Records that survive are untouched in any
      case.  A failing report stops it before anything is created, and the registered things are still
      the persisted ones unless a factory call failed. */
  lemma EnsureReconciles(s: State, seeds: seq<Seed>, fails: set<string>, order: seq<string>, silent: set<string>)
    requires Good(s) && Registered(s) && Ensurable(s, seeds) && IsOrderOf(order, Unwanted(s, Ids(seeds)))
    ensures var (t, ok) := Ensured(s, seeds, fails, order, silent);
      var reported, made := Unwanted(s, Ids(seeds)) !! silent, (Ids(seeds) - s.records.Keys) !! fails;
      && Good(t)
      && (ok <==> reported && made)
      && (ok ==> t.records.Keys == Ids(seeds))
      && (forall id :: id in s.records && id in Ids(seeds) ==> id in t.records && t.records[id] == s.records[id])
      && (!reported ==> forall id :: id in t.records ==> id in s.records && t.records[id] == s.records[id])
      && (Registered(t) <==> !reported || made)
  {
    var gone := EnsureDestroys(s, seeds, order, silent);
    VacatedKeeps(s, gone);
    WantedStay(s, Ids(seeds), gone);
    if Unwanted(s, Ids(seeds)) !! silent {
      EnsurableCreates(s, seeds);
      CreateAllKeeps(Vacated(s, gone), NewSeeds(seeds, s.records.Keys), fails);
    }
  }

  /** The outcome is the same in every order of the records if and only if no exclusion report fails, or
      there is at most one thing to destroy. */
  lemma EnsureIsOrderFreeIff(s: State, seeds: seq<Seed>, fails: set<string>, silent: set<string>)
    requires Good(s)
    ensures var unwanted := Unwanted(s, Ids(seeds));
      (forall o, p :: IsOrderOf(o, unwanted) && IsOrderOf(p, unwanted) ==>
         Ensured(s, seeds, fails, o, silent) == Ensured(s, seeds, fails, p, silent))
      <==> unwanted !! silent || forall a, b :: a in unwanted && b in unwanted ==> a == b
  {
    var unwanted := Unwanted(s, Ids(seeds));
    if unwanted !! silent || forall a, b :: a in unwanted && b in unwanted ==> a == b {
      forall o, p | IsOrderOf(o, unwanted) && IsOrderOf(p, unwanted)
        ensures Ensured(s, seeds, fails, o, silent) == Ensured(s, seeds, fails, p, silent)
      {
        EnsureSameOrder(s, seeds, fails, o, p, silent);
      }
    } else {
      var f :| f in unwanted && f in silent;
      var x :| x in unwanted && x != f;
      EnsureOrderMatters(s, seeds, fails, silent, f, x);
    }
  }

  lemma EnsureSameOrder(s: State, seeds: seq<Seed>, fails: set<string>, o: seq<string>, p: seq<string>,
                        silent: set<string>)
    requires Good(s) && IsOrderOf(o, Unwanted(s, Ids(seeds))) && IsOrderOf(p, Unwanted(s, Ids(seeds)))
    requires Unwanted(s, Ids(seeds)) !! silent
      || forall a, b :: a in Unwanted(s, Ids(seeds)) && b in Unwanted(s, Ids(seeds)) ==> a == b
    ensures Ensured(s, seeds, fails, o, silent) == Ensured(s, seeds, fails, p, silent)
  {
    var g := DestroyEachVacates(s, o, silent);
    var h := DestroyEachVacates(s, p, silent);
    OrderStarts(o, Unwanted(s, Ids(seeds)));
    OrderStarts(p, Unwanted(s, Ids(seeds)));
    assert g == h;
  }

  lemma EnsureOrderMatters(s: State, seeds: seq<Seed>, fails: set<string>, silent: set<string>, f: string, x: string)
    requires Good(s) && f in Unwanted(s, Ids(seeds)) && x in Unwanted(s, Ids(seeds)) && f != x && f in silent
    ensures exists o, p ::
      && IsOrderOf(o, Unwanted(s, Ids(seeds))) && IsOrderOf(p, Unwanted(s, Ids(seeds)))
      && Ensured(s, seeds, fails, o, silent) != Ensured(s, seeds, fails, p, silent)
  {
    var unwanted := Unwanted(s, Ids(seeds));
    var o := EnumerateFrom(unwanted, f);
    var p := EnumerateFrom(unwanted, x);
    var gone := DestroyEachVacates(s, p, silent);
    var id :| id in s.records && s.records[id].address == x;
    assert id in Ensured(s, seeds, fails, o, silent).0.records;
    assert id !in Ensured(s, seeds, fails, p, silent).0.records;
  }

  lemma {:induction false} NoNewSeeds(seeds: seq<Seed>, ids: set<string>)
    requires Ids(seeds) <= ids
    ensures NewSeeds(seeds, ids) == []
  {
    if NewSeeds(seeds, ids) != [] {
      NewSeedsMembers(seeds, ids, NewSeeds(seeds, ids)[0]);
    }
  }

  /** Repeating a successful reconciliation changes nothing and cannot fail. */
  lemma EnsureIsIdempotent(s: State, seeds: seq<Seed>, again: set<string>, order: seq<string>, silent: set<string>)
    requires s.records.Keys == Ids(seeds) && IsOrderOf(order, Unwanted(s, Ids(seeds)))
    ensures Ensured(s, seeds, again, order, silent) == (s, true)
  {
    NoNewSeeds(seeds, s.records.Keys);
    assert Unwanted(s, Ids(seeds)) == {};
    OrderStarts(order, {});
  }

  lemma {:induction false} CreateAllLeaves(s: State, seeds: seq<Seed>, fails: set<string>, id: string)
    requires Good(s) && Creatable(s, seeds)
    requires id in s.records && s.records[id].address !in s.things
    ensures var (t, ok) := CreateAll(s, seeds, fails);
      Good(t) && id in t.records && t.records[id] == s.records[id] && t.records[id].address !in t.things
    decreases |seeds|
  {
    if seeds != [] {
      var ok := seeds[0].id !in fails;
      AddressIsFresh(s, seeds[0]);
      CreateKeepsGood(s, seeds[0], ok);
      if ok {
        CreatableNext(s, seeds, ok);
        CreateAllLeaves(AfterCreate(s, seeds[0], ok), seeds[1..], fails, id);
      }
    }
  }

  // ---------------------------------------------------------------- runs

  datatype Event =
    | Create(seed: Seed, ok: bool)
    | Destroy(address: string)
    | Ensure(seeds: seq<Seed>, fails: set<string>, order: seq<string>, silent: set<string>)
    | Restart(failing: set<string>)

  // Custom addresses are admissible when they are used.
  ghost predicate Allowed(s: State, e: Event) {
    match e
    case Create(seed, _) => Admissible(s, seed)
    case Ensure(seeds, _, order, _) => Ensurable(s, seeds) && IsOrderOf(order, Unwanted(s, Ids(seeds)))
    case _ => true
  }

  ghost function Step(s: State, e: Event): State
    requires Good(s)
  {
    match e
    case Create(seed, ok) => AfterCreate(s, seed, ok)
    case Destroy(address) => AfterDestroy(s, address)
    case Ensure(seeds, fails, order, silent) => Ensured(s, seeds, fails, order, silent).0
    case Restart(failing) => AfterRestart(s, failing)
  }

  // The index does not fall, and whoever has a number issued before already had it then.
  ghost predicate OldNumbersKept(s: State, t: State) {
    && s.addressIndex <= t.addressIndex
    && forall id ::
         (id in t.records && IsNumeric(t.records[id].address) && Value(t.records[id].address) <= s.addressIndex)
         ==> id in s.records && s.records[id].address == t.records[id].address
  }

  lemma CreateKeepsNumbers(s: State, seed: Seed, ok: bool)
    requires Admissible(s, seed)
    ensures OldNumbersKept(s, AfterCreate(s, seed, ok))
  {
    ItoaReadsBack(s.addressIndex + 1);
  }

  lemma {:induction false} CreateAllKeepsNumbers(s: State, seeds: seq<Seed>, fails: set<string>)
    requires Good(s) && Creatable(s, seeds)
    ensures var t := CreateAll(s, seeds, fails).0; Good(t) && OldNumbersKept(s, t)
    decreases |seeds|
  {
    if seeds != [] {
      var ok := seeds[0].id !in fails;
      CreateKeepsGood(s, seeds[0], ok);
      CreateKeepsNumbers(s, seeds[0], ok);
      if ok {
        CreatableNext(s, seeds, ok);
        CreateAllKeepsNumbers(AfterCreate(s, seeds[0], ok), seeds[1..], fails);
      }
    }
  }

  lemma StepKeepsGood(s: State, e: Event)
    requires Good(s) && Allowed(s, e)
    ensures Good(Step(s, e)) && OldNumbersKept(s, Step(s, e))
  {
    match e
    case Create(seed, ok) =>
      CreateKeepsGood(s, seed, ok);
      CreateKeepsNumbers(s, seed, ok);
    case Ensure(seeds, fails, order, silent) =>
      var gone := EnsureDestroys(s, seeds, order, silent);
      VacatedKeeps(s, gone);
      if Unwanted(s, Ids(seeds)) !! silent {
        EnsurableCreates(s, seeds);
        CreateAllKeepsNumbers(Vacated(s, gone), NewSeeds(seeds, s.records.Keys), fails);
      }
    case _ =>
  }

  ghost predicate Reaches(s: State, run: seq<Event>, t: State)
    decreases |run|
  {
    if run == [] then s == t
    else Good(s) && Allowed(s, run[0]) && Reaches(Step(s, run[0]), run[1..], t)
  }

  /** Over every run of creations, destructions, reconciliations and restarts addresses stay unique,
      and a number issued before the run names, after it, only the thing that had it already. */
  lemma {:induction false} AddressesNeverReissued(s: State, run: seq<Event>, t: State)
    requires Good(s) && Reaches(s, run, t)
    ensures Good(t) && OldNumbersKept(s, t)
    decreases |run|
  {
    if run != [] {
      StepKeepsGood(s, run[0]);
      AddressesNeverReissued(Step(s, run[0]), run[1..], t);
    }
  }

  /** Automatic addresses strictly increase as numbers, whatever happens between two of them. */
  lemma AddressesIncrease(s: State, first: Seed, ok: bool, run: seq<Event>, t: State, second: Seed)
    requires Good(s) && first.customAddress == "" && second.customAddress == ""
    requires Reaches(AfterCreate(s, first, ok), run, t)
    ensures Value(AddressFor(s, first)) < Value(AddressFor(t, second))
  {
    CreateKeepsGood(s, first, ok);
    AddressesNeverReissued(AfterCreate(s, first, ok), run, t);
    AutomaticAddress(s, first);
    AutomaticAddress(t, second);
  }

  lemma AutomaticAddress(s: State, seed: Seed)
    requires seed.customAddress == ""
    ensures Value(AddressFor(s, seed)) == s.addressIndex + 1
  {
    ItoaReadsBack(s.addressIndex + 1);
  }

  /** Exchanging an ID for its address and an address for its ID are inverse. */
  lemma ExchangesAreInverse(s: State, run: seq<Event>, t: State, id: string, address: string)
    requires Good(s) && Reaches(s, run, t)
    ensures Unique(t.records)
    ensures (id in t.records && t.records[id].address == address) <==> ByAddress(t.records, address) == Some(id)
  {
    AddressesNeverReissued(s, run, t);
  }

  // ---------------------------------------------------------------- a factory call that failed

  // The event neither destroys the thing nor makes it anew, and in a restart some factory call fails.
  predicate LeavesAlone(s: State, e: Event, id: string, address: string) {
    match e
    case Create(seed, _) => seed.id != id
    case Destroy(a) => a != address
    case Ensure(seeds, _, _, _) => id in Ids(seeds)
    case Restart(failing) => !(s.records.Keys !! failing)
  }

  ghost predicate AllLeaveAlone(s: State, run: seq<Event>, id: string, address: string)
    requires Good(s)
    decreases |run|
  {
    run == [] ||
    (LeavesAlone(s, run[0], id, address)
     && (Good(Step(s, run[0])) ==> AllLeaveAlone(Step(s, run[0]), run[1..], id, address)))
  }

  // A thing on record that is not registered.
  predicate IsStranded(s: State, id: string, record: Record) {
    Get(s.records, id) == Some(record) && record.address !in s.things
  }

  lemma StepStrands(s: State, e: Event, id: string, record: Record)
    requires Good(s) && Allowed(s, e) && IsStranded(s, id, record) && LeavesAlone(s, e, id, record.address)
    ensures IsStranded(Step(s, e), id, record)
  {
    match e
    case Create(seed, _) => AddressIsFresh(s, seed);
    case Ensure(seeds, fails, order, silent) =>
      var gone := EnsureDestroys(s, seeds, order, silent);
      VacatedKeeps(s, gone);
      WantedStay(s, Ids(seeds), gone);
      if Unwanted(s, Ids(seeds)) !! silent {
        EnsurableCreates(s, seeds);
        CreateAllLeaves(Vacated(s, gone), NewSeeds(seeds, s.records.Keys), fails, id);
      }
    case _ =>
  }

  /** A factory call that failed is not made up for: through every run of reconciliations that ask for
      the thing, whatever else is created or destroyed, its record stays and it stays unregistered, until
      a restart in which every factory call succeeds. */
  lemma {:induction false} FailedThingStaysUnregistered(s: State, run: seq<Event>, t: State, id: string, record: Record)
    requires Good(s) && Reaches(s, run, t) && IsStranded(s, id, record)
    requires AllLeaveAlone(s, run, id, record.address)
    ensures IsStranded(t, id, record) && Good(t)
    ensures forall failing :: t.records.Keys !! failing ==> record.address in AfterRestart(t, failing).things
    decreases |run|
  {
    if run != [] {
      StepKeepsGood(s, run[0]);
      StepStrands(s, run[0], id, record);
      FailedThingStaysUnregistered(Step(s, run[0]), run[1..], t, id, record);
    }
  }

  // ---------------------------------------------------------------- what records hold

  // The seed with an ID.
  function SeedFor(seeds: seq<Seed>, id: string): Option<Seed>
    decreases |seeds|
  {
    if seeds == [] then None else if seeds[0].id == id then Some(seeds[0]) else SeedFor(seeds[1..], id)
  }

  // A record made from a seed while the index went from one number to another: with its information, at
  // its custom address or at a number issued in between.
  predicate IsMadeFrom(record: Record, seed: Seed, from: nat, to: nat) {
    && record.info == seed.info
    && if seed.customAddress != "" then record.address == seed.customAddress
       else IsNumeric(record.address) && from < Value(record.address) <= to
  }

  lemma CreateMakes(s: State, seed: Seed, ok: bool)
    ensures var t := AfterCreate(s, seed, ok);
      && Get(t.records, seed.id).Some?
      && IsMadeFrom(t.records[seed.id], seed, s.addressIndex, t.addressIndex)
      && t.addressIndex == s.addressIndex + (if seed.customAddress == "" then 1 else 0)
      && (forall id :: id != seed.id ==> Get(t.records, id) == Get(s.records, id))
  {
    ItoaReadsBack(s.addressIndex + 1);
  }

  // What creating things one by one leaves at an ID.
  lemma {:induction false} CreateAllMakes(s: State, seeds: seq<Seed>, fails: set<string>, id: string)
    requires DistinctIds(seeds)
    ensures var (t, ok) := CreateAll(s, seeds, fails);
      var seed, record := SeedFor(seeds, id), Get(t.records, id);
      && s.addressIndex <= t.addressIndex
      && (ok && seed.Some? ==> record.Some?)
      && (record.Some? && record != Get(s.records, id) ==>
            seed.Some? && IsMadeFrom(record.value, seed.value, s.addressIndex, t.addressIndex))
      && (ok && seed.Some? ==> IsMadeFrom(record.value, seed.value, s.addressIndex, t.addressIndex))
      && (seed.None? ==> record == Get(s.records, id))
    decreases |seeds|
  {
    if seeds != [] {
      var made := seeds[0].id !in fails;
      CreateMakes(s, seeds[0], made);
      SeedForIsFirst(seeds, id);
      if made {
        CreateAllMakes(AfterCreate(s, seeds[0], made), seeds[1..], fails, id);
      }
    }
  }

  lemma SeedForIsFirst(seeds: seq<Seed>, id: string)
    requires seeds != [] && DistinctIds(seeds)
    ensures seeds[0].id == id ==> SeedFor(seeds[1..], id).None?
  {
    SeedForMembers(seeds[1..], id);
  }

  lemma {:induction false} SeedForMembers(seeds: seq<Seed>, id: string)
    ensures SeedFor(seeds, id).Some? <==> exists i :: 0 <= i < |seeds| && seeds[i].id == id
    ensures SeedFor(seeds, id).Some? ==> SeedFor(seeds, id).value in seeds && SeedFor(seeds, id).value.id == id
    decreases |seeds|
  {
    if seeds != [] {
      SeedForMembers(seeds[1..], id);
      if SeedFor(seeds[1..], id).Some? {
        var i :| 0 <= i < |seeds[1..]| && seeds[1..][i].id == id;
        assert seeds[i + 1].id == id;
      }
      if i :| 0 < i < |seeds| && seeds[i].id == id {
        assert seeds[1..][i - 1].id == id;
      }
    }
  }

  lemma SeedForIs(seeds: seq<Seed>, seed: Seed)
    requires DistinctIds(seeds) && seed in seeds
    ensures SeedFor(seeds, seed.id) == Some(seed)
  {
    SeedForMembers(seeds, seed.id);
    var i :| 0 <= i < |seeds| && seeds[i] == seed;
    var j :| 0 <= j < |seeds| && seeds[j] == SeedFor(seeds, seed.id).value;
  }

  /** After a successful reconciliation every seed that had no record has one with its own information, at
      its custom address if it has one and otherwise at a number that was not issued before. */
  lemma EnsureMakesRecords(s: State, seeds: seq<Seed>, fails: set<string>, order: seq<string>, silent: set<string>,
                           seed: Seed)
    requires DistinctIds(seeds) && DistinctCustoms(seeds)
    requires Ensured(s, seeds, fails, order, silent).1 && seed in seeds && seed.id !in s.records
    ensures var t := Ensured(s, seeds, fails, order, silent).0;
      seed.id in t.records && IsMadeFrom(t.records[seed.id], seed, s.addressIndex, t.addressIndex)
  {
    var create := NewSeeds(seeds, s.records.Keys);
    NewSeedsDistinct(seeds, s.records.Keys);
    NewSeedsMembers(seeds, s.records.Keys, seed);
    SeedForIs(create, seed);
    var gone := DestroyEachVacates(s, order, silent);
    CreateAllMakes(DestroyEach(s, order, silent).0, create, fails, seed.id);
  }

  // The address of the record at an ID as a number.
  function NumberAt(s: State, id: string): int { if id in s.records then Value(s.records[id].address) else -1 }

  lemma {:induction false} CreateAllIncreases(s: State, seeds: seq<Seed>, fails: set<string>, i: nat, j: nat)
    requires DistinctIds(seeds) && i < j < |seeds| && CreateAll(s, seeds, fails).1
    requires seeds[i].customAddress == "" && seeds[j].customAddress == ""
    ensures var t := CreateAll(s, seeds, fails).0; NumberAt(t, seeds[i].id) < NumberAt(t, seeds[j].id)
    decreases |seeds|
  {
    var next, rest := AfterCreate(s, seeds[0], true), seeds[1..];
    CreateMakes(s, seeds[0], true);
    if i > 0 {
      CreateAllIncreases(next, rest, fails, i - 1, j - 1);
      assert rest[i - 1] == seeds[i] && rest[j - 1] == seeds[j];
    } else {
      SeedForIs(rest, rest[j - 1]);
      SeedForIsFirst(seeds, seeds[0].id);
      CreateAllMakes(next, rest, fails, seeds[0].id);
      CreateAllMakes(next, rest, fails, seeds[j].id);
    }
  }

  /** Of two seeds that get numbers in a reconciliation, the later gets the larger one. */
  lemma EnsureNumbersInOrder(s: State, seeds: seq<Seed>, fails: set<string>, order: seq<string>,
                             silent: set<string>, i: nat, j: nat)
    requires DistinctIds(seeds) && DistinctCustoms(seeds) && i < j < |seeds|
    requires Ensured(s, seeds, fails, order, silent).1
    requires seeds[i].customAddress == "" && seeds[i].id !in s.records
    requires seeds[j].customAddress == "" && seeds[j].id !in s.records
    ensures var t := Ensured(s, seeds, fails, order, silent).0; NumberAt(t, seeds[i].id) < NumberAt(t, seeds[j].id)
  {
    var create := NewSeeds(seeds, s.records.Keys);
    NewSeedsDistinct(seeds, s.records.Keys);
    var k, l := NewSeedsKeepOrder(seeds, s.records.Keys, i, j);
    CreateAllIncreases(DestroyEach(s, order, silent).0, create, fails, k, l);
  }

  lemma {:induction false} NewSeedsKeepOrder(seeds: seq<Seed>, ids: set<string>, i: nat, j: nat)
    returns (k: nat, l: nat)
    requires i < j < |seeds| && seeds[i].id !in ids && seeds[j].id !in ids
    ensures var create := NewSeeds(seeds, ids); k < l < |create| && create[k] == seeds[i] && create[l] == seeds[j]
    decreases |seeds|
  {
    var init, n := seeds[..|seeds| - 1], |seeds| - 1;
    if j < n {
      k, l := NewSeedsKeepOrder(init, ids, i, j);
    } else {
      NewSeedsMembers(init, ids, seeds[i]);
      assert init[i] == seeds[i];
      k :| 0 <= k < |NewSeeds(init, ids)| && NewSeeds(init, ids)[k] == seeds[i];
      l := |NewSeeds(init, ids)|;
    }
  }

  // The information a record was last given: that of the seed an event creates it from.
  function Given(s: State, t: State, e: Event, id: string): Option<string> {
    match e
    case Create(seed, _) => if seed.id == id then Some(seed.info) else None
    case Ensure(seeds, _, _, _) =>
      if id in t.records && id !in s.records && SeedFor(seeds, id).Some? then Some(SeedFor(seeds, id).value.info)
      else None
    case _ => None
  }

  ghost function LastGiven(info: Option<string>, s: State, run: seq<Event>, id: string): Option<string>
    decreases |run|
  {
    if run == [] || !Good(s) then info
    else
      var t := Step(s, run[0]);
      var given := Given(s, t, run[0], id);
      LastGiven(if given.Some? then given else info, t, run[1..], id)
  }

  lemma StepKeepsInfo(s: State, e: Event, id: string)
    requires Good(s) && Allowed(s, e) && id in Step(s, e).records
    ensures var t := Step(s, e);
      var given := Given(s, t, e, id);
      if given.Some? then t.records[id].info == given.value
      else id in s.records && t.records[id] == s.records[id]
  {
    match e
    case Create(seed, ok) => CreateMakes(s, seed, ok);
    case Ensure(seeds, fails, order, silent) =>
      var gone := EnsureDestroys(s, seeds, order, silent);
      var create := NewSeeds(seeds, s.records.Keys);
      if Unwanted(s, Ids(seeds)) !! silent {
        NewSeedsDistinct(seeds, s.records.Keys);
        CreateAllMakes(Vacated(s, gone), create, fails, id);
        SeedForMembers(create, id);
        if SeedFor(create, id).Some? {
          NewSeedsMembers(seeds, s.records.Keys, SeedFor(create, id).value);
          SeedForIs(seeds, SeedFor(create, id).value);
        }
      }
    case _ =>
  }

  /** Over every run of creations, destructions, reconciliations and restarts a record holds the information
      of the seed it was last created from, and nothing else changes it. */
  lemma {:induction false} InfoIsLastGiven(s: State, run: seq<Event>, t: State, id: string, info: Option<string>)
    requires Good(s) && Reaches(s, run, t) && id in t.records
    requires id in s.records ==> info == Some(s.records[id].info)
    ensures LastGiven(info, s, run, id) == Some(t.records[id].info)
    decreases |run|
  {
    if run != [] {
      StepKeepsGood(s, run[0]);
      var next := Step(s, run[0]);
      var given := Given(s, next, run[0], id);
      if id in next.records {
        StepKeepsInfo(s, run[0], id);
      }
      InfoIsLastGiven(next, run[1..], t, id, if given.Some? then given else info);
    }
  }

  /** A restart registers exactly the persisted things if and only if no factory call fails for one. */
  lemma RestartRegistersIff(s: State, fails: set<string>)
    requires Unique(s.records)
    ensures Registered(AfterRestart(s, fails)) <==> s.records.Keys !! fails
    ensures AfterRestart(s, fails).records == s.records && AfterRestart(s, fails).addressIndex == s.addressIndex
  {
    var t := AfterRestart(s, fails);
    if s.records.Keys !! fails {
      forall id | id in s.records ensures s.records[id].address in t.things {
        assert s.records[id].address in AddressesOf(s.records, s.records.Keys);
      }
    } else {
      var id :| id in s.records && id in fails;
      assert t.records[id].address !in t.things;
    }
  }

  /** Destroying a thing removes what is at its address and nothing else. */
  lemma DestroyRemovesExactly(s: State, address: string, id: string, a: string)
    ensures var t := AfterDestroy(s, address);
      && Get(t.records, id) == (if MayFind(s.records, address, id) then None else Get(s.records, id))
      && Get(t.things, a) == (if a == address then None else Get(s.things, a))
  {
  }
}
