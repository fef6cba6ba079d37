/** Records that share an address: how they come about, and what destroying and reconciling things may
    then do. */
module SharedAddresses {
  import opened Wrappers
  import opened Orders
  import opened Registry

  // No other record is at the address the seed gets.
  predicate IsFree(s: State, seed: Seed) {
    forall id :: id in s.records && id != seed.id ==> s.records[id].address != AddressFor(s, seed)
  }

  /** Creating a thing keeps addresses unique if and only if no other record is at its address: nothing
      checks custom addresses. */
  lemma CreateKeepsUniqueIff(s: State, seed: Seed, ok: bool)
    requires Unique(s.records)
    ensures Unique(AfterCreate(s, seed, ok).records) <==> IsFree(s, seed)
  {
    var t := AfterCreate(s, seed, ok);
    if !IsFree(s, seed) {
      var id :| id in s.records && id != seed.id && s.records[id].address == AddressFor(s, seed);
      assert t.records[id].address == t.records[seed.id].address;
    }
  }

  /** The record that destroying a thing removes does not depend on the order of the records if and only
      if no two of them share the address. */
  lemma DestroyIsOrderFreeIff(s: State, address: string)
    ensures (forall f, g :: IsFound(s.records, address, f) && IsFound(s.records, address, g) ==>
               Removed(s, address, f) == Removed(s, address, g))
       <==> forall i, j :: MayFind(s.records, address, i) && MayFind(s.records, address, j) ==> i == j
  {
    forall i, j | MayFind(s.records, address, i) && MayFind(s.records, address, j) && i != j
      ensures IsFound(s.records, address, Some(i)) && IsFound(s.records, address, Some(j))
      ensures Removed(s, address, Some(i)) != Removed(s, address, Some(j))
    {
      assert j in Removed(s, address, Some(i)).records && j !in Removed(s, address, Some(j)).records;
    }
  }

  /** Two things created with the same custom address share it, and which of their records a destruction
      removes depends on the order. */
  lemma SameCustomIsShared(s: State, first: Seed, second: Seed, ok: bool, ok': bool)
    requires first.customAddress == second.customAddress != "" && first.id != second.id
    ensures var t := AfterCreate(AfterCreate(s, first, ok), second, ok');
      !Unique(t.records) &&
      exists f, g :: IsFound(t.records, first.customAddress, f) && IsFound(t.records, first.customAddress, g)
                     && Removed(t, first.customAddress, f) != Removed(t, first.customAddress, g)
  {
    var t := AfterCreate(AfterCreate(s, first, ok), second, ok');
    assert MayFind(t.records, first.customAddress, first.id) && MayFind(t.records, first.customAddress, second.id);
    DestroyIsOrderFreeIff(t, first.customAddress);
  }

  // ---------------------------------------------------------------- what a reconciliation keeps

  lemma {:induction false} DestroyKeeps(s: State, addresses: seq<string>, silent: set<string>, t: State, ok: bool,
                                        id: string)
    requires MayDestroy(s, addresses, silent, t, ok) && id in s.records && s.records[id].address !in addresses
    ensures Get(t.records, id) == Get(s.records, id)
    decreases |addresses|
  {
    if addresses != [] {
      var found :|
        && IsFound(s.records, addresses[0], found)
        && var u := Removed(s, addresses[0], found);
           if addresses[0] in silent then t == u && !ok else MayDestroy(u, addresses[1..], silent, t, ok);
      assert addresses[0] in addresses;
      if addresses[0] !in silent {
        DestroyKeeps(Removed(s, addresses[0], found), addresses[1..], silent, t, ok, id);
      }
    }
  }

  lemma SomeFound(records: map<string, Record>, address: string) returns (found: Option<string>)
    ensures IsFound(records, address, found)
  {
    if id :| MayFind(records, address, id) {
      found := Some(id);
    } else {
      found := None;
    }
  }

  // There is always some outcome, and it adds no record.
  lemma {:induction false} SomeOutcome(s: State, addresses: seq<string>, silent: set<string>)
    returns (t: State, ok: bool)
    ensures MayDestroy(s, addresses, silent, t, ok) && t.records.Keys <= s.records.Keys
    decreases |addresses|
  {
    t, ok := s, true;
    if addresses != [] {
      var found := SomeFound(s.records, addresses[0]);
      t, ok := Removed(s, addresses[0], found), false;
      if addresses[0] !in silent {
        t, ok := SomeOutcome(t, addresses[1..], silent);
      }
    }
  }

  lemma {:induction false} CreateAllKeepsOthers(s: State, seeds: seq<Seed>, fails: set<string>, id: string)
    requires id !in Ids(seeds)
    ensures Get(CreateAll(s, seeds, fails).0.records, id) == Get(s.records, id)
    decreases |seeds|
  {
    if seeds != [] {
      IdsOf(seeds);
      CreateAllKeepsOthers(AfterCreate(s, seeds[0], true), seeds[1..], fails, id);
    }
  }

  lemma OnRecordIsNotNew(s: State, seeds: seq<Seed>, id: string)
    requires id in s.records
    ensures id !in Ids(NewSeeds(seeds, s.records.Keys))
  {
    forall seed | seed in NewSeeds(seeds, s.records.Keys) ensures seed.id != id {
      NewSeedsMembers(seeds, s.records.Keys, seed);
    }
  }

  lemma EnsureKeeps(s: State, seeds: seq<Seed>, fails: set<string>, silent: set<string>, ids: seq<string>,
                    t: State, ok: bool, id: string)
    requires IsOrderOf(ids, s.records.Keys - Ids(seeds)) && MayEnsure(s, seeds, fails, silent, ids, t, ok)
    requires id in s.records && s.records[id].address !in Unwanted(s, Ids(seeds))
    ensures Get(t.records, id) == Get(s.records, id)
  {
    var addresses := AddressesIn(s.records, ids);
    var u, destroyed :|
      && MayDestroy(s, addresses, silent, u, destroyed)
      && if destroyed then (t, ok) == CreateAll(u, NewSeeds(seeds, s.records.Keys), fails) else t == u && !ok;
    forall i | 0 <= i < |ids| ensures addresses[i] != s.records[id].address {
      assert ids[i] in ids;
    }
    DestroyKeeps(s, addresses, silent, u, destroyed, id);
    OnRecordIsNotNew(s, seeds, id);
    CreateAllKeepsOthers(u, NewSeeds(seeds, s.records.Keys), fails, id);
  }

  lemma EnsureCanLose(s: State, seeds: seq<Seed>, fails: set<string>, silent: set<string>, id: string)
    returns (ids: seq<string>, t: State, ok: bool)
    requires id in s.records && s.records[id].address in Unwanted(s, Ids(seeds))
    ensures IsOrderOf(ids, s.records.Keys - Ids(seeds)) && MayEnsure(s, seeds, fails, silent, ids, t, ok)
    ensures id !in t.records
  {
    var address := s.records[id].address;
    var other :| other in s.records.Keys - Ids(seeds) && s.records[other].address == address;
    ids := EnumerateFrom(s.records.Keys - Ids(seeds), other);
    var addresses := AddressesIn(s.records, ids);
    var u, destroyed := Removed(s, address, Some(id)), false;
    assert IsFound(s.records, address, Some(id));
    if address !in silent {
      u, destroyed := SomeOutcome(u, addresses[1..], silent);
    }
    assert MayDestroy(s, addresses, silent, u, destroyed);
    t, ok := u, false;
    if destroyed {
      OnRecordIsNotNew(s, seeds, id);
      CreateAllKeepsOthers(u, NewSeeds(seeds, s.records.Keys), fails, id);
      var r := CreateAll(u, NewSeeds(seeds, s.records.Keys), fails);
      t, ok := r.0, r.1;
      assert Get(t.records, id) == None;
    }
  }

  /** A record that a reconciliation asks to keep survives it in every order, whatever fails, if and only if
      no unwanted record shares its address. */
  lemma EnsureKeepsRecordIff(s: State, seeds: seq<Seed>, fails: set<string>, silent: set<string>, id: string)
    requires id in s.records && id in Ids(seeds)
    ensures (forall ids, t, ok ::
               IsOrderOf(ids, s.records.Keys - Ids(seeds)) && MayEnsure(s, seeds, fails, silent, ids, t, ok) ==>
               Get(t.records, id) == Get(s.records, id))
       <==> s.records[id].address !in Unwanted(s, Ids(seeds))
  {
    if s.records[id].address in Unwanted(s, Ids(seeds)) {
      var ids, t, ok := EnsureCanLose(s, seeds, fails, silent, id);
    } else {
      forall ids, t, ok
        | IsOrderOf(ids, s.records.Keys - Ids(seeds)) && MayEnsure(s, seeds, fails, silent, ids, t, ok)
        ensures Get(t.records, id) == Get(s.records, id)
      {
        EnsureKeeps(s, seeds, fails, silent, ids, t, ok, id);
      }
    }
  }
}
