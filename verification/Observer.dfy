/** The observer's cache of components: a list kept up to date by notifications between full
    refreshes.  One kind of component is modelled; the others are the same. */
module Observer {
  import opened Wrappers

  datatype Component = Component(id: int, body: string)

  // A notification about a component; its payload may fail to parse.
  datatype Notification =
    | Add(added: Option<Component>)
    | Edit(edited: Option<Component>)
    | Delete(deleted: Option<int>)
    | OtherCommand

  predicate IsMalformed(n: Notification) {
    match n
    case Add(c) => c.None?
    case Edit(c) => c.None?
    case Delete(id) => id.None?
    case OtherCommand => false
  }

  // ---------------------------------------------------------------- the list and the map it stands for

  predicate UniqueIds(list: seq<Component>) {
    forall i, j :: 0 <= i < j < |list| ==> list[i].id != list[j].id
  }

  function AsMap(list: seq<Component>): map<int, Component> {
    if list == [] then map[]
    else AsMap(list[..|list| - 1])[list[|list| - 1].id := list[|list| - 1]]
  }

  // What a notification means for the map.
  function Notified(m: map<int, Component>, n: Notification): map<int, Component> {
    match n
    case Add(Some(c)) => if c.id in m then m else m[c.id := c]
    case Edit(Some(c)) => m[c.id := c]
    case Delete(Some(id)) => m - {id}
    case _ => m
  }

  function AllNotified(m: map<int, Component>, ns: seq<Notification>): map<int, Component>
    decreases |ns|
  {
    if ns == [] then m else Notified(AllNotified(m, ns[..|ns| - 1]), ns[|ns| - 1])
  }

  predicate Has(list: seq<Component>, id: int) { exists i :: 0 <= i < |list| && list[i].id == id }

  lemma {:induction false} AsMapLookup(list: seq<Component>)
    requires UniqueIds(list)
    ensures forall i :: 0 <= i < |list| ==> list[i].id in AsMap(list) && AsMap(list)[list[i].id] == list[i]
    ensures forall id :: id in AsMap(list) ==> Has(list, id)
  {
    if list != [] {
      var init := list[..|list| - 1];
      AsMapLookup(init);
      forall id | id in AsMap(init) ensures Has(list, id) {
        var i :| 0 <= i < |init| && init[i].id == id;
        assert list[i].id == id;
      }
    }
  }

  // A map with these entries, and no others, is the one the list stands for.
  lemma {:induction false} AsMapIs(list: seq<Component>, m: map<int, Component>)
    requires UniqueIds(list)
    requires forall i :: 0 <= i < |list| ==> list[i].id in m && m[list[i].id] == list[i]
    requires forall id :: id in m ==> Has(list, id)
    ensures AsMap(list) == m
  {
    AsMapLookup(list);
    forall id | id in m ensures id in AsMap(list) && AsMap(list)[id] == m[id] {
      var i :| 0 <= i < |list| && list[i].id == id;
    }
    forall id | id in AsMap(list) ensures id in m {
      assert Has(list, id);
    }
  }

  datatype State = State(
    list: seq<Component>,
    refreshed: bool,
    lastRefresh: Option<int>,
    now: int)

  predicate RefreshRequired(s: State, interval: int) {
    !s.refreshed || s.lastRefresh.None? || s.now - s.lastRefresh.value > interval
  }

  /** The observer object. */
  class Observer {
    var list: seq<Component>
    var refreshed: bool
    var lastRefresh: Option<int>
    var now: int
    const interval: int

    constructor (interval: int, now: int)
      ensures list == [] && !refreshed && lastRefresh.None? && this.now == now && this.interval == interval
    {
      list, refreshed, lastRefresh := [], false, None;
      this.interval, this.now := interval, now;
    }

    ghost function View(): State
      reads this
    {
      State(list, refreshed, lastRefresh, now)
    }

    method Find(id: int) returns (k: int)
      ensures k == -1 <==> forall i :: 0 <= i < |list| ==> list[i].id != id
      ensures k != -1 ==> 0 <= k < |list| && list[k].id == id
    {
      for n := 0 to |list|
        invariant forall i :: 0 <= i < n ==> list[i].id != id
      {
        if list[n].id == id {
          return n;
        }
      }
      return -1;
    }

    method AddComponent(c: Component)
      requires UniqueIds(list)
      modifies this`list
      ensures UniqueIds(list) && AsMap(list) == Notified(old(AsMap(list)), Add(Some(c)))
    {
      AsMapLookup(list);
      var k := Find(c.id);
      if k != -1 {
        return;
      }
      list := list + [c];
      assert list[..|list| - 1] == old(list);
    }

    method UpdateComponent(c: Component)
      requires UniqueIds(list)
      modifies this`list
      ensures UniqueIds(list) && AsMap(list) == Notified(old(AsMap(list)), Edit(Some(c)))
    {
      AsMapLookup(list);
      var k := Find(c.id);
      if k != -1 {
        list := list[k := c];
        ReplaceAt(old(list), k, c);
        return;
      }
      list := list + [c];
      assert list[..|list| - 1] == old(list);
    }

    // The last component takes the deleted one's place.
    method DeleteComponent(id: int)
      requires UniqueIds(list)
      modifies this`list
      ensures UniqueIds(list) && AsMap(list) == Notified(old(AsMap(list)), Delete(Some(id)))
    {
      AsMapLookup(list);
      var k := Find(id);
      if k != -1 {
        var last := |list| - 1;
        list := list[k := list[last]];
        list := list[..last];
        SwapDelete(old(list), k, list);
      }
    }

    method Update(n: Notification) returns (ok: bool)
      requires UniqueIds(list)
      modifies this`list, this`refreshed
      ensures UniqueIds(list) && View() == AfterUpdate(old(View()), n, list)
      ensures AsMap(list) == Notified(old(AsMap(list)), n)
      ensures ok <==> !IsMalformed(n)
    {
      if IsMalformed(n) {
        refreshed := false;
        return false;
      }
      ok := true;
      match n
      case Add(c) => AddComponent(c.value);
      case Edit(c) => UpdateComponent(c.value);
      case Delete(id) => DeleteComponent(id.value);
      case OtherCommand =>
    }

    // The answer to a fetch, if one is made; None when it fails.
    method Refresh(force: bool, answer: Option<seq<Component>>) returns (ok: bool)
      modifies this`list, this`refreshed, this`lastRefresh
      ensures View() == AfterRefresh(old(View()), force, answer, interval)
      ensures ok <==> answer.Some? || (!force && !RefreshRequired(old(View()), interval))
    {
      if !force && refreshed && lastRefresh.Some? && now - lastRefresh.value <= interval {
        return true;
      }
      if answer.None? {
        return false;
      }
      list, refreshed, lastRefresh := answer.value, true, Some(now);
      return true;
    }

    method Get(answer: Option<seq<Component>>) returns (components: Option<seq<Component>>)
      modifies this`list, this`refreshed, this`lastRefresh
      ensures View() == AfterRefresh(old(View()), false, answer, interval)
      ensures components == Answered(old(View()), answer, interval)
    {
      var ok := Refresh(false, answer);
      return if ok then Some(list) else None;
    }
  }

  lemma ReplaceAt(list: seq<Component>, k: int, c: Component)
    requires UniqueIds(list) && 0 <= k < |list| && list[k].id == c.id
    ensures UniqueIds(list[k := c]) && AsMap(list[k := c]) == AsMap(list)[c.id := c]
  {
    AsMapLookup(list);
    var after, m := list[k := c], AsMap(list)[c.id := c];
    forall id | id in m ensures Has(after, id) {
      var i :| 0 <= i < |list| && list[i].id == id;
      assert after[i].id == id;
    }
    AsMapIs(after, m);
  }

  lemma SwapDelete(list: seq<Component>, k: int, after: seq<Component>)
    requires UniqueIds(list) && 0 <= k < |list|
    requires after == list[k := list[|list| - 1]][..|list| - 1]
    ensures UniqueIds(after) && AsMap(after) == AsMap(list) - {list[k].id}
  {
    AsMapLookup(list);
    var m, last := AsMap(list) - {list[k].id}, |list| - 1;
    assert forall i :: 0 <= i < |after| ==> after[i] == if i == k then list[last] else list[i];
    forall id | id in m ensures Has(after, id) {
      var i :| 0 <= i < |list| && list[i].id == id;
      assert after[if i == last then k else i].id == id;
    }
    AsMapIs(after, m);
  }

  // ---------------------------------------------------------------- runs

  // The list after a notification is whatever the update made of it.
  function AfterUpdate(s: State, n: Notification, list: seq<Component>): State {
    s.(list := list, refreshed := s.refreshed && !IsMalformed(n))
  }

  function AfterRefresh(s: State, force: bool, answer: Option<seq<Component>>, interval: int): State {
    if (force || RefreshRequired(s, interval)) && answer.Some? then
      s.(list := answer.value, refreshed := true, lastRefresh := Some(s.now))
    else s
  }

  // What Get returns: nothing when a fetch was needed and failed.
  function Answered(s: State, answer: Option<seq<Component>>, interval: int): Option<seq<Component>> {
    if RefreshRequired(s, interval) && answer.None? then None
    else Some(AfterRefresh(s, false, answer, interval).list)
  }

  datatype Event =
    | Notify(n: Notification)
    | Fetch(force: bool, answer: Option<seq<Component>>)   // a refresh, or the one a Get starts with
    | Tick(dt: nat)

  // A step of the cache; any list that stands for the notified map may follow a notification.
  ghost predicate Step(s: State, e: Event, t: State, interval: int) {
    match e
    case Notify(n) =>
      UniqueIds(t.list) && AsMap(t.list) == Notified(AsMap(s.list), n) && t == AfterUpdate(s, n, t.list)
    case Fetch(force, answer) => t == AfterRefresh(s, force, answer, interval)
    case Tick(dt) => t == s.(now := s.now + dt)
  }

  // What has been observed: the latest snapshot and the notifications since.
  datatype Observed = Observed(snapshot: seq<Component>, since: seq<Notification>)

  function Observe(o: Observed, s: State, e: Event, interval: int): Observed {
    match e
    case Notify(n) => o.(since := o.since + [n])
    case Fetch(force, answer) =>
      if (force || RefreshRequired(s, interval)) && answer.Some? then Observed(answer.value, []) else o
    case Tick(_) => o
  }

  predicate UniqueAnswer(e: Event) { e.Fetch? && e.answer.Some? ==> UniqueIds(e.answer.value) }

  // The run leads from s and o to t and p, every snapshot having unique IDs.
  ghost predicate Reaches(s: State, o: Observed, run: seq<Event>, t: State, p: Observed, interval: int)
    decreases |run|
  {
    if run == [] then s == t && o == p
    else
      UniqueAnswer(run[0]) &&
      exists mid :: (
        Step(s, run[0], mid, interval) && Reaches(mid, Observe(o, s, run[0], interval), run[1..], t, p, interval))
  }

  ghost predicate Follows(s: State, o: Observed) {
    UniqueIds(s.list) && AsMap(s.list) == AllNotified(AsMap(o.snapshot), o.since)
  }

  lemma StepFollows(s: State, o: Observed, e: Event, t: State, interval: int)
    requires Follows(s, o) && UniqueAnswer(e) && Step(s, e, t, interval)
    ensures Follows(t, Observe(o, s, e, interval))
  {
    if e.Notify? {
      assert (o.since + [e.n])[..|o.since|] == o.since;
    }
  }

  /** After any run of notifications, refreshes and failures, what Get returns has unique IDs and is,
      as a map, the latest snapshot with just the notifications after it. */
  lemma {:induction false} CacheFollowsObservations(s: State, o: Observed, run: seq<Event>, t: State, p: Observed,
                                                    answer: Option<seq<Component>>, interval: int)
    requires Follows(s, o) && Reaches(s, o, run, t, p, interval)
    requires answer.Some? ==> UniqueIds(answer.value)
    ensures Follows(t, p)
    ensures var got, q := Answered(t, answer, interval), Observe(p, t, Fetch(false, answer), interval);
      got.Some? ==> UniqueIds(got.value) && AsMap(got.value) == AllNotified(AsMap(q.snapshot), q.since)
    decreases |run|
  {
    if run == [] {
      StepFollows(t, p, Fetch(false, answer), AfterRefresh(t, false, answer, interval), interval);
    } else {
      var mid :|
        Step(s, run[0], mid, interval) && Reaches(mid, Observe(o, s, run[0], interval), run[1..], t, p, interval);
      StepFollows(s, o, run[0], mid, interval);
      CacheFollowsObservations(mid, Observe(o, s, run[0], interval), run[1..], t, p, answer, interval);
    }
  }

  /** After a notification that could not be processed, no Get succeeds until a fetch does. */
  lemma {:induction false} FailedUpdateForcesFetch(s: State, o: Observed, run: seq<Event>, t: State, p: Observed,
                                                   interval: int)
    requires !s.refreshed && Reaches(s, o, run, t, p, interval)
    requires forall i :: 0 <= i < |run| ==> !(run[i].Fetch? && run[i].answer.Some?)
    ensures Answered(t, None, interval) == None && !t.refreshed
    decreases |run|
  {
    if run != [] {
      var mid :|
        Step(s, run[0], mid, interval) && Reaches(mid, Observe(o, s, run[0], interval), run[1..], t, p, interval);
      FailedUpdateForcesFetch(mid, Observe(o, s, run[0], interval), run[1..], t, p, interval);
    }
  }

  // ---------------------------------------------------------------- what notifications mean

  // The notification changes or removes a component that is there.
  predicate Touches(n: Notification, id: int) {
    (n.Edit? && n.edited.Some? && n.edited.value.id == id) || (n.Delete? && n.deleted == Some(id))
  }

  predicate Creates(n: Notification, id: int) {
    (n.Add? && n.added.Some? && n.added.value.id == id) || (n.Edit? && n.edited.Some? && n.edited.value.id == id)
  }

  lemma {:induction false} ComponentStays(m: map<int, Component>, ns: seq<Notification>, id: int)
    requires id in m && forall i :: 0 <= i < |ns| ==> !Touches(ns[i], id)
    ensures Wrappers.Get(AllNotified(m, ns), id) == Some(m[id])
    decreases |ns|
  {
    if ns != [] {
      ComponentStays(m, ns[..|ns| - 1], id);
    }
  }

  lemma {:induction false} ComponentStaysAway(m: map<int, Component>, ns: seq<Notification>, id: int)
    requires id !in m && forall i :: 0 <= i < |ns| ==> !Creates(ns[i], id)
    ensures id !in AllNotified(m, ns)
    decreases |ns|
  {
    if ns != [] {
      ComponentStaysAway(m, ns[..|ns| - 1], id);
    }
  }

  /** Whatever came before: an edited component is there as edited, until it is edited again or deleted,
      further additions of it notwithstanding; an added one likewise, unless it was there already, when it
      stays what it was; a deleted one is gone until it is added or edited. */
  lemma NotificationsLast(m: map<int, Component>, c: Component, after: seq<Notification>)
    ensures (forall i :: 0 <= i < |after| ==> !Touches(after[i], c.id)) ==>
      && Wrappers.Get(AllNotified(Notified(m, Edit(Some(c))), after), c.id) == Some(c)
      && Wrappers.Get(AllNotified(Notified(m, Add(Some(c))), after), c.id)
         == Some(if c.id in m then m[c.id] else c)
    ensures (forall i :: 0 <= i < |after| ==> !Creates(after[i], c.id)) ==>
      c.id !in AllNotified(Notified(m, Delete(Some(c.id))), after)
  {
    if forall i :: 0 <= i < |after| ==> !Touches(after[i], c.id) {
      ComponentStays(Notified(m, Edit(Some(c))), after, c.id);
      ComponentStays(Notified(m, Add(Some(c))), after, c.id);
    }
    if forall i :: 0 <= i < |after| ==> !Creates(after[i], c.id) {
      ComponentStaysAway(Notified(m, Delete(Some(c.id))), after, c.id);
    }
  }

  // ---------------------------------------------------------------- when a fetch is made

  // Neither a notification that cannot be processed nor a successful fetch.
  predicate KeepsAge(e: Event) {
    match e
    case Notify(n) => !IsMalformed(n)
    case Fetch(_, answer) => answer.None?
    case Tick(_) => true
  }

  lemma {:induction false} AgeIsKnown(s: State, o: Observed, run: seq<Event>, t: State, p: Observed, interval: int)
    requires Reaches(s, o, run, t, p, interval) && s.refreshed
    requires forall i :: 0 <= i < |run| ==> KeepsAge(run[i])
    ensures t.refreshed && t.lastRefresh == s.lastRefresh
    decreases |run|
  {
    if run != [] {
      var mid :|
        Step(s, run[0], mid, interval) && Reaches(mid, Observe(o, s, run[0], interval), run[1..], t, p, interval);
      AgeIsKnown(mid, Observe(o, s, run[0], interval), run[1..], t, p, interval);
    }
  }

  /** After a successful fetch a Get makes no other, and returns what is there, exactly while the fetch is not
      older than the interval, as long as every notification can be processed. */
  lemma GetNeedsFetchIff(s: State, answer: seq<Component>, o: Observed, run: seq<Event>, t: State, p: Observed,
                         interval: int)
    requires Reaches(AfterRefresh(s, true, Some(answer), interval), o, run, t, p, interval)
    requires forall i :: 0 <= i < |run| ==> KeepsAge(run[i])
    ensures t.now - s.now <= interval ==> forall a :: Answered(t, a, interval) == Some(t.list)
    ensures t.now - s.now > interval ==> forall a :: Answered(t, a, interval) == a
  {
    AgeIsKnown(AfterRefresh(s, true, Some(answer), interval), o, run, t, p, interval);
  }

  /** Whatever state it finds, a notification whose payload cannot be read keeps every Get from succeeding
      until a fetch does, and changes no component; one with an unknown command changes nothing at all. */
  lemma UnreadableNotifications(s: State, n: Notification, o: Observed, run: seq<Event>, t: State, p: Observed,
                                interval: int)
    requires n == Add(None) || n == Edit(None) || n == Delete(None)
    requires Reaches(AfterUpdate(s, n, s.list), o, run, t, p, interval)
    requires forall i :: 0 <= i < |run| ==> !(run[i].Fetch? && run[i].answer.Some?)
    ensures Answered(t, None, interval) == None
    ensures Notified(AsMap(s.list), n) == Notified(AsMap(s.list), OtherCommand) == AsMap(s.list)
    ensures AfterUpdate(s, OtherCommand, s.list) == s
  {
    FailedUpdateForcesFetch(AfterUpdate(s, n, s.list), o, run, t, p, interval);
  }

  lemma AppendComponent(list: seq<Component>, c: Component)
    requires UniqueIds(list) && !Has(list, c.id)
    ensures UniqueIds(list + [c]) && AsMap(list + [c]) == AsMap(list)[c.id := c] && c.id !in AsMap(list)
  {
    AsMapLookup(list);
    assert (list + [c])[..|list|] == list;
  }

  lemma SomeListFollows(before: seq<Component>, n: Notification) returns (list: seq<Component>)
    requires UniqueIds(before)
    ensures UniqueIds(list) && AsMap(list) == Notified(AsMap(before), n)
  {
    AsMapLookup(before);
    list := before;
    match n
    case Add(Some(c)) =>
      if !Has(before, c.id) {
        AppendComponent(before, c);
        list := before + [c];
      }
    case Edit(Some(c)) =>
      if k :| 0 <= k < |before| && before[k].id == c.id {
        ReplaceAt(before, k, c);
        list := before[k := c];
      } else {
        AppendComponent(before, c);
        list := before + [c];
      }
    case Delete(Some(id)) =>
      if k :| 0 <= k < |before| && before[k].id == id {
        list := before[k := before[|before| - 1]][..|before| - 1];
        SwapDelete(before, k, list);
      } else {
        assert !Has(before, id);
        assert AsMap(before) - {id} == AsMap(before);
      }
    case _ =>
  }

  /** The cache can follow every notification from every list with unique IDs. */
  lemma NotificationCanHappen(s: State, n: Notification, interval: int)
    requires UniqueIds(s.list)
    ensures exists t :: Step(s, Notify(n), t, interval)
  {
    var list := SomeListFollows(s.list, n);
    assert Step(s, Notify(n), AfterUpdate(s, n, list), interval);
  }
}
