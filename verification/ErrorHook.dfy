/** The ring buffer behind the error report: it holds the most recent log entries and drops those
    older than the retention limit when a report is made. */
module ErrorHook {
  const CAPACITY: nat := 64
  const RETENTION: int := 30 * 24 * 3_600_000_000_000

  datatype Entry = Entry(message: string, time: int)

  // ---------------------------------------------------------------- contents, oldest first

  function AfterFire(contents: seq<Entry>, e: Entry): seq<Entry> {
    (if |contents| < CAPACITY then contents else contents[1..]) + [e]
  }

  // Without the expired entries at the front.
  function Purged(contents: seq<Entry>, cutoff: int): seq<Entry> {
    if contents != [] && contents[0].time < cutoff then Purged(contents[1..], cutoff) else contents
  }

  function Messages(contents: seq<Entry>): seq<string> {
    seq(|contents|, i requires 0 <= i < |contents| => contents[i].message)
  }

  // Where the i-th entry after the head is kept.
  function Slot(head: nat, i: nat): (slot: nat)
    requires head < CAPACITY
    ensures slot < CAPACITY
  {
    (head + i) % CAPACITY
  }

  lemma SlotNext(head: nat, i: nat)
    requires head < CAPACITY
    ensures Slot(Slot(head, 1), i) == Slot(head, i + 1)
  {
  }

  lemma SlotsDiffer(head: nat, i: nat, j: nat)
    requires head < CAPACITY && i < j < i + CAPACITY
    ensures Slot(head, i) != Slot(head, j)
  {
  }

  // The entries in the slots from the head on.
  ghost function Window(a: seq<Entry>, head: nat, count: nat): seq<Entry>
    requires |a| == CAPACITY && head < CAPACITY
  {
    seq(count, i requires 0 <= i => a[Slot(head, i)])
  }

  lemma PushEntry(a: seq<Entry>, head: nat, count: nat, e: Entry)
    requires |a| == CAPACITY && head < CAPACITY && count < CAPACITY
    ensures Window(a[Slot(head, count) := e], head, count + 1) == Window(a, head, count) + [e]
  {
    forall i | 0 <= i < count ensures Slot(head, i) != Slot(head, count) {
      SlotsDiffer(head, i, count);
    }
  }

  lemma DropFront(a: seq<Entry>, head: nat, count: nat, e: Entry)
    requires |a| == CAPACITY && head < CAPACITY && 0 < count <= CAPACITY
    ensures Window(a[head := e], Slot(head, 1), count - 1) == Window(a, head, count)[1..]
  {
    forall i | 0 <= i < count - 1 ensures Slot(Slot(head, 1), i) == Slot(head, i + 1) != head {
      SlotNext(head, i);
      SlotsDiffer(head, 0, i + 1);
    }
  }

  lemma Overwrite(a: seq<Entry>, head: nat, e: Entry)
    requires |a| == CAPACITY && head < CAPACITY
    ensures Window(a[head := e], Slot(head, 1), CAPACITY) == Window(a, head, CAPACITY)[1..] + [e]
  {
    DropFront(a, head, CAPACITY, e);
    SlotNext(head, CAPACITY - 1);
    var w := Window(a[head := e], Slot(head, 1), CAPACITY);
    assert w[..CAPACITY - 1] == Window(a[head := e], Slot(head, 1), CAPACITY - 1);
    assert w[CAPACITY - 1] == e;
    assert w == w[..CAPACITY - 1] + [e];
  }

  class Hook {
    const entries: array<Entry>
    var head: nat
    var count: nat

    ghost predicate Valid()
      reads this
    {
      entries.Length == CAPACITY && head < CAPACITY && count <= CAPACITY
    }

    ghost function Contents(): seq<Entry>
      requires Valid()
      reads this, entries
    {
      Window(entries[..], head, count)
    }

    constructor ()
      ensures Valid() && Contents() == [] && fresh(entries)
    {
      entries := new Entry[CAPACITY](_ => Entry("", 0));
      head, count := 0, 0;
    }

    method Fire(e: Entry)
      requires Valid()
      modifies this, entries
      ensures Valid() && Contents() == AfterFire(old(Contents()), e)
    {
      ghost var a := entries[..];
      if count < CAPACITY {
        PushEntry(a, head, count, e);
        entries[(head + count) % CAPACITY] := e;
        assert entries[..] == a[Slot(head, count) := e];
        count := count + 1;
      } else {
        Overwrite(a, head, e);
        entries[head] := e;
        assert entries[..] == a[head := e];
        head := (head + 1) % CAPACITY;
      }
    }

    method PurgeExpired(now: int)
      requires Valid()
      modifies this, entries
      ensures Valid() && Contents() == Purged(old(Contents()), now - RETENTION)
    {
      var cutoff := now - RETENTION;
      while count > 0 && entries[head].time < cutoff
        invariant Valid()
        invariant Purged(Contents(), cutoff) == Purged(old(Contents()), cutoff)
        decreases count
      {
        ghost var a := entries[..];
        assert Contents()[0] == a[Slot(head, 0)] == entries[head];
        DropFront(a, head, count, Entry("", 0));
        entries[head] := Entry("", 0);
        assert entries[..] == a[head := Entry("", 0)];
        head := (head + 1) % CAPACITY;
        count := count - 1;
      }
      assert count > 0 ==> Contents()[0] == entries[head];
    }

    method ErrorsReport(now: int) returns (report: seq<string>)
      requires Valid()
      modifies this, entries
      ensures Valid() && Contents() == Purged(old(Contents()), now - RETENTION)
      ensures report == Messages(Contents())
      ensures |report| == |Contents()| && forall i :: 0 <= i < |report| ==> report[i] == Contents()[i].message
    {
      PurgeExpired(now);
      report := [];
      for i := 0 to count
        invariant |report| == i && forall j :: 0 <= j < i ==> report[j] == Contents()[j].message
      {
        report := report + [entries[(head + i) % CAPACITY].message];
      }
    }
  }

  // ---------------------------------------------------------------- runs

  datatype Event = Fire(entry: Entry) | Report(now: int)

  function Run(events: seq<Event>): seq<Entry>
    decreases |events|
  {
    if events == [] then []
    else
      var before := Run(events[..|events| - 1]);
      match events[|events| - 1]
      case Fire(e) => AfterFire(before, e)
      case Report(now) => Purged(before, now - RETENTION)
  }

  function Fired(events: seq<Event>): seq<Entry>
    decreases |events|
  {
    if events == [] then []
    else
      var before, last := Fired(events[..|events| - 1]), events[|events| - 1];
      if last.Fire? then before + [last.entry] else before
  }

  // The last entries fired, as many as the buffer can hold.
  function Latest(fired: seq<Entry>): seq<Entry> {
    if |fired| <= CAPACITY then fired else fired[|fired| - CAPACITY..]
  }

  // The entries that are not older than the cutoff, wherever they stand.
  function NotOlder(s: seq<Entry>, cutoff: int): seq<Entry> {
    if s == [] then []
    else if s[0].time < cutoff then NotOlder(s[1..], cutoff)
    else [s[0]] + NotOlder(s[1..], cutoff)
  }

  predicate Chronological(s: seq<Entry>) {
    forall i, j :: 0 <= i <= j < |s| ==> s[i].time <= s[j].time
  }

  // No report of the run reads a later clock.
  predicate NoReportAfter(events: seq<Event>, now: int) {
    forall i :: 0 <= i < |events| && events[i].Report? ==> events[i].now <= now
  }

  // The buffer is a tail of what was fired; whatever the latest entries lack was expired already.
  predicate Holds(contents: seq<Entry>, fired: seq<Entry>, cutoff: int) {
    var missing := |fired| - |contents|;
    && |contents| <= CAPACITY && missing >= 0
    && contents == fired[missing..]
    && forall i :: 0 <= i < missing && i >= |fired| - CAPACITY ==> fired[i].time < cutoff
  }

  lemma {:induction false} PurgedIsTail(s: seq<Entry>, cutoff: int)
    ensures var p := Purged(s, cutoff);
      && |p| <= |s| && p == s[|s| - |p|..]
      && (p != [] ==> p[0].time >= cutoff)
      && forall i :: 0 <= i < |s| - |p| ==> s[i].time < cutoff
  {
    if s != [] && s[0].time < cutoff {
      PurgedIsTail(s[1..], cutoff);
      var p := Purged(s[1..], cutoff);
      assert s[1..][|s| - 1 - |p|..] == s[|s| - |p|..];
      assert forall i :: 0 < i < |s| - |p| ==> s[i] == s[1..][i - 1];
    }
  }

  lemma {:induction false} NotOlderIsTail(s: seq<Entry>, n: nat, cutoff: int)
    requires n <= |s| && forall i :: 0 <= i < n ==> s[i].time < cutoff
    requires forall i :: n <= i < |s| ==> s[i].time >= cutoff
    ensures NotOlder(s, cutoff) == s[n..]
  {
    if s != [] {
      NotOlderIsTail(s[1..], if n == 0 then 0 else n - 1, cutoff);
      if n > 0 {
        assert s[1..][n - 1..] == s[n..];
      } else {
        assert s == [s[0]] + s[1..] && s[1..][0..] == s[1..] && s[0..] == s;
      }
    }
  }

  lemma {:induction false} RunHolds(events: seq<Event>, now: int)
    requires NoReportAfter(events, now)
    ensures Holds(Run(events), Fired(events), now - RETENTION)
    decreases |events|
  {
    if events != [] {
      var init, last := events[..|events| - 1], events[|events| - 1];
      RunHolds(init, now);
      match last
      case Fire(e) => FireHolds(Run(init), Fired(init), e, now - RETENTION);
      case Report(at) => PurgeHolds(Run(init), Fired(init), at - RETENTION, now - RETENTION);
    }
  }

  lemma FireHolds(contents: seq<Entry>, fired: seq<Entry>, e: Entry, cutoff: int)
    requires Holds(contents, fired, cutoff)
    ensures Holds(AfterFire(contents, e), fired + [e], cutoff)
  {
    var kept := if |contents| < CAPACITY then contents else contents[1..];
    assert kept == fired[|fired| - |kept|..];
  }

  lemma PurgeHolds(contents: seq<Entry>, fired: seq<Entry>, mark: int, cutoff: int)
    requires Holds(contents, fired, cutoff) && mark <= cutoff
    ensures Holds(Purged(contents, mark), fired, cutoff)
  {
    PurgedIsTail(contents, mark);
    var p, missing := Purged(contents, mark), |fired| - |contents|;
    forall i | missing <= i < |fired| - |p| ensures fired[i].time < cutoff {
      assert fired[i] == contents[i - missing];
    }
    assert contents[|contents| - |p|..] == fired[|fired| - |p|..];
  }

  /** With entries fired in chronological order and reports on a clock that does not run backwards, a
      report returns, oldest first, exactly those of the last 64 fired entries that are not older than
      the retention limit. */
  lemma ReportIsExact(events: seq<Event>, now: int)
    requires Chronological(Fired(events)) && NoReportAfter(events, now)
    ensures Run(events + [Report(now)]) == NotOlder(Latest(Fired(events)), now - RETENTION)
  {
    assert (events + [Report(now)])[..|events|] == events;
    RunHolds(events, now);
    PurgedIsLatest(Run(events), Fired(events), now - RETENTION);
  }

  lemma PurgedIsLatest(contents: seq<Entry>, fired: seq<Entry>, cutoff: int)
    requires Holds(contents, fired, cutoff) && Chronological(fired)
    ensures Purged(contents, cutoff) == NotOlder(Latest(fired), cutoff)
  {
    PurgeHolds(contents, fired, cutoff, cutoff);
    PurgedIsTail(contents, cutoff);
    var p, latest := Purged(contents, cutoff), Latest(fired);
    var skipped, n := |fired| - |latest|, |latest| - |p|;
    forall i | 0 <= i < |latest| ensures latest[i].time < cutoff <==> i < n {
      assert latest[i] == fired[skipped + i];
      if i >= n {
        assert fired[skipped + n] == p[0];
      }
    }
    assert p == latest[n..];
    NotOlderIsTail(latest, n, cutoff);
  }
}
