/** Counters behind "emit once a threshold is reached", one per domain, event and data.

    A counter is found by a single string built from the three; resetting removes every counter
    of a domain and event whose data contains a scope.  Times are readings of one clock. */
module Counters {
  import opened Wrappers

  // Event data with each value in its JSON form, which is how values are compared.
  type Data = map<string, string>

  datatype Counter = Counter(count: nat, last: Option<int>, data: Data)

  type Counters = map<string, Counter>

  ghost predicate Injective(fp: Data -> string) {
    forall a: Data, b: Data :: fp(a) == fp(b) ==> a == b
  }

  predicate NulFree(s: string) { '\0' !in s }

  // What JSON text with sorted keys is: different for different data, and free of NUL.
  ghost predicate IsFingerprint(fp: Data -> string) {
    Injective(fp) && forall data: Data :: NulFree(fp(data))
  }

  function Prefix(domain: string, event: string): string { domain + "\0" + event + "\0" }

  function Key(fp: Data -> string, domain: string, event: string, data: Data): string {
    Prefix(domain, event) + fp(data)
  }

  function Fresh(data: Data): Counter { Counter(0, None, data) }

  predicate IsThrottled(c: Counter, interval: int, now: int) {
    c.last.Some? && now - c.last.value < interval
  }

  predicate Emits(c: Counter, threshold: int, interval: int, now: int) {
    c.count + 1 >= threshold && !IsThrottled(c, interval, now)
  }

  function Bump(c: Counter, threshold: int, reset: bool, interval: int, now: int): Counter {
    if Emits(c, threshold, interval, now) then
      Counter(if reset then 0 else c.count + 1, Some(now), c.data)
    else
      c.(count := c.count + 1)
  }

  function AtKey(cs: Counters, key: string, data: Data): Counter {
    if key in cs then cs[key] else Fresh(data)
  }

  // Every pair of the scope is a pair of the data.
  predicate Contains(data: Data, scope: Data) {
    forall k :: k in scope ==> k in data && data[k] == scope[k]
  }

  datatype Op =
    | Emit(domain: string, event: string, data: Data, threshold: int, reset: bool, interval: int, now: int)
    | Reset(domain: string, event: string, scope: Data)

  function Apply(cs: Counters, op: Op, fp: Data -> string): Counters {
    match op
    case Emit(domain, event, data, threshold, reset, interval, now) =>
      var key := Key(fp, domain, event, data);
      if threshold < 1 then cs
      else cs[key := Bump(AtKey(cs, key, data), threshold, reset, interval, now)]
    case Reset(domain, event, scope) =>
      map k | k in cs && !(Prefix(domain, event) <= k && Contains(cs[k].data, scope)) :: cs[k]
  }

  /** The object that holds the counters. */
  class Emitter {
    var counters: Counters
    const fingerprint: Data -> string

    constructor (fingerprint: Data -> string)
      ensures counters == map[] && this.fingerprint == fingerprint
    {
      counters, this.fingerprint := map[], fingerprint;
    }

    method EmitIfMore(domain: string, event: string, data: Data,
                      threshold: int, reset: bool, interval: int, now: int) returns (emit: bool)
      modifies this
      ensures counters == Apply(old(counters), Emit(domain, event, data, threshold, reset, interval, now), fingerprint)
      ensures var counter := AtKey(old(counters), Key(fingerprint, domain, event, data), data);
        emit <==> threshold >= 1 && Emits(counter, threshold, interval, now)
    {
      if threshold < 1 {
        return false;
      }
      var key := Key(fingerprint, domain, event, data);
      var c := if key in counters then counters[key] else Fresh(data);
      c := c.(count := c.count + 1);
      emit := c.count >= threshold && !(c.last.Some? && now - c.last.value < interval);
      if emit {
        c := c.(last := Some(now));
        if reset {
          c := c.(count := 0);
        }
      }
      counters := counters[key := c];
    }

    // Whatever order the pairs of the scope come in.
    method MatchScope(stored: Data, scope: Data) returns (matches: bool)
      requires Injective(fingerprint)
      ensures matches <==> Contains(stored, scope)
    {
      var left := scope.Keys;
      while left != {}
        invariant left <= scope.Keys
        invariant forall k :: k in scope && k !in left ==> k in stored && stored[k] == scope[k]
      {
        var k :| k in left;
        if k !in stored || fingerprint(map[k := stored[k]]) != fingerprint(map[k := scope[k]]) {
          return false;
        }
        assert map[k := stored[k]][k] == map[k := scope[k]][k];
        left := left - {k};
      }
      return true;
    }

    // Whatever order the counters come in.
    method ResetEventCounters(domain: string, event: string, scope: Data)
      requires Injective(fingerprint)
      modifies this
      ensures counters == Apply(old(counters), Reset(domain, event, scope), fingerprint)
    {
      var left := counters.Keys;
      while left != {}
        invariant left <= counters.Keys
        invariant counters == map k | k in old(counters) &&
                    (k in left || !(Prefix(domain, event) <= k && Contains(old(counters)[k].data, scope)))
                    :: old(counters)[k]
      {
        var k :| k in left;
        left := left - {k};
        if Prefix(domain, event) <= k {
          var matches := MatchScope(counters[k].data, scope);
          if matches {
            counters := counters - {k};
          }
        }
      }
    }
  }

  // ---------------------------------------------------------------- keys do not collide

  lemma PrefixDetermines(d: string, e: string, x: string, d': string, e': string, y: string)
    requires NulFree(d) && NulFree(e) && NulFree(d') && NulFree(e')
    requires Prefix(d, e) + x == Prefix(d', e') + y
    ensures d == d' && e == e' && x == y
  {
    assert Prefix(d, e) + x == d + "\0" + (e + "\0" + x);
    assert Prefix(d', e') + y == d' + "\0" + (e' + "\0" + y);
    SplitAt('\0', d, e + "\0" + x, d', e' + "\0" + y);
    SplitAt('\0', e, x, e', y);
  }

  /** A counter lies under the prefix of a domain and event if and only if its own prefix does. */
  lemma UnderPrefixIff(fp: Data -> string, d: string, e: string, data: Data, d': string, e': string)
    requires NulFree(fp(data))
    ensures Prefix(d', e') <= Key(fp, d, e, data) <==> Prefix(d', e') <= Prefix(d, e)
  {
    var key, own, p := Key(fp, d, e, data), Prefix(d, e), Prefix(d', e');
    assert p[|p| - 1] == '\0';
    assert own == key[..|own|];
  }

  /** Two calls use the same counter if and only if their prefixes and their data are the same. */
  lemma SameCounterIff(fp: Data -> string, d: string, e: string, data: Data, d': string, e': string, data': Data)
    requires IsFingerprint(fp)
    ensures Key(fp, d, e, data) == Key(fp, d', e', data') <==> Prefix(d, e) == Prefix(d', e') && data == data'
  {
    UnderPrefixIff(fp, d, e, data, d', e');
    UnderPrefixIff(fp, d', e', data', d, e);
    var key, p := Key(fp, d, e, data), Prefix(d, e);
    assert key[|p|..] == fp(data) && Key(fp, d', e', data')[|Prefix(d', e')|..] == fp(data');
  }

  // ---------------------------------------------------------------- each counter on its own

  // The operation's prefix leads to the counters of a domain and event only if it is theirs.
  predicate Apart(op: Op, domain: string, event: string) {
    Prefix(op.domain, op.event) <= Prefix(domain, event) ==> op.domain == domain && op.event == event
  }

  // NUL-free names never meet.
  lemma NulFreeIsApart(op: Op, domain: string, event: string)
    requires NulFree(op.domain) && NulFree(op.event) && NulFree(domain) && NulFree(event)
    ensures Apart(op, domain, event)
  {
    var p, own := Prefix(op.domain, op.event), Prefix(domain, event);
    if p <= own {
      assert p + own[|p|..] == own + "";
      PrefixDetermines(op.domain, op.event, own[|p|..], domain, event, "");
    }
  }

  // What one counter goes through when only its own calls and resets are looked at.
  function Alone(c: Option<Counter>, op: Op, domain: string, event: string, data: Data): Option<Counter> {
    if op.domain != domain || op.event != event then c
    else
      match op
      case Emit(_, _, data', threshold, reset, interval, now) =>
        if data' != data || threshold < 1 then c
        else Some(Bump(if c.Some? then c.value else Fresh(data), threshold, reset, interval, now))
      case Reset(_, _, scope) => if Contains(data, scope) then None else c
  }

  function AllAlone(c: Option<Counter>, ops: seq<Op>, domain: string, event: string, data: Data): Option<Counter>
    decreases |ops|
  {
    if ops == [] then c else AllAlone(Alone(c, ops[0], domain, event, data), ops[1..], domain, event, data)
  }

  function ApplyAll(cs: Counters, ops: seq<Op>, fp: Data -> string): Counters
    decreases |ops|
  {
    if ops == [] then cs else ApplyAll(Apply(cs, ops[0], fp), ops[1..], fp)
  }

  // The counter for a domain, event and data holds that data.
  predicate HoldsOwnData(cs: Counters, fp: Data -> string, domain: string, event: string, data: Data) {
    var key := Key(fp, domain, event, data);
    key in cs ==> cs[key].data == data
  }

  lemma StepIsAlone(cs: Counters, op: Op, fp: Data -> string, domain: string, event: string, data: Data)
    requires IsFingerprint(fp) && Apart(op, domain, event)
    requires HoldsOwnData(cs, fp, domain, event, data)
    ensures var key := Key(fp, domain, event, data);
      && HoldsOwnData(Apply(cs, op, fp), fp, domain, event, data)
      && Get(Apply(cs, op, fp), key) == Alone(Get(cs, key), op, domain, event, data)
  {
    UnderPrefixIff(fp, domain, event, data, op.domain, op.event);
    if op.Emit? {
      SameCounterIff(fp, op.domain, op.event, op.data, domain, event, data);
    }
  }

  /** Counters are independent: through any run of calls and resets whose prefixes do not meet its own,
      each counter ends up exactly as if only the calls with its own domain, event and data, and the
      resets of its domain and event whose scope its data contains, had ever happened. */
  lemma {:induction false} CountersAreIndependent(cs: Counters, ops: seq<Op>, fp: Data -> string,
                                                  domain: string, event: string, data: Data)
    requires IsFingerprint(fp)
    requires forall i :: 0 <= i < |ops| ==> Apart(ops[i], domain, event)
    requires HoldsOwnData(cs, fp, domain, event, data)
    ensures var key := Key(fp, domain, event, data);
      Get(ApplyAll(cs, ops, fp), key) == AllAlone(Get(cs, key), ops, domain, event, data)
    decreases |ops|
  {
    if ops != [] {
      StepIsAlone(cs, ops[0], fp, domain, event, data);
      CountersAreIndependent(Apply(cs, ops[0], fp), ops[1..], fp, domain, event, data);
    }
  }

  /** And only then: a reset leaves the counter of another event alone if and only if the prefixes do not
      meet or the counter's data does not contain the scope. */
  lemma ResetIsAloneIff(cs: Counters, fp: Data -> string, domain: string, event: string, data: Data,
                        domain': string, event': string, scope: Data)
    requires IsFingerprint(fp) && Key(fp, domain, event, data) in cs && HoldsOwnData(cs, fp, domain, event, data)
    ensures var key, op := Key(fp, domain, event, data), Reset(domain', event', scope);
      Get(Apply(cs, op, fp), key) == Alone(Get(cs, key), op, domain, event, data)
      <==> Apart(op, domain, event) || !Contains(data, scope)
  {
    UnderPrefixIff(fp, domain, event, data, domain', event');
  }

  /** Names containing NUL can meet: event "b" of domain "a" and event "c" of domain "a\0b" do. */
  lemma NulNamesCollide()
    ensures !Apart(Reset("a", "b", map[]), "a\0b", "c")
  {
    assert Prefix("a", "b") == ['a', '\0', 'b', '\0'];
    assert Prefix("a\0b", "c") == ['a', '\0', 'b', '\0', 'c', '\0'];
  }

  // ---------------------------------------------------------------- how often a counter emits

  // The counter and the times of its emissions after calls at the given times, cleared on emission or not.
  function Calls(data: Data, times: seq<int>, threshold: int, reset: bool, interval: int): (Counter, seq<int>)
    decreases |times|
  {
    if times == [] then (Fresh(data), [])
    else
      var n := |times| - 1;
      var (c, emitted) := Calls(data, times[..n], threshold, reset, interval);
      (Bump(c, threshold, reset, interval, times[n]),
       if Emits(c, threshold, interval, times[n]) then emitted + [times[n]] else emitted)
  }

  predicate NonDecreasing(times: seq<int>) {
    forall i, j :: 0 <= i <= j < |times| ==> times[i] <= times[j]
  }

  predicate Spaced(times: seq<int>, interval: int) {
    forall i :: 0 < i < |times| ==> times[i] - times[i - 1] >= interval
  }

  /** Between resets, with a fixed threshold and the counter cleared on emission: an emission uses up
      at least a threshold of calls, emissions are at least the interval apart, and none is withheld
      beyond the interval. */
  lemma {:induction false} EmissionsArePaidFor(data: Data, times: seq<int>, threshold: int, interval: int)
    requires threshold >= 1
    ensures var (c, emitted) := Calls(data, times, threshold, true, interval);
      && |emitted| * threshold + c.count <= |times|
      && Spaced(emitted, interval)
      && c.last == (if emitted == [] then None else Some(emitted[|emitted| - 1]))
      && (c.count >= threshold ==> emitted != [] && times[|times| - 1] - emitted[|emitted| - 1] < interval)
    decreases |times|
  {
    if times != [] {
      EmissionsArePaidFor(data, times[..|times| - 1], threshold, interval);
      MulNext(|Calls(data, times[..|times| - 1], threshold, true, interval).1|, threshold);
    }
  }

  lemma MulNext(n: int, d: int)
    ensures (n + 1) * d == n * d + d
  {
  }

  /** Without an interval the emissions are the calls divided by the threshold, rounded down, and the
      stored count is the remainder. */
  lemma {:induction false} EmissionsWithoutInterval(data: Data, times: seq<int>, threshold: int)
    requires threshold >= 1 && NonDecreasing(times)
    ensures var (c, emitted) := Calls(data, times, threshold, true, 0);
      && |times| == |emitted| * threshold + c.count && c.count < threshold
      && (c.last.Some? ==> times != [] && c.last.value <= times[|times| - 1])
    decreases |times|
  {
    if times != [] {
      var n := |times| - 1;
      EmissionsWithoutInterval(data, times[..n], threshold);
      var (c, emitted) := Calls(data, times[..n], threshold, true, 0);
      MulNext(|emitted|, threshold);
      assert !IsThrottled(c, 0, times[n]);
    }
  }

  /** A counter that is not cleared counts every call; once the threshold is reached it emits at least the
      interval apart and withholds no emission beyond it. */
  lemma {:induction false} EmissionsWithoutClearing(data: Data, times: seq<int>, threshold: int, interval: int)
    requires threshold >= 1
    ensures var (c, emitted) := Calls(data, times, threshold, false, interval);
      && c.count == |times| && Spaced(emitted, interval)
      && c.last == (if emitted == [] then None else Some(emitted[|emitted| - 1]))
      && (emitted != [] <==> |times| >= threshold)
      && (emitted != [] ==>
            var last, late := times[|times| - 1], emitted[|emitted| - 1]; last == late || last - late < interval)
    decreases |times|
  {
    if times != [] {
      var n := |times| - 1;
      EmissionsWithoutClearing(data, times[..n], threshold, interval);
      CallMore(data, times[..n], times[n], threshold, false, interval);
      assert times[..n] + [times[n]] == times;
    }
  }

  /** Without an interval it emits on every call from the threshold on. */
  lemma {:induction false} EmissionsOnEveryCall(data: Data, times: seq<int>, threshold: int)
    requires threshold >= 1 && NonDecreasing(times)
    ensures var (c, emitted) := Calls(data, times, threshold, false, 0);
      && c.count == |times|
      && emitted == (if |times| < threshold then [] else times[threshold - 1..])
      && (c.last.Some? ==> times != [] && c.last.value <= times[|times| - 1])
    decreases |times|
  {
    if times != [] {
      var n := |times| - 1;
      EmissionsOnEveryCall(data, times[..n], threshold);
      assert !IsThrottled(Calls(data, times[..n], threshold, false, 0).0, 0, times[n]);
      if threshold <= n {
        assert times[threshold - 1..] == times[..n][threshold - 1..] + [times[n]];
      }
    }
  }

  /** The data contains a scope exactly if laying the scope over it changes nothing; so an empty scope is in
      every data. */
  lemma ContainsIff(data: Data, scope: Data)
    ensures Contains(data, scope) <==> data + scope == data
  {
    if Contains(data, scope) {
      assert (data + scope).Keys == data.Keys;
    } else {
      var k :| k in scope && !(k in data && data[k] == scope[k]);
      assert (data + scope)[k] == scope[k];
    }
  }

  // The run does nothing to the counter but call it with this threshold and interval, always or never
  // clearing it on emission.
  predicate OnlyCalls(ops: seq<Op>, domain: string, event: string, data: Data, threshold: int, reset: bool,
                      interval: int)
  {
    forall i :: 0 <= i < |ops| ==>
      || ops[i].domain != domain || ops[i].event != event
      || (ops[i].Emit? && (ops[i].data == data ==>
            ops[i].reset == reset && ops[i].threshold == threshold && ops[i].interval == interval))
      || (ops[i].Reset? && !Contains(data, ops[i].scope))
  }

  /** A run whose operations on one counter are calls with the same threshold and interval leaves that
      counter as the four lemmas about emissions describe. */
  lemma {:induction false} AloneIsCalls(ops: seq<Op>, domain: string, event: string, data: Data,
                                        threshold: int, reset: bool, interval: int)
    requires threshold >= 1 && OnlyCalls(ops, domain, event, data, threshold, reset, interval)
    ensures var c := AllAlone(None, ops, domain, event, data);
      var own := OwnTimes(ops, domain, event, data);
      c == if own == [] then None else Some(Calls(data, own, threshold, reset, interval).0)
    decreases |ops|
  {
    if ops != [] {
      var n := |ops| - 1;
      AloneIsCalls(ops[..n], domain, event, data, threshold, reset, interval);
      AllAloneLast(None, ops, domain, event, data);
      var own := OwnTimes(ops, domain, event, data);
      if own != OwnTimes(ops[..n], domain, event, data) {
        assert own[..|own| - 1] == OwnTimes(ops[..n], domain, event, data);
      }
    }
  }

  function OwnTimes(ops: seq<Op>, domain: string, event: string, data: Data): seq<int>
    decreases |ops|
  {
    if ops == [] then []
    else
      var op, before := ops[|ops| - 1], OwnTimes(ops[..|ops| - 1], domain, event, data);
      if op.Emit? && op.domain == domain && op.event == event && op.data == data then before + [op.now] else before
  }

  lemma {:induction false} AllAloneLast(c: Option<Counter>, ops: seq<Op>, domain: string, event: string, data: Data)
    requires ops != []
    ensures AllAlone(c, ops, domain, event, data)
         == Alone(AllAlone(c, ops[..|ops| - 1], domain, event, data), ops[|ops| - 1], domain, event, data)
    decreases |ops|
  {
    if |ops| > 1 {
      AllAloneLast(Alone(c, ops[0], domain, event, data), ops[1..], domain, event, data);
      assert ops[1..][..|ops| - 2] == ops[..|ops| - 1][1..];
    } else {
      assert ops[..0] == [] && ops[1..] == [];
    }
  }

  // The times at which calls on one counter emitted in a run.
  function Emissions(cs: Counters, ops: seq<Op>, fp: Data -> string, key: string): seq<int>
    decreases |ops|
  {
    if ops == [] then []
    else
      var n := |ops| - 1;
      var op, before := ops[n], Emissions(cs, ops[..n], fp, key);
      if op.Emit? && op.threshold >= 1 && Key(fp, op.domain, op.event, op.data) == key
         && Emits(AtKey(ApplyAll(cs, ops[..n], fp), key, op.data), op.threshold, op.interval, op.now)
      then before + [op.now] else before
  }

  /** In any run, mixed with calls and resets of others, a counter that is only called emits exactly when
      the sequence of its own calls would, so the lemmas about emissions hold there. */
  lemma {:induction false} RunEmitsAsCalls(cs: Counters, ops: seq<Op>, fp: Data -> string,
                                           domain: string, event: string, data: Data, threshold: int, reset: bool,
                                           interval: int)
    requires IsFingerprint(fp) && threshold >= 1 && Key(fp, domain, event, data) !in cs
    requires forall i :: 0 <= i < |ops| ==> Apart(ops[i], domain, event)
    requires OnlyCalls(ops, domain, event, data, threshold, reset, interval)
    ensures Emissions(cs, ops, fp, Key(fp, domain, event, data))
         == Calls(data, OwnTimes(ops, domain, event, data), threshold, reset, interval).1
    decreases |ops|
  {
    if ops != [] {
      var n := |ops| - 1;
      var init, op := ops[..n], ops[n];
      RunEmitsAsCalls(cs, init, fp, domain, event, data, threshold, reset, interval);
      CountersAreIndependent(cs, init, fp, domain, event, data);
      AloneIsCalls(init, domain, event, data, threshold, reset, interval);
      if op.Emit? {
        OwnCallIff(fp, op, domain, event, data);
        if op.domain == domain && op.event == event && op.data == data {
          CallMore(data, OwnTimes(init, domain, event, data), op.now, threshold, reset, interval);
        }
      }
    }
  }

  lemma OwnCallIff(fp: Data -> string, op: Op, domain: string, event: string, data: Data)
    requires IsFingerprint(fp) && op.Emit? && Apart(op, domain, event)
    ensures Key(fp, op.domain, op.event, op.data) == Key(fp, domain, event, data)
       <==> op.domain == domain && op.event == event && op.data == data
  {
    SameCounterIff(fp, op.domain, op.event, op.data, domain, event, data);
  }

  lemma CallMore(data: Data, before: seq<int>, now: int, threshold: int, reset: bool, interval: int)
    ensures var (c, emitted) := Calls(data, before, threshold, reset, interval);
      Calls(data, before + [now], threshold, reset, interval)
      == (Bump(c, threshold, reset, interval, now),
          if Emits(c, threshold, interval, now) then emitted + [now] else emitted)
  {
    assert (before + [now])[..|before|] == before;
  }
}
