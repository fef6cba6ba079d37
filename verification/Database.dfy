/** A bucketed key space laid over one ordered store.

    A key of a bucket is stored under "bucket:key", a bucket of a domain is the bucket
    "domain:bucket", and range scans run over the concatenated keys in byte order. */
module Database {
  import opened Wrappers
  import opened KeyOrder

  type Byte = c: char | c < 256 as char

  // A string as its bytes.
  type Bytes = seq<Byte>

  const COLON: Byte := ':'
  const LAST: Byte := 255 as char

  // ---------------------------------------------------------------- byte order

  predicate AtMost(a: Bytes, b: Bytes) { !Before(b, a) }

  // Keys of one bucket compare as they do without the bucket.
  lemma {:induction false} PrefixKeepsOrder(p: Bytes, a: Bytes, b: Bytes)
    ensures Before(p + a, p + b) <==> Before(a, b)
  {
    if p == [] {
      assert p + a == a && p + b == b;
    } else {
      assert (p + a)[1..] == p[1..] + a && (p + b)[1..] == p[1..] + b;
      PrefixKeepsOrder(p[1..], a, b);
    }
  }

  // What lies between two keys with a common prefix has that prefix.
  lemma {:induction false} BetweenHasPrefix(p: Bytes, a: Bytes, x: Bytes, b: Bytes)
    requires AtMost(p + a, x) && Before(x, p + b)
    ensures p <= x
  {
    if p != [] {
      assert (p + a)[1..] == p[1..] + a && (p + b)[1..] == p[1..] + b;
      assert x != [] && x[0] == p[0];
      BetweenHasPrefix(p[1..], a, x[1..], b);
      assert x == [x[0]] + x[1..] && p == [p[0]] + p[1..];
    }
  }

  // ---------------------------------------------------------------- keys

  function Prefix(bucket: Bytes): Bytes { bucket + [COLON] }

  function Key(bucket: Bytes, key: Bytes): Bytes { Prefix(bucket) + key }

  function DomainBucket(domain: Bytes, bucket: Bytes): Bytes { domain + [COLON] + bucket }

  predicate ColonFree(s: Bytes) { COLON !in s }

  type Store = map<Bytes, string>

  predicate InBucket(store: Store, bucket: Bytes, key: Bytes) { Key(bucket, key) in store }

  ghost predicate Ascending(keys: seq<Bytes>) {
    forall i, j :: 0 <= i < j < |keys| ==> Before(keys[i], keys[j])
  }

  // The keys are exactly those of the bucket from `from` on and below `to`, in order.
  ghost predicate IsScan(keys: seq<Bytes>, store: Store, bucket: Bytes, from: Bytes, to: Bytes) {
    && Ascending(keys)
    && forall k: Bytes :: k in keys <==> InBucket(store, bucket, k) && AtMost(from, k) && Before(k, to)
  }

  /** The database object over its ordered store. */
  class Base {
    var store: Store

    constructor ()
      ensures store == map[]
    {
      store := map[];
    }

    method Set(bucket: Bytes, key: Bytes, value: string)
      modifies this
      ensures store == old(store)[Key(bucket, key) := value]
    {
      store := store[bucket + [COLON] + key := value];
    }

    method Get(bucket: Bytes, key: Bytes) returns (value: Option<string>)
      ensures value == if InBucket(store, bucket, key) then Some(store[Key(bucket, key)]) else None
    {
      var full := bucket + [COLON] + key;
      return if full in store then Some(store[full]) else None;
    }

    // Deleting an absent key is an error and changes nothing.
    method Delete(bucket: Bytes, key: Bytes) returns (ok: bool)
      modifies this
      ensures ok <==> Key(bucket, key) in old(store)
      ensures store == old(store) - {Key(bucket, key)}
    {
      var full := bucket + [COLON] + key;
      ok := full in store;
      store := store - {full};
    }

    method Reset()
      modifies this
      ensures store == map[]
    {
      store := map[];
    }

    // The store's own scan, by repeatedly taking the least key that is left.
    method AscendRange(from: Bytes, to: Bytes) returns (keys: seq<Bytes>)
      ensures Ascending(keys)
      ensures forall x :: x in keys <==> x in store && AtMost(from, x) && Before(x, to)
    {
      var left := set x | x in store && AtMost(from, x) && Before(x, to);
      ghost var all := left;
      keys := [];
      while left != {}
        invariant left <= all && forall x :: x in all <==> x in keys || x in left
        invariant Ascending(keys)
        invariant forall i, x :: 0 <= i < |keys| && x in left ==> Before(keys[i], x)
        decreases |left|
      {
        var least := Least(left);
        keys := keys + [least];
        left := left - {least};
      }
    }

    method KeysBetween(bucket: Bytes, from: Bytes, to: Bytes) returns (keys: seq<Bytes>)
      ensures IsScan(keys, store, bucket, from, to)
    {
      keys := AscendRange(bucket + [COLON] + from, bucket + [COLON] + to);
      ghost var full := keys;
      RangeIsInBucket(full, store, bucket, from, to);
      var n := |bucket| + 1;
      for i := 0 to |keys|
        invariant |keys| == |full|
        invariant forall j :: 0 <= j < i ==> full[j] == Key(bucket, keys[j])
        invariant forall j :: i <= j < |full| ==> keys[j] == full[j]
      {
        assert full[i] in full;
        keys := keys[i := keys[i][n..]];
      }
      StrippedIsScan(keys, full, store, bucket, from, to);
    }

    // Keys that start with the last byte are left out.
    method KeysFrom(bucket: Bytes, from: Bytes) returns (keys: seq<Bytes>)
      ensures Ascending(keys)
      ensures forall k: Bytes ::
        k in keys <==> InBucket(store, bucket, k) && AtMost(from, k) && (k == [] || k[0] != LAST)
    {
      keys := KeysBetween(bucket, from, [LAST]);
      forall k: Bytes ensures Before(k, [LAST]) <==> k == [] || k[0] != LAST {
        BelowLastIff(k);
      }
    }
  }

  /** A domain's view of the database. */
  class Domain {
    const domain: Bytes
    const base: Base

    constructor (domain: Bytes, base: Base)
      ensures this.domain == domain && this.base == base
    {
      this.domain, this.base := domain, base;
    }

    method Set(bucket: Bytes, key: Bytes, value: string)
      modifies base
      ensures base.store == Written(old(base.store), Write.Set(domain, bucket, key, value))
    {
      base.Set(DomainBucket(domain, bucket), key, value);
    }

    method Delete(bucket: Bytes, key: Bytes) returns (ok: bool)
      modifies base
      ensures ok <==> InBucket(old(base.store), DomainBucket(domain, bucket), key)
      ensures base.store == Written(old(base.store), Write.Delete(domain, bucket, key))
    {
      ok := base.Delete(DomainBucket(domain, bucket), key);
    }

    method Get(bucket: Bytes, key: Bytes) returns (value: Option<string>)
      ensures value.Some? <==> InBucket(base.store, DomainBucket(domain, bucket), key)
      ensures value.Some? ==> value.value == base.store[Key(DomainBucket(domain, bucket), key)]
    {
      value := base.Get(DomainBucket(domain, bucket), key);
    }

    method KeysBetween(bucket: Bytes, from: Bytes, to: Bytes) returns (keys: seq<Bytes>)
      ensures IsScan(keys, base.store, DomainBucket(domain, bucket), from, to)
    {
      keys := base.KeysBetween(DomainBucket(domain, bucket), from, to);
    }
  }

  method Least(keys: set<Bytes>) returns (least: Bytes)
    requires keys != {}
    ensures least in keys && forall x :: x in keys && x != least ==> Before(least, x)
  {
    least :| least in keys;
    var left := keys - {least};
    while left != {}
      invariant left <= keys && least in keys && least !in left
      invariant forall x :: x in keys && x !in left && x != least ==> Before(least, x)
      decreases |left|
    {
      var x :| x in left;
      BeforeIsTotal(least, x);
      if Before(x, least) {
        forall y | y in keys && y !in left && y != least ensures Before(x, y) {
          BeforeIsTransitive(x, least, y);
        }
        least := x;
      }
      left := left - {x};
    }
  }

  // ---------------------------------------------------------------- scans

  lemma RangeIsInBucket(full: seq<Bytes>, store: Store, bucket: Bytes, from: Bytes, to: Bytes)
    requires forall x :: x in full <==> x in store && AtMost(Key(bucket, from), x) && Before(x, Key(bucket, to))
    ensures forall x :: x in full ==> Prefix(bucket) <= x && x == Key(bucket, x[|bucket| + 1..])
  {
    forall x | x in full ensures Prefix(bucket) <= x && x == Key(bucket, x[|bucket| + 1..]) {
      BetweenHasPrefix(Prefix(bucket), from, x, to);
    }
  }

  lemma StrippedIsScan(keys: seq<Bytes>, full: seq<Bytes>, store: Store, bucket: Bytes, from: Bytes, to: Bytes)
    requires Ascending(full) && |keys| == |full|
    requires forall x :: x in full <==> x in store && AtMost(Key(bucket, from), x) && Before(x, Key(bucket, to))
    requires forall j :: 0 <= j < |full| ==> full[j] == Key(bucket, keys[j])
    ensures IsScan(keys, store, bucket, from, to)
  {
    forall i, j | 0 <= i < j < |keys| ensures Before(keys[i], keys[j]) {
      PrefixKeepsOrder(Prefix(bucket), keys[i], keys[j]);
    }
    forall k: Bytes ensures k in keys <==> InBucket(store, bucket, k) && AtMost(from, k) && Before(k, to) {
      PrefixKeepsOrder(Prefix(bucket), k, from);
      PrefixKeepsOrder(Prefix(bucket), k, to);
      if k in keys {
        var j :| 0 <= j < |keys| && keys[j] == k;
        assert full[j] in full;
      }
      if Key(bucket, k) in full {
        var j :| 0 <= j < |full| && full[j] == Key(bucket, k);
        assert Key(bucket, keys[j])[|bucket| + 1..] == keys[j] && Key(bucket, k)[|bucket| + 1..] == k;
      }
    }
  }

  /** There is only one scan of a range: order and contents determine it. */
  lemma {:induction false} ScanIsUnique(a: seq<Bytes>, b: seq<Bytes>)
    requires Ascending(a) && Ascending(b) && forall k :: k in a <==> k in b
    ensures a == b
    decreases |a|
  {
    HeadIsIn(a);
    HeadIsIn(b);
    if a != [] {
      var i :| 0 <= i < |b| && b[i] == a[0];
      var j :| 0 <= j < |a| && a[j] == b[0];
      BeforeIsTotal(a[0], b[0]);
      assert a[0] == b[0];
      forall k ensures k in a[1..] <==> k in b[1..] {
        TailMembers(a, k);
        TailMembers(b, k);
      }
      ScanIsUnique(a[1..], b[1..]);
      assert a == [a[0]] + a[1..] && b == [b[0]] + b[1..];
    }
  }

  lemma HeadIsIn(a: seq<Bytes>)
    ensures a != [] ==> a[0] in a
  {
  }

  lemma TailMembers(a: seq<Bytes>, k: Bytes)
    requires Ascending(a) && a != []
    ensures k in a[1..] <==> k in a && k != a[0]
  {
    BeforeIsTotal(a[0], a[0]);
    assert a == [a[0]] + a[1..];
  }

  // Below the one-byte key of the last byte lie exactly the keys that do not start with it.
  lemma BelowLastIff(k: Bytes)
    ensures Before(k, [LAST]) <==> k == [] || k[0] != LAST
  {
  }

  // ---------------------------------------------------------------- buckets do not mix

  /** The key spaces of two buckets overlap if and only if one bucket's prefix starts with the other's. */
  lemma BucketsOverlapIff(a: Bytes, b: Bytes)
    ensures (exists k, l :: Key(a, k) == Key(b, l)) <==> Prefix(a) <= Prefix(b) || Prefix(b) <= Prefix(a)
  {
    if Prefix(a) <= Prefix(b) {
      assert Key(a, Prefix(b)[|Prefix(a)|..]) == Key(b, []);
    } else if Prefix(b) <= Prefix(a) {
      assert Key(b, Prefix(a)[|Prefix(b)|..]) == Key(a, []);
    }
    if k, l :| Key(a, k) == Key(b, l) {
      var full := Key(a, k);
      assert Prefix(a) == full[..|Prefix(a)|] && Prefix(b) == full[..|Prefix(b)|];
      if |a| <= |b| {
        assert Prefix(a) == Prefix(b)[..|Prefix(a)|];
      } else {
        assert Prefix(b) == Prefix(a)[..|Prefix(b)|];
      }
    }
  }

  /** With colon-free domains and buckets a stored key belongs to one domain, bucket and key. */
  lemma DomainKeyIsUnique(d: Bytes, b: Bytes, k: Bytes, d': Bytes, b': Bytes, k': Bytes)
    requires ColonFree(d) && ColonFree(b) && ColonFree(d') && ColonFree(b')
    requires Key(DomainBucket(d, b), k) == Key(DomainBucket(d', b'), k')
    ensures d == d' && b == b' && k == k'
  {
    assert Key(DomainBucket(d, b), k) == d + [COLON] + (b + [COLON] + k);
    assert Key(DomainBucket(d', b'), k') == d' + [COLON] + (b' + [COLON] + k');
    SplitAt(COLON, d, b + [COLON] + k, d', b' + [COLON] + k');
    SplitAt(COLON, b, k, b', k');
  }

  datatype Write =
    | Set(domain: Bytes, bucket: Bytes, key: Bytes, value: string)
    | Delete(domain: Bytes, bucket: Bytes, key: Bytes)

  function Target(w: Write): Bytes { Key(DomainBucket(w.domain, w.bucket), w.key) }

  function Written(store: Store, w: Write): Store {
    match w
    case Set(_, _, _, value) => store[Target(w) := value]
    case Delete(_, _, _) => store - {Target(w)}
  }

  function WrittenAll(store: Store, ws: seq<Write>): Store
    decreases |ws|
  {
    if ws == [] then store else WrittenAll(Written(store, ws[0]), ws[1..])
  }

  predicate IsElsewhere(w: Write, domain: Bytes, bucket: Bytes) { w.domain != domain || w.bucket != bucket }

  predicate AllElsewhere(ws: seq<Write>, domain: Bytes, bucket: Bytes) {
    forall i :: 0 <= i < |ws| ==>
      ColonFree(ws[i].domain) && ColonFree(ws[i].bucket) && IsElsewhere(ws[i], domain, bucket)
  }

  /** No run of writes to other domains and buckets changes what is stored in a domain's bucket, nor,
      therefore, any scan of it. */
  lemma {:induction false} WritesStayInTheirBucket(store: Store, ws: seq<Write>, domain: Bytes, bucket: Bytes,
                                                   key: Bytes)
    requires ColonFree(domain) && ColonFree(bucket) && AllElsewhere(ws, domain, bucket)
    ensures var full, after := Key(DomainBucket(domain, bucket), key), WrittenAll(store, ws);
      (full in after <==> full in store) && (full in store ==> after[full] == store[full])
    decreases |ws|
  {
    if ws != [] {
      var w := ws[0];
      if Target(w) == Key(DomainBucket(domain, bucket), key) {
        DomainKeyIsUnique(w.domain, w.bucket, w.key, domain, bucket, key);
      }
      WritesStayInTheirBucket(Written(store, w), ws[1..], domain, bucket, key);
    }
  }

  lemma ScansAreUnaffected(store: Store, ws: seq<Write>, domain: Bytes, bucket: Bytes,
                           from: Bytes, to: Bytes, before: seq<Bytes>, after: seq<Bytes>)
    requires ColonFree(domain) && ColonFree(bucket) && AllElsewhere(ws, domain, bucket)
    requires IsScan(before, store, DomainBucket(domain, bucket), from, to)
    requires IsScan(after, WrittenAll(store, ws), DomainBucket(domain, bucket), from, to)
    ensures before == after
  {
    forall k ensures k in before <==> k in after {
      WritesStayInTheirBucket(store, ws, domain, bucket, k);
      var b := DomainBucket(domain, bucket);
      assert InBucket(store, b, k) <==> InBucket(WrittenAll(store, ws), b, k);
    }
    ScanIsUnique(before, after);
  }

  /** Names with colons do mix: a write to bucket "a" changes bucket "a:b". */
  lemma ColonNamesMix(store: Store, a: Bytes, b: Bytes, k: Bytes, value: string)
    ensures InBucket(store[Key(a, b + [COLON] + k) := value], DomainBucket(a, b), k)
  {
    assert Key(a, b + [COLON] + k) == Key(DomainBucket(a, b), k);
  }

  // What the writes leave at a key: the value of the last one there.
  function LastWritten(value: Option<string>, ws: seq<Write>, target: Bytes): Option<string>
    decreases |ws|
  {
    if ws == [] then value
    else
      var next := if Target(ws[0]) != target then value
                  else match ws[0] case Set(_, _, _, v) => Some(v) case Delete(_, _, _) => None;
      LastWritten(next, ws[1..], target)
  }

  /** A read sees the last write to its key, or nothing after a deletion. */
  lemma {:induction false} ReadsSeeLastWrite(store: Store, ws: seq<Write>, target: Bytes)
    ensures Get(WrittenAll(store, ws), target) == LastWritten(Get(store, target), ws, target)
    decreases |ws|
  {
    if ws != [] {
      ReadsSeeLastWrite(Written(store, ws[0]), ws[1..], target);
    }
  }
}
