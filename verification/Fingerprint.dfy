/** A fingerprint of event data: its JSON text with the keys in order. */
module Fingerprint {
  import opened Wrappers
  import opened Json
  import opened JsonLaws
  import opened KeyOrder
  import Counters

  // ---------------------------------------------------------------- escaping

  predicate NeedsEscape(c: char) { c < ' ' || c == '"' || c == '\\' }

  function Hex(n: nat): (c: char)
    requires n < 16
    ensures IsHex(c)
  {
    if n < 10 then ('0' as int + n) as char else ('a' as int + n - 10) as char
  }

  function EscapedChar(c: char): string {
    if NeedsEscape(c) then ['\\', 'u', '0', '0', Hex(c as int / 16), Hex(c as int % 16)] else [c]
  }

  function Escaped(s: string): string { if s == "" then "" else EscapedChar(s[0]) + Escaped(s[1..]) }

  lemma {:induction false} EscapedIsStringBody(s: string)
    ensures IsStringBody(Escaped(s))
  {
    if s != "" {
      EscapedIsStringBody(s[1..]);
      var front, e := EscapedChar(s[0]), Escaped(s);
      assert e[|front|..] == Escaped(s[1..]);
    }
  }

  lemma HexDetermines(m: nat, n: nat)
    requires m < 16 && n < 16 && Hex(m) == Hex(n)
    ensures m == n
  {
  }

  lemma EscapedCharDetermines(c: char, x: string, d: char, y: string)
    requires EscapedChar(c) + x == EscapedChar(d) + y
    ensures c == d && x == y
  {
    var s, t := EscapedChar(c) + x, EscapedChar(d) + y;
    assert s[0] == t[0];
    assert x == s[|EscapedChar(c)|..] && y == t[|EscapedChar(d)|..];
    if NeedsEscape(c) {
      assert s[4] == t[4] && s[5] == t[5];
      HexDetermines(c as int / 16, d as int / 16);
      HexDetermines(c as int % 16, d as int % 16);
    }
  }

  lemma {:induction false} EscapedDetermines(s: string, t: string)
    requires Escaped(s) == Escaped(t)
    ensures s == t
  {
    if s != "" && t != "" {
      EscapedCharDetermines(s[0], Escaped(s[1..]), t[0], Escaped(t[1..]));
      EscapedDetermines(s[1..], t[1..]);
      assert s == [s[0]] + s[1..] && t == [t[0]] + t[1..];
    }
  }

  // ---------------------------------------------------------------- the fingerprint

  function Pairs(data: Counters.Data, keys: seq<string>): Items
    requires forall k :: k in keys ==> k in data
  {
    if keys == [] then End
    else More(Escaped(keys[0]), Str(Escaped(data[keys[0]])), Pairs(data, keys[1..]))
  }

  function Of(data: Counters.Data): string { Text(Obj(Pairs(data, Sorted(data.Keys))), 0) }

  lemma {:induction false} PairsAreWritable(data: Counters.Data, keys: seq<string>)
    requires forall k :: k in keys ==> k in data
    ensures WritableItems(Pairs(data, keys), true)
  {
    if keys != [] {
      EscapedIsStringBody(keys[0]);
      EscapedIsStringBody(data[keys[0]]);
      PairsAreWritable(data, keys[1..]);
    }
  }

  lemma {:induction false} PairsDetermine(a: Counters.Data, ks: seq<string>, b: Counters.Data, ls: seq<string>)
    requires (forall k :: k in ks ==> k in a) && (forall k :: k in ls ==> k in b)
    requires Pairs(a, ks) == Pairs(b, ls)
    ensures ks == ls && forall k :: k in ks ==> a[k] == b[k]
  {
    if ks != [] && ls != [] {
      EscapedDetermines(ks[0], ls[0]);
      EscapedDetermines(a[ks[0]], b[ls[0]]);
      PairsDetermine(a, ks[1..], b, ls[1..]);
      assert ks == [ks[0]] + ks[1..] && ls == [ls[0]] + ls[1..];
    }
  }

  lemma Determines(a: Counters.Data, b: Counters.Data)
    requires Of(a) == Of(b)
    ensures a == b
  {
    var ks, ls := Sorted(a.Keys), Sorted(b.Keys);
    PairsAreWritable(a, ks);
    PairsAreWritable(b, ls);
    ReadsBack(Obj(Pairs(a, ks)));
    ReadsBack(Obj(Pairs(b, ls)));
    PairsDetermine(a, ks, b, ls);
    assert forall k :: k in a <==> k in b;
  }

  // ---------------------------------------------------------------- no NUL in a JSON text

  lemma {:induction false} BodyIsNulFree(s: string)
    requires IsStringBody(s)
    ensures Counters.NulFree(s)
    decreases |s|
  {
    if s != "" {
      var n := if s[0] == '\\' then EscapeLength(s) else 1;
      BodyIsNulFree(s[n..]);
      assert s == s[..n] + s[n..];
      assert forall i :: 0 <= i < n ==> s[i] != '\0';
    }
  }

  lemma {:induction false} TabsAreNulFree(n: nat)
    ensures Counters.NulFree(Tabs(n))
  {
    if n > 0 {
      TabsAreNulFree(n - 1);
    }
  }

  lemma {:induction false} TextIsNulFree(v: Json, depth: nat)
    requires Writable(v)
    ensures Counters.NulFree(Text(v, depth))
    decreases v, 0
  {
    match v
    case Str(lit) => BodyIsNulFree(lit);
    case Arr(items) => InsideIsNulFree(items, false, depth);
    case Obj(items) => InsideIsNulFree(items, true, depth);
    case _ =>
  }

  lemma {:induction false} InsideIsNulFree(items: Items, keyed: bool, depth: nat)
    requires WritableItems(items, keyed)
    ensures Counters.NulFree(Inside(items, keyed, depth))
    decreases items, 1
  {
    LinesAreNulFree(items, keyed, depth + 1);
    TabsAreNulFree(depth);
  }

  lemma {:induction false} LinesAreNulFree(items: Items, keyed: bool, depth: nat)
    requires WritableItems(items, keyed)
    ensures Counters.NulFree(Lines(items, keyed, depth))
    decreases items, 0
  {
    if items.More? {
      TabsAreNulFree(depth);
      if keyed {
        BodyIsNulFree(items.key);
      }
      TextIsNulFree(items.value, depth);
      LinesAreNulFree(items.rest, keyed, depth);
    }
  }

  /** It is what the counters need: different for different data, and free of NUL. */
  lemma JsonIsFingerprint()
    ensures Counters.IsFingerprint(Of)
  {
    forall a, b | Of(a) == Of(b) ensures a == b {
      Determines(a, b);
    }
    forall data ensures Counters.NulFree(Of(data)) {
      PairsAreWritable(data, Sorted(data.Keys));
      TextIsNulFree(Obj(Pairs(data, Sorted(data.Keys))), 0);
    }
  }
}
