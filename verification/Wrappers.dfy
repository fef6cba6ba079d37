/** What is used throughout the project: optional values, lookups, and texts taken apart. */
module Wrappers {
  datatype Option<+T> = None | Some(value: T)

  function Get<K, V>(m: map<K, V>, k: K): Option<V> { if k in m then Some(m[k]) else None }

  // A text splits in one way at the first separator.
  lemma SplitAt<T>(separator: T, a: seq<T>, x: seq<T>, b: seq<T>, y: seq<T>)
    requires separator !in a && separator !in b && a + [separator] + x == b + [separator] + y
    ensures a == b && x == y
  {
    var s, t := a + [separator] + x, b + [separator] + y;
    assert s[|a|] == separator && t[|b|] == separator;
    assert a == s[..|a|] && b == t[..|b|];
    assert x == s[|a| + 1..] && y == t[|b| + 1..];
  }
}
