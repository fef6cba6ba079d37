/** Texts in byte order, and the keys of a map in the order an encoder writes them. */
module KeyOrder {
  predicate Before(a: string, b: string) {
    b != "" && (a == "" || a[0] < b[0] || (a[0] == b[0] && Before(a[1..], b[1..])))
  }

  lemma {:induction false} BeforeIsTransitive(a: string, b: string, c: string)
    requires Before(a, b) && Before(b, c)
    ensures Before(a, c)
  {
    if a != "" && a[0] == b[0] == c[0] {
      BeforeIsTransitive(a[1..], b[1..], c[1..]);
    }
  }

  lemma {:induction false} BeforeIsTotal(a: string, b: string)
    ensures Before(a, b) || Before(b, a) || a == b
    ensures !(Before(a, b) && Before(b, a)) && (a == b ==> !Before(a, b))
  {
    if a != "" && b != "" {
      BeforeIsTotal(a[1..], b[1..]);
      assert a == [a[0]] + a[1..] && b == [b[0]] + b[1..];
    }
  }

  predicate IsFirst(k: string, keys: set<string>) {
    k in keys && forall j :: j in keys ==> j == k || Before(k, j)
  }

  lemma {:induction false} HasFirst(keys: set<string>) returns (first: string)
    requires keys != {}
    ensures IsFirst(first, keys)
    decreases |keys|
  {
    var k :| k in keys;
    if keys == {k} {
      return k;
    }
    var rest := keys - {k};
    var r := HasFirst(rest);
    BeforeIsTotal(k, r);
    if Before(r, k) {
      return r;
    }
    forall j | j in keys ensures j == k || Before(k, j) {
      if j in rest && j != r {
        BeforeIsTransitive(k, r, j);
      }
    }
    return k;
  }

  function First(keys: set<string>): (first: string)
    requires keys != {}
    ensures IsFirst(first, keys)
  {
    FirstIsUnique(keys);
    var k :| IsFirst(k, keys);
    k
  }

  lemma FirstIsUnique(keys: set<string>)
    requires keys != {}
    ensures exists k :: IsFirst(k, keys)
    ensures forall j, k :: IsFirst(j, keys) && IsFirst(k, keys) ==> j == k
  {
    var _ := HasFirst(keys);
    forall j, k | IsFirst(j, keys) && IsFirst(k, keys) ensures j == k {
      BeforeIsTotal(j, k);
    }
  }

  /** The keys in ascending order, each once. */
  function Sorted(keys: set<string>): (s: seq<string>)
    ensures forall k :: k in s <==> k in keys
    ensures forall i, j :: 0 <= i < j < |s| ==> Before(s[i], s[j])
    decreases |keys|
  {
    if keys == {} then []
    else
      var k := First(keys);
      [k] + Sorted(keys - {k})
  }
}
