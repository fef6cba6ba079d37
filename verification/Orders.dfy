/** Orders in which a set may be visited, as a loop over a map does. */
module Orders {
  predicate Distinct(order: seq<string>) { forall i, j :: 0 <= i < j < |order| ==> order[i] != order[j] }

  // Every element once.
  ghost predicate IsOrderOf(order: seq<string>, s: set<string>) {
    Distinct(order) && forall a :: a in order <==> a in s
  }

  lemma OrderStarts(order: seq<string>, s: set<string>)
    requires IsOrderOf(order, s)
    ensures order == [] <==> s == {}
    ensures order != [] ==> order[0] in s && IsOrderOf(order[1..], s - {order[0]})
  {
    if order != [] {
      assert order[0] in order && order == [order[0]] + order[1..];
    }
  }

  lemma OrderConcat(o: seq<string>, s: set<string>, p: seq<string>, t: set<string>)
    requires IsOrderOf(o, s) && IsOrderOf(p, t) && s !! t
    ensures IsOrderOf(o + p, s + t)
  {
    forall i, j | 0 <= i < |o| && 0 <= j < |p| ensures o[i] != p[j] {
      assert o[i] in o && p[j] in p;
    }
  }

  lemma Enumerate(s: set<string>) returns (order: seq<string>)
    ensures IsOrderOf(order, s)
    decreases |s|
  {
    order := [];
    if s != {} {
      var a :| a in s;
      var rest := Enumerate(s - {a});
      order := [a] + rest;
    }
  }

  /** Any element may come first. */
  lemma EnumerateFrom(s: set<string>, first: string) returns (order: seq<string>)
    requires first in s
    ensures IsOrderOf(order, s) && order != [] && order[0] == first
  {
    var rest := Enumerate(s - {first});
    order := [first] + rest;
  }

  /** Visits so far, the next one, and some way to visit the rest make an order of all of them. */
  lemma Completed(order: seq<string>, visited: set<string>, next: string, left: set<string>)
    returns (rest: seq<string>)
    requires IsOrderOf(order, visited) && visited !! {next} && visited !! left && next !in left
    ensures IsOrderOf(order + ([next] + rest), visited + {next} + left)
  {
    rest := Enumerate(left);
    OrderConcat([next], {next}, rest, left);
    OrderConcat(order, visited, [next] + rest, {next} + left);
    assert visited + ({next} + left) == visited + {next} + left;
  }
}
