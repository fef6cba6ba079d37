/** The adapter's lookup of things and services by message topic, over all of its things. */
module Lookup {
  import opened Wrappers
  import opened Orders
  import opened Things

  type Index = map<string, Service>

  predicate Matches(index: Index, message: string) { exists t :: t in index && IsSuffix(t, message) }

  // The address of the first thing in the order that has a service for the message.
  function Answer(order: seq<string>, indexes: map<string, Index>, message: string): (address: Option<string>)
    ensures address.Some? ==>
      address.value in order && address.value in indexes && Matches(indexes[address.value], message)
    ensures address.None? ==> forall a :: a in order && a in indexes ==> !Matches(indexes[a], message)
  {
    if order == [] then None
    else if order[0] in indexes && Matches(indexes[order[0]], message) then Some(order[0])
    else Answer(order[1..], indexes, message)
  }

  ghost function Indexes(things: map<string, Thing>): map<string, Index>
    reads things.Values
  {
    map a | a in things :: things[a].services
  }

  /** Looks through the things in any order. */
  method ThingByTopic(things: map<string, Thing>, message: string)
    returns (address: Option<string>, service: Option<Service>, ghost order: seq<string>)
    requires forall a :: a in things ==> things[a].Valid()
    ensures IsOrderOf(order, things.Keys) && address == Answer(order, Indexes(things), message)
    ensures address.Some? <==> service.Some?
    ensures service.Some? ==>
      && IsSuffix(service.value.topic, message)
      && Get(things[address.value].services, service.value.topic) == service
  {
    order := [];
    var left := things.Keys;
    ghost var visited, indexes := {}, Indexes(things);
    while left != {}
      invariant visited + left == things.Keys && visited !! left && IsOrderOf(order, visited)
      invariant forall a :: a in order && a in indexes ==> !Matches(indexes[a], message)
    {
      var a :| a in left;
      left := left - {a};
      var s := things[a].ServiceByTopic(message);
      if s.Some? {
        ghost var rest := Completed(order, visited, a, left);
        AnswerAfter(order, [a] + rest, indexes, message);
        order := order + ([a] + rest);
        return Some(a), s, order;
      }
      OrderConcat(order, visited, [a], {a});
      order, visited := order + [a], visited + {a};
    }
    return None, None, order;
  }

  lemma {:induction false} AnswerAfter(before: seq<string>, after: seq<string>, indexes: map<string, Index>,
                                       message: string)
    requires forall a :: a in before && a in indexes ==> !Matches(indexes[a], message)
    ensures Answer(before + after, indexes, message) == Answer(after, indexes, message)
  {
    if before == [] {
      assert before + after == after;
    } else {
      assert before[0] in before && (before + after)[1..] == before[1..] + after;
      AnswerAfter(before[1..], after, indexes, message);
    }
  }

  // Every topic has the shape the framework gives it.
  ghost predicate AllShaped(indexes: map<string, Index>) {
    forall a, t :: a in indexes && t in indexes[a] ==> Shaped(t)
  }

  predicate IsShared(indexes: map<string, Index>, a: string, b: string, topic: string) {
    a in indexes && b in indexes && topic in indexes[a] && topic in indexes[b]
  }

  // No topic that matches the message is indexed by two things.
  ghost predicate NoSharedTopic(indexes: map<string, Index>, message: string) {
    forall a, b, t :: IsShared(indexes, a, b, t) && IsSuffix(t, message) ==> a == b
  }

  lemma OneThingMatches(indexes: map<string, Index>, message: string, a: string, b: string)
    requires AllShaped(indexes) && NoSharedTopic(indexes, message)
    requires a in indexes && b in indexes && Matches(indexes[a], message) && Matches(indexes[b], message)
    ensures a == b
  {
    var t :| t in indexes[a] && IsSuffix(t, message);
    var u :| u in indexes[b] && IsSuffix(u, message);
    ShapedCounts(t);
    ShapedCounts(u);
    AtMostOneSuffix(t, u, message);
    assert IsShared(indexes, a, b, t);
  }

  /** The answer is the same in every order of the things if and only if no topic matching the message is
      indexed by two of them. */
  lemma LookupIsOrderFreeIff(indexes: map<string, Index>, message: string)
    requires AllShaped(indexes)
    ensures (forall o, p :: IsOrderOf(o, indexes.Keys) && IsOrderOf(p, indexes.Keys) ==>
               Answer(o, indexes, message) == Answer(p, indexes, message))
       <==> NoSharedTopic(indexes, message)
  {
    if NoSharedTopic(indexes, message) {
      forall o, p | IsOrderOf(o, indexes.Keys) && IsOrderOf(p, indexes.Keys)
        ensures Answer(o, indexes, message) == Answer(p, indexes, message)
      {
        var a, b := Answer(o, indexes, message), Answer(p, indexes, message);
        if a.Some? && b.Some? {
          OneThingMatches(indexes, message, a.value, b.value);
        }
      }
    } else {
      var a, b, t :| IsShared(indexes, a, b, t) && IsSuffix(t, message) && a != b;
      var o := EnumerateFrom(indexes.Keys, a);
      var p := EnumerateFrom(indexes.Keys, b);
      assert Answer(o, indexes, message) == Some(a) && Answer(p, indexes, message) == Some(b);
    }
  }

  /** Two things that index the same topic, whatever the topic, make the answer depend on the order. */
  lemma SharedTopicIsAmbiguous(topic: string, s: Service, a: string, b: string)
    requires Shaped(topic) && a != b
    ensures var indexes := map[a := map[topic := s], b := map[topic := s]];
      exists o, p :: IsOrderOf(o, indexes.Keys) && IsOrderOf(p, indexes.Keys)
                     && Answer(o, indexes, topic) != Answer(p, indexes, topic)
  {
    var indexes: map<string, Index> := map[a := map[topic := s], b := map[topic := s]];
    assert IsShared(indexes, a, b, topic) && IsSuffix(topic, topic);
    LookupIsOrderFreeIff(indexes, topic);
  }
}
