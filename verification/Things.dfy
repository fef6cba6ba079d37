/** A thing: an index of its services by topic beside the list of services it has reported. */
module Things {
  import opened Wrappers

  // A service; its topic is the address in its specification.
  datatype Service = Service(topic: string, name: string)

  // ---------------------------------------------------------------- topics

  predicate SlashFree(s: string) { '/' !in s }

  function Topic(rn: string, ad: string, sv: string, addr: string): string {
    "/rt:dev/rn:" + rn + "/ad:" + ad + "/sv:" + sv + "/ad:" + addr
  }

  // The shape every service specification of the framework gives its address.
  ghost predicate Shaped(topic: string) {
    exists rn, ad, sv, addr ::
      SlashFree(rn) && SlashFree(ad) && SlashFree(sv) && SlashFree(addr) && topic == Topic(rn, ad, sv, addr)
  }

  predicate IsSuffix(t: string, s: string) { |t| <= |s| && s[|s| - |t|..] == t }

  function Slashes(s: string): nat {
    if s == "" then 0 else (if s[0] == '/' then 1 else 0) + Slashes(s[1..])
  }

  lemma {:induction false} SlashesConcat(a: string, b: string)
    ensures Slashes(a + b) == Slashes(a) + Slashes(b)
  {
    if a == "" {
      assert a + b == b;
    } else {
      assert (a + b)[1..] == a[1..] + b;
      SlashesConcat(a[1..], b);
    }
  }

  lemma {:induction false} SlashFreeCounts(s: string)
    requires SlashFree(s)
    ensures Slashes(s) == 0
  {
    if s != "" {
      assert s[0] in s && forall c :: c in s[1..] ==> c in s;
      SlashFreeCounts(s[1..]);
    }
  }

  // Text that starts with a slash and has no other.
  lemma SegmentCounts(tag: string, field: string)
    requires tag != "" && tag[0] == '/' && SlashFree(tag[1..]) && SlashFree(field)
    ensures Slashes(tag + field) == 1
  {
    SlashFreeCounts(tag[1..]);
    SlashFreeCounts(field);
    SlashesConcat(tag, field);
  }

  // A text of five segments, each starting with a slash.
  predicate HasFiveSegments(topic: string) { topic != "" && topic[0] == '/' && Slashes(topic) == 5 }

  lemma FiveSegments(a: string, b: string, c: string, d: string, e: string)
    requires Slashes(a) == 1 && Slashes(b) == 1 && Slashes(c) == 1 && Slashes(d) == 1 && Slashes(e) == 1
    ensures Slashes(a + b + c + d + e) == 5
  {
    SlashesConcat(a, b);
    SlashesConcat(a + b, c);
    SlashesConcat(a + b + c, d);
    SlashesConcat(a + b + c + d, e);
  }

  // The same text, put together from its five segments.
  lemma Regroup(head: string, rnTag: string, rn: string, adTag: string, ad: string,
                svTag: string, sv: string, addrTag: string, addr: string)
    ensures head + rnTag + rn + adTag + ad + svTag + sv + addrTag + addr
         == head + (rnTag + rn) + (adTag + ad) + (svTag + sv) + (addrTag + addr)
  {
  }

  lemma TopicCounts(rn: string, ad: string, sv: string, addr: string)
    requires SlashFree(rn) && SlashFree(ad) && SlashFree(sv) && SlashFree(addr)
    ensures Slashes(Topic(rn, ad, sv, addr)) == 5
  {
    assert "/rt:dev/rn:" == "/rt:dev" + "/rn:";
    Regroup("/rt:dev", "/rn:", rn, "/ad:", ad, "/sv:", sv, "/ad:", addr);
    SegmentCounts("/rt:dev", "");
    assert "/rt:dev" + "" == "/rt:dev";
    SegmentCounts("/rn:", rn);
    SegmentCounts("/ad:", ad);
    SegmentCounts("/sv:", sv);
    SegmentCounts("/ad:", addr);
    FiveSegments("/rt:dev", "/rn:" + rn, "/ad:" + ad, "/sv:" + sv, "/ad:" + addr);
  }

  lemma ShapedCounts(topic: string)
    requires Shaped(topic)
    ensures HasFiveSegments(topic)
  {
    var rn, ad, sv, addr :|
      SlashFree(rn) && SlashFree(ad) && SlashFree(sv) && SlashFree(addr) && topic == Topic(rn, ad, sv, addr);
    TopicCounts(rn, ad, sv, addr);
  }

  /** Of topics with five segments, which every service topic has, at most one is a suffix of any
      message topic: a longer one would have a slash of its own before the five of the shorter one. */
  lemma AtMostOneSuffix(t: string, u: string, message: string)
    requires HasFiveSegments(t) && HasFiveSegments(u) && IsSuffix(t, message) && IsSuffix(u, message)
    ensures t == u
  {
    if |t| < |u| {
      SuffixIsWhole(t, u, message);
    } else {
      SuffixIsWhole(u, t, message);
    }
  }

  lemma SuffixIsWhole(t: string, u: string, message: string)
    requires HasFiveSegments(t) && HasFiveSegments(u) && IsSuffix(t, message) && IsSuffix(u, message)
    requires |t| <= |u|
    ensures t == u
  {
    var front := u[..|u| - |t|];
    assert front + t == u;
    SlashesConcat(front, t);
  }

  // ---------------------------------------------------------------- the thing

  // A report without the entries for a topic.
  function Without(report: seq<Service>, topic: string): seq<Service> {
    if report == [] then []
    else
      var rest := Without(report[..|report| - 1], topic);
      var last := report[|report| - 1];
      if last.topic != topic then rest + [last] else rest
  }

  // Entries of the report for a topic.
  function Entries(report: seq<Service>, topic: string): nat {
    if report == [] then 0
    else Entries(report[..|report| - 1], topic) + (if report[|report| - 1].topic == topic then 1 else 0)
  }

  // The report lists each indexed service exactly once, and nothing else.
  ghost predicate Consistent(services: map<string, Service>, report: seq<Service>) {
    && (forall t :: t in services ==> services[t].topic == t)
    && (forall t :: Entries(report, t) == if t in services then 1 else 0)
  }

  lemma {:induction false} EntriesWithout(report: seq<Service>, topic: string, t: string)
    ensures Entries(Without(report, topic), t) == if t == topic then 0 else Entries(report, t)
  {
    if report != [] {
      var init := report[..|report| - 1];
      EntriesWithout(init, topic, t);
      EntriesLast(Without(init, topic), report[|report| - 1], t);
    }
  }

  lemma EntriesLast(report: seq<Service>, s: Service, t: string)
    ensures Entries(report + [s], t) == Entries(report, t) + (if s.topic == t then 1 else 0)
  {
    assert (report + [s])[..|report|] == report;
  }

  predicate DistinctTopics(given: seq<Service>) {
    forall i, j :: 0 <= i < j < |given| ==> given[i].topic != given[j].topic
  }

  class Thing {
    const address: string
    var services: map<string, Service>
    var report: seq<Service>

    ghost predicate Valid()
      reads this
    {
      Consistent(services, report)
    }

    // Of two given services with the same topic the index keeps the last and the report lists both.
    constructor (address: string, given: seq<Service>)
      ensures this.address == address && report == given
      ensures DistinctTopics(given) ==> Valid()
      ensures forall t :: t in services ==> services[t] in given && services[t].topic == t
      ensures forall i :: 0 <= i < |given| ==> given[i].topic in services
    {
      this.address, services, report := address, map[], [];
      new;
      for n := 0 to |given|
        invariant report == given[..n]
        invariant DistinctTopics(given) ==> Valid()
        invariant forall t :: t in services ==> services[t] in given[..n] && services[t].topic == t
        invariant forall i :: 0 <= i < n ==> given[i].topic in services
      {
        var s := given[n];
        assert DistinctTopics(given) ==> s.topic !in services;
        forall t ensures DistinctTopics(given) ==>
          Entries(report + [s], t) == if t in services[s.topic := s] then 1 else 0
        {
          EntriesLast(report, s, t);
        }
        services, report := services[s.topic := s], report + [s];
        assert given[..n + 1] == given[..n] + [s];
      }
      assert given[..|given|] == given;
    }

    method AddService(s: Service)
      requires Valid()
      modifies this
      ensures Valid()
      ensures s.topic in old(services) ==> services == old(services) && report == old(report)
      ensures s.topic !in old(services) ==> services == old(services)[s.topic := s] && report == old(report) + [s]
    {
      if s.topic !in services {
        forall t ensures Entries(report + [s], t) == if t in services[s.topic := s] then 1 else 0 {
          EntriesLast(report, s, t);
        }
        services, report := services[s.topic := s], report + [s];
      }
    }

    method RemoveService(s: Service)
      requires Valid()
      modifies this
      ensures Valid()
      ensures services == old(services) - {s.topic} && report == Without(old(report), s.topic)
    {
      services := services - {s.topic};
      var kept := [];
      for n := 0 to |report|
        invariant kept == Without(report[..n], s.topic)
      {
        assert report[..n + 1][..n] == report[..n];
        if report[n].topic != s.topic {
          kept := kept + [report[n]];
        }
      }
      assert report[..|report|] == report;
      forall t ensures Entries(kept, t) == if t in services then 1 else 0 {
        EntriesWithout(report, s.topic, t);
      }
      report := kept;
    }

    /** The lookup takes the index in any order; for topics of the framework's shape its answer does
        not depend on that order. */
    method ServiceByTopic(message: string) returns (found: Option<Service>)
      requires Valid()
      ensures found.Some? ==> found.value.topic in services && services[found.value.topic] == found.value
      ensures found.Some? ==> IsSuffix(found.value.topic, message)
      ensures found.None? ==> forall t :: t in services ==> !IsSuffix(t, message)
      ensures (forall t :: t in services ==> Shaped(t)) ==>
                forall t :: t in services && IsSuffix(t, message) ==> found == Some(services[t])
    {
      var left := services.Keys;
      while left != {}
        invariant left <= services.Keys
        invariant forall t :: t in services && t !in left ==> !IsSuffix(t, message)
      {
        var t :| t in left;
        if IsSuffix(t, message) {
          forall u | u in services && Shaped(t) && Shaped(u) && IsSuffix(u, message) ensures u == t {
            ShapedCounts(t);
            ShapedCounts(u);
            AtMostOneSuffix(t, u, message);
          }
          return Some(services[t]);
        }
        left := left - {t};
      }
      return None;
    }
  }
}
