/** The chain of configuration migrations: as long as some step starts at the current version, the
    first such step runs and the version advances. */
module Migration {
  import opened Wrappers

  // One step; `succeeds` is what its action returns when it is run.
  datatype Migration = Migration(from: int, to: int, succeeds: bool)

  // The step starts at the version and no earlier one does.
  predicate IsFirst(steps: seq<Migration>, i: nat, version: int) {
    i < |steps| && steps[i].from == version && forall j :: 0 <= j < i ==> steps[j].from != version
  }

  // The first step that starts at a version.
  function StepAt(steps: seq<Migration>, version: int): (m: Option<Migration>)
    ensures m.Some? ==> exists i :: 0 <= i < |steps| && steps[i] == m.value && IsFirst(steps, i, version)
    ensures m.None? ==> forall i :: 0 <= i < |steps| ==> steps[i].from != version
  {
    if steps == [] then None
    else if steps[0].from == version then Some(steps[0])
    else
      var m := StepAt(steps[1..], version);
      assert m.Some? ==> forall i :: 0 <= i < |steps[1..]| && IsFirst(steps[1..], i, version) ==>
        steps[i + 1] == steps[1..][i] && IsFirst(steps, i + 1, version);
      m
  }

  // Each version of the path is reached from the one before by the first step there, run with success.
  ghost predicate IsChain(steps: seq<Migration>, path: seq<int>) {
    path != [] && forall i :: 0 <= i < |path| - 1 ==> Advances(steps, path[i], path[i + 1])
  }

  predicate Advances(steps: seq<Migration>, version: int, next: int) {
    var m := StepAt(steps, version);
    m.Some? && m.value.to == next && m.value.succeeds
  }

  predicate Distinct(path: seq<int>) { forall i, j :: 0 <= i < j < |path| ==> path[i] != path[j] }

  // No step starts at the last version of the path.
  predicate IsComplete(steps: seq<Migration>, path: seq<int>) {
    path != [] && StepAt(steps, path[|path| - 1]).None?
  }

  // The step at the end of the path leads back into it, or its action fails.
  predicate IsBlocked(steps: seq<Migration>, path: seq<int>) {
    path != [] &&
    var m := StepAt(steps, path[|path| - 1]);
    m.Some? && (m.value.to in path || !m.value.succeeds)
  }

  ghost function Elements(s: seq<int>): set<int> { set v | v in s }

  // The versions left behind.
  ghost function Earlier(path: seq<int>): set<int>
    requires path != []
  {
    Elements(path[..|path| - 1])
  }

  lemma EarlierMembers(path: seq<int>)
    requires path != [] && Distinct(path)
    ensures path[|path| - 1] !in Earlier(path)
    ensures forall v :: v in path <==> v in Earlier(path) || v == path[|path| - 1]
  {
    assert path == path[..|path| - 1] + [path[|path| - 1]];
  }

  lemma ExtendPath(steps: seq<Migration>, path: seq<int>, next: int)
    requires IsChain(steps, path) && Distinct(path)
    requires Advances(steps, path[|path| - 1], next) && next !in path
    ensures var longer := path + [next];
      && IsChain(steps, longer) && Distinct(longer)
      && Earlier(longer) == Earlier(path) + {path[|path| - 1]}
  {
    assert (path + [next])[..|path|] == path;
    EarlierMembers(path);
  }

  function Froms(steps: seq<Migration>): set<int> { set m | m in steps :: m.from }

  class Default {
    var configVersion: int

    constructor (version: int)
      ensures configVersion == version
    {
      configVersion := version;
    }

    method FirstMatch(steps: seq<Migration>, version: int) returns (index: int)
      ensures -1 <= index < |steps|
      ensures index == -1 ==> StepAt(steps, version) == None
      ensures index != -1 ==> IsFirst(steps, index, version) && StepAt(steps, version) == Some(steps[index])
    {
      for i := 0 to |steps|
        invariant StepAt(steps, version) == StepAt(steps[i..], version)
        invariant forall j :: 0 <= j < i ==> steps[j].from != version
      {
        if steps[i].from == version {
          return i;
        }
        assert steps[i..][1..] == steps[i + 1..];
      }
      return -1;
    }

    /** Migrating always ends, after at most one run of each starting version.  It leaves the version
        and the count of the steps completed, visiting no version twice, and succeeds exactly when no
        step is left; an error is a step that leads back or whose action fails. */
    method Migrate(steps: seq<Migration>) returns (applied: nat, ok: bool, ghost path: seq<int>)
      modifies this
      ensures IsChain(steps, path) && Distinct(path)
      ensures path[0] == old(configVersion) && path[|path| - 1] == configVersion && applied == |path| - 1
      ensures applied <= |Froms(steps)|
      ensures if ok then IsComplete(steps, path) else IsBlocked(steps, path)
    {
      applied, path := 0, [configVersion];
      var seen: set<int> := {};
      while true
        invariant IsChain(steps, path) && Distinct(path)
        invariant path[0] == old(configVersion) && path[|path| - 1] == configVersion && applied == |path| - 1
        invariant seen == Earlier(path) && seen <= Froms(steps) && |seen| == applied
        decreases |Froms(steps)| - applied
      {
        var current := configVersion;
        var index := FirstMatch(steps, current);
        SeenIsBounded(seen, Froms(steps));
        if index == -1 {
          return applied, true, path;
        }
        var m := steps[index];
        EarlierMembers(path);
        if m.to == m.from || m.to in seen {
          return applied, false, path;
        }
        seen := seen + {current};
        SeenIsBounded(seen, Froms(steps));
        if !m.succeeds {
          return applied, false, path;
        }
        ExtendPath(steps, path, m.to);
        configVersion := m.to;
        path := path + [m.to];
        applied := applied + 1;
      }
    }
  }

  lemma SeenIsBounded(a: set<int>, b: set<int>)
    requires a <= b
    ensures |a| <= |b|
  {
    assert b == a + (b - a);
  }

  // ---------------------------------------------------------------- exactly when it succeeds

  // Chains from the same version run alike as long as both go on.
  lemma {:induction false} ChainsAgree(steps: seq<Migration>, p: seq<int>, q: seq<int>, n: nat)
    requires IsChain(steps, p) && IsChain(steps, q) && p[0] == q[0] && n < |p| && n < |q|
    ensures p[n] == q[n]
  {
    if n > 0 {
      ChainsAgree(steps, p, q, n - 1);
      assert Advances(steps, p[n - 1], p[n]) && Advances(steps, q[n - 1], q[n]);
    }
  }

  // A chain that comes back to a version repeats itself from there on.
  lemma {:induction false} ChainRepeats(steps: seq<Migration>, q: seq<int>, i: nat, j: nat, n: nat)
    requires IsChain(steps, q) && i < j && j + n < |q| && q[i] == q[j]
    ensures q[i + n] == q[j + n]
  {
    if n > 0 {
      ChainRepeats(steps, q, i, j, n - 1);
      assert Advances(steps, q[i + n - 1], q[i + n]) && Advances(steps, q[j + n - 1], q[j + n]);
    }
  }

  lemma GoesOn(steps: seq<Migration>, q: seq<int>, n: nat)
    requires IsChain(steps, q) && n + 1 < |q|
    ensures Advances(steps, q[n], q[n + 1])
  {
  }

  // So a chain that ends does not come back.
  lemma CompleteIsDistinct(steps: seq<Migration>, q: seq<int>)
    requires IsChain(steps, q) && IsComplete(steps, q)
    ensures Distinct(q)
  {
    forall i, j | 0 <= i < j < |q| ensures q[i] != q[j] {
      if q[i] == q[j] {
        var n := |q| - 1 - j;
        GoesOn(steps, q, i + n);
        ChainRepeats(steps, q, i, j, n);
      }
    }
  }

  lemma BlockedIsNotComplete(steps: seq<Migration>, p: seq<int>, q: seq<int>)
    requires IsChain(steps, p) && IsBlocked(steps, p)
    requires IsChain(steps, q) && IsComplete(steps, q)
    ensures p[0] != q[0]
  {
    if p[0] == q[0] {
      CompleteIsDistinct(steps, q);
      if |q| < |p| {
        GoesOn(steps, p, |q| - 1);
        ChainsAgree(steps, p, q, |q| - 1);
      } else {
        if |p| < |q| {
          GoesOn(steps, q, |p| - 1);
        }
        forall i | 0 <= i < |p| ensures p[i] == q[i] {
          ChainsAgree(steps, p, q, i);
        }
      }
    }
  }

  /** Migration succeeds from a version if and only if the chain of first matches from there, with every
      action on it succeeding, comes to an end: whatever path Migrate reports. */
  lemma SucceedsIff(steps: seq<Migration>, path: seq<int>, ok: bool)
    requires IsChain(steps, path) && if ok then IsComplete(steps, path) else IsBlocked(steps, path)
    ensures ok <==> exists q :: IsChain(steps, q) && q[0] == path[0] && IsComplete(steps, q)
  {
    if !ok {
      forall q | IsChain(steps, q) && IsComplete(steps, q) ensures q[0] != path[0] {
        BlockedIsNotComplete(steps, path, q);
      }
    }
  }
}
