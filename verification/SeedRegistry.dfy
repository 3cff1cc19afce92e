/** The seed registry: registration, the closure of the requested seeds under their dependencies,
    and the order in which they run. */
module SeedRegistry {
  import opened Results

  type Name = string

  /** A registered seed. `source` is the module and qualified name of the seed function. */
  datatype Seed = Seed(name: Name, source: string, dependsOn: seq<Name>)

  type Seeds = map<Name, Seed>

  datatype Error =
    | RegisteredTwice(name: Name)   // ImproperlyConfigured
    | UnknownSeed                   // UnknownSeedError
    | MissingKey                    // KeyError out of the worklist loop
    | UnknownDependency             // ImproperlyConfigured
    | DependencyCycle               // ImproperlyConfigured

  // ---------------------------------------------------------------- the dependency graph

  predicate DependsOn(seeds: Seeds, a: Name, b: Name)
  {
    a in seeds && b in seeds[a].dependsOn
  }

  /** Each name on `p` depends on the next one. */
  ghost predicate IsPath(seeds: Seeds, p: seq<Name>)
  {
    p != [] && forall i :: 0 <= i < |p| - 1 ==> DependsOn(seeds, p[i], p[i + 1])
  }

  ghost predicate Reachable(seeds: Seeds, start: seq<Name>, n: Name)
  {
    exists p :: IsPath(seeds, p) && p[0] in start && p[|p| - 1] == n
  }

  ghost predicate IsCycle(seeds: Seeds, p: seq<Name>)
  {
    IsPath(seeds, p) && |p| >= 2 && p[0] == p[|p| - 1]
  }

  ghost predicate Acyclic(seeds: Seeds)
  {
    forall p :: !IsCycle(seeds, p)
  }

  predicate DependenciesKnown(seeds: Seeds)
  {
    forall n, d :: n in seeds && d in seeds[n].dependsOn ==> d in seeds
  }

  predicate Distinct(s: seq<Name>)
  {
    forall i, j :: 0 <= i < j < |s| ==> s[i] != s[j]
  }

  lemma ReachableStep(seeds: Seeds, start: seq<Name>, a: Name, b: Name)
    requires Reachable(seeds, start, a) && DependsOn(seeds, a, b)
    ensures Reachable(seeds, start, b)
  {
    var p :| IsPath(seeds, p) && p[0] in start && p[|p| - 1] == a;
    var q := p + [b];
    assert IsPath(seeds, q) && q[0] in start && q[|q| - 1] == b;
  }

  /** A set that holds the start and is closed under dependencies holds everything reachable. */
  lemma {:induction false} ClosedSetHoldsPath(seeds: Seeds, start: seq<Name>, closed: set<Name>, p: seq<Name>)
    requires forall n :: n in start ==> n in closed
    requires forall a, b :: a in closed && DependsOn(seeds, a, b) ==> b in closed
    requires IsPath(seeds, p) && p[0] in start
    ensures p[|p| - 1] in closed
  {
    if |p| > 1 {
      var q := p[..|p| - 1];
      ClosedSetHoldsPath(seeds, start, closed, q);
      assert DependsOn(seeds, q[|q| - 1], p[|p| - 1]);
    }
  }

  // ---------------------------------------------------------------- the worklist

  /** The `while stack` loop. It ends on every registry; it fails exactly when it reaches a name
      nobody registered. */
  method Closure(seeds: Seeds, start: seq<Name>) returns (r: Result<set<Name>, Error>)
    ensures r.Ok? ==> forall n :: n in r.value <==> Reachable(seeds, start, n)
    ensures r.Ok? <==> forall n :: Reachable(seeds, start, n) ==> n in seeds
    ensures r.Err? ==> r.error == MissingKey
  {
    var wanted: set<Name> := {};
    var stack := start;
    forall n | n in start ensures Reachable(seeds, start, n) {
      assert IsPath(seeds, [n]) && [n][0] in start;
    }
    while stack != []
      invariant wanted <= seeds.Keys
      invariant forall n :: n in wanted || n in stack ==> Reachable(seeds, start, n)
      invariant forall n :: n in start ==> n in wanted || n in stack
      invariant forall a, b :: a in wanted && DependsOn(seeds, a, b) ==> b in wanted || b in stack
      decreases seeds.Keys - wanted, |stack|
    {
      var name := stack[|stack| - 1];
      assert forall n :: n in stack ==> n in stack[..|stack| - 1] || n == name;
      stack := stack[..|stack| - 1];
      if name !in wanted {
        if name !in seeds {
          return Err(MissingKey);
        }
        forall d | d in seeds[name].dependsOn ensures Reachable(seeds, start, d) {
          assert DependsOn(seeds, name, d);
          ReachableStep(seeds, start, name, d);
        }
        wanted := wanted + {name};
        stack := stack + seeds[name].dependsOn;
      }
    }
    forall n | Reachable(seeds, start, n) ensures n in wanted {
      var p :| IsPath(seeds, p) && p[0] in start && p[|p| - 1] == n;
      ClosedSetHoldsPath(seeds, start, wanted, p);
    }
    r := Ok(wanted);
  }

  // ---------------------------------------------------------------- the order

  /** Every name once, and after those of its dependencies that are present. */
  ghost predicate InDependencyOrder(seeds: Seeds, names: seq<Name>)
  {
    && Distinct(names)
    && (forall i, j :: 0 <= i < |names| && 0 <= j < |names| && DependsOn(seeds, names[i], names[j]) ==> j < i)
  }

  /** An order of the whole registry. */
  ghost predicate IsTopological(seeds: Seeds, order: seq<Name>)
  {
    && InDependencyOrder(seeds, order)
    && (forall n :: n in order <==> n in seeds)
    && DependenciesKnown(seeds)
  }

  /** A path leads to earlier and earlier positions. */
  lemma {:induction false} PathsRunBackwards(seeds: Seeds, order: seq<Name>, p: seq<Name>, i: nat) returns (j: nat)
    requires IsTopological(seeds, order) && IsPath(seeds, p)
    requires i < |order| && order[i] == p[0]
    ensures j < |order| && order[j] == p[|p| - 1]
    ensures |p| >= 2 ==> j < i
  {
    if |p| == 1 {
      j := i;
    } else {
      assert DependsOn(seeds, p[0], p[1]);
      assert p[1] in order;
      var k :| 0 <= k < |order| && order[k] == p[1];
      forall m | 0 <= m < |p[1..]| - 1 ensures DependsOn(seeds, p[1..][m], p[1..][m + 1]) {
        assert DependsOn(seeds, p[m + 1], p[m + 2]);
      }
      j := PathsRunBackwards(seeds, order, p[1..], k);
    }
  }

  lemma OrderedIsAcyclic(seeds: Seeds, order: seq<Name>)
    requires IsTopological(seeds, order)
    ensures Acyclic(seeds)
  {
    forall p ensures !IsCycle(seeds, p) {
      if IsCycle(seeds, p) {
        assert DependsOn(seeds, p[0], p[1]);
        var i :| 0 <= i < |order| && order[i] == p[0];
        var j := PathsRunBackwards(seeds, order, p, i);
      }
    }
  }

  lemma {:induction false} DistinctFits(p: seq<Name>, s: set<Name>)
    requires Distinct(p) && forall n :: n in p ==> n in s
    ensures |p| <= |s|
  {
    if p != [] {
      var n := p[|p| - 1];
      DistinctFits(p[..|p| - 1], s - {n});
    }
  }

  ghost predicate Waits(seeds: Seeds, left: set<Name>, n: Name)
  {
    exists d :: DependsOn(seeds, n, d) && d in left
  }

  /** Nothing that is left can be taken. */
  ghost predicate Stuck(seeds: Seeds, left: set<Name>)
  {
    forall n {:trigger Waits(seeds, left, n)} :: n in left ==> Waits(seeds, left, n)
  }

  /** When every name that is left waits for another one that is left, following the waits must
      come back to a name already visited. */
  lemma {:induction false} StuckMeansCycle(seeds: Seeds, left: set<Name>, p: seq<Name>) returns (c: seq<Name>)
    requires IsPath(seeds, p) && Distinct(p) && forall n :: n in p ==> n in left
    requires Stuck(seeds, left)
    ensures IsCycle(seeds, c)
    decreases |left| - |p|
  {
    DistinctFits(p, left);
    var last := p[|p| - 1];
    assert last in p && Waits(seeds, left, last);
    var d :| DependsOn(seeds, last, d) && d in left;
    var q := p + [d];
    assert IsPath(seeds, q);
    if i :| 0 <= i < |p| && p[i] == d {
      c := q[i..];
      forall k | 0 <= k < |c| - 1 ensures DependsOn(seeds, c[k], c[k + 1]) {
        assert DependsOn(seeds, q[i + k], q[i + k + 1]);
      }
    } else {
      DistinctFits(q, left);
      c := StuckMeansCycle(seeds, left, q);
    }
  }

  /** The loop state of the sorter: `order` holds what has been taken, and needs nothing that is left. */
  ghost predicate Sorted(seeds: Seeds, left: set<Name>, order: seq<Name>)
  {
    && left <= seeds.Keys
    && (forall n :: n in order <==> n in seeds && n !in left)
    && (forall n, d :: n in order && DependsOn(seeds, n, d) ==> d !in left)
    && InDependencyOrder(seeds, order)
  }

  lemma TakeReady(seeds: Seeds, left: set<Name>, order: seq<Name>, next: Name)
    requires Sorted(seeds, left, order) && DependenciesKnown(seeds)
    requires next in left && forall d :: DependsOn(seeds, next, d) ==> d !in left
    ensures Sorted(seeds, left - {next}, order + [next])
  {
  }

  lemma NothingReady(seeds: Seeds, left: set<Name>)
    requires left != {} && Stuck(seeds, left)
    ensures !Acyclic(seeds)
  {
    var n :| n in left;
    var c := StuckMeansCycle(seeds, left, [n]);
  }

  /** `_topological_order`, with a sorter that repeatedly takes a seed none of whose dependencies is
      left: an order exists exactly when the whole registry is acyclic. */
  method TopologicalOrder(seeds: Seeds) returns (r: Result<seq<Name>, Error>)
    ensures r.Ok? ==> IsTopological(seeds, r.value)
    ensures r.Ok? <==> DependenciesKnown(seeds) && Acyclic(seeds)
    ensures r.Err? ==> r.error == if DependenciesKnown(seeds) then DependencyCycle else UnknownDependency
  {
    if !DependenciesKnown(seeds) {
      return Err(UnknownDependency);
    }
    var left := seeds.Keys;
    var order: seq<Name> := [];
    while left != {}
      invariant Sorted(seeds, left, order)
    {
      var ready := set n | n in left && forall d :: d in seeds[n].dependsOn ==> d !in left;
      if ready == {} {
        forall n | n in left ensures Waits(seeds, left, n) {
          assert n !in ready;
          var d :| d in seeds[n].dependsOn && d in left;
          assert DependsOn(seeds, n, d);
        }
        NothingReady(seeds, left);
        return Err(DependencyCycle);
      }
      var next :| next in ready;
      TakeReady(seeds, left, order, next);
      left, order := left - {next}, order + [next];
    }
    OrderedIsAcyclic(seeds, order);
    r := Ok(order);
  }

  // ---------------------------------------------------------------- selecting and ordering

  /** `[name for name in order if name in wanted]`. */
  function Keep(order: seq<Name>, wanted: set<Name>): (kept: seq<Name>)
    ensures forall n :: n in kept <==> n in order && n in wanted
  {
    if order == [] then []
    else
      var last := order[|order| - 1];
      Keep(order[..|order| - 1], wanted) + if last in wanted then [last] else []
  }

  lemma {:induction false} KeepIsOrdered(seeds: Seeds, order: seq<Name>, wanted: set<Name>)
    requires InDependencyOrder(seeds, order)
    ensures InDependencyOrder(seeds, Keep(order, wanted))
  {
    if order != [] {
      var n := |order| - 1;
      KeepIsOrdered(seeds, order[..n], wanted);
      var front := Keep(order[..n], wanted);
      forall i | 0 <= i < |front|
        ensures front[i] != order[n] && !DependsOn(seeds, front[i], order[n])
      {
        assert front[i] in order[..n];
      }
    }
  }

  /** What `ordered_seeds` is for: exactly the reachable seeds that are not skipped, in an order that
      respects dependencies. */
  ghost predicate Selected(seeds: Seeds, start: seq<Name>, skip: seq<Name>, names: seq<Name>)
  {
    && InDependencyOrder(seeds, names)
    && (forall n :: n in names <==> Reachable(seeds, start, n) && n !in skip)
  }

  class Registry {
    var seeds: Seeds
    var names: seq<Name>  // insertion order of the dictionary

    ghost predicate Valid()
      reads this
    {
      && Distinct(names)
      && (forall n :: n in names <==> n in seeds)
      && (forall n :: n in seeds ==> seeds[n].name == n)
    }

    constructor ()
      ensures Valid() && seeds == map[] && names == []
    {
      seeds := map[];
      names := [];
    }

    /** `register`: registering the same function again replaces the entry, another one is refused. */
    method Register(name: Name, source: string, dependsOn: seq<Name>) returns (r: Option<Error>)
      requires Valid()
      modifies this
      ensures Valid()
      ensures r.Some? <==> name in old(seeds) && old(seeds)[name].source != source
      ensures r.Some? ==> r.value == RegisteredTwice(name) && seeds == old(seeds) && names == old(names)
      ensures r.None? ==> seeds == old(seeds)[name := Seed(name, source, dependsOn)]
      ensures r.None? ==> names == if name in old(seeds) then old(names) else old(names) + [name]
    {
      if name in seeds && seeds[name].source != source {
        return Some(RegisteredTwice(name));
      }
      if name !in seeds {
        names := names + [name];
      }
      seeds := seeds[name := Seed(name, source, dependsOn)];
      r := None;
    }

    /** `ordered_seeds`. */
    method OrderedSeeds(only: seq<Name>, skip: seq<Name>) returns (r: Result<seq<Name>, Error>)
      requires Valid()
      ensures r.Ok? ==> Selected(seeds, if only != [] then only else names, skip, r.value)
      ensures r.Ok? && skip == [] ==>
                forall n, d :: n in r.value && DependsOn(seeds, n, d) ==> d in r.value
      ensures r.Ok? <==>
              && (forall n :: n in only + skip ==> n in seeds)
              && DependenciesKnown(seeds)
              && Acyclic(seeds)
      ensures r.Err? ==>
                r.error ==
                if exists n :: n in only + skip && n !in seeds then UnknownSeed
                else if exists n :: Reachable(seeds, if only != [] then only else names, n) && n !in seeds then MissingKey
                else if !DependenciesKnown(seeds) then UnknownDependency
                else DependencyCycle
    {
      if exists n :: n in only + skip && n !in seeds {
        return Err(UnknownSeed);
      }
      var start := if only != [] then only else names;
      assert forall n :: n in only ==> n in only + skip;
      var closure := Closure(seeds, start);
      if closure.Err? {
        ghost var n :| Reachable(seeds, start, n) && n !in seeds;
        LeavingMeansUnknown(seeds, start, n);
        return Err(closure.error);
      }
      var wanted := closure.value - set n | n in skip;
      var order := TopologicalOrder(seeds);
      if order.Err? {
        return Err(order.error);
      }
      KeepIsOrdered(seeds, order.value, wanted);
      var kept := Keep(order.value, wanted);
      forall n, d | skip == [] && n in kept && DependsOn(seeds, n, d) ensures d in kept {
        ReachableStep(seeds, start, n, d);
      }
      r := Ok(kept);
    }
  }

  lemma LeavingMeansUnknown(seeds: Seeds, start: seq<Name>, n: Name)
    requires forall s :: s in start ==> s in seeds
    requires Reachable(seeds, start, n) && n !in seeds
    ensures !DependenciesKnown(seeds)
  {
    var p :| IsPath(seeds, p) && p[0] in start && p[|p| - 1] == n;
    assert DependsOn(seeds, p[|p| - 2], p[|p| - 1]);
  }
}
