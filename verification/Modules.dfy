/** Ordering modules by their dependencies and initialising them (modules/modules.go). */
module Modules {
  import opened NameLists
  import opened RingTypes

  /** What calling the init function of a module does; NoInit is a nil function. */
  datatype InitFn = NoInit | ReturnsError | ReturnsNothing | ReturnsService

  datatype Module = Module(deps: seq<string>, initFn: InitFn)

  type Graph = map<string, Module>

  datatype InitError = Unrecognised(name: string) | InitFailed(name: string)

  /** Every dependency is a registered module. */
  predicate Closed(g: Graph) {
    forall m :: m in g ==> forall d :: d in g[m].deps ==> d in g
  }

  ghost predicate IsPath(g: Graph, p: seq<string>) {
    |p| >= 2 && forall i :: 0 <= i < |p| - 1 ==> p[i] in g && p[i + 1] in g[p[i]].deps
  }

  ghost predicate Connects(g: Graph, p: seq<string>, a: string, b: string) {
    IsPath(g, p) && p[0] == a && p[|p| - 1] == b
  }

  /** b is a dependency of a, directly or not. */
  ghost predicate DependsOn(g: Graph, a: string, b: string) {
    exists p :: Connects(g, p, a, b)
  }

  ghost predicate Acyclic(g: Graph) {
    forall m :: m in g ==> !DependsOn(g, m, m)
  }

  ghost function Dependencies(g: Graph, m: string): set<string> {
    set d | d in g && DependsOn(g, m, d)
  }

  lemma DirectDependency(g: Graph, m: string, d: string)
    requires m in g && d in g[m].deps
    ensures DependsOn(g, m, d)
  {
    assert Connects(g, [m, d], m, d);
  }

  lemma DependsOnIsTransitive(g: Graph, a: string, b: string, c: string)
    requires DependsOn(g, a, b) && DependsOn(g, b, c)
    ensures DependsOn(g, a, c)
  {
    var p :| Connects(g, p, a, b);
    var q :| Connects(g, q, b, c);
    var r := p + q[1..];
    assert r[|p| - 1] == b == q[0];
    forall i | 0 <= i < |r| - 1 ensures r[i] in g && r[i + 1] in g[r[i]].deps {
      if i < |p| - 1 {
        assert r[i] == p[i] && r[i + 1] == p[i + 1];
      } else {
        assert r[i] == q[i - (|p| - 1)] && r[i + 1] == q[i + 1 - (|p| - 1)];
      }
    }
    assert Connects(g, r, a, c);
  }

  lemma PathTail(g: Graph, p: seq<string>)
    requires IsPath(g, p) && |p| > 2
    ensures IsPath(g, p[1..])
  {
    var q := p[1..];
    forall k | 0 <= k < |q| - 1 ensures q[k] in g && q[k + 1] in g[q[k]].deps {
      assert q[k] == p[k + 1] && q[k + 1] == p[k + 2];
    }
  }

  /** A dependency is direct, or a dependency of a direct one. */
  lemma FirstStep(g: Graph, m: string, b: string) returns (d: string)
    requires DependsOn(g, m, b)
    ensures m in g && d in g[m].deps && (d == b || DependsOn(g, d, b))
  {
    var p :| Connects(g, p, m, b);
    d := p[1];
    assert p[0] in g && p[0 + 1] in g[p[0]].deps;
    if |p| > 2 {
      PathTail(g, p);
      assert Connects(g, p[1..], d, b);
    }
  }

  lemma DependenciesAreRegistered(g: Graph, m: string, b: string)
    requires Closed(g) && DependsOn(g, m, b)
    ensures b in g
  {
    var p :| Connects(g, p, m, b);
    var i := |p| - 2;
    assert p[i] in g && p[i + 1] in g[p[i]].deps;
  }

  /** The measure that makes the recursion and the ordering loop stop. */
  lemma FewerDependencies(g: Graph, m: string, d: string)
    requires Closed(g) && Acyclic(g) && m in g && d in g[m].deps
    ensures d in g && Dependencies(g, d) < Dependencies(g, m)
    ensures |Dependencies(g, d)| < |Dependencies(g, m)|
  {
    DirectDependency(g, m, d);
    forall b | b in Dependencies(g, d) ensures b in Dependencies(g, m) {
      DependsOnIsTransitive(g, m, d, b);
    }
    assert d in Dependencies(g, m) && d !in Dependencies(g, d);
    assert |Dependencies(g, m) - Dependencies(g, d)| == |Dependencies(g, m)| - |Dependencies(g, d)|;
  }

  /** Each module stands after all of its own dependencies, and none stands twice. */
  ghost predicate Ordered(g: Graph, order: seq<string>) {
    && (forall i :: 0 <= i < |order| ==> order[i] in g)
    && (forall i, j :: 0 <= i < j < |order| ==> order[i] != order[j])
    && (forall i :: 0 <= i < |order| ==> forall d :: d in g[order[i]].deps ==> d in order[..i])
  }

  lemma {:induction false} OrderedCoversIndirect(g: Graph, order: seq<string>, i: nat, d: string)
    requires Ordered(g, order) && i < |order| && DependsOn(g, order[i], d)
    ensures d in order[..i]
    decreases i
  {
    var e := FirstStep(g, order[i], d);
    assert e in order[..i];
    if e != d {
      var j :| 0 <= j < i && order[..i][j] == e;
      OrderedCoversIndirect(g, order, j, d);
      var k :| 0 <= k < j && order[..j][k] == d;
      assert order[..i][k] == d;
    }
  }

  lemma AppendOrdered(g: Graph, order: seq<string>, m: string)
    requires Ordered(g, order) && m in g && m !in order && forall d :: d in g[m].deps ==> d in order
    ensures Ordered(g, order + [m])
  {
    var longer := order + [m];
    forall i | 0 <= i < |longer| ensures forall d :: d in g[longer[i]].deps ==> d in longer[..i] {
      if i < |order| {
        assert longer[..i] == order[..i];
      } else {
        assert longer[..i] == order;
      }
    }
  }

  class Manager {
    var modules: Graph

    constructor ()
      ensures modules == map[]
    {
      modules := map[];
    }

    method RegisterModule(name: string, initFn: InitFn)
      modifies this
      ensures modules == old(modules)[name := Module([], initFn)]
    {
      modules := modules[name := Module([], initFn)];
    }

    method AddDependency(name: string, dependsOn: seq<string>) returns (ok: bool)
      modifies this
      ensures ok <==> name in old(modules)
      ensures ok ==> modules == old(modules)[name := old(modules)[name].(deps := old(modules)[name].deps + dependsOn)]
      ensures !ok ==> modules == old(modules)
    {
      if name in modules {
        modules := modules[name := modules[name].(deps := modules[name].deps + dependsOn)];
        return true;
      }
      return false;
    }

    /** All dependencies of a module, with repetitions. */
    method ListDeps(mod: string) returns (deps: seq<string>)
      requires Closed(modules) && Acyclic(modules) && mod in modules
      ensures forall d :: d in deps <==> DependsOn(modules, mod, d)
      decreases |Dependencies(modules, mod)|
    {
      deps := modules[mod].deps;
      var direct := modules[mod].deps;
      forall d | d in direct ensures DependsOn(modules, mod, d) {
        DirectDependency(modules, mod, d);
      }
      for i := 0 to |direct|
        invariant forall d :: d in deps ==> DependsOn(modules, mod, d)
        invariant forall d :: d in direct ==> d in deps
        invariant forall k, d :: 0 <= k < i && DependsOn(modules, direct[k], d) ==> d in deps
      {
        FewerDependencies(modules, mod, direct[i]);
        var more := ListDeps(direct[i]);
        forall d | d in more ensures DependsOn(modules, mod, d) {
          DependsOnIsTransitive(modules, mod, direct[i], d);
        }
        deps := deps + more;
      }
      forall d | DependsOn(modules, mod, d) ensures d in deps {
        var e := FirstStep(modules, mod, d);
        var k :| 0 <= k < |direct| && direct[k] == e;
      }
    }

    /** Each transitive dependency exactly once, after all of its own dependencies. */
    method OrderedDeps(mod: string) returns (result: seq<string>)
      requires Closed(modules) && Acyclic(modules) && mod in modules
      ensures Ordered(modules, result)
      ensures forall d :: d in result <==> DependsOn(modules, mod, d)
    {
      var deps := ListDeps(mod);
      forall d | d in deps ensures d in modules {
        DependenciesAreRegistered(modules, mod, d);
      }
      var uniq := map d | d in deps :: false;
      result := [];
      assert uniq.Keys == Dependencies(modules, mod);
      while |result| < |uniq|
        invariant uniq.Keys == Dependencies(modules, mod)
        invariant Ordered(modules, result) && Marks(uniq, result)
        decreases |uniq| - |result|
      {
        NotAllAdded(uniq, result);
        ghost var ready := SomeoneIsReady(modules, mod, uniq);
        uniq, result := AddReady(uniq, result, ready);
      }
      AllAdded(uniq, result);
    }

    /** One pass over all names, in any order: those whose dependencies have all been added are added. */
    method AddReady(uniq: map<string, bool>, result: seq<string>, ghost ready: string)
      returns (uniq': map<string, bool>, result': seq<string>)
      requires uniq.Keys <= modules.Keys && Ordered(modules, result) && Marks(uniq, result)
      requires ready in uniq && !uniq[ready] && DepsAdded(modules, uniq, ready)
      ensures uniq'.Keys == uniq.Keys && Ordered(modules, result') && Marks(uniq', result')
      ensures |result'| > |result|
    {
      uniq', result' := uniq, result;
      var todo := uniq.Keys;
      while todo != {}
        invariant todo <= uniq.Keys == uniq'.Keys
        invariant Ordered(modules, result') && Marks(uniq', result')
        invariant |result'| >= |result|
        invariant |result'| == |result| ==> uniq' == uniq && ready in todo
        decreases todo
      {
        var name :| name in todo;
        todo := todo - {name};
        if uniq'[name] {
          continue;
        }
        var added := AllDepsAdded(uniq', name);
        if added {
          AppendOrdered(modules, result', name);
          uniq' := uniq'[name := true];
          result' := result' + [name];
        }
      }
    }

    method AllDepsAdded(uniq: map<string, bool>, name: string) returns (r: bool)
      requires name in modules
      ensures r <==> DepsAdded(modules, uniq, name)
    {
      var deps := modules[name].deps;
      for i := 0 to |deps|
        invariant forall k :: 0 <= k < i ==> deps[k] in uniq && uniq[deps[k]]
      {
        if !(deps[i] in uniq && uniq[deps[i]]) {
          return false;
        }
      }
      r := true;
    }

    /**
     * Initialises one target after its dependencies; done lists what has been initialised, in order, startDeps and
     * stopDeps what each service has to wait for before it starts and stops. Only modules of the same target are
     * considered for stopping.
     */
    method InitModule(
      name: string, done: seq<string>, startDeps: map<string, seq<string>>, stopDeps: map<string, seq<string>>)
      returns (
        done': seq<string>, startDeps': map<string, seq<string>>, stopDeps': map<string, seq<string>>,
        err: Option<InitError>)
      requires Closed(modules) && Acyclic(modules) && Ordered(modules, done)
      requires forall m :: m in stopDeps <==> m in done && HasService(modules, m)
      requires StartsAfterAll(modules, stopDeps.Keys, startDeps)
      ensures Ordered(modules, done') && done <= done'
      ensures StartsAfterAll(modules, stopDeps'.Keys, startDeps')
      ensures forall m :: m in stopDeps' <==> m in done' && HasService(modules, m)
      ensures err == Some(Unrecognised(name)) <==> name !in modules
      ensures forall m :: m in done' ==> m in done || m == name || DependsOn(modules, name, m)
      ensures err == None ==> name in done' && forall d :: DependsOn(modules, name, d) ==> d in done'
      ensures name in modules && err.Some? ==>
        err.value.InitFailed? && CanRunNext(modules, done', err.value.name) &&
        modules[err.value.name].initFn == ReturnsError
      ensures forall n :: n in stopDeps ==> stopDeps'[n] == stopDeps[n]
      ensures forall n :: n in stopDeps' && n !in stopDeps ==> WaitsWithin(modules, name, n, stopDeps'[n])
    {
      done', startDeps', stopDeps' := done, startDeps, stopDeps;
      if name !in modules {
        return done', startDeps', stopDeps', Some(Unrecognised(name));
      }
      var deps := OrderedDeps(name);
      AppendOrderedTarget(modules, deps, name);
      deps := deps + [name];
      for ix := 0 to |deps|
        invariant Initialised(modules, done, stopDeps, deps, ix, done', stopDeps')
        invariant StartsAfterAll(modules, stopDeps'.Keys, startDeps')
      {
        var n := deps[ix];
        if n in done' {
          SkipInitialised(modules, done, stopDeps, deps, ix, done', stopDeps');
          continue;
        }
        NextCanRun(modules, done, stopDeps, deps, ix, done', stopDeps');
        var initFn := modules[n].initFn;
        if initFn == ReturnsError {
          AddedWithin(modules, name, deps, stopDeps, stopDeps');
          return done', startDeps', stopDeps', Some(InitFailed(n));
        }
        AddInitialised(modules, done, stopDeps, deps, ix, done', stopDeps');
        if initFn == ReturnsService {
          var start := DependenciesForModule(n);
          var inverse := FindInverseDependencies(n, deps[ix + 1..]);
          startDeps', stopDeps' := startDeps'[n := start], stopDeps'[n := inverse];
        }
        done' := done' + [n];
      }
      assert deps[..|deps|] == deps;
      assert name in deps;
      AddedWithin(modules, name, deps, stopDeps, stopDeps');
      err := None;
    }

    /**
     * Every init function runs at most once, and only after those of all its transitive dependencies: done is the
     * order in which they ran, followed by the one that failed if there is an error.
     */
    method InitModuleServices(targets: seq<string>)
      returns (
        done: seq<string>, startDeps: map<string, seq<string>>, stopDeps: map<string, seq<string>>,
        err: Option<InitError>)
      requires Closed(modules) && Acyclic(modules)
      ensures Ordered(modules, done)
      ensures forall m :: m in stopDeps <==> m in done && HasService(modules, m)
      ensures forall m :: m in done ==> exists t :: t in targets && (m == t || DependsOn(modules, t, m))
      ensures err == None ==> forall t :: t in targets ==>
        t in done && forall d :: DependsOn(modules, t, d) ==> d in done
      ensures err.Some? && err.value.InitFailed? ==>
        CanRunNext(modules, done, err.value.name) && modules[err.value.name].initFn == ReturnsError
      ensures err.Some? && err.value.Unrecognised? ==> err.value.name in targets && err.value.name !in modules
      ensures WaitsOfTargets(modules, targets, stopDeps) && StartsAfterAll(modules, stopDeps.Keys, startDeps)
    {
      done, startDeps, stopDeps, err := [], map[], map[], None;
      for i := 0 to |targets|
        invariant Ordered(modules, done) && err == None
        invariant forall m :: m in stopDeps <==> m in done && HasService(modules, m)
        invariant forall m :: m in done ==> exists t :: t in targets && (m == t || DependsOn(modules, t, m))
        invariant forall t :: t in targets[..i] ==> t in done && forall d :: DependsOn(modules, t, d) ==> d in done
        invariant WaitsOfTargets(modules, targets, stopDeps) && StartsAfterAll(modules, stopDeps.Keys, startDeps)
      {
        assert targets[..i + 1] == targets[..i] + [targets[i]];
        ghost var before, waits := done, stopDeps;
        done, startDeps, stopDeps, err := InitModule(targets[i], done, startDeps, stopDeps);
        assert forall m :: m in before ==> m in done;
        OneMoreTarget(modules, targets, i, before, waits, done, stopDeps);
        if err.Some? {
          return;
        }
      }
      assert targets[..|targets|] == targets;
    }

    /** Which of the listed modules depend directly on mod; they have to stop before it does. */
    method FindInverseDependencies(mod: string, mods: seq<string>) returns (result: seq<string>)
      ensures result == DirectDependants(modules, mod, mods)
    {
      result := [];
      for i := 0 to |mods|
        invariant result == DirectDependants(modules, mod, mods[..i])
      {
        assert mods[..i + 1][..i] == mods[..i];
        var deps := if mods[i] in modules then modules[mods[i]].deps else [];
        for j := 0 to |deps|
          invariant forall k :: 0 <= k < j ==> deps[k] != mod
          invariant result == DirectDependants(modules, mod, mods[..i])
        {
          if deps[j] == mod {
            result := result + [mods[i]];
            break;
          }
        }
      }
      assert mods[..|mods|] == mods;
    }

    /** All transitive dependencies in the order of their names; none for a module that is not registered. */
    method DependenciesForModule(mod: string) returns (result: seq<string>)
      requires Closed(modules) && Acyclic(modules)
      ensures NamesAscend(result)
      ensures forall d :: d in result <==> DependsOn(modules, mod, d)
    {
      var deps := [];
      if mod in modules {
        deps := ListDeps(mod);
      } else {
        NothingWithoutModule(modules, mod);
      }
      result := [];
      var todo := set d | d in deps;
      while todo != {}
        invariant NamesAscend(result)
        invariant forall d :: d in deps <==> d in result || d in todo
        invariant forall d :: d in result ==> d !in todo
        decreases todo
      {
        var d :| d in todo;
        todo := todo - {d};
        InsertNameKeepsOrder(d, result);
        result := InsertName(d, result);
      }
    }
  }

  lemma IndexIsUnique(g: Graph, order: seq<string>, i: nat)
    requires Ordered(g, order) && i < |order|
    ensures IndexOf(order, order[i]) == i
  {
  }

  ghost predicate IsWaitList(g: Graph, order: seq<string>, n: string, waits: seq<string>) {
    exists i :: 0 <= i < |order| && order[i] == n && waits == DirectDependants(g, n, order[i + 1..])
  }

  /** What has been added are the direct dependants later in the list. */
  ghost predicate WaitsAdded(
    g: Graph, order: seq<string>, before: map<string, seq<string>>, after: map<string, seq<string>>)
  {
    && (forall n :: n in before ==> n in after && after[n] == before[n])
    && (forall n :: n in after && n !in before ==> IsWaitList(g, order, n, after[n]))
  }

  /** Of a target's list deps, the first n modules have been initialised on top of done. */
  ghost predicate Initialised(g: Graph, done: seq<string>, stopDeps: map<string, seq<string>>, deps: seq<string>,
      n: nat, done': seq<string>, stopDeps': map<string, seq<string>>)
    requires n <= |deps|
  {
    && Ordered(g, done') && done <= done'
    && (forall m :: m in stopDeps' <==> m in done' && HasService(g, m))
    && (forall m :: m in deps[..n] ==> m in done')
    && (forall m :: m in done' ==> m in done || m in deps)
    && WaitsAdded(g, deps, stopDeps, stopDeps')
  }

  lemma SkipInitialised(g: Graph, done: seq<string>, stopDeps: map<string, seq<string>>, deps: seq<string>,
      n: nat, done': seq<string>, stopDeps': map<string, seq<string>>)
    requires n < |deps| && Ordered(g, deps) && deps[n] in done'
    requires Initialised(g, done, stopDeps, deps, n, done', stopDeps')
    ensures Initialised(g, done, stopDeps, deps, n + 1, done', stopDeps')
  {
    assert deps[..n + 1] == deps[..n] + [deps[n]];
  }

  lemma NextCanRun(g: Graph, done: seq<string>, stopDeps: map<string, seq<string>>, deps: seq<string>,
      n: nat, done': seq<string>, stopDeps': map<string, seq<string>>)
    requires n < |deps| && Ordered(g, deps) && deps[n] !in done'
    requires Initialised(g, done, stopDeps, deps, n, done', stopDeps')
    ensures CanRunNext(g, done', deps[n])
  {
  }

  lemma AddInitialised(g: Graph, done: seq<string>, stopDeps: map<string, seq<string>>, deps: seq<string>,
      n: nat, done': seq<string>, stopDeps': map<string, seq<string>>)
    requires n < |deps| && Ordered(g, deps) && CanRunNext(g, done', deps[n])
    requires Initialised(g, done, stopDeps, deps, n, done', stopDeps')
    ensures
      var inverse := DirectDependants(g, deps[n], deps[n + 1..]);
      var longer := if HasService(g, deps[n]) then stopDeps'[deps[n] := inverse] else stopDeps';
      Initialised(g, done, stopDeps, deps, n + 1, done' + [deps[n]], longer)
  {
    var inverse := DirectDependants(g, deps[n], deps[n + 1..]);
    AppendOrdered(g, done', deps[n]);
    if HasService(g, deps[n]) {
      AddWaits(g, deps, n, stopDeps, stopDeps', inverse);
      AddToDone(g, done, stopDeps, deps, n, done', stopDeps', stopDeps'[deps[n] := inverse]);
    } else {
      AddToDone(g, done, stopDeps, deps, n, done', stopDeps', stopDeps');
    }
  }

  lemma AddWaits(g: Graph, deps: seq<string>, n: nat, before: map<string, seq<string>>,
      after: map<string, seq<string>>, inverse: seq<string>)
    requires n < |deps| && Ordered(g, deps) && WaitsAdded(g, deps, before, after) && deps[n] !in after
    requires inverse == DirectDependants(g, deps[n], deps[n + 1..])
    ensures WaitsAdded(g, deps, before, after[deps[n] := inverse])
  {
    assert IsWaitList(g, deps, deps[n], inverse);
  }

  lemma AddToDone(g: Graph, done: seq<string>, stopDeps: map<string, seq<string>>, deps: seq<string>,
      n: nat, done': seq<string>, stopDeps': map<string, seq<string>>, longer: map<string, seq<string>>)
    requires n < |deps| && Ordered(g, done' + [deps[n]])
    requires Initialised(g, done, stopDeps, deps, n, done', stopDeps')
    requires longer.Keys == stopDeps'.Keys + (if HasService(g, deps[n]) then {deps[n]} else {})
    requires WaitsAdded(g, deps, stopDeps, longer)
    ensures Initialised(g, done, stopDeps, deps, n + 1, done' + [deps[n]], longer)
  {
    assert deps[..n + 1] == deps[..n] + [deps[n]];
  }

  lemma NothingWithoutModule(g: Graph, m: string)
    requires m !in g
    ensures forall d :: !DependsOn(g, m, d)
  {
    forall d ensures !DependsOn(g, m, d) {
      if DependsOn(g, m, d) {
        var e := FirstStep(g, m, d);
      }
    }
  }

  // ---------------------------------------------------------------- the order of starting

  /** Each of the services has a list of all modules that its own depends on, directly or not. */
  ghost predicate StartsAfterAll(g: Graph, withService: set<string>, startDeps: map<string, seq<string>>) {
    && startDeps.Keys == withService
    && forall n :: n in startDeps ==> NamesAscend(startDeps[n]) && Lists(g, n, startDeps[n])
  }

  ghost predicate Lists(g: Graph, n: string, deps: seq<string>) {
    forall d :: d in deps <==> DependsOn(g, n, d)
  }

  /**
   * began gives the time at which the service of each module is told to start, and running that at which its wrapper
   * is running, if that happens. Before the former it waits until all of its list that have a service are running; if
   * one of them fails instead, it fails as well.
   */
  ghost predicate StartsInOrder(
    startDeps: map<string, seq<string>>, began: string -> Option<nat>, running: string -> Option<nat>)
  {
    && (forall n, d :: n in startDeps && d in startDeps[n] && d in startDeps && began(n).Some?
          ==> running(d).Some? && running(d).value < began(n).value)
    && (forall n :: n in startDeps && running(n).Some? ==> began(n).Some? && began(n).value < running(n).value)
  }

  /** A way of starting in which n is started, and nothing but what it depends on. */
  ghost function Needed(g: Graph, order: seq<string>, n: string, delay: nat): string -> Option<nat> {
    x => if x in order && (x == n || DependsOn(g, n, x)) then Some(2 * IndexOf(order, x) + delay) else None
  }

  lemma NeededIsInOrder(g: Graph, order: seq<string>, startDeps: map<string, seq<string>>, n: string)
    requires Ordered(g, order) && startDeps.Keys <= (set x | x in order) && StartsAfterAll(g, startDeps.Keys, startDeps)
    ensures StartsInOrder(startDeps, Needed(g, order, n, 0), Needed(g, order, n, 1))
  {
    var began, running := Needed(g, order, n, 0), Needed(g, order, n, 1);
    forall x, d | x in startDeps && d in startDeps[x] && d in startDeps && began(x).Some?
      ensures running(d).Some? && running(d).value < began(x).value
    {
      assert DependsOn(g, x, d);
      if x != n { DependsOnIsTransitive(g, n, x, d); }
      var i := IndexOf(order, x);
      OrderedCoversIndirect(g, order, i, d);
      var j :| 0 <= j < i && order[..i][j] == d;
      IndexIsUnique(g, order, j);
    }
  }

  /**
   * Of two modules with services, m is sure to be running before that of n is told to start if and only if n depends on
   * m, directly or not, whether or not the modules in between have services.
   */
  lemma StartOrderExactly(
    g: Graph, order: seq<string>, startDeps: map<string, seq<string>>, m: string, n: string)
    requires Ordered(g, order) && startDeps.Keys <= (set x | x in order) && StartsAfterAll(g, startDeps.Keys, startDeps)
    requires m in startDeps && n in startDeps
    ensures (forall began, running :: StartsInOrder(startDeps, began, running) && began(n).Some?
               ==> running(m).Some? && running(m).value < began(n).value)
      <==> DependsOn(g, n, m)
  {
    var began, running := Needed(g, order, n, 0), Needed(g, order, n, 1);
    NeededIsInOrder(g, order, startDeps, n);
    assert StartsInOrder(startDeps, began, running);
    assert began(n).Some?;
    if !DependsOn(g, n, m) && m != n {
      assert running(m).None?;
    }
  }

  // ---------------------------------------------------------------- the order of stopping

  predicate DependsDirectly(g: Graph, m: string, d: string) {
    m in g && d in g[m].deps
  }

  function DirectDependants(g: Graph, mod: string, mods: seq<string>): (r: seq<string>)
    ensures forall n :: n in r <==> n in mods && DependsDirectly(g, n, mod)
  {
    if mods == [] then []
    else
      var front, n := mods[..|mods| - 1], mods[|mods| - 1];
      assert mods == front + [n];
      DirectDependants(g, mod, front) + if DependsDirectly(g, n, mod) then [n] else []
  }

  predicate HasService(g: Graph, m: string) {
    m in g && g[m].initFn == ReturnsService
  }

  function IndexOf(order: seq<string>, m: string): (i: nat)
    requires m in order
    ensures i < |order| && order[i] == m
  {
    if order[0] == m then 0 else 1 + IndexOf(order[1..], m)
  }

  ghost predicate InTarget(g: Graph, target: string, m: string) {
    m == target || DependsOn(g, target, m)
  }

  /** The direct dependants of n among the modules of a target. */
  ghost predicate WaitsWithin(g: Graph, target: string, n: string, waits: seq<string>) {
    forall d :: d in waits <==> DependsDirectly(g, d, n) && InTarget(g, target, d)
  }

  /** The first target that needs n, for which n was initialised. */
  ghost predicate IsFirstTarget(g: Graph, targets: seq<string>, f: int, n: string) {
    0 <= f < |targets| && InTarget(g, targets[f], n) && forall j :: 0 <= j < f ==> !InTarget(g, targets[j], n)
  }

  /** Each service waits for its direct dependants within the target for which it was initialised. */
  ghost predicate WaitsOfTargets(g: Graph, targets: seq<string>, stopDeps: map<string, seq<string>>) {
    forall n :: n in stopDeps ==>
      exists f :: IsFirstTarget(g, targets, f, n) && WaitsWithin(g, targets[f], n, stopDeps[n])
  }

  /** Whatever depends on n directly comes after n in the order. */
  lemma DependantIsLater(g: Graph, order: seq<string>, d: string, n: string)
    requires Ordered(g, order) && d in order && DependsDirectly(g, d, n)
    ensures n in order && IndexOf(order, n) < IndexOf(order, d)
  {
    var j := IndexOf(order, d);
    assert n in order[..j];
    var k :| 0 <= k < j && order[..j][k] == n;
    IndexIsUnique(g, order, k);
  }

  lemma WaitListIsWithin(g: Graph, target: string, order: seq<string>, n: string, waits: seq<string>)
    requires Ordered(g, order) && IsWaitList(g, order, n, waits) && forall d :: d in order <==> InTarget(g, target, d)
    ensures WaitsWithin(g, target, n, waits)
  {
    var i :| 0 <= i < |order| && order[i] == n && waits == DirectDependants(g, n, order[i + 1..]);
    IndexIsUnique(g, order, i);
    forall d ensures d in waits <==> DependsDirectly(g, d, n) && InTarget(g, target, d) {
      if d in order && DependsDirectly(g, d, n) {
        DependantIsLater(g, order, d, n);
        StandsBehind(order, i, d);
      } else if d in order[i + 1..] {
        assert d in order;
      }
    }
  }

  lemma StandsBehind(order: seq<string>, i: nat, d: string)
    requires d in order && i < IndexOf(order, d)
    ensures d in order[i + 1..]
  {
    assert order[i + 1..][IndexOf(order, d) - i - 1] == d;
  }

  lemma AddedWithin(g: Graph, target: string, order: seq<string>, before: map<string, seq<string>>,
      after: map<string, seq<string>>)
    requires Ordered(g, order) && WaitsAdded(g, order, before, after)
    requires forall d :: d in order <==> InTarget(g, target, d)
    ensures forall n :: n in after && n !in before ==> WaitsWithin(g, target, n, after[n])
  {
    forall n | n in after && n !in before ensures WaitsWithin(g, target, n, after[n]) {
      WaitListIsWithin(g, target, order, n, after[n]);
    }
  }

  lemma OneMoreTarget(g: Graph, targets: seq<string>, i: nat, done: seq<string>, stopDeps: map<string, seq<string>>,
      done': seq<string>, stopDeps': map<string, seq<string>>)
    requires i < |targets| && WaitsOfTargets(g, targets, stopDeps)
    requires forall m :: m in stopDeps <==> m in done && HasService(g, m)
    requires forall m :: m in stopDeps' <==> m in done' && HasService(g, m)
    requires forall t :: t in targets[..i] ==> t in done && forall d :: DependsOn(g, t, d) ==> d in done
    requires forall m :: m in done' ==> m in done || InTarget(g, targets[i], m)
    requires forall n :: n in stopDeps ==> n in stopDeps' && stopDeps'[n] == stopDeps[n]
    requires forall n :: n in stopDeps' && n !in stopDeps ==> WaitsWithin(g, targets[i], n, stopDeps'[n])
    ensures WaitsOfTargets(g, targets, stopDeps')
  {
    forall n | n in stopDeps'
      ensures exists f :: IsFirstTarget(g, targets, f, n) && WaitsWithin(g, targets[f], n, stopDeps'[n])
    {
      if n in stopDeps {
        var f :| IsFirstTarget(g, targets, f, n) && WaitsWithin(g, targets[f], n, stopDeps[n]);
      } else {
        assert forall j :: 0 <= j < i ==> targets[j] in targets[..i];
        assert IsFirstTarget(g, targets, i, n);
      }
    }
  }

  /**
   * stopped gives the time at which each module has stopped. Before that a service waits for those in its list, unless
   * it has failed on its own and is not running any more.
   */
  ghost predicate StopsInOrder(stopDeps: map<string, seq<string>>, failed: set<string>, stopped: string -> nat) {
    forall n, d :: n in stopDeps && n !in failed && d in stopDeps[n] && d in stopDeps ==> stopped(d) < stopped(n)
  }

  /** What initialising all targets leaves: the order in which it was done, and the lists. */
  ghost predicate AllInitialised(g: Graph, targets: seq<string>, order: seq<string>, stopDeps: map<string,
      seq<string>>) {
    && Ordered(g, order) && WaitsOfTargets(g, targets, stopDeps)
    && (forall m :: m in stopDeps <==> m in order && HasService(g, m))
    && (forall t, m :: t in targets && InTarget(g, t, m) ==> m in order)
  }

  /** n waits for d: both have a service, and d is among the modules of the target for which n was initialised. */
  ghost predicate WaitsFor(g: Graph, targets: seq<string>, failed: set<string>, d: string, n: string) {
    && DependsDirectly(g, d, n) && HasService(g, d) && HasService(g, n) && n !in failed
    && exists f :: IsFirstTarget(g, targets, f, n) && InTarget(g, targets[f], d)
  }

  ghost predicate IsChain(g: Graph, targets: seq<string>, failed: set<string>, p: seq<string>) {
    |p| >= 2 && forall i :: 0 <= i < |p| - 1 ==> WaitsFor(g, targets, failed, p[i], p[i + 1])
  }

  ghost predicate Chained(g: Graph, targets: seq<string>, failed: set<string>, m: string, n: string) {
    exists p :: IsChain(g, targets, failed, p) && p[0] == m && p[|p| - 1] == n
  }

  lemma WaitsAreListed(g: Graph, targets: seq<string>, order: seq<string>, stopDeps: map<string, seq<string>>,
      failed: set<string>, d: string, n: string)
    requires AllInitialised(g, targets, order, stopDeps)
    ensures WaitsFor(g, targets, failed, d, n)
      <==> n in stopDeps && n !in failed && d in stopDeps && d in stopDeps[n]
  {
    if n in stopDeps {
      var f :| IsFirstTarget(g, targets, f, n) && WaitsWithin(g, targets[f], n, stopDeps[n]);
      forall h | IsFirstTarget(g, targets, h, n) ensures h == f {}
    }
    if WaitsFor(g, targets, failed, d, n) {
      var f :| IsFirstTarget(g, targets, f, n) && InTarget(g, targets[f], d);
      assert targets[f] in targets && n in order && d in order;
    }
  }

  lemma {:induction false} ChainStopsInOrder(g: Graph, targets: seq<string>, order: seq<string>,
      stopDeps: map<string, seq<string>>, failed: set<string>, p: seq<string>, stopped: string -> nat)
    requires AllInitialised(g, targets, order, stopDeps) && StopsInOrder(stopDeps, failed, stopped)
    requires IsChain(g, targets, failed, p)
    ensures stopped(p[0]) < stopped(p[|p| - 1])
  {
    assert WaitsFor(g, targets, failed, p[0], p[0 + 1]);
    WaitsAreListed(g, targets, order, stopDeps, failed, p[0], p[1]);
    if |p| > 2 {
      ChainTail(g, targets, failed, p);
      ChainStopsInOrder(g, targets, order, stopDeps, failed, p[1..], stopped);
    }
  }

  lemma ChainTail(g: Graph, targets: seq<string>, failed: set<string>, p: seq<string>)
    requires IsChain(g, targets, failed, p) && |p| > 2
    ensures IsChain(g, targets, failed, p[1..])
  {
    var q := p[1..];
    forall i | 0 <= i < |q| - 1 ensures WaitsFor(g, targets, failed, q[i], q[i + 1]) {
      assert WaitsFor(g, targets, failed, p[i + 1], p[i + 1 + 1]);
    }
  }

  lemma ChainOneMore(g: Graph, targets: seq<string>, failed: set<string>, a: string, b: string, n: string)
    requires WaitsFor(g, targets, failed, a, b) && (b == n || Chained(g, targets, failed, b, n))
    ensures Chained(g, targets, failed, a, n)
  {
    if b == n {
      assert IsChain(g, targets, failed, [a, n]);
    } else {
      var p :| IsChain(g, targets, failed, p) && p[0] == b && p[|p| - 1] == n;
      var q := [a] + p;
      forall i | 0 <= i < |q| - 1 ensures WaitsFor(g, targets, failed, q[i], q[i + 1]) {
        if i > 0 {
          assert WaitsFor(g, targets, failed, p[i - 1], p[i - 1 + 1]);
        }
      }
      assert IsChain(g, targets, failed, q);
    }
  }

  /** A way of stopping in which only what n has to wait for stops before n. */
  ghost function Late(g: Graph, targets: seq<string>, order: seq<string>, failed: set<string>,
      n: string): string -> nat {
    m =>
      if m !in order then 0
      else if m == n || Chained(g, targets, failed, m, n) then |order| - IndexOf(order, m)
      else |order| + |order| - IndexOf(order, m)
  }

  lemma WaitedForStopsFirst(g: Graph, targets: seq<string>, order: seq<string>, failed: set<string>, late: string,
      d: string, n: string)
    requires Ordered(g, order) && d in order && n in order && WaitsFor(g, targets, failed, d, n)
    ensures Late(g, targets, order, failed, late)(d) < Late(g, targets, order, failed, late)(n)
  {
    DependantIsLater(g, order, d, n);
    if n == late || Chained(g, targets, failed, n, late) {
      ChainOneMore(g, targets, failed, d, n, late);
    }
  }

  lemma LateIsInOrder(g: Graph, targets: seq<string>, order: seq<string>, stopDeps: map<string, seq<string>>,
      failed: set<string>, late: string)
    requires AllInitialised(g, targets, order, stopDeps)
    ensures StopsInOrder(stopDeps, failed, Late(g, targets, order, failed, late))
  {
    var stopped := Late(g, targets, order, failed, late);
    forall n, d | n in stopDeps && n !in failed && d in stopDeps[n] && d in stopDeps ensures stopped(d) < stopped(n) {
      WaitsAreListed(g, targets, order, stopDeps, failed, d, n);
      WaitedForStopsFirst(g, targets, order, failed, late, d, n);
    }
  }

  /**
   * Once all targets have been initialised, m is sure to have stopped before n if and only if a chain of modules with
   * services leads from m to n, each a direct dependant of the next and among the modules of the target for which the
   * next was initialised, where all but m are still running.
   */
  lemma StopOrderExactly(g: Graph, targets: seq<string>, order: seq<string>, stopDeps: map<string, seq<string>>,
      failed: set<string>, m: string, n: string)
    requires AllInitialised(g, targets, order, stopDeps) && m in order && n in order
    ensures (forall stopped: string -> nat :: StopsInOrder(stopDeps, failed, stopped) ==> stopped(m) < stopped(n))
      <==> Chained(g, targets, failed, m, n)
  {
    if Chained(g, targets, failed, m, n) {
      var p :| IsChain(g, targets, failed, p) && p[0] == m && p[|p| - 1] == n;
      forall stopped: string -> nat | StopsInOrder(stopDeps, failed, stopped) ensures stopped(m) < stopped(n) {
        ChainStopsInOrder(g, targets, order, stopDeps, failed, p, stopped);
      }
    } else {
      LateIsInOrder(g, targets, order, stopDeps, failed, n);
      var stopped := Late(g, targets, order, failed, n);
      assert StopsInOrder(stopDeps, failed, stopped);
      assert stopped(m) >= stopped(n);
    }
  }

  /**
   * A module without a service does not pass the waiting on: a depends on b, b on c, and only b has no service. Both
   * stopping a first and stopping c first respect the lists.
   */
  lemma StopOrderNeedNotBeKept(g: Graph, stopDeps: map<string, seq<string>>, a: string, b: string, c: string)
    returns (first: string -> nat, last: string -> nat)
    requires a != b && b != c && a != c
    requires g == map[a := Module([b], ReturnsService), b := Module([c], ReturnsNothing),
                c := Module([], ReturnsService)]
    requires stopDeps.Keys == {a, c} && WaitsOfTargets(g, [a], stopDeps)
    ensures DependsOn(g, a, c)
    ensures StopsInOrder(stopDeps, {}, first) && first(a) < first(c)
    ensures StopsInOrder(stopDeps, {}, last) && last(c) < last(a)
  {
    DirectDependency(g, a, b);
    DirectDependency(g, b, c);
    DependsOnIsTransitive(g, a, b, c);
    first := m => if m == a then 0 else 1;
    last := m => if m == c then 0 else 1;
    forall n, d | n in stopDeps && d in stopDeps[n] ensures d == b {
      assert DependsDirectly(g, d, n);
    }
  }

  /** Nor does a module wait for dependants that only a later target brings in. */
  lemma LaterTargetsAreNotWaitedFor(g: Graph, stopDeps: map<string, seq<string>>, a: string, c: string)
    returns (last: string -> nat)
    requires a != c
    requires g == map[a := Module([c], ReturnsService), c := Module([], ReturnsService)]
    requires stopDeps.Keys == {a, c} && WaitsOfTargets(g, [c, a], stopDeps)
    ensures DependsOn(g, a, c)
    ensures StopsInOrder(stopDeps, {}, last) && last(c) < last(a)
  {
    DirectDependency(g, a, c);
    last := m => if m == c then 0 else 1;
    forall n, d | n in stopDeps && d in stopDeps[n] ensures false {
      assert DependsDirectly(g, d, n);
      assert n == c && d == a;
      assert InTarget(g, [c, a][0], c);
      var f :| IsFirstTarget(g, [c, a], f, c) && WaitsWithin(g, [c, a][f], c, stopDeps[c]);
      assert f == 0;
      var e := FirstStep(g, c, a);
    }
  }

  /** m has not been initialised and all of its dependencies have. */
  ghost predicate CanRunNext(g: Graph, done: seq<string>, m: string) {
    m in g && m !in done && forall d :: d in g[m].deps ==> d in done
  }

  lemma NextCoversIndirect(g: Graph, done: seq<string>, m: string, d: string)
    requires Ordered(g, done) && CanRunNext(g, done, m) && DependsOn(g, m, d)
    ensures d in done
  {
    AppendOrdered(g, done, m);
    OrderedCoversIndirect(g, done + [m], |done|, d);
    assert (done + [m])[..|done|] == done;
  }

  /** The flags say which names are in the result. */
  ghost predicate Marks(uniq: map<string, bool>, result: seq<string>) {
    forall d :: d in result <==> d in uniq && uniq[d]
  }

  ghost predicate DepsAdded(g: Graph, uniq: map<string, bool>, m: string)
    requires m in g
  {
    forall d :: d in g[m].deps ==> d in uniq && uniq[d]
  }

  lemma AppendOrderedTarget(g: Graph, order: seq<string>, m: string)
    requires Closed(g) && Acyclic(g) && m in g && Ordered(g, order) && forall d :: d in order <==> DependsOn(g, m, d)
    ensures Ordered(g, order + [m])
  {
    forall d | d in g[m].deps ensures d in order {
      DirectDependency(g, m, d);
    }
    AppendOrdered(g, order, m);
  }

  lemma {:induction false} DistinctCount(s: seq<string>)
    requires forall i, j :: 0 <= i < j < |s| ==> s[i] != s[j]
    ensures |set x | x in s| == |s|
  {
    if s != [] {
      var front, last := s[..|s| - 1], s[|s| - 1];
      DistinctCount(front);
      assert s == front + [last];
      assert (set x | x in s) == (set x | x in front) + {last};
      assert last !in front;
    }
  }

  lemma NotAllAdded(uniq: map<string, bool>, result: seq<string>)
    requires Marks(uniq, result)
    requires forall i, j :: 0 <= i < j < |result| ==> result[i] != result[j]
    requires |result| < |uniq|
    ensures exists d :: d in uniq && !uniq[d]
  {
    DistinctCount(result);
    var added := set x | x in result;
    assert added <= uniq.Keys;
    assert |uniq.Keys - added| == |uniq.Keys| - |added|;
    var d :| d in uniq.Keys - added;
    assert d in uniq && !uniq[d];
  }

  lemma AllAdded(uniq: map<string, bool>, result: seq<string>)
    requires Marks(uniq, result)
    requires forall i, j :: 0 <= i < j < |result| ==> result[i] != result[j]
    requires |result| >= |uniq|
    ensures forall d :: d in uniq ==> uniq[d]
  {
    DistinctCount(result);
    var added := set x | x in result;
    assert added <= uniq.Keys;
    assert |uniq.Keys - added| == |uniq.Keys| - |added|;
    forall d | d in uniq ensures uniq[d] {
      assert d !in uniq.Keys - added;
    }
  }

  /** Among the modules still missing, one with fewest dependencies has none of them missing. */
  lemma SomeoneIsReady(g: Graph, mod: string, uniq: map<string, bool>) returns (m: string)
    requires Closed(g) && Acyclic(g) && mod in g && uniq.Keys == Dependencies(g, mod)
    requires exists d :: d in uniq && !uniq[d]
    ensures m in g && m in uniq && !uniq[m] && DepsAdded(g, uniq, m)
  {
    var x :| x in uniq && !uniq[x];
    m := Lowest(g, mod, uniq, x);
  }

  lemma {:induction false} Lowest(g: Graph, mod: string, uniq: map<string, bool>, x: string) returns (m: string)
    requires Closed(g) && Acyclic(g) && mod in g && uniq.Keys == Dependencies(g, mod)
    requires x in uniq && !uniq[x]
    ensures m in g && m in uniq && !uniq[m] && DepsAdded(g, uniq, m)
    decreases |Dependencies(g, x)|
  {
    forall d | d in g[x].deps ensures d in uniq {
      DirectDependency(g, x, d);
      DependsOnIsTransitive(g, mod, x, d);
    }
    if d :| d in g[x].deps && !uniq[d] {
      FewerDependencies(g, x, d);
      m := Lowest(g, mod, uniq, d);
    } else {
      m := x;
    }
  }
}
