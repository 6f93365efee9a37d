/** Cached subrings under interleaved updates (ring/ring.go). */
module SubringCache {
  import opened RingTypes
  import opened Conflicts
  import opened ShuffleShard
  import opened Topology
  import RingDesc
  import ShardGuarantees

  // Computing a subring and storing it are two critical sections, and the ring may change in between
  // (updateRingState, ShuffleShard, getCachedShuffledSubring, setCachedShuffledSubring, CleanupShuffleShardCache).

  datatype CacheKey = CacheKey(identifier: string, shardSize: int)

  /**
   * The entries of a subring, and when the topology of the ring it was computed from had last changed. The content of
   * that ring is bookkeeping.
   */
  datatype Subring = Subring(ingesters: Ingesters, lastTopologyChange: int, origin: Ingesters)

  /** The draws of the generator seeded for an identifier and a zone. */
  type Random = (string, string, nat) -> Token

  function StreamsFor(random: Random, identifier: string): Streams {
    (zone: string, n: nat) => random(identifier, zone, n)
  }

  /** What shuffleShard builds from a ring. */
  ghost function FreshShard(ring: Ingesters, zoneAware: bool, random: Random, key: CacheKey): Ingesters
    requires ConflictFree(ring)
  {
    if key.shardSize <= 0 then map[]
    else RingDesc.Restricted(ring, Shard(ring, zoneAware, StreamsFor(random, key.identifier), key.shardSize, {}))
  }

  /** computed holds, per worker, a subring that has been computed and not yet stored. times is bookkeeping. */
  datatype State = State(
    ring: Ingesters, lastTopologyChange: int, cache: map<CacheKey, Subring>, computed: map<nat, (CacheKey, Subring)>,
    times: set<int>)

  datatype Step =
    | Update(next: Ingesters, now: int)
    | Compute(w: nat, key: CacheKey)
    | Store(w: nat)
    | Hit(key: CacheKey)
    | Cleanup(identifier: string)

  ghost predicate Initial(s: State) {
    s == State(map[], 0, map[], map[], {0})
  }

  /** Tokens are never claimed twice. */
  ghost predicate Enabled(s: State, step: Step) {
    match step
    case Update(next, now) => ConflictFree(next)
    case Compute(_, key) => ConflictFree(s.ring) && key.shardSize > 0
    case Store(w) => w in s.computed
    case Hit(key) => key in s.cache
    case Cleanup(_) => true
  }

  ghost function Next(s: State, step: Step, zoneAware: bool, random: Random): State
    requires Enabled(s, step)
  {
    match step
    case Update(next, now) =>
      if SameTopology(s.ring, next) then s.(ring := next)
      else s.(ring := next, lastTopologyChange := now, cache := map[], times := s.times + {now})
    case Compute(w, key) =>
      var subring := Subring(FreshShard(s.ring, zoneAware, random, key), s.lastTopologyChange, s.ring);
      s.(computed := s.computed[w := (key, subring)])
    case Store(w) =>
      var (key, subring) := s.computed[w];
      var rest := s.computed - {w};
      if subring.lastTopologyChange == s.lastTopologyChange then s.(cache := s.cache[key := subring], computed := rest)
      else s.(computed := rest)
    case Hit(key) =>
      var c := s.cache[key];
      s.(cache := s.cache[key := c.(ingesters := RingDesc.Refreshed(c.ingesters, s.ring))])
    case Cleanup(identifier) => s.(cache := map key | key in s.cache && key.identifier != identifier :: s.cache[key])
  }

  ghost predicate IsRun(states: seq<State>, steps: seq<Step>, zoneAware: bool, random: Random) {
    && |states| == |steps| + 1 && Initial(states[0])
    && forall i :: 0 <= i < |steps| ==>
         Enabled(states[i], steps[i]) && states[i + 1] == Next(states[i], steps[i], zoneAware, random)
  }

  /** The subring differs from the shard of the ring it was computed from at most in states and heartbeats. */
  ghost predicate ComesFromOrigin(c: Subring, zoneAware: bool, random: Random, key: CacheKey) {
    ConflictFree(c.origin) && SameTopology(c.ingesters, FreshShard(c.origin, zoneAware, random, key))
  }

  ghost predicate Inv(s: State, zoneAware: bool, random: Random) {
    && ConflictFree(s.ring) && s.lastTopologyChange in s.times
    && (forall key :: key in s.cache ==> ComesFromOrigin(s.cache[key], zoneAware, random, key))
    && (forall key :: key in s.cache ==> s.cache[key].lastTopologyChange == s.lastTopologyChange)
    && (forall w :: w in s.computed ==> ComesFromOrigin(s.computed[w].1, zoneAware, random, s.computed[w].0))
    && (forall w :: w in s.computed ==> s.computed[w].1.lastTopologyChange in s.times)
  }

  lemma SameTopologySameFreshShard(m: Ingesters, n: Ingesters, zoneAware: bool, random: Random, key: CacheKey)
    requires SameTopology(m, n) && ConflictFree(m) && ConflictFree(n)
    ensures SameTopology(FreshShard(m, zoneAware, random, key), FreshShard(n, zoneAware, random, key))
  {
    if key.shardSize > 0 {
      SameTopologySameShard(m, n, zoneAware, StreamsFor(random, key.identifier), key.shardSize, {});
    }
  }

  /** A subring that is up to date becomes a fresh one when its states and heartbeats are refreshed. */
  lemma RefreshedIsFresh(ring: Ingesters, zoneAware: bool, random: Random, key: CacheKey, c: Ingesters)
    requires ConflictFree(ring) && SameTopology(c, FreshShard(ring, zoneAware, random, key))
    ensures RingDesc.Refreshed(c, ring) == FreshShard(ring, zoneAware, random, key)
  {
  }

  lemma StepKeepsInv(s: State, step: Step, zoneAware: bool, random: Random)
    requires Inv(s, zoneAware, random) && Enabled(s, step)
    ensures Inv(Next(s, step, zoneAware, random), zoneAware, random)
  {
    match step
    case Hit(key) => HitKeepsOrigin(s, s.cache[key], zoneAware, random, key);
    case Compute(_, key) => ComputeComesFromOrigin(s, zoneAware, random, key);
    case _ =>
  }

  lemma HitKeepsOrigin(s: State, c: Subring, zoneAware: bool, random: Random, key: CacheKey)
    requires ComesFromOrigin(c, zoneAware, random, key)
    ensures ComesFromOrigin(c.(ingesters := RingDesc.Refreshed(c.ingesters, s.ring)), zoneAware, random, key)
  {
  }

  lemma ComputeComesFromOrigin(s: State, zoneAware: bool, random: Random, key: CacheKey)
    requires ConflictFree(s.ring)
    ensures ComesFromOrigin(Subring(FreshShard(s.ring, zoneAware, random, key), s.lastTopologyChange, s.ring),
                            zoneAware, random, key)
  {
  }

  lemma {:induction false} RunKeepsInv(states: seq<State>, steps: seq<Step>, zoneAware: bool, random: Random, i: nat)
    requires IsRun(states, steps, zoneAware, random) && i < |states|
    ensures Inv(states[i], zoneAware, random)
  {
    if i > 0 {
      RunKeepsInv(states, steps, zoneAware, random, i - 1);
      StepKeepsInv(states[i - 1], steps[i - 1], zoneAware, random);
    }
  }

  // ---------------------------------------------------------------- when a hit is fresh

  /** What a hit yields are the entries of a fresh shard of the ring, states and heartbeats included. */
  ghost predicate IsFresh(s: State, c: Subring, zoneAware: bool, random: Random, key: CacheKey)
    requires ConflictFree(s.ring)
  {
    RingDesc.Refreshed(c.ingesters, s.ring) == FreshShard(s.ring, zoneAware, random, key)
  }

  /**
   * However updates, computations and stores are interleaved, and whatever the times: a hit is fresh if and only if the
   * shard of the ring from which it was computed has the same topology as that of the ring now.
   */
  lemma HitIsFreshExactly(states: seq<State>, steps: seq<Step>, zoneAware: bool, random: Random, i: nat)
    requires IsRun(states, steps, zoneAware, random) && i < |steps| && steps[i].Hit?
    ensures ConflictFree(states[i].ring) && ConflictFree(states[i].cache[steps[i].key].origin)
    ensures states[i + 1].cache[steps[i].key].ingesters == FreshShard(states[i].ring, zoneAware, random, steps[i].key)
      <==> SameTopology(FreshShard(states[i].cache[steps[i].key].origin, zoneAware, random, steps[i].key),
                        FreshShard(states[i].ring, zoneAware, random, steps[i].key))
  {
    RunKeepsInv(states, steps, zoneAware, random, i);
    FreshExactly(states[i], states[i].cache[steps[i].key], zoneAware, random, steps[i].key);
  }

  lemma FreshExactly(s: State, c: Subring, zoneAware: bool, random: Random, key: CacheKey)
    requires ConflictFree(s.ring) && ComesFromOrigin(c, zoneAware, random, key)
    ensures IsFresh(s, c, zoneAware, random, key)
      <==> SameTopology(FreshShard(c.origin, zoneAware, random, key), FreshShard(s.ring, zoneAware, random, key))
  {
    if SameTopology(FreshShard(c.origin, zoneAware, random, key), FreshShard(s.ring, zoneAware, random, key)) {
      RefreshedIsFresh(s.ring, zoneAware, random, key, c.ingesters);
    }
  }

  /** A subring is stored although the topology has changed since it was computed: the two changes have equal times. */
  ghost predicate StoresAcross(s: State, step: Step) {
    && step.Store? && step.w in s.computed
    && s.computed[step.w].1.lastTopologyChange == s.lastTopologyChange
    && !SameTopology(s.computed[step.w].1.origin, s.ring)
  }

  ghost predicate CacheIsCurrent(s: State) {
    forall key :: key in s.cache ==> SameTopology(s.cache[key].origin, s.ring)
  }

  lemma {:induction false} CacheStaysCurrent(
    states: seq<State>, steps: seq<Step>, zoneAware: bool, random: Random, i: nat)
    requires IsRun(states, steps, zoneAware, random) && i < |states|
    requires forall j :: 0 <= j < i ==> !StoresAcross(states[j], steps[j])
    ensures CacheIsCurrent(states[i])
  {
    if i > 0 {
      CacheStaysCurrent(states, steps, zoneAware, random, i - 1);
      assert !StoresAcross(states[i - 1], steps[i - 1]);
      StepKeepsCurrent(states[i - 1], steps[i - 1], zoneAware, random);
    }
  }

  lemma StepKeepsCurrent(s: State, step: Step, zoneAware: bool, random: Random)
    requires CacheIsCurrent(s) && Enabled(s, step) && !StoresAcross(s, step)
    ensures CacheIsCurrent(Next(s, step, zoneAware, random))
  {
  }

  /** As long as no subring is stored across a change of topology of equal time, every hit is fresh. */
  lemma HitIsFreshUnlessStoredAcross(states: seq<State>, steps: seq<Step>, zoneAware: bool, random: Random, i: nat)
    requires IsRun(states, steps, zoneAware, random) && i < |steps| && steps[i].Hit?
    requires forall j :: 0 <= j < i ==> !StoresAcross(states[j], steps[j])
    ensures ConflictFree(states[i].ring)
    ensures states[i + 1].cache[steps[i].key].ingesters == FreshShard(states[i].ring, zoneAware, random, steps[i].key)
  {
    HitIsFreshExactly(states, steps, zoneAware, random, i);
    CacheStaysCurrent(states, steps, zoneAware, random, i);
    SameTopologySameFreshShard(states[i].cache[steps[i].key].origin, states[i].ring, zoneAware, random, steps[i].key);
  }

  /** A change of topology at another time than all before. */
  ghost predicate AtNewTime(s: State, step: Step) {
    step.Update? && !SameTopology(s.ring, step.next) ==> step.now !in s.times
  }

  ghost predicate ComputedIsCurrent(s: State) {
    forall w :: w in s.computed && s.computed[w].1.lastTopologyChange == s.lastTopologyChange
      ==> SameTopology(s.computed[w].1.origin, s.ring)
  }

  lemma {:induction false} ComputedStaysCurrent(
    states: seq<State>, steps: seq<Step>, zoneAware: bool, random: Random, i: nat)
    requires IsRun(states, steps, zoneAware, random) && i < |states|
    requires forall j :: 0 <= j < i ==> AtNewTime(states[j], steps[j])
    ensures ComputedIsCurrent(states[i])
  {
    if i > 0 {
      ComputedStaysCurrent(states, steps, zoneAware, random, i - 1);
      RunKeepsInv(states, steps, zoneAware, random, i - 1);
      assert AtNewTime(states[i - 1], steps[i - 1]);
      StepKeepsComputed(states[i - 1], steps[i - 1], zoneAware, random);
    }
  }

  lemma StepKeepsComputed(s: State, step: Step, zoneAware: bool, random: Random)
    requires Inv(s, zoneAware, random) && ComputedIsCurrent(s) && Enabled(s, step) && AtNewTime(s, step)
    ensures ComputedIsCurrent(Next(s, step, zoneAware, random))
  {
  }

  /** In particular, if changes of topology happen at distinct times, every hit is fresh. */
  lemma HitIsFresh(states: seq<State>, steps: seq<Step>, zoneAware: bool, random: Random, i: nat)
    requires IsRun(states, steps, zoneAware, random) && i < |steps| && steps[i].Hit?
    requires forall j :: 0 <= j < i ==> AtNewTime(states[j], steps[j])
    ensures ConflictFree(states[i].ring)
    ensures states[i + 1].cache[steps[i].key].ingesters == FreshShard(states[i].ring, zoneAware, random, steps[i].key)
  {
    forall j | 0 <= j < i ensures !StoresAcross(states[j], steps[j]) {
      ComputedStaysCurrent(states, steps, zoneAware, random, j);
    }
    HitIsFreshUnlessStoredAcross(states, steps, zoneAware, random, i);
  }

  // ---------------------------------------------------------------- two changes at one time

  function Holding(t: Token): InstanceDesc {
    InstanceDesc("", 1, ACTIVE, [t], "", 0)
  }

  lemma OneIsSelected(ring: Ingesters, x: string, y: string, random: Random, key: CacheKey)
    requires x != y && ring == map[x := Holding(1), y := Holding(2)] && key.shardSize == 1
    ensures ConflictFree(ring) && FreshShard(ring, false, random, key) != map[]
  {
    var stream := StreamOf(StreamsFor(random, key.identifier), "");
    assert x in ShardGuarantees.WithTokens(ring);
    ShardGuarantees.SelectedSize(ring, stream, 1);
    var k :| k in Selected(ring, {}, stream, 1);
    ShardGuarantees.ShardMembers(ring, false, StreamsFor(random, key.identifier), 1, {});
    assert k in FreshShard(ring, false, random, key);
  }

  /** The state after both changes, with the subring stored in between them or not. */
  function After(ring: Ingesters, cache: map<CacheKey, Subring>, computed: map<nat, (CacheKey, Subring)>): State {
    State(ring, 5, cache, computed, {0, 5})
  }

  lemma ReplacesRing(s: State, n: Ingesters, k: string, random: Random)
    requires ConflictFree(n) && k in n && k !in s.ring
    ensures Enabled(s, Update(n, 5))
    ensures Next(s, Update(n, 5), false, random) == State(n, 5, map[], s.computed, s.times + {5})
  {
  }

  lemma StoresLate(m: Ingesters, n: Ingesters, key: CacheKey, c: Subring, random: Random)
    requires ConflictFree(m) && key.shardSize > 0 && c == Subring(FreshShard(m, false, random, key), 5, m)
    ensures Next(After(m, map[], map[]), Compute(0, key), false, random) == After(m, map[], map[0 := (key, c)])
    ensures Enabled(After(n, map[], map[0 := (key, c)]), Store(0))
    ensures Next(After(n, map[], map[0 := (key, c)]), Store(0), false, random) == After(n, map[key := c], map[])
  {
    assert map[0 := (key, c)] - {0} == map[];
  }

  lemma FiveSteps(states: seq<State>, steps: seq<Step>, random: Random)
    requires |states| == 6 && |steps| == 5 && Initial(states[0])
    requires Enabled(states[0], steps[0]) && states[1] == Next(states[0], steps[0], false, random)
    requires Enabled(states[1], steps[1]) && states[2] == Next(states[1], steps[1], false, random)
    requires Enabled(states[2], steps[2]) && states[3] == Next(states[2], steps[2], false, random)
    requires Enabled(states[3], steps[3]) && states[4] == Next(states[3], steps[3], false, random)
    requires Enabled(states[4], steps[4]) && states[5] == Next(states[4], steps[4], false, random)
    ensures IsRun(states, steps, false, random)
  {
  }

  /**
   * The ring is replaced as a whole by two other instances at the time at which it got its first ones. A subring that
   * was computed before is stored after it, and served although its instance has gone.
   */
  lemma GoneInstanceIsServed(x: string, y: string, a: string, b: string, key: CacheKey, random: Random)
    returns (states: seq<State>, steps: seq<Step>)
    requires x != y && a != b && {x, y} !! {a, b} && key.shardSize == 1
    ensures IsRun(states, steps, false, random) && |steps| == 5 && steps[4] == Hit(key)
    ensures states[4].ring.Keys == {a, b}
    ensures states[5].cache[key].ingesters != map[] && states[5].cache[key].ingesters.Keys <= {x, y}
  {
    var m := map[x := Holding(1), y := Holding(2)];
    var n := map[a := Holding(1), b := Holding(2)];
    OneIsSelected(m, x, y, random, key);
    OneIsSelected(n, a, b, random, key);
    var c := Subring(FreshShard(m, false, random, key), 5, m);
    states, steps := LateStore(m, x, n, a, key, c, random);
    assert n.Keys == {a, b};
    ServesOld(states[4], key, c, random);
  }

  lemma LateStore(m: Ingesters, x: string, n: Ingesters, a: string, key: CacheKey, c: Subring, random: Random)
    returns (states: seq<State>, steps: seq<Step>)
    requires ConflictFree(m) && x in m && ConflictFree(n) && a in n && a !in m && key.shardSize > 0
    requires c == Subring(FreshShard(m, false, random, key), 5, m)
    ensures IsRun(states, steps, false, random) && |steps| == 5 && steps[4] == Hit(key)
    ensures states[4] == After(n, map[key := c], map[])
    ensures states[5] == Next(states[4], Hit(key), false, random)
  {
    steps := [Update(m, 5), Compute(0, key), Update(n, 5), Store(0), Hit(key)];
    var s0, s1, s2 := State(map[], 0, map[], map[], {0}), After(m, map[], map[]), After(m, map[], map[0 := (key, c)]);
    var s3, s4 := After(n, map[], map[0 := (key, c)]), After(n, map[key := c], map[]);
    ReplacesRing(s0, m, x, random);
    StoresLate(m, n, key, c, random);
    ReplacesRing(s2, n, a, random);
    states := [s0, s1, s2, s3, s4, Next(s4, Hit(key), false, random)];
    FiveSteps(states, steps, random);
  }

  lemma ServesOld(s: State, key: CacheKey, c: Subring, random: Random)
    requires key in s.cache && s.cache[key] == c && c.ingesters != map[]
    ensures Next(s, Hit(key), false, random).cache[key].ingesters != map[]
    ensures Next(s, Hit(key), false, random).cache[key].ingesters.Keys == c.ingesters.Keys
  {
    var k :| k in c.ingesters;
    assert k in Next(s, Hit(key), false, random).cache[key].ingesters;
  }
}
