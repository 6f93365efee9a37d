/**
 * The ring client (ring/ring.go): its indexes, replica sets, subrings and the cache of subrings. The loops are proved
 * equal to what Replication, WholeRing and ShuffleShard specify.
 */
module Ring {
  import opened RingTypes
  import opened TokenLists
  import opened Conflicts
  import opened Replication
  import opened RingIndexes
  import opened ShuffleShard
  import opened Topology
  import opened TokenWalk
  import opened Quorums
  import opened WholeRing
  import opened Sets
  import opened SubringCache
  import opened ShardSelection
  import opened ShardGuarantees
  import RingDesc
  import TokenCounts

  /** The part of the configuration that matters here. */
  datatype Config = Config(
    heartbeatTimeout: int, replicationFactor: nat, zoneAwarenessEnabled: bool, excludedZones: seq<string>,
    subringCacheDisabled: bool)

  function Included(m: Ingesters, excludedZones: seq<string>): Ingesters {
    map k | k in m && m[k].zone !in excludedZones :: m[k]
  }

  ghost predicate NoneExcluded(m: Ingesters, excludedZones: seq<string>) {
    forall k :: k in m ==> m[k].zone !in excludedZones
  }

  // ---------------------------------------------------------------- sorting more than once

  lemma SortedTwice(m: Ingesters, n: Ingesters, o: Ingesters)
    requires ListsSorted(m, n) && ListsSorted(n, o)
    ensures o == n
  {
    forall k | k in n ensures o[k] == n[k] {
      assert SortedEntry(m[k], n[k]) && SortedEntry(n[k], o[k]);
      SortedListsAgree(n[k].tokens, o[k].tokens);
    }
  }

  ghost predicate Sorted(m: Ingesters) {
    forall k :: k in m ==> Ascending(m[k].tokens)
  }

  /** Every index equals its recomputation from the entries. The owners may cover more tokens, in a subring. */
  ghost predicate IsIndex(
    m: Ingesters, tokens: seq<Token>, byZone: map<string, seq<Token>>, owners: map<Token, Info>, zones: seq<string>)
  {
    Sorted(m) && IsTokenList(m, tokens) && IsZoneIndex(m, byZone) && CoversOwners(m, owners) && IsZoneList(m, zones)
  }

  /** The indexes of new entries, whose token lists get sorted on the way. */
  method Reindex(desc: RingDesc.Desc)
    returns (tokens: seq<Token>, byZone: map<string, seq<Token>>, owners: map<Token, Info>, zones: seq<string>)
    modifies desc
    ensures ListsSorted(old(desc.ingesters), desc.ingesters)
    ensures IsIndex(desc.ingesters, tokens, byZone, owners, zones) && IsOwnerIndex(desc.ingesters, owners)
  {
    ghost var m := desc.ingesters;
    tokens := GetTokens(desc);
    ghost var n := desc.ingesters;
    byZone := GetTokensByZone(desc);
    SortedTwice(m, n, desc.ingesters);
    owners := GetTokensInfo(desc.ingesters);
    zones := GetZones(byZone);
  }

  // ---------------------------------------------------------------- walking

  ghost predicate AllOwned(tokens: seq<Token>, owners: map<Token, Info>) {
    forall t :: t in tokens ==> t in owners
  }

  /** The owners of the tokens in walking order. */
  ghost function Clockwise(tokens: seq<Token>, owners: map<Token, Info>, start: nat): (r: seq<Info>)
    requires start < |tokens| && AllOwned(tokens, owners)
  {
    seq(|tokens|, (j: nat) requires j < |tokens| => owners[tokens[At(start, j, |tokens|)]])
  }

  ghost predicate HostsOf(rs: seq<Replica>, hosts: seq<string>) {
    && |hosts| == |rs| && (forall j :: 0 <= j < |rs| ==> hosts[j] == rs[j].id)
    && forall id :: id in hosts <==> HasId(rs, id)
  }

  /** The lookups of one ring meet the assumption of the quorum theorems. */
  lemma ClockwiseIsCoherent(m: Ingesters, tokens: seq<Token>, owners: map<Token, Info>, start: nat)
    requires IsTokenList(m, tokens) && CoversOwners(m, owners) && start < |tokens|
    ensures AllOwned(tokens, owners)
    ensures Coherent(Clockwise(tokens, owners, start), m)
  {
    ElementsOfTokenList(m, tokens);
    forall t | t in tokens ensures t in owners && IsOwner(m, t, owners[t]) {
      assert t in Elements(tokens);
    }
    var infos := Clockwise(tokens, owners, start);
    forall i | 0 <= i < |infos| ensures infos[i].instanceID in m && m[infos[i].instanceID].zone == infos[i].zone {
      var t := tokens[At(start, i, |tokens|)];
      assert IsOwner(m, t, owners[t]);
    }
  }

  /** Where the walk stands after some iterations, provided every token has an owner. */
  ghost predicate ReachedBy(
    m: Ingesters, tokens: seq<Token>, owners: map<Token, Info>, start: nat, op: Operation, factor: nat, zoneAware: bool,
    iterations: nat, w: Walk)
    requires start < |tokens| && iterations <= |tokens|
  {
    AllOwned(tokens, owners) ==>
      w == WalkOver(Clockwise(tokens, owners, start)[..iterations], m, op, factor, zoneAware)
  }

  lemma OneMoreVisit(
    m: Ingesters, tokens: seq<Token>, owners: map<Token, Info>, start: nat, op: Operation, factor: nat, zoneAware: bool,
    iterations: nat, w: Walk)
    requires start < |tokens| && iterations < |tokens| && tokens[At(start, iterations, |tokens|)] in owners
    requires ReachedBy(m, tokens, owners, start, op, factor, zoneAware, iterations, w) && |w.replicas| < w.wanted
    ensures ReachedBy(m, tokens, owners, start, op, factor, zoneAware, iterations + 1,
      Visit(w, owners[tokens[At(start, iterations, |tokens|)]], m, op, zoneAware))
  {
    if AllOwned(tokens, owners) {
      var infos := Clockwise(tokens, owners, start);
      assert infos[..iterations + 1][..iterations] == infos[..iterations];
    }
  }

  lemma WalkEnds(
    m: Ingesters, tokens: seq<Token>, owners: map<Token, Info>, start: nat, op: Operation, factor: nat, zoneAware: bool,
    iterations: nat, w: Walk)
    requires start < |tokens| && iterations <= |tokens| && (|w.replicas| >= w.wanted || iterations == |tokens|)
    requires ReachedBy(m, tokens, owners, start, op, factor, zoneAware, iterations, w)
    ensures AllOwned(tokens, owners) ==> w == WalkOver(Clockwise(tokens, owners, start), m, op, factor, zoneAware)
  {
    if AllOwned(tokens, owners) {
      var infos := Clockwise(tokens, owners, start);
      if iterations == |tokens| {
        assert infos[..iterations] == infos;
      } else {
        WalkStaysStopped(infos, iterations, m, op, factor, zoneAware);
      }
    }
  }

  /** The loop of Get. None stands for a token without an owner. */
  method WalkRing(
    m: Ingesters, tokens: seq<Token>, owners: map<Token, Info>, start: nat, op: Operation, factor: nat, zoneAware: bool)
    returns (chosen: Option<seq<Replica>>)
    requires start < |tokens|
    ensures AllOwned(tokens, owners) ==>
      chosen == Some(WalkOver(Clockwise(tokens, owners, start), m, op, factor, zoneAware).replicas)
  {
    var n := factor;
    var instances: seq<Replica>, distinctHosts: seq<string>, distinctZones: seq<string> := [], [], [];
    var i: nat, iterations: nat := start, 0;
    while |distinctHosts| < n && iterations < |tokens|
      invariant iterations <= |tokens| && i <= |tokens|
      invariant iterations < |tokens| ==> Wrapped(i, |tokens|) == At(start, iterations, |tokens|)
      invariant HostsOf(instances, distinctHosts)
      invariant ReachedBy(m, tokens, owners, start, op, factor, zoneAware, iterations,
        Walk(instances, distinctZones, n))
      decreases |tokens| - iterations
    {
      i := Wrapped(i, |tokens|);
      var token := tokens[i];
      if token !in owners {
        return None;
      }
      OneMoreVisit(m, tokens, owners, start, op, factor, zoneAware, iterations, Walk(instances, distinctZones, n));
      iterations := iterations + 1;
      i := i + 1;
      var info := owners[token];
      if info.instanceID in distinctHosts {
        continue;
      }
      if zoneAware && info.zone != "" && info.zone in distinctZones {
        continue;
      }
      AddHost(instances, distinctHosts, Replica(info.instanceID, RingTypes.Lookup(m, info.instanceID)));
      distinctHosts := distinctHosts + [info.instanceID];
      var instance := RingTypes.Lookup(m, info.instanceID);
      if instance.state in op.extending {
        n := n + 1;
      } else if zoneAware && info.zone != "" {
        distinctZones := distinctZones + [info.zone];
      }
      instances := instances + [Replica(info.instanceID, instance)];
    }
    WalkEnds(m, tokens, owners, start, op, factor, zoneAware, iterations, Walk(instances, distinctZones, n));
    chosen := Some(instances);
  }

  lemma AddHost(rs: seq<Replica>, hosts: seq<string>, r: Replica)
    requires HostsOf(rs, hosts)
    ensures HostsOf(rs + [r], hosts + [r.id])
  {
    var all := rs + [r];
    forall id ensures id in hosts + [r.id] <==> HasId(all, id) {
      if HasId(rs, id) {
        var i :| 0 <= i < |rs| && rs[i].id == id;
        assert all[i].id == id;
      }
      assert all[|rs|].id == r.id;
    }
  }

  // ---------------------------------------------------------------- reading the whole ring

  /** The body of GetReplicationSetForOperation. */
  method ReadSet(m: Ingesters, zoneCount: nat, op: Operation, factor: nat, zoneAware: bool, timeout: int, now: int)
    returns (r: Lookup)
    requires zoneCount == |Zones(m)|
    ensures IsWholeRing(m, op, factor, zoneAware, timeout, now, r)
  {
    var healthyInstances, zoneFailures := SplitByHealth(m, op, timeout, now);
    CountIds(healthyInstances);
    var maxErrors, maxUnavailableZones := 0, 0;
    if zoneAware {
      var numReplicatedZones := Min(zoneCount, factor);
      var minSuccessZones := numReplicatedZones / 2 + 1;
      maxUnavailableZones := minSuccessZones - 1;
      if |zoneFailures| > maxUnavailableZones {
        return TooManyUnhealthy;
      }
      if |zoneFailures| > 0 {
        healthyInstances := WithoutZones(m, healthyInstances, zoneFailures);
      } else {
        assert (set k | k in Healthy(m, op, timeout, now) && m[k].zone !in zoneFailures)
          == Healthy(m, op, timeout, now);
      }
      maxUnavailableZones := maxUnavailableZones - |zoneFailures|;
    } else {
      var numRequired := |m|;
      if numRequired < factor {
        numRequired := factor;
      }
      numRequired := numRequired - factor / 2;
      if |healthyInstances| < numRequired {
        return TooManyUnhealthy;
      }
      maxErrors := |healthyInstances| - numRequired;
    }
    r := Found(ReplicationSet(healthyInstances, maxErrors, maxUnavailableZones));
  }

  ghost predicate ListsIds(rs: seq<Replica>, m: Ingesters, ids: set<string>) {
    Lists(ReplicationSet(rs, 0, 0), m, ids)
  }

  lemma ListOne(rs: seq<Replica>, m: Ingesters, ids: set<string>, k: string)
    requires ListsIds(rs, m, ids) && k in m && k !in ids
    ensures ListsIds(rs + [Replica(k, m[k])], m, ids + {k})
  {
    IdsOfAppend(rs, Replica(k, m[k]));
    assert forall i :: 0 <= i < |rs| ==> rs[i].id in Ids(rs);
  }

  method SplitByHealth(m: Ingesters, op: Operation, timeout: int, now: int)
    returns (healthyInstances: seq<Replica>, zoneFailures: set<string>)
    ensures ListsIds(healthyInstances, m, Healthy(m, op, timeout, now))
    ensures zoneFailures == FailedZones(m, op, timeout, now)
  {
    healthyInstances, zoneFailures := [], {};
    var todo := m.Keys;
    while todo != {}
      invariant todo <= m.Keys
      invariant ListsIds(healthyInstances, m, Healthy(m, op, timeout, now) - todo)
      invariant zoneFailures == set k | k in m && k !in todo && !IsHealthy(m[k], op, timeout, now) :: m[k].zone
      decreases todo
    {
      var k :| k in todo;
      if IsHealthy(m[k], op, timeout, now) {
        ListOne(healthyInstances, m, Healthy(m, op, timeout, now) - todo, k);
        assert Healthy(m, op, timeout, now) - (todo - {k}) == Healthy(m, op, timeout, now) - todo + {k};
        healthyInstances := healthyInstances + [Replica(k, m[k])];
      } else {
        assert Healthy(m, op, timeout, now) - (todo - {k}) == Healthy(m, op, timeout, now) - todo;
        zoneFailures := zoneFailures + {m[k].zone};
      }
      todo := todo - {k};
    }
  }

  /** Drops all instances of the given zones. */
  method WithoutZones(m: Ingesters, instances: seq<Replica>, zones: set<string>) returns (filtered: seq<Replica>)
    requires ListsIds(instances, m, Ids(instances))
    ensures ListsIds(filtered, m, set k | k in Ids(instances) && m[k].zone !in zones)
  {
    filtered := [];
    for i := 0 to |instances|
      invariant ListsIds(filtered, m, Kept(m, instances[..i], zones))
    {
      assert instances[..i + 1] == instances[..i] + [instances[i]];
      KeptOne(m, instances[..i], zones, instances[i]);
      if instances[i].desc.zone !in zones {
        ListOne(filtered, m, Kept(m, instances[..i], zones), instances[i].id);
        filtered := filtered + [instances[i]];
      }
    }
    assert instances[..|instances|] == instances;
    assert Kept(m, instances, zones) == set k | k in Ids(instances) && m[k].zone !in zones;
  }

  function Kept(m: Ingesters, rs: seq<Replica>, zones: set<string>): set<string> {
    set i | 0 <= i < |rs| && rs[i].desc.zone !in zones :: rs[i].id
  }

  lemma KeptOne(m: Ingesters, rs: seq<Replica>, zones: set<string>, r: Replica)
    ensures Kept(m, rs + [r], zones) == Kept(m, rs, zones) + if r.desc.zone !in zones then {r.id} else {}
  {
    var all := rs + [r];
    forall x ensures x in Kept(m, all, zones) <==> x in Kept(m, rs, zones) || (r.desc.zone !in zones && x == r.id) {
      if x in Kept(m, rs, zones) {
        var i :| 0 <= i < |rs| && rs[i].desc.zone !in zones && rs[i].id == x;
        assert all[i] == rs[i];
      }
      assert all[|rs|] == r;
    }
  }

  /** The end of Get: the strategy's filter decides. */
  method FilterReplicas(instances: seq<Replica>, op: Operation, cfg: Config, now: int) returns (r: Lookup)
    ensures var healthy := HealthyOnes(instances, op, cfg.heartbeatTimeout, now);
      var minSuccess := MinSuccess(|instances|, cfg.replicationFactor);
      r == if |healthy| < minSuccess then TooManyUnhealthy
        else Found(ReplicationSet(healthy, |healthy| - minSuccess, 0))
  {
    var healthy, maxFailure, ok := Filter(instances, op, cfg.replicationFactor, cfg.heartbeatTimeout, now);
    r := if ok then Found(ReplicationSet(healthy, maxFailure, 0)) else TooManyUnhealthy;
  }

  lemma SortingKeepsZones(m: Ingesters, n: Ingesters, excludedZones: seq<string>)
    requires ListsSorted(m, n) && NoneExcluded(m, excludedZones)
    ensures NoneExcluded(n, excludedZones)
  {
    assert forall k :: k in m ==> SortedEntry(m[k], n[k]);
  }

  lemma PartOfRing(m: Ingesters, shard: Ingesters, owners: map<Token, Info>, excludedZones: seq<string>)
    requires ConflictFree(m) && Sorted(m) && CoversOwners(m, owners) && NoneExcluded(m, excludedZones)
    requires forall k :: k in shard ==> k in m && shard[k] == m[k]
    ensures Sorted(shard) && CoversOwners(shard, owners) && NoneExcluded(shard, excludedZones)
  {
    forall t | t in Tokens(shard) ensures t in owners && IsOwner(shard, t, owners[t]) {
      var k :| k in shard && t in shard[k].tokens;
      assert t in Tokens(m);
      assert IsOwner(m, t, owners[t]);
    }
  }

  /** The indexes of a subring; its token lists are sorted already. */
  method IndexPart(desc: RingDesc.Desc)
    returns (tokens: seq<Token>, byZone: map<string, seq<Token>>, zones: seq<string>)
    requires Sorted(desc.ingesters)
    modifies desc
    ensures desc.ingesters == old(desc.ingesters)
    ensures IsTokenList(desc.ingesters, tokens) && IsZoneIndex(desc.ingesters, byZone)
    ensures IsZoneList(desc.ingesters, zones)
  {
    ghost var m := desc.ingesters;
    byZone := GetTokensByZone(desc);
    SortedTwice(m, m, desc.ingesters);
    tokens := GetTokens(desc);
    SortedTwice(m, m, desc.ingesters);
    zones := GetZones(byZone);
  }

  lemma FastPath(
    m: Ingesters, n: Ingesters, tokens: seq<Token>, byZone: map<string, seq<Token>>, owners: map<Token, Info>,
    zones: seq<string>)
    requires SameTopology(m, n) && IsIndex(m, tokens, byZone, owners, zones)
    ensures IsIndex(n, tokens, byZone, owners, zones) && (IsOwnerIndex(m, owners) ==> IsOwnerIndex(n, owners))
    ensures ListsSorted(n, n)
  {
    SameTopologySameIndexes(m, n, tokens, byZone, owners, zones);
  }

  class Ring {
    const cfg: Config
    var ringDesc: RingDesc.Desc
    var ringTokens: seq<Token>
    var ringTokensByZone: map<string, seq<Token>>
    var ringInstanceByToken: map<Token, Info>
    var ringZones: seq<string>
    var lastTopologyChange: int
    /** None on subrings, which are not sharded again from a cache. */
    var shuffledSubringCache: Option<map<CacheKey, Ring>>

    constructor (cfg: Config)
      ensures this.cfg == cfg && Indexed() && OwnsIndex()
      ensures fresh(ringDesc) && ringDesc.ingesters == map[] && Cached() == map[]
    {
      this.cfg := cfg;
      ringDesc := new RingDesc.Desc(map[]);
      ringTokens, ringTokensByZone, ringInstanceByToken, ringZones := [], map[], map[], [];
      lastTopologyChange := 0;
      shuffledSubringCache := Some(map[]);
    }

    ghost predicate Indexed()
      reads this, ringDesc
    {
      && IsIndex(ringDesc.ingesters, ringTokens, ringTokensByZone, ringInstanceByToken, ringZones)
      && NoneExcluded(ringDesc.ingesters, cfg.excludedZones)
    }

    /** Holds for a ring that is not a subring: the owners of exactly its own tokens are listed. */
    ghost predicate OwnsIndex()
      reads this, ringDesc
    {
      IsOwnerIndex(ringDesc.ingesters, ringInstanceByToken)
    }

    /** updateRingState. A change of topology empties the cache; otherwise what is cached stays good. */
    method UpdateRingState(desc: RingDesc.Desc, now: int, ghost random: Random) returns (topologyChanged: bool)
      requires Indexed() && OwnsIndex() && desc !in CachedDescs()
      modifies this, desc
      ensures Indexed() && OwnsIndex() && ringDesc == desc
      ensures ListsSorted(Included(old(desc.ingesters), cfg.excludedZones), desc.ingesters)
      ensures topologyChanged <==>
        !SameTopology(old(ringDesc.ingesters), Included(old(desc.ingesters), cfg.excludedZones))
      ensures lastTopologyChange == if topologyChanged then now else old(lastTopologyChange)
      ensures Cached() == if topologyChanged then map[] else old(Cached())
      ensures old(CacheFits(random)) && ConflictFree(desc.ingesters) ==> CacheFits(random)
    {
      FilterZones(desc, random);
      topologyChanged := Adopt(desc, now, random);
    }

    /** Filters out the entries of excluded zones. The ring itself holds none, should it be the same object. */
    method FilterZones(desc: RingDesc.Desc, ghost random: Random)
      requires Indexed() && OwnsIndex() && desc !in CachedDescs()
      modifies desc
      ensures desc.ingesters == Included(old(desc.ingesters), cfg.excludedZones)
      ensures ringDesc.ingesters == old(ringDesc.ingesters) && Indexed() && OwnsIndex()
      ensures old(CacheFits(random)) ==> CacheFits(random)
    {
      if |cfg.excludedZones| > 0 {
        ghost var m := ringDesc.ingesters;
        ExcludeZones(desc);
        assert ringDesc.ingesters == m;
        assert Indexed() && OwnsIndex();
        if old(CacheFits(random)) {
          forall key | key in Cached() ensures EntryFits(Cached()[key], random, key) {
            assert old(EntryFits(Cached()[key], random, key));
          }
        }
      } else {
        assert desc.ingesters == Included(old(desc.ingesters), cfg.excludedZones);
      }
    }

    /** The rest of updateRingState, once excluded zones are gone. */
    method Adopt(desc: RingDesc.Desc, now: int, ghost random: Random) returns (topologyChanged: bool)
      requires Indexed() && OwnsIndex() && desc !in CachedDescs() && NoneExcluded(desc.ingesters, cfg.excludedZones)
      modifies this, desc
      ensures Indexed() && OwnsIndex() && ringDesc == desc
      ensures ListsSorted(old(desc.ingesters), desc.ingesters)
      ensures topologyChanged <==> !SameTopology(old(ringDesc.ingesters), old(desc.ingesters))
      ensures lastTopologyChange == if topologyChanged then now else old(lastTopologyChange)
      ensures Cached() == if topologyChanged then map[] else old(Cached())
      ensures old(CacheFits(random)) && ConflictFree(desc.ingesters) ==> CacheFits(random)
    {
      var rc := RingCompare(ringDesc, desc);
      if rc == Equal || rc == EqualButStatesAndTimestamps {
        KeepIndexes(desc, random);
        topologyChanged := false;
      } else {
        ReplaceIndexes(desc, now);
        topologyChanged := true;
      }
    }

    /** The fast path: the tokens have not changed. */
    method KeepIndexes(desc: RingDesc.Desc, ghost random: Random)
      requires Indexed() && OwnsIndex() && SameTopology(ringDesc.ingesters, desc.ingesters)
      requires NoneExcluded(desc.ingesters, cfg.excludedZones) && desc !in CachedDescs()
      modifies this`ringDesc
      ensures Indexed() && OwnsIndex() && ringDesc == desc
      ensures old(CacheFits(random)) && ConflictFree(desc.ingesters) ==> CacheFits(random)
    {
      ghost var m := ringDesc.ingesters;
      ghost var fits := CacheFits(random) && ConflictFree(desc.ingesters);
      FastPath(m, desc.ingesters, ringTokens, ringTokensByZone, ringInstanceByToken, ringZones);
      ringDesc := desc;
      if fits {
        forall key | key in Cached() ensures EntryFits(Cached()[key], random, key) {
          Cached()[key].StaysSubring(m, desc.ingesters, cfg, lastTopologyChange, random, key);
        }
      }
    }

    method ReplaceIndexes(desc: RingDesc.Desc, now: int)
      requires NoneExcluded(desc.ingesters, cfg.excludedZones)
      modifies this, desc
      ensures Indexed() && OwnsIndex() && ringDesc == desc && lastTopologyChange == now && Cached() == map[]
      ensures ListsSorted(old(desc.ingesters), desc.ingesters)
    {
      ghost var m := desc.ingesters;
      var tokens, byZone, owners, zones := Reindex(desc);
      SortingKeepsZones(m, desc.ingesters, cfg.excludedZones);
      ringDesc := desc;
      ringTokens := tokens;
      ringTokensByZone := byZone;
      ringInstanceByToken := owners;
      ringZones := zones;
      lastTopologyChange := now;
      if shuffledSubringCache.Some? {
        shuffledSubringCache := Some(map[]);
      }
    }

    method ExcludeZones(desc: RingDesc.Desc)
      modifies desc
      ensures desc.ingesters == Included(old(desc.ingesters), cfg.excludedZones)
    {
      ghost var m := desc.ingesters;
      var todo := desc.ingesters.Keys;
      while todo != {}
        invariant todo <= m.Keys
        invariant forall k :: k in desc.ingesters <==> k in m && (k in todo || m[k].zone !in cfg.excludedZones)
        invariant forall k :: k in desc.ingesters ==> desc.ingesters[k] == m[k]
        decreases todo
      {
        var instanceID :| instanceID in todo;
        todo := todo - {instanceID};
        if desc.ingesters[instanceID].zone in cfg.excludedZones {
          desc.ingesters := desc.ingesters - {instanceID};
        }
      }
    }

    // -------------------------------------------------------------- replica sets

    /** The owners of all tokens, clockwise from a key. */
    ghost function Owners(key: Token): (infos: seq<Info>)
      requires Indexed() && ringTokens != []
      reads this, ringDesc
      ensures Coherent(infos, ringDesc.ingesters)
    {
      StartExists(ringTokens, key);
      var start: nat :| start < |ringTokens| && IsStart(ringTokens, key, start);
      ClockwiseIsCoherent(ringDesc.ingesters, ringTokens, ringInstanceByToken, start);
      Clockwise(ringTokens, ringInstanceByToken, start)
    }

    /** Get: the walk from the key on, and the filter. */
    method Get(key: Token, op: Operation, now: int) returns (r: Lookup)
      requires Indexed()
      ensures ringTokens == [] ==> r == EmptyRing
      ensures ringTokens != [] ==>
        r == Select(Owners(key), ringDesc.ingesters, op, cfg.replicationFactor, cfg.zoneAwarenessEnabled,
                    cfg.heartbeatTimeout, now)
    {
      if |ringTokens| == 0 {
        return EmptyRing;
      }
      var start := SearchToken(ringTokens, key);
      OwnersFrom(key, start);
      var instances := WalkRing(ringDesc.ingesters, ringTokens, ringInstanceByToken, start, op, cfg.replicationFactor,
                                cfg.zoneAwarenessEnabled);
      if instances.None? {
        return InconsistentTokensInfo;
      }
      r := FilterReplicas(instances.value, op, cfg, now);
    }

    lemma OwnersFrom(key: Token, start: nat)
      requires Indexed() && start < |ringTokens| && IsStart(ringTokens, key, start)
      ensures AllOwned(ringTokens, ringInstanceByToken)
      ensures Owners(key) == Clockwise(ringTokens, ringInstanceByToken, start)
    {
      StartExists(ringTokens, key);
      ClockwiseIsCoherent(ringDesc.ingesters, ringTokens, ringInstanceByToken, start);
      var s: nat :| s < |ringTokens| && IsStart(ringTokens, key, s)
        && Owners(key) == Clockwise(ringTokens, ringInstanceByToken, s);
      StartIsUnique(ringTokens, key, s, start);
    }

    /** countTokens. No sum wraps around, and all counts together are the number of keys less one. */
    method CountTokens() returns (numTokens: map<string, int>, owned: map<string, int>)
      requires Indexed() && OwnsIndex()
      ensures numTokens.Keys == owned.Keys == ringDesc.ingesters.Keys
      ensures forall id :: id in owned ==>
        && numTokens[id] == TokenCounts.TokensOf(ringTokens, ringInstanceByToken, id, |ringTokens|) % TOKEN_SPACE
        && owned[id] == TokenCounts.Counted(ringTokens, ringInstanceByToken, id, |ringTokens|)
      ensures ringTokens != [] ==>
        SumOver(owned.Keys, TokenCounts.CountedUpTo(ringTokens, ringInstanceByToken, |ringTokens|))
          == TOKEN_SPACE - 1
    {
      numTokens, owned := TokenCounts.CountTokens(ringDesc.ingesters, ringTokens, ringInstanceByToken);
      OwnersAreKnown();
      if ringTokens != [] {
        TokenCounts.CountsAddUp(ringTokens, ringInstanceByToken, owned.Keys, |ringTokens|);
      }
    }

    lemma OwnersAreKnown()
      requires Indexed() && OwnsIndex()
      ensures TokenCounts.Met(ringTokens, ringInstanceByToken, |ringTokens|) <= ringDesc.ingesters.Keys
    {
      ElementsOfTokenList(ringDesc.ingesters, ringTokens);
      forall i | 0 <= i < |ringTokens|
        ensures TokenCounts.Owner(ringTokens, ringInstanceByToken, i) in ringDesc.ingesters
      {
        assert ringTokens[i] in Elements(ringTokens);
        assert IsOwner(ringDesc.ingesters, ringTokens[i], ringInstanceByToken[ringTokens[i]]);
      }
    }

    /** GetReplicationSetForOperation: the instances to read from when the whole ring is asked. */
    method GetReplicationSetForOperation(op: Operation, now: int) returns (r: Lookup)
      requires Indexed()
      ensures ringTokens == [] ==> r == EmptyRing
      ensures ringTokens != [] ==>
        IsWholeRing(ringDesc.ingesters, op, cfg.replicationFactor, cfg.zoneAwarenessEnabled,
          cfg.heartbeatTimeout, now, r)
    {
      if |ringTokens| == 0 {
        return EmptyRing;
      }
      ZoneListCounts(ringDesc.ingesters, ringZones);
      r := ReadSet(ringDesc.ingesters, |ringZones|, op, cfg.replicationFactor, cfg.zoneAwarenessEnabled,
                   cfg.heartbeatTimeout, now);
    }

    /** Whatever key was written, a successful read of this whole ring includes an instance that took the write. */
    lemma ReadsSeeWrites(
      key: Token, op: Operation, writeTime: int, readTime: int, w: Lookup, written: set<string>, l: Lookup,
      answered: set<string>)
      requires Indexed() && ringTokens != []
      requires cfg.zoneAwarenessEnabled ==> "" !in Zones(ringDesc.ingesters)
      requires w == Select(Owners(key), ringDesc.ingesters, WRITE, cfg.replicationFactor, cfg.zoneAwarenessEnabled,
                           cfg.heartbeatTimeout, writeTime)
      requires w.Found? && IsSuccessSet(w.rs, written)
      requires IsWholeRing(ringDesc.ingesters, op, cfg.replicationFactor, cfg.zoneAwarenessEnabled,
                           cfg.heartbeatTimeout, readTime, l)
      requires l.Found? && DoSucceeded(l.rs, answered)
      ensures written * answered != {}
    {
      if cfg.zoneAwarenessEnabled {
        WholeRingReadSeesZonedWrites(Owners(key), ringDesc.ingesters, cfg.replicationFactor, op, cfg.heartbeatTimeout,
                                     writeTime, readTime, written, l, answered);
      } else {
        WholeRingReadSeesWrites(Owners(key), ringDesc.ingesters, cfg.replicationFactor, op, cfg.heartbeatTimeout,
                                writeTime, readTime, written, l, answered);
      }
    }

    // -------------------------------------------------------------- subrings

    /** A read-only ring over some of the entries of another one, whose owners it shares. */
    constructor Subring(
      cfg: Config, desc: RingDesc.Desc, tokens: seq<Token>, byZone: map<string, seq<Token>>, owners: map<Token, Info>,
      zones: seq<string>, lastTopologyChange: int)
      ensures this.cfg == cfg && ringDesc == desc && ringTokens == tokens && ringTokensByZone == byZone
      ensures ringInstanceByToken == owners && ringZones == zones && this.lastTopologyChange == lastTopologyChange
      ensures shuffledSubringCache == None
    {
      this.cfg, ringDesc, ringTokens, ringTokensByZone := cfg, desc, tokens, byZone;
      ringInstanceByToken, ringZones, this.lastTopologyChange := owners, zones, lastTopologyChange;
      shuffledSubringCache := None;
    }

    /** shuffleShard. */
    method SelectSubring(random: Random, identifier: string, size: int, lookback: int, now: int) returns (sub: Ring)
      requires Indexed() && ConflictFree(ringDesc.ingesters) && size > 0
      ensures fresh(sub) && fresh(sub.ringDesc) && sub.Indexed() && sub.cfg == cfg
      ensures sub.lastTopologyChange == lastTopologyChange
      ensures sub.ringDesc.ingesters == RingDesc.Restricted(ringDesc.ingesters,
        Shard(ringDesc.ingesters, cfg.zoneAwarenessEnabled, StreamsFor(random, identifier), size,
              Recent(ringDesc.ingesters, lookback, now - lookback)))
    {
      ghost var m := ringDesc.ingesters;
      var shard := SelectShard(ringDesc.ingesters, ringTokens, ringTokensByZone, ringInstanceByToken, ringZones,
                               cfg.zoneAwarenessEnabled, StreamsFor(random, identifier),
                               size, lookback, now - lookback);
      PartOfRing(m, shard, ringInstanceByToken, cfg.excludedZones);
      var shardDesc := new RingDesc.Desc(shard);
      var tokens, byZone, zones := IndexPart(shardDesc);
      sub := new Ring.Subring(cfg, shardDesc, tokens, byZone, ringInstanceByToken, zones, lastTopologyChange);
    }

    // -------------------------------------------------------------- the subring cache

    ghost function Cached(): map<CacheKey, Ring>
      reads this
    {
      if shuffledSubringCache.Some? then shuffledSubringCache.value else map[]
    }

    ghost function CachedRings(): set<Ring>
      reads this
    {
      set key | key in Cached() :: Cached()[key]
    }

    ghost function CachedDescs(): set<RingDesc.Desc>
      reads this, CachedRings()
    {
      set key | key in Cached() :: Cached()[key].ringDesc
    }

    ghost predicate CacheFits(random: Random)
      reads this, ringDesc, CachedRings(), CachedDescs()
    {
      && ConflictFree(ringDesc.ingesters)
      && (forall key :: key in Cached() ==> EntryFits(Cached()[key], random, key))
      && forall j, k :: j in Cached() && k in Cached() && j != k ==> Cached()[j].ringDesc != Cached()[k].ringDesc
    }

    ghost predicate EntryFits(c: Ring, random: Random, key: CacheKey)
      requires ConflictFree(ringDesc.ingesters)
      reads `ringDesc, `lastTopologyChange, ringDesc, c, c.ringDesc
    {
      c != this && c.ringDesc != ringDesc && c.IsSubringOf(ringDesc.ingesters, cfg, lastTopologyChange, random, key)
    }

    /** Indexed, and what shuffleShard would build, except perhaps for states and heartbeats. */
    ghost predicate IsSubringOf(ring: Ingesters, cfg: Config, lastTopologyChange: int, random: Random, key: CacheKey)
      requires ConflictFree(ring)
      reads this, ringDesc
    {
      && Indexed() && this.cfg == cfg && this.lastTopologyChange == lastTopologyChange
      && SameTopology(ringDesc.ingesters, FreshShard(ring, cfg.zoneAwarenessEnabled, random, key))
    }

    lemma StaysSubring(
      m: Ingesters, n: Ingesters, cfg: Config, lastTopologyChange: int, random: Random, key: CacheKey)
      requires SameTopology(m, n) && ConflictFree(m) && ConflictFree(n)
      requires IsSubringOf(m, cfg, lastTopologyChange, random, key)
      ensures IsSubringOf(n, cfg, lastTopologyChange, random, key)
    {
      SameTopologySameFreshShard(m, n, cfg.zoneAwarenessEnabled, random, key);
    }

    /** Refreshing a cached subring. */
    method RefreshSubring(ring: Ingesters, ghost random: Random, ghost key: CacheKey)
      requires ConflictFree(ring) && IsSubringOf(ring, cfg, lastTopologyChange, random, key)
      modifies ringDesc
      ensures IsSubringOf(ring, cfg, lastTopologyChange, random, key)
      ensures ringDesc.ingesters == FreshShard(ring, cfg.zoneAwarenessEnabled, random, key)
    {
      ghost var m := ringDesc.ingesters;
      RefreshedIsFresh(ring, cfg.zoneAwarenessEnabled, random, key, m);
      ringDesc.Refresh(ring);
      FastPath(m, ringDesc.ingesters, ringTokens, ringTokensByZone, ringInstanceByToken, ringZones);
    }

    /** getCachedShuffledSubring: a hit is refreshed with the current states and heartbeats. */
    method GetCachedShuffledSubring(ghost random: Random, identifier: string, size: int) returns (cached: Ring?)
      requires CacheFits(random)
      modifies CachedDescs()
      ensures cached == null <==> cfg.subringCacheDisabled || CacheKey(identifier, size) !in Cached()
      ensures cached != null ==> cached == Cached()[CacheKey(identifier, size)]
      ensures cached != null ==>
        cached.ringDesc.ingesters
          == FreshShard(ringDesc.ingesters, cfg.zoneAwarenessEnabled, random, CacheKey(identifier, size))
      ensures CacheFits(random)
    {
      if cfg.subringCacheDisabled {
        return null;
      }
      var key := CacheKey(identifier, size);
      if shuffledSubringCache.None? || key !in shuffledSubringCache.value {
        return null;
      }
      cached := shuffledSubringCache.value[key];
      assert EntryFits(cached, random, key);
      cached.RefreshSubring(ringDesc.ingesters, random, key);
      assert EntryFits(cached, random, key);
      forall k | k in Cached() && k != key ensures EntryFits(Cached()[k], random, k) {
        assert Cached()[k].ringDesc != cached.ringDesc;
      }
    }

    /** setCachedShuffledSubring: a subring of an older topology is not stored. */
    method SetCachedShuffledSubring(identifier: string, size: int, subring: Ring?)
      modifies this`shuffledSubringCache
      ensures Cached() ==
        if subring != null && !cfg.subringCacheDisabled && shuffledSubringCache.Some?
          && lastTopologyChange == subring.lastTopologyChange
        then old(Cached())[CacheKey(identifier, size) := subring]
        else old(Cached())
    {
      if subring == null || cfg.subringCacheDisabled {
        return;
      }
      if shuffledSubringCache.Some? && lastTopologyChange == subring.lastTopologyChange {
        shuffledSubringCache := Some(shuffledSubringCache.value[CacheKey(identifier, size) := subring]);
      }
    }

    method CleanupShuffleShardCache(identifier: string)
      modifies this`shuffledSubringCache
      ensures Cached() == if cfg.subringCacheDisabled then old(Cached())
                          else map key | key in old(Cached()) && key.identifier != identifier :: old(Cached())[key]
    {
      if cfg.subringCacheDisabled || shuffledSubringCache.None? {
        return;
      }
      ghost var before := shuffledSubringCache.value;
      var todo := shuffledSubringCache.value.Keys;
      while todo != {}
        invariant shuffledSubringCache.Some? && todo <= before.Keys
        invariant Cached() == map key | key in before && (key in todo || key.identifier != identifier) :: before[key]
        decreases todo
      {
        var key :| key in todo;
        todo := todo - {key};
        if key.identifier == identifier {
          shuffledSubringCache := Some(shuffledSubringCache.value - {key});
        }
      }
    }

    /**
     * ShuffleShard, as one uninterrupted call: through the cache or not, the result has the entries of a fresh shard.
     */
    method ShuffleShard(random: Random, identifier: string, size: int, now: int) returns (r: Ring)
      requires Indexed() && CacheFits(random)
      modifies this`shuffledSubringCache, CachedDescs()
      ensures CacheFits(random)
      ensures size <= 0 || |ringDesc.ingesters| <= size ==> r == this
      ensures 0 < size < |ringDesc.ingesters| ==>
        && r.IsSubringOf(ringDesc.ingesters, cfg, lastTopologyChange, random, CacheKey(identifier, size))
        && r.ringDesc.ingesters
             == FreshShard(ringDesc.ingesters, cfg.zoneAwarenessEnabled, random, CacheKey(identifier, size))
      ensures r.ringDesc.ingesters.Keys
        == PublicShard(ringDesc.ingesters, cfg.zoneAwarenessEnabled, StreamsFor(random, identifier), size, {})
    {
      if size <= 0 || |ringDesc.ingesters| <= size {
        return this;
      }
      ShardMembers(ringDesc.ingesters, cfg.zoneAwarenessEnabled, StreamsFor(random, identifier), size, {});
      ghost var key := CacheKey(identifier, size);
      var cached := GetCachedShuffledSubring(random, identifier, size);
      if cached != null {
        assert EntryFits(cached, random, key);
        return cached;
      }
      r := SelectAndCache(random, identifier, size, now);
    }

    method SelectAndCache(random: Random, identifier: string, size: int, now: int) returns (r: Ring)
      requires Indexed() && CacheFits(random) && size > 0
      modifies this`shuffledSubringCache
      ensures CacheFits(random)
      ensures r.IsSubringOf(ringDesc.ingesters, cfg, lastTopologyChange, random, CacheKey(identifier, size))
      ensures r.ringDesc.ingesters
        == FreshShard(ringDesc.ingesters, cfg.zoneAwarenessEnabled, random, CacheKey(identifier, size))
    {
      ghost var before := Cached();
      r := SelectSubring(random, identifier, size, 0, now);
      assert Recent(ringDesc.ingesters, 0, now) == {};
      assert EntryFits(r, random, CacheKey(identifier, size));
      forall key | key in before ensures EntryFits(before[key], random, key) && before[key].ringDesc != r.ringDesc {
      }
      SetCachedShuffledSubring(identifier, size, r);
    }

    /** ShuffleShardWithLookback never caches. */
    method ShuffleShardWithLookback(random: Random, identifier: string, size: int, lookback: int, now: int)
      returns (r: Ring)
      requires Indexed() && ConflictFree(ringDesc.ingesters)
      ensures size <= 0 || |ringDesc.ingesters| <= size ==> r == this
      ensures 0 < size < |ringDesc.ingesters| ==>
        && fresh(r) && fresh(r.ringDesc) && r.Indexed()
        && r.ringDesc.ingesters == RingDesc.Restricted(ringDesc.ingesters,
             Shard(ringDesc.ingesters, cfg.zoneAwarenessEnabled, StreamsFor(random, identifier), size,
                   Recent(ringDesc.ingesters, lookback, now - lookback)))
      ensures r.ringDesc.ingesters.Keys
        == PublicShard(ringDesc.ingesters, cfg.zoneAwarenessEnabled, StreamsFor(random, identifier), size,
                       Recent(ringDesc.ingesters, lookback, now - lookback))
    {
      if size <= 0 || |ringDesc.ingesters| <= size {
        return this;
      }
      ShardMembers(ringDesc.ingesters, cfg.zoneAwarenessEnabled, StreamsFor(random, identifier), size,
                   Recent(ringDesc.ingesters, lookback, now - lookback));
      r := SelectSubring(random, identifier, size, lookback, now);
    }
  }
}
