/**
 * The loops of shuffleShard in ring/ring.go: over the zones, over the draws of a zone, and around the ring from a drawn
 * token, each proved to make the selection that ShuffleShard specifies.
 */
module ShardSelection {
  import opened RingTypes
  import opened TokenLists
  import opened Conflicts
  import opened Replication
  import opened RingIndexes
  import opened ShuffleShard
  import opened TokenWalk
  import WholeRing
  import RingDesc

  /** The zone ring whose tokens are walked: part of the ring, with the owners of its tokens. */
  ghost predicate ZoneRing(m: Ingesters, zm: Ingesters, tokens: seq<Token>, owners: map<Token, Info>) {
    && ConflictFree(zm) && IsTokenList(zm, tokens)
    && (forall k :: k in zm ==> k in m && m[k] == zm[k])
    && forall t :: t in tokens ==> t in owners && Owns(zm, owners[t].instanceID, t)
  }

  /** shard holds entries of the ring, among them exactly those of the zone that are in s. */
  ghost predicate Holds(m: Ingesters, zm: Ingesters, others: set<string>, shard: Ingesters, s: set<string>) {
    && s <= zm.Keys && others !! zm.Keys && shard.Keys == others + s
    && forall k :: k in shard ==> k in m && shard[k] == m[k]
  }

  predicate IsRecent(e: InstanceDesc, lookback: int, lookbackUntil: int) {
    lookback > 0 && e.registeredTimestamp >= lookbackUntil
  }

  ghost predicate AreRecent(zm: Ingesters, recent: set<string>, lookback: int, lookbackUntil: int) {
    forall k :: k in zm ==> (k in recent <==> IsRecent(zm[k], lookback, lookbackUntil))
  }

  /** Where the walk for one draw stands: nothing passed so far is open, and what is left leads to the same result. */
  ghost predicate Walked(
    zm: Ingesters, recent: set<string>, tokens: seq<Token>, start: nat, key: Token, s: set<string>, iterations: nat,
    current: set<string>)
    requires ConflictFree(zm)
  {
    && start < |tokens| && iterations <= |tokens|
    && Draw(zm, recent, s, key) == Draw(zm, recent, current, key)
    && NoneOpen(zm, tokens, start, iterations, current)
  }

  ghost predicate NoneOpen(zm: Ingesters, tokens: seq<Token>, start: nat, iterations: nat, current: set<string>)
    requires start < |tokens| && iterations <= |tokens|
  {
    forall i :: 0 <= i < iterations ==> tokens[At(start, i, |tokens|)] !in Open(zm, current)
  }

  lemma PassSelected(
    m: Ingesters, zm: Ingesters, recent: set<string>, tokens: seq<Token>, owners: map<Token, Info>, start: nat,
    key: Token,
    s: set<string>, iterations: nat, current: set<string>)
    requires ZoneRing(m, zm, tokens, owners)
    requires Walked(zm, recent, tokens, start, key, s, iterations, current) && iterations < |tokens|
    requires owners[tokens[At(start, iterations, |tokens|)]].instanceID in current
    ensures Walked(zm, recent, tokens, start, key, s, iterations + 1, current)
  {
    var t := tokens[At(start, iterations, |tokens|)];
    OpenOwner(zm, current, owners[t].instanceID, t);
    OneMorePassed(zm, tokens, start, iterations, current);
  }

  lemma OneMorePassed(zm: Ingesters, tokens: seq<Token>, start: nat, iterations: nat, current: set<string>)
    requires start < |tokens| && iterations < |tokens| && NoneOpen(zm, tokens, start, iterations, current)
    requires tokens[At(start, iterations, |tokens|)] !in Open(zm, current)
    ensures NoneOpen(zm, tokens, start, iterations + 1, current)
  {
  }

  lemma HoldOneMore(m: Ingesters, zm: Ingesters, others: set<string>, shard: Ingesters, s: set<string>, k: string)
    requires Holds(m, zm, others, shard, s) && k in zm && k in m && k !in shard
    ensures Holds(m, zm, others, shard[k := m[k]], s + {k}) && k !in s
  {
    assert shard[k := m[k]].Keys == others + (s + {k});
  }

  lemma SelectNext(
    m: Ingesters, zm: Ingesters, recent: set<string>, tokens: seq<Token>, owners: map<Token, Info>, start: nat,
    key: Token,
    s: set<string>, iterations: nat, current: set<string>)
    requires ZoneRing(m, zm, tokens, owners) && IsStart(tokens, key, start)
    requires Walked(zm, recent, tokens, start, key, s, iterations, current) && iterations < |tokens|
    requires owners[tokens[At(start, iterations, |tokens|)]].instanceID !in current
    ensures var k := owners[tokens[At(start, iterations, |tokens|)]].instanceID;
      if k in recent then Walked(zm, recent, tokens, start, key, s, iterations + 1, current + {k})
      else Draw(zm, recent, s, key) == (current + {k}, true)
  {
    var t := tokens[At(start, iterations, |tokens|)];
    var k := owners[t].instanceID;
    ElementsOfTokenList(zm, tokens);
    FirstOpenIsNearest(zm, tokens, key, start, iterations, current, k);
    DrawPicks(zm, recent, current, key, t, k);
    if k in recent {
      StillNoneOpen(zm, tokens, start, iterations, current, k);
      OpenOwner(zm, current + {k}, k, t);
      OneMorePassed(zm, tokens, start, iterations, current + {k});
    }
  }

  lemma DrawPicks(zm: Ingesters, recent: set<string>, current: set<string>, key: Token, t: Token, k: string)
    requires ConflictFree(zm) && Open(zm, current) != {} && Nearest(Open(zm, current), key) == t
    requires t in Tokens(zm) && OwnerOf(zm, t) == k
    ensures Draw(zm, recent, current, key)
      == if k in recent then Draw(zm, recent, current + {k}, key) else (current + {k}, true)
  {
  }

  lemma StillNoneOpen(
    zm: Ingesters, tokens: seq<Token>, start: nat, iterations: nat, current: set<string>, k: string)
    requires start < |tokens| && iterations <= |tokens| && NoneOpen(zm, tokens, start, iterations, current)
    ensures NoneOpen(zm, tokens, start, iterations, current + {k})
  {
    OpenWithMore(zm, current, k);
  }

  /** One draw: the walk from the drawn number adds recent instances until it has added one that is not recent. */
  method SelectOne(
    m: Ingesters, ghost zm: Ingesters, ghost recent: set<string>, tokens: seq<Token>, owners: map<Token, Info>,
    lookback: int, lookbackUntil: int, key: Token, ghost others: set<string>, ghost s: set<string>, shard0: Ingesters)
    returns (shard: Ingesters, found: bool)
    requires ZoneRing(m, zm, tokens, owners) && Holds(m, zm, others, shard0, s)
    requires AreRecent(zm, recent, lookback, lookbackUntil)
    ensures var (s', found') := Draw(zm, recent, s, key);
      found == found' && Holds(m, zm, others, shard, s')
  {
    ghost var current := s;
    shard, found := shard0, false;
    var start := SearchToken(tokens, key);
    var p, iterations := start, 0;
    while iterations < |tokens|
      invariant iterations <= |tokens| && 0 <= p <= |tokens|
      invariant iterations < |tokens| ==> Wrapped(p, |tokens|) == At(start, iterations, |tokens|)
      invariant Holds(m, zm, others, shard, current)
      invariant tokens != [] ==> Walked(zm, recent, tokens, start, key, s, iterations, current)
      invariant tokens == [] ==> current == s
    {
      p := Wrapped(p, |tokens|);
      var info := owners[tokens[p]];
      ghost var passed := iterations;
      iterations := iterations + 1;
      p := p + 1;
      if info.instanceID in shard {
        PassSelected(m, zm, recent, tokens, owners, start, key, s, passed, current);
        continue;
      }
      HoldOneMore(m, zm, others, shard, current, info.instanceID);
      SelectNext(m, zm, recent, tokens, owners, start, key, s, passed, current);
      var instance := m[info.instanceID];
      shard := shard[info.instanceID := instance];
      current := current + {info.instanceID};
      if IsRecent(instance, lookback, lookbackUntil) {
        continue;
      }
      found := true;
      return;
    }
    ElementsOfTokenList(zm, tokens);
    WalkExhausted(zm, tokens, start, current);
    SameDrawSoFar(zm, recent, s, current, key, tokens, start);
  }

  lemma SameDrawSoFar(
    zm: Ingesters, recent: set<string>, s: set<string>, current: set<string>, key: Token, tokens: seq<Token>,
    start: nat)
    requires ConflictFree(zm) && Open(zm, current) == {}
    requires tokens != [] ==> Walked(zm, recent, tokens, start, key, s, |tokens|, current)
    requires tokens == [] ==> current == s
    ensures Draw(zm, recent, s, key) == (current, false)
  {
  }

  /** The draws for one zone. */
  method SelectFromZone(
    m: Ingesters, ghost zm: Ingesters, ghost recent: set<string>, tokens: seq<Token>, owners: map<Token, Info>,
    lookback: int, lookbackUntil: int, random: Stream, count: int, shard0: Ingesters)
    returns (shard: Ingesters)
    requires ZoneRing(m, zm, tokens, owners) && count >= 0 && Holds(m, zm, shard0.Keys, shard0, {})
    requires AreRecent(zm, recent, lookback, lookbackUntil)
    ensures Holds(m, zm, shard0.Keys, shard, Selected(zm, recent, random, count))
  {
    ghost var others := shard0.Keys;
    shard := shard0;
    var i := 0;
    while i < count
      invariant 0 <= i <= count && Holds(m, zm, others, shard, Selected(zm, recent, random, i))
    {
      ghost var s := Selected(zm, recent, random, i);
      var found;
      shard, found := SelectOne(m, zm, recent, tokens, owners, lookback, lookbackUntil, random(i), others, s, shard);
      i := i + 1;
      assert Selected(zm, recent, random, i) == Draw(zm, recent, s, random(i - 1)).0;
      if !found {
        DrawAdds(zm, recent, s, random(i - 1));
        NothingMoreToSelect(zm, recent, random, i, count);
        break;
      }
    }
  }

  // ---------------------------------------------------------------- all zones

  /** What is known of the ring that is sharded. */
  ghost predicate Shardable(
    m: Ingesters, tokens: seq<Token>, byZone: map<string, seq<Token>>, owners: map<Token, Info>, zones: seq<string>)
  {
    ConflictFree(m) && IsTokenList(m, tokens) && IsZoneIndex(m, byZone)
    && CoversOwners(m, owners) && IsZoneList(m, zones)
  }

  /** Every owner listed for a token of a part of the ring belongs to that part. */
  lemma PartIsZoneRing(m: Ingesters, zm: Ingesters, tokens: seq<Token>, owners: map<Token, Info>)
    requires ConflictFree(m) && CoversOwners(m, owners) && IsTokenList(zm, tokens)
    requires forall k :: k in zm ==> k in m && m[k] == zm[k]
    ensures ZoneRing(m, zm, tokens, owners)
  {
    ElementsOfTokenList(zm, tokens);
    forall t | t in tokens ensures t in owners && Owns(zm, owners[t].instanceID, t) {
      assert t in Elements(tokens);
      var k :| k in zm && t in zm[k].tokens;
      assert t in Tokens(m);
      assert IsOwner(m, t, owners[t]);
    }
  }

  ghost predicate InShardOf(m: Ingesters, streams: Streams, size: nat, recent: set<string>, zones: seq<string>,
      k: string)
    requires ConflictFree(m) && k in m
  {
    SomeZone(m, k);
    m[k].zone in zones && InZoneShard(m, streams, size, recent, m[k].zone, k)
  }

  ghost predicate ShardSoFar(
    m: Ingesters, streams: Streams, size: nat, recent: set<string>, zones: seq<string>, shard: Ingesters)
    requires ConflictFree(m)
  {
    && (forall k :: k in shard ==> k in m && shard[k] == m[k])
    && (forall k :: k in m ==> (k in shard <==> InShardOf(m, streams, size, recent, zones, k)))
  }

  /** The loop over the zones. */
  method SelectShard(
    m: Ingesters, tokens: seq<Token>, byZone: map<string, seq<Token>>, owners: map<Token, Info>, zones: seq<string>,
    zoneAware: bool, streams: Streams, size: int, lookback: int, lookbackUntil: int)
    returns (shard: Ingesters)
    requires size > 0 && Shardable(m, tokens, byZone, owners, zones)
    ensures shard == RingDesc.Restricted(m, Shard(m, zoneAware, streams, size, Recent(m, lookback, lookbackUntil)))
  {
    ghost var recent := Recent(m, lookback, lookbackUntil);
    if !zoneAware {
      PartIsZoneRing(m, m, tokens, owners);
      shard := SelectFromZone(m, m, recent, tokens, owners, lookback, lookbackUntil,
                               StreamOf(streams, ""), size, map[]);
      return;
    }
    shard := map[];
    for i := 0 to |zones|
      invariant ShardSoFar(m, streams, size, recent, zones[..i], shard)
    {
      var zone := zones[i];
      ghost var zm := InZone(m, zone);
      assert zone in zones && zone in WholeRing.Zones(m) && zone in byZone;
      PartIsZoneRing(m, zm, byZone[zone], owners);
      ZoneNotYet(m, streams, size, recent, zones, i, shard);
      ZoneListCounts(m, zones);
      var numInstancesPerZone := PerZone(size, |zones|);
      ghost var before := shard;
      shard := SelectFromZone(m, zm, recent, byZone[zone], owners, lookback, lookbackUntil, StreamOf(streams, zone),
                              numInstancesPerZone, shard);
      ZoneDone(m, streams, size, recent, zones, i, before, shard);
    }
    assert zones[..|zones|] == zones;
    AllZonesDone(m, streams, size, recent, zones, shard);
  }

  lemma ZoneNotYet(
    m: Ingesters, streams: Streams, size: nat, recent: set<string>, zones: seq<string>, i: nat, shard: Ingesters)
    requires ConflictFree(m) && IsZoneList(m, zones) && i < |zones|
    requires ShardSoFar(m, streams, size, recent, zones[..i], shard)
    ensures Holds(m, InZone(m, zones[i]), shard.Keys, shard, {})
  {
    forall k | k in shard ensures k !in InZone(m, zones[i]) {
      assert InShardOf(m, streams, size, recent, zones[..i], k);
      var j :| 0 <= j < i && zones[..i][j] == m[k].zone;
      LessIsTotal(zones[j], zones[i]);
    }
  }

  lemma ZoneDone(
    m: Ingesters, streams: Streams, size: nat, recent: set<string>, zones: seq<string>, i: nat, before: Ingesters,
    shard: Ingesters)
    requires ConflictFree(m) && IsZoneList(m, zones) && i < |zones| && |zones| == |WholeRing.Zones(m)|
    requires ShardSoFar(m, streams, size, recent, zones[..i], before)
    requires var zm := InZone(m, zones[i]);
      Holds(m, zm, before.Keys, shard, Selected(zm, recent, StreamOf(streams, zones[i]), PerZone(size, |zones|)))
    ensures ShardSoFar(m, streams, size, recent, zones[..i + 1], shard)
  {
    assert zones[..i + 1] == zones[..i] + [zones[i]];
    forall k | k in m ensures k in shard <==> InShardOf(m, streams, size, recent, zones[..i + 1], k) {
      SomeZone(m, k);
      assert k in before <==> InShardOf(m, streams, size, recent, zones[..i], k);
    }
  }

  lemma AllZonesDone(
    m: Ingesters, streams: Streams, size: nat, recent: set<string>, zones: seq<string>, shard: Ingesters)
    requires ConflictFree(m) && IsZoneList(m, zones) && ShardSoFar(m, streams, size, recent, zones, shard)
    ensures shard == RingDesc.Restricted(m, Shard(m, true, streams, size, recent))
  {
    forall k | k in m ensures k in shard <==> k in Shard(m, true, streams, size, recent) {
      SomeZone(m, k);
      assert InShardOf(m, streams, size, recent, zones, k) <==> InZoneShard(m, streams, size, recent, m[k].zone, k);
    }
  }
}
