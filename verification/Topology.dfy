/** When rings differ only in states and heartbeats, and what then stays the same (ring/model.go). */
module Topology {
  import opened RingTypes
  import opened Conflicts
  import opened Replication
  import opened RingIndexes
  import opened ShuffleShard
  import RingDesc
  import WholeRing

  datatype CompareResult = Equal | EqualButStatesAndTimestamps | Different

  /** The same entry apart from its state and its heartbeat. */
  predicate SameEntry(a: InstanceDesc, b: InstanceDesc) {
    a == b.(state := a.state, timestamp := a.timestamp)
  }

  ghost predicate SameTopology(m: Ingesters, n: Ingesters) {
    m.Keys == n.Keys && forall k :: k in m ==> SameEntry(m[k], n[k])
  }

  ghost function Content(d: RingDesc.Desc?): Ingesters
    reads d
  {
    if d == null then map[] else d.ingesters
  }

  lemma SameSizeSameNames(m: Ingesters, n: Ingesters)
    requires m.Keys <= n.Keys && |m| == |n|
    ensures m.Keys == n.Keys
  {
    assert |n.Keys - m.Keys| == |n.Keys| - |m.Keys|;
  }

  /** A missing ring counts as an empty one. Token lists are compared element by element. */
  method RingCompare(d: RingDesc.Desc?, o: RingDesc.Desc?) returns (r: CompareResult)
    ensures r == Equal <==> Content(d) == Content(o)
    ensures r == Different <==> !SameTopology(Content(d), Content(o))
  {
    if d == null {
      return if o == null || |o.ingesters| == 0 then Equal else Different;
    }
    if o == null {
      return if |d.ingesters| == 0 then Equal else Different;
    }
    var m, n := d.ingesters, o.ingesters;
    if |m| != |n| {
      return Different;
    }
    var equalStatesAndTimestamps := true;
    var todo := m.Keys;
    while todo != {}
      invariant todo <= m.Keys
      invariant forall k :: k in m && k !in todo ==> k in n && SameEntry(m[k], n[k])
      invariant equalStatesAndTimestamps <==> forall k :: k in m && k !in todo ==> k in n && m[k] == n[k]
      decreases todo
    {
      var name :| name in todo;
      todo := todo - {name};
      if name !in n {
        return Different;
      }
      var ing, oing := m[name], n[name];
      if ing.addr != oing.addr || ing.zone != oing.zone || ing.registeredTimestamp != oing.registeredTimestamp {
        return Different;
      }
      if |ing.tokens| != |oing.tokens| {
        return Different;
      }
      for ix := 0 to |ing.tokens|
        invariant ing.tokens[..ix] == oing.tokens[..ix]
      {
        if oing.tokens[ix] != ing.tokens[ix] {
          return Different;
        }
      }
      assert ing.tokens == oing.tokens;
      if ing.timestamp != oing.timestamp || ing.state != oing.state {
        equalStatesAndTimestamps := false;
      }
    }
    SameSizeSameNames(m, n);
    r := if equalStatesAndTimestamps then Equal else EqualButStatesAndTimestamps;
  }

  // ---------------------------------------------------------------- the indexes stay

  lemma SameTopologySameZones(m: Ingesters, n: Ingesters)
    requires SameTopology(m, n)
    ensures WholeRing.Zones(m) == WholeRing.Zones(n)
    ensures forall z :: SameTopology(InZone(m, z), InZone(n, z))
  {
  }

  lemma SameTopologySameTokens(m: Ingesters, n: Ingesters)
    requires SameTopology(m, n)
    ensures AllTokens(m) == AllTokens(n) && Tokens(m) == Tokens(n)
    ensures ConflictFree(m) <==> ConflictFree(n)
    ensures forall k, t: Token :: Owns(m, k, t) <==> Owns(n, k, t)
  {
    SameTokensSameTotal(m, n);
  }

  /** Every index of m is an index of n. */
  lemma SameTopologySameIndexes(
    m: Ingesters, n: Ingesters, tokens: seq<Token>, byZone: map<string, seq<Token>>, owners: map<Token, Info>,
    zones: seq<string>)
    requires SameTopology(m, n)
    ensures IsTokenList(m, tokens) <==> IsTokenList(n, tokens)
    ensures IsZoneIndex(m, byZone) <==> IsZoneIndex(n, byZone)
    ensures CoversOwners(m, owners) <==> CoversOwners(n, owners)
    ensures IsOwnerIndex(m, owners) <==> IsOwnerIndex(n, owners)
    ensures IsZoneList(m, zones) <==> IsZoneList(n, zones)
  {
    SameTopologySameZones(m, n);
    SameTopologySameTokens(m, n);
    forall z, list ensures IsTokenList(InZone(m, z), list) <==> IsTokenList(InZone(n, z), list) {
      SameTopologySameTokens(InZone(m, z), InZone(n, z));
    }
  }

  // ---------------------------------------------------------------- the shards stay

  lemma SameOpen(m: Ingesters, n: Ingesters, shard: set<string>)
    requires SameTopology(m, n)
    ensures Open(m, shard) == Open(n, shard)
  {
    SameTopologySameTokens(m, n);
  }

  lemma {:induction false} SameDraw(m: Ingesters, n: Ingesters, recent: set<string>, shard: set<string>, key: Token)
    requires SameTopology(m, n) && ConflictFree(m) && ConflictFree(n)
    ensures Draw(m, recent, shard, key) == Draw(n, recent, shard, key)
    decreases |Open(m, shard)|
  {
    SameOpen(m, n, shard);
    var c := Open(m, shard);
    if c != {} {
      var t := Nearest(c, key);
      var k := OwnerOf(m, t);
      SameTopologySameTokens(m, n);
      OpenOwner(n, shard, k, t);
      OpenShrinks(m, shard, t);
      SameDraw(m, n, recent, shard + {k}, key);
    }
  }

  lemma {:induction false} SameSelection(m: Ingesters, n: Ingesters, recent: set<string>, stream: Stream, count: nat)
    requires SameTopology(m, n) && ConflictFree(m) && ConflictFree(n)
    ensures Selected(m, recent, stream, count) == Selected(n, recent, stream, count)
  {
    if count > 0 {
      SameSelection(m, n, recent, stream, count - 1);
      SameDraw(m, n, recent, Selected(m, recent, stream, count - 1), stream(count - 1));
    }
  }

  /** States and heartbeats do not influence which instances are selected. */
  lemma SameTopologySameShard(m: Ingesters, n: Ingesters, zoneAware: bool, streams: Streams, size: nat,
      recent: set<string>)
    requires SameTopology(m, n) && ConflictFree(m) && ConflictFree(n)
    ensures Shard(m, zoneAware, streams, size, recent) == Shard(n, zoneAware, streams, size, recent)
  {
    SameTopologySameZones(m, n);
    if !zoneAware {
      SameSelection(m, n, recent, StreamOf(streams, ""), size);
    } else {
      forall k | k in m
        ensures InZoneShard(m, streams, size, recent, m[k].zone, k)
          <==> InZoneShard(n, streams, size, recent, n[k].zone, k)
      {
        SomeZone(m, k);
        SameSelection(InZone(m, m[k].zone), InZone(n, n[k].zone), recent, StreamOf(streams, m[k].zone),
                      PerZone(size, |WholeRing.Zones(m)|));
      }
    }
  }
}
