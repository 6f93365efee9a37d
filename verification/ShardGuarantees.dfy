/** What ShuffleShard guarantees, and when (ring/ring.go). */
module ShardGuarantees {
  import opened RingTypes
  import opened Conflicts
  import opened Sets
  import opened ShuffleShard
  import WholeRing

  // The public functions hand out the whole ring unless it is larger than the shard size. Across that boundary the
  // documented guarantees need conditions, which are given here exactly.

  /** The instances of the ring that ShuffleShard and ShuffleShardWithLookback return. */
  ghost function PublicShard(m: Ingesters, zoneAware: bool, streams: Streams, size: int,
      recent: set<string>): set<string>
    requires ConflictFree(m)
  {
    if size <= 0 || |m| <= size then m.Keys else Shard(m, zoneAware, streams, size, recent)
  }

  // ---------------------------------------------------------------- one part of the ring

  function WithTokens(m: Ingesters): set<string> {
    set k | k in m && m[k].tokens != []
  }

  lemma NothingOpen(m: Ingesters, shard: set<string>)
    requires ConflictFree(m)
    ensures Open(m, shard) == {} <==> WithTokens(m) <= shard
  {
    if Open(m, shard) == {} {
      forall k | k in WithTokens(m) ensures k in shard {
        OpenOwner(m, shard, k, m[k].tokens[0]);
      }
    }
  }

  lemma {:induction false} DrawTakesTokens(m: Ingesters, recent: set<string>, shard: set<string>, key: Token)
    requires ConflictFree(m)
    ensures Draw(m, recent, shard, key).0 <= shard + WithTokens(m)
    decreases |Open(m, shard)|
  {
    var c := Open(m, shard);
    if c != {} {
      var t := Nearest(c, key);
      var k := OwnerOf(m, t);
      OpenShrinks(m, shard, t);
      assert k in WithTokens(m);
      if k in recent {
        DrawTakesTokens(m, recent, shard + {k}, key);
      }
    }
  }

  /** A draw adds one instance that is not recent, or else nothing is left. */
  lemma {:induction false} DrawCounts(m: Ingesters, recent: set<string>, shard: set<string>, key: Token)
    requires ConflictFree(m)
    ensures var (shard', found) := Draw(m, recent, shard, key);
      |shard' - recent| == |shard - recent| + if found then 1 else 0
    decreases |Open(m, shard)|
  {
    var c := Open(m, shard);
    if c != {} {
      var t := Nearest(c, key);
      var k := OwnerOf(m, t);
      OpenShrinks(m, shard, t);
      OpenOwner(m, shard, k, t);
      if k in recent {
        DrawCounts(m, recent, shard + {k}, key);
        assert shard + {k} - recent == shard - recent;
      } else {
        assert shard + {k} - recent == (shard - recent) + {k};
      }
    }
  }

  /** n instances that are not recent have been selected, or everything that has tokens. */
  ghost predicate Progress(m: Ingesters, recent: set<string>, shard: set<string>, n: nat) {
    && shard <= WithTokens(m) && |shard - recent| <= n
    && (|shard - recent| == n || shard == WithTokens(m))
  }

  lemma DrawProgresses(m: Ingesters, recent: set<string>, shard: set<string>, key: Token, n: nat)
    requires ConflictFree(m) && Progress(m, recent, shard, n)
    ensures Progress(m, recent, Draw(m, recent, shard, key).0, n + 1)
  {
    DrawTakesTokens(m, recent, shard, key);
    DrawCounts(m, recent, shard, key);
    DrawAdds(m, recent, shard, key);
    NothingOpen(m, Draw(m, recent, shard, key).0);
    NothingOpen(m, shard);
  }

  lemma {:induction false} SelectedProgresses(m: Ingesters, recent: set<string>, stream: Stream, n: nat)
    requires ConflictFree(m)
    ensures Progress(m, recent, Selected(m, recent, stream, n), n)
  {
    if n == 0 {
      assert {} - recent == {};
    } else {
      var shard := Selected(m, recent, stream, n - 1);
      SelectedProgresses(m, recent, stream, n - 1);
      DrawProgresses(m, recent, shard, stream(n - 1), n - 1);
      OneMoreSelected(m, recent, stream, n - 1);
    }
  }

  lemma OneMoreSelected(m: Ingesters, recent: set<string>, stream: Stream, n: nat)
    requires ConflictFree(m)
    ensures Selected(m, recent, stream, n + 1) == Draw(m, recent, Selected(m, recent, stream, n), stream(n)).0
  {
  }

  function Smaller(a: nat, b: nat): nat {
    if a <= b then a else b
  }

  lemma SelectedSize(m: Ingesters, stream: Stream, n: nat)
    requires ConflictFree(m)
    ensures |Selected(m, {}, stream, n)| == Smaller(n, |WithTokens(m)|)
  {
    SelectedProgresses(m, {}, stream, n);
    var s := Selected(m, {}, stream, n);
    assert s - {} == s;
    SubsetIsSmaller(s, WithTokens(m));
    if |s| == n {
    } else {
      assert s == WithTokens(m);
    }
  }

  // ---------------------------------------------------------------- aiming

  /** The number from which the walk meets t first. */
  function Before(t: Token): (key: Token)
    ensures forall u: Token :: Distance(key, t) <= Distance(key, u) && (Distance(key, u) == Distance(key, t) ==> u == t)
  {
    if t == 0 then TOKEN_SPACE - 1 else t - 1
  }

  predicate AreTargets(m: Ingesters, recent: set<string>, targets: seq<string>) {
    && (forall i :: 0 <= i < |targets| ==> targets[i] in m && m[targets[i]].tokens != [] && targets[i] !in recent)
    && (forall i, j :: 0 <= i < j < |targets| ==> targets[i] != targets[j])
  }

  /** A stream that selects the targets, one with each draw. */
  ghost function Aimed(m: Ingesters, targets: seq<string>): Stream {
    (i: nat) => if i < |targets| && targets[i] in m && m[targets[i]].tokens != []
      then Before(m[targets[i]].tokens[0]) else 0
  }

  lemma DrawHits(m: Ingesters, recent: set<string>, shard: set<string>, k: string)
    requires ConflictFree(m) && k in m && m[k].tokens != [] && k !in recent && k !in shard
    ensures Draw(m, recent, shard, Before(m[k].tokens[0])).0 == shard + {k}
  {
    var t := m[k].tokens[0];
    OpenOwner(m, shard, k, t);
    assert IsNearest(Open(m, shard), Before(t), t);
    assert Nearest(Open(m, shard), Before(t)) == t;
  }

  function Names(list: seq<string>): set<string> {
    set k | k in list
  }

  lemma OneMoreName(list: seq<string>, k: string)
    ensures Names(list + [k]) == Names(list) + {k}
  {
  }

  lemma NextTarget(m: Ingesters, recent: set<string>, targets: seq<string>, i: nat)
    requires ConflictFree(m) && AreTargets(m, recent, targets) && i < |targets|
    ensures Names(targets[..i + 1]) == Names(targets[..i]) + {targets[i]} && targets[i] !in Names(targets[..i])
  {
    assert targets[..i + 1] == targets[..i] + [targets[i]];
    OneMoreName(targets[..i], targets[i]);
  }

  lemma HitNext(m: Ingesters, recent: set<string>, targets: seq<string>, shard: set<string>, key: Token, i: nat)
    requires ConflictFree(m) && AreTargets(m, recent, targets) && i < |targets| && shard == Names(targets[..i])
    requires key == Before(m[targets[i]].tokens[0])
    ensures Draw(m, recent, shard, key).0 == Names(targets[..i + 1])
  {
    NextTarget(m, recent, targets, i);
    DrawHits(m, recent, shard, targets[i]);
  }

  lemma AimedAt(m: Ingesters, recent: set<string>, targets: seq<string>, i: nat)
    requires ConflictFree(m) && AreTargets(m, recent, targets) && i < |targets|
    ensures Aimed(m, targets)(i) == Before(m[targets[i]].tokens[0])
  {
  }

  lemma {:induction false} AimedHits(m: Ingesters, recent: set<string>, targets: seq<string>, stream: Stream, n: nat)
    requires ConflictFree(m) && AreTargets(m, recent, targets) && n <= |targets|
    requires forall i: nat :: i < |targets| ==> stream(i) == Before(m[targets[i]].tokens[0])
    ensures Selected(m, recent, stream, n) == Names(targets[..n])
  {
    if n > 0 {
      AimedHits(m, recent, targets, stream, n - 1);
      HitNext(m, recent, targets, Names(targets[..n - 1]), stream(n - 1), n - 1);
      OneMoreSelected(m, recent, stream, n - 1);
    } else {
      assert targets[..0] == [];
    }
  }

  lemma {:induction false} Listed(s: set<string>) returns (list: seq<string>)
    ensures Names(list) == s && |list| == |s|
    ensures forall i, j :: 0 <= i < j < |list| ==> list[i] != list[j]
  {
    if s == {} {
      list := [];
    } else {
      var x :| x in s;
      var rest := Listed(s - {x});
      forall i | 0 <= i < |rest| ensures rest[i] != x {
        assert rest[i] in Names(rest);
      }
      list := rest + [x];
      OneMoreName(rest, x);
    }
  }

  lemma {:induction false} DistinctNames(list: seq<string>)
    requires forall i, j :: 0 <= i < j < |list| ==> list[i] != list[j]
    ensures |Names(list)| == |list|
  {
    if list != [] {
      var front, last := list[..|list| - 1], list[|list| - 1];
      DistinctNames(front);
      assert list == front + [last];
      OneMoreName(front, last);
      assert last !in Names(front);
    }
  }

  /** Some stream selects exactly the given instances. */
  lemma SomeStreamSelects(m: Ingesters, recent: set<string>, s: set<string>) returns (stream: Stream)
    requires ConflictFree(m) && s <= WithTokens(m) && s * recent == {}
    ensures Selected(m, recent, stream, |s|) == s
  {
    var list := Listed(s);
    forall i | 0 <= i < |list| ensures list[i] in m && m[list[i]].tokens != [] && list[i] !in recent {
      assert list[i] in Names(list) && list[i] !in s * recent;
    }
    stream := Aimed(m, list);
    forall i: nat | i < |list| ensures stream(i) == Before(m[list[i]].tokens[0]) {
      AimedAt(m, recent, list, i);
    }
    AimedHits(m, recent, list, stream, |list|);
    assert list[..|list|] == list;
  }

  // ---------------------------------------------------------------- the parts of a ring

  /** Each zone is a ring of its own; without zones there is one, with no name. */
  function Parts(m: Ingesters, zoneAware: bool): set<string> {
    if zoneAware then WholeRing.Zones(m) else {""}
  }

  function PartOf(m: Ingesters, zoneAware: bool, k: string): string {
    if zoneAware && k in m then m[k].zone else ""
  }

  function RingPart(m: Ingesters, zoneAware: bool, zone: string): Ingesters {
    if zoneAware then InZone(m, zone) else m
  }

  /** The number of draws from each part. */
  function Draws(m: Ingesters, zoneAware: bool, size: nat): nat {
    if !zoneAware || WholeRing.Zones(m) == {} then size else PerZone(size, |WholeRing.Zones(m)|)
  }

  lemma InOwnPart(m: Ingesters, zoneAware: bool, k: string)
    requires k in m
    ensures PartOf(m, zoneAware, k) in Parts(m, zoneAware) && k in RingPart(m, zoneAware, PartOf(m, zoneAware, k))
  {
  }

  lemma ShardInPart(m: Ingesters, zoneAware: bool, streams: Streams, size: nat, recent: set<string>, zone: string)
    requires ConflictFree(m) && zone in Parts(m, zoneAware)
    ensures Selected(RingPart(m, zoneAware, zone), recent, StreamOf(streams, zone), Draws(m, zoneAware, size))
      == set k | k in Shard(m, zoneAware, streams, size, recent) && PartOf(m, zoneAware, k) == zone
  {
    SelectedAreMembers(RingPart(m, zoneAware, zone), recent, StreamOf(streams, zone), Draws(m, zoneAware, size));
  }

  /** Streams that agree on the draws make the same selection. */
  lemma {:induction false} SameDrawsSameSelection(m: Ingesters, recent: set<string>, a: Stream, b: Stream, n: nat)
    requires ConflictFree(m) && forall i: nat :: i < n ==> a(i) == b(i)
    ensures Selected(m, recent, a, n) == Selected(m, recent, b, n)
  {
    if n > 0 {
      SameDrawsSameSelection(m, recent, a, b, n - 1);
    }
  }

  function Everywhere(stream: Stream): Streams {
    (zone: string, n: nat) => stream(n)
  }

  lemma SelectedEverywhere(m: Ingesters, recent: set<string>, stream: Stream, zone: string, n: nat)
    requires ConflictFree(m)
    ensures Selected(m, recent, StreamOf(Everywhere(stream), zone), n) == Selected(m, recent, stream, n)
  {
    SameDrawsSameSelection(m, recent, StreamOf(Everywhere(stream), zone), stream, n);
  }

  // ---------------------------------------------------------------- consistency

  /** How many instances are selected from a part without lookback, whatever the stream. */
  function SelectedFrom(m: Ingesters, zoneAware: bool, size: nat): string -> nat {
    (zone: string) => Smaller(Draws(m, zoneAware, size), |WithTokens(RingPart(m, zoneAware, zone))|)
  }

  lemma ShardSize(m: Ingesters, zoneAware: bool, streams: Streams, size: nat)
    requires ConflictFree(m)
    ensures |Shard(m, zoneAware, streams, size, {})| == SumOver(Parts(m, zoneAware), SelectedFrom(m, zoneAware, size))
  {
    var shard := Shard(m, zoneAware, streams, size, {});
    var f := (k: string) => PartOf(m, zoneAware, k);
    ShardMembers(m, zoneAware, streams, size, {});
    forall k | k in shard ensures f(k) in Parts(m, zoneAware) {
      InOwnPart(m, zoneAware, k);
    }
    forall zone | zone in Parts(m, zoneAware) ensures SelectedFrom(m, zoneAware, size)(zone) == |Part(shard, f, zone)| {
      ShardInPart(m, zoneAware, streams, size, {}, zone);
      var here, stream, n := RingPart(m, zoneAware, zone), StreamOf(streams, zone), Draws(m, zoneAware, size);
      assert Part(shard, f, zone) == Selected(here, {}, stream, n);
      SelectedSize(here, stream, n);
    }
    PartsAddUp(shard, f, Parts(m, zoneAware), SelectedFrom(m, zoneAware, size));
  }

  lemma ShardMembers(m: Ingesters, zoneAware: bool, streams: Streams, size: nat, recent: set<string>)
    requires ConflictFree(m)
    ensures Shard(m, zoneAware, streams, size, recent) <= m.Keys
  {
    if !zoneAware {
      SelectedAreMembers(m, recent, StreamOf(streams, ""), size);
    }
  }

  /** The number of instances that are not selected: a matter of the sizes of the zones alone. */
  ghost function LeftOut(m: Ingesters, zoneAware: bool, size: nat): int {
    |m| - SumOver(Parts(m, zoneAware), SelectedFrom(m, zoneAware, size))
  }

  /** At most one instance goes and at most one comes. */
  predicate OneDifference(s: set<string>, s': set<string>) {
    |s - s'| <= 1 && |s' - s| <= 1
  }

  /** Removing x takes the ring to the shard size, and the whole ring is handed out from then on. */
  predicate ReachesSize(m: Ingesters, size: int) {
    size > 0 && |m| == size + 1
  }

  lemma SizeWithout(m: Ingesters, x: string)
    requires x in m
    ensures |m - {x}| == |m| - 1 && (m - {x}).Keys == m.Keys - {x}
  {
    assert (m - {x}).Keys == m.Keys - {x};
    assert |(m - {x}).Keys| == |m.Keys| - 1;
  }

  lemma OthersOutside(all: set<string>, s: set<string>, x: string)
    requires s <= all && x in all
    ensures |(all - {x}) - s| == |all| - |s| - if x in s then 0 else 1
  {
    assert |all - s| == |all| - |s|;
    assert (all - {x}) - s == (all - s) - {x};
  }

  /** At the boundary every other instance that was left out comes in. */
  lemma ComingIn(m: Ingesters, x: string, zoneAware: bool, streams: Streams, size: nat)
    requires ConflictFree(m) && x in m
    ensures var s := Shard(m, zoneAware, streams, size, {});
      && s - (m.Keys - {x}) <= {x}
      && |(m.Keys - {x}) - s| == LeftOut(m, zoneAware, size) - if x in s then 0 else 1
  {
    var s := Shard(m, zoneAware, streams, size, {});
    ShardMembers(m, zoneAware, streams, size, {});
    ShardSize(m, zoneAware, streams, size);
    OthersOutside(m.Keys, s, x);
  }

  lemma ComingInAtBoundary(m: Ingesters, x: string, zoneAware: bool, streams: Streams, size: int)
    requires ConflictFree(m) && ConflictFree(m - {x}) && x in m && ReachesSize(m, size)
    ensures
      var s, s' := PublicShard(m, zoneAware, streams, size, {}), PublicShard(m - {x}, zoneAware, streams, size, {});
      s - s' <= {x} && |s' - s| == LeftOut(m, zoneAware, size) - if x in s then 0 else 1
  {
    SizeWithout(m, x);
    ComingIn(m, x, zoneAware, streams, size);
  }

  /**
   * Consistency of ShuffleShard: removing x from a ring, or adding it back, makes at most one difference unless the
   * ring thereby reaches the shard size and more than one instance other than x was left out.
   */
  lemma PublicShardIsConsistentExactly(m: Ingesters, x: string, zoneAware: bool, streams: Streams, size: int)
    requires ConflictFree(m) && x in m
    requires zoneAware ==> WholeRing.Zones(m - {x}) == WholeRing.Zones(m)
    ensures ConflictFree(m - {x})
    ensures OneDifference(PublicShard(m, zoneAware, streams, size, {}),
                          PublicShard(m - {x}, zoneAware, streams, size, {}))
      <==> !(ReachesSize(m, size) &&
             LeftOut(m, zoneAware, size) - (if x in Shard(m, zoneAware, streams, size, {}) then 0 else 1) > 1)
  {
    FewerConflicts(m, x);
    SizeWithout(m, x);
    var s, s' := PublicShard(m, zoneAware, streams, size, {}), PublicShard(m - {x}, zoneAware, streams, size, {});
    if size <= 0 || |m| <= size {
      assert s - s' == {x} && s' - s == {};
    } else if |m| == size + 1 {
      ComingInAtBoundary(m, x, zoneAware, streams, size);
      SubsetIsSmaller(s - s', {x});
    } else {
      ShardIsConsistent(m, x, zoneAware, streams, size);
      SubsetIsSmaller(s - s', {x});
    }
  }

  /** x is selected with the first draw from its part. */
  lemma SomeStreamSelectsOne(m: Ingesters, x: string, zoneAware: bool, size: nat) returns (streams: Streams)
    requires ConflictFree(m) && x in m && m[x].tokens != [] && size > 0
    ensures x in Shard(m, zoneAware, streams, size, {})
  {
    var zone := PartOf(m, zoneAware, x);
    InOwnPart(m, zoneAware, x);
    var part, n := RingPart(m, zoneAware, zone), Draws(m, zoneAware, size);
    var stream := SomeStreamSelects(part, {}, {x});
    streams := Everywhere(stream);
    SelectedEverywhere(part, {}, stream, zone, n);
    AtLeastOneDraw(m, zoneAware, size);
    SelectedGrows(part, {}, stream, 1, n);
    ShardInPart(m, zoneAware, streams, size, {}, zone);
  }

  lemma AtLeastOneDraw(m: Ingesters, zoneAware: bool, size: nat)
    requires size > 0
    ensures Draws(m, zoneAware, size) > 0
  {
    if zoneAware && WholeRing.Zones(m) != {} {
      var zones := |WholeRing.Zones(m)|;
      DivisionIsMonotonic(zones, size + zones - 1, zones);
    }
  }

  /**
   * For every identifier, that is for every stream, there is at most one difference if and only if the ring does not
   * reach the shard size, or hardly an instance is left out: none or one, besides x if it has no tokens.
   */
  lemma AlwaysConsistentExactly(m: Ingesters, x: string, zoneAware: bool, size: int)
    requires ConflictFree(m) && ConflictFree(m - {x}) && x in m
    requires zoneAware ==> WholeRing.Zones(m - {x}) == WholeRing.Zones(m)
    ensures (forall streams :: OneDifference(
               PublicShard(m, zoneAware, streams, size, {}), PublicShard(m - {x}, zoneAware, streams, size, {})))
      <==> !(ReachesSize(m, size) && LeftOut(m, zoneAware, size) > if m[x].tokens == [] then 2 else 1)
  {
    forall streams ensures OneDifference(
      PublicShard(m, zoneAware, streams, size, {}), PublicShard(m - {x}, zoneAware, streams, size, {}))
      <==> !(ReachesSize(m, size) &&
             LeftOut(m, zoneAware, size) - (if x in Shard(m, zoneAware, streams, size, {}) then 0 else 1) > 1)
    {
      PublicShardIsConsistentExactly(m, x, zoneAware, streams, size);
    }
    if ReachesSize(m, size) {
      if m[x].tokens == [] {
        forall streams: Streams ensures x !in Shard(m, zoneAware, streams, size, {}) {
          NeverSelected(m, zoneAware, streams, size, {}, x);
        }
        assert OneDifference(PublicShard(m, zoneAware, Everywhere(i => 0), size, {}),
                             PublicShard(m - {x}, zoneAware, Everywhere(i => 0), size, {}))
          <==> LeftOut(m, zoneAware, size) - 1 <= 1;
      } else {
        var streams := SomeStreamSelectsOne(m, x, zoneAware, size);
        assert OneDifference(PublicShard(m, zoneAware, streams, size, {}),
                             PublicShard(m - {x}, zoneAware, streams, size, {}))
          <==> LeftOut(m, zoneAware, size) <= 1;
      }
    }
  }

  lemma NeverSelected(m: Ingesters, zoneAware: bool, streams: Streams, size: nat, recent: set<string>, k: string)
    requires ConflictFree(m) && k in m && m[k].tokens == []
    ensures k !in Shard(m, zoneAware, streams, size, recent)
  {
    var zone := PartOf(m, zoneAware, k);
    InOwnPart(m, zoneAware, k);
    ShardInPart(m, zoneAware, streams, size, recent, zone);
    SelectedProgresses(RingPart(m, zoneAware, zone), recent, StreamOf(streams, zone), Draws(m, zoneAware, size));
  }

  /** All of the instances are in the zone and have tokens. */
  ghost predicate AllIn(m: Ingesters, zone: string, s: set<string>) {
    forall k :: k in s ==> k in m && m[k].zone == zone && m[k].tokens != []
  }

  /** There are two zones, with the given instances. */
  ghost predicate TwoZones(m: Ingesters, y: string, a: set<string>, z: string, b: set<string>) {
    && ConflictFree(m) && y != z && m.Keys == a + b && a !! b && a != {} && b != {} && AllIn(m, y, a) && AllIn(m, z, b)
  }

  lemma TwoZonesAre(m: Ingesters, y: string, a: set<string>, z: string, b: set<string>)
    requires TwoZones(m, y, a, z, b)
    ensures WholeRing.Zones(m) == {y, z} && |m| == |a| + |b|
    ensures WithTokens(InZone(m, y)) == a == InZone(m, y).Keys
    ensures WithTokens(InZone(m, z)) == b == InZone(m, z).Keys
  {
    var i :| i in a;
    var j :| j in b;
    assert m[i].zone == y && m[j].zone == z;
    assert |m.Keys| == |a + b| == |a| + |b|;
  }

  lemma TwoDrawsEach(m: Ingesters, y: string, a: set<string>, z: string, b: set<string>)
    requires TwoZones(m, y, a, z, b)
    ensures Draws(m, true, 4) == 2
  {
    TwoZonesAre(m, y, a, z, b);
    assert PerZone(4, 2) == 2;
  }

  /** A shard of four takes at most two from each of two zones. */
  lemma LeftOutOfTwoZones(m: Ingesters, y: string, a: set<string>, z: string, b: set<string>)
    requires TwoZones(m, y, a, z, b)
    ensures LeftOut(m, true, 4) == |a| + |b| - Smaller(2, |a|) - Smaller(2, |b|)
  {
    TwoZonesAre(m, y, a, z, b);
    TwoDrawsEach(m, y, a, z, b);
    var count := SelectedFrom(m, true, 4);
    assert count(y) == Smaller(2, |a|) && count(z) == Smaller(2, |b|);
    SumOfTwo(y, z, count);
  }

  /**
   * The documented consistency fails at the boundary: of four instances in one zone and one in another, a shard of four
   * leaves out two. When a selected one of the four goes, the ring is no larger than the shard, and both come in.
   */
  lemma ShardNeedNotBeConsistent(
    m: Ingesters, y: string, a: set<string>, z: string, b: set<string>, x: string, streams: Streams)
    requires TwoZones(m, y, a, z, b) && |a| == 4 && |b| == 1
    requires x in a && x in PublicShard(m, true, streams, 4, {})
    ensures ConflictFree(m - {x}) && WholeRing.Zones(m - {x}) == WholeRing.Zones(m)
    ensures |PublicShard(m - {x}, true, streams, 4, {}) - PublicShard(m, true, streams, 4, {})| == 2
  {
    FewerConflicts(m, x);
    ZonesWithout(m, y, a, z, b, x);
    LeftOutOfTwoZones(m, y, a, z, b);
    TwoZonesAre(m, y, a, z, b);
    ComingInAtBoundary(m, x, true, streams, 4);
  }

  lemma ZonesWithout(m: Ingesters, y: string, a: set<string>, z: string, b: set<string>, x: string)
    requires TwoZones(m, y, a, z, b) && x in a && |a| > 1
    ensures WholeRing.Zones(m - {x}) == WholeRing.Zones(m)
  {
    FewerConflicts(m, x);
    SizeWithout(m, x);
    assert |a - {x}| > 0;
    assert (a + b) - {x} == (a - {x}) + b;
    TwoZonesAre(m, y, a, z, b);
    TwoZonesAre(m - {x}, y, a - {x}, z, b);
  }

  /** For every stream there is such an instance x. */
  lemma SomeOfTheFourIsSelected(m: Ingesters, y: string, a: set<string>, z: string, b: set<string>, streams: Streams)
    returns (x: string)
    requires TwoZones(m, y, a, z, b) && |a| == 4 && |b| == 1
    ensures x in a && x in PublicShard(m, true, streams, 4, {})
  {
    TwoZonesAre(m, y, a, z, b);
    TwoDrawsEach(m, y, a, z, b);
    SelectedSize(InZone(m, y), StreamOf(streams, y), 2);
    ShardInPart(m, true, streams, 4, {}, y);
    x :| x in Selected(InZone(m, y), {}, StreamOf(streams, y), 2);
  }

  function Member(zone: string, token: Token, registered: int): InstanceDesc {
    InstanceDesc("", 1, ACTIVE, [token], zone, registered)
  }

  ghost predicate TokensBelow(m: Ingesters, bound: int) {
    forall k, t :: k in m && t in m[k].tokens ==> t < bound
  }

  lemma OneMoreMember(m: Ingesters, y: string, a: set<string>, z: string, b: set<string>, x: string, t: Token, at: int)
    requires TwoZones(m, y, a, z, b) && x !in m && TokensBelow(m, t)
    ensures TwoZones(m[x := Member(y, t, at)], y, a + {x}, z, b) && TokensBelow(m[x := Member(y, t, at)], t + 1)
    ensures TwoZones(m[x := Member(z, t, at)], y, a, z, b + {x}) && TokensBelow(m[x := Member(z, t, at)], t + 1)
  {
  }

  lemma OneAndOne(y: string, a: string, z: string, b: string) returns (m: Ingesters)
    requires y != z && a != b
    ensures TwoZones(m, y, {a}, z, {b}) && TokensBelow(m, 2) && forall k :: k in m ==> m[k].registeredTimestamp == 0
  {
    m := map[a := Member(y, 0, 0), b := Member(z, 1, 0)];
  }

  /** There are such rings, with any names. */
  lemma {:induction false} ManyAndOne(y: string, names: seq<string>, z: string, b: string) returns (m: Ingesters)
    requires y != z && 0 < |names| < TOKEN_SPACE && b !in names
    requires forall i, j :: 0 <= i < j < |names| ==> names[i] != names[j]
    ensures TwoZones(m, y, Names(names), z, {b}) && |Names(names)| == |names|
    ensures TokensBelow(m, |names| + 1) && forall k :: k in m ==> m[k].registeredTimestamp == 0
    decreases |names|
  {
    var front, last := names[..|names| - 1], names[|names| - 1];
    DistinctNames(names);
    LastName(names);
    if front == [] {
      m := OneAndOne(y, last, z, b);
    } else {
      var rest := ManyAndOne(y, front, z, b);
      m := AddMember(rest, y, Names(front), z, {b}, last, |names|);
    }
  }

  lemma LastName(names: seq<string>)
    requires names != [] && forall i, j :: 0 <= i < j < |names| ==> names[i] != names[j]
    ensures var front, last := names[..|names| - 1], names[|names| - 1];
      && last !in Names(front) && Names(front) + {last} == Names(names)
      && (front == [] ==> Names(names) == {last})
  {
    var front, last := names[..|names| - 1], names[|names| - 1];
    assert names == front + [last];
    OneMoreName(front, last);
  }

  lemma AddMember(m: Ingesters, y: string, a: set<string>, z: string, b: set<string>, x: string, t: int)
    returns (m': Ingesters)
    requires TwoZones(m, y, a, z, b) && x !in m && TokensBelow(m, t) && 0 <= t < TOKEN_SPACE
    requires forall k :: k in m ==> m[k].registeredTimestamp == 0
    ensures TwoZones(m', y, a + {x}, z, b) && TokensBelow(m', t + 1)
    ensures forall k :: k in m' ==> m'[k].registeredTimestamp == 0
  {
    OneMoreMember(m, y, a, z, b, x, t, 0);
    m' := m[x := Member(y, t, 0)];
  }

  // ---------------------------------------------------------------- lookback

  /** Those of the part that are not recent, and of them and the others those that were there before. */
  ghost predicate Enough(m: Ingesters, recent: set<string>, kept: set<string>, n: nat) {
    && kept <= WithTokens(m) && |m.Keys - recent| <= n
    && (|m.Keys - recent| == n ==> kept * recent == {})
  }

  lemma EnoughDraws(m: Ingesters, recent: set<string>, kept: set<string>, stream: Stream, n: nat)
    requires ConflictFree(m) && Enough(m, recent, kept, n)
    ensures kept <= Selected(m, recent, stream, n)
  {
    SelectedProgresses(m, recent, stream, n);
    var s := Selected(m, recent, stream, n);
    if s != WithTokens(m) {
      assert s - recent <= m.Keys - recent;
      SubsetIsSmaller(s - recent, m.Keys - recent);
      assert |(m.Keys - recent) - (s - recent)| == |m.Keys - recent| - |s - recent| == 0;
      assert m.Keys - recent <= s;
      forall k | k in kept ensures k in s {
        assert k !in kept * recent;
      }
    }
  }

  /** Unless there are enough draws, some stream misses one of the instances to be kept. */
  lemma TooFewDraws(m: Ingesters, recent: set<string>, kept: set<string>, n: nat) returns (stream: Stream)
    requires ConflictFree(m) && m.Keys - recent <= kept <= m.Keys && !Enough(m, recent, kept, n)
    ensures !(kept <= Selected(m, recent, stream, n))
  {
    var older := m.Keys - recent;
    if !(kept <= WithTokens(m)) {
      stream := i => 0;
      SelectedProgresses(m, recent, stream, n);
    } else if |older| > n {
      var s := PickSubset(older, n);
      stream := SomeStreamSelects(m, recent, s);
      if kept <= s {
        SubsetIsSmaller(older, s);
      }
    } else {
      stream := SomeStreamSelects(m, recent, older);
    }
  }

  /** Each part of the current ring has enough draws for what it has kept of the past ring. */
  ghost predicate AllPartsEnough(past: Ingesters, now: Ingesters, zoneAware: bool, size: nat, recent: set<string>) {
    forall zone :: zone in Parts(now, zoneAware) ==>
      Enough(RingPart(now, zoneAware, zone), recent, KeptIn(past, now, zoneAware, zone), Draws(now, zoneAware, size))
  }

  function KeptIn(past: Ingesters, now: Ingesters, zoneAware: bool, zone: string): set<string> {
    past.Keys * RingPart(now, zoneAware, zone).Keys
  }

  lemma CoveredByParts(past: Ingesters, now: Ingesters, zoneAware: bool, streams: Streams, size: nat,
      recent: set<string>)
    requires ConflictFree(now)
    ensures past.Keys * now.Keys <= Shard(now, zoneAware, streams, size, recent)
      <==> forall zone :: zone in Parts(now, zoneAware) ==>
             KeptIn(past, now, zoneAware, zone)
               <= Selected(RingPart(now, zoneAware, zone), recent, StreamOf(streams, zone), Draws(now, zoneAware, size))
  {
    var shard := Shard(now, zoneAware, streams, size, recent);
    forall zone | zone in Parts(now, zoneAware)
      ensures Selected(RingPart(now, zoneAware, zone), recent, StreamOf(streams, zone), Draws(now, zoneAware, size))
        == set k | k in shard && PartOf(now, zoneAware, k) == zone
    {
      ShardInPart(now, zoneAware, streams, size, recent, zone);
    }
    forall k | k in past.Keys * now.Keys
      ensures PartOf(now, zoneAware, k) in Parts(now, zoneAware)
      ensures k in KeptIn(past, now, zoneAware, PartOf(now, zoneAware, k))
    {
      InOwnPart(now, zoneAware, k);
    }
  }

  /** Whatever the streams, a shard with lookback covers a past ring exactly when each part has enough draws. */
  lemma CoversPastRingExactly(past: Ingesters, now: Ingesters, zoneAware: bool, size: nat, recent: set<string>)
    requires ConflictFree(now) && now.Keys - recent <= past.Keys
    ensures (forall streams :: past.Keys * now.Keys <= Shard(now, zoneAware, streams, size, recent))
      <==> AllPartsEnough(past, now, zoneAware, size, recent)
  {
    var n := Draws(now, zoneAware, size);
    if AllPartsEnough(past, now, zoneAware, size, recent) {
      forall streams: Streams ensures past.Keys * now.Keys <= Shard(now, zoneAware, streams, size, recent) {
        forall zone | zone in Parts(now, zoneAware)
          ensures KeptIn(past, now, zoneAware, zone)
            <= Selected(RingPart(now, zoneAware, zone), recent, StreamOf(streams, zone), n)
        {
          EnoughDraws(RingPart(now, zoneAware, zone), recent, KeptIn(past, now, zoneAware, zone),
                      StreamOf(streams, zone), n);
        }
        CoveredByParts(past, now, zoneAware, streams, size, recent);
      }
    } else {
      var zone :| zone in Parts(now, zoneAware)
        && !Enough(RingPart(now, zoneAware, zone), recent, KeptIn(past, now, zoneAware, zone), n);
      var part := RingPart(now, zoneAware, zone);
      var stream := TooFewDraws(part, recent, KeptIn(past, now, zoneAware, zone), n);
      SelectedEverywhere(part, recent, stream, zone, n);
      CoveredByParts(past, now, zoneAware, Everywhere(stream), size, recent);
      assert !(past.Keys * now.Keys <= Shard(now, zoneAware, Everywhere(stream), size, recent));
    }
  }

  /**
   * Lookback of ShuffleShardWithLookback: for every stream the current shard covers what is left of the past one if and
   * only if the past ring was larger than its shard size, or the current ring is not, or each part of the current ring
   * has enough draws for all of the past ring that is left.
   */
  lemma PublicLookbackExactly(
    past: Ingesters, now: Ingesters, zoneAware: bool, size: int, size': int, lookback: int, until: int)
    requires ConflictFree(past) && ConflictFree(now) && size <= size'
    requires Continues(past, now, Recent(now, lookback, until))
    requires zoneAware ==> WholeRing.Zones(past) == WholeRing.Zones(now)
    requires zoneAware ==> forall k :: k in past && k in now ==> past[k].zone == now[k].zone
    ensures (forall streams :: PublicShard(past, zoneAware, streams, size, {}) * now.Keys
               <= PublicShard(now, zoneAware, streams, size', Recent(now, lookback, until)))
      <==> 0 < size < |past| || size' <= 0 || |now| <= size'
           || AllPartsEnough(past, now, zoneAware, size', Recent(now, lookback, until))
  {
    var recent := Recent(now, lookback, until);
    if size' <= 0 || |now| <= size' {
    } else if 0 < size < |past| {
      forall streams: Streams ensures PublicShard(past, zoneAware, streams, size, {}) * now.Keys
        <= PublicShard(now, zoneAware, streams, size', recent)
      {
        LookbackCoversPastShard(past, now, zoneAware, streams, size, size', lookback, until);
      }
    } else {
      CoversPastRingExactly(past, now, zoneAware, size', recent);
      forall streams: Streams
        ensures PublicShard(past, zoneAware, streams, size, {}) == past.Keys
        ensures PublicShard(now, zoneAware, streams, size', recent) == Shard(now, zoneAware, streams, size', recent)
      {
      }
    }
  }

  /**
   * The documented lookback fails when the ring outgrows the shard size: three instances in one zone and one in another
   * were all in the shard of four, then x is added to the other zone. Two draws cannot bring back all of the three,
   * although they are still registered, whatever the stream.
   */
  lemma LookbackNeedNotCover(
    past: Ingesters, y: string, a: set<string>, z: string, b: set<string>, x: string, e: InstanceDesc, streams: Streams)
    requires TwoZones(past, y, a, z, b) && |a| == 3 && |b| == 1 && x !in past && e.registeredTimestamp > 0
    requires TwoZones(past[x := e], y, a, z, b + {x})
    requires forall k :: k in past ==> past[k].registeredTimestamp == 0
    ensures Continues(past, past[x := e], Recent(past[x := e], 1, 1))
    ensures WholeRing.Zones(past) == WholeRing.Zones(past[x := e])
    ensures !(PublicShard(past, true, streams, 4, {}) * past[x := e].Keys
              <= PublicShard(past[x := e], true, streams, 4, Recent(past[x := e], 1, 1)))
  {
    var now := past[x := e];
    var recent := Recent(now, 1, 1);
    NewIsRecent(past, x, e);
    TwoZonesAre(past, y, a, z, b);
    TwoZonesAre(now, y, a, z, b + {x});
    TwoDrawsMiss(now, y, a, z, b + {x}, recent, streams);
    var kept := past.Keys * now.Keys;
    assert a <= kept;
  }

  lemma NewIsRecent(past: Ingesters, x: string, e: InstanceDesc)
    requires x !in past && e.registeredTimestamp > 0 && forall k :: k in past ==> past[k].registeredTimestamp == 0
    ensures Recent(past[x := e], 1, 1) == {x} && Continues(past, past[x := e], {x})
  {
  }

  lemma TwoDrawsMiss(
    m: Ingesters, y: string, a: set<string>, z: string, b: set<string>, recent: set<string>, streams: Streams)
    requires TwoZones(m, y, a, z, b) && |a| == 3 && a !! recent
    ensures !(a <= Shard(m, true, streams, 4, recent))
  {
    TwoZonesAre(m, y, a, z, b);
    TwoDrawsEach(m, y, a, z, b);
    TwoMissOne(InZone(m, y), recent, StreamOf(streams, y), a);
    MissedByShard(m, y, a, streams, recent);
  }

  lemma MissedByShard(m: Ingesters, zone: string, a: set<string>, streams: Streams, recent: set<string>)
    requires ConflictFree(m) && zone in WholeRing.Zones(m) && AllIn(m, zone, a)
    requires !(a <= Selected(InZone(m, zone), recent, StreamOf(streams, zone), Draws(m, true, 4)))
    ensures !(a <= Shard(m, true, streams, 4, recent))
  {
    ShardInPart(m, true, streams, 4, recent, zone);
  }

  lemma TwoMissOne(m: Ingesters, recent: set<string>, stream: Stream, a: set<string>)
    requires ConflictFree(m) && |a| == 3 && a !! recent
    ensures !(a <= Selected(m, recent, stream, 2))
  {
    SelectedProgresses(m, recent, stream, 2);
    var s := Selected(m, recent, stream, 2);
    if a <= s {
      forall k | k in a ensures k in s - recent {
        assert k !in recent;
      }
      SubsetIsSmaller(a, s - recent);
    }
  }

  /** There are such rings as well. */
  lemma ThreeOneAndNew(y: string, names: seq<string>, z: string, b: string, x: string) returns (past: Ingesters)
    requires y != z && |names| == 3 && b !in names && x != b && x !in names
    requires forall i, j :: 0 <= i < j < |names| ==> names[i] != names[j]
    ensures TwoZones(past, y, Names(names), z, {b}) && |Names(names)| == 3 && x !in past
    ensures TwoZones(past[x := Member(z, 4, 1)], y, Names(names), z, {b} + {x})
    ensures forall k :: k in past ==> past[k].registeredTimestamp == 0
  {
    past := ManyAndOne(y, names, z, b);
    assert x !in Names(names);
    OneMoreMember(past, y, Names(names), z, {b}, x, 4, 1);
  }
}
