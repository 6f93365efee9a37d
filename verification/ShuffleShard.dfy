/** Which instances shuffle sharding selects (ring/ring.go). */
module ShuffleShard {
  import opened RingTypes
  import opened Conflicts
  import opened Sets
  import WholeRing

  // For every pseudo-random stream: ShuffleShard and ShuffleShardWithLookback, and searchToken in ring/util.go.

  /** How far walking clockwise from a drawn number it is to a token; the token equal to the number comes last. */
  function Distance(key: Token, t: Token): int {
    if t > key then t - key - 1 else t - key - 1 + TOKEN_SPACE
  }

  /** The draws of the generator that is seeded for one identifier and zone. */
  type Stream = nat -> Token

  /** All tokens of a ring. */
  function Tokens(m: Ingesters): set<Token> {
    set k, t | k in m && t in m[k].tokens :: t
  }

  ghost predicate Owns(m: Ingesters, k: string, t: Token) {
    k in m && t in m[k].tokens
  }

  /** The tokens whose owners have not been selected. */
  ghost function Open(m: Ingesters, shard: set<string>): set<Token> {
    set t | t in Tokens(m) && exists k :: Owns(m, k, t) && k !in shard
  }

  ghost predicate IsNearest(c: set<Token>, key: Token, t: Token) {
    t in c && forall u :: u in c ==> Distance(key, t) <= Distance(key, u)
  }

  lemma {:induction false} NearestExists(c: set<Token>, key: Token)
    requires c != {}
    ensures exists t :: IsNearest(c, key, t)
  {
    var x :| x in c;
    var rest := c - {x};
    if rest == {} {
      assert c == {x};
      assert IsNearest(c, key, x);
    } else {
      NearestExists(rest, key);
      var y :| IsNearest(rest, key, y);
      var best := if Distance(key, x) < Distance(key, y) then x else y;
      forall u | u in c ensures Distance(key, best) <= Distance(key, u) {
        assert u == x || u in rest;
      }
      assert IsNearest(c, key, best);
    }
  }

  ghost function Nearest(c: set<Token>, key: Token): (t: Token)
    requires c != {}
    ensures IsNearest(c, key, t)
  {
    NearestExists(c, key);
    var t :| IsNearest(c, key, t);
    t
  }

  lemma NearestIsUnique(c: set<Token>, key: Token, t: Token)
    requires IsNearest(c, key, t)
    ensures Nearest(c, key) == t
  {
  }

  ghost function OwnerOf(m: Ingesters, t: Token): (k: string)
    requires t in Tokens(m)
    ensures Owns(m, k, t)
  {
    var k :| k in m && t in m[k].tokens;
    k
  }

  /** One more owner is selected: the open tokens become fewer. */
  lemma OpenShrinks(m: Ingesters, shard: set<string>, t: Token)
    requires ConflictFree(m) && t in Open(m, shard)
    ensures Open(m, shard + {OwnerOf(m, t)}) < Open(m, shard)
    ensures |Open(m, shard + {OwnerOf(m, t)})| < |Open(m, shard)|
  {
    var k := OwnerOf(m, t);
    var next := Open(m, shard + {k});
    assert t !in next;
    assert next <= Open(m, shard);
    assert |Open(m, shard) - next| == |Open(m, shard)| - |next|;
  }

  /**
   * One draw: walking from the drawn number, the first instance not yet selected is added. As long as the added
   * instance is a recent one, the walk goes on. The flag says whether an instance that is not recent was found.
   */
  ghost function Draw(m: Ingesters, recent: set<string>, shard: set<string>, key: Token): (set<string>, bool)
    requires ConflictFree(m)
    decreases |Open(m, shard)|
  {
    var c := Open(m, shard);
    if c == {} then (shard, false)
    else
      var t := Nearest(c, key);
      var k := OwnerOf(m, t);
      OpenShrinks(m, shard, t);
      if k in recent then Draw(m, recent, shard + {k}, key) else (shard + {k}, true)
  }

  /** The instances selected from one zone by the first n draws. */
  ghost function Selected(m: Ingesters, recent: set<string>, stream: Stream, n: nat): set<string>
    requires ConflictFree(m)
  {
    if n == 0 then {} else Draw(m, recent, Selected(m, recent, stream, n - 1), stream(n - 1)).0
  }

  // ---------------------------------------------------------------- one zone

  lemma {:induction false} DrawAdds(m: Ingesters, recent: set<string>, shard: set<string>, key: Token)
    requires ConflictFree(m)
    ensures shard <= Draw(m, recent, shard, key).0 <= shard + m.Keys
    ensures !Draw(m, recent, shard, key).1 ==> Open(m, Draw(m, recent, shard, key).0) == {}
    decreases |Open(m, shard)|
  {
    var c := Open(m, shard);
    if c != {} {
      var t := Nearest(c, key);
      var k := OwnerOf(m, t);
      OpenShrinks(m, shard, t);
      if k in recent {
        DrawAdds(m, recent, shard + {k}, key);
      }
    }
  }

  lemma {:induction false} SelectedGrows(m: Ingesters, recent: set<string>, stream: Stream, n: nat, n': nat)
    requires ConflictFree(m) && n <= n'
    ensures Selected(m, recent, stream, n) <= Selected(m, recent, stream, n')
  {
    if n < n' {
      SelectedGrows(m, recent, stream, n, n' - 1);
      DrawAdds(m, recent, Selected(m, recent, stream, n' - 1), stream(n' - 1));
    }
  }

  lemma {:induction false} SelectedAreMembers(m: Ingesters, recent: set<string>, stream: Stream, n: nat)
    requires ConflictFree(m)
    ensures Selected(m, recent, stream, n) <= m.Keys
  {
    if n > 0 {
      SelectedAreMembers(m, recent, stream, n - 1);
      DrawAdds(m, recent, Selected(m, recent, stream, n - 1), stream(n - 1));
    }
  }

  /** Once a draw finds nothing, further draws change nothing: the loop may stop. */
  lemma {:induction false} NothingMoreToSelect(m: Ingesters, recent: set<string>, stream: Stream, n: nat, n': nat)
    requires ConflictFree(m) && n <= n' && Open(m, Selected(m, recent, stream, n)) == {}
    ensures Selected(m, recent, stream, n') == Selected(m, recent, stream, n)
  {
    if n < n' {
      NothingMoreToSelect(m, recent, stream, n, n' - 1);
    }
  }

  // ---------------------------------------------------------------- removing an instance

  lemma OwnersWithout(m: Ingesters, x: string, k: string, t: Token)
    ensures Owns(m - {x}, k, t) <==> k != x && Owns(m, k, t)
  {
  }

  lemma FewerConflicts(m: Ingesters, x: string)
    requires ConflictFree(m)
    ensures ConflictFree(m - {x})
  {
  }

  lemma OpenOwner(m: Ingesters, shard: set<string>, k: string, t: Token)
    requires ConflictFree(m) && Owns(m, k, t)
    ensures t in Tokens(m) && OwnerOf(m, t) == k
    ensures t in Open(m, shard) <==> k !in shard
  {
  }

  /** What is open without x, after selecting other instances, is what is open with x as if x had been selected too. */
  lemma OpenWithout(m: Ingesters, x: string, shard: set<string>)
    requires ConflictFree(m)
    ensures Open(m - {x}, shard) == Open(m, shard + {x})
  {
    FewerConflicts(m, x);
    forall t: Token ensures t in Open(m - {x}, shard) <==> t in Open(m, shard + {x}) {
      if t in Open(m - {x}, shard) {
        var k :| Owns(m - {x}, k, t) && k !in shard;
        OwnersWithout(m, x, k, t);
        OpenOwner(m, shard + {x}, k, t);
      }
      if t in Open(m, shard + {x}) {
        var k :| Owns(m, k, t) && k !in shard + {x};
        OwnersWithout(m, x, k, t);
        OpenOwner(m - {x}, shard, k, t);
      }
    }
  }

  /** A draw without recent instances selects the owner of the nearest open token. */
  lemma PlainDraw(m: Ingesters, shard: set<string>, key: Token)
    requires ConflictFree(m)
    ensures Open(m, shard) == {} ==> Draw(m, {}, shard, key).0 == shard
    ensures Open(m, shard) != {} ==> Draw(m, {}, shard, key).0 == shard + {OwnerOf(m, Nearest(Open(m, shard), key))}
  {
  }

  /**
   * The two selections agree, or x has been selected on one side and at most one instance stands in for it on the
   * other; if none does, nothing else was left to select.
   */
  ghost predicate OneApart(m: Ingesters, x: string, s: set<string>, s': set<string>) {
    || (x !in s && s' == s)
    || (x in s && x !in s' && exists y :: StandsIn(x, s, s', y))
    || (x in s && s' == s - {x} && Open(m, s) == {})
  }

  ghost predicate StandsIn(x: string, s: set<string>, s': set<string>, y: string) {
    y != x && y !in s && s' == s - {x} + {y}
  }

  lemma NearestOfFewer(c: set<Token>, c': set<Token>, key: Token)
    requires c' <= c && c != {} && Nearest(c, key) in c'
    ensures Nearest(c', key) == Nearest(c, key)
  {
    assert IsNearest(c', key, Nearest(c, key));
    NearestIsUnique(c', key, Nearest(c, key));
  }

  lemma OpenWithMore(m: Ingesters, s: set<string>, y: string)
    ensures Open(m, s + {y}) <= Open(m, s)
  {
  }

  /** Both sides are offered c and c' <= c. Unless the nearest of c belongs to y, both take the same instance. */
  lemma SamePick(m: Ingesters, x: string, s: set<string>, y: string, key: Token)
    requires ConflictFree(m) && ConflictFree(m - {x}) && Open(m, s) != {} && (y == x || x in s)
    requires OwnerOf(m, Nearest(Open(m, s), key)) != y
    ensures var t := Nearest(Open(m, s), key);
      && t in Open(m, s + {y}) && Nearest(Open(m, s + {y}), key) == t
      && t in Tokens(m - {x}) && OwnerOf(m - {x}, t) == OwnerOf(m, t)
  {
    var c := Open(m, s);
    var t := Nearest(c, key);
    var k := OwnerOf(m, t);
    OpenOwner(m, s, k, t);
    OpenOwner(m, s + {y}, k, t);
    OpenWithMore(m, s, y);
    NearestOfFewer(c, Open(m, s + {y}), key);
    OwnersWithout(m, x, k, t);
    OpenOwner(m - {x}, s, k, t);
  }

  /** The owner that m - {x} selects instead. */
  lemma OtherPick(m: Ingesters, x: string, shard: set<string>, key: Token)
    requires ConflictFree(m) && ConflictFree(m - {x}) && Open(m - {x}, shard) != {}
    ensures var k := OwnerOf(m - {x}, Nearest(Open(m - {x}, shard), key)); k != x && k !in shard
  {
    var t := Nearest(Open(m - {x}, shard), key);
    var k := OwnerOf(m - {x}, t);
    OpenOwner(m - {x}, shard, k, t);
    OwnersWithout(m, x, k, t);
  }

  lemma SameSoFar(m: Ingesters, x: string, s: set<string>, key: Token)
    requires ConflictFree(m) && ConflictFree(m - {x}) && x !in s
    ensures OneApart(m, x, Draw(m, {}, s, key).0, Draw(m - {x}, {}, s, key).0)
  {
    var m' := m - {x};
    PlainDraw(m, s, key);
    PlainDraw(m', s, key);
    OpenWithout(m, x, s);
    OpenWithMore(m, s, x);
    if Open(m, s) != {} {
      var k := OwnerOf(m, Nearest(Open(m, s), key));
      if k != x {
        SamePick(m, x, s, x, key);
      } else if Open(m', s) != {} {
        OtherPick(m, x, s, key);
        assert StandsIn(x, s + {x}, Draw(m', {}, s, key).0, OwnerOf(m', Nearest(Open(m', s), key)));
      }
    }
  }

  lemma StandInSoFar(m: Ingesters, x: string, s: set<string>, s': set<string>, y: string, key: Token)
    requires ConflictFree(m) && ConflictFree(m - {x}) && x in s && StandsIn(x, s, s', y)
    ensures OneApart(m, x, Draw(m, {}, s, key).0, Draw(m - {x}, {}, s', key).0)
  {
    var m' := m - {x};
    PlainDraw(m, s, key);
    PlainDraw(m', s', key);
    OpenWithout(m, x, s');
    assert s' + {x} == s + {y};
    OpenWithMore(m, s, y);
    if Open(m, s) == {} {
      assert StandsIn(x, s, s', y);
    } else {
      var k := OwnerOf(m, Nearest(Open(m, s), key));
      OpenOwner(m, s, k, Nearest(Open(m, s), key));
      if k != y {
        SamePick(m, x, s, y, key);
        assert StandsIn(x, s + {k}, s' + {k}, y);
      } else if Open(m', s') != {} {
        OtherPick(m, x, s', key);
        assert StandsIn(x, s + {y}, Draw(m', {}, s', key).0, OwnerOf(m', Nearest(Open(m', s'), key)));
      } else {
        assert s' == s + {y} - {x};
      }
    }
  }

  lemma DrawKeepsOneApart(m: Ingesters, x: string, s: set<string>, s': set<string>, key: Token)
    requires ConflictFree(m) && ConflictFree(m - {x}) && OneApart(m, x, s, s')
    ensures OneApart(m, x, Draw(m, {}, s, key).0, Draw(m - {x}, {}, s', key).0)
  {
    var m' := m - {x};
    PlainDraw(m, s, key);
    PlainDraw(m', s', key);
    OpenWithout(m, x, s');
    if x !in s && s' == s {
      SameSoFar(m, x, s, key);
    } else if x in s && x !in s' && exists y :: StandsIn(x, s, s', y) {
      var y :| StandsIn(x, s, s', y);
      StandInSoFar(m, x, s, s', y, key);
    } else {
      assert s' + {x} == s;
    }
  }

  lemma {:induction false} SelectionsStayOneApart(m: Ingesters, x: string, stream: Stream, n: nat)
    requires ConflictFree(m) && ConflictFree(m - {x})
    ensures OneApart(m, x, Selected(m, {}, stream, n), Selected(m - {x}, {}, stream, n))
  {
    if n > 0 {
      SelectionsStayOneApart(m, x, stream, n - 1);
      DrawKeepsOneApart(m, x, Selected(m, {}, stream, n - 1), Selected(m - {x}, {}, stream, n - 1), stream(n - 1));
    }
  }

  lemma OneApartCounts(m: Ingesters, x: string, s: set<string>, s': set<string>)
    requires OneApart(m, x, s, s')
    ensures s - s' <= {x} && |s' - s| <= 1
  {
    if x in s && x !in s' && exists y :: StandsIn(x, s, s', y) {
      var y :| StandsIn(x, s, s', y);
      assert s' - s == {y};
    } else {
      assert s' - s == {};
    }
  }

  // ---------------------------------------------------------------- looking back

  /**
   * past is an earlier ring, now the current one. Instances in both have the same tokens, and instances that are not
   * recent were there in the past.
   */
  ghost predicate Continues(past: Ingesters, now: Ingesters, recent: set<string>) {
    && (forall k :: k in past && k in now ==> past[k].tokens == now[k].tokens)
    && (forall k :: k in now && k !in recent ==> k in past)
  }

  /**
   * The walk of the current ring, started from a shard that covers the past one, reaches p, the instance that the
   * past ring selects with the same draw: whatever comes before p is recent, so the walk goes on.
   */
  lemma {:induction false} WalkReaches(
    past: Ingesters, now: Ingesters, recent: set<string>, prior: set<string>, shard: set<string>, key: Token, p: string,
    t: Token)
    requires ConflictFree(past) && ConflictFree(now) && Continues(past, now, recent)
    requires prior * now.Keys <= shard
    requires IsNearest(Open(past, prior), key, t) && Owns(past, p, t) && p in now && p !in prior
    ensures p in Draw(now, recent, shard, key).0
    decreases |Open(now, shard)|
  {
    if p in shard {
      DrawAdds(now, recent, shard, key);
    } else {
      OpenOwner(now, shard, p, t);
      var c := Open(now, shard);
      var u := Nearest(c, key);
      var q := OwnerOf(now, u);
      OpenShrinks(now, shard, u);
      if q in recent {
        WalkReaches(past, now, recent, prior, shard + {q}, key, p, t);
      } else {
        OpenOwner(now, shard, q, u);
        OpenOwner(past, prior, q, u);
        assert Distance(key, t) == Distance(key, u);
        assert u == t;
        OpenOwner(now, shard, p, t);
      }
    }
  }

  /** Draw by draw, the current shard with lookback covers what is left of the past shard. */
  lemma {:induction false} LookbackCovers(past: Ingesters, now: Ingesters, recent: set<string>, stream: Stream, n: nat)
    requires ConflictFree(past) && ConflictFree(now) && Continues(past, now, recent)
    ensures Selected(past, {}, stream, n) * now.Keys <= Selected(now, recent, stream, n)
  {
    if n > 0 {
      LookbackCovers(past, now, recent, stream, n - 1);
      var prior, shard, key := Selected(past, {}, stream, n - 1), Selected(now, recent, stream, n - 1), stream(n - 1);
      PlainDraw(past, prior, key);
      DrawAdds(now, recent, shard, key);
      if Open(past, prior) != {} {
        var t := Nearest(Open(past, prior), key);
        var p := OwnerOf(past, t);
        OpenOwner(past, prior, p, t);
        if p in now {
          WalkReaches(past, now, recent, prior, shard, key, p, t);
        }
      }
    }
  }

  // ---------------------------------------------------------------- the whole ring

  /** One stream per zone; without zones, that of the empty zone name. */
  type Streams = (string, nat) -> Token

  function StreamOf(streams: Streams, zone: string): Stream {
    (n: nat) => streams(zone, n)
  }

  function InZone(m: Ingesters, zone: string): Ingesters {
    map k | k in m && m[k].zone == zone :: m[k]
  }

  /** ShuffleShardExpectedInstancesPerZone: the shard size divided by the number of zones, rounded up. */
  function PerZone(size: nat, zones: nat): nat
    requires zones > 0
  {
    (size + zones - 1) / zones
  }

  /** The instances of the subring. */
  ghost function Shard(m: Ingesters, zoneAware: bool, streams: Streams, size: nat, recent: set<string>): set<string>
    requires ConflictFree(m)
  {
    if !zoneAware then Selected(m, recent, StreamOf(streams, ""), size)
    else set k | k in m && InZoneShard(m, streams, size, recent, m[k].zone, k)
  }

  ghost predicate InZoneShard(m: Ingesters, streams: Streams, size: nat, recent: set<string>, zone: string, k: string)
    requires ConflictFree(m) && zone in WholeRing.Zones(m)
  {
    k in Selected(InZone(m, zone), recent, StreamOf(streams, zone), PerZone(size, |WholeRing.Zones(m)|))
  }

  lemma MoreInstancesPerZone(size: nat, size': nat, zones: nat)
    requires zones > 0 && size <= size'
    ensures PerZone(size, zones) <= PerZone(size', zones)
  {
    DivisionIsMonotonic(size + zones - 1, size' + zones - 1, zones);
  }

  lemma DivisionIsMonotonic(a: nat, b: nat, d: nat)
    requires d > 0 && a <= b
    ensures a / d <= b / d
  {
    MultiplesAreMonotonic(a / d, b / d, d);
  }

  lemma MultiplesAreMonotonic(p: int, q: int, d: nat)
    ensures p > q ==> p * d >= q * d + d
  {
    if p > q {
      assert (p - q - 1) * d >= 0;
    }
  }

  lemma SomeZone(m: Ingesters, k: string)
    requires k in m
    ensures m[k].zone in WholeRing.Zones(m) && |WholeRing.Zones(m)| > 0
  {
  }

  /** Growing the shard size only adds instances. */
  lemma ShardGrows(m: Ingesters, zoneAware: bool, streams: Streams, size: nat, size': nat, recent: set<string>)
    requires ConflictFree(m) && size <= size'
    ensures Shard(m, zoneAware, streams, size, recent) <= Shard(m, zoneAware, streams, size', recent)
  {
    if !zoneAware {
      SelectedGrows(m, recent, StreamOf(streams, ""), size, size');
    } else {
      forall k | k in Shard(m, true, streams, size, recent) ensures k in Shard(m, true, streams, size', recent) {
        var zone, zones := m[k].zone, |WholeRing.Zones(m)|;
        SomeZone(m, k);
        MoreInstancesPerZone(size, size', zones);
        SelectedGrows(InZone(m, zone), recent, StreamOf(streams, zone), PerZone(size, zones), PerZone(size', zones));
      }
    }
  }

  /**
   * Consistency: removing x from a ring (or adding it back) changes the shard by at most one instance in and one
   * instance out, whatever the streams, provided the set of zones stays the same.
   */
  lemma ShardIsConsistent(m: Ingesters, x: string, zoneAware: bool, streams: Streams, size: nat)
    requires ConflictFree(m) && ConflictFree(m - {x})
    requires zoneAware ==> WholeRing.Zones(m - {x}) == WholeRing.Zones(m)
    ensures var s, s' := Shard(m, zoneAware, streams, size, {}), Shard(m - {x}, zoneAware, streams, size, {});
      s - s' <= {x} && |s' - s| <= 1
  {
    var s, s' := Shard(m, zoneAware, streams, size, {}), Shard(m - {x}, zoneAware, streams, size, {});
    if !zoneAware {
      SelectionsStayOneApart(m, x, StreamOf(streams, ""), size);
      OneApartCounts(m, x, s, s');
    } else if x !in m {
      assert m - {x} == m;
    } else {
      ConsistentWithZones(m, x, streams, size);
    }
  }

  lemma ConsistentWithZones(m: Ingesters, x: string, streams: Streams, size: nat)
    requires ConflictFree(m) && ConflictFree(m - {x}) && x in m
    requires WholeRing.Zones(m - {x}) == WholeRing.Zones(m)
    ensures var s, s' := Shard(m, true, streams, size, {}), Shard(m - {x}, true, streams, size, {});
      s - s' <= {x} && |s' - s| <= 1
  {
    SomeZone(m, x);
    var s, s' := Shard(m, true, streams, size, {}), Shard(m - {x}, true, streams, size, {});
    var zone := m[x].zone;
    var stream, n := StreamOf(streams, zone), PerZone(size, |WholeRing.Zones(m)|);
    var here := InZone(m, zone);
    var a, a' := Selected(here, {}, stream, n), Selected(here - {x}, {}, stream, n);
    SelectionsStayOneApart(here, x, stream, n);
    OneApartCounts(here, x, a, a');
    SelectedAreMembers(here, {}, stream, n);
    SelectedAreMembers(here - {x}, {}, stream, n);
    forall k | k in s - s' ensures k in {x} {
      OtherZonesAgree(m, x, streams, size, k);
      SameZoneAgrees(m, x, streams, size, k);
      assert k in a - a';
    }
    forall k | k in s' - s ensures k in a' - a {
      OtherZonesAgree(m, x, streams, size, k);
      SameZoneAgrees(m, x, streams, size, k);
    }
    SubsetIsSmaller(s' - s, a' - a);
  }

  lemma OtherZonesAgree(m: Ingesters, x: string, streams: Streams, size: nat, k: string)
    requires ConflictFree(m) && ConflictFree(m - {x}) && x in m
    requires WholeRing.Zones(m - {x}) == WholeRing.Zones(m)
    ensures k !in m || m[k].zone != m[x].zone ==>
      (k in Shard(m, true, streams, size, {}) <==> k in Shard(m - {x}, true, streams, size, {}))
  {
    if k in m && m[k].zone != m[x].zone {
      assert InZone(m - {x}, m[k].zone) == InZone(m, m[k].zone);
    }
  }

  lemma SameZoneAgrees(m: Ingesters, x: string, streams: Streams, size: nat, k: string)
    requires ConflictFree(m) && ConflictFree(m - {x}) && x in m && |WholeRing.Zones(m)| > 0
    requires WholeRing.Zones(m - {x}) == WholeRing.Zones(m)
    ensures var zone := m[x].zone;
      var here, stream, n := InZone(m, zone), StreamOf(streams, zone), PerZone(size, |WholeRing.Zones(m)|);
      k in m && m[k].zone == zone ==>
        && (k in Shard(m, true, streams, size, {}) <==> k in Selected(here, {}, stream, n))
        && (k in Shard(m - {x}, true, streams, size, {}) <==> k != x && k in Selected(here - {x}, {}, stream, n))
  {
    assert InZone(m - {x}, m[x].zone) == InZone(m, m[x].zone) - {x};
  }

  /** The instances registered within the lookback period; without one, none. */
  function Recent(m: Ingesters, lookback: int, lookbackUntil: int): set<string> {
    set k | k in m && lookback > 0 && m[k].registeredTimestamp >= lookbackUntil
  }

  /**
   * Lookback covers history: every instance of a past shard that is still in the ring is in the current shard with
   * lookback, if the current size is no smaller, whatever was added or removed in between.
   */
  lemma LookbackCoversPastShard(
    past: Ingesters, now: Ingesters, zoneAware: bool, streams: Streams, size: nat, size': nat, lookback: int,
    until: int)
    requires ConflictFree(past) && ConflictFree(now) && size <= size'
    requires Continues(past, now, Recent(now, lookback, until))
    requires zoneAware ==> WholeRing.Zones(past) == WholeRing.Zones(now)
    requires zoneAware ==> forall k :: k in past && k in now ==> past[k].zone == now[k].zone
    ensures Shard(past, zoneAware, streams, size, {}) * now.Keys
      <= Shard(now, zoneAware, streams, size', Recent(now, lookback, until))
  {
    var recent := Recent(now, lookback, until);
    if !zoneAware {
      LookbackCovers(past, now, recent, StreamOf(streams, ""), size);
      SelectedGrows(now, recent, StreamOf(streams, ""), size, size');
    } else {
      forall k | k in Shard(past, true, streams, size, {}) && k in now
        ensures k in Shard(now, true, streams, size', recent) {
        var zone, zones := now[k].zone, |WholeRing.Zones(now)|;
        SomeZone(now, k);
        LookbackCovers(InZone(past, zone), InZone(now, zone), recent, StreamOf(streams, zone), PerZone(size, zones));
        MoreInstancesPerZone(size, size', zones);
        SelectedGrows(InZone(now, zone), recent, StreamOf(streams, zone), PerZone(size, zones), PerZone(size', zones));
      }
    }
  }
}
