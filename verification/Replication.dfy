/** The replica set of a key: the token walk and the filter (Get in ring/ring.go, ring/replication_strategy.go). */
module Replication {
  import opened RingTypes

  /** The source packs the two sets of states into one bitmap. */
  datatype Operation = Operation(healthy: set<InstanceState>, extending: set<InstanceState>)

  const WRITE: Operation := Operation({ACTIVE}, {LEAVING, PENDING, JOINING, LEFT})
  const READ: Operation := Operation({ACTIVE, PENDING, LEAVING}, {PENDING, JOINING, LEFT})

  /** An instance chosen for a key. The source keeps names and entries in two parallel slices. */
  datatype Replica = Replica(id: string, desc: InstanceDesc)

  datatype ReplicationSet = ReplicationSet(instances: seq<Replica>, maxErrors: int, maxUnavailableZones: int)

  datatype Lookup = EmptyRing | InconsistentTokensInfo | TooManyUnhealthy | Found(rs: ReplicationSet)

  function Max(a: int, b: int): int {
    if a > b then a else b
  }

  function Min(a: int, b: int): int {
    if a < b then a else b
  }

  predicate IsHealthy(e: InstanceDesc, op: Operation, timeout: int, now: int) {
    e.state in op.healthy && (timeout == 0 || now - e.timestamp <= timeout)
  }

  function Ids(rs: seq<Replica>): set<string> {
    set i | 0 <= i < |rs| :: rs[i].id
  }

  predicate DistinctIds(rs: seq<Replica>) {
    forall i, j :: 0 <= i < j < |rs| ==> rs[i].id != rs[j].id
  }

  lemma {:induction false} CountIds(rs: seq<Replica>)
    requires DistinctIds(rs)
    ensures |Ids(rs)| == |rs|
  {
    if rs != [] {
      var front := rs[..|rs| - 1];
      CountIds(front);
      var x := rs[|rs| - 1].id;
      assert Ids(rs) == Ids(front) + {x} by { IdsOfAppend(front, rs[|rs| - 1]); assert rs == front + [rs[|rs| - 1]]; }
      assert x !in Ids(front);
    }
  }

  lemma IdsOfAppend(rs: seq<Replica>, r: Replica)
    ensures Ids(rs + [r]) == Ids(rs) + {r.id}
  {
    var all := rs + [r];
    forall x ensures x in Ids(all) <==> x in Ids(rs) + {r.id} {
      if x in Ids(rs) {
        var i :| 0 <= i < |rs| && rs[i].id == x;
        assert all[i].id == x;
      }
      assert all[|rs|].id == r.id;
    }
  }

  // ---------------------------------------------------------------- the filter

  function HealthyOnes(rs: seq<Replica>, op: Operation, timeout: int, now: int): (h: seq<Replica>)
  {
    if rs == [] then []
    else if IsHealthy(rs[0].desc, op, timeout, now) then [rs[0]] + HealthyOnes(rs[1..], op, timeout, now)
    else HealthyOnes(rs[1..], op, timeout, now)
  }

  lemma {:induction false} HealthyOnesAppend(a: seq<Replica>, b: seq<Replica>, op: Operation, timeout: int, now: int)
    ensures HealthyOnes(a + b, op, timeout, now) == HealthyOnes(a, op, timeout, now) + HealthyOnes(b, op, timeout, now)
  {
    if a == [] {
      assert a + b == b;
    } else {
      HealthyOnesAppend(a[1..], b, op, timeout, now);
      assert (a + b)[1..] == a[1..] + b;
    }
  }

  /** Exactly the healthy replicas remain, in the same order and without repetition. */
  lemma {:induction false} HealthyOnesAre(rs: seq<Replica>, op: Operation, timeout: int, now: int)
    ensures forall r :: r in HealthyOnes(rs, op, timeout, now) <==> r in rs && IsHealthy(r.desc, op, timeout, now)
    ensures DistinctIds(rs) ==> DistinctIds(HealthyOnes(rs, op, timeout, now))
    ensures |HealthyOnes(rs, op, timeout, now)| <= |rs|
  {
    if rs != [] {
      HealthyOnesAre(rs[1..], op, timeout, now);
      assert rs == [rs[0]] + rs[1..];
      if DistinctIds(rs) {
        assert DistinctIds(rs[1..]);
        var h := HealthyOnes(rs[1..], op, timeout, now);
        forall i | 0 <= i < |h| ensures h[i].id != rs[0].id {
          assert h[i] in h;
          var k :| 0 <= k < |rs[1..]| && rs[1..][k] == h[i];
        }
      }
    }
  }

  function MinSuccess(replicas: nat, replicationFactor: int): int {
    Max(replicas, replicationFactor) / 2 + 1
  }

  /** defaultReplicationStrategy.Filter: removes unhealthy instances in place and checks that a quorum is left. */
  method Filter(replicas: seq<Replica>, op: Operation, replicationFactor: nat, timeout: int, now: int)
    returns (healthy: seq<Replica>, maxFailures: int, ok: bool)
    ensures ok <==> |HealthyOnes(replicas, op, timeout, now)| >= MinSuccess(|replicas|, replicationFactor)
    ensures ok ==> healthy == HealthyOnes(replicas, op, timeout, now)
    ensures ok ==> |healthy| - maxFailures == MinSuccess(|replicas|, replicationFactor) && 0 <= maxFailures < |healthy|
  {
    var factor := replicationFactor;
    if |replicas| > factor {
      factor := |replicas|;
    }
    var minSuccess := factor / 2 + 1;
    healthy := replicas;
    var i := 0;
    while i < |healthy|
      invariant 0 <= i <= |healthy|
      invariant HealthyOnes(healthy, op, timeout, now) == HealthyOnes(replicas, op, timeout, now)
      invariant HealthyOnes(healthy[..i], op, timeout, now) == healthy[..i]
      decreases |healthy| - i
    {
      var before := healthy;
      assert before == before[..i] + [before[i]] + before[i + 1..];
      HealthyOnesAppend(before[..i] + [before[i]], before[i + 1..], op, timeout, now);
      HealthyOnesAppend(before[..i], [before[i]], op, timeout, now);
      if IsHealthy(healthy[i].desc, op, timeout, now) {
        assert before[..i + 1] == before[..i] + [before[i]];
        i := i + 1;
      } else {
        healthy := healthy[..i] + healthy[i + 1..];
        HealthyOnesAppend(before[..i], before[i + 1..], op, timeout, now);
        assert healthy[..i] == before[..i];
      }
    }
    assert healthy[..i] == healthy;
    if |healthy| < minSuccess {
      return [], 0, false;
    }
    maxFailures, ok := |healthy| - minSuccess, true;
  }

  // ---------------------------------------------------------------- the walk

  datatype Info = Info(instanceID: string, zone: string)

  /** What the walk carries along: the chosen instances, the zones used up, and how many instances it wants. */
  datatype Walk = Walk(replicas: seq<Replica>, zones: seq<string>, wanted: int)

  predicate HasId(rs: seq<Replica>, id: string) {
    exists i :: 0 <= i < |rs| && rs[i].id == id
  }

  function Visit(w: Walk, info: Info, m: Ingesters, op: Operation, zoneAware: bool): Walk {
    if HasId(w.replicas, info.instanceID) then w
    else if zoneAware && info.zone != "" && info.zone in w.zones then w
    else
      var desc := RingTypes.Lookup(m, info.instanceID);
      var extend := desc.state in op.extending;
      Walk(w.replicas + [Replica(info.instanceID, desc)],
           if !extend && zoneAware && info.zone != "" then w.zones + [info.zone] else w.zones,
           if extend then w.wanted + 1 else w.wanted)
  }

  /** The walk over a sequence of token owners; it stops for good once it has enough instances. */
  function WalkOver(infos: seq<Info>, m: Ingesters, op: Operation, factor: int, zoneAware: bool): Walk {
    if infos == [] then Walk([], [], factor)
    else
      var w := WalkOver(infos[..|infos| - 1], m, op, factor, zoneAware);
      if |w.replicas| >= w.wanted then w else Visit(w, infos[|infos| - 1], m, op, zoneAware)
  }

  lemma {:induction false} WalkStaysStopped(infos: seq<Info>, j: nat, m: Ingesters, op: Operation, factor: int,
      zoneAware: bool)
    requires j <= |infos|
    requires var w := WalkOver(infos[..j], m, op, factor, zoneAware); |w.replicas| >= w.wanted
    ensures WalkOver(infos, m, op, factor, zoneAware) == WalkOver(infos[..j], m, op, factor, zoneAware)
  {
    if j < |infos| {
      assert infos[..|infos| - 1][..j] == infos[..j];
      WalkStaysStopped(infos[..|infos| - 1], j, m, op, factor, zoneAware);
    } else {
      assert infos[..j] == infos;
    }
  }

  /** The chosen instances whose state extends the set. */
  function Extending(rs: seq<Replica>, op: Operation): set<string> {
    set i | 0 <= i < |rs| && rs[i].desc.state in op.extending :: rs[i].id
  }

  ghost predicate WalkInv(w: Walk, m: Ingesters, op: Operation, factor: int) {
    && DistinctIds(w.replicas)
    && (forall r :: r in w.replicas ==> r.desc == RingTypes.Lookup(m, r.id))
    && w.wanted == factor + |Extending(w.replicas, op)|
    && |w.replicas| <= Max(w.wanted, 0)
  }

  lemma VisitKeepsInv(w: Walk, info: Info, m: Ingesters, op: Operation, factor: int, zoneAware: bool)
    requires WalkInv(w, m, op, factor) && |w.replicas| < w.wanted
    ensures WalkInv(Visit(w, info, m, op, zoneAware), m, op, factor)
  {
    var w' := Visit(w, info, m, op, zoneAware);
    if w' != w {
      var r := w'.replicas[|w.replicas|];
      assert w'.replicas == w.replicas + [r];
      ExtendingOfAppend(w.replicas, r, op);
      assert r.id !in Extending(w.replicas, op);
    }
  }

  lemma ExtendingOfAppend(rs: seq<Replica>, r: Replica, op: Operation)
    ensures Extending(rs + [r], op) == Extending(rs, op) + (if r.desc.state in op.extending then {r.id} else {})
  {
    var all := rs + [r];
    forall x ensures x in Extending(all, op) <==>
      x in Extending(rs, op) || (r.desc.state in op.extending && x == r.id)
    {
      if x in Extending(rs, op) {
        var i :| 0 <= i < |rs| && rs[i].desc.state in op.extending && rs[i].id == x;
        assert all[i] == rs[i];
      }
      assert all[|rs|] == r;
    }
  }

  /** The walk chooses distinct instances and never more than factor of them that do not extend the set. */
  lemma {:induction false} WalkKeepsInv(infos: seq<Info>, m: Ingesters, op: Operation, factor: nat, zoneAware: bool)
    ensures WalkInv(WalkOver(infos, m, op, factor, zoneAware), m, op, factor)
  {
    if infos == [] {
      assert Extending([], op) == {};
    } else {
      var front := infos[..|infos| - 1];
      WalkKeepsInv(front, m, op, factor, zoneAware);
      var w := WalkOver(front, m, op, factor, zoneAware);
      if |w.replicas| < w.wanted {
        VisitKeepsInv(w, infos[|infos| - 1], m, op, factor, zoneAware);
      }
    }
  }

  ghost predicate OwnsOne(infos: seq<Info>, id: string) {
    exists i :: 0 <= i < |infos| && infos[i].instanceID == id
  }

  /** Every chosen instance owns a visited token. */
  lemma {:induction false} WalkFindsOwners(infos: seq<Info>, m: Ingesters, op: Operation, factor: int, zoneAware: bool)
    ensures forall r :: r in WalkOver(infos, m, op, factor, zoneAware).replicas ==> OwnsOne(infos, r.id)
  {
    if infos != [] {
      var front := infos[..|infos| - 1];
      WalkFindsOwners(front, m, op, factor, zoneAware);
      var w := WalkOver(front, m, op, factor, zoneAware);
      forall r | r in WalkOver(infos, m, op, factor, zoneAware).replicas
        ensures OwnsOne(infos, r.id)
      {
        if r in w.replicas {
          var i :| 0 <= i < |front| && front[i].instanceID == r.id;
          assert infos[i].instanceID == r.id;
        } else {
          assert infos[|infos| - 1].instanceID == r.id;
        }
      }
    }
  }
}
