/** Reads over the whole ring (GetReplicationSetForOperation in ring/ring.go) against quorum writes to any key. */
module WholeRing {
  import opened RingTypes
  import opened Replication
  import opened Quorums
  import opened Sets

  function Zones(m: Ingesters): set<string> {
    set k | k in m :: m[k].zone
  }

  function Healthy(m: Ingesters, op: Operation, timeout: int, now: int): set<string> {
    set k | k in m && IsHealthy(m[k], op, timeout, now)
  }

  function FailedZones(m: Ingesters, op: Operation, timeout: int, now: int): set<string> {
    set k | k in m && !IsHealthy(m[k], op, timeout, now) :: m[k].zone
  }

  /** With zones: how many may be unavailable. */
  function MaxUnavailableZones(zones: nat, factor: int): int {
    Min(zones, factor) / 2 + 1 - 1
  }

  /** Without zones: how many instances must answer. */
  function RequiredInstances(instances: nat, factor: int): int {
    Max(instances, factor) - factor / 2
  }

  /** The possible results; the order of the instances is that of a Go map. */
  ghost predicate IsWholeRing(m: Ingesters, op: Operation, factor: nat, zoneAware: bool, timeout: int, now: int,
      l: Lookup) {
    var healthy, failed := Healthy(m, op, timeout, now), FailedZones(m, op, timeout, now);
    var tolerated := MaxUnavailableZones(|Zones(m)|, factor);
    var required := RequiredInstances(|m|, factor);
    if (if zoneAware then |failed| > tolerated else |healthy| < required) then
      l == TooManyUnhealthy
    else if zoneAware then
      l.Found? && Lists(l.rs, m, set k | k in healthy && m[k].zone !in failed)
      && l.rs.maxErrors == 0 && l.rs.maxUnavailableZones == tolerated - |failed|
    else
      l.Found? && Lists(l.rs, m, healthy)
      && l.rs.maxErrors == |healthy| - required && l.rs.maxUnavailableZones == 0
  }

  ghost predicate Lists(rs: ReplicationSet, m: Ingesters, ids: set<string>) {
    && DistinctIds(rs.instances) && Ids(rs.instances) == ids && ids <= m.Keys
    && forall r :: r in rs.instances ==> r.id in m && r.desc == m[r.id]
  }

  /** The zones of a replication set, and those in which every instance has answered. */
  function ZonesOf(rs: ReplicationSet): set<string> {
    set i | 0 <= i < |rs.instances| :: rs.instances[i].desc.zone
  }

  predicate ZoneAnswered(rs: ReplicationSet, answered: set<string>, zone: string) {
    forall r :: r in rs.instances && r.desc.zone == zone ==> r.id in answered
  }

  function AnsweredZones(rs: ReplicationSet, answered: set<string>): set<string> {
    set z | z in ZonesOf(rs) && ZoneAnswered(rs, answered, z)
  }

  /** What ReplicationSet.Do waits for before it returns results. */
  predicate DoSucceeded(rs: ReplicationSet, answered: set<string>) {
    answered <= Ids(rs.instances)
    && if rs.maxUnavailableZones > 0 then |AnsweredZones(rs, answered)| >= |ZonesOf(rs)| - rs.maxUnavailableZones
       else |answered| >= |rs.instances| - rs.maxErrors
  }

  /** Owners of tokens are known to the ring, with their zones. */
  ghost predicate Coherent(infos: seq<Info>, m: Ingesters) {
    forall i :: 0 <= i < |infos| ==> infos[i].instanceID in m && m[infos[i].instanceID].zone == infos[i].zone
  }

  lemma WalkStaysInRing(infos: seq<Info>, m: Ingesters, op: Operation, factor: nat, zoneAware: bool)
    requires Coherent(infos, m)
    ensures forall r :: r in WalkOver(infos, m, op, factor, zoneAware).replicas ==> r.id in m && r.desc == m[r.id]
  {
    WalkFindsOwners(infos, m, op, factor, zoneAware);
    WalkKeepsInv(infos, m, op, factor, zoneAware);
    forall r | r in WalkOver(infos, m, op, factor, zoneAware).replicas ensures r.id in m && r.desc == m[r.id] {
      assert OwnsOne(infos, r.id);
    }
  }

  /** A success set of a write: more than half the factor, all of them known ACTIVE instances. */
  lemma WriteReachesHalf(
    infos: seq<Info>, m: Ingesters, factor: nat, zoneAware: bool, timeout: int, now: int, written: set<string>)
    requires Coherent(infos, m)
    requires var w := Select(infos, m, WRITE, factor, zoneAware, timeout, now); w.Found? && IsSuccessSet(w.rs, written)
    ensures |written| >= factor / 2 + 1
    ensures written <= m.Keys
    ensures written <= InState(WalkOver(infos, m, WRITE, factor, zoneAware).replicas, ACTIVE)
  {
    var ws := WalkOver(infos, m, WRITE, factor, zoneAware).replicas;
    WalkKeepsInv(infos, m, WRITE, factor, zoneAware);
    WalkStaysInRing(infos, m, WRITE, factor, zoneAware);
    HealthyForWrite(ws, timeout, now);
    forall x | x in written ensures x in m {
      assert x in InState(ws, ACTIVE);
      var i :| 0 <= i < |ws| && ws[i].desc.state == ACTIVE && ws[i].id == x;
      assert ws[i] in ws;
    }
  }

  /** Without zones: any successful whole-ring read includes an instance of any successful write to any key. */
  lemma WholeRingReadSeesWrites(
    infos: seq<Info>, m: Ingesters, factor: nat, op: Operation, timeout: int, writeTime: int, readTime: int,
    written: set<string>, l: Lookup, answered: set<string>)
    requires Coherent(infos, m)
    requires var w := Select(infos, m, WRITE, factor, false, timeout, writeTime);
      w.Found? && IsSuccessSet(w.rs, written)
    requires IsWholeRing(m, op, factor, false, timeout, readTime, l) && l.Found? && DoSucceeded(l.rs, answered)
    ensures written * answered != {}
  {
    WriteReachesHalf(infos, m, factor, false, timeout, writeTime, written);
    CountIds(l.rs.instances);
    assert m.Keys + m.Keys == m.Keys;
    TooManyToMiss(m.Keys, m.Keys, written, answered);
  }

  // ---------------------------------------------------------------- with zones

  /** The chosen instances that do not extend the set lie in different zones, all of which are used up. */
  ghost predicate ZonesInv(w: Walk, op: Operation) {
    && (forall i :: 0 <= i < |w.replicas| && w.replicas[i].desc.state !in op.extending && w.replicas[i].desc.zone != ""
          ==> w.replicas[i].desc.zone in w.zones)
    && (forall i, j :: 0 <= i < j < |w.replicas|
          && w.replicas[i].desc.state !in op.extending && w.replicas[i].desc.zone != ""
          && w.replicas[j].desc.state !in op.extending
          ==> w.replicas[i].desc.zone != w.replicas[j].desc.zone)
  }

  lemma VisitKeepsZones(w: Walk, info: Info, m: Ingesters, op: Operation)
    requires ZonesInv(w, op) && info.instanceID in m && m[info.instanceID].zone == info.zone
    ensures ZonesInv(Visit(w, info, m, op, true), op)
  {
    var w' := Visit(w, info, m, op, true);
    if w' != w {
      var n := |w.replicas|;
      assert w'.replicas[n].desc == m[info.instanceID];
      assert forall i :: 0 <= i < n ==> w'.replicas[i] == w.replicas[i];
      assert forall z :: z in w.zones ==> z in w'.zones;
    }
  }

  lemma {:induction false} WalkKeepsZones(infos: seq<Info>, m: Ingesters, op: Operation, factor: nat)
    requires Coherent(infos, m)
    ensures ZonesInv(WalkOver(infos, m, op, factor, true), op)
  {
    if infos != [] {
      var front := infos[..|infos| - 1];
      WalkKeepsZones(front, m, op, factor);
      var w := WalkOver(front, m, op, factor, true);
      if |w.replicas| < w.wanted {
        VisitKeepsZones(w, infos[|infos| - 1], m, op);
      }
    }
  }

  function ZonesAt(m: Ingesters, ids: set<string>): set<string>
    requires ids <= m.Keys
  {
    set k | k in ids :: m[k].zone
  }

  lemma {:induction false} DistinctZonesCount(m: Ingesters, ids: set<string>)
    requires ids <= m.Keys
    requires forall j, k :: j in ids && k in ids && j != k ==> m[j].zone != m[k].zone
    ensures |ZonesAt(m, ids)| == |ids|
  {
    if ids != {} {
      var x :| x in ids;
      var rest := ids - {x};
      DistinctZonesCount(m, rest);
      assert m[x].zone !in ZonesAt(m, rest);
      assert ZonesAt(m, ids) == ZonesAt(m, rest) + {m[x].zone};
    }
  }

  lemma TwoActiveTwoZones(m: Ingesters, w: Walk, j: string, k: string)
    requires ZonesInv(w, WRITE) && j in m && k in m && j != k && m[j].zone != "" && m[k].zone != ""
    requires forall r :: r in w.replicas ==> r.id in m && r.desc == m[r.id]
    requires j in InState(w.replicas, ACTIVE) && k in InState(w.replicas, ACTIVE)
    ensures m[j].zone != m[k].zone
  {
    var ws := w.replicas;
    var a :| 0 <= a < |ws| && ws[a].desc.state == ACTIVE && ws[a].id == j;
    var b :| 0 <= b < |ws| && ws[b].desc.state == ACTIVE && ws[b].id == k;
    assert ws[a] in ws && ws[b] in ws;
  }

  /** A zone-aware write reaches as many zones as instances. */
  lemma WriteReachesZones(infos: seq<Info>, m: Ingesters, factor: nat, written: set<string>)
    requires Coherent(infos, m) && written <= m.Keys && forall k :: k in m ==> m[k].zone != ""
    requires written <= InState(WalkOver(infos, m, WRITE, factor, true).replicas, ACTIVE)
    ensures |ZonesAt(m, written)| == |written|
  {
    var w := WalkOver(infos, m, WRITE, factor, true);
    WalkKeepsZones(infos, m, WRITE, factor);
    WalkStaysInRing(infos, m, WRITE, factor, true);
    forall j, k | j in written && k in written && j != k ensures m[j].zone != m[k].zone {
      TwoActiveTwoZones(m, w, j, k);
    }
    DistinctZonesCount(m, written);
  }

  /** The zones left in the read set are those without a failure, complete. */
  lemma ReadZones(m: Ingesters, op: Operation, factor: nat, timeout: int, now: int, l: Lookup)
    requires IsWholeRing(m, op, factor, true, timeout, now, l) && l.Found?
    ensures ZonesOf(l.rs) == Zones(m) - FailedZones(m, op, timeout, now)
    ensures forall k :: k in m && m[k].zone in ZonesOf(l.rs) ==> k in Ids(l.rs.instances)
  {
    var failed := FailedZones(m, op, timeout, now);
    var ids := set k | k in Healthy(m, op, timeout, now) && m[k].zone !in failed;
    forall z ensures z in ZonesOf(l.rs) <==> z in Zones(m) - failed {
      if z in ZonesOf(l.rs) {
        var i :| 0 <= i < |l.rs.instances| && l.rs.instances[i].desc.zone == z;
        assert l.rs.instances[i] in l.rs.instances;
        assert l.rs.instances[i].id in ids;
      }
      if z in Zones(m) - failed {
        var k :| k in m && m[k].zone == z;
        assert k in ids;
        var i :| 0 <= i < |l.rs.instances| && l.rs.instances[i].id == k;
        assert l.rs.instances[i] in l.rs.instances;
      }
    }
  }

  /** Enough zones answer completely, whichever of the two trackers is in charge. */
  lemma EnoughZonesAnswer(m: Ingesters, op: Operation, factor: nat, timeout: int, now: int, l: Lookup,
      answered: set<string>)
    requires IsWholeRing(m, op, factor, true, timeout, now, l) && l.Found? && DoSucceeded(l.rs, answered)
    ensures |AnsweredZones(l.rs, answered)| >= |Zones(m)| - MaxUnavailableZones(|Zones(m)|, factor)
    ensures AnsweredZones(l.rs, answered) <= Zones(m)
  {
    ReadZones(m, op, factor, timeout, now, l);
    var failed := FailedZones(m, op, timeout, now);
    assert failed <= Zones(m);
    assert |Zones(m) - failed| == |Zones(m)| - |failed|;
    if l.rs.maxUnavailableZones == 0 {
      CountIds(l.rs.instances);
      SameSize(answered, Ids(l.rs.instances));
      assert AnsweredZones(l.rs, answered) == ZonesOf(l.rs);
    }
  }

  lemma SameSize(a: set<string>, b: set<string>)
    requires a <= b && |a| >= |b|
    ensures a == b
  {
    assert |b - a| == |b| - |a|;
  }

  /**
   * With zones, none of them empty: any successful whole-ring read includes an instance of any successful
   * zone-aware write to any key, because a zone that was written to was read completely.
   */
  lemma WholeRingReadSeesZonedWrites(
    infos: seq<Info>, m: Ingesters, factor: nat, op: Operation, timeout: int, writeTime: int, readTime: int,
    written: set<string>, l: Lookup, answered: set<string>)
    requires Coherent(infos, m) && forall k :: k in m ==> m[k].zone != ""
    requires var w := Select(infos, m, WRITE, factor, true, timeout, writeTime); w.Found? && IsSuccessSet(w.rs, written)
    requires IsWholeRing(m, op, factor, true, timeout, readTime, l) && l.Found? && DoSucceeded(l.rs, answered)
    ensures written * answered != {}
  {
    WriteReachesHalf(infos, m, factor, true, timeout, writeTime, written);
    WriteReachesZones(infos, m, factor, written);
    EnoughZonesAnswer(m, op, factor, timeout, readTime, l, answered);
    var writtenZones, readZones := ZonesAt(m, written), AnsweredZones(l.rs, answered);
    assert Zones(m) + Zones(m) == Zones(m);
    assert writtenZones <= Zones(m);
    TooManyToMiss(Zones(m), Zones(m), writtenZones, readZones);
    var z :| z in writtenZones * readZones;
    var k :| k in written && m[k].zone == z;
    ReadZones(m, op, factor, timeout, readTime, l);
    assert k in Ids(l.rs.instances);
    var i :| 0 <= i < |l.rs.instances| && l.rs.instances[i].id == k;
    assert l.rs.instances[i] in l.rs.instances;
    assert k in answered;
    assert k in written * answered;
  }
}
