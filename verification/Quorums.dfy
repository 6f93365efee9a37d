/** Why reads of a key see its writes (ring/ring.go). */
module Quorums {
  import opened RingTypes
  import opened Replication
  import opened Sets

  // The replica sets of one key for writing and for reading, as chosen by the walk of Get and reduced by the filter
  // in ring/replication_strategy.go.

  /** Get on the owners of the tokens in walking order: walk, then filter. */
  function Select(infos: seq<Info>, m: Ingesters, op: Operation, factor: int, zoneAware: bool, timeout: int, now: int)
    : Lookup
  {
    var chosen := WalkOver(infos, m, op, factor, zoneAware).replicas;
    var healthy := HealthyOnes(chosen, op, timeout, now);
    var minSuccess := MinSuccess(|chosen|, factor);
    if |healthy| < minSuccess then TooManyUnhealthy
    else Found(ReplicationSet(healthy, |healthy| - minSuccess, 0))
  }

  /** ids answered without error, and enough did. */
  predicate IsSuccessSet(rs: ReplicationSet, ids: set<string>) {
    ids <= Ids(rs.instances) && |ids| >= |rs.instances| - rs.maxErrors
  }

  lemma ExtendingMore(rs: seq<Replica>)
    ensures |Extending(rs, READ)| <= |Extending(rs, WRITE)|
  {
    SubsetIsSmaller(Extending(rs, READ), Extending(rs, WRITE));
  }

  /** Without zones, the instances chosen for reading are the first of those chosen for writing, or all of them. */
  lemma {:induction false} ReadWalkIsPrefix(infos: seq<Info>, m: Ingesters, factor: nat)
    ensures var w, r := WalkOver(infos, m, WRITE, factor, false), WalkOver(infos, m, READ, factor, false);
      r.replicas <= w.replicas && (|r.replicas| >= r.wanted || r.replicas == w.replicas)
  {
    if infos != [] {
      var front := infos[..|infos| - 1];
      ReadWalkIsPrefix(front, m, factor);
      WalkKeepsInv(front, m, WRITE, factor, false);
      WalkKeepsInv(front, m, READ, factor, false);
      ExtendingMore(WalkOver(front, m, READ, factor, false).replicas);
    }
  }

  /** The chosen instances in a given state. */
  function InState(rs: seq<Replica>, s: InstanceState): set<string> {
    set i | 0 <= i < |rs| && rs[i].desc.state == s :: rs[i].id
  }

  lemma SameIdSameReplica(rs: seq<Replica>, i: nat, j: nat)
    requires DistinctIds(rs) && i < |rs| && j < |rs| && rs[i].id == rs[j].id
    ensures i == j
  {
  }

  lemma NonExtending(rs: seq<Replica>)
    requires DistinctIds(rs)
    ensures Ids(rs) - Extending(rs, WRITE) == InState(rs, ACTIVE)
    ensures Ids(rs) - Extending(rs, READ) == InState(rs, ACTIVE) + InState(rs, LEAVING)
    ensures InState(rs, ACTIVE) * InState(rs, LEAVING) == {}
  {
    forall x ensures x in Ids(rs) - Extending(rs, WRITE) <==> x in InState(rs, ACTIVE) {
      NonExtendingAt(rs, x);
    }
    forall x ensures x in Ids(rs) - Extending(rs, READ) <==> x in InState(rs, ACTIVE) + InState(rs, LEAVING) {
      NonExtendingAt(rs, x);
    }
    forall x ensures !(x in InState(rs, ACTIVE) && x in InState(rs, LEAVING)) {
      NonExtendingAt(rs, x);
    }
  }

  lemma NonExtendingAt(rs: seq<Replica>, x: string)
    requires DistinctIds(rs)
    ensures x in Extending(rs, WRITE) <==> x in Ids(rs) && x !in InState(rs, ACTIVE)
    ensures x in Extending(rs, READ) <==> x in Ids(rs) && x !in InState(rs, ACTIVE) && x !in InState(rs, LEAVING)
    ensures !(x in InState(rs, ACTIVE) && x in InState(rs, LEAVING))
  {
    if x in Ids(rs) {
      var i :| 0 <= i < |rs| && rs[i].id == x;
      forall j | 0 <= j < |rs| && rs[j].id == x ensures j == i {
        SameIdSameReplica(rs, i, j);
      }
    }
  }

  lemma PrefixStates(rs: seq<Replica>, ws: seq<Replica>, s: InstanceState)
    requires rs <= ws && DistinctIds(ws)
    ensures InState(rs, s) == InState(ws, s) * Ids(rs)
    ensures Ids(rs) <= Ids(ws)
  {
    forall x ensures x in InState(rs, s) <==> x in InState(ws, s) * Ids(rs) {
      if x in InState(ws, s) * Ids(rs) {
        var i :| 0 <= i < |ws| && ws[i].desc.state == s && ws[i].id == x;
        var j :| 0 <= j < |rs| && rs[j].id == x;
        SameIdSameReplica(ws, i, j);
      }
      if x in InState(rs, s) {
        var j :| 0 <= j < |rs| && rs[j].desc.state == s && rs[j].id == x;
        assert ws[j] == rs[j];
      }
    }
    forall x | x in Ids(rs) ensures x in Ids(ws) {
      var j :| 0 <= j < |rs| && rs[j].id == x;
      assert ws[j].id == x;
    }
  }

  /** Active writers that reading does not reach: no more than there are leaving instances among the readers. */
  lemma UnreachedWriters(infos: seq<Info>, m: Ingesters, factor: nat)
    ensures var ws := WalkOver(infos, m, WRITE, factor, false).replicas;
      var rs := WalkOver(infos, m, READ, factor, false).replicas;
      |InState(ws, ACTIVE) - Ids(rs)| <= |InState(rs, LEAVING)|
  {
    ReadWalkIsPrefix(infos, m, factor);
    WalkKeepsInv(infos, m, WRITE, factor, false);
    WalkKeepsInv(infos, m, READ, factor, false);
    var ws := WalkOver(infos, m, WRITE, factor, false).replicas;
    var rs := WalkOver(infos, m, READ, factor, false).replicas;
    if rs == ws {
      NonExtending(ws);
      assert InState(ws, ACTIVE) - Ids(rs) == {};
    } else {
      CountNonExtending(ws);
      CountNonExtending(rs);
      PrefixStates(rs, ws, ACTIVE);
      SplitSet(InState(ws, ACTIVE), Ids(rs));
    }
  }

  lemma CountNonExtending(rs: seq<Replica>)
    requires DistinctIds(rs)
    ensures |InState(rs, ACTIVE)| == |rs| - |Extending(rs, WRITE)|
    ensures |InState(rs, ACTIVE)| + |InState(rs, LEAVING)| == |rs| - |Extending(rs, READ)|
  {
    NonExtending(rs);
    CountIds(rs);
    ExtendingAreIds(rs, WRITE);
    ExtendingAreIds(rs, READ);
    assert |Ids(rs) - Extending(rs, WRITE)| == |Ids(rs)| - |Extending(rs, WRITE)|;
    assert |Ids(rs) - Extending(rs, READ)| == |Ids(rs)| - |Extending(rs, READ)|;
    assert |InState(rs, ACTIVE) + InState(rs, LEAVING)| == |InState(rs, ACTIVE)| + |InState(rs, LEAVING)|;
  }

  lemma ExtendingAreIds(rs: seq<Replica>, op: Operation)
    ensures Extending(rs, op) <= Ids(rs)
  {
  }

  lemma HealthyForWrite(rs: seq<Replica>, timeout: int, now: int)
    requires DistinctIds(rs)
    ensures Ids(HealthyOnes(rs, WRITE, timeout, now)) <= InState(rs, ACTIVE)
    ensures Ids(HealthyOnes(rs, READ, timeout, now)) <= Ids(rs)
  {
    HealthyOnesAre(rs, WRITE, timeout, now);
    HealthyOnesAre(rs, READ, timeout, now);
    var h := HealthyOnes(rs, WRITE, timeout, now);
    forall x | x in Ids(h) ensures x in InState(rs, ACTIVE) {
      var i :| 0 <= i < |h| && h[i].id == x;
      assert h[i] in rs;
      var k :| 0 <= k < |rs| && rs[k] == h[i];
    }
    var g := HealthyOnes(rs, READ, timeout, now);
    forall x | x in Ids(g) ensures x in Ids(rs) {
      var i :| 0 <= i < |g| && g[i].id == x;
      assert g[i] in rs;
      var k :| 0 <= k < |rs| && rs[k] == g[i];
    }
  }

  /**
   * For one key and one ring state in which at most one chosen instance is LEAVING, every successful write has an
   * instance in common with every successful read, even if the walk ran out of instances.
   */
  lemma WriteAndReadQuorumsMeet(
    infos: seq<Info>, m: Ingesters, factor: nat, timeout: int, writeTime: int, readTime: int,
    written: set<string>, read: set<string>)
    requires var w := Select(infos, m, WRITE, factor, false, timeout, writeTime);
      w.Found? && IsSuccessSet(w.rs, written)
    requires var r := Select(infos, m, READ, factor, false, timeout, readTime);
      r.Found? && IsSuccessSet(r.rs, read)
    requires |InState(WalkOver(infos, m, WRITE, factor, false).replicas, LEAVING)| <= 1
    ensures written * read != {}
  {
    var ws := WalkOver(infos, m, WRITE, factor, false).replicas;
    var rs := WalkOver(infos, m, READ, factor, false).replicas;
    WalkKeepsInv(infos, m, WRITE, factor, false);
    WalkKeepsInv(infos, m, READ, factor, false);
    ReadWalkIsPrefix(infos, m, factor);
    PrefixStates(rs, ws, LEAVING);
    SubsetIsSmaller(InState(rs, LEAVING), InState(ws, LEAVING));
    UnreachedWriters(infos, m, factor);
    HealthyForWrite(ws, timeout, writeTime);
    HealthyForWrite(rs, timeout, readTime);
    CountIds(rs);
    SplitSet(InState(ws, ACTIVE), Ids(rs));
    MoreWritersThanReaders(rs, ws);
    TooManyToMiss(InState(ws, ACTIVE), Ids(rs), written, read);
  }

  lemma MoreWritersThanReaders(rs: seq<Replica>, ws: seq<Replica>)
    requires rs <= ws && DistinctIds(ws)
    ensures InState(ws, ACTIVE) - Ids(rs) != {} ==> |rs| < |ws|
  {
    if |rs| == |ws| {
      assert rs == ws;
    }
  }

  /**
   * In general, quorums meet exactly when the two minimums together exceed the number of healthy instances involved.
   */
  lemma QuorumsMeetExactly(w: ReplicationSet, r: ReplicationSet)
    requires DistinctIds(w.instances) && 0 <= w.maxErrors <= |w.instances|
    requires DistinctIds(r.instances) && 0 <= r.maxErrors <= |r.instances|
    ensures (forall p, q :: IsSuccessSet(w, p) && IsSuccessSet(r, q) ==> p * q != {})
      <==> |w.instances| - w.maxErrors + |r.instances| - r.maxErrors > |Ids(w.instances) + Ids(r.instances)|
  {
    CountIds(w.instances);
    CountIds(r.instances);
    var a, b := |w.instances| - w.maxErrors, |r.instances| - r.maxErrors;
    AlwaysMeetExactly(Ids(w.instances), Ids(r.instances), a, b);
    if forall p, q :: IsSuccessSet(w, p) && IsSuccessSet(r, q) ==> p * q != {} {
      forall p, q | p <= Ids(w.instances) && q <= Ids(r.instances) && |p| >= a && |q| >= b ensures p * q != {} {
        assert IsSuccessSet(w, p) && IsSuccessSet(r, q);
      }
    }
  }

  lemma WalkOne(infos: seq<Info>, info: Info, m: Ingesters, op: Operation, factor: int)
    requires var w := WalkOver(infos, m, op, factor, false);
      |w.replicas| < w.wanted && !HasId(w.replicas, info.instanceID)
    ensures var w := WalkOver(infos, m, op, factor, false);
      var desc := RingTypes.Lookup(m, info.instanceID);
      WalkOver(infos + [info], m, op, factor, false) ==
        Walk(w.replicas + [Replica(info.instanceID, desc)], w.zones,
             w.wanted + if desc.state in op.extending then 1 else 0)
  {
    assert (infos + [info])[..|infos|] == infos;
  }

  ghost predicate FiveOwners(infos: seq<Info>, rs: seq<Replica>, m: Ingesters) {
    && |infos| == |rs| == 5 && DistinctIds(rs)
    && (forall i :: 0 <= i < 5 ==> infos[i].instanceID == rs[i].id && RingTypes.Lookup(m, rs[i].id) == rs[i].desc)
    && forall i :: 0 <= i < 5 ==> rs[i].desc.state == if i < 2 then LEAVING else ACTIVE
  }

  /** One step of the walk over the five owners. */
  lemma WalkOneOfFive(infos: seq<Info>, rs: seq<Replica>, m: Ingesters, op: Operation, i: nat, wanted: int)
    requires FiveOwners(infos, rs, m) && i < 5 && i < wanted
    requires WalkOver(infos[..i], m, op, 3, false) == Walk(rs[..i], [], wanted)
    ensures WalkOver(infos[..i + 1], m, op, 3, false)
      == Walk(rs[..i + 1], [], wanted + if rs[i].desc.state in op.extending then 1 else 0)
  {
    assert infos[..i + 1] == infos[..i] + [infos[i]];
    assert rs[..i + 1] == rs[..i] + [rs[i]];
    assert !HasId(rs[..i], rs[i].id);
    WalkOne(infos[..i], infos[i], m, op, 3);
  }

  lemma WalkFive(infos: seq<Info>, rs: seq<Replica>, m: Ingesters)
    requires FiveOwners(infos, rs, m)
    ensures WalkOver(infos, m, WRITE, 3, false) == Walk(rs, [], 5)
    ensures WalkOver(infos, m, READ, 3, false) == Walk(rs[..3], [], 3)
  {
    for i := 0 to 5
      invariant WalkOver(infos[..i], m, WRITE, 3, false) == Walk(rs[..i], [], 3 + if i < 2 then i else 2)
    {
      WalkOneOfFive(infos, rs, m, WRITE, i, 3 + if i < 2 then i else 2);
    }
    assert infos[..5] == infos && rs[..5] == rs;
    WalkThree(infos, rs, m);
  }

  lemma WalkThree(infos: seq<Info>, rs: seq<Replica>, m: Ingesters)
    requires FiveOwners(infos, rs, m)
    ensures WalkOver(infos, m, READ, 3, false) == Walk(rs[..3], [], 3)
  {
    for i := 0 to 3
      invariant WalkOver(infos[..i], m, READ, 3, false) == Walk(rs[..i], [], 3)
    {
      WalkOneOfFive(infos, rs, m, READ, i, 3);
    }
    WalkStaysStopped(infos, 3, m, READ, 3, false);
  }

  /**
   * Two LEAVING instances are too many: with three replicas wanted and the owners leaving, leaving, active, active,
   * active in walking order, the three active ones may take the write and the two leaving ones answer the read.
   */
  lemma TwoLeavingCanMiss(infos: seq<Info>, rs: seq<Replica>, m: Ingesters)
    requires FiveOwners(infos, rs, m)
    ensures var w, r := Select(infos, m, WRITE, 3, false, 0, 0), Select(infos, m, READ, 3, false, 0, 0);
      && w.Found? && r.Found? && Ids(rs[2..]) * Ids(rs[..2]) == {}
      && IsSuccessSet(w.rs, Ids(rs[2..])) && IsSuccessSet(r.rs, Ids(rs[..2]))
  {
    WalkFive(infos, rs, m);
    SelectFive(infos, rs, m);
    CountIds(rs[2..]);
    CountIds(rs[..2]);
    IdsOfAppend(rs[..2], rs[2]);
    assert rs[..3] == rs[..2] + [rs[2]];
  }

  lemma SelectFive(infos: seq<Info>, rs: seq<Replica>, m: Ingesters)
    requires |rs| == 5 && forall i :: 0 <= i < 5 ==> rs[i].desc.state == if i < 2 then LEAVING else ACTIVE
    requires WalkOver(infos, m, WRITE, 3, false) == Walk(rs, [], 5)
    requires WalkOver(infos, m, READ, 3, false) == Walk(rs[..3], [], 3)
    ensures Select(infos, m, WRITE, 3, false, 0, 0) == Found(ReplicationSet(rs[2..], 0, 0))
    ensures Select(infos, m, READ, 3, false, 0, 0) == Found(ReplicationSet(rs[..3], 1, 0))
  {
    LastThreeAreHealthy(rs);
    AllAreReadable(rs[..3]);
  }

  lemma LastThreeAreHealthy(rs: seq<Replica>)
    requires |rs| == 5 && forall i :: 0 <= i < 5 ==> rs[i].desc.state == if i < 2 then LEAVING else ACTIVE
    ensures HealthyOnes(rs, WRITE, 0, 0) == rs[2..]
  {
    var front, back := rs[..2], rs[2..];
    assert rs == front + back;
    HealthyOnesAppend(front, back, WRITE, 0, 0);
    OnlyActiveAreHealthy(front);
    OnlyActiveAreHealthy(back);
  }

  lemma {:induction false} OnlyActiveAreHealthy(rs: seq<Replica>)
    ensures (forall r :: r in rs ==> r.desc.state == ACTIVE) ==> HealthyOnes(rs, WRITE, 0, 0) == rs
    ensures (forall r :: r in rs ==> r.desc.state == LEAVING) ==> HealthyOnes(rs, WRITE, 0, 0) == []
  {
    if rs != [] {
      OnlyActiveAreHealthy(rs[1..]);
      assert rs == [rs[0]] + rs[1..];
    }
  }

  lemma {:induction false} AllAreReadable(rs: seq<Replica>)
    requires forall r :: r in rs ==> r.desc.state == ACTIVE || r.desc.state == LEAVING
    ensures HealthyOnes(rs, READ, 0, 0) == rs
  {
    if rs != [] {
      AllAreReadable(rs[1..]);
      assert rs == [rs[0]] + rs[1..];
    }
  }
}
