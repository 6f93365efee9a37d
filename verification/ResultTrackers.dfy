/** Collecting the answers of a replication set. */
module ResultTrackers {
  import opened Replication
  import opened WholeRing
  import opened Sets

  // The trackers in ring/replication_set_tracker.go and ReplicationSet.Do in ring/replication_set.go. Answers arrive
  // in any order; each instance answers at most once.

  /** Instance number index has finished, without or with an error. */
  datatype Report = Report(index: nat, ok: bool)

  function Indices(rs: ReplicationSet): set<nat> {
    Below(|rs.instances|)
  }

  function IdsAt(rs: ReplicationSet, s: set<nat>): set<string> {
    set i | i in s && i < |rs.instances| :: rs.instances[i].id
  }

  /** The members of s in a zone. */
  function InZone(rs: ReplicationSet, s: set<nat>, zone: string): set<nat> {
    set i | i in s && i < |rs.instances| && rs.instances[i].desc.zone == zone
  }

  function ErrorZones(rs: ReplicationSet, errors: set<nat>): set<string> {
    set i | i in errors && i < |rs.instances| :: rs.instances[i].desc.zone
  }

  /** Enough of the reported instances succeeded. */
  predicate Succeeded(rs: ReplicationSet, reported: set<nat>, errors: set<nat>) {
    DoSucceeded(rs, IdsAt(rs, reported - errors))
  }

  /** More failures than are tolerated. */
  predicate Failed(rs: ReplicationSet, errors: set<nat>) {
    if rs.maxUnavailableZones > 0 then |ErrorZones(rs, errors)| > rs.maxUnavailableZones
    else |errors| > rs.maxErrors
  }

  lemma IdsWith(rs: ReplicationSet, s: set<nat>, x: nat)
    requires DistinctIds(rs.instances) && s <= Indices(rs) && x < |rs.instances| && x !in s
    ensures |IdsAt(rs, s + {x})| == |IdsAt(rs, s)| + 1
  {
    assert IdsAt(rs, s + {x}) == IdsAt(rs, s) + {rs.instances[x].id};
    assert rs.instances[x].id !in IdsAt(rs, s);
  }

  lemma {:induction false} CountIdsAt(rs: ReplicationSet, s: set<nat>)
    requires DistinctIds(rs.instances) && s <= Indices(rs)
    ensures |IdsAt(rs, s)| == |s|
    decreases s
  {
    if s == {} {
      assert IdsAt(rs, s) == {};
    } else {
      var x :| x in s;
      CountIdsAt(rs, s - {x});
      IdsWith(rs, s - {x}, x);
      assert (s - {x}) + {x} == s;
    }
  }

  /** A zone counts as answered when all of its instances reported and none failed. */
  lemma AnsweredZone(rs: ReplicationSet, reported: set<nat>, errors: set<nat>, zone: string)
    requires DistinctIds(rs.instances)
    ensures ZoneAnswered(rs, IdsAt(rs, reported - errors), zone)
      <==> InZone(rs, Indices(rs) - reported, zone) == {} && InZone(rs, errors, zone) == {}
  {
    if ZoneAnswered(rs, IdsAt(rs, reported - errors), zone) {
      forall i | i in Indices(rs) && rs.instances[i].desc.zone == zone ensures i in reported && i !in errors {
        assert rs.instances[i] in rs.instances;
        var j :| j in reported - errors && j < |rs.instances| && rs.instances[j].id == rs.instances[i].id;
        SameIdSameIndex(rs, i, j);
      }
    }
    if InZone(rs, Indices(rs) - reported, zone) == {} && InZone(rs, errors, zone) == {} {
      forall r | r in rs.instances && r.desc.zone == zone ensures r.id in IdsAt(rs, reported - errors) {
        var i: nat :| i < |rs.instances| && rs.instances[i] == r;
        assert i in Indices(rs);
        assert i !in InZone(rs, Indices(rs) - reported, zone) && i !in InZone(rs, errors, zone);
      }
    }
  }

  lemma SameIdSameIndex(rs: ReplicationSet, i: nat, j: nat)
    requires DistinctIds(rs.instances) && i < |rs.instances| && j < |rs.instances|
    requires rs.instances[i].id == rs.instances[j].id
    ensures i == j
  {
  }

  /** Success and failure exclude each other. */
  lemma NeverBoth(rs: ReplicationSet, reported: set<nat>, errors: set<nat>)
    requires DistinctIds(rs.instances) && errors <= reported <= Indices(rs)
    ensures !(Succeeded(rs, reported, errors) && Failed(rs, errors))
  {
    CountBelow(|rs.instances|);
    if rs.maxUnavailableZones > 0 {
      var good, bad := AnsweredZones(rs, IdsAt(rs, reported - errors)), ErrorZones(rs, errors);
      forall z | z in good ensures z !in bad {
        AnsweredZone(rs, reported, errors, z);
        SomeFailure(rs, errors, z);
      }
      assert bad <= ZonesOf(rs);
      SubsetIsSmaller(good + bad, ZonesOf(rs));
      assert good * bad == {};
    } else {
      CountIdsAt(rs, reported - errors);
      SubsetIsSmaller((reported - errors) + errors, Indices(rs));
      assert (reported - errors) * errors == {};
    }
  }

  /** Once every instance has reported, one of the two holds. */
  lemma OneInTheEnd(rs: ReplicationSet, errors: set<nat>)
    requires DistinctIds(rs.instances) && errors <= Indices(rs)
    ensures Succeeded(rs, Indices(rs), errors) || Failed(rs, errors)
  {
    var all := Indices(rs);
    CountBelow(|rs.instances|);
    assert IdsAt(rs, all - errors) <= Ids(rs.instances);
    if rs.maxUnavailableZones > 0 {
      var good, bad := AnsweredZones(rs, IdsAt(rs, all - errors)), ErrorZones(rs, errors);
      forall z | z in ZonesOf(rs) && z !in good ensures z in bad {
        AnsweredZone(rs, all, errors, z);
        assert InZone(rs, all - all, z) == {};
        var i :| i in InZone(rs, errors, z);
      }
      assert ZonesOf(rs) == good + (ZonesOf(rs) - good);
      SubsetIsSmaller(ZonesOf(rs) - good, bad);
    } else {
      CountIdsAt(rs, all - errors);
      assert |all - errors| == |all| - |errors|;
    }
  }

  // ---------------------------------------------------------------- the trackers

  class DefaultResultTracker {
    var minSucceeded: int
    var numSucceeded: int
    var numErrors: int
    var maxErrors: int
    ghost const rs: ReplicationSet

    ghost predicate Valid(reported: set<nat>, errors: set<nat>)
      reads this
    {
      && rs.maxUnavailableZones <= 0 && DistinctIds(rs.instances) && errors <= reported <= Indices(rs)
      && minSucceeded == |rs.instances| - rs.maxErrors && maxErrors == rs.maxErrors
      && numSucceeded == |reported - errors| && numErrors == |errors|
    }

    constructor (rs: ReplicationSet)
      requires rs.maxUnavailableZones <= 0 && DistinctIds(rs.instances)
      ensures Valid({}, {}) && this.rs == rs
    {
      minSucceeded := |rs.instances| - rs.maxErrors;
      numSucceeded, numErrors, maxErrors := 0, 0, rs.maxErrors;
      this.rs := rs;
    }

    method Done(instance: Replica, ok: bool, ghost i: nat, ghost reported: set<nat>, ghost errors: set<nat>)
      requires Valid(reported, errors) && i < |rs.instances| && rs.instances[i] == instance && i !in reported
      modifies this
      ensures Valid(reported + {i}, if ok then errors else errors + {i})
    {
      assert i in Indices(rs);
      if ok {
        assert reported + {i} - errors == (reported - errors) + {i};
        numSucceeded := numSucceeded + 1;
      } else {
        assert reported + {i} - (errors + {i}) == reported - errors;
        numErrors := numErrors + 1;
      }
    }

    method HasSucceeded(ghost reported: set<nat>, ghost errors: set<nat>) returns (r: bool)
      requires Valid(reported, errors)
      ensures r <==> Succeeded(rs, reported, errors)
    {
      CountIdsAt(rs, reported - errors);
      r := numSucceeded >= minSucceeded;
    }

    method HasFailed(ghost reported: set<nat>, ghost errors: set<nat>) returns (r: bool)
      requires Valid(reported, errors)
      ensures r <==> Failed(rs, errors)
    {
      r := numErrors > maxErrors;
    }
  }

  /** Per zone, how many instances have not reported and how many have failed. */
  ghost predicate CountsFit(
    rs: ReplicationSet, waiting: map<string, int>, failures: map<string, int>, reported: set<nat>, errors: set<nat>)
  {
    && errors <= reported <= Indices(rs) && waiting.Keys == ZonesOf(rs) && failures.Keys == ErrorZones(rs, errors)
    && Tallies(waiting, rs, Indices(rs) - reported) && Tallies(failures, rs, errors)
  }

  function Decremented(counts: map<string, int>, zone: string): map<string, int>
    requires zone in counts
  {
    counts[zone := counts[zone] - 1]
  }

  function Incremented(counts: map<string, int>, zone: string): map<string, int> {
    counts[zone := (if zone in counts then counts[zone] else 0) + 1]
  }

  lemma OneMoreReport(
    rs: ReplicationSet, waiting: map<string, int>, failures: map<string, int>, reported: set<nat>, errors: set<nat>,
    i: nat)
    requires CountsFit(rs, waiting, failures, reported, errors) && i < |rs.instances| && i !in reported
    ensures rs.instances[i].desc.zone in waiting
    ensures CountsFit(rs, Decremented(waiting, rs.instances[i].desc.zone), failures, reported + {i}, errors)
  {
    assert i in Indices(rs) && rs.instances[i].desc.zone in ZonesOf(rs);
    var left := Indices(rs) - (reported + {i});
    assert Indices(rs) - reported == left + {i};
    TallyDown(waiting, rs, left, i);
  }

  lemma OneMoreFailure(
    rs: ReplicationSet, waiting: map<string, int>, failures: map<string, int>, reported: set<nat>, errors: set<nat>,
    i: nat)
    requires CountsFit(rs, waiting, failures, reported, errors) && i < |rs.instances| && i in reported && i !in errors
    ensures CountsFit(rs, waiting, Incremented(failures, rs.instances[i].desc.zone), reported, errors + {i})
  {
    TallyUp(failures, rs, errors, i);
  }

  /** All instances in a zone must succeed for the zone to succeed. */
  class ZoneAwareResultTracker {
    var waitingByZone: map<string, int>
    var failuresByZone: map<string, int>
    var minSuccessfulZones: int
    var maxUnavailableZones: int
    ghost const rs: ReplicationSet

    ghost predicate Valid(reported: set<nat>, errors: set<nat>)
      reads this
    {
      && rs.maxUnavailableZones > 0 && DistinctIds(rs.instances)
      && CountsFit(rs, waitingByZone, failuresByZone, reported, errors)
      && maxUnavailableZones == rs.maxUnavailableZones && minSuccessfulZones == |ZonesOf(rs)| - rs.maxUnavailableZones
    }

    constructor (rs: ReplicationSet)
      requires rs.maxUnavailableZones > 0 && DistinctIds(rs.instances)
      ensures Valid({}, {}) && this.rs == rs
    {
      this.rs := rs;
      failuresByZone := map[];
      maxUnavailableZones := rs.maxUnavailableZones;
      waitingByZone := map[];
      new;
      waitingByZone := CountZones(rs);
      minSuccessfulZones := |waitingByZone| - rs.maxUnavailableZones;
      assert |waitingByZone| == |waitingByZone.Keys|;
      assert Indices(rs) - {} == Indices(rs);
    }

    method Done(instance: Replica, ok: bool, ghost i: nat, ghost reported: set<nat>, ghost errors: set<nat>)
      requires Valid(reported, errors) && i < |rs.instances| && rs.instances[i] == instance && i !in reported
      modifies this
      ensures Valid(reported + {i}, if ok then errors else errors + {i})
    {
      var zone := instance.desc.zone;
      OneMoreReport(rs, waitingByZone, failuresByZone, reported, errors, i);
      waitingByZone := Decremented(waitingByZone, zone);
      if !ok {
        OneMoreFailure(rs, waitingByZone, failuresByZone, reported + {i}, errors, i);
        failuresByZone := Incremented(failuresByZone, zone);
      }
    }

    method HasSucceeded(ghost reported: set<nat>, ghost errors: set<nat>) returns (r: bool)
      requires Valid(reported, errors)
      ensures r <==> Succeeded(rs, reported, errors)
    {
      var successfulZones := 0;
      ghost var counted: set<string> := {};
      var todo := waitingByZone.Keys;
      while todo != {}
        invariant todo <= waitingByZone.Keys
        invariant counted == set z | z in waitingByZone && z !in todo && waitingByZone[z] == 0 && z !in failuresByZone
        invariant successfulZones == |counted|
        decreases todo
      {
        var zone :| zone in todo;
        todo := todo - {zone};
        var numWaiting := waitingByZone[zone];
        var failures := if zone in failuresByZone then failuresByZone[zone] else 0;
        SomeFailure(rs, errors, zone);
        EmptyZone(rs, errors, zone);
        if numWaiting == 0 && failures == 0 {
          counted := counted + {zone};
          successfulZones := successfulZones + 1;
        }
      }
      forall z ensures z in counted <==> z in AnsweredZones(rs, IdsAt(rs, reported - errors)) {
        AnsweredZone(rs, reported, errors, z);
        SomeFailure(rs, errors, z);
        EmptyZone(rs, Indices(rs) - reported, z);
      }
      assert IdsAt(rs, reported - errors) <= Ids(rs.instances);
      assert counted == AnsweredZones(rs, IdsAt(rs, reported - errors));
      r := successfulZones >= minSuccessfulZones;
    }

    method HasFailed(ghost reported: set<nat>, ghost errors: set<nat>) returns (r: bool)
      requires Valid(reported, errors)
      ensures r <==> Failed(rs, errors)
    {
      var failedZones := |failuresByZone|;
      assert |failuresByZone| == |failuresByZone.Keys|;
      r := failedZones > maxUnavailableZones;
    }
  }

  lemma SomeFailure(rs: ReplicationSet, errors: set<nat>, zone: string)
    ensures zone in ErrorZones(rs, errors) <==> InZone(rs, errors, zone) != {}
  {
    if zone in ErrorZones(rs, errors) {
      var i :| i in errors && i < |rs.instances| && rs.instances[i].desc.zone == zone;
      assert i in InZone(rs, errors, zone);
    }
  }

  /** How many instances each zone has. */
  method CountZones(rs: ReplicationSet) returns (waiting: map<string, int>)
    ensures waiting.Keys == ZonesOf(rs) && Tallies(waiting, rs, Indices(rs))
  {
    waiting := map[];
    for i := 0 to |rs.instances|
      invariant waiting.Keys == ErrorZones(rs, Below(i)) && Tallies(waiting, rs, Below(i))
    {
      var zone := rs.instances[i].desc.zone;
      TallyUp(waiting, rs, Below(i), i);
      waiting := waiting[zone := (if zone in waiting then waiting[zone] else 0) + 1];
    }
    AllZones(rs);
  }

  /** How many of the first n instances are in s and in the zone. */
  function CountIn(rs: ReplicationSet, s: set<nat>, zone: string, n: nat): (r: nat)
    requires n <= |rs.instances|
  {
    if n == 0 then 0
    else CountIn(rs, s, zone, n - 1) + if n - 1 in s && rs.instances[n - 1].desc.zone == zone then 1 else 0
  }

  lemma {:induction false} CountsNothing(rs: ReplicationSet, s: set<nat>, zone: string, n: nat)
    requires n <= |rs.instances|
    ensures CountIn(rs, s, zone, n) == 0 <==> forall i :: 0 <= i < n && i in s ==> rs.instances[i].desc.zone != zone
  {
    if n > 0 {
      CountsNothing(rs, s, zone, n - 1);
    }
  }

  lemma {:induction false} CountOneMore(rs: ReplicationSet, s: set<nat>, i: nat, zone: string, n: nat)
    requires n <= |rs.instances| && i < |rs.instances| && i !in s
    ensures CountIn(rs, s + {i}, zone, n)
      == CountIn(rs, s, zone, n) + if i < n && rs.instances[i].desc.zone == zone then 1 else 0
  {
    if n > 0 {
      CountOneMore(rs, s, i, zone, n - 1);
    }
  }

  /** counts holds the number of members of s per zone. */
  ghost predicate Tallies(counts: map<string, int>, rs: ReplicationSet, s: set<nat>) {
    forall z :: z in counts ==> counts[z] == CountIn(rs, s, z, |rs.instances|)
  }

  lemma EmptyZone(rs: ReplicationSet, s: set<nat>, zone: string)
    ensures CountIn(rs, s, zone, |rs.instances|) == 0 <==> InZone(rs, s, zone) == {}
  {
    CountsNothing(rs, s, zone, |rs.instances|);
    if InZone(rs, s, zone) == {} {
      forall i | 0 <= i < |rs.instances| && i in s ensures rs.instances[i].desc.zone != zone {
        assert i !in InZone(rs, s, zone);
      }
    }
  }

  lemma TallyUp(counts: map<string, int>, rs: ReplicationSet, s: set<nat>, i: nat)
    requires Tallies(counts, rs, s) && counts.Keys == ErrorZones(rs, s) && i < |rs.instances| && i !in s
    ensures var zone := rs.instances[i].desc.zone;
      var counts' := counts[zone := (if zone in counts then counts[zone] else 0) + 1];
      Tallies(counts', rs, s + {i}) && counts'.Keys == ErrorZones(rs, s + {i})
  {
    AddToZone(rs, s, i);
  }

  lemma TallyDown(counts: map<string, int>, rs: ReplicationSet, s: set<nat>, i: nat)
    requires i < |rs.instances| && i !in s && Tallies(counts, rs, s + {i}) && rs.instances[i].desc.zone in counts
    ensures var zone := rs.instances[i].desc.zone; Tallies(counts[zone := counts[zone] - 1], rs, s)
  {
    AddToZone(rs, s, i);
  }

  lemma AllZones(rs: ReplicationSet)
    ensures ErrorZones(rs, Indices(rs)) == ZonesOf(rs)
  {
    forall z | z in ZonesOf(rs) ensures z in ErrorZones(rs, Indices(rs)) {
      var i: nat :| 0 <= i < |rs.instances| && rs.instances[i].desc.zone == z;
      assert i in Indices(rs);
    }
  }

  lemma AddToZone(rs: ReplicationSet, s: set<nat>, i: nat)
    requires i < |rs.instances| && i !in s
    ensures ErrorZones(rs, s + {i}) == ErrorZones(rs, s) + {rs.instances[i].desc.zone}
    ensures forall z ::
      CountIn(rs, s + {i}, z, |rs.instances|)
        == CountIn(rs, s, z, |rs.instances|) + if z == rs.instances[i].desc.zone then 1 else 0
    ensures rs.instances[i].desc.zone !in ErrorZones(rs, s)
      ==> CountIn(rs, s, rs.instances[i].desc.zone, |rs.instances|) == 0
  {
    forall z ensures CountIn(rs, s + {i}, z, |rs.instances|)
      == CountIn(rs, s, z, |rs.instances|) + if z == rs.instances[i].desc.zone then 1 else 0
    {
      CountOneMore(rs, s, i, z, |rs.instances|);
    }
    CountsNothing(rs, s, rs.instances[i].desc.zone, |rs.instances|);
  }

  // ---------------------------------------------------------------- Do

  datatype Tracker = Counting(counting: DefaultResultTracker) | PerZone(perZone: ZoneAwareResultTracker)

  datatype Verdict = Results | Error | StillWaiting

  function Reported(arrivals: seq<Report>): set<nat> {
    set i | 0 <= i < |arrivals| :: arrivals[i].index
  }

  function Errors(arrivals: seq<Report>): set<nat> {
    set i | 0 <= i < |arrivals| && !arrivals[i].ok :: arrivals[i].index
  }

  /** Instances answer at most once each. */
  predicate Plausible(rs: ReplicationSet, arrivals: seq<Report>) {
    && (forall i :: 0 <= i < |arrivals| ==> arrivals[i].index < |rs.instances|)
    && (forall i, j :: 0 <= i < j < |arrivals| ==> arrivals[i].index != arrivals[j].index)
  }

  /** After the first n arrivals neither verdict has been reached. */
  predicate Open(rs: ReplicationSet, arrivals: seq<Report>, n: nat)
    requires n <= |arrivals|
  {
    !Succeeded(rs, Reported(arrivals[..n]), Errors(arrivals[..n])) && !Failed(rs, Errors(arrivals[..n]))
  }

  /** No verdict was reached before the first n arrivals were in. */
  ghost predicate AllOpen(rs: ReplicationSet, arrivals: seq<Report>, n: nat)
    requires n <= |arrivals|
  {
    forall k :: 0 <= k < n ==> Open(rs, arrivals, k)
  }

  lemma StillOpen(rs: ReplicationSet, arrivals: seq<Report>, n: nat, reported: set<nat>, errors: set<nat>)
    requires n <= |arrivals| && reported == Reported(arrivals[..n]) && errors == Errors(arrivals[..n])
    requires AllOpen(rs, arrivals, n) && !Succeeded(rs, reported, errors) && !Failed(rs, errors)
    ensures Open(rs, arrivals, n)
    ensures n < |arrivals| ==> AllOpen(rs, arrivals, n + 1)
  {
  }

  lemma OneMoreArrival(arrivals: seq<Report>, n: nat)
    requires n < |arrivals|
    ensures Reported(arrivals[..n + 1]) == Reported(arrivals[..n]) + {arrivals[n].index}
    ensures Errors(arrivals[..n + 1]) == Errors(arrivals[..n]) + if arrivals[n].ok then {} else {arrivals[n].index}
  {
    var a := arrivals[..n + 1];
    assert a == arrivals[..n] + [arrivals[n]];
    assert a[n] == arrivals[n];
    assert forall i :: 0 <= i < n ==> a[i] == arrivals[..n][i];
  }

  lemma NotYetReported(rs: ReplicationSet, arrivals: seq<Report>, n: nat)
    requires Plausible(rs, arrivals) && n < |arrivals|
    ensures arrivals[n].index !in Reported(arrivals[..n])
    ensures Errors(arrivals[..n]) <= Reported(arrivals[..n]) <= Indices(rs)
  {
  }

  lemma {:induction false} CountReported(rs: ReplicationSet, arrivals: seq<Report>)
    requires Plausible(rs, arrivals)
    ensures |Reported(arrivals)| == |arrivals|
  {
    if arrivals != [] {
      var n := |arrivals| - 1;
      CountReported(rs, arrivals[..n]);
      OneMoreArrival(arrivals, n);
      NotYetReported(rs, arrivals, n);
      assert arrivals[..n + 1] == arrivals;
    }
  }

  lemma AllReported(rs: ReplicationSet, arrivals: seq<Report>)
    requires Plausible(rs, arrivals) && |arrivals| == |rs.instances|
    ensures Reported(arrivals) == Indices(rs)
  {
    CountReported(rs, arrivals);
    CountBelow(|rs.instances|);
    assert Reported(arrivals) <= Indices(rs);
    assert |Indices(rs) - Reported(arrivals)| == |Indices(rs)| - |Reported(arrivals)|;
  }

  ghost predicate TrackerValid(t: Tracker, rs: ReplicationSet, reported: set<nat>, errors: set<nat>)
    reads TrackerObject(t)
  {
    match t
    case Counting(c) => c.Valid(reported, errors) && c.rs == rs
    case PerZone(z) => z.Valid(reported, errors) && z.rs == rs
  }

  /** Where the loop stands after the first n arrivals. */
  ghost predicate Progress(rs: ReplicationSet, arrivals: seq<Report>, n: nat, reported: set<nat>, errors: set<nat>) {
    && n <= |arrivals| && reported == Reported(arrivals[..n]) && errors == Errors(arrivals[..n])
    && AllOpen(rs, arrivals, n) && !Failed(rs, errors)
  }

  /** The verdict is the first one that the arrivals allow, and there is one once every instance has answered. */
  ghost predicate FirstVerdict(rs: ReplicationSet, arrivals: seq<Report>, n: nat, verdict: Verdict) {
    && n <= |arrivals| && AllOpen(rs, arrivals, n)
    && match verdict
       case Results => Succeeded(rs, Reported(arrivals[..n]), Errors(arrivals[..n]))
       case Error => Failed(rs, Errors(arrivals[..n]))
       case StillWaiting => n == |arrivals| < |rs.instances| && Open(rs, arrivals, n)
  }

  lemma NoProgressYet(rs: ReplicationSet, arrivals: seq<Report>)
    requires rs.maxErrors >= 0
    ensures Progress(rs, arrivals, 0, {}, {})
  {
  }

  /** One token per failure so far, if requests are delayed at all. */
  ghost predicate Forced(rs: ReplicationSet, delay: bool, errors: set<nat>, forceStarts: int) {
    forceStarts == if delay && rs.maxUnavailableZones == 0 then |errors| else 0
  }

  ghost predicate Underway(
    rs: ReplicationSet, arrivals: seq<Report>, delay: bool, n: nat, reported: set<nat>, errors: set<nat>,
    forceStarts: int)
  {
    Progress(rs, arrivals, n, reported, errors) && Forced(rs, delay, errors, forceStarts)
  }

  function WithReport(errors: set<nat>, report: Report): set<nat> {
    if report.ok then errors else errors + {report.index}
  }

  /** A failure that does not decide the matter leaves room in forceStart, whose capacity is maxErrors. */
  lemma NoMoreProgress(
    rs: ReplicationSet, arrivals: seq<Report>, delay: bool, n: nat, reported: set<nat>, errors: set<nat>,
    forceStarts: int)
    requires DistinctIds(rs.instances) && rs.maxErrors >= 0 && Plausible(rs, arrivals)
    requires Underway(rs, arrivals, delay, n, reported, errors, forceStarts)
    ensures forceStarts <= rs.maxErrors
    ensures Succeeded(rs, reported, errors) ==> FirstVerdict(rs, arrivals, n, Results)
    ensures !Succeeded(rs, reported, errors) && n == |arrivals| ==> FirstVerdict(rs, arrivals, n, StillWaiting)
  {
    if !Succeeded(rs, reported, errors) && n == |arrivals| {
      StillOpen(rs, arrivals, n, reported, errors);
      CountReported(rs, arrivals);
      CountBelow(|rs.instances|);
      assert Reported(arrivals) <= Indices(rs);
      SubsetIsSmaller(Reported(arrivals), Indices(rs));
      if |arrivals| == |rs.instances| {
        EndIsDecided(rs, arrivals);
      }
    }
  }

  lemma MoreProgress(
    rs: ReplicationSet, arrivals: seq<Report>, delay: bool, n: nat, reported: set<nat>, errors: set<nat>,
    forceStarts: int)
    requires Plausible(rs, arrivals) && Underway(rs, arrivals, delay, n, reported, errors, forceStarts)
    requires n < |arrivals| && !Succeeded(rs, reported, errors)
    ensures arrivals[n].index < |rs.instances| && arrivals[n].index !in reported && arrivals[n].index !in errors
    ensures var errors' := WithReport(errors, arrivals[n]);
      if Failed(rs, errors') then FirstVerdict(rs, arrivals, n + 1, Error)
      else Underway(rs, arrivals, delay, n + 1, reported + {arrivals[n].index}, errors',
                    if !arrivals[n].ok && delay && rs.maxUnavailableZones == 0 then forceStarts + 1 else forceStarts)
  {
    StillOpen(rs, arrivals, n, reported, errors);
    NextArrival(rs, arrivals, n);
  }

  ghost function TrackerObject(t: Tracker): object {
    match t
    case Counting(c) => c
    case PerZone(z) => z
  }

  /**
   * ReplicationSet.Do on the answers that arrive before the context ends. It stops at the first verdict; when every
   * instance has answered there is one. Each failure that does not decide the matter sends one token to forceStart,
   * whose capacity is maxErrors: no send can block.
   */
  method Do(rs: ReplicationSet, delay: bool, arrivals: seq<Report>)
    returns (verdict: Verdict, consumed: nat, forceStarts: nat)
    requires DistinctIds(rs.instances) && rs.maxErrors >= 0 && Plausible(rs, arrivals)
    ensures FirstVerdict(rs, arrivals, consumed, verdict)
    ensures forceStarts <= rs.maxErrors
  {
    var tracker := NewTracker(rs);
    consumed, forceStarts := 0, 0;
    ghost var reported, errors: set<nat> := {}, {};
    NoProgressYet(rs, arrivals);
    while true
      invariant fresh(TrackerObject(tracker)) && TrackerValid(tracker, rs, reported, errors)
      invariant Underway(rs, arrivals, delay, consumed, reported, errors, forceStarts)
      decreases |arrivals| - consumed
    {
      NoMoreProgress(rs, arrivals, delay, consumed, reported, errors, forceStarts);
      var succeeded := HasSucceeded(tracker, rs, reported, errors);
      if succeeded {
        return Results, consumed, forceStarts;
      }
      if consumed == |arrivals| {
        return StillWaiting, consumed, forceStarts;
      }
      var report := arrivals[consumed];
      MoreProgress(rs, arrivals, delay, consumed, reported, errors, forceStarts);
      var failed := Receive(tracker, rs.instances[report.index], report.ok, rs, report.index, reported, errors);
      consumed := consumed + 1;
      reported := reported + {report.index};
      errors := WithReport(errors, report);
      if failed {
        return Error, consumed, forceStarts;
      }
      if !report.ok && delay && rs.maxUnavailableZones == 0 {
        // force one of the delayed requests to start
        forceStarts := forceStarts + 1;
      }
    }
  }

  method NewTracker(rs: ReplicationSet) returns (t: Tracker)
    requires DistinctIds(rs.instances)
    ensures fresh(TrackerObject(t)) && TrackerValid(t, rs, {}, {})
  {
    if rs.maxUnavailableZones > 0 {
      var z := new ZoneAwareResultTracker(rs);
      t := PerZone(z);
    } else {
      var c := new DefaultResultTracker(rs);
      t := Counting(c);
    }
  }

  method Receive(t: Tracker, instance: Replica, ok: bool, ghost rs: ReplicationSet, ghost i: nat,
      ghost reported: set<nat>, ghost errors: set<nat>)
    returns (failed: bool)
    requires TrackerValid(t, rs, reported, errors) && i < |rs.instances| && rs.instances[i] == instance
    requires i !in reported
    requires !Failed(rs, errors)
    modifies TrackerObject(t)
    ensures TrackerValid(t, rs, reported + {i}, WithReport(errors, Report(i, ok)))
    ensures failed <==> Failed(rs, WithReport(errors, Report(i, ok)))
  {
    Done(t, instance, ok, rs, i, reported, errors);
    failed := false;
    if !ok {
      failed := HasFailed(t, rs, reported + {i}, errors + {i});
    }
  }

  lemma NextArrival(rs: ReplicationSet, arrivals: seq<Report>, n: nat)
    requires Plausible(rs, arrivals) && n < |arrivals|
    ensures arrivals[n].index < |rs.instances|
    ensures arrivals[n].index !in Reported(arrivals[..n]) && arrivals[n].index !in Errors(arrivals[..n])
    ensures Reported(arrivals[..n + 1]) == Reported(arrivals[..n]) + {arrivals[n].index}
    ensures arrivals[n].ok ==> Errors(arrivals[..n + 1]) == Errors(arrivals[..n])
    ensures !arrivals[n].ok ==> Errors(arrivals[..n + 1]) == Errors(arrivals[..n]) + {arrivals[n].index}
  {
    NotYetReported(rs, arrivals, n);
    OneMoreArrival(arrivals, n);
  }

  lemma EndIsDecided(rs: ReplicationSet, arrivals: seq<Report>)
    requires DistinctIds(rs.instances) && Plausible(rs, arrivals)
    ensures |arrivals| == |rs.instances| ==> !Open(rs, arrivals, |arrivals|)
  {
    if |arrivals| == |rs.instances| {
      AllReported(rs, arrivals);
      assert arrivals[..|arrivals|] == arrivals;
      OneInTheEnd(rs, Errors(arrivals));
    }
  }

  method Done(t: Tracker, instance: Replica, ok: bool, ghost rs: ReplicationSet, ghost i: nat, ghost reported: set<nat>,
      ghost errors: set<nat>)
    requires TrackerValid(t, rs, reported, errors) && i < |rs.instances| && rs.instances[i] == instance
    requires i !in reported
    modifies TrackerObject(t)
    ensures TrackerValid(t, rs, reported + {i}, if ok then errors else errors + {i})
  {
    match t
    case Counting(c) => c.Done(instance, ok, i, reported, errors);
    case PerZone(z) => z.Done(instance, ok, i, reported, errors);
  }

  method HasSucceeded(t: Tracker, ghost rs: ReplicationSet, ghost reported: set<nat>, ghost errors: set<nat>)
    returns (r: bool)
    requires TrackerValid(t, rs, reported, errors)
    ensures TrackerValid(t, rs, reported, errors)
    ensures r <==> Succeeded(rs, reported, errors)
  {
    match t
    case Counting(c) => r := c.HasSucceeded(reported, errors);
    case PerZone(z) => r := z.HasSucceeded(reported, errors);
  }

  method HasFailed(t: Tracker, ghost rs: ReplicationSet, ghost reported: set<nat>, ghost errors: set<nat>)
    returns (r: bool)
    requires TrackerValid(t, rs, reported, errors)
    ensures TrackerValid(t, rs, reported, errors)
    ensures r <==> Failed(rs, errors)
  {
    match t
    case Counting(c) => r := c.HasFailed(reported, errors);
    case PerZone(z) => r := z.HasFailed(reported, errors);
  }
}
