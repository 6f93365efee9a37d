/**
 * The algebra that kv/memberlist/mergeable.go asks of Merge: when its laws hold, that the returned change carries all
 * that its receiver needs, and inputs where a law fails.
 */
module MergeLaws {
  import opened RingTypes
  import opened Conflicts
  import opened MergeSpec

  /** Whatever was merged, merging it a second time changes nothing and returns no change. */
  lemma MergeIsIdempotent(d: Ingesters, b: Ingesters, now: int)
    ensures var once := Merged(d, b, false, now);
      && MergeChange(once, Normalised(b), false, now) == None
      && Merged(once, b, false, now) == once
  {
    var n := Normalised(b);
    var once := MergeState(d, n, false, now);
    assert forall k :: k in once ==> once[k].(tokens := []) == Overlay(d, n)[k].(tokens := []);
    assert Updated(once, n, false) == {};
    EntriesOfNothing(once, n, false, now);
  }

  // ---------------------------------------------------------------- the returned change

  lemma ChangeClaims(e: Ingesters, u: set<string>, d: Ingesters, k: string, t: Token)
    requires u <= e.Keys && Normal(d) && Normal(e)
    requires forall j :: j in d || j in e ==> j in e && (j in u || (j in d && d[j] == e[j]))
    ensures Wins(OnlyUpdated(e, u, d), k, t) <==> Wins(e, k, t)
  {
    var m := OnlyUpdated(e, u, d);
    var r := Resolved(e);
    forall j ensures Claims(m, j, t) <==> Claims(e, j, t) && (j in u ==> Wins(e, j, t)) {
      ResolvedTokens(e, j, t);
    }
    if Wins(m, k, t) {
      var w := WinnerExists(e, k, t);
      assert Claims(m, w, t);
      BeatsIsTotal(e, w, k);
    }
  }

  /** d with the updated entries of e as conflict resolution left them. */
  ghost function OnlyUpdated(e: Ingesters, u: set<string>, d: Ingesters): Ingesters {
    map k | k in e && (k in u || k in d) :: if k in u then Resolved(e)[k] else d[k]
  }

  /** The clock has not fallen behind the entries that a local compare-and-swap buries. */
  ghost predicate ClockCoversBuried(d: Ingesters, b: Ingesters, localCAS: bool, now: int) {
    forall k :: Buried(Overlay(d, b), b, localCAS, k) ==> d[k].timestamp <= now
  }

  /** A peer in the state d that only receives the change. */
  ghost function ApplyChange(d: Ingesters, change: Option<Ingesters>, now: int): Ingesters {
    match change
    case None => d
    case Some(c) => Merged(d, c, false, now)
  }

  /**
   * The change alone brings another replica of the receiver to the receiver's new state, although instances that
   * merely lost tokens are not in it. With localCAS this is so exactly when the clock covers what is buried.
   */
  lemma ChangeSuffices(d: Ingesters, b: Ingesters, localCAS: bool, now: int, later: int)
    requires Clean(d) && Normal(b)
    ensures ApplyChange(d, MergeChange(d, b, localCAS, now), later) == MergeState(d, b, localCAS, now)
      <==> ClockCoversBuried(d, b, localCAS, now)
  {
    if Updated(d, b, localCAS) == {} {
      EntriesOfNothing(d, b, localCAS, now);
      assert forall k :: Buried(Overlay(d, b), b, localCAS, k) ==> k in Updated(d, b, localCAS);
    } else {
      ChangeIsResolved(d, b, localCAS, now);
      if ClockCoversBuried(d, b, localCAS, now) {
        ChangeIsEnough(d, b, localCAS, now, later);
      } else {
        ChangeIsIgnored(d, b, localCAS, now, later);
      }
    }
  }

  /** The change as a map: the resolved entries of the updated instances. */
  ghost function Delta(e: Ingesters, u: set<string>): Ingesters {
    map k | k in e && k in u :: Resolved(e)[k]
  }

  lemma ChangeIsResolved(d: Ingesters, b: Ingesters, localCAS: bool, now: int)
    requires Clean(d) && Normal(b) && Updated(d, b, localCAS) != {}
    ensures var e, u := Entries(d, b, localCAS, now), Updated(d, b, localCAS);
      MergeChange(d, b, localCAS, now) == Some(Delta(e, u)) && Normal(Delta(e, u))
  {
    var e, u := Entries(d, b, localCAS, now), Updated(d, b, localCAS);
    MergeResolves(d, b, localCAS, now);
    ResolvedIsClean(e);
    ResolvedKeepsTheRest(e);
    var s := MergeState(d, b, localCAS, now);
    assert (map k | k in s && k in u :: s[k]) == Delta(e, u);
  }

  lemma ChangeIsEnough(d: Ingesters, b: Ingesters, localCAS: bool, now: int, later: int)
    requires Clean(d) && Normal(b) && Updated(d, b, localCAS) != {} && ClockCoversBuried(d, b, localCAS, now)
    ensures var e, u := Entries(d, b, localCAS, now), Updated(d, b, localCAS);
      Merged(d, Delta(e, u), false, later) == MergeState(d, b, localCAS, now)
  {
    var e, u := Entries(d, b, localCAS, now), Updated(d, b, localCAS);
    var c := Delta(e, u);
    ChangeIsResolved(d, b, localCAS, now);
    NormalisedIsNormal(c);
    MergeResolves(d, c, false, later);
    MergeResolves(d, b, localCAS, now);
    PlainEntries(d, c, later);
    DeltaOverlay(d, b, localCAS, now);
    SameResolution(d, b, localCAS, now);
  }

  lemma PlainEntries(d: Ingesters, b: Ingesters, now: int)
    ensures Entries(d, b, false, now) == Overlay(d, b)
  {
  }

  /** A burial dated before the entry it buries: the peer keeps its live entry. */
  lemma ChangeIsIgnored(d: Ingesters, b: Ingesters, localCAS: bool, now: int, later: int)
    requires Clean(d) && Normal(b) && Updated(d, b, localCAS) != {} && !ClockCoversBuried(d, b, localCAS, now)
    ensures var e, u := Entries(d, b, localCAS, now), Updated(d, b, localCAS);
      Merged(d, Delta(e, u), false, later) != MergeState(d, b, localCAS, now)
  {
    var e, u := Entries(d, b, localCAS, now), Updated(d, b, localCAS);
    var c := Delta(e, u);
    var k :| Buried(Overlay(d, b), b, localCAS, k) && d[k].timestamp > now;
    assert e[k] == Tombstone(d[k], now);
    ChangeIsResolved(d, b, localCAS, now);
    NormalisedIsNormal(c);
    MergeResolves(d, c, false, later);
    MergeResolves(d, b, localCAS, now);
    PlainEntries(d, c, later);
    ResolvedKeepsTheRest(e);
    ResolvedKeepsTheRest(Overlay(d, c));
    assert Resolved(e)[k].(tokens := e[k].tokens) == e[k];
    assert Overlay(d, c)[k] == d[k];
    assert Resolved(Overlay(d, c))[k].(tokens := d[k].tokens) == d[k];
  }

  /** Every entry of the change replaces the old one. */
  lemma DeltaReplaces(d: Ingesters, b: Ingesters, localCAS: bool, now: int, k: string)
    requires ClockCoversBuried(d, b, localCAS, now)
    requires k in Updated(d, b, localCAS)
    ensures Accepts(Lookup(d, k), Entries(d, b, localCAS, now)[k])
  {
    if Buried(Overlay(d, b), b, localCAS, k) {
      assert d[k].timestamp <= now;
    }
  }

  lemma DeltaOverlayAt(d: Ingesters, b: Ingesters, localCAS: bool, now: int, k: string)
    requires ClockCoversBuried(d, b, localCAS, now)
    ensures var e, u := Entries(d, b, localCAS, now), Updated(d, b, localCAS);
      var o, m := Overlay(d, Delta(e, u)), OnlyUpdated(e, u, d);
      (k in o <==> k in m) && (k in o ==> o[k] == m[k])
  {
    var e, u := Entries(d, b, localCAS, now), Updated(d, b, localCAS);
    if k in u {
      DeltaReplaces(d, b, localCAS, now, k);
      assert Resolved(e)[k].(tokens := e[k].tokens) == e[k];
    }
  }

  lemma DeltaOverlay(d: Ingesters, b: Ingesters, localCAS: bool, now: int)
    requires ClockCoversBuried(d, b, localCAS, now)
    ensures var e, u := Entries(d, b, localCAS, now), Updated(d, b, localCAS);
      Overlay(d, Delta(e, u)) == OnlyUpdated(e, u, d)
  {
    forall k {
      DeltaOverlayAt(d, b, localCAS, now, k);
    }
  }

  lemma SameResolution(d: Ingesters, b: Ingesters, localCAS: bool, now: int)
    requires Clean(d) && Normal(b)
    ensures var e, u := Entries(d, b, localCAS, now), Updated(d, b, localCAS);
      Resolved(OnlyUpdated(e, u, d)) == Resolved(e)
  {
    var e, u := Entries(d, b, localCAS, now), Updated(d, b, localCAS);
    var m := OnlyUpdated(e, u, d);
    EntriesAreNormal(d, b, localCAS, now);
    assert u <= e.Keys;
    forall k, t: Token ensures Wins(m, k, t) <==> Wins(e, k, t) {
      ChangeClaims(e, u, d, k, t);
    }
    SameWinnersSameResult(m, e);
  }

  /**
   * A local compare-and-swap whose clock is behind the entry it buries: a peer that gets the change keeps the entry.
   */
  lemma ChangeNeedNotSuffice(k: string, d: Ingesters, later: int)
    requires d == map[k := InstanceDesc("", 2, ACTIVE, [], "", 0)]
    ensures ApplyChange(d, MergeChange(d, map[], true, 1), later) != MergeState(d, map[], true, 1)
  {
    assert Buried(Overlay(d, map[]), map[], true, k);
    ChangeSuffices(d, map[], true, 1, later);
  }

  // ---------------------------------------------------------------- commutativity

  /** The two copies are equally old and agree on whether the instance has left: neither replaces the other. */
  predicate Tied(d: Ingesters, b: Ingesters, k: string) {
    k in d && k in b && !Accepts(d[k], b[k]) && !Accepts(b[k], d[k])
  }

  /** Entries that only one side has would be accepted by the other. */
  predicate Welcome(d: Ingesters, b: Ingesters) {
    forall k :: k in b && k !in d ==> Accepts(ABSENT, b[k])
  }

  /** No token on which two tied copies of an entry disagree is won by that instance. */
  ghost predicate DisputesAreLost(d: Ingesters, b: Ingesters) {
    forall k, t :: Tied(d, b, k) && (t in d[k].tokens <==> t !in b[k].tokens)
      ==> !Wins(Overlay(d, b), k, t) && !Wins(Overlay(b, d), k, t)
  }

  ghost predicate Interchangeable(d: Ingesters, b: Ingesters) {
    && Welcome(d, b) && Welcome(b, d)
    && (forall k :: Tied(d, b, k) ==> d[k].(tokens := []) == b[k].(tokens := []))
    && DisputesAreLost(d, b)
  }

  lemma OverlaysAgree(d: Ingesters, b: Ingesters, k: string)
    ensures k in Overlay(d, b) && k in Overlay(b, d) && !Tied(d, b, k) ==> Overlay(d, b)[k] == Overlay(b, d)[k]
    ensures Tied(d, b, k) ==> Overlay(d, b)[k] == d[k] && Overlay(b, d)[k] == b[k]
  {
  }

  /** Merging two clean rings gives the same state both ways exactly when they are interchangeable. */
  lemma MergeCommutesExactly(d: Ingesters, b: Ingesters, now: int)
    requires Clean(d) && Clean(b)
    ensures Merged(d, b, false, now) == Merged(b, d, false, now) <==> Interchangeable(d, b)
  {
    NormalisedIsNormal(d);
    NormalisedIsNormal(b);
    MergeResolves(d, b, false, now);
    MergeResolves(b, d, false, now);
    assert Entries(d, b, false, now) == Overlay(d, b);
    assert Entries(b, d, false, now) == Overlay(b, d);
    var m, n := Overlay(d, b), Overlay(b, d);
    if Resolved(m) == Resolved(n) {
      MergeCommutesOnlyIf(d, b);
    }
    if Interchangeable(d, b) {
      MergeCommutesIf(d, b);
    }
  }

  lemma MergeCommutesOnlyIf(d: Ingesters, b: Ingesters)
    requires Clean(d) && Clean(b) && Resolved(Overlay(d, b)) == Resolved(Overlay(b, d))
    ensures Interchangeable(d, b)
  {
    var m, n := Overlay(d, b), Overlay(b, d);
    ResolvedKeepsTheRest(m);
    ResolvedKeepsTheRest(n);
    assert m.Keys == n.Keys;
    forall k | k in m ensures m[k].(tokens := []) == n[k].(tokens := []) {
      assert Resolved(m)[k].(tokens := []) == m[k].(tokens := []);
      assert Resolved(n)[k].(tokens := []) == n[k].(tokens := []);
    }
    forall k | k in b && k !in d ensures Accepts(ABSENT, b[k]) {
      assert k in n && k in m;
    }
    forall k | k in d && k !in b ensures Accepts(ABSENT, d[k]) {
      assert k in n && k in m;
    }
    SameWinnersSameResult(m, n);
    forall k | Tied(d, b, k) ensures d[k].(tokens := []) == b[k].(tokens := []) {
      OverlaysAgree(d, b, k);
    }
    forall k, t | Tied(d, b, k) && (t in d[k].tokens <==> t !in b[k].tokens) ensures !Wins(m, k, t) && !Wins(n, k, t) {
      OverlaysAgree(d, b, k);
      assert Claims(m, k, t) ==> t in d[k].tokens;
      assert Claims(n, k, t) ==> t in b[k].tokens;
    }
  }

  lemma MergeCommutesIf(d: Ingesters, b: Ingesters)
    requires Clean(d) && Clean(b) && Interchangeable(d, b)
    ensures Resolved(Overlay(d, b)) == Resolved(Overlay(b, d))
  {
    var m, n := Overlay(d, b), Overlay(b, d);
    forall k | k in m || k in n ensures k in m && k in n && m[k].(tokens := []) == n[k].(tokens := []) {
      OverlaysAgree(d, b, k);
    }
    forall k, t: Token ensures Wins(m, k, t) <==> Wins(n, k, t) {
      if Wins(m, k, t) {
        WinnerCarriesOver(d, b, k, t);
      }
      if Wins(n, k, t) {
        assert Interchangeable(b, d);
        WinnerCarriesOver(b, d, k, t);
      }
    }
    SameWinnersSameResult(m, n);
  }

  lemma WinnerCarriesOver(d: Ingesters, b: Ingesters, k: string, t: Token)
    requires Clean(d) && Clean(b) && Interchangeable(d, b)
    requires Overlay(d, b).Keys == Overlay(b, d).Keys
    requires forall j :: j in Overlay(d, b) ==> Overlay(d, b)[j].(tokens := []) == Overlay(b, d)[j].(tokens := [])
    requires Wins(Overlay(d, b), k, t)
    ensures Wins(Overlay(b, d), k, t)
  {
    var m, n := Overlay(d, b), Overlay(b, d);
    OverlaysAgree(d, b, k);
    assert Claims(n, k, t);
    var w := WinnerExists(n, k, t);
    OverlaysAgree(d, b, w);
    assert Claims(m, w, t);
    if w != k {
      assert Beats(m, k, w) && Beats(n, w, k);
      BeatsIsTotal(m, k, w);
      assert false;
    }
  }

  /** In particular: positive timestamps and equal entries on ties are enough. */
  lemma MergeCommutes(d: Ingesters, b: Ingesters, now: int)
    requires Clean(d) && Clean(b)
    requires forall k :: k in d ==> d[k].timestamp > 0
    requires forall k :: k in b ==> b[k].timestamp > 0
    requires forall k :: Tied(d, b, k) ==> d[k] == b[k]
    ensures Merged(d, b, false, now) == Merged(b, d, false, now)
  {
    MergeCommutesExactly(d, b, now);
  }

  /** Without agreement on ties the law fails: two heartbeats in one second with different addresses. */
  lemma MergeNeedNotCommute(d: Ingesters, b: Ingesters)
    requires d == map["a" := InstanceDesc("x", 1, ACTIVE, [], "", 0)]
    requires b == map["a" := InstanceDesc("y", 1, ACTIVE, [], "", 0)]
    ensures Clean(d) && Clean(b) && Merged(d, b, false, 0) != Merged(b, d, false, 0)
  {
    assert Tied(d, b, "a");
    assert d["a"].(tokens := []) != b["a"].(tokens := []);
    MergeCommutesExactly(d, b, 0);
  }

  // ---------------------------------------------------------------- convergence

  /**
   * How updates reached a replica: the receiver merges the full state of another node, or only the change that another
   * node gossips when it merges something.
   */
  datatype History =
    | Received(update: Ingesters)
    | MergeOf(receiver: History, incoming: History)
    | ChangeTo(receiver: History, sender: History, incoming: History)

  function Updates(h: History): set<Ingesters> {
    match h
    case Received(u) => {u}
    case MergeOf(l, r) => Updates(l) + Updates(r)
    case ChangeTo(l, _, r) => Updates(l) + Updates(r)
  }

  /** The updates of all nodes that took part, those included that a sender of changes keeps to itself. */
  function Sources(h: History): set<Ingesters> {
    match h
    case Received(u) => {u}
    case MergeOf(l, r) => Sources(l) + Sources(r)
    case ChangeTo(l, s, r) => Sources(l) + Sources(s) + Sources(r)
  }

  /** Each change arrives after the updates that its sender had when it merged. */
  predicate Informed(h: History) {
    match h
    case Received(_) => true
    case MergeOf(l, r) => Informed(l) && Informed(r)
    case ChangeTo(l, s, r) => Informed(l) && Informed(s) && Informed(r) && Updates(s) <= Updates(l)
  }

  ghost function Outcome(h: History): Ingesters {
    match h
    case Received(u) => u
    case MergeOf(l, r) => Merged(Outcome(l), Outcome(r), false, 0)
    case ChangeTo(l, s, r) => ApplyChange(Outcome(l), MergeChange(Outcome(s), Normalised(Outcome(r)), false, 0), 0)
  }

  /** What reached the replica: updates and changes. */
  ghost function Delivered(h: History): set<Ingesters> {
    match h
    case Received(u) => {u}
    case MergeOf(l, r) => Delivered(l) + Delivered(r)
    case ChangeTo(l, s, r) => Delivered(l) + Sent(Outcome(s), Outcome(r))
  }

  /** What a node in state d gossips when it merges n. */
  ghost function Sent(d: Ingesters, n: Ingesters): set<Ingesters> {
    match MergeChange(d, Normalised(n), false, 0)
    case None => {}
    case Some(c) => {c}
  }

  ghost predicate Agree(a: Ingesters, b: Ingesters) {
    && (forall k :: Tied(a, b, k) ==> a[k] == b[k])
    && (forall j, k, t :: j in a && k in b && t in a[j].tokens && t in b[k].tokens ==> j == k)
  }

  /** Updates that never claim a common token for two instances and never disagree on equally old entries. */
  ghost predicate Compatible(us: set<Ingesters>) {
    && (forall u :: u in us ==> Normal(u) && forall k :: k in u ==> Accepts(ABSENT, u[k]))
    && (forall a, b :: a in us && b in us ==> Agree(a, b))
  }

  ghost predicate Has(u: Ingesters, k: string, e: InstanceDesc) {
    k in u && u[k] == e
  }

  ghost predicate Offered(us: set<Ingesters>, k: string, e: InstanceDesc) {
    exists u :: u in us && Has(u, k, e)
  }

  /** m holds, for every instance, an entry of some update that no update would replace. */
  ghost predicate IsJoin(us: set<Ingesters>, m: Ingesters) {
    && (forall k :: k in m ==> Offered(us, k, m[k]))
    && (forall u, k :: u in us && k in u ==> k in m && !Accepts(m[k], u[k]))
  }

  lemma JoinIsUniqueAt(us: set<Ingesters>, m: Ingesters, n: Ingesters, k: string)
    requires Compatible(us) && IsJoin(us, m) && IsJoin(us, n) && k in m
    ensures k in n && m[k] == n[k]
  {
    assert Offered(us, k, m[k]);
    var u :| u in us && Has(u, k, m[k]);
    assert k in n;
    assert Offered(us, k, n[k]);
    var v :| v in us && Has(v, k, n[k]);
    assert Tied(u, v, k);
    assert Agree(u, v);
  }

  lemma JoinIsUnique(us: set<Ingesters>, m: Ingesters, n: Ingesters)
    requires Compatible(us) && IsJoin(us, m) && IsJoin(us, n)
    ensures m == n
  {
    forall k ensures SameEntry(m, n, k) {
      if k in m { JoinIsUniqueAt(us, m, n, k); }
      if k in n { JoinIsUniqueAt(us, n, m, k); }
    }
    SameMaps(m, n);
  }

  predicate SameEntry(m: Ingesters, n: Ingesters, k: string) {
    (k in m <==> k in n) && (k in m ==> m[k] == n[k])
  }

  lemma SameMaps(m: Ingesters, n: Ingesters)
    requires forall k :: SameEntry(m, n, k)
    ensures m == n
  {
    forall k ensures (k in m <==> k in n) && (k in m ==> m[k] == n[k]) {
      assert SameEntry(m, n, k);
    }
  }

  lemma JoinIsClean(us: set<Ingesters>, m: Ingesters)
    requires Compatible(us) && IsJoin(us, m)
    ensures Clean(m)
    ensures forall k :: k in m ==> Accepts(ABSENT, m[k])
  {
    forall k | k in m ensures NormalEntry(m[k]) && Accepts(ABSENT, m[k]) {
      assert Offered(us, k, m[k]);
      var u :| u in us && Has(u, k, m[k]);
    }
    forall j, k, t | j in m && k in m && t in m[j].tokens && t in m[k].tokens ensures j == k {
      assert Offered(us, j, m[j]) && Offered(us, k, m[k]);
      var u :| u in us && Has(u, j, m[j]);
      var v :| v in us && Has(v, k, m[k]);
      assert Agree(u, v);
    }
  }

  lemma OverlayOfJoins(us: set<Ingesters>, vs: set<Ingesters>, m: Ingesters, n: Ingesters)
    requires IsJoin(us, m) && IsJoin(vs, n)
    requires forall k :: k in n ==> Accepts(ABSENT, n[k])
    ensures IsJoin(us + vs, Overlay(m, n))
  {
    forall k | k in Overlay(m, n) ensures Offered(us + vs, k, Overlay(m, n)[k]) {
      OverlayOffers(us, vs, m, n, k);
    }
    forall w, k | w in us + vs && k in w ensures k in Overlay(m, n) && !Accepts(Overlay(m, n)[k], w[k]) {
      OverlayCovers(us, vs, m, n, w, k);
    }
  }

  lemma OverlayOffers(us: set<Ingesters>, vs: set<Ingesters>, m: Ingesters, n: Ingesters, k: string)
    requires IsJoin(us, m) && IsJoin(vs, n) && k in Overlay(m, n)
    ensures Offered(us + vs, k, Overlay(m, n)[k])
  {
    if Replaces(m, n, k) {
      assert Offered(vs, k, n[k]);
      var u :| u in vs && Has(u, k, n[k]);
      assert u in us + vs;
    } else {
      assert Offered(us, k, m[k]);
      var u :| u in us && Has(u, k, m[k]);
      assert u in us + vs;
    }
  }

  lemma OverlayCovers(us: set<Ingesters>, vs: set<Ingesters>, m: Ingesters, n: Ingesters, w: Ingesters, k: string)
    requires IsJoin(us, m) && IsJoin(vs, n) && w in us + vs && k in w
    requires forall j :: j in n ==> Accepts(ABSENT, n[j])
    ensures k in Overlay(m, n) && !Accepts(Overlay(m, n)[k], w[k])
  {
    if w in us {
      assert k in m && !Accepts(m[k], w[k]);
    } else {
      assert w in vs && k in n && !Accepts(n[k], w[k]);
    }
  }

  lemma MergeOfJoins(us: set<Ingesters>, vs: set<Ingesters>, m: Ingesters, n: Ingesters)
    requires Compatible(us) && Compatible(vs) && Compatible(us + vs) && IsJoin(us, m) && IsJoin(vs, n)
    ensures IsJoin(us + vs, Merged(m, n, false, 0))
  {
    JoinIsClean(us, m);
    JoinIsClean(vs, n);
    OverlayOfJoins(us, vs, m, n);
    JoinIsClean(us + vs, Overlay(m, n));
    MergeIsOverlay(m, n);
  }

  lemma PartsAreCompatible(us: set<Ingesters>, vs: set<Ingesters>)
    requires Compatible(vs) && us <= vs
    ensures Compatible(us)
  {
  }

  /** The change of merging n into d, for clean states without competing tokens: the entries of n that d accepts. */
  function Accepted(d: Ingesters, n: Ingesters): Ingesters {
    map k | k in n && Replaces(d, n, k) :: n[k]
  }

  lemma ChangeIsAccepted(d: Ingesters, n: Ingesters)
    requires Clean(d) && Clean(n) && Clean(Overlay(d, n))
    ensures MergeChange(d, Normalised(n), false, 0) == if Accepted(d, n) == map[] then None else Some(Accepted(d, n))
  {
    NormalisedIsNormal(n);
    MergeResolves(d, n, false, 0);
    PlainEntries(d, n, 0);
    ResolvedOfClean(Overlay(d, n));
    AcceptedIsUpdated(d, n);
    assert MergeState(d, n, false, 0) == Overlay(d, n);
  }

  lemma AcceptedIsUpdated(d: Ingesters, n: Ingesters)
    ensures Updated(d, n, false) == Accepted(d, n).Keys
    ensures (map k | k in Overlay(d, n) && k in Updated(d, n, false) :: Overlay(d, n)[k]) == Accepted(d, n)
    ensures Updated(d, n, false) == {} <==> Accepted(d, n) == map[]
  {
    assert Updated(d, n, false) == Accepted(d, n).Keys;
  }

  lemma MergeIsOverlay(m: Ingesters, c: Ingesters)
    requires Clean(m) && Normal(c) && Clean(Overlay(m, c))
    ensures Merged(m, c, false, 0) == Overlay(m, c)
  {
    NormalisedIsNormal(c);
    MergeResolves(m, c, false, 0);
    PlainEntries(m, c, 0);
    ResolvedOfClean(Overlay(m, c));
  }

  // ---------------------------------------------------------------- what was delivered decides

  /** All entries of vs are entries of us. */
  ghost predicate From(vs: set<Ingesters>, us: set<Ingesters>) {
    forall v, k :: v in vs && k in v ==> Offered(us, k, v[k])
  }

  lemma FromMore(vs: set<Ingesters>, us: set<Ingesters>, more: set<Ingesters>)
    requires From(vs, us) && us <= more
    ensures From(vs, more)
  {
    forall v, k | v in vs && k in v ensures Offered(more, k, v[k]) {
      assert Offered(us, k, v[k]);
      var u :| u in us && Has(u, k, v[k]);
    }
  }

  lemma FromIsCompatible(vs: set<Ingesters>, us: set<Ingesters>)
    requires Compatible(us) && From(vs, us)
    ensures Compatible(vs)
  {
    forall v, k | v in vs && k in v ensures NormalEntry(v[k]) && Accepts(ABSENT, v[k]) {
      assert Offered(us, k, v[k]);
      var u :| u in us && Has(u, k, v[k]);
    }
    forall a, b | a in vs && b in vs ensures Agree(a, b) {
      FromAgree(vs, us, a, b);
    }
  }

  lemma FromAgree(vs: set<Ingesters>, us: set<Ingesters>, a: Ingesters, b: Ingesters)
    requires Compatible(us) && From(vs, us) && a in vs && b in vs
    ensures Agree(a, b)
  {
    forall k | Tied(a, b, k) ensures a[k] == b[k] {
      assert Offered(us, k, a[k]) && Offered(us, k, b[k]);
      var u :| u in us && Has(u, k, a[k]);
      var w :| w in us && Has(w, k, b[k]);
      assert Agree(u, w) && Tied(u, w, k);
    }
    forall j, k, t | j in a && k in b && t in a[j].tokens && t in b[k].tokens ensures j == k {
      assert Offered(us, j, a[j]) && Offered(us, k, b[k]);
      var u :| u in us && Has(u, j, a[j]);
      var w :| w in us && Has(w, k, b[k]);
      assert Agree(u, w);
    }
  }

  lemma SenderIsClean(us: set<Ingesters>, vs: set<Ingesters>, d: Ingesters, n: Ingesters)
    requires Compatible(us + vs) && IsJoin(us, d) && IsJoin(vs, n)
    ensures Clean(d) && Clean(n) && Clean(Overlay(d, n))
    ensures forall k :: k in n ==> Accepts(ABSENT, n[k])
  {
    PartsAreCompatible(us, us + vs);
    PartsAreCompatible(vs, us + vs);
    JoinIsClean(us, d);
    JoinIsClean(vs, n);
    OverlayOfJoins(us, vs, d, n);
    JoinIsClean(us + vs, Overlay(d, n));
  }

  lemma AcceptedIsFrom(vs: set<Ingesters>, d: Ingesters, n: Ingesters)
    requires IsJoin(vs, n)
    ensures From({Accepted(d, n)}, vs)
  {
    forall k | k in Accepted(d, n) ensures Offered(vs, k, Accepted(d, n)[k]) {
      assert Offered(vs, k, n[k]);
    }
  }

  /** A change is itself a compatible update: its entries are entries of what the sender merges. */
  lemma SentIsAccepted(us: set<Ingesters>, vs: set<Ingesters>, d: Ingesters, n: Ingesters)
    requires Compatible(us + vs) && IsJoin(us, d) && IsJoin(vs, n)
    ensures MergeChange(d, Normalised(n), false, 0) == if Accepted(d, n) == map[] then None else Some(Accepted(d, n))
    ensures Sent(d, n) == if Accepted(d, n) == map[] then {} else {Accepted(d, n)}
  {
    SenderIsClean(us, vs, d, n);
    ChangeIsAccepted(d, n);
  }

  lemma ApplyToJoin(
    ls: set<Ingesters>, us: set<Ingesters>, vs: set<Ingesters>, m: Ingesters, d: Ingesters, n: Ingesters)
    requires Compatible(us + vs) && Compatible(ls + vs) && IsJoin(ls, m) && IsJoin(us, d) && IsJoin(vs, n)
    ensures IsJoin(ls + Sent(d, n), ApplyChange(m, MergeChange(d, Normalised(n), false, 0), 0))
  {
    var c := Accepted(d, n);
    SentIsAccepted(us, vs, d, n);
    if c == map[] {
      assert ls + {} == ls;
    } else {
      AcceptedIsFrom(vs, d, n);
      MergePart(ls, vs, m, c);
    }
  }

  lemma MergePart(ls: set<Ingesters>, vs: set<Ingesters>, m: Ingesters, c: Ingesters)
    requires Compatible(ls + vs) && IsJoin(ls, m) && From({c}, vs)
    ensures IsJoin(ls + {c}, Merged(m, c, false, 0))
  {
    FromMore({c}, vs, ls + vs);
    PartsAreFrom(ls, ls + vs);
    FromIsCompatible(ls + {c}, ls + vs);
    PartsAreCompatible(ls, ls + {c});
    PartsAreCompatible({c}, ls + {c});
    JoinOfOne(c);
    MergeOfJoins(ls, {c}, m, c);
  }

  lemma JoinOfOne(u: Ingesters)
    ensures IsJoin({u}, u)
  {
    assert forall k :: k in u ==> Has(u, k, u[k]);
  }

  lemma PartsAreFrom(vs: set<Ingesters>, us: set<Ingesters>)
    requires vs <= us
    ensures From(vs, us)
  {
    forall v, k | v in vs && k in v ensures Offered(us, k, v[k]) {
      assert Has(v, k, v[k]);
    }
  }

  /** A replica holds the newest of the entries that reached it. */
  lemma {:induction false} OutcomeIsJoin(h: History)
    requires Compatible(Sources(h))
    ensures From(Delivered(h), Sources(h)) && IsJoin(Delivered(h), Outcome(h))
    decreases h, 0
  {
    match h
    case Received(u) =>
      PartsAreFrom({u}, {u});
      JoinOfOne(u);
    case MergeOf(l, r) =>
      PartIsJoin(l, h);
      PartIsJoin(r, h);
      FromIsCompatible(Delivered(l) + Delivered(r), Sources(h));
      PartsAreCompatible(Delivered(l), Delivered(h));
      PartsAreCompatible(Delivered(r), Delivered(h));
      MergeOfJoins(Delivered(l), Delivered(r), Outcome(l), Outcome(r));
    case ChangeTo(l, s, r) =>
      PartIsJoin(l, h);
      PartIsJoin(s, h);
      PartIsJoin(r, h);
      FromIsCompatible(Delivered(s) + Delivered(r), Sources(h));
      FromIsCompatible(Delivered(l) + Delivered(r), Sources(h));
      SentIsAccepted(Delivered(s), Delivered(r), Outcome(s), Outcome(r));
      AcceptedIsFrom(Delivered(r), Outcome(s), Outcome(r));
      FromTwice({Accepted(Outcome(s), Outcome(r))}, Delivered(r), Sources(h));
      ApplyToJoin(Delivered(l), Delivered(s), Delivered(r), Outcome(l), Outcome(s), Outcome(r));
  }

  lemma {:induction false} PartIsJoin(part: History, h: History)
    requires part < h && Compatible(Sources(h)) && Sources(part) <= Sources(h)
    ensures From(Delivered(part), Sources(h)) && IsJoin(Delivered(part), Outcome(part))
    decreases part, 1
  {
    PartsAreCompatible(Sources(part), Sources(h));
    OutcomeIsJoin(part);
    FromMore(Delivered(part), Sources(part), Sources(h));
  }

  lemma FromTwice(vs: set<Ingesters>, us: set<Ingesters>, ws: set<Ingesters>)
    requires From(vs, us) && From(us, ws)
    ensures From(vs, ws)
  {
    forall v, k | v in vs && k in v ensures Offered(ws, k, v[k]) {
      assert Offered(us, k, v[k]);
      var u :| u in us && Has(u, k, v[k]);
      assert Offered(ws, k, u[k]);
    }
  }

  /** No entry of vs is newer than all that us has for its instance. */
  ghost predicate Covers(us: set<Ingesters>, vs: set<Ingesters>) {
    forall v, k :: v in vs && k in v ==> CoversEntry(us, k, v[k])
  }

  ghost predicate CoversEntry(us: set<Ingesters>, k: string, e: InstanceDesc) {
    exists u :: u in us && AsNew(u, k, e)
  }

  predicate AsNew(u: Ingesters, k: string, e: InstanceDesc) {
    k in u && !Accepts(u[k], e)
  }

  lemma JoinCovers(us: set<Ingesters>, m: Ingesters, k: string, e: InstanceDesc)
    requires IsJoin(us, m)
    ensures CoversEntry(us, k, e) <==> AsNew(m, k, e)
  {
    if CoversEntry(us, k, e) {
      var u :| u in us && AsNew(u, k, e);
    }
    if AsNew(m, k, e) {
      assert Offered(us, k, m[k]);
      var u :| u in us && Has(u, k, m[k]);
      assert AsNew(u, k, e);
    }
  }

  lemma JoinOfBoth(us: set<Ingesters>, vs: set<Ingesters>, m: Ingesters)
    requires IsJoin(us, m) && Covers(us, vs)
    ensures IsJoin(us + vs, m)
  {
    forall k | k in m ensures Offered(us + vs, k, m[k]) {
      assert Offered(us, k, m[k]);
      var u :| u in us && Has(u, k, m[k]);
      assert u in us + vs;
    }
    forall w, k | w in us + vs && k in w ensures k in m && !Accepts(m[k], w[k]) {
      if w in vs {
        JoinCovers(us, m, k, w[k]);
        assert AsNew(m, k, w[k]);
      }
    }
  }

  lemma EqualJoinsCover(us: set<Ingesters>, vs: set<Ingesters>, m: Ingesters)
    requires IsJoin(us, m) && IsJoin(vs, m)
    ensures Covers(us, vs)
  {
    forall v, k | v in vs && k in v ensures CoversEntry(us, k, v[k]) {
      assert AsNew(m, k, v[k]);
      JoinCovers(us, m, k, v[k]);
    }
  }

  /**
   * Whatever was lost, and in whatever order full states and changes were exchanged: two replicas end alike if and only
   * if neither was sent an entry that is newer than all the other was sent for that instance.
   */
  lemma ReplicasAgreeExactly(g: History, h: History)
    requires Compatible(Sources(g) + Sources(h))
    ensures Outcome(g) == Outcome(h)
      <==> Covers(Delivered(g), Delivered(h)) && Covers(Delivered(h), Delivered(g))
  {
    var us, vs, all := Delivered(g), Delivered(h), Sources(g) + Sources(h);
    PartsAreCompatible(Sources(g), all);
    PartsAreCompatible(Sources(h), all);
    OutcomeIsJoin(g);
    OutcomeIsJoin(h);
    FromMore(us, Sources(g), all);
    FromMore(vs, Sources(h), all);
    FromIsCompatible(us + vs, all);
    JoinsAgreeExactly(us, vs, Outcome(g), Outcome(h));
  }

  lemma JoinsAgreeExactly(us: set<Ingesters>, vs: set<Ingesters>, m: Ingesters, n: Ingesters)
    requires Compatible(us + vs) && IsJoin(us, m) && IsJoin(vs, n)
    ensures m == n <==> Covers(us, vs) && Covers(vs, us)
  {
    if m == n {
      EqualJoinsCover(us, vs, m);
      EqualJoinsCover(vs, us, m);
    }
    if Covers(us, vs) && Covers(vs, us) {
      CoveringJoinsAgree(us, vs, m, n);
    }
  }

  lemma CoveringJoinsAgree(us: set<Ingesters>, vs: set<Ingesters>, m: Ingesters, n: Ingesters)
    requires Compatible(us + vs) && IsJoin(us, m) && IsJoin(vs, n) && Covers(us, vs) && Covers(vs, us)
    ensures m == n
  {
    JoinOfBoth(us, vs, m);
    JoinOfBoth(vs, us, n);
    assert us + vs == vs + us;
    JoinIsUnique(us + vs, m, n);
  }

  /** If no change arrives too early, what was delivered covers all updates. */
  lemma {:induction false} InformedCovers(h: History)
    requires Compatible(Sources(h)) && Informed(h)
    ensures Covers(Delivered(h), Updates(h))
  {
    match h
    case Received(u) =>
      assert forall k :: k in u ==> AsNew(u, k, u[k]);
    case MergeOf(l, r) =>
      PartsAreCompatible(Sources(l), Sources(h));
      PartsAreCompatible(Sources(r), Sources(h));
      InformedCovers(l);
      InformedCovers(r);
      CoversMore(Delivered(l), Delivered(h), Updates(l));
      CoversMore(Delivered(r), Delivered(h), Updates(r));
    case ChangeTo(l, s, r) =>
      PartsAreCompatible(Sources(l), Sources(h));
      PartsAreCompatible(Sources(r), Sources(h));
      InformedCovers(l);
      InformedCovers(r);
      InformedSources(s);
      CoversMore(Delivered(l), Delivered(h), Updates(l));
      ChangeCovers(l, s, r);
  }

  lemma CoversMore(us: set<Ingesters>, more: set<Ingesters>, vs: set<Ingesters>)
    requires Covers(us, vs) && us <= more
    ensures Covers(more, vs)
  {
    forall v, k | v in vs && k in v ensures CoversEntry(more, k, v[k]) {
      assert CoversEntry(us, k, v[k]);
    }
  }

  /** What the sender merged has come with the change, or the receiver has nothing older. */
  lemma ChangeCovers(l: History, s: History, r: History)
    requires Compatible(Sources(ChangeTo(l, s, r))) && Sources(s) <= Updates(l)
    requires Covers(Delivered(l), Updates(l)) && Covers(Delivered(r), Updates(r))
    ensures Covers(Delivered(ChangeTo(l, s, r)), Updates(r))
  {
    var h := ChangeTo(l, s, r);
    PartIsJoin(s, h);
    PartIsJoin(r, h);
    FromIsCompatible(Delivered(s) + Delivered(r), Sources(h));
    SentIsAccepted(Delivered(s), Delivered(r), Outcome(s), Outcome(r));
    SenderIsClean(Delivered(s), Delivered(r), Outcome(s), Outcome(r));
    PartsAreCompatible(Sources(s), Sources(h));
    OutcomeIsJoin(s);
    forall w, k | w in Updates(r) && k in w
      ensures CoversEntry(Delivered(l) + Sent(Outcome(s), Outcome(r)), k, w[k])
    {
      assert CoversEntry(Delivered(r), k, w[k]);
      JoinCovers(Delivered(r), Outcome(r), k, w[k]);
      ChangeCoversEntry(Delivered(l), Delivered(s), Sources(s), Outcome(s), Outcome(r), k, w[k]);
    }
  }

  lemma ChangeCoversEntry(
    ls: set<Ingesters>, us: set<Ingesters>, os: set<Ingesters>, d: Ingesters, n: Ingesters, k: string, e: InstanceDesc)
    requires AsNew(n, k, e) && Accepts(ABSENT, n[k]) && IsJoin(us, d) && From(us, os) && Covers(ls, os)
    requires Sent(d, n) == if Accepted(d, n) == map[] then {} else {Accepted(d, n)}
    ensures CoversEntry(ls + Sent(d, n), k, e)
  {
    if Replaces(d, n, k) {
      SentCovers(d, n, k, e);
      CoversEntryMore(Sent(d, n), ls + Sent(d, n), k, e);
    } else {
      SenderIsAsNew(d, n, k, e);
      SenderHadIt(ls, us, os, d, k, e);
      CoversEntryMore(ls, ls + Sent(d, n), k, e);
    }
  }

  lemma SentCovers(d: Ingesters, n: Ingesters, k: string, e: InstanceDesc)
    requires Replaces(d, n, k) && AsNew(n, k, e)
    requires Sent(d, n) == if Accepted(d, n) == map[] then {} else {Accepted(d, n)}
    ensures CoversEntry(Sent(d, n), k, e)
  {
    assert k in Accepted(d, n) && Accepted(d, n) in Sent(d, n);
    CoversByOne(Sent(d, n), Accepted(d, n), k, e);
  }

  lemma SenderIsAsNew(d: Ingesters, n: Ingesters, k: string, e: InstanceDesc)
    requires !Replaces(d, n, k) && AsNew(n, k, e) && Accepts(ABSENT, n[k])
    ensures AsNew(d, k, e)
  {
  }

  lemma CoversByOne(us: set<Ingesters>, u: Ingesters, k: string, e: InstanceDesc)
    requires u in us && AsNew(u, k, e)
    ensures CoversEntry(us, k, e)
  {
  }

  lemma SenderHadIt(
    ls: set<Ingesters>, us: set<Ingesters>, os: set<Ingesters>, d: Ingesters, k: string, e: InstanceDesc)
    requires AsNew(d, k, e) && IsJoin(us, d) && From(us, os) && Covers(ls, os)
    ensures CoversEntry(ls, k, e)
  {
    CoversFrom(ls, os, us);
    JoinCovers(us, d, k, e);
    CoversCovered(ls, us, k, e);
  }

  lemma CoversCovered(us: set<Ingesters>, vs: set<Ingesters>, k: string, e: InstanceDesc)
    requires Covers(us, vs) && CoversEntry(vs, k, e)
    ensures CoversEntry(us, k, e)
  {
    var v :| v in vs && AsNew(v, k, e);
    assert CoversEntry(us, k, v[k]);
    var u :| u in us && AsNew(u, k, v[k]);
    assert AsNew(u, k, e);
  }

  lemma CoversEntryMore(us: set<Ingesters>, more: set<Ingesters>, k: string, e: InstanceDesc)
    requires CoversEntry(us, k, e) && us <= more
    ensures CoversEntry(more, k, e)
  {
  }

  /**
   * Convergence: any two histories of the same updates end alike, whatever the order, grouping and repetition, and
   * whether nodes exchange full states or only changes.
   */
  lemma ReplicasConverge(g: History, h: History)
    requires Updates(g) == Updates(h) && Compatible(Updates(g)) && Informed(g) && Informed(h)
    ensures Outcome(g) == Outcome(h)
  {
    InformedSources(g);
    InformedSources(h);
    InformedCovers(g);
    InformedCovers(h);
    OutcomeIsJoin(g);
    OutcomeIsJoin(h);
    CoversFrom(Delivered(g), Updates(g), Delivered(h));
    CoversFrom(Delivered(h), Updates(h), Delivered(g));
    ReplicasAgreeExactly(g, h);
  }

  lemma {:induction false} InformedSources(h: History)
    requires Informed(h)
    ensures Sources(h) == Updates(h)
  {
    match h
    case Received(_) =>
    case MergeOf(l, r) =>
      InformedSources(l);
      InformedSources(r);
    case ChangeTo(l, s, r) =>
      InformedSources(l);
      InformedSources(s);
      InformedSources(r);
  }

  lemma CoversFrom(us: set<Ingesters>, vs: set<Ingesters>, ws: set<Ingesters>)
    requires Covers(us, vs) && From(ws, vs)
    ensures Covers(us, ws)
  {
    forall w, k | w in ws && k in w ensures CoversEntry(us, k, w[k]) {
      assert Offered(vs, k, w[k]);
      var v :| v in vs && Has(v, k, w[k]);
      assert CoversEntry(us, k, v[k]);
    }
  }

  // ---------------------------------------------------------------- what conflict resolution forgets

  /** Every token that one of our surviving entries would win in the end, it had not lost before. */
  ghost predicate NothingToReturn(m: Ingesters, c: Ingesters) {
    forall k, t :: Wins(Overlay(m, c), k, t) && !Replaces(m, c, k) ==> Wins(m, k, t)
  }

  lemma LateClaims(m: Ingesters, c: Ingesters, k: string, t: Token)
    ensures Claims(Overlay(Resolved(m), c), k, t)
      <==> Claims(Overlay(m, c), k, t) && (Replaces(m, c, k) || Wins(m, k, t))
  {
    ResolvedTokens(m, k, t);
    ResolvedKeepsTheRest(m);
    if k in m {
      assert Resolved(m)[k].(tokens := m[k].tokens) == m[k];
    }
    assert Replaces(Resolved(m), c, k) == Replaces(m, c, k);
  }

  /**
   * Resolving conflicts after each of two merges gives what resolving once at the end would give, exactly when
   * there is nothing to return: a token lost at the first merge stays lost although its new owner leaves at the second.
   */
  lemma ResolvingTwiceExactly(m: Ingesters, c: Ingesters)
    ensures Resolved(Overlay(Resolved(m), c)) == Resolved(Overlay(m, c)) <==> NothingToReturn(m, c)
  {
    var early, late := Overlay(Resolved(m), c), Overlay(m, c);
    forall k ensures k in early <==> k in late
      ensures k in early ==> early[k].(tokens := []) == late[k].(tokens := [])
    {
      SameButTokens(m, c, k);
    }
    SameWinnersSameResult(early, late);
    if NothingToReturn(m, c) {
      forall k, t: Token ensures Wins(early, k, t) <==> Wins(late, k, t) {
        SameLateWinner(m, c, k, t);
      }
    } else {
      var k, t :| Wins(late, k, t) && !Replaces(m, c, k) && !Wins(m, k, t);
      LateClaims(m, c, k, t);
      assert !Wins(early, k, t);
    }
  }

  lemma SameButTokens(m: Ingesters, c: Ingesters, k: string)
    ensures var early, late := Overlay(Resolved(m), c), Overlay(m, c);
      (k in early <==> k in late) && (k in early ==> early[k].(tokens := []) == late[k].(tokens := []))
  {
    ResolvedKeepsTheRest(m);
    if k in m {
      assert Resolved(m)[k].(tokens := m[k].tokens) == m[k];
    }
    assert Replaces(Resolved(m), c, k) == Replaces(m, c, k);
  }

  lemma SameLateWinner(m: Ingesters, c: Ingesters, k: string, t: Token)
    requires NothingToReturn(m, c)
    ensures Wins(Overlay(Resolved(m), c), k, t) <==> Wins(Overlay(m, c), k, t)
  {
    var early, late := Overlay(Resolved(m), c), Overlay(m, c);
    LateClaims(m, c, k, t);
    if Claims(late, k, t) {
      var w := WinnerExists(late, k, t);
      LateClaims(m, c, w, t);
      forall j | Claims(early, j, t) ensures Claims(late, j, t) && (j != w ==> Beats(early, w, j)) {
        LateClaims(m, c, j, t);
        SameButTokens(m, c, j);
        SameButTokens(m, c, w);
      }
      assert Wins(early, w, t);
      if Wins(early, k, t) { WinnerIsUnique(early, k, w, t); }
      if Wins(late, k, t) { WinnerIsUnique(late, k, w, t); }
    }
  }

  // ---------------------------------------------------------------- associativity

  /** Mirror image of LateClaims: what is resolved first is merged into the other. */
  lemma EarlyClaims(a: Ingesters, n: Ingesters, k: string, t: Token)
    ensures Claims(Overlay(a, Resolved(n)), k, t)
      <==> Claims(Overlay(a, n), k, t) && (!Replaces(a, n, k) || Wins(n, k, t))
  {
    SameButTokensEarly(a, n, k);
    ResolvedTokens(n, k, t);
  }

  lemma SameButTokensEarly(a: Ingesters, n: Ingesters, k: string)
    ensures Replaces(a, Resolved(n), k) == Replaces(a, n, k)
    ensures var early, late := Overlay(a, Resolved(n)), Overlay(a, n);
      (k in early <==> k in late) && (k in early ==> early[k].(tokens := []) == late[k].(tokens := []))
  {
    ResolvedKeepsTheRest(n);
    if k in n {
      assert Resolved(n)[k].(tokens := n[k].tokens) == n[k];
    }
  }

  /** An entry of c that nobody would accept as a first one is not newer than that of a, if b has none. */
  predicate NoneIsStuck(a: Ingesters, b: Ingesters, c: Ingesters) {
    forall k :: k in a && k !in b && k in c && !Accepts(ABSENT, c[k]) ==> !Accepts(a[k], c[k])
  }

  /** Choosing entries is associative at k, unless an entry of c is stuck behind b. */
  lemma OverlayIsAssociativeAt(a: Ingesters, b: Ingesters, c: Ingesters, k: string)
    ensures var l, r := Overlay(Overlay(a, b), c), Overlay(a, Overlay(b, c));
      (k in a && k !in b && k in c && !Accepts(ABSENT, c[k]) ==> !Accepts(a[k], c[k]))
      <==> (k in l <==> k in r) && (k in l ==> l[k].(tokens := []) == r[k].(tokens := []))
    ensures var l, r := Overlay(Overlay(a, b), c), Overlay(a, Overlay(b, c));
      (k in a && k !in b && k in c && !Accepts(ABSENT, c[k]) ==> !Accepts(a[k], c[k]))
      ==> (k in l <==> k in r) && (k in l ==> l[k] == r[k])
  {
  }

  /** The entries of all three, the newest of each instance. */
  function OverlayOfThree(a: Ingesters, b: Ingesters, c: Ingesters): Ingesters {
    Overlay(Overlay(a, b), c)
  }

  /** k still claims t when c is merged into what a and b have become. */
  ghost predicate LeftClaim(a: Ingesters, b: Ingesters, c: Ingesters, k: string, t: Token) {
    Claims(OverlayOfThree(a, b, c), k, t) && (Replaces(Overlay(a, b), c, k) || Wins(Overlay(a, b), k, t))
  }

  /** k still claims t when what b and c have become is merged into a. */
  ghost predicate RightClaim(a: Ingesters, b: Ingesters, c: Ingesters, k: string, t: Token) {
    Claims(OverlayOfThree(a, b, c), k, t) && (!Replaces(a, Overlay(b, c), k) || Wins(Overlay(b, c), k, t))
  }

  ghost predicate LeftBest(a: Ingesters, b: Ingesters, c: Ingesters, k: string, t: Token) {
    && LeftClaim(a, b, c, k, t)
    && forall j :: LeftClaim(a, b, c, j, t) && j != k ==> Beats(OverlayOfThree(a, b, c), k, j)
  }

  ghost predicate RightBest(a: Ingesters, b: Ingesters, c: Ingesters, k: string, t: Token) {
    && RightClaim(a, b, c, k, t)
    && forall j :: RightClaim(a, b, c, j, t) && j != k ==> Beats(OverlayOfThree(a, b, c), k, j)
  }

  ghost predicate SameBest(a: Ingesters, b: Ingesters, c: Ingesters) {
    forall k, t :: LeftBest(a, b, c, k, t) <==> RightBest(a, b, c, k, t)
  }

  lemma LeftBestWins(a: Ingesters, b: Ingesters, c: Ingesters, k: string, t: Token)
    ensures LeftBest(a, b, c, k, t) <==> Wins(Overlay(Resolved(Overlay(a, b)), c), k, t)
  {
    var l, o := Overlay(Resolved(Overlay(a, b)), c), OverlayOfThree(a, b, c);
    forall j ensures Claims(l, j, t) <==> LeftClaim(a, b, c, j, t)
      ensures j in l <==> j in o
      ensures j in l ==> l[j].state == o[j].state
    {
      LateClaims(Overlay(a, b), c, j, t);
      SameButTokens(Overlay(a, b), c, j);
      assert j in l ==> l[j].(tokens := []).state == o[j].(tokens := []).state;
    }
  }

  lemma RightBestWins(a: Ingesters, b: Ingesters, c: Ingesters, k: string, t: Token)
    requires NoneIsStuck(a, b, c)
    ensures RightBest(a, b, c, k, t) <==> Wins(Overlay(a, Resolved(Overlay(b, c))), k, t)
  {
    var r, o := Overlay(a, Resolved(Overlay(b, c))), OverlayOfThree(a, b, c);
    forall j ensures Claims(r, j, t) <==> RightClaim(a, b, c, j, t)
      ensures j in r <==> j in o
      ensures j in r ==> r[j].state == o[j].state
    {
      EarlyClaims(a, Overlay(b, c), j, t);
      SameButTokensEarly(a, Overlay(b, c), j);
      OverlayIsAssociativeAt(a, b, c, j);
      assert j in r ==> r[j].(tokens := []).state == o[j].(tokens := []).state;
    }
  }

  lemma MergesOfThree(a: Ingesters, b: Ingesters, c: Ingesters)
    requires Clean(a) && Clean(b) && Normal(c)
    ensures Merged(Merged(a, b, false, 0), c, false, 0) == Resolved(Overlay(Resolved(Overlay(a, b)), c))
    ensures Merged(a, Merged(b, c, false, 0), false, 0) == Resolved(Overlay(a, Resolved(Overlay(b, c))))
  {
    NormalisedIsNormal(b);
    NormalisedIsNormal(c);
    MergeResolves(a, b, false, 0);
    PlainEntries(a, b, 0);
    MergeResolves(b, c, false, 0);
    PlainEntries(b, c, 0);
    var m, n := Resolved(Overlay(a, b)), Resolved(Overlay(b, c));
    MergeResolves(m, c, false, 0);
    PlainEntries(m, c, 0);
    NormalisedIsNormal(n);
    MergeResolves(a, n, false, 0);
    PlainEntries(a, n, 0);
  }

  /**
   * The documented associativity, exactly: grouping does not matter if and only if no entry of c is stuck behind b, and
   * for every token the best of those that still claim it is the same on both sides.
   */
  lemma MergeAssociatesExactly(a: Ingesters, b: Ingesters, c: Ingesters)
    requires Clean(a) && Clean(b) && Normal(c)
    ensures Merged(Merged(a, b, false, 0), c, false, 0) == Merged(a, Merged(b, c, false, 0), false, 0)
      <==> NoneIsStuck(a, b, c) && SameBest(a, b, c)
  {
    MergesOfThree(a, b, c);
    if NoneIsStuck(a, b, c) {
      SameBestSameResult(a, b, c);
    } else {
      var k :| k in a && k !in b && k in c && !Accepts(ABSENT, c[k]) && Accepts(a[k], c[k]);
      StuckMakesADifference(a, b, c, k);
    }
  }

  lemma SameBestSameResult(a: Ingesters, b: Ingesters, c: Ingesters)
    requires NoneIsStuck(a, b, c)
    ensures Resolved(Overlay(Resolved(Overlay(a, b)), c)) == Resolved(Overlay(a, Resolved(Overlay(b, c))))
      <==> SameBest(a, b, c)
  {
    var l, r := Overlay(Resolved(Overlay(a, b)), c), Overlay(a, Resolved(Overlay(b, c)));
    AlikeButForTokens(a, b, c);
    SameWinnersSameResult(l, r);
    forall k, t: Token
      ensures LeftBest(a, b, c, k, t) <==> Wins(l, k, t)
      ensures RightBest(a, b, c, k, t) <==> Wins(r, k, t)
    {
      LeftBestWins(a, b, c, k, t);
      RightBestWins(a, b, c, k, t);
    }
  }

  lemma AlikeButForTokens(a: Ingesters, b: Ingesters, c: Ingesters)
    requires NoneIsStuck(a, b, c)
    ensures var l, r := Overlay(Resolved(Overlay(a, b)), c), Overlay(a, Resolved(Overlay(b, c)));
      l.Keys == r.Keys && forall k :: k in l ==> l[k].(tokens := []) == r[k].(tokens := [])
  {
    var l, r := Overlay(Resolved(Overlay(a, b)), c), Overlay(a, Resolved(Overlay(b, c)));
    forall k ensures k in l <==> k in r
      ensures k in l ==> l[k].(tokens := []) == r[k].(tokens := [])
    {
      SameButTokens(Overlay(a, b), c, k);
      SameButTokensEarly(a, Overlay(b, c), k);
      OverlayIsAssociativeAt(a, b, c, k);
    }
  }

  lemma StuckMakesADifference(a: Ingesters, b: Ingesters, c: Ingesters, k: string)
    requires k in a && k !in b && k in c && !Accepts(ABSENT, c[k]) && Accepts(a[k], c[k])
    ensures Resolved(Overlay(Resolved(Overlay(a, b)), c)) != Resolved(Overlay(a, Resolved(Overlay(b, c))))
  {
    var l, r := Overlay(Resolved(Overlay(a, b)), c), Overlay(a, Resolved(Overlay(b, c)));
    SameButTokens(Overlay(a, b), c, k);
    SameButTokensEarly(a, Overlay(b, c), k);
    assert l[k].(tokens := []) == c[k].(tokens := []) && r[k].(tokens := []) == a[k].(tokens := []);
    ResolvedKeepsTheRest(l);
    ResolvedKeepsTheRest(r);
    assert Resolved(l)[k].(tokens := []) == l[k].(tokens := []);
    assert Resolved(r)[k].(tokens := []) == r[k].(tokens := []);
    assert c[k].(tokens := []).timestamp == c[k].timestamp && a[k].(tokens := []).timestamp == a[k].timestamp;
    assert c[k].(tokens := []).state == c[k].state && a[k].(tokens := []).state == a[k].state;
  }

  /** No token is claimed by two instances, be it in one map or in two. */
  ghost predicate NoCompetition(a: Ingesters, b: Ingesters, c: Ingesters) {
    forall x, y, j, k, t :: x in {a, b, c} && y in {a, b, c} && Lists(x, j, t) && Lists(y, k, t) ==> j == k
  }

  predicate Lists(m: Ingesters, k: string, t: Token) {
    k in m && t in m[k].tokens
  }

  lemma SameClaimsSameBest(a: Ingesters, b: Ingesters, c: Ingesters)
    requires forall k, t :: LeftClaim(a, b, c, k, t) <==> RightClaim(a, b, c, k, t)
    ensures SameBest(a, b, c)
  {
  }

  /** In particular: merging is associative for updates that do not compete for tokens. */
  lemma MergeIsAssociative(a: Ingesters, b: Ingesters, c: Ingesters)
    requires Normal(a) && Normal(b) && Normal(c) && NoCompetition(a, b, c)
    requires forall k :: k in c ==> Accepts(ABSENT, c[k])
    ensures Merged(Merged(a, b, false, 0), c, false, 0) == Merged(a, Merged(b, c, false, 0), false, 0)
  {
    forall m: Ingesters | m in {a, b, c} ensures ConflictFree(m) {
      forall j, k, t | j in m && k in m && t in m[j].tokens && t in m[k].tokens ensures j == k {
        assert Lists(m, j, t) && Lists(m, k, t);
      }
    }
    forall k, t: Token ensures LeftClaim(a, b, c, k, t) <==> RightClaim(a, b, c, k, t) {
      ClaimsArePreserved(a, b, c, k, t);
    }
    SameClaimsSameBest(a, b, c);
    MergeAssociatesExactly(a, b, c);
  }

  /** Whoever lists t in one of the maps is the only one to do so in all of them. */
  lemma SoleClaimant(a: Ingesters, b: Ingesters, c: Ingesters, m: Ingesters, k: string, t: Token)
    requires NoCompetition(a, b, c) && Claims(m, k, t)
    requires forall j :: j in m ==> exists x :: x in {a, b, c} && Has(x, j, m[j])
    ensures Wins(m, k, t)
  {
    forall j | Claims(m, j, t) ensures j == k {
      var x :| x in {a, b, c} && Has(x, j, m[j]);
      var y :| y in {a, b, c} && Has(y, k, m[k]);
      assert Lists(x, j, t) && Lists(y, k, t);
    }
  }

  lemma ClaimsArePreserved(a: Ingesters, b: Ingesters, c: Ingesters, k: string, t: Token)
    requires NoCompetition(a, b, c)
    ensures LeftClaim(a, b, c, k, t) <==> RightClaim(a, b, c, k, t)
  {
    var m, n, o := Overlay(a, b), Overlay(b, c), OverlayOfThree(a, b, c);
    forall j | j in m ensures exists x :: x in {a, b, c} && Has(x, j, m[j]) {
      assert Has(a, j, m[j]) || Has(b, j, m[j]);
    }
    forall j | j in n ensures exists x :: x in {a, b, c} && Has(x, j, n[j]) {
      assert Has(b, j, n[j]) || Has(c, j, n[j]);
    }
    if Claims(m, k, t) { SoleClaimant(a, b, c, m, k, t); }
    if Claims(n, k, t) { SoleClaimant(a, b, c, n, k, t); }
    OverlayIsAssociativeAt(a, b, c, k);
  }

  function Sample(timestamp: int, state: InstanceState, tokens: seq<Token>): InstanceDesc {
    InstanceDesc("", timestamp, state, tokens, "", 0)
  }

  const HOLDS_ONE: InstanceDesc := Sample(1, ACTIVE, [1])
  const GONE: InstanceDesc := Sample(2, LEFT, [])

  /** The documented associativity fails when tokens compete: y lost token 1 to x, x leaves, y never gets it back. */
  lemma MergeNeedNotAssociate(x: string, y: string, a: Ingesters, b: Ingesters, c: Ingesters)
    requires Less(x, y)
    requires a == map[x := HOLDS_ONE] && b == map[y := HOLDS_ONE] && c == map[x := GONE]
    ensures Merged(Merged(a, b, false, 0), c, false, 0) != Merged(a, Merged(b, c, false, 0), false, 0)
  {
    LessIsTotal(x, y);
    var m, n := Overlay(a, b), Overlay(b, c);
    assert Claims(m, x, 1) && !Beats(m, y, x);
    assert !Wins(m, y, 1);
    assert !LeftClaim(a, b, c, y, 1);
    assert Claims(n, y, 1) && forall j :: Claims(n, j, 1) ==> j == y;
    assert RightClaim(a, b, c, y, 1);
    assert RightBest(a, b, c, y, 1);
    MergeAssociatesExactly(a, b, c);
  }
}
