/**
 * Queued broadcasts: a newer change may push an older one out of the queue (ringBroadcast.Invalidates in
 * kv/memberlist/broadcast.go). Nothing is lost by that, over any run of the store of one node, for a peer that
 * receives only the newer change.
 */
module Broadcasts {
  import opened RingTypes
  import opened Conflicts
  import opened MergeSpec
  import opened KVStore
  import TokenLists

  datatype Broadcast = Broadcast(key: string, content: seq<string>, version: nat, change: Ingesters)

  predicate Obsoletes(b: Broadcast, prior: Broadcast) {
    && b.key == prior.key && b.version >= prior.version
    && forall name :: name in prior.content ==> name in b.content
  }

  method Invalidates(b: Broadcast, prior: Broadcast) returns (r: bool)
    ensures r <==> Obsoletes(b, prior)
  {
    if b.key != prior.key {
      return false;
    }
    for i := 0 to |prior.content|
      invariant forall name :: name in prior.content[..i] ==> name in b.content
    {
      var found := false;
      for j := 0 to |b.content|
        invariant !found && prior.content[i] !in b.content[..j]
      {
        if prior.content[i] == b.content[j] {
          found := true;
          break;
        }
      }
      if !found {
        assert b.content[..|b.content|] == b.content;
        return false;
      }
      assert prior.content[..i + 1] == prior.content[..i] + [prior.content[i]];
    }
    assert prior.content[..|prior.content|] == prior.content;
    r := b.version >= prior.version;
  }

  // ---------------------------------------------------------------- one node's store over time

  /** A value handed to the store: from a peer, or from a local compare-and-swap that got past the version check. */
  datatype Event = Event(incoming: Ingesters, cas: bool, now: int)

  ghost function Apply(s: Slot, e: Event): (Slot, PutOutcome) {
    Put(s, e.incoming, if e.cas then s.version else 0, e.now, None)
  }

  ghost function SlotAfter(s: Slot, events: seq<Event>): Slot {
    if events == [] then s else Apply(SlotAfter(s, events[..|events| - 1]), events[|events| - 1]).0
  }

  /** What event i of the run makes the node broadcast, if anything. */
  ghost function Outcome(s: Slot, events: seq<Event>, i: nat): PutOutcome
    requires i < |events|
  {
    Apply(SlotAfter(s, events[..i]), events[i]).1
  }

  /** Each token is only ever claimed by the one instance that own assigns it to. */
  ghost predicate Respects(m: Ingesters, own: Token -> string) {
    forall k, t :: k in m && t in m[k].tokens ==> own(t) == k
  }

  /** The hypotheses on a run: no competing claims, and a first value that is normalised. */
  ghost predicate Orderly(s: Slot, events: seq<Event>, own: Token -> string) {
    && (s.value.Some? ==> Normal(s.value.value) && Respects(s.value.value, own))
    && forall i :: 0 <= i < |events| ==> OrderlyEvent(SlotAfter(s, events[..i]), events[i], own)
  }

  ghost predicate OrderlyEvent(s: Slot, e: Event, own: Token -> string) {
    && Respects(e.incoming, own)
    && (s.value.None? ==> Normal(e.incoming))
  }

  /** The clock of a compare-and-swap is not behind the live entries that it buries. */
  ghost predicate Timely(s: Slot, e: Event) {
    s.value.Some? && e.cas && s.version > 0 ==>
      forall k :: k in s.value.value && k !in e.incoming && s.value.value[k].state != LEFT ==>
        s.value.value[k].timestamp <= e.now
  }

  /** Entries stay or are replaced by later ones. */
  ghost predicate Grows(a: Ingesters, b: Ingesters) {
    forall k :: k in a ==> k in b && (a[k] == b[k] || Accepts(a[k], b[k]))
  }

  lemma GrowsIsTransitive(a: Ingesters, b: Ingesters, c: Ingesters)
    requires Grows(a, b) && Grows(b, c)
    ensures Grows(a, c)
  {
    forall k | k in a ensures k in c && (a[k] == c[k] || Accepts(a[k], c[k])) {
      assert k in b;
    }
  }

  lemma RespectfulIsConflictFree(m: Ingesters, own: Token -> string)
    requires Respects(m, own)
    ensures ConflictFree(m)
  {
    forall j, k, t | j in m && k in m && t in m[j].tokens && t in m[k].tokens ensures j == k {
      assert own(t) == j && own(t) == k;
    }
  }

  lemma NormalisedRespects(m: Ingesters, own: Token -> string)
    requires Respects(m, own)
    ensures Respects(Normalised(m), own)
  {
    var n := Normalised(m);
    forall k, t | k in n && t in n[k].tokens ensures own(t) == k {
      TokenOfNormalised(m[k], t);
    }
  }

  lemma TokenOfNormalised(e: InstanceDesc, t: Token)
    requires t in NormalisedEntry(e).tokens
    ensures t in e.tokens
  {
    assert t in TokenLists.Elements(NormalisedEntry(e).tokens);
  }

  /** Merging without competing claims just chooses entries. */
  lemma MergeChooses(d: Ingesters, b: Ingesters, cas: bool, now: int, own: Token -> string)
    requires Normal(d) && Respects(d, own) && Normal(b) && Respects(b, own)
    ensures MergeState(d, b, cas, now) == Entries(d, b, cas, now)
    ensures Normal(Entries(d, b, cas, now)) && Respects(Entries(d, b, cas, now), own)
  {
    var e := Entries(d, b, cas, now);
    assert forall k :: k in e ==>
      e[k].tokens == [] || (k in d && e[k].tokens == d[k].tokens) || (k in b && e[k].tokens == b[k].tokens);
    RespectfulIsConflictFree(d, own);
    RespectfulIsConflictFree(e, own);
    MergeResolves(d, b, cas, now);
    EntriesAreNormal(d, b, cas, now);
    ResolvedOfClean(e);
  }

  ghost predicate GoodSlot(s: Slot, own: Token -> string) {
    s.value.Some? ==> Normal(s.value.value) && Respects(s.value.value, own)
  }

  /** One event: the store stays orderly, and the change is the new state of the entries it names. */
  lemma EventKeepsGood(s: Slot, e: Event, own: Token -> string)
    requires GoodSlot(s, own) && OrderlyEvent(s, e, own)
    ensures var (s', outcome) := Apply(s, e);
      && GoodSlot(s', own)
      && (s.value.Some? ==> s'.value.Some?)
      && (outcome.Stored? ==> IsPart(outcome.change, s'))
  {
    if s.value.Some? {
      var d, b := s.value.value, Normalised(e.incoming);
      var cas := e.cas && s.version > 0;
      NormalisedIsNormal(e.incoming);
      NormalisedRespects(e.incoming, own);
      MergeChooses(d, b, cas, e.now, own);
      ChangeNamesUpdated(d, b, cas, e.now);
    }
  }

  /** It grows, exactly if the event is timely. */
  lemma EventGrowsExactly(s: Slot, e: Event, own: Token -> string)
    requires GoodSlot(s, own) && OrderlyEvent(s, e, own) && s.value.Some?
    ensures Apply(s, e).0.value.Some?
    ensures Grows(s.value.value, Apply(s, e).0.value.value) <==> Timely(s, e)
  {
    var d, b := s.value.value, Normalised(e.incoming);
    var cas := e.cas && s.version > 0;
    NormalisedIsNormal(e.incoming);
    NormalisedRespects(e.incoming, own);
    MergeChooses(d, b, cas, e.now, own);
    EntriesGrowExactly(d, b, cas, e.now);
    NewValueIs(s, e, own);
  }

  lemma NewValueIs(s: Slot, e: Event, own: Token -> string)
    requires GoodSlot(s, own) && OrderlyEvent(s, e, own) && s.value.Some?
    ensures Apply(s, e).0.value == Some(Entries(s.value.value, Normalised(e.incoming), e.cas && s.version > 0, e.now))
  {
    var cas := e.cas && s.version > 0;
    NormalisedIsNormal(e.incoming);
    NormalisedRespects(e.incoming, own);
    MergeChooses(s.value.value, Normalised(e.incoming), cas, e.now, own);
    if NewValue(s.value, e.incoming, cas, e.now).1 == map[] {
      NoChangeMeansSame(s.value.value, e.incoming, cas, e.now);
    }
  }

  /** The change consists of entries of the stored value. */
  ghost predicate IsPart(change: Ingesters, s: Slot) {
    s.value.Some? && forall k :: k in change ==> k in s.value.value && change[k] == s.value.value[k]
  }

  lemma EntriesGrowExactly(d: Ingesters, b: Ingesters, cas: bool, now: int)
    ensures Grows(d, Entries(d, b, cas, now))
      <==> (cas ==> forall k :: k in d && k !in b && d[k].state != LEFT ==> d[k].timestamp <= now)
  {
    var e := Entries(d, b, cas, now);
    forall k | k in d ensures k in e && ((d[k] == e[k] || Accepts(d[k], e[k]))
      <==> (cas && k !in b && d[k].state != LEFT ==> d[k].timestamp <= now))
    {
      assert k in Overlay(d, b);
    }
  }

  lemma {:induction false} SlotIsGood(s: Slot, events: seq<Event>, own: Token -> string, i: nat)
    requires Orderly(s, events, own) && i <= |events|
    ensures GoodSlot(SlotAfter(s, events[..i]), own)
  {
    if i > 0 {
      SlotIsGood(s, events, own, i - 1);
      OneMoreEvent(s, events, i - 1);
      EventKeepsGood(SlotAfter(s, events[..i - 1]), events[i - 1], own);
    }
  }

  lemma OneMoreEvent(s: Slot, events: seq<Event>, i: nat)
    requires i < |events|
    ensures SlotAfter(s, events[..i + 1]) == Apply(SlotAfter(s, events[..i]), events[i]).0
  {
    assert events[..i + 1][..i] == events[..i];
  }

  ghost predicate TimelyAt(s: Slot, events: seq<Event>, h: nat)
    requires h < |events|
  {
    Timely(SlotAfter(s, events[..h]), events[h])
  }

  /** b has a value if a does, which is the same or a later one. */
  ghost predicate SlotGrows(a: Slot, b: Slot) {
    a.value.Some? ==> b.value.Some? && Grows(a.value.value, b.value.value)
  }

  lemma {:induction false} GrowsAllTheWay(slot: nat -> Slot, i: nat, j: nat)
    requires i <= j && forall h: nat :: i <= h < j ==> SlotGrows(slot(h), slot(h + 1))
    ensures SlotGrows(slot(i), slot(j))
    decreases j - i
  {
    if i == j {
      if slot(i).value.Some? {
        assert Grows(slot(i).value.value, slot(i).value.value);
      }
    } else {
      GrowsAllTheWay(slot, i + 1, j);
      assert SlotGrows(slot(i), slot(i + 1));
      if slot(i).value.Some? {
        GrowsIsTransitive(slot(i).value.value, slot(i + 1).value.value, slot(j).value.value);
      }
    }
  }

  /** As long as events are timely, entries are only replaced by later ones. */
  lemma StoreGrows(s: Slot, events: seq<Event>, own: Token -> string, i: nat, j: nat)
    requires Orderly(s, events, own) && i <= j <= |events|
    requires forall h :: i <= h < j ==> TimelyAt(s, events, h)
    ensures SlotGrows(SlotAfter(s, events[..i]), SlotAfter(s, events[..j]))
  {
    var slot := (h: nat) => if h <= |events| then SlotAfter(s, events[..h]) else s;
    forall h: nat | i <= h < j ensures SlotGrows(slot(h), slot(h + 1)) {
      assert TimelyAt(s, events, h);
      OneStepGrows(s, events, own, h);
    }
    GrowsAllTheWay(slot, i, j);
  }

  lemma OneStepGrows(s: Slot, events: seq<Event>, own: Token -> string, j: nat)
    requires Orderly(s, events, own) && j < |events| && TimelyAt(s, events, j)
    ensures SlotGrows(SlotAfter(s, events[..j]), SlotAfter(s, events[..j + 1]))
  {
    SlotIsGood(s, events, own, j);
    OneMoreEvent(s, events, j);
    if SlotAfter(s, events[..j]).value.Some? {
      EventGrowsExactly(SlotAfter(s, events[..j]), events[j], own);
    }
  }

  lemma {:induction false} NeverGoesDown(f: nat -> nat, i: nat, j: nat)
    requires i <= j && forall h: nat :: i <= h < j ==> f(h) <= f(h + 1)
    ensures f(i) <= f(j)
    decreases j - i
  {
    if i < j {
      NeverGoesDown(f, i + 1, j);
    }
  }

  lemma VersionsGrow(s: Slot, events: seq<Event>, i: nat, j: nat)
    requires i <= j <= |events|
    ensures SlotAfter(s, events[..i]).version <= SlotAfter(s, events[..j]).version
  {
    var version: nat -> nat := (h: nat) => if h <= |events| then SlotAfter(s, events[..h]).version else 0;
    forall h: nat | i <= h < j ensures version(h) <= version(h + 1) {
      OneStepRaisesVersion(s, events, h);
    }
    NeverGoesDown(version, i, j);
  }

  lemma OneStepRaisesVersion(s: Slot, events: seq<Event>, j: nat)
    requires j < |events|
    ensures SlotAfter(s, events[..j]).version <= SlotAfter(s, events[..j + 1]).version
  {
    OneMoreEvent(s, events, j);
    ApplyRaisesVersion(SlotAfter(s, events[..j]), events[j]);
  }

  lemma ApplyRaisesVersion(s: Slot, e: Event)
    ensures s.version <= Apply(s, e).0.version
  {
    PutRaisesVersionByOne(s, e.incoming, if e.cas then s.version else 0, e.now);
  }

  /** The broadcast that event i of a run puts into the queue. */
  ghost predicate Sends(s: Slot, events: seq<Event>, i: nat, b: Broadcast)
  {
    i < |events| && Outcome(s, events, i) == Stored(b.change, b.version)
    && forall name :: name in b.content <==> name in b.change
  }

  /** A peer that gets both changes, in whichever order they arrive, ends like one that gets only the later. */
  ghost predicate Redundant(p: Ingesters, c: Ingesters, later: Ingesters) {
    && Merged(Merged(p, c, false, 0), later, false, 0) == Merged(p, later, false, 0)
    && Merged(Merged(p, later, false, 0), c, false, 0) == Merged(p, later, false, 0)
  }

  /** A peer that merges a change which a later one covers might as well not have. */
  lemma LaterChangeSuffices(p: Ingesters, c: Ingesters, later: Ingesters, own: Token -> string)
    requires Normal(p) && Respects(p, own) && Normal(c) && Respects(c, own) && Normal(later) && Respects(later, own)
    requires Grows(c, later)
    ensures Redundant(p, c, later)
  {
    BothAndOne(p, c, later, own);
    SameEntries(p, c, later);
    KeepsEntries(p, c, later);
  }

  lemma SameEntries(p: Ingesters, c: Ingesters, later: Ingesters)
    requires Grows(c, later)
    ensures Entries(Entries(p, c, false, 0), later, false, 0) == Entries(p, later, false, 0)
  {
    forall k {
      SameEntryAt(p, c, later, k);
    }
  }

  lemma KeepsEntries(p: Ingesters, c: Ingesters, later: Ingesters)
    requires Grows(c, later)
    ensures Entries(Entries(p, later, false, 0), c, false, 0) == Entries(p, later, false, 0)
  {
    forall k {
      KeepsEntryAt(p, c, later, k);
    }
  }

  lemma BothAndOne(p: Ingesters, c: Ingesters, later: Ingesters, own: Token -> string)
    requires Normal(p) && Respects(p, own) && Normal(c) && Respects(c, own) && Normal(later) && Respects(later, own)
    ensures Merged(Merged(p, c, false, 0), later, false, 0) == Entries(Entries(p, c, false, 0), later, false, 0)
    ensures Merged(p, later, false, 0) == Entries(p, later, false, 0)
    ensures Merged(Merged(p, later, false, 0), c, false, 0) == Entries(Entries(p, later, false, 0), c, false, 0)
  {
    NormalisedIsNormal(c);
    NormalisedIsNormal(later);
    MergeChooses(p, c, false, 0, own);
    MergeChooses(Entries(p, later, false, 0), c, false, 0, own);
    MergeChooses(Entries(p, c, false, 0), later, false, 0, own);
    MergeChooses(p, later, false, 0, own);
  }

  /** Otherwise there is a peer, with a slightly older entry, that keeps what the later change has taken back. */
  lemma SomePeerDiffers(c: Ingesters, later: Ingesters, own: Token -> string) returns (p: Ingesters)
    requires Normal(c) && Respects(c, own) && Normal(later) && Respects(later, own)
    requires !Grows(c, later) && c.Keys <= later.Keys
    ensures Normal(p) && Respects(p, own) && !Redundant(p, c, later)
  {
    var k :| k in c && c[k] != later[k] && !Accepts(c[k], later[k]);
    var older := c[k].(timestamp := c[k].timestamp - 1, tokens := []);
    p := map[k := older];
    BothAndOne(p, c, later, own);
    assert Overlay(p, c)[k] == c[k];
    assert Entries(Entries(p, c, false, 0), later, false, 0)[k] == c[k];
    assert older != c[k] by { assert older.timestamp != c[k].timestamp; }
    assert Entries(p, later, false, 0)[k] in {older, later[k]};
  }

  lemma SameEntryAt(p: Ingesters, c: Ingesters, later: Ingesters, k: string)
    requires Grows(c, later)
    ensures var q := Entries(p, c, false, 0);
      var x, y := Entries(q, later, false, 0), Entries(p, later, false, 0);
      (k in x <==> k in y) && (k in x ==> x[k] == y[k])
  {
    if k in c {
      assert k in later && (c[k] == later[k] || Accepts(c[k], later[k]));
    }
  }

  lemma KeepsEntryAt(p: Ingesters, c: Ingesters, later: Ingesters, k: string)
    requires Grows(c, later)
    ensures var q := Entries(p, later, false, 0);
      var x := Entries(q, c, false, 0);
      (k in x <==> k in q) && (k in x ==> x[k] == q[k])
  {
    if k in c {
      assert k in later && (c[k] == later[k] || Accepts(c[k], later[k]));
    }
  }

  lemma PartsGrow(c: Ingesters, later: Ingesters, s: Slot, s': Slot)
    requires IsPart(c, s) && IsPart(later, s') && SlotGrows(s, s') && c.Keys <= later.Keys
    ensures Grows(c, later)
  {
  }

  lemma Covered(s: Slot, events: seq<Event>, own: Token -> string, i: nat, j: nat, prior: Broadcast, b: Broadcast)
    requires Orderly(s, events, own) && Sends(s, events, i, prior) && Sends(s, events, j, b) && Obsoletes(b, prior)
    ensures i <= j && prior.change.Keys <= b.change.Keys
    ensures Normal(prior.change) && Respects(prior.change, own) && Normal(b.change) && Respects(b.change, own)
    ensures IsPart(prior.change, SlotAfter(s, events[..i + 1])) && IsPart(b.change, SlotAfter(s, events[..j + 1]))
  {
    SentChange(s, events, own, i, prior);
    SentChange(s, events, own, j, b);
    if j < i {
      VersionsGrow(s, events, j + 1, i);
      assert false;
    }
    forall k | k in prior.change ensures k in b.change {
      assert k in prior.content && k in b.content;
    }
  }

  /**
   * If a broadcast invalidates an older one of the same run, it does not matter to any peer whether it receives both,
   * in either order, or only the newer, provided the events after the older one were timely.
   */
  lemma InvalidatedBroadcastIsRedundant(
    s: Slot, events: seq<Event>, own: Token -> string, i: nat, j: nat, prior: Broadcast, b: Broadcast, p: Ingesters)
    requires Orderly(s, events, own) && Sends(s, events, i, prior) && Sends(s, events, j, b) && Obsoletes(b, prior)
    requires forall h :: i < h <= j ==> TimelyAt(s, events, h)
    requires Normal(p) && Respects(p, own)
    ensures Redundant(p, prior.change, b.change)
  {
    Covered(s, events, own, i, j, prior, b);
    StoreGrows(s, events, own, i + 1, j + 1);
    PartsGrow(prior.change, b.change, SlotAfter(s, events[..i + 1]), SlotAfter(s, events[..j + 1]));
    LaterChangeSuffices(p, prior.change, b.change, own);
  }

  /**
   * Whatever the clocks, it matters to no peer if and only if the newer change holds the same or later entries, which
   * the node could compare before it drops the older one.
   */
  lemma InvalidatedBroadcastIsRedundantExactly(
    s: Slot, events: seq<Event>, own: Token -> string, i: nat, j: nat, prior: Broadcast, b: Broadcast)
    requires Orderly(s, events, own) && Sends(s, events, i, prior) && Sends(s, events, j, b) && Obsoletes(b, prior)
    ensures (forall p :: Normal(p) && Respects(p, own) ==> Redundant(p, prior.change, b.change))
      <==> Grows(prior.change, b.change)
  {
    Covered(s, events, own, i, j, prior, b);
    if Grows(prior.change, b.change) {
      forall p | Normal(p) && Respects(p, own) ensures Redundant(p, prior.change, b.change) {
        LaterChangeSuffices(p, prior.change, b.change, own);
      }
    } else {
      var p := SomePeerDiffers(prior.change, b.change, own);
    }
  }

  lemma LateBurial(key: string, k: string, e: InstanceDesc) returns (events: seq<Event>, prior: Broadcast, b: Broadcast)
    requires e == InstanceDesc("", 10, ACTIVE, [], "", 0)
    ensures Orderly(EMPTY_SLOT, events, t => "")
    ensures Sends(EMPTY_SLOT, events, 0, prior) && Sends(EMPTY_SLOT, events, 1, b) && Obsoletes(b, prior)
    ensures prior.change == map[k := e] && b.change == map[k := Tombstone(e, 5)]
  {
    events := [Event(map[k := e], false, 10), Event(map[], true, 5)];
    var tomb := Tombstone(e, 5);
    var s1 := Slot(Some(map[k := e]), 1);
    BuryOne(k, e, 5);
    assert events[..0] == [] && k in map[k := e];
    assert Apply(EMPTY_SLOT, events[0]) == (s1, Stored(map[k := e], 1));
    OneMoreEvent(EMPTY_SLOT, events, 0);
    assert SlotAfter(EMPTY_SLOT, events[..1]) == s1;
    prior := Broadcast(key, [k], 1, map[k := e]);
    b := Broadcast(key, [k], 2, map[k := tomb]);
    assert Apply(s1, events[1]) == (Slot(Some(map[k := tomb]), 2), Stored(map[k := tomb], 2));
  }

  /**
   * A run in which dropping the older broadcast loses something: k is stored with timestamp 10, then a compare-and-swap
   * at time 5 buries it. A peer that gets both keeps the live entry, one that gets only the newer the tombstone.
   */
  lemma DroppingCanLose(key: string, k: string, e: InstanceDesc)
    returns (events: seq<Event>, prior: Broadcast, b: Broadcast, p: Ingesters)
    requires e == InstanceDesc("", 10, ACTIVE, [], "", 0)
    ensures Orderly(EMPTY_SLOT, events, t => "")
    ensures Sends(EMPTY_SLOT, events, 0, prior) && Sends(EMPTY_SLOT, events, 1, b) && Obsoletes(b, prior)
    ensures Normal(p) && Respects(p, t => "") && !Redundant(p, prior.change, b.change)
  {
    events, prior, b := LateBurial(key, k, e);
    var tomb := Tombstone(e, 5);
    assert tomb.timestamp == 5 && !Accepts(e, tomb) && k in prior.change;
    p := SomePeerDiffers(prior.change, b.change, t => "");
  }

  lemma BuryOne(k: string, e: InstanceDesc, now: int)
    requires e.state == ACTIVE && e.tokens == []
    ensures NewValue(Some(map[k := e]), map[], true, now) == (map[k := Tombstone(e, now)], map[k := Tombstone(e, now)])
  {
    var d: Ingesters := map[k := e];
    var n: Ingesters := map[];
    assert Normalised(n) == n;
    assert Overlay(d, n) == d && Buried(d, n, true, k);
    assert Entries(d, n, true, now) == map[k := Tombstone(e, now)];
    assert !TokensChanged(d, n);
    assert MergeState(d, n, true, now) == map[k := Tombstone(e, now)];
    assert Updated(d, n, true) == {k};
    assert MergeChange(d, n, true, now).Some?;
    assert MergeChange(d, n, true, now).value == map[k := Tombstone(e, now)];
  }

  lemma SentChange(s: Slot, events: seq<Event>, own: Token -> string, i: nat, b: Broadcast)
    requires Orderly(s, events, own) && Sends(s, events, i, b)
    ensures IsPart(b.change, SlotAfter(s, events[..i + 1]))
    ensures SlotAfter(s, events[..i + 1]).version == b.version == SlotAfter(s, events[..i]).version + 1
    ensures Normal(b.change) && Respects(b.change, own)
  {
    SlotIsGood(s, events, own, i);
    OneMoreEvent(s, events, i);
    var before := SlotAfter(s, events[..i]);
    EventKeepsGood(before, events[i], own);
    PutRaisesVersionByOne(before, events[i].incoming, if events[i].cas then before.version else 0, events[i].now);
    var after := SlotAfter(s, events[..i + 1]).value.value;
    SlotIsGood(s, events, own, i + 1);
    forall k | k in b.change ensures k in after && b.change[k] == after[k] {}
  }
}
