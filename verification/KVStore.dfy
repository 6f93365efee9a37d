/** The replicated key-value store: one merged value and a version per key (kv/memberlist/memberlist_client.go). */
module KVStore {
  import opened RingTypes
  import opened Conflicts
  import opened MergeSpec
  import RingDesc

  datatype Slot = Slot(value: Option<Ingesters>, version: nat)

  const EMPTY_SLOT: Slot := Slot(None, 0)

  datatype PutOutcome = VersionMismatch | NoChange | Stored(change: Ingesters, version: nat)

  function SlotAt(store: map<string, Slot>, key: string): Slot {
    if key in store then store[key] else EMPTY_SLOT
  }

  /** computeNewValue: the value after merging, and the change. A first value is taken as it arrives. */
  ghost function NewValue(prior: Option<Ingesters>, incoming: Ingesters, cas: bool, now: int): (Ingesters, Ingesters) {
    match prior
    case None => (incoming, incoming)
    case Some(v) =>
      var change := MergeChange(v, Normalised(incoming), cas, now);
      (Merged(v, incoming, cas, now), if change.Some? then change.value else map[])
  }

  /**
   * mergeValueForKey on one key. With an expiry limit, tombstones older than the limit are dropped from value and
   * change; when that empties the change nothing is stored, although the value has already been merged in place.
   */
  ghost function Put(s: Slot, incoming: Ingesters, casVersion: nat, now: int, expiry: Option<int>): (Slot, PutOutcome) {
    if casVersion > 0 && s.version != casVersion then (s, VersionMismatch)
    else
      var (value, change) := NewValue(s.value, incoming, casVersion > 0, now);
      if change == map[] then (s, NoChange)
      else
        var value' := if expiry.Some? then RingDesc.Survivors(value, expiry) else value;
        var change' := if expiry.Some? then RingDesc.Survivors(change, expiry) else change;
        if change' == map[] then (if s.value.None? then s else s.(value := Some(value')), NoChange)
        else (Slot(Some(value'), s.version + 1), Stored(change', s.version + 1))
  }

  class KV {
    var store: map<string, Slot>

    constructor ()
      ensures store == map[]
    {
      store := map[];
    }

    /** The value without its tombstones, and its version. */
    method Get(key: string) returns (value: Option<Ingesters>, version: nat)
      ensures version == SlotAt(store, key).version
      ensures value == Visible(SlotAt(store, key).value)
    {
      var v := SlotAt(store, key);
      version := v.version;
      value := v.value;
      if value.Some? {
        var copy := new RingDesc.Desc(value.value);
        var total, removed := copy.RemoveTombstones(None);
        value := Some(copy.ingesters);
      }
    }

    method MergeValueForKey(key: string, incoming: Ingesters, casVersion: nat, now: int, expiry: Option<int>)
      returns (outcome: PutOutcome)
      modifies this
      ensures SlotAt(store, key) == Put(SlotAt(old(store), key), incoming, casVersion, now, expiry).0
      ensures outcome == Put(SlotAt(old(store), key), incoming, casVersion, now, expiry).1
      ensures store - {key} == old(store) - {key}
    {
      var curr := SlotAt(store, key);
      if casVersion > 0 && curr.version != casVersion {
        return VersionMismatch;
      }
      var value, change := ComputeNewValue(curr.value, incoming, casVersion > 0, now);
      if change == map[] {
        return NoChange;
      }
      if expiry.Some? {
        value := WithoutOld(value, expiry);
        change := WithoutOld(change, expiry);
        if change == map[] {
          if curr.value.Some? {
            store := store[key := curr.(value := Some(value))];
          }
          return NoChange;
        }
      }
      store := store[key := Slot(Some(value), curr.version + 1)];
      outcome := Stored(change, curr.version + 1);
    }
  }

  method ComputeNewValue(prior: Option<Ingesters>, incoming: Ingesters, cas: bool, now: int)
    returns (value: Ingesters, change: Ingesters)
    ensures (value, change) == NewValue(prior, incoming, cas, now)
  {
    if prior.None? {
      return incoming, incoming;
    }
    var result := new RingDesc.Desc(prior.value);
    var other := new RingDesc.Desc(incoming);
    var delta := result.MergeWithTime(other, cas, now);
    value := result.ingesters;
    change := if delta.Some? then delta.value else map[];
  }

  method WithoutOld(m: Ingesters, limit: Option<int>) returns (r: Ingesters)
    ensures r == RingDesc.Survivors(m, limit)
  {
    var desc := new RingDesc.Desc(m);
    var total, removed := desc.RemoveTombstones(limit);
    r := desc.ingesters;
  }

  /** What clients see: tombstones are hidden. */
  function Visible(value: Option<Ingesters>): Option<Ingesters> {
    match value
    case None => None
    case Some(v) => Some(RingDesc.Survivors(v, None))
  }

  /** With tombstone expiry off: either nothing at all changes, or the version goes up by exactly one. */
  lemma PutRaisesVersionByOne(s: Slot, incoming: Ingesters, casVersion: nat, now: int)
    ensures var (s', outcome) := Put(s, incoming, casVersion, now, None);
      if outcome.Stored? then
        s'.version == s.version + 1 == outcome.version && s'.value.Some? && outcome.change != map[]
      else s' == s
  {
  }

  lemma ChangeNamesUpdated(v: Ingesters, b: Ingesters, cas: bool, now: int)
    ensures Updated(v, b, cas) == {} <==> MergeChange(v, b, cas, now).None?
    ensures MergeChange(v, b, cas, now).Some? ==> MergeChange(v, b, cas, now).value.Keys == Updated(v, b, cas)
  {
  }

  /** A merge that reports no change has left the value alone, so that not storing it loses nothing. */
  lemma NoChangeMeansSame(v: Ingesters, incoming: Ingesters, cas: bool, now: int)
    requires NewValue(Some(v), incoming, cas, now).1 == map[]
    ensures NewValue(Some(v), incoming, cas, now).0 == v
  {
    ChangeNamesUpdated(v, Normalised(incoming), cas, now);
    EntriesOfNothing(v, Normalised(incoming), cas, now);
  }

  // ---------------------------------------------------------------- changes without a new version

  /** The value changes, but not the version, so that no watcher is told and nothing is gossiped. */
  ghost predicate ChangesSilently(s: Slot, incoming: Ingesters, casVersion: nat, now: int, expiry: Option<int>) {
    var s' := Put(s, incoming, casVersion, now, expiry).0;
    s'.value != s.value && s'.version == s.version
  }

  /** Something, but nothing other than tombstones beyond the limit. */
  ghost predicate OnlyOldTombstones(change: Ingesters, expiry: Option<int>) {
    change != map[] && forall k :: k in change ==> RingDesc.Expired(change[k], expiry)
  }

  /** An instance of the value is named by the change, is itself a tombstone beyond the limit, or loses tokens. */
  ghost predicate IsTouched(v: Ingesters, incoming: Ingesters, cas: bool, now: int, expiry: Option<int>, k: string) {
    var (value, change) := NewValue(Some(v), incoming, cas, now);
    k in v && (k in change || RingDesc.Expired(v[k], expiry) || !Keeps(value, v, k))
  }

  ghost predicate TouchesValue(v: Ingesters, incoming: Ingesters, cas: bool, now: int, expiry: Option<int>) {
    exists k :: IsTouched(v, incoming, cas, now, expiry, k)
  }

  predicate Keeps(value: Ingesters, v: Ingesters, k: string) {
    k in v && k in value && value[k] == v[k]
  }

  lemma OutsideChange(v: Ingesters, b: Ingesters, cas: bool, now: int, k: string)
    requires k !in Updated(v, b, cas)
    ensures var m := MergeState(v, b, cas, now);
      (k in m <==> k in v) && (k in m ==> m[k].(tokens := []) == v[k].(tokens := []))
  {
    var e := Entries(v, b, cas, now);
    ResolvedKeepsTheRest(e);
    assert k in e <==> k in v;
    if k in e {
      assert e[k] == v[k];
      assert Resolved(e)[k].(tokens := e[k].tokens) == e[k];
    }
  }

  /** What is left of instance k when all changes are tombstones beyond the limit. */
  lemma LeftOf(v: Ingesters, incoming: Ingesters, cas: bool, now: int, expiry: Option<int>, k: string)
    requires OnlyOldTombstones(NewValue(Some(v), incoming, cas, now).1, expiry)
    ensures var value := RingDesc.Survivors(NewValue(Some(v), incoming, cas, now).0, expiry);
      if k in v then Keeps(value, v, k) <==> !IsTouched(v, incoming, cas, now, expiry, k) else k !in value
  {
    var b := Normalised(incoming);
    var (value, change) := NewValue(Some(v), incoming, cas, now);
    ChangeNamesUpdated(v, b, cas, now);
    if k in Updated(v, b, cas) {
      assert k in change;
    } else {
      OutsideChange(v, b, cas, now, k);
      if k in v {
        assert value[k].(tokens := []).state == v[k].(tokens := []).state;
        assert value[k].(tokens := []).timestamp == v[k].(tokens := []).timestamp;
      }
    }
  }

  /**
   * With expiry, the value changes silently if and only if the merge yields nothing but tombstones beyond the limit,
   * and touches an instance of the value.
   */
  lemma ChangesSilentlyExactly(s: Slot, incoming: Ingesters, casVersion: nat, now: int, expiry: Option<int>)
    ensures ChangesSilently(s, incoming, casVersion, now, expiry) <==>
      && s.value.Some? && expiry.Some? && (casVersion > 0 ==> s.version == casVersion)
      && OnlyOldTombstones(NewValue(s.value, incoming, casVersion > 0, now).1, expiry)
      && TouchesValue(s.value.value, incoming, casVersion > 0, now, expiry)
  {
    var cas := casVersion > 0;
    var (value, change) := NewValue(s.value, incoming, cas, now);
    if s.value.Some? && expiry.Some? && (cas ==> s.version == casVersion) && change != map[] {
      var v, value' := s.value.value, RingDesc.Survivors(value, expiry);
      NoSurvivorsIf(change, expiry);
      if OnlyOldTombstones(change, expiry) {
        assert Put(s, incoming, casVersion, now, expiry).0 == s.(value := Some(value'));
        UntouchedIsKept(v, incoming, cas, now, expiry);
      }
    }
  }

  lemma NoSurvivorsIf(change: Ingesters, expiry: Option<int>)
    requires change != map[]
    ensures RingDesc.Survivors(change, expiry) == map[] <==> OnlyOldTombstones(change, expiry)
  {
    if !OnlyOldTombstones(change, expiry) {
      var k :| k in change && !RingDesc.Expired(change[k], expiry);
      assert k in RingDesc.Survivors(change, expiry);
    }
  }

  lemma UntouchedIsKept(v: Ingesters, incoming: Ingesters, cas: bool, now: int, expiry: Option<int>)
    requires OnlyOldTombstones(NewValue(Some(v), incoming, cas, now).1, expiry)
    ensures RingDesc.Survivors(NewValue(Some(v), incoming, cas, now).0, expiry) == v
      <==> !TouchesValue(v, incoming, cas, now, expiry)
  {
    var value := RingDesc.Survivors(NewValue(Some(v), incoming, cas, now).0, expiry);
    forall k
      ensures k in v ==> (Keeps(value, v, k) <==> !IsTouched(v, incoming, cas, now, expiry, k))
      ensures k !in v ==> k !in value
    {
      LeftOf(v, incoming, cas, now, expiry, k);
    }
    SameIfKept(value, v);
  }

  lemma SameIfKept(value: Ingesters, v: Ingesters)
    requires forall k :: k in value ==> k in v
    ensures value == v <==> forall k :: k in v ==> Keeps(value, v, k)
  {
    if forall k :: k in v ==> Keeps(value, v, k) {
      forall k ensures (k in value <==> k in v) && (k in v ==> value[k] == v[k]) {
        assert k in v ==> Keeps(value, v, k);
      }
    }
  }

  /** In a value without conflicts no instance loses tokens by that. */
  lemma NoTokensAreLost(v: Ingesters, incoming: Ingesters, cas: bool, now: int, expiry: Option<int>, k: string)
    requires Clean(v) && k in v && OnlyOldTombstones(NewValue(Some(v), incoming, cas, now).1, expiry)
    ensures IsTouched(v, incoming, cas, now, expiry, k)
      <==> k in NewValue(Some(v), incoming, cas, now).1 || RingDesc.Expired(v[k], expiry)
  {
    var b := Normalised(incoming);
    NormalisedIsNormal(incoming);
    ChangeNamesUpdated(v, b, cas, now);
    BuriesOnly(v, b, cas, now, expiry);
    if k !in Updated(v, b, cas) {
      assert Entries(v, b, cas, now)[k] == v[k];
    }
  }

  lemma BuriesOnly(v: Ingesters, b: Ingesters, cas: bool, now: int, expiry: Option<int>)
    requires Clean(v) && Normal(b) && MergeChange(v, b, cas, now).Some?
    requires OnlyOldTombstones(MergeChange(v, b, cas, now).value, expiry)
    ensures MergeState(v, b, cas, now) == Entries(v, b, cas, now)
  {
    var e, change := Entries(v, b, cas, now), MergeChange(v, b, cas, now).value;
    EntriesAreNormal(v, b, cas, now);
    MergeResolves(v, b, cas, now);
    ResolvedKeepsTheRest(e);
    ChangeNamesUpdated(v, b, cas, now);
    forall k | k in e ensures e[k].tokens == [] || (k in v && e[k] == v[k]) {
      if k in Updated(v, b, cas) {
        assert change[k] == Resolved(e)[k] && Resolved(e)[k].(tokens := e[k].tokens) == e[k];
        assert change[k].state == LEFT;
      }
    }
    assert ConflictFree(e);
    ResolvedOfClean(e);
  }

  /** A live instance whose burial arrives late disappears, and no watcher is told. */
  lemma InstanceVanishesSilently(k: string, version: nat, s: Slot, incoming: Ingesters)
    requires s == Slot(Some(map[k := InstanceDesc("", 1, ACTIVE, [], "", 0)]), version)
    requires incoming == map[k := InstanceDesc("", 2, LEFT, [], "", 0)]
    ensures Put(s, incoming, 0, 9, Some(5)) == (Slot(Some(map[]), version), NoChange)
  {
    var v := s.value.value;
    NormalisedIsNormal(incoming);
    assert Normal(incoming) && Clean(v) && Updated(v, incoming, false) == {k};
    ChangeNamesUpdated(v, incoming, false, 9);
    var change := MergeChange(v, incoming, false, 9).value;
    var e := Entries(v, incoming, false, 9);
    assert e == incoming;
    assert MergeState(v, incoming, false, 9) == e;
    assert change == incoming;
    assert RingDesc.Survivors(incoming, Some(5)) == map[];
  }
}
