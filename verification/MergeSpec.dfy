/** The result of merging one ring content into another (mergeWithTime in ring/model.go). */
module MergeSpec {
  import opened RingTypes
  import opened TokenLists
  import opened Conflicts

  /** normalizeIngestersMap: entries that left have no tokens, other lists are sorted without duplicates. */
  ghost function NormalisedEntry(e: InstanceDesc): InstanceDesc {
    e.(tokens := if e.state == LEFT then [] else Listing(Elements(e.tokens)))
  }

  ghost function Normalised(m: Ingesters): Ingesters {
    map k | k in m :: NormalisedEntry(m[k])
  }

  lemma NormalisedIsNormal(m: Ingesters)
    ensures Normal(Normalised(m)) && Normalised(m).Keys == m.Keys
    ensures Normal(m) ==> Normalised(m) == m
  {
    if Normal(m) {
      forall k | k in m ensures NormalisedEntry(m[k]) == m[k] {
        ListingOfAscending(m[k].tokens);
      }
    }
  }

  /** The incoming entry replaces ours: it is newer, or as old but says LEFT where ours does not. */
  predicate Accepts(ting: InstanceDesc, oing: InstanceDesc) {
    oing.timestamp > ting.timestamp
    || (oing.timestamp == ting.timestamp && ting.state != LEFT && oing.state == LEFT)
  }

  predicate Replaces(d: Ingesters, b: Ingesters, k: string) {
    k in b && Accepts(Lookup(d, k), b[k])
  }

  /** Each key with the entry that wins by timestamp. */
  function Overlay(d: Ingesters, b: Ingesters): Ingesters {
    map k | k in d.Keys + b.Keys && (k in d || Replaces(d, b, k)) :: if Replaces(d, b, k) then b[k] else d[k]
  }

  /** An entry is marked as LEFT by a local compare-and-swap when the new value does not mention it. */
  predicate Buried(o: Ingesters, b: Ingesters, localCAS: bool, k: string) {
    localCAS && k in o && k !in b && o[k].state != LEFT
  }

  function Tombstone(e: InstanceDesc, now: int): InstanceDesc {
    e.(state := LEFT, tokens := [], timestamp := now)
  }

  function Entries(d: Ingesters, b: Ingesters, localCAS: bool, now: int): Ingesters {
    var o := Overlay(d, b);
    map k | k in o :: if Buried(o, b, localCAS, k) then Tombstone(o[k], now) else o[k]
  }

  function Updated(d: Ingesters, b: Ingesters, localCAS: bool): set<string> {
    var o := Overlay(d, b);
    set k | k in o && (Replaces(d, b, k) || Buried(o, b, localCAS, k))
  }

  /** Some newer entry lists other tokens than the entry it replaces. */
  predicate TokensChanged(d: Ingesters, b: Ingesters) {
    exists k :: k in b && b[k].timestamp > Lookup(d, k).timestamp && b[k].tokens != Lookup(d, k).tokens
  }

  /** The receiver after the merge. */
  ghost function MergeState(d: Ingesters, b: Ingesters, localCAS: bool, now: int): Ingesters {
    var e := Entries(d, b, localCAS, now);
    if TokensChanged(d, b) && !AllDistinct(e) then Resolved(e) else e
  }

  /** The change that is returned and gossiped: the updated entries as they ended up. */
  ghost function MergeChange(d: Ingesters, b: Ingesters, localCAS: bool, now: int): Option<Ingesters> {
    var u := Updated(d, b, localCAS);
    var s := MergeState(d, b, localCAS, now);
    if u == {} then None else Some(map k | k in s && k in u :: s[k])
  }

  /** Merging the incoming value as it arrives: it is normalised first, the receiver is not. */
  ghost function Merged(d: Ingesters, b: Ingesters, localCAS: bool, now: int): Ingesters {
    MergeState(d, Normalised(b), localCAS, now)
  }

  lemma EntriesOfNothing(d: Ingesters, b: Ingesters, localCAS: bool, now: int)
    requires Updated(d, b, localCAS) == {}
    ensures Entries(d, b, localCAS, now) == d && !TokensChanged(d, b)
    ensures MergeState(d, b, localCAS, now) == d
  {
    var o := Overlay(d, b);
    assert forall k :: k in o && (Replaces(d, b, k) || Buried(o, b, localCAS, k)) ==> k in Updated(d, b, localCAS);
    assert forall k :: Replaces(d, b, k) ==> k in o;
    assert o == d;
    assert forall k :: k in b && b[k].timestamp > Lookup(d, k).timestamp ==> Replaces(d, b, k);
  }

  lemma EntriesAreNormal(d: Ingesters, b: Ingesters, localCAS: bool, now: int)
    requires Normal(d) && Normal(b)
    ensures Normal(Entries(d, b, localCAS, now))
  {
  }

  /**
   * The shortcut that skips conflict resolution never skips one that was needed:
   * from a clean receiver, merging is resolving the chosen entries, and the result is clean again.
   */
  lemma MergeResolves(d: Ingesters, b: Ingesters, localCAS: bool, now: int)
    requires Clean(d) && Normal(b)
    ensures MergeState(d, b, localCAS, now) == Resolved(Entries(d, b, localCAS, now))
    ensures Clean(MergeState(d, b, localCAS, now))
  {
    var e := Entries(d, b, localCAS, now);
    EntriesAreNormal(d, b, localCAS, now);
    ResolvedIsClean(e);
    if !TokensChanged(d, b) {
      forall k, t | k in e && t in e[k].tokens ensures k in d && t in d[k].tokens {
        OldTokens(d, b, localCAS, now, k);
      }
      assert ConflictFree(e);
    }
    if ConflictFree(e) {
      ResolvedOfClean(e);
    }
  }

  lemma OldTokens(d: Ingesters, b: Ingesters, localCAS: bool, now: int, k: string)
    requires Normal(d) && Normal(b) && !TokensChanged(d, b)
    requires k in Entries(d, b, localCAS, now)
    ensures Entries(d, b, localCAS, now)[k].tokens in [[], Lookup(d, k).tokens]
  {
    var o := Overlay(d, b);
    if Replaces(d, b, k) {
      if b[k].timestamp > Lookup(d, k).timestamp {
        assert b[k].tokens == Lookup(d, k).tokens;
      } else {
        assert b[k].state == LEFT;
      }
    }
  }
}
