/** The ring content as an object that merges update in place (Desc in ring/model.go). */
module RingDesc {
  import opened RingTypes
  import opened TokenLists
  import opened Conflicts
  import opened MergeSpec

  /** The tokens of one entry after normalizeIngestersMap has passed over it. */
  method NormaliseTokens(e: InstanceDesc) returns (tokens: seq<Token>)
    ensures tokens == NormalisedEntry(e).tokens
  {
    tokens := e.tokens;
    if e.state == LEFT {
      tokens := [];
    }
    ghost var kept := Elements(tokens);
    if |tokens| == 0 {
      AscendingIsUnique(tokens, Listing({}));
      return;
    }
    if !Ascending(tokens) {
      SameMultisetSameElements(Sort(tokens), tokens);
      tokens := Sort(tokens);
    }
    var prev := tokens[0];
    var ix := 1;
    while ix < |tokens|
      invariant 1 <= ix <= |tokens| && prev == tokens[ix - 1]
      invariant Ascending(tokens) && StrictlyAscending(tokens[..ix])
      invariant Elements(tokens) == kept
      decreases |tokens| - ix
    {
      if tokens[ix] == prev {
        RemoveRepeated(tokens, ix);
        tokens := tokens[..ix] + tokens[ix + 1..];
      } else {
        prev := tokens[ix];
        ix := ix + 1;
      }
    }
    assert tokens[..ix] == tokens;
    ListingOfAscending(tokens);
  }

  lemma RemoveRepeated(s: seq<Token>, ix: nat)
    requires 1 <= ix < |s| && s[ix] == s[ix - 1] && Ascending(s)
    ensures Ascending(s[..ix] + s[ix + 1..])
    ensures Elements(s[..ix] + s[ix + 1..]) == Elements(s)
  {
    var r := s[..ix] + s[ix + 1..];
    forall t | t in s ensures t in r {
      var i :| 0 <= i < |s| && s[i] == t;
      if i < ix {
        assert r[i] == t;
      } else if i == ix {
        assert r[ix - 1] == t;
      } else {
        assert r[i - 1] == t;
      }
    }
  }

  class Desc {
    var ingesters: Ingesters

    constructor (m: Ingesters)
      ensures ingesters == m
    {
      ingesters := m;
    }

    method Normalise()
      modifies this
      ensures ingesters == Normalised(old(ingesters))
    {
      var todo := ingesters.Keys;
      while todo != {}
        invariant todo <= ingesters.Keys == old(ingesters).Keys
        invariant forall k :: k in todo ==> ingesters[k] == old(ingesters)[k]
        invariant forall k :: k in ingesters && k !in todo ==> ingesters[k] == NormalisedEntry(old(ingesters)[k])
        decreases todo
      {
        var n :| n in todo;
        todo := todo - {n};
        var tokens := NormaliseTokens(ingesters[n]);
        ingesters := ingesters[n := ingesters[n].(tokens := tokens)];
      }
    }

    method ConflictingTokensExist() returns (found: bool)
      ensures found <==> !AllDistinct(ingesters)
    {
      var seen: set<Token> := {};
      var todo := ingesters.Keys;
      while todo != {}
        invariant todo <= ingesters.Keys
        invariant SeenIn(ingesters, ingesters.Keys - todo, seen)
        invariant AllDistinct(Restricted(ingesters, ingesters.Keys - todo))
        decreases todo
      {
        var n :| n in todo;
        ghost var done := ingesters.Keys - todo;
        ghost var before := seen;
        var tokens := ingesters[n].tokens;
        todo := todo - {n};
        for j := 0 to |tokens|
          invariant forall t :: t in seen <==> t in before || t in tokens[..j]
          invariant NoDuplicates(tokens[..j])
          invariant forall i :: 0 <= i < j ==> tokens[i] !in before
        {
          if tokens[j] in seen {
            RepeatedToken(ingesters, done, before, n, j);
            return true;
          }
          seen := seen + {tokens[j]};
        }
        assert tokens[..|tokens|] == tokens;
        assert ingesters.Keys - todo == done + {n};
        OneMoreDistinct(ingesters, done, before, n);
        assert SeenIn(ingesters, done + {n}, seen);
      }
      assert Restricted(ingesters, ingesters.Keys) == ingesters;
      found := false;
    }

    method ResolveConflicts()
      modifies this
      ensures ingesters == Resolved(old(ingesters))
    {
      var tokens, owner := CollectOwners();
      SortedIsStrict(tokens);
      SameMultisetSameElements(Sort(tokens), tokens);
      tokens := Sort(tokens);
      var lists := ListTokens(tokens, owner);
      WriteBack(lists);
    }

    /** The middle part of resolveConflicts: one list per instance, filled from the sorted tokens. */
    method ListTokens(tokens: seq<Token>, owner: map<Token, string>) returns (lists: map<string, seq<Token>>)
      requires StrictlyAscending(tokens) && owner.Keys == Elements(tokens)
      requires forall t :: t in owner ==> Wins(ingesters, owner[t], t)
      requires forall k, t: Token :: Claims(ingesters, k, t) ==> t in owner
      ensures lists.Keys == ingesters.Keys
      ensures forall k :: k in lists ==> lists[k] == Listing(Won(ingesters, k))
    {
      // every instance starts with an empty list
      lists := map k | k in ingesters :: [];
      for i := 0 to |tokens|
        invariant lists.Keys == ingesters.Keys
        invariant Filed(lists, tokens[..i], owner)
      {
        assert tokens[i] in Elements(tokens);
        var key := owner[tokens[i]];
        assert Claims(ingesters, key, tokens[i]);
        FileOne(lists, tokens, i, owner);
        lists := lists[key := lists[key] + [tokens[i]]];
      }
      assert tokens[..|tokens|] == tokens;
      forall k | k in lists ensures lists[k] == Listing(Won(ingesters, k)) {
        forall t: Token ensures t in lists[k] <==> t in owner && owner[t] == k {
          assert t in owner <==> t in Elements(tokens);
        }
        ListOfWins(ingesters, owner, k, lists[k]);
      }
    }

    method WriteBack(lists: map<string, seq<Token>>)
      requires lists.Keys == ingesters.Keys
      modifies this
      ensures ingesters.Keys == lists.Keys
      ensures forall k :: k in lists ==> ingesters[k] == old(ingesters)[k].(tokens := lists[k])
    {
      var todo := lists.Keys;
      while todo != {}
        invariant todo <= old(ingesters).Keys == ingesters.Keys == lists.Keys
        invariant forall k :: k in todo ==> ingesters[k] == old(ingesters)[k]
        invariant forall k :: k in lists && k !in todo ==> ingesters[k] == old(ingesters)[k].(tokens := lists[k])
        decreases todo
      {
        var key :| key in todo;
        todo := todo - {key};
        ingesters := ingesters[key := ingesters[key].(tokens := lists[key])];
      }
    }

    /** The first half of resolveConflicts: who owns which token. */
    method CollectOwners() returns (tokens: seq<Token>, owner: map<Token, string>)
      ensures NoDuplicates(tokens) && owner.Keys == Elements(tokens)
      ensures forall t :: t in owner ==> Wins(ingesters, owner[t], t)
      ensures forall k, t: Token :: Claims(ingesters, k, t) ==> t in owner
    {
      tokens, owner := [], map[];
      ghost var seen: set<(string, Token)> := {};
      var todo := ingesters.Keys;
      while todo != {}
        invariant todo <= ingesters.Keys
        invariant NoDuplicates(tokens) && owner.Keys == Elements(tokens)
        invariant BestSoFar(ingesters, seen, owner)
        invariant forall k, t: Token :: Claims(ingesters, k, t) && k !in todo ==> (k, t) in seen
        decreases todo
      {
        var ingKey :| ingKey in todo;
        todo := todo - {ingKey};
        var ing := ingesters[ingKey];
        if ing.state == LEFT {
          continue;
        }
        for j := 0 to |ing.tokens|
          invariant NoDuplicates(tokens) && owner.Keys == Elements(tokens)
          invariant BestSoFar(ingesters, seen, owner)
          invariant forall k, t: Token :: Claims(ingesters, k, t) && k !in todo && k != ingKey ==> (k, t) in seen
          invariant forall t :: t in ing.tokens[..j] ==> (ingKey, t) in seen
        {
          var token := ing.tokens[j];
          assert Claims(ingesters, ingKey, token);
          ContestKeepsBest(ingesters, seen, owner, ingKey, token);
          seen := seen + {(ingKey, token)};
          if token !in owner {
            assert token !in Elements(tokens);
            assert Elements(tokens + [token]) == Elements(tokens) + {token};
            tokens := tokens + [token];
            owner := owner[token := ingKey];
          } else {
            var prevKey := owner[token];
            var prevIng := ingesters[prevKey];
            var winnerKey := ingKey;
            if ing.state == LEAVING && prevIng.state != LEAVING {
              winnerKey := prevKey;
            } else if prevIng.state == LEAVING && ing.state != LEAVING {
              winnerKey := ingKey;
            } else if Less(ingKey, prevKey) {
              winnerKey := ingKey;
            } else if Less(prevKey, ingKey) {
              winnerKey := prevKey;
            }
            owner := owner[token := winnerKey];
          }
        }
        assert ing.tokens[..|ing.tokens|] == ing.tokens;
      }
      BestOfAllWins(ingesters, seen, owner);
    }

    /**
     * mergeWithTime. The change comes back as a value; other is left normalised. The receiver may be the
     * incoming ring itself, in which case it is normalised and nothing else happens.
     */
    method MergeWithTime(other: Desc?, localCAS: bool, now: int) returns (change: Option<Ingesters>)
      modifies this, other
      ensures other == null ==> change == None && ingesters == old(ingesters)
      ensures other != null && other != this ==>
        && other.ingesters == Normalised(old(other.ingesters))
        && ingesters == MergeState(old(ingesters), other.ingesters, localCAS, now)
        && change == MergeChange(old(ingesters), other.ingesters, localCAS, now)
      ensures other == this ==> change == None && ingesters == Normalised(old(ingesters))
    {
      if other == null {
        return None;
      }
      other.Normalise();
      ghost var d := ingesters;
      var b := other.ingesters;
      var updated, tokensChanged := TakeNewer(b);
      if localCAS {
        var buried := BuryMissing(b, now);
        updated := updated + buried;
      }
      assert ingesters == Entries(d, b, localCAS, now);
      assert updated == Updated(d, b, localCAS);
      EntriesOfItself(d, localCAS);
      if updated == {} {
        EntriesOfNothing(d, b, localCAS, now);
        return None;
      }
      assert other != this;
      if tokensChanged {
        var conflict := ConflictingTokensExist();
        if conflict {
          ResolveConflicts();
        }
      }
      assert ingesters == MergeState(d, b, localCAS, now);
      var out: Ingesters := map u | u in ingesters && u in updated :: ingesters[u];
      change := Some(out);
      assert change == MergeChange(d, b, localCAS, now);
    }

    /** The loop over the incoming entries. updated is a list in the source, each name being added once. */
    method TakeNewer(b: Ingesters) returns (updated: set<string>, tokensChanged: bool)
      modifies this
      ensures ingesters == Overlay(old(ingesters), b)
      ensures forall k :: k in updated <==> Replaces(old(ingesters), b, k)
      ensures tokensChanged <==> TokensChanged(old(ingesters), b)
    {
      ghost var d := ingesters;
      updated, tokensChanged := {}, false;
      var todo := b.Keys;
      ghost var part: Ingesters := map[];
      assert Overlay(d, part) == d;
      while todo != {}
        invariant todo <= b.Keys
        invariant part == Restricted(b, b.Keys - todo)
        invariant ingesters == Overlay(d, part)
        invariant forall k :: k in updated <==> Replaces(d, part, k)
        invariant tokensChanged <==> TokensChanged(d, part)
        decreases todo
      {
        var name :| name in todo;
        todo := todo - {name};
        var oing, ting := b[name], Lookup(ingesters, name);
        OneMoreEntry(d, part, name, oing);
        part := part[name := oing];
        if oing.timestamp > ting.timestamp {
          if ting.tokens != oing.tokens {
            tokensChanged := true;
          }
          ingesters := ingesters[name := oing];
          updated := updated + {name};
        } else if oing.timestamp == ting.timestamp && ting.state != LEFT && oing.state == LEFT {
          ingesters := ingesters[name := oing];
          updated := updated + {name};
        }
      }
      assert part == b;
    }

    /** The loop that marks our entries as LEFT when a local compare-and-swap no longer mentions them. */
    method BuryMissing(b: Ingesters, now: int) returns (buried: set<string>)
      modifies this
      ensures ingesters.Keys == old(ingesters).Keys
      ensures forall k :: k in ingesters ==>
        ingesters[k] ==
          if Buried(old(ingesters), b, true, k) then Tombstone(old(ingesters)[k], now) else old(ingesters)[k]
      ensures forall k :: k in buried <==> Buried(old(ingesters), b, true, k)
    {
      ghost var o := ingesters;
      buried := {};
      var todo := ingesters.Keys;
      while todo != {}
        invariant todo <= o.Keys == ingesters.Keys
        invariant forall k :: k in todo ==> ingesters[k] == o[k]
        invariant forall k :: k in o && k !in todo ==>
          ingesters[k] == if Buried(o, b, true, k) then Tombstone(o[k], now) else o[k]
        invariant forall k :: k in buried <==> k !in todo && Buried(o, b, true, k)
        decreases todo
      {
        var name :| name in todo;
        todo := todo - {name};
        var ting := ingesters[name];
        if name !in b && ting.state != LEFT {
          ting := ting.(state := LEFT, tokens := [], timestamp := now);
          ingesters := ingesters[name := ting];
          buried := buried + {name};
        }
      }
    }

    /** Takes over states and heartbeats from the ring (getCachedShuffledSubring in ring/ring.go). */
    method Refresh(ring: Ingesters)
      modifies this
      ensures ingesters == Refreshed(old(ingesters), ring)
    {
      ghost var cached := ingesters;
      var todo := ingesters.Keys;
      while todo != {}
        invariant todo <= ingesters.Keys == cached.Keys
        invariant forall k :: k in todo ==> ingesters[k] == cached[k]
        invariant forall k :: k in ingesters && k !in todo ==> ingesters[k] == Refreshed(cached, ring)[k]
        decreases todo
      {
        var name :| name in todo;
        todo := todo - {name};
        var ing := Lookup(ring, name);
        ingesters := ingesters[name := ingesters[name].(state := ing.state, timestamp := ing.timestamp)];
      }
    }

    /** Drops entries that left before limit; no limit drops all of them. */
    method RemoveTombstones(limit: Option<int>) returns (total: nat, removed: nat)
      modifies this
      ensures ingesters == Survivors(old(ingesters), limit)
      ensures removed == |old(ingesters)| - |ingesters|
      ensures total == |set k | k in ingesters && ingesters[k].state == LEFT|
    {
      total, removed := 0, 0;
      ghost var kept: set<string> := {};
      var todo := ingesters.Keys;
      while todo != {}
        invariant todo <= ingesters.Keys <= old(ingesters).Keys
        invariant forall k :: k in ingesters ==> ingesters[k] == old(ingesters)[k]
        invariant forall k :: k in old(ingesters) && k !in todo ==>
          (k in ingesters <==> !Expired(old(ingesters)[k], limit))
        invariant removed == |old(ingesters)| - |ingesters|
        invariant kept == set k | k in ingesters && k !in todo && ingesters[k].state == LEFT
        invariant total == |kept|
        decreases todo
      {
        var n :| n in todo;
        todo := todo - {n};
        if ingesters[n].state == LEFT {
          if limit.None? || ingesters[n].timestamp < limit.value {
            assert ingesters.Keys - {n} == (ingesters - {n}).Keys;
            assert |(ingesters - {n}).Keys| == |ingesters.Keys| - 1;
            ingesters := ingesters - {n};
            removed := removed + 1;
          } else {
            kept := kept + {n};
            total := total + 1;
          }
        }
      }
      assert kept == set k | k in ingesters && ingesters[k].state == LEFT;
    }
  }

  /** The cached entries with the states and heartbeats of the ring. */
  function Refreshed(cached: Ingesters, ring: Ingesters): Ingesters {
    map k | k in cached :: cached[k].(state := Lookup(ring, k).state, timestamp := Lookup(ring, k).timestamp)
  }

  predicate Expired(e: InstanceDesc, limit: Option<int>) {
    e.state == LEFT && (limit.None? || e.timestamp < limit.value)
  }

  function Survivors(m: Ingesters, limit: Option<int>): Ingesters {
    map k | k in m && !Expired(m[k], limit) :: m[k]
  }

  function Restricted(m: Ingesters, s: set<string>): Ingesters {
    map k | k in m && k in s :: m[k]
  }

  /** seen holds exactly the tokens listed by the entries in done. */
  ghost predicate SeenIn(m: Ingesters, done: set<string>, seen: set<Token>) {
    && (forall k, t :: k in m && k in done && t in m[k].tokens ==> t in seen)
    && (forall t :: t in seen ==> exists k :: k in m && k in done && t in m[k].tokens)
  }

  lemma RepeatedToken(m: Ingesters, done: set<string>, seen: set<Token>, n: string, j: nat)
    requires SeenIn(m, done, seen) && n in m && n !in done && j < |m[n].tokens|
    requires m[n].tokens[j] in seen || m[n].tokens[j] in m[n].tokens[..j]
    ensures !AllDistinct(m)
  {
    var t := m[n].tokens[j];
    if t in seen {
      var k :| k in m && k in done && t in m[k].tokens;
      assert k != n;
    } else {
      var i :| 0 <= i < j && m[n].tokens[..j][i] == t;
      assert m[n].tokens[i] == m[n].tokens[j];
    }
  }

  lemma OneMoreDistinct(m: Ingesters, done: set<string>, seen: set<Token>, n: string)
    requires SeenIn(m, done, seen) && n in m && n !in done
    requires AllDistinct(Restricted(m, done)) && NoDuplicates(m[n].tokens)
    requires forall i :: 0 <= i < |m[n].tokens| ==> m[n].tokens[i] !in seen
    ensures AllDistinct(Restricted(m, done + {n}))
  {
    var prior, next := Restricted(m, done), Restricted(m, done + {n});
    forall j, k, t | j in next && k in next && t in next[j].tokens && t in next[k].tokens ensures j == k {
      if j != n && k != n {
        assert j in prior && k in prior;
      }
    }
    forall k | k in next ensures NoDuplicates(next[k].tokens) {
      if k != n {
        assert k in prior;
      }
    }
  }

  /** Every list holds, in ascending order, the tokens of part that its instance owns. */
  ghost predicate Filed(lists: map<string, seq<Token>>, part: seq<Token>, owner: map<Token, string>) {
    forall k :: k in lists ==> FiledUnder(k, lists[k], part, owner)
  }

  ghost predicate FiledUnder(k: string, list: seq<Token>, part: seq<Token>, owner: map<Token, string>) {
    StrictlyAscending(list) && forall t :: t in list <==> t in part && t in owner && owner[t] == k
  }

  lemma FileOne(lists: map<string, seq<Token>>, tokens: seq<Token>, i: nat, owner: map<Token, string>)
    requires i < |tokens| && StrictlyAscending(tokens) && tokens[i] in owner && owner[tokens[i]] in lists
    requires Filed(lists, tokens[..i], owner)
    ensures var key := owner[tokens[i]]; Filed(lists[key := lists[key] + [tokens[i]]], tokens[..i + 1], owner)
  {
    var x := tokens[i];
    var key := owner[x];
    assert tokens[..i + 1] == tokens[..i] + [x];
    forall y | y in lists[key] ensures y < x {
      assert FiledUnder(key, lists[key], tokens[..i], owner);
      assert y in tokens[..i];
      var h :| 0 <= h < i && tokens[..i][h] == y;
    }
    forall k | k in lists ensures FiledUnder(k, lists[key := lists[key] + [x]][k], tokens[..i + 1], owner) {
      assert FiledUnder(k, lists[k], tokens[..i], owner);
      if k == key {
        var list := lists[key] + [x];
        assert forall t :: t in list <==> t in lists[key] || t == x;
        AppendAscending(lists[key], x);
      }
    }
  }

  lemma ListOfWins(m: Ingesters, owner: map<Token, string>, k: string, list: seq<Token>)
    requires k in m && StrictlyAscending(list)
    requires forall t :: t in owner ==> Wins(m, owner[t], t)
    requires forall j, t: Token :: Claims(m, j, t) ==> t in owner
    requires forall t :: t in list <==> t in owner && owner[t] == k
    ensures list == Listing(Won(m, k))
  {
    forall t: Token ensures t in Elements(list) <==> t in Won(m, k) {
      if t in Won(m, k) {
        assert Claims(m, k, t);
        WinnerIsUnique(m, k, owner[t], t);
      }
      if t in list {
        assert Wins(m, k, t) && Claims(m, k, t);
      }
    }
    assert Elements(list) == Won(m, k);
    ListingOfAscending(list);
  }

  lemma {:induction false} MultiplicityOfDistinct(s: seq<Token>)
    ensures NoDuplicates(s) <==> forall t :: multiset(s)[t] <= 1
  {
    if s != [] {
      var x, rest := s[0], s[1..];
      assert s == [x] + rest;
      MultiplicityOfDistinct(rest);
      assert x in rest <==> multiset(rest)[x] > 0;
      if NoDuplicates(s) {
        assert NoDuplicates(rest);
        assert x !in rest;
      }
      if forall t :: multiset(s)[t] <= 1 {
        forall t ensures multiset(rest)[t] <= 1 {
          assert multiset(s)[t] >= multiset(rest)[t];
        }
        assert multiset(s)[x] == multiset(rest)[x] + 1;
        assert x !in rest;
      }
    }
  }

  lemma SortedIsStrict(s: seq<Token>)
    requires NoDuplicates(s)
    ensures StrictlyAscending(Sort(s))
  {
    MultiplicityOfDistinct(s);
    MultiplicityOfDistinct(Sort(s));
  }

  lemma OneMoreEntry(d: Ingesters, part: Ingesters, name: string, e: InstanceDesc)
    requires name !in part
    ensures Lookup(Overlay(d, part), name) == Lookup(d, name)
    ensures Overlay(d, part[name := e]) ==
      if Accepts(Lookup(d, name), e) then Overlay(d, part)[name := e] else Overlay(d, part)
    ensures forall k :: Replaces(d, part[name := e], k) <==>
      if k == name then Accepts(Lookup(d, name), e) else Replaces(d, part, k)
    ensures TokensChanged(d, part[name := e]) <==>
      TokensChanged(d, part) || (e.timestamp > Lookup(d, name).timestamp && e.tokens != Lookup(d, name).tokens)
  {
    var part' := part[name := e];
    var o, o' := Overlay(d, part), Overlay(d, part');
    if Accepts(Lookup(d, name), e) {
      assert o'.Keys == o[name := e].Keys;
    } else {
      assert o'.Keys == o.Keys;
    }
    if TokensChanged(d, part) {
      var k :| k in part && part[k].timestamp > Lookup(d, k).timestamp && part[k].tokens != Lookup(d, k).tokens;
      assert k in part' && part'[k] == part[k];
    }
    if e.timestamp > Lookup(d, name).timestamp && e.tokens != Lookup(d, name).tokens {
      assert name in part' && part'[name] == e;
    }
  }

  lemma EntriesOfItself(d: Ingesters, localCAS: bool)
    ensures Updated(d, d, localCAS) == {}
  {
  }
}
