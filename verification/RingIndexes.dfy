/**
 * The token, zone and owner indexes of a ring, and how they are computed (GetTokens, getTokensByZone and
 * getTokensInfo in ring/model.go, getZones in ring/util.go). Each is proved to be determined by the entries.
 */
module RingIndexes {
  import opened RingTypes
  import opened TokenLists
  import opened Conflicts
  import opened Replication
  import opened NameLists
  import TokensHeap
  import RingDesc
  import WholeRing
  import ShuffleShard

  // ---------------------------------------------------------------- all tokens of a ring

  ghost function AllTokens(m: Ingesters): multiset<Token>
    decreases |m|
  {
    if m == map[] then multiset{}
    else
      var k :| k in m;
      assert |(m - {k}).Keys| == |m.Keys| - 1 by { assert (m - {k}).Keys == m.Keys - {k}; }
      multiset(m[k].tokens) + AllTokens(m - {k})
  }

  /** Any instance may be taken out first. */
  lemma {:induction false} AllTokensWithout(m: Ingesters, k: string)
    requires k in m
    ensures AllTokens(m) == multiset(m[k].tokens) + AllTokens(m - {k})
    decreases |m|
  {
    var j :| j in m && AllTokens(m) == multiset(m[j].tokens) + AllTokens(m - {j});
    if j != k {
      assert (m - {j}).Keys == m.Keys - {j} && (m - {k}).Keys == m.Keys - {k};
      AllTokensWithout(m - {j}, k);
      assert (m - {j}) - {k} == (m - {k}) - {j};
      AllTokensWithout(m - {k}, j);
      ThreeSums(multiset(m[j].tokens), multiset(m[k].tokens), AllTokens((m - {k}) - {j}));
    }
  }

  lemma ThreeSums(a: multiset<Token>, b: multiset<Token>, c: multiset<Token>)
    ensures a + (b + c) == b + (a + c)
  {
  }

  lemma {:induction false} TokensAreAllTokens(m: Ingesters, t: Token)
    ensures t in AllTokens(m) <==> t in ShuffleShard.Tokens(m)
    decreases |m|
  {
    if m != map[] {
      var k :| k in m;
      AllTokensWithout(m, k);
      assert (m - {k}).Keys == m.Keys - {k};
      TokensAreAllTokens(m - {k}, t);
      TokenIsSomewhere(m, k, t);
    }
  }

  lemma TokenIsSomewhere(m: Ingesters, k: string, t: Token)
    requires k in m
    ensures t in ShuffleShard.Tokens(m) <==> t in m[k].tokens || t in ShuffleShard.Tokens(m - {k})
  {
    if t in ShuffleShard.Tokens(m) {
      var j :| j in m && t in m[j].tokens;
      if j != k {
        assert j in m - {k} && t in (m - {k})[j].tokens;
      }
    }
    if t in ShuffleShard.Tokens(m - {k}) {
      var j :| j in m - {k} && t in (m - {k})[j].tokens;
      assert j in m && t in m[j].tokens;
    }
  }

  /** The entries list the same tokens, possibly in another order. */
  ghost predicate SameTokens(m: Ingesters, n: Ingesters) {
    m.Keys == n.Keys && forall k :: k in m ==> multiset(m[k].tokens) == multiset(n[k].tokens)
  }

  lemma {:induction false} SameTokensSameTotal(m: Ingesters, n: Ingesters)
    requires SameTokens(m, n)
    ensures AllTokens(m) == AllTokens(n)
    decreases |m|
  {
    if m != map[] {
      var k :| k in m;
      AllTokensWithout(m, k);
      AllTokensWithout(n, k);
      assert (m - {k}).Keys == m.Keys - {k} == (n - {k}).Keys;
      SameTokensSameTotal(m - {k}, n - {k});
    } else {
      assert n == map[];
    }
  }

  // ---------------------------------------------------------------- the indexes

  /** tokens is the sorted list of all tokens of m. */
  ghost predicate IsTokenList(m: Ingesters, tokens: seq<Token>) {
    Ascending(tokens) && multiset(tokens) == AllTokens(m)
  }

  ghost predicate IsZoneIndex(m: Ingesters, byZone: map<string, seq<Token>>) {
    && byZone.Keys == WholeRing.Zones(m)
    && forall z :: z in byZone ==> IsTokenList(ShuffleShard.InZone(m, z), byZone[z])
  }

  /** owners names, for each token of m, an instance that has it, with its zone. Subrings share a larger map. */
  ghost predicate CoversOwners(m: Ingesters, owners: map<Token, Info>) {
    forall t :: t in ShuffleShard.Tokens(m) ==> t in owners && IsOwner(m, t, owners[t])
  }

  ghost predicate IsOwner(m: Ingesters, t: Token, info: Info) {
    ShuffleShard.Owns(m, info.instanceID, t) && m[info.instanceID].zone == info.zone
  }

  ghost predicate IsOwnerIndex(m: Ingesters, owners: map<Token, Info>) {
    owners.Keys == ShuffleShard.Tokens(m) && CoversOwners(m, owners)
  }

  ghost predicate IsZoneList(m: Ingesters, zones: seq<string>) {
    NamesAscend(zones) && forall z :: z in zones <==> z in WholeRing.Zones(m)
  }

  lemma ElementsOfTokenList(m: Ingesters, tokens: seq<Token>)
    requires IsTokenList(m, tokens)
    ensures Elements(tokens) == ShuffleShard.Tokens(m)
  {
    forall t: Token ensures t in Elements(tokens) <==> t in ShuffleShard.Tokens(m) {
      TokensAreAllTokens(m, t);
      assert t in tokens <==> t in multiset(tokens);
    }
  }

  /** Without competing claims each index is determined by the ring content. */
  lemma IndexesAreUnique(
    m: Ingesters, tokens: seq<Token>, tokens': seq<Token>, owners: map<Token, Info>, owners': map<Token, Info>)
    requires ConflictFree(m)
    requires IsTokenList(m, tokens) && IsTokenList(m, tokens') && IsOwnerIndex(m, owners) && IsOwnerIndex(m, owners')
    ensures tokens == tokens' && owners == owners'
  {
    SortedListsAgree(tokens, tokens');
    forall t | t in owners ensures t in owners' && owners[t] == owners'[t] {
      assert IsOwner(m, t, owners[t]) && IsOwner(m, t, owners'[t]);
    }
  }

  lemma {:induction false} SortedListsAgree(a: seq<Token>, b: seq<Token>)
    requires Ascending(a) && Ascending(b) && multiset(a) == multiset(b)
    ensures a == b
  {
    assert |multiset(a)| == |a| && |multiset(b)| == |b|;
    if a != [] {
      SameHead(a, b);
      TailMultiset(a);
      TailMultiset(b);
      SortedListsAgree(a[1..], b[1..]);
      assert a == [a[0]] + a[1..] && b == [b[0]] + b[1..];
    }
  }

  lemma SameHead(a: seq<Token>, b: seq<Token>)
    requires Ascending(a) && Ascending(b) && multiset(a) == multiset(b) && a != [] && b != []
    ensures a[0] == b[0]
  {
    assert a[0] in multiset(b) && b[0] in multiset(a);
    assert a[0] in b && b[0] in a;
  }

  lemma TailMultiset(a: seq<Token>)
    requires a != []
    ensures multiset(a[1..]) == multiset(a) - multiset{a[0]}
  {
    assert a == [a[0]] + a[1..];
  }

  // ---------------------------------------------------------------- computing them

  ghost predicate SortedEntry(before: InstanceDesc, after: InstanceDesc) {
    after == before.(tokens := after.tokens) && Ascending(after.tokens)
    && multiset(after.tokens) == multiset(before.tokens)
  }

  /** The tokens of every entry in ascending order: GetTokens sorts the lists in place. */
  ghost predicate ListsSorted(before: Ingesters, after: Ingesters) {
    before.Keys == after.Keys && forall k :: k in before ==> SortedEntry(before[k], after[k])
  }

  lemma SortingKeepsTokens(before: Ingesters, after: Ingesters)
    requires ListsSorted(before, after)
    ensures AllTokens(before) == AllTokens(after)
    ensures ShuffleShard.Tokens(before) == ShuffleShard.Tokens(after)
    ensures forall k, t :: ShuffleShard.Owns(before, k, t) <==> ShuffleShard.Owns(after, k, t)
    ensures WholeRing.Zones(before) == WholeRing.Zones(after)
  {
    SameTokensSameTotal(before, after);
    forall k, t: Token ensures ShuffleShard.Owns(before, k, t) <==> ShuffleShard.Owns(after, k, t) {
      if k in before {
        assert t in before[k].tokens <==> t in multiset(before[k].tokens);
        assert t in after[k].tokens <==> t in multiset(after[k].tokens);
      }
    }
    forall t: Token ensures t in ShuffleShard.Tokens(before) <==> t in ShuffleShard.Tokens(after) {
      TokensAreAllTokens(before, t);
      TokensAreAllTokens(after, t);
    }
  }

  method GetTokens(desc: RingDesc.Desc) returns (tokens: seq<Token>)
    modifies desc
    ensures ListsSorted(old(desc.ingesters), desc.ingesters)
    ensures IsTokenList(desc.ingesters, tokens)
  {
    ghost var m := desc.ingesters;
    var instances: seq<seq<Token>> := [];
    var todo := desc.ingesters.Keys;
    NothingCollected(m);
    while todo != {}
      invariant todo <= m.Keys && Collected(m, desc.ingesters, todo, instances)
      decreases todo
    {
      var k :| k in todo;
      var list := desc.ingesters[k].tokens;
      if !Ascending(list) {
        list := Sort(list);
      }
      CollectOne(m, desc.ingesters, todo, instances, k, list);
      desc.ingesters := desc.ingesters[k := desc.ingesters[k].(tokens := list)];
      instances := instances + [list];
      todo := todo - {k};
    }
    AllCollected(m, desc.ingesters, instances);
    tokens := TokensHeap.MergeTokens(instances);
  }

  /** The lists gathered so far, from the entries outside todo, which have been sorted. */
  ghost predicate Collected(m: Ingesters, n: Ingesters, todo: set<string>, instances: seq<seq<Token>>) {
    && n.Keys == m.Keys && (forall k :: k in todo && k in m ==> n[k] == m[k])
    && (forall k :: k in m && k !in todo ==> SortedEntry(m[k], n[k]))
    && TokensHeap.AllAscending(instances)
    && TokensHeap.Total(instances) + AllTokens(RingDesc.Restricted(m, todo)) == AllTokens(m)
  }

  lemma NothingCollected(m: Ingesters)
    ensures Collected(m, m, m.Keys, [])
  {
    assert RingDesc.Restricted(m, m.Keys) == m;
  }

  lemma CollectOne(m: Ingesters, n: Ingesters, todo: set<string>, instances: seq<seq<Token>>, k: string,
      list: seq<Token>)
    requires todo <= m.Keys && k in todo && Collected(m, n, todo, instances)
    requires Ascending(list) && multiset(list) == multiset(m[k].tokens)
    ensures Collected(m, n[k := n[k].(tokens := list)], todo - {k}, instances + [list])
  {
    var rest := RingDesc.Restricted(m, todo);
    AllTokensWithout(rest, k);
    assert rest - {k} == RingDesc.Restricted(m, todo - {k});
    TokensHeap.TotalOfAppend(instances, list);
    MoveTokens(TokensHeap.Total(instances), multiset(list), AllTokens(rest - {k}), AllTokens(m));
  }

  lemma AllCollected(m: Ingesters, n: Ingesters, instances: seq<seq<Token>>)
    requires Collected(m, n, {}, instances)
    ensures ListsSorted(m, n) && TokensHeap.Total(instances) == AllTokens(n) && TokensHeap.AllAscending(instances)
  {
    assert RingDesc.Restricted(m, {}) == map[];
    SortingKeepsTokens(m, n);
  }

  lemma MoveTokens(a: multiset<Token>, b: multiset<Token>, c: multiset<Token>, all: multiset<Token>)
    requires a + (b + c) == all
    ensures (a + b) + c == all
  {
  }

  // ---------------------------------------------------------------- by zone

  /** Like GetTokens, zone by zone. */
  method GetTokensByZone(desc: RingDesc.Desc) returns (byZone: map<string, seq<Token>>)
    modifies desc
    ensures ListsSorted(old(desc.ingesters), desc.ingesters)
    ensures IsZoneIndex(desc.ingesters, byZone)
  {
    ghost var m := desc.ingesters;
    var zones := GroupByZone(desc);
    ghost var n := desc.ingesters;
    byZone := MergeTokensByZone(zones);
    GroupedIsZoneIndex(m, n, zones, byZone);
  }

  method GroupByZone(desc: RingDesc.Desc) returns (zones: map<string, seq<seq<Token>>>)
    modifies desc
    ensures ListsSorted(old(desc.ingesters), desc.ingesters)
    ensures Grouped(old(desc.ingesters), old(desc.ingesters).Keys, zones)
  {
    ghost var m := desc.ingesters;
    zones := map[];
    var todo := desc.ingesters.Keys;
    ghost var done := {};
    while todo != {}
      invariant SortedSoFar(m, desc.ingesters, done, todo) && Grouped(m, done, zones)
      decreases todo
    {
      var k :| k in todo;
      var list := desc.ingesters[k].tokens;
      if !Ascending(list) {
        list := Sort(list);
      }
      GroupOne(m, done, zones, k, list);
      SortOne(m, desc.ingesters, done, todo, k, list);
      var zone := desc.ingesters[k].zone;
      desc.ingesters := desc.ingesters[k := desc.ingesters[k].(tokens := list)];
      zones := zones[zone := (if zone in zones then zones[zone] else []) + [list]];
      todo, done := todo - {k}, done + {k};
    }
    AllSorted(m, desc.ingesters, done);
  }

  /** The entries in done have been sorted, the others are as they were. */
  ghost predicate SortedSoFar(m: Ingesters, n: Ingesters, done: set<string>, todo: set<string>) {
    && n.Keys == m.Keys == done + todo && done * todo == {}
    && (forall k :: k in todo ==> n[k] == m[k])
    && (forall k :: k in done ==> SortedEntry(m[k], n[k]))
  }

  lemma SortOne(m: Ingesters, n: Ingesters, done: set<string>, todo: set<string>, k: string, list: seq<Token>)
    requires SortedSoFar(m, n, done, todo) && k in todo
    requires Ascending(list) && multiset(list) == multiset(m[k].tokens)
    ensures SortedSoFar(m, n[k := n[k].(tokens := list)], done + {k}, todo - {k})
  {
  }

  lemma AllSorted(m: Ingesters, n: Ingesters, done: set<string>)
    requires SortedSoFar(m, n, done, {})
    ensures done == m.Keys && ListsSorted(m, n)
  {
  }

  method MergeTokensByZone(zones: map<string, seq<seq<Token>>>) returns (byZone: map<string, seq<Token>>)
    requires forall z :: z in zones ==> TokensHeap.AllAscending(zones[z])
    ensures byZone.Keys == zones.Keys
    ensures forall z :: z in byZone ==> Ascending(byZone[z]) && multiset(byZone[z]) == TokensHeap.Total(zones[z])
  {
    byZone := map[];
    var todo := zones.Keys;
    while todo != {}
      invariant todo <= zones.Keys && byZone.Keys == zones.Keys - todo
      invariant forall z :: z in byZone ==> Ascending(byZone[z]) && multiset(byZone[z]) == TokensHeap.Total(zones[z])
      decreases todo
    {
      var zone :| zone in todo;
      todo := todo - {zone};
      var tokens := TokensHeap.MergeTokens(zones[zone]);
      byZone := byZone[zone := tokens];
    }
  }

  /** The lists of the entries in done, per zone. */
  ghost predicate Grouped(m: Ingesters, done: set<string>, zones: map<string, seq<seq<Token>>>) {
    && zones.Keys == WholeRing.Zones(RingDesc.Restricted(m, done))
    && forall z :: z in zones ==> GroupedAt(m, done, zones[z], z)
  }

  ghost predicate GroupedAt(m: Ingesters, done: set<string>, lists: seq<seq<Token>>, zone: string) {
    && TokensHeap.AllAscending(lists)
    && TokensHeap.Total(lists) == AllTokens(ShuffleShard.InZone(RingDesc.Restricted(m, done), zone))
  }

  lemma GroupOne(m: Ingesters, done: set<string>, zones: map<string, seq<seq<Token>>>, k: string, list: seq<Token>)
    requires k in m && k !in done && Grouped(m, done, zones)
    requires Ascending(list) && multiset(list) == multiset(m[k].tokens)
    ensures var zone := m[k].zone;
      Grouped(m, done + {k}, zones[zone := (if zone in zones then zones[zone] else []) + [list]])
  {
    var zone := m[k].zone;
    var lists := if zone in zones then zones[zone] else [];
    if zone !in zones {
      EmptyZone(m, done, zone);
    }
    var after := zones[zone := lists + [list]];
    ZonesOfOneMore(m, done, k);
    forall z | z in after ensures GroupedAt(m, done + {k}, after[z], z) {
      if z == zone {
        GroupOwnZone(m, done, lists, k, list);
      } else {
        OtherZoneStays(m, done, k, z);
      }
    }
  }

  lemma ZonesOfOneMore(m: Ingesters, done: set<string>, k: string)
    requires k in m
    ensures WholeRing.Zones(RingDesc.Restricted(m, done + {k}))
      == WholeRing.Zones(RingDesc.Restricted(m, done)) + {m[k].zone}
  {
    var prior, next := RingDesc.Restricted(m, done), RingDesc.Restricted(m, done + {k});
    assert next == prior[k := m[k]];
    forall z | z in WholeRing.Zones(prior) ensures z in WholeRing.Zones(next) {
      var j :| j in prior && prior[j].zone == z;
      assert j in next && next[j].zone == z;
    }
    assert k in next && next[k].zone == m[k].zone;
  }

  lemma EmptyZone(m: Ingesters, done: set<string>, zone: string)
    requires zone !in WholeRing.Zones(RingDesc.Restricted(m, done))
    ensures GroupedAt(m, done, [], zone)
  {
    assert ShuffleShard.InZone(RingDesc.Restricted(m, done), zone) == map[];
  }

  lemma GroupOwnZone(m: Ingesters, done: set<string>, lists: seq<seq<Token>>, k: string, list: seq<Token>)
    requires k in m && k !in done && GroupedAt(m, done, lists, m[k].zone)
    requires Ascending(list) && multiset(list) == multiset(m[k].tokens)
    ensures GroupedAt(m, done + {k}, lists + [list], m[k].zone)
  {
    TokensHeap.TotalOfAppend(lists, list);
    var here := ShuffleShard.InZone(RingDesc.Restricted(m, done + {k}), m[k].zone);
    AllTokensWithout(here, k);
    assert here - {k} == ShuffleShard.InZone(RingDesc.Restricted(m, done), m[k].zone);
  }

  lemma OtherZoneStays(m: Ingesters, done: set<string>, k: string, z: string)
    requires k in m && z != m[k].zone
    ensures ShuffleShard.InZone(RingDesc.Restricted(m, done + {k}), z)
      == ShuffleShard.InZone(RingDesc.Restricted(m, done), z)
  {
  }

  lemma GroupedIsZoneIndex(m: Ingesters, n: Ingesters, zones: map<string, seq<seq<Token>>>, byZone: map<string,
      seq<Token>>)
    requires Grouped(m, m.Keys, zones) && ListsSorted(m, n) && byZone.Keys == zones.Keys
    requires forall z :: z in byZone ==> Ascending(byZone[z]) && multiset(byZone[z]) == TokensHeap.Total(zones[z])
    ensures IsZoneIndex(n, byZone)
  {
    assert RingDesc.Restricted(m, m.Keys) == m;
    SortingKeepsTokens(m, n);
    forall z | z in byZone ensures IsTokenList(ShuffleShard.InZone(n, z), byZone[z]) {
      SameTokensSameTotal(ShuffleShard.InZone(m, z), ShuffleShard.InZone(n, z));
    }
  }

  // ---------------------------------------------------------------- owners and zone names

  method GetTokensInfo(m: Ingesters) returns (owners: map<Token, Info>)
    ensures IsOwnerIndex(m, owners)
  {
    owners := map[];
    var todo := m.Keys;
    while todo != {}
      invariant todo <= m.Keys
      invariant forall t :: t in owners ==> IsOwner(m, t, owners[t])
      invariant forall k, t :: k in m && k !in todo && t in m[k].tokens ==> t in owners
      decreases todo
    {
      var k :| k in todo;
      todo := todo - {k};
      var tokens := m[k].tokens;
      var info := Info(k, m[k].zone);
      for i := 0 to |tokens|
        invariant forall t :: t in owners ==> IsOwner(m, t, owners[t])
        invariant forall j, t :: j in m && j !in todo && j != k && t in m[j].tokens ==> t in owners
        invariant forall t :: t in tokens[..i] ==> t in owners
      {
        assert IsOwner(m, tokens[i], info);
        owners := owners[tokens[i] := info];
      }
      assert tokens[..|tokens|] == tokens;
    }
    forall t: Token ensures t in owners <==> t in ShuffleShard.Tokens(m) {
      if t in owners {
        assert IsOwner(m, t, owners[t]);
      }
    }
  }

  lemma {:induction false} NamesCount(names: seq<string>)
    requires NamesAscend(names)
    ensures |set z | z in names| == |names|
  {
    if names != [] {
      var last, front := names[|names| - 1], names[..|names| - 1];
      NamesCount(front);
      forall i | 0 <= i < |front| ensures front[i] != last {
        LessIsTotal(front[i], last);
      }
      assert (set z | z in names) == (set z | z in front) + {last} by {
        assert names == front + [last];
      }
    }
  }

  lemma ZoneListCounts(m: Ingesters, names: seq<string>)
    requires IsZoneList(m, names)
    ensures |names| == |WholeRing.Zones(m)|
  {
    NamesCount(names);
    assert (set z | z in names) == WholeRing.Zones(m);
  }

  /** getZones: the zone names in ascending order. */
  method GetZones(byZone: map<string, seq<Token>>) returns (zones: seq<string>)
    ensures NamesAscend(zones) && forall z :: z in zones <==> z in byZone
  {
    zones := [];
    var todo := byZone.Keys;
    while todo != {}
      invariant todo <= byZone.Keys
      invariant NamesAscend(zones) && forall z :: z in zones <==> z in byZone && z !in todo
      decreases todo
    {
      var zone :| zone in todo;
      todo := todo - {zone};
      InsertNameKeepsOrder(zone, zones);
      zones := InsertName(zone, zones);
    }
  }
}
