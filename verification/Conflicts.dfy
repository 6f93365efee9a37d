/** Which instance keeps a token claimed twice (resolveConflicts, conflictingTokensExist in ring/model.go). */
module Conflicts {
  import opened RingTypes
  import opened TokenLists

  /** An entry as normalizeIngestersMap leaves it. */
  predicate NormalEntry(e: InstanceDesc) {
    StrictlyAscending(e.tokens) && (e.state == LEFT ==> e.tokens == [])
  }

  predicate Normal(m: Ingesters) {
    forall k :: k in m ==> NormalEntry(m[k])
  }

  /** No two entries list a common token. */
  ghost predicate ConflictFree(m: Ingesters) {
    forall j, k, t :: j in m && k in m && t in m[j].tokens && t in m[k].tokens ==> j == k
  }

  predicate NoDuplicates(s: seq<Token>) {
    forall i, j :: 0 <= i < j < |s| ==> s[i] != s[j]
  }

  /** No token is listed twice, be it by one entry or by two. */
  ghost predicate AllDistinct(m: Ingesters) {
    ConflictFree(m) && forall k :: k in m ==> NoDuplicates(m[k].tokens)
  }

  ghost predicate Clean(m: Ingesters) {
    Normal(m) && ConflictFree(m)
  }

  predicate Claims(m: Ingesters, k: string, t: Token) {
    k in m && m[k].state != LEFT && t in m[k].tokens
  }

  /** The documented preference: an instance that is not LEAVING first, then the smaller name. */
  predicate Beats(m: Ingesters, j: string, k: string)
    requires j in m && k in m
  {
    if (m[j].state == LEAVING) != (m[k].state == LEAVING) then m[k].state == LEAVING else Less(j, k)
  }

  lemma BeatsIsTotal(m: Ingesters, j: string, k: string)
    requires j in m && k in m
    ensures j == k ==> !Beats(m, j, k)
    ensures j != k ==> Beats(m, j, k) != Beats(m, k, j)
  {
    LessIsTotal(j, k);
  }

  lemma BeatsIsTransitive(m: Ingesters, i: string, j: string, k: string)
    requires i in m && j in m && k in m
    requires Beats(m, i, j) && Beats(m, j, k)
    ensures Beats(m, i, k)
  {
    if Less(i, j) && Less(j, k) {
      LessIsTransitive(i, j, k);
    }
  }

  /** k is the preferred one of all instances that claim t. */
  ghost predicate Wins(m: Ingesters, k: string, t: Token) {
    Claims(m, k, t) && forall j :: Claims(m, j, t) && j != k ==> Beats(m, k, j)
  }

  lemma WinnerIsUnique(m: Ingesters, j: string, k: string, t: Token)
    requires Wins(m, j, t) && Wins(m, k, t)
    ensures j == k
  {
    BeatsIsTotal(m, j, k);
  }

  lemma {:induction false} BestOf(m: Ingesters, s: set<string>) returns (w: string)
    requires s != {} && s <= m.Keys
    ensures w in s && forall j :: j in s && j != w ==> Beats(m, w, j)
  {
    var x :| x in s;
    w := x;
    var rest := s - {x};
    assert s == rest + {x};
    if rest != {} {
      var y := BestOf(m, rest);
      BeatsIsTotal(m, x, y);
      if Beats(m, y, x) {
        w := y;
      } else {
        forall j | j in s && j != x ensures Beats(m, x, j) {
          if j != y {
            BeatsIsTransitive(m, x, y, j);
          }
        }
      }
    }
  }

  /** A claimed token always has a winner. */
  lemma WinnerExists(m: Ingesters, k: string, t: Token) returns (w: string)
    requires Claims(m, k, t)
    ensures Wins(m, w, t)
  {
    var s := set j | j in m && Claims(m, j, t);
    assert k in s;
    w := BestOf(m, s);
  }

  /** The entries after conflict resolution: each keeps exactly the tokens it wins. */
  ghost function Won(m: Ingesters, k: string): set<Token>
    requires k in m
  {
    set t | t in m[k].tokens && Wins(m, k, t)
  }

  ghost function Resolved(m: Ingesters): Ingesters {
    map k | k in m :: m[k].(tokens := Listing(Won(m, k)))
  }

  /** Each token of the result belongs to its winner, and to it alone. */
  lemma ResolvedTokens(m: Ingesters, k: string, t: Token)
    ensures k in Resolved(m) && t in Resolved(m)[k].tokens <==> Wins(m, k, t)
  {
    if k in m {
      assert Elements(Resolved(m)[k].tokens) == Won(m, k);
      assert t in Resolved(m)[k].tokens <==> t in Elements(Resolved(m)[k].tokens);
    }
  }

  /** Resolution leaves sorted, duplicate-free, pairwise disjoint lists. */
  lemma ResolvedIsClean(m: Ingesters)
    ensures Clean(Resolved(m))
  {
    var r := Resolved(m);
    forall k | k in r ensures NormalEntry(r[k]) {
      if r[k].state == LEFT {
        assert Won(m, k) == {};
      }
    }
    forall j, k, t | j in r && k in r && t in r[j].tokens && t in r[k].tokens ensures j == k {
      ResolvedTokens(m, j, t);
      ResolvedTokens(m, k, t);
      WinnerIsUnique(m, j, k, t);
    }
  }

  /** No token listed by an instance that has not left is lost, and no token appears from nowhere. */
  lemma TokensAreConserved(m: Ingesters, t: Token)
    ensures (exists k :: Claims(m, k, t)) <==> (exists k :: Claims(Resolved(m), k, t))
  {
    if k :| Claims(m, k, t) {
      var w := WinnerExists(m, k, t);
      ResolvedTokens(m, w, t);
      assert Claims(Resolved(m), w, t);
    }
    if k :| Claims(Resolved(m), k, t) {
      ResolvedTokens(m, k, t);
      assert Claims(m, k, t);
    }
  }

  /** Only token lists change. */
  lemma ResolvedKeepsTheRest(m: Ingesters)
    ensures Resolved(m).Keys == m.Keys
    ensures forall k :: k in m ==> Resolved(m)[k].(tokens := m[k].tokens) == m[k]
  {
  }

  /** Nothing to resolve, nothing changes. */
  lemma ResolvedOfClean(m: Ingesters)
    requires Clean(m)
    ensures Resolved(m) == m
  {
    forall k | k in m ensures Resolved(m)[k] == m[k] {
      forall t | t in m[k].tokens ensures Wins(m, k, t) {
        assert Claims(m, k, t);
      }
      assert Won(m, k) == Elements(m[k].tokens);
      ListingOfAscending(m[k].tokens);
    }
  }

  /** Two maps that differ in tokens alone resolve alike exactly when every token has the same winner. */
  lemma SameWinnersSameResult(m: Ingesters, n: Ingesters)
    requires m.Keys == n.Keys
    requires forall k :: k in m ==> m[k].(tokens := []) == n[k].(tokens := [])
    ensures Resolved(m) == Resolved(n) <==> forall k, t :: Wins(m, k, t) <==> Wins(n, k, t)
  {
    if Resolved(m) == Resolved(n) {
      forall k, t ensures Wins(m, k, t) <==> Wins(n, k, t) {
        ResolvedTokens(m, k, t);
        ResolvedTokens(n, k, t);
      }
    }
    if forall k, t :: Wins(m, k, t) <==> Wins(n, k, t) {
      forall k | k in m ensures Resolved(m)[k] == Resolved(n)[k] {
        assert Won(m, k) == Won(n, k);
      }
    }
  }

  /** The running winner of the resolution loop: the switch over the two states and names. */
  function Contest(m: Ingesters, ingKey: string, prevKey: string): string
    requires ingKey in m && prevKey in m
  {
    if m[ingKey].state == LEAVING && m[prevKey].state != LEAVING then prevKey
    else if m[prevKey].state == LEAVING && m[ingKey].state != LEAVING then ingKey
    else if Less(ingKey, prevKey) then ingKey
    else if Less(prevKey, ingKey) then prevKey
    else ingKey
  }

  /** owner maps each token seen so far to the best of its claimants seen so far. */
  ghost predicate BestSoFar(m: Ingesters, seen: set<(string, Token)>, owner: map<Token, string>) {
    && (forall p :: p in seen ==> Claims(m, p.0, p.1) && p.1 in owner)
    && (forall t :: t in owner ==> (owner[t], t) in seen)
    && (forall p :: p in seen && p.0 != owner[p.1] ==> Beats(m, owner[p.1], p.0))
  }

  lemma ContestKeepsBest(m: Ingesters, seen: set<(string, Token)>, owner: map<Token, string>, k: string, t: Token)
    requires BestSoFar(m, seen, owner) && Claims(m, k, t)
    ensures BestSoFar(m, seen + {(k, t)}, owner[t := if t in owner then Contest(m, k, owner[t]) else k])
  {
    var owner' := owner[t := if t in owner then Contest(m, k, owner[t]) else k];
    var seen' := seen + {(k, t)};
    if t in owner {
      assert (owner[t], t) in seen;
      var prev := owner[t];
      BeatsIsTotal(m, k, prev);
      LessIsTotal(k, prev);
      forall p | p in seen' && p.0 != owner'[p.1] ensures Beats(m, owner'[p.1], p.0) {
        if p.1 == t && owner'[t] != prev && p.0 != prev && p.0 != k {
          BeatsIsTransitive(m, k, prev, p.0);
        }
      }
    }
  }

  /** Once every claim has been seen, the owners are the winners. */
  lemma BestOfAllWins(m: Ingesters, seen: set<(string, Token)>, owner: map<Token, string>)
    requires BestSoFar(m, seen, owner)
    requires forall k, t: Token :: Claims(m, k, t) ==> (k, t) in seen
    ensures forall t :: t in owner ==> Wins(m, owner[t], t)
    ensures forall k, t: Token :: Claims(m, k, t) ==> t in owner
  {
    forall t | t in owner ensures Wins(m, owner[t], t) {
      assert (owner[t], t) in seen;
      forall j | Claims(m, j, t) && j != owner[t] ensures Beats(m, owner[t], j) {
        assert (j, t) in seen;
      }
    }
    forall k, t: Token | Claims(m, k, t) ensures t in owner {
      assert (k, t) in seen;
    }
  }
}
