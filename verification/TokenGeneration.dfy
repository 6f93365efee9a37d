/**
 * Drawing tokens that nobody has yet (GenerateTokens in ring/util.go). The random generator is an arbitrary function
 * from the number of the draw to a token; the loop stops because enough of its draws are known to be new, which is
 * the only thing assumed about it.
 */
module TokenGeneration {
  import opened RingTypes
  import opened Sets
  import opened TokenLists

  /** The tokens among the first draws that are not taken. */
  ghost function Fresh(draw: nat -> Token, taken: seq<Token>, draws: nat): set<Token> {
    (set i | 0 <= i < draws :: draw(i)) - Elements(taken)
  }

  lemma OneMoreDraw(draw: nat -> Token, taken: seq<Token>, draws: nat)
    ensures Fresh(draw, taken, draws + 1)
      == Fresh(draw, taken, draws) + (if draw(draws) in taken then {} else {draw(draws)})
  {
  }

  lemma FreshGrows(draw: nat -> Token, taken: seq<Token>, a: nat, b: nat)
    requires a <= b
    ensures |Fresh(draw, taken, a)| <= |Fresh(draw, taken, b)|
  {
    SubsetIsSmaller(Fresh(draw, taken, a), Fresh(draw, taken, b));
  }

  lemma {:induction false} DistinctTokens(s: seq<Token>)
    requires |Elements(s)| == |s|
    ensures forall t :: multiset(s)[t] <= 1
  {
    if s != [] {
      var front, last := s[..|s| - 1], s[|s| - 1];
      assert s == front + [last];
      assert Elements(s) == Elements(front) + {last};
      ElementsFit(front);
      DistinctTokens(front);
      assert last !in front;
    }
  }

  lemma {:induction false} ElementsFit(s: seq<Token>)
    ensures |Elements(s)| <= |s|
  {
    if s != [] {
      var front, last := s[..|s| - 1], s[|s| - 1];
      assert s == front + [last];
      assert Elements(s) == Elements(front) + {last};
      ElementsFit(front);
    }
  }

  lemma TwoOccurrences(s: seq<Token>, i: nat, j: nat)
    requires i < j < |s| && s[i] == s[j]
    ensures multiset(s)[s[i]] >= 2
  {
    assert s == s[..j] + [s[j]] + s[j + 1..];
    assert s[..j][i] == s[i];
  }

  lemma DistinctAscends(s: seq<Token>)
    requires Ascending(s) && forall t :: multiset(s)[t] <= 1
    ensures StrictlyAscending(s)
  {
    forall i, j | 0 <= i < j < |s| ensures s[i] < s[j] {
      if s[i] == s[j] {
        TwoOccurrences(s, i, j);
        assert false;
      }
    }
  }

  /** The n draws so far have yielded these tokens. */
  ghost predicate Drawn(
    draw: nat -> Token, taken: seq<Token>, n: nat, tokens: seq<Token>, used: set<Token>)
  {
    && used == Elements(taken) + Elements(tokens)
    && Elements(tokens) == Fresh(draw, taken, n)
    && |Elements(tokens)| == |tokens|
  }

  lemma SkipUsed(draw: nat -> Token, taken: seq<Token>, n: nat, tokens: seq<Token>, used: set<Token>)
    requires Drawn(draw, taken, n, tokens, used) && draw(n) in used
    ensures Drawn(draw, taken, n + 1, tokens, used)
  {
    OneMoreDraw(draw, taken, n);
  }

  lemma AddUnused(draw: nat -> Token, taken: seq<Token>, n: nat, tokens: seq<Token>, used: set<Token>)
    requires Drawn(draw, taken, n, tokens, used) && draw(n) !in used
    ensures Drawn(draw, taken, n + 1, tokens + [draw(n)], used + {draw(n)})
  {
    OneMoreDraw(draw, taken, n);
    assert Elements(tokens + [draw(n)]) == Elements(tokens) + {draw(n)};
    assert draw(n) !in Elements(tokens);
  }

  lemma SortedDraw(draw: nat -> Token, taken: seq<Token>, n: nat, tokens: seq<Token>, used: set<Token>)
    requires Drawn(draw, taken, n, tokens, used)
    ensures StrictlyAscending(Sort(tokens)) && |Sort(tokens)| == |tokens|
    ensures Elements(Sort(tokens)) == Fresh(draw, taken, n)
  {
    DistinctTokens(tokens);
    SameMultisetSameElements(Sort(tokens), tokens);
    DistinctAscends(Sort(tokens));
  }

  lemma EnoughDrawn(
    draw: nat -> Token, taken: seq<Token>, n: nat, tokens: seq<Token>, used: set<Token>, enough: nat)
    requires Drawn(draw, taken, n, tokens, used) && |tokens| < |Fresh(draw, taken, enough)|
    ensures n < enough
  {
    if n >= enough {
      FreshGrows(draw, taken, enough, n);
    }
  }

  /**
   * The first distinct draws that are not taken, in ascending order. enough is a number of draws that is known to
   * suffice; the loop does not use it.
   */
  method GenerateTokens(numTokens: int, taken: seq<Token>, draw: nat -> Token, ghost enough: nat)
    returns (tokens: seq<Token>)
    requires numTokens <= |Fresh(draw, taken, enough)|
    ensures StrictlyAscending(tokens)
    ensures |tokens| == if numTokens <= 0 then 0 else numTokens
    ensures exists draws: nat :: Elements(tokens) == Fresh(draw, taken, draws)
  {
    tokens := [];
    assert Elements(tokens) == Fresh(draw, taken, 0);
    if numTokens <= 0 {
      return;
    }
    var used := set t | t in taken;
    var n := 0;
    while |tokens| < numTokens
      invariant |tokens| <= numTokens && Drawn(draw, taken, n, tokens, used)
      decreases enough - n
    {
      EnoughDrawn(draw, taken, n, tokens, used, enough);
      var candidate := draw(n);
      if candidate in used {
        SkipUsed(draw, taken, n, tokens, used);
        n := n + 1;
        continue;
      }
      AddUnused(draw, taken, n, tokens, used);
      used := used + {candidate};
      tokens := tokens + [candidate];
      n := n + 1;
    }
    SortedDraw(draw, taken, n, tokens, used);
    tokens := Sort(tokens);
  }
}
