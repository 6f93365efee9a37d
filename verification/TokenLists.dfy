/**
 * Sorted token lists, as the ring keeps them in its entries and its indexes: sorting, removing duplicates, and the
 * unique strictly ascending listing of a set of tokens, which is what makes the result of a merge independent of the
 * order in which maps are iterated.
 */
module TokenLists {
  import opened RingTypes

  predicate Ascending(s: seq<Token>) {
    forall i, j :: 0 <= i < j < |s| ==> s[i] <= s[j]
  }

  predicate StrictlyAscending(s: seq<Token>) {
    forall i, j :: 0 <= i < j < |s| ==> s[i] < s[j]
  }

  function Elements(s: seq<Token>): set<Token> {
    set t | t in s
  }

  /** A strictly ascending list is determined by its elements. */
  lemma {:induction false} AscendingIsUnique(a: seq<Token>, b: seq<Token>)
    requires StrictlyAscending(a) && StrictlyAscending(b)
    requires Elements(a) == Elements(b)
    ensures a == b
  {
    if a == [] {
      if b != [] {
        HeadIsElement(b);
      }
    } else {
      assert a[0] in Elements(a);
      assert b[0] in Elements(b);
      assert a[0] == b[0];
      assert Elements(a[1..]) == Elements(a) - {a[0]} by { ElementsOfTail(a); }
      assert Elements(b[1..]) == Elements(b) - {b[0]} by { ElementsOfTail(b); }
      AscendingIsUnique(a[1..], b[1..]);
      assert a == [a[0]] + a[1..];
      assert b == [b[0]] + b[1..];
    }
  }

  lemma HeadIsElement(a: seq<Token>)
    requires a != []
    ensures a[0] in Elements(a)
  {
  }

  lemma ElementsOfTail(a: seq<Token>)
    requires StrictlyAscending(a) && a != []
    ensures Elements(a[1..]) == Elements(a) - {a[0]}
  {
    forall t ensures t in Elements(a[1..]) <==> t in Elements(a) - {a[0]} {
      if t in Elements(a) - {a[0]} {
        var i :| 0 <= i < |a| && a[i] == t;
        assert a[1..][i - 1] == t;
      }
    }
  }

  lemma {:induction false} Largest(s: set<Token>) returns (m: Token)
    requires s != {}
    ensures m in s && forall t :: t in s ==> t <= m
  {
    m :| m in s;
    var rest := s - {m};
    if rest != {} {
      var other := Largest(rest);
      assert forall t :: t in s ==> t == m || t in rest;
      if other > m {
        m := other;
      }
    } else {
      assert forall t :: t in s ==> t == m || t in rest;
    }
  }

  ghost predicate IsLargest(m: Token, s: set<Token>) {
    m in s && forall t :: t in s ==> t <= m
  }

  lemma LargestExists(s: set<Token>)
    requires s != {}
    ensures exists m :: IsLargest(m, s)
  {
    var m := Largest(s);
    assert IsLargest(m, s);
  }

  lemma AppendLarger(front: seq<Token>, m: Token, s: set<Token>)
    requires StrictlyAscending(front) && Elements(front) == s - {m} && m in s
    requires forall t :: t in s ==> t <= m
    ensures StrictlyAscending(front + [m]) && Elements(front + [m]) == s
  {
    forall i | 0 <= i < |front| ensures front[i] < m {
      assert front[i] in Elements(front);
    }
    forall t ensures t in Elements(front + [m]) <==> t in s {
      if t in s && t != m {
        assert t in Elements(front);
        assert t in front;
      }
      if t in Elements(front + [m]) && t != m {
        assert t in front;
        assert t in Elements(front);
      }
      assert (front + [m])[|front|] == m;
    }
  }

  /** The elements of a set in ascending order. */
  ghost function Listing(s: set<Token>): (r: seq<Token>)
    ensures StrictlyAscending(r) && Elements(r) == s
  {
    if s == {} then []
    else
      LargestExists(s);
      var m :| IsLargest(m, s);
      var front := Listing(s - {m});
      AppendLarger(front, m, s);
      front + [m]
  }

  lemma ListingOfAscending(s: seq<Token>)
    requires StrictlyAscending(s)
    ensures Listing(Elements(s)) == s
  {
    AscendingIsUnique(Listing(Elements(s)), s);
  }

  lemma AppendAscending(s: seq<Token>, x: Token)
    requires StrictlyAscending(s) && forall y :: y in s ==> y < x
    ensures StrictlyAscending(s + [x])
  {
    assert forall i :: 0 <= i < |s| ==> s[i] in s;
  }

  function Insert(x: Token, s: seq<Token>): seq<Token> {
    if s == [] || x <= s[0] then [x] + s else [s[0]] + Insert(x, s[1..])
  }

  lemma {:induction false} InsertAdds(x: Token, s: seq<Token>)
    ensures multiset(Insert(x, s)) == multiset(s) + multiset{x}
  {
    if s != [] && x > s[0] {
      assert s == [s[0]] + s[1..];
      InsertAdds(x, s[1..]);
    }
  }

  lemma {:induction false} InsertKeepsOrder(x: Token, s: seq<Token>)
    requires Ascending(s)
    ensures Ascending(Insert(x, s))
    ensures forall y :: y in Insert(x, s) ==> y == x || y in s
  {
    if s != [] && x > s[0] {
      InsertKeepsOrder(x, s[1..]);
      PrependAscending(s[0], Insert(x, s[1..]));
    } else if s != [] {
      PrependAscending(x, s);
    }
  }

  lemma PrependAscending(x: Token, s: seq<Token>)
    requires Ascending(s) && forall y :: y in s ==> x <= y
    ensures Ascending([x] + s)
  {
    assert forall i :: 0 <= i < |s| ==> s[i] in s;
  }

  /** What sort.Sort leaves behind: the same tokens in ascending order. */
  function Sort(s: seq<Token>): (r: seq<Token>)
    ensures Ascending(r) && multiset(r) == multiset(s)
  {
    if s == [] then []
    else
      assert s == [s[0]] + s[1..];
      InsertKeepsOrder(s[0], Sort(s[1..]));
      InsertAdds(s[0], Sort(s[1..]));
      Insert(s[0], Sort(s[1..]))
  }

  lemma SameMultisetSameElements(a: seq<Token>, b: seq<Token>)
    requires multiset(a) == multiset(b)
    ensures Elements(a) == Elements(b) && |a| == |b|
  {
    assert forall t :: t in a <==> t in multiset(a);
    assert forall t :: t in b <==> t in multiset(b);
    assert |multiset(a)| == |a| && |multiset(b)| == |b|;
  }
}
