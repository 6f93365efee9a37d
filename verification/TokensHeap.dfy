/**
 * Merging sorted token lists through a heap of their heads (TokensHeap, MergeTokens in ring/model.go). The heap is
 * the one of container/heap, as far as MergeTokens uses it: Init, Fix and Remove, each in terms of sifting down.
 */
module TokensHeap {
  import opened RingTypes
  import opened TokenLists

  /** All tokens of all lists, counted with repetitions. */
  function Total(lists: seq<seq<Token>>): multiset<Token> {
    if lists == [] then multiset{} else multiset(lists[0]) + Total(lists[1..])
  }

  lemma {:induction false} TotalOfUpdate(lists: seq<seq<Token>>, i: nat, x: seq<Token>)
    requires i < |lists|
    ensures Total(lists[i := x]) + multiset(lists[i]) == Total(lists) + multiset(x)
  {
    var next := lists[i := x];
    if i == 0 {
      assert next[1..] == lists[1..];
    } else {
      TotalOfUpdate(lists[1..], i - 1, x);
      assert next[1..] == lists[1..][i - 1 := x];
      assert Total(next) == multiset(lists[0]) + Total(next[1..]);
      assert Total(lists) == multiset(lists[0]) + Total(lists[1..]);
      Regroup(multiset(lists[0]), Total(next[1..]), multiset(lists[i]), Total(lists[1..]), multiset(x));
    }
  }

  lemma TotalOfSwap(lists: seq<seq<Token>>, i: nat, j: nat)
    requires i < |lists| && j < |lists|
    ensures Total(lists[i := lists[j]][j := lists[i]]) == Total(lists)
  {
    var half := lists[i := lists[j]];
    TotalOfUpdate(lists, i, lists[j]);
    TotalOfUpdate(half, j, lists[i]);
    assert half[j] == lists[j];
    var x, y, z := Total(half[j := lists[i]]), Total(half), Total(lists);
    var a, b := multiset(lists[i]), multiset(lists[j]);
    assert x + b == y + a == z + b;
    assert x == (x + b) - b;
    assert z == (z + b) - b;
  }

  /** The same lists in another order. */
  ghost predicate SameLists(now: seq<seq<Token>>, before: seq<seq<Token>>) {
    |now| == |before| && Total(now) == Total(before) && forall list :: list in now ==> list in before
  }

  lemma SameListsAgain(a: seq<seq<Token>>, b: seq<seq<Token>>, c: seq<seq<Token>>)
    requires SameLists(a, b) && SameLists(b, c)
    ensures SameLists(a, c)
  {
  }

  lemma SwapSameLists(lists: seq<seq<Token>>, i: nat, j: nat)
    requires i < |lists| && j < |lists|
    ensures SameLists(lists[i := lists[j]][j := lists[i]], lists)
  {
    TotalOfSwap(lists, i, j);
    var s := lists[i := lists[j]][j := lists[i]];
    forall list | list in s ensures list in lists {
      var k :| 0 <= k < |s| && s[k] == list;
    }
  }

  lemma Regroup(a: multiset<Token>, b: multiset<Token>, c: multiset<Token>, d: multiset<Token>, e: multiset<Token>)
    requires b + c == d + e
    ensures (a + b) + c == (a + d) + e
  {
    assert (a + b) + c == a + (b + c);
    assert (a + d) + e == a + (d + e);
  }

  lemma {:induction false} TotalOfAppend(lists: seq<seq<Token>>, x: seq<Token>)
    ensures Total(lists + [x]) == Total(lists) + multiset(x)
  {
    if lists == [] {
      assert lists + [x] == [x];
      assert Total([x]) == multiset(x) + Total([]);
    } else {
      TotalOfAppend(lists[1..], x);
      assert (lists + [x])[1..] == lists[1..] + [x];
    }
  }

  lemma {:induction false} InTotal(lists: seq<seq<Token>>, t: Token)
    ensures t in Total(lists) <==> exists i :: 0 <= i < |lists| && t in lists[i]
  {
    if lists != [] {
      InTotal(lists[1..], t);
      if i :| 0 <= i < |lists| && t in lists[i] {
        if i > 0 {
          assert t in lists[1..][i - 1];
        }
      }
      if t in Total(lists[1..]) {
        var i :| 0 <= i < |lists[1..]| && t in lists[1..][i];
        assert t in lists[i + 1];
      }
    }
  }

  ghost predicate NoneEmpty(lists: seq<seq<Token>>) {
    forall i :: 0 <= i < |lists| ==> lists[i] != []
  }

  predicate IsParent(i: int, j: int) {
    j == 2 * i + 1 || j == 2 * i + 2
  }

  /** The heads respect the heap order under every parent from lo on, among the first n lists. */
  ghost predicate HeapFrom(lists: seq<seq<Token>>, lo: int, n: nat)
    requires n <= |lists| && NoneEmpty(lists)
  {
    forall i, j :: 0 <= i < n && 0 <= j < n && IsParent(i, j) && i >= lo ==> lists[i][0] <= lists[j][0]
  }

  /** The order holds from lo on except that list k may be too large for its place. */
  ghost predicate HeapBut(lists: seq<seq<Token>>, k: nat, lo: nat, n: nat)
    requires n <= |lists| && NoneEmpty(lists)
  {
    && (forall i, j :: 0 <= i < n && 0 <= j < n && IsParent(i, j) && i >= lo && i != k ==> lists[i][0] <= lists[j][0])
    && (forall i, j :: lo <= i < k < j < n && IsParent(i, k) && IsParent(k, j) ==> lists[i][0] <= lists[j][0])
  }

  lemma {:induction false} RootIsLeast(lists: seq<seq<Token>>, j: nat)
    requires NoneEmpty(lists) && HeapFrom(lists, 0, |lists|) && j < |lists|
    ensures lists[0][0] <= lists[j][0]
  {
    if j > 0 {
      assert IsParent((j - 1) / 2, j);
      RootIsLeast(lists, (j - 1) / 2);
    }
  }

  /** One step of Down: the smaller child j of k moves up, and the question is whether k fits in j's place. */
  lemma SwapKeepsHeap(lists: seq<seq<Token>>, k: nat, j: nat, lo: nat, n: nat)
    requires lo <= k < j < n <= |lists| && NoneEmpty(lists) && HeapBut(lists, k, lo, n) && IsParent(k, j)
    requires lists[j][0] < lists[k][0]
    requires forall c :: k < c < n && IsParent(k, c) ==> lists[j][0] <= lists[c][0]
    ensures var s := lists[k := lists[j]][j := lists[k]];
      NoneEmpty(s) && HeapBut(s, j, lo, n) && s[n..] == lists[n..]
  {
    var s := lists[k := lists[j]][j := lists[k]];
    forall a, b | 0 <= a < n && 0 <= b < n && IsParent(a, b) && a >= lo && a != j ensures s[a][0] <= s[b][0] {
      if a == k {
      } else if b == k {
        assert lists[a][0] <= lists[j][0];
      } else {
        assert b != j;
      }
    }
  }

  /** A list of lists kept as a heap; the algorithms are those of Go's container/heap. */
  class TokensHeap {
    var lists: seq<seq<Token>>

    constructor (lists: seq<seq<Token>>)
      ensures this.lists == lists
    {
      this.lists := lists;
    }

    predicate Less(i: nat, j: nat)
      requires i < |lists| && j < |lists| && lists[i] != [] && lists[j] != []
      reads this
    {
      lists[i][0] < lists[j][0]
    }

    method Swap(i: nat, j: nat)
      requires i < |lists| && j < |lists|
      modifies this
      ensures lists == old(lists)[i := old(lists)[j]][j := old(lists)[i]]
      ensures SameLists(lists, old(lists))
    {
      SwapSameLists(lists, i, j);
      lists := lists[i := lists[j]][j := lists[i]];
    }

    method Pop() returns (x: seq<Token>)
      requires lists != []
      modifies this
      ensures lists == old(lists)[..|old(lists)| - 1] && x == old(lists)[|old(lists)| - 1]
      ensures Total(lists) + multiset(x) == Total(old(lists))
    {
      var n := |lists|;
      x := lists[n - 1];
      assert lists == lists[..n - 1] + [x];
      TotalOfAppend(lists[..n - 1], x);
      lists := lists[..n - 1];
    }

    method Down(i0: nat, n: nat)
      requires i0 < n <= |lists| && NoneEmpty(lists) && HeapFrom(lists, i0 + 1, n)
      modifies this
      ensures |lists| == |old(lists)| && NoneEmpty(lists) && HeapFrom(lists, i0, n)
      ensures SameLists(lists, old(lists)) && lists[n..] == old(lists)[n..]
    {
      var i := i0;
      while true
        invariant i0 <= i < n && SameLists(lists, old(lists)) && lists[n..] == old(lists)[n..]
        invariant NoneEmpty(lists) && HeapBut(lists, i, i0, n)
        decreases n - i
      {
        var j1 := 2 * i + 1;
        if j1 >= n {
          break;
        }
        var j := j1;
        var j2 := j1 + 1;
        if j2 < n && Less(j2, j1) {
          j := j2;
        }
        if !Less(j, i) {
          break;
        }
        ghost var before := lists;
        SwapKeepsHeap(lists, i, j, i0, n);
        Swap(i, j);
        SameListsAgain(lists, before, old(lists));
        i := j;
      }
    }

    method Init()
      requires NoneEmpty(lists)
      modifies this
      ensures NoneEmpty(lists) && HeapFrom(lists, 0, |lists|)
      ensures SameLists(lists, old(lists))
    {
      var n := |lists|;
      var i := n / 2 - 1;
      while i >= 0
        invariant -1 <= i <= n / 2 - 1 && |lists| == n && NoneEmpty(lists) && HeapFrom(lists, i + 1, n)
        invariant SameLists(lists, old(lists))
      {
        Down(i, n);
        i := i - 1;
      }
    }

    /** heap.Fix and heap.Remove are only called on the root, where moving up does nothing. */
    method FixRoot()
      requires lists != [] && NoneEmpty(lists) && HeapFrom(lists, 1, |lists|)
      modifies this
      ensures |lists| == |old(lists)| && NoneEmpty(lists) && HeapFrom(lists, 0, |lists|)
      ensures SameLists(lists, old(lists))
    {
      Down(0, |lists|);
    }

    method RemoveRoot() returns (x: seq<Token>)
      requires lists != [] && NoneEmpty(lists) && HeapFrom(lists, 0, |lists|)
      modifies this
      ensures |lists| == |old(lists)| - 1 && NoneEmpty(lists) && HeapFrom(lists, 0, |lists|)
      ensures x == old(lists)[0] && Total(lists) + multiset(x) == Total(old(lists))
      ensures forall list :: list in lists ==> list in old(lists)
    {
      var n := |lists| - 1;
      if n != 0 {
        Swap(0, n);
        Down(0, n);
        assert lists[n..][0] == old(lists)[0];
      }
      x := Pop();
    }

    /** One round of the merge: the least token leaves the heap. */
    method TakeLeast() returns (t: Token)
      requires lists != [] && NoneEmpty(lists) && HeapFrom(lists, 0, |lists|) && AllAscending(lists)
      modifies this
      ensures NoneEmpty(lists) && HeapFrom(lists, 0, |lists|) && AllAscending(lists)
      ensures Total(lists) + multiset{t} == Total(old(lists))
      ensures t in Total(old(lists)) && forall u :: u in Total(old(lists)) ==> t <= u
    {
      var lowest := lists[0];
      t := lowest[0];
      forall u | u in Total(lists) ensures t <= u {
        RootIsLeastOfAll(lists, u);
      }
      assert lowest == [t] + lowest[1..];
      if |lowest| > 1 {
        RestOfRoot(lists);
        ghost var shorter := lists[0 := lowest[1..]];
        lists := lists[0 := lists[0][1..]];
        FixRoot();
        assert AllAscending(shorter);
      } else {
        var gone := RemoveRoot();
      }
    }
  }

  lemma RootIsLeastOfAll(lists: seq<seq<Token>>, t: Token)
    requires lists != [] && NoneEmpty(lists) && HeapFrom(lists, 0, |lists|) && AllAscending(lists)
    requires t in Total(lists)
    ensures lists[0][0] <= t
  {
    InTotal(lists, t);
    var i :| 0 <= i < |lists| && t in lists[i];
    RootIsLeast(lists, i);
    assert lists[i] in lists && Ascending(lists[i]);
    var p :| 0 <= p < |lists[i]| && lists[i][p] == t;
  }

  ghost predicate AllAscending(lists: seq<seq<Token>>) {
    forall list :: list in lists ==> Ascending(list)
  }

  /** A sorted permutation of everything in the lists. */
  method MergeTokens(instances: seq<seq<Token>>) returns (out: seq<Token>)
    requires AllAscending(instances)
    ensures Ascending(out) && multiset(out) == Total(instances)
  {
    var lists := NonEmptyLists(instances);
    var h := new TokensHeap(lists);
    h.Init();
    out := [];
    while |h.lists| > 0
      invariant NoneEmpty(h.lists) && HeapFrom(h.lists, 0, |h.lists|) && AllAscending(h.lists)
      invariant Merging(out, Total(h.lists), Total(instances))
      decreases |Total(h.lists)|
    {
      ghost var before := Total(h.lists);
      var least := h.TakeLeast();
      MergeOne(out, least, before, Total(h.lists), Total(instances));
      out := out + [least];
    }
    assert Total(h.lists) == multiset{};
  }

  /** The output is in order, below what is left, and together with it makes up all tokens. */
  ghost predicate Merging(out: seq<Token>, left: multiset<Token>, all: multiset<Token>) {
    Ascending(out) && multiset(out) + left == all && forall w, t :: w in out && t in left ==> w <= t
  }

  lemma MergeOne(out: seq<Token>, least: Token, before: multiset<Token>, after: multiset<Token>, all: multiset<Token>)
    requires Merging(out, before, all) && after + multiset{least} == before && forall t :: t in before ==> least <= t
    ensures Merging(out + [least], after, all) && |after| < |before|
  {
    assert least in before;
    OneTokenMoved(out, least, before, after, all);
    AppendLargest(out, least);
  }

  lemma AppendLargest(out: seq<Token>, t: Token)
    requires Ascending(out) && forall w :: w in out ==> w <= t
    ensures Ascending(out + [t])
  {
    assert forall i :: 0 <= i < |out| ==> out[i] in out;
  }

  /** The least token goes from the lists to the end of the output. */
  lemma OneTokenMoved(
    out: seq<Token>, t: Token, before: multiset<Token>, after: multiset<Token>, all: multiset<Token>)
    requires multiset(out) + before == all && after + multiset{t} == before
    ensures multiset(out + [t]) + after == all
    ensures |after| < |before|
    ensures forall u :: u in after ==> u in before
  {
    assert multiset(out + [t]) + after == multiset(out) + (after + multiset{t});
    assert |before| == |after| + 1;
  }

  /** Dropping the head of the root list leaves everything below the root in order. */
  lemma RestOfRoot(lists: seq<seq<Token>>)
    requires lists != [] && NoneEmpty(lists) && HeapFrom(lists, 0, |lists|) && AllAscending(lists) && |lists[0]| > 1
    ensures var s := lists[0 := lists[0][1..]];
      && NoneEmpty(s) && HeapFrom(s, 1, |s|) && AllAscending(s)
      && Total(s) + multiset{lists[0][0]} == Total(lists)
  {
    var s := lists[0 := lists[0][1..]];
    TotalOfRest(lists);
    forall list | list in s ensures Ascending(list) {
      var k :| 0 <= k < |s| && s[k] == list;
      assert lists[k] in lists;
    }
  }

  lemma TotalOfRest(lists: seq<seq<Token>>)
    requires lists != [] && |lists[0]| > 1
    ensures Total(lists[0 := lists[0][1..]]) + multiset{lists[0][0]} == Total(lists)
  {
    var s := lists[0 := lists[0][1..]];
    TotalOfUpdate(lists, 0, lists[0][1..]);
    assert lists[0] == [lists[0][0]] + lists[0][1..];
    Cancel(Total(s), Total(lists), multiset{lists[0][0]}, multiset(lists[0][1..]));
  }

  lemma Cancel(a: multiset<Token>, b: multiset<Token>, x: multiset<Token>, rest: multiset<Token>)
    requires a + (x + rest) == b + rest
    ensures a + x == b
  {
    assert a + (x + rest) == (a + x) + rest;
    assert ((a + x) + rest) - rest == a + x;
    assert (b + rest) - rest == b;
  }

  method NonEmptyLists(instances: seq<seq<Token>>) returns (lists: seq<seq<Token>>)
    ensures NoneEmpty(lists) && Total(lists) == Total(instances)
    ensures forall list :: list in lists ==> list in instances
  {
    lists := [];
    for i := 0 to |instances|
      invariant NoneEmpty(lists) && Total(lists) == Total(instances[..i])
      invariant forall list :: list in lists ==> list in instances
    {
      assert instances[..i + 1] == instances[..i] + [instances[i]];
      TotalOfAppend(instances[..i], instances[i]);
      if |instances[i]| == 0 {
        continue;
      }
      TotalOfAppend(lists, instances[i]);
      lists := lists + [instances[i]];
    }
    assert instances[..|instances|] == instances;
  }
}
