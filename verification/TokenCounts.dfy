/** How many tokens and keys are counted for each instance (countTokens in ring/ring.go). */
module TokenCounts {
  import opened RingTypes
  import opened TokenLists
  import opened Replication
  import opened Sets
  import opened TokenWalk

  /** Addition of unsigned 32-bit numbers. */
  function Add32(a: int, b: int): int {
    (a + b) % TOKEN_SPACE
  }

  /** The instance listed for a token, or the empty name. */
  function OwnerName(owners: map<Token, Info>, t: Token): string {
    if t in owners then owners[t].instanceID else ""
  }

  function Owner(tokens: seq<Token>, owners: map<Token, Info>, i: nat): string
    requires i < |tokens|
  {
    OwnerName(owners, tokens[i])
  }

  /** What is counted for the i-th token: the way to the next one. The way from the last to the first is one short. */
  function Width(tokens: seq<Token>, i: nat): (w: int)
    requires Ascending(tokens) && i < |tokens|
    ensures 0 <= w < TOKEN_SPACE
  {
    if i + 1 == |tokens| then (TOKEN_SPACE - 1 - tokens[i]) + tokens[0] else tokens[i + 1] - tokens[i]
  }

  /** The sum of what is counted for the first n tokens, as far as they belong to the instance. */
  function Counted(tokens: seq<Token>, owners: map<Token, Info>, id: string, n: nat): nat
    requires Ascending(tokens) && n <= |tokens|
  {
    if n == 0 then 0
    else Counted(tokens, owners, id, n - 1) + if Owner(tokens, owners, n - 1) == id then Width(tokens, n - 1) else 0
  }

  function TokensOf(tokens: seq<Token>, owners: map<Token, Info>, id: string, n: nat): nat
    requires n <= |tokens|
  {
    if n == 0 then 0
    else TokensOf(tokens, owners, id, n - 1) + if Owner(tokens, owners, n - 1) == id then 1 else 0
  }

  /** Adding up the counts cannot wrap around. */
  lemma {:induction false} CountedFits(tokens: seq<Token>, owners: map<Token, Info>, id: string, n: nat)
    requires Ascending(tokens) && 0 < n <= |tokens|
    ensures Counted(tokens, owners, id, n) <= if n == |tokens| then TOKEN_SPACE - 1 else tokens[n] - tokens[0]
  {
    if n > 1 {
      CountedFits(tokens, owners, id, n - 1);
    } else {
      assert Counted(tokens, owners, id, 0) == 0;
    }
  }

  /** The instances met among the first n tokens. */
  ghost function Met(tokens: seq<Token>, owners: map<Token, Info>, n: nat): set<string>
    requires n <= |tokens|
  {
    set i | 0 <= i < n :: Owner(tokens, owners, i)
  }

  ghost predicate WidthsAre(tokens: seq<Token>, owners: map<Token, Info>, n: nat, owned: map<string, int>)
    requires Ascending(tokens) && n <= |tokens|
  {
    forall id :: id in owned ==> owned[id] == Counted(tokens, owners, id, n)
  }

  ghost predicate TokensAre(tokens: seq<Token>, owners: map<Token, Info>, n: nat, numTokens: map<string, int>)
    requires n <= |tokens|
  {
    forall id :: id in numTokens ==> numTokens[id] == TokensOf(tokens, owners, id, n) % TOKEN_SPACE
  }

  lemma {:induction false} NotMetNotCounted(tokens: seq<Token>, owners: map<Token, Info>, id: string, n: nat)
    requires Ascending(tokens) && n <= |tokens| && id !in Met(tokens, owners, n)
    ensures Counted(tokens, owners, id, n) == 0 && TokensOf(tokens, owners, id, n) == 0
  {
    if n > 0 {
      assert Owner(tokens, owners, n - 1) in Met(tokens, owners, n);
      assert Met(tokens, owners, n - 1) <= Met(tokens, owners, n);
      NotMetNotCounted(tokens, owners, id, n - 1);
    }
  }

  method CountTokens(m: Ingesters, tokens: seq<Token>, owners: map<Token, Info>)
    returns (numTokens: map<string, int>, owned: map<string, int>)
    requires Ascending(tokens)
    ensures owned.Keys == numTokens.Keys == m.Keys + Met(tokens, owners, |tokens|)
    ensures WidthsAre(tokens, owners, |tokens|, owned) && TokensAre(tokens, owners, |tokens|, numTokens)
  {
    numTokens, owned := map[], map[];
    for i := 0 to |tokens|
      invariant owned.Keys == numTokens.Keys == Met(tokens, owners, i)
      invariant WidthsAre(tokens, owners, i, owned) && TokensAre(tokens, owners, i, numTokens)
    {
      var diff: int;
      if i + 1 == |tokens| {
        diff := (TOKEN_SPACE - 1 - tokens[i]) + tokens[0];
      } else {
        diff := tokens[i + 1] - tokens[i];
      }
      numTokens, owned := AddToken(tokens, owners, i, diff, numTokens, owned);
    }
    numTokens, owned := AddMissing(m, tokens, owners, numTokens, owned);
  }

  method AddToken(tokens: seq<Token>, owners: map<Token, Info>, i: nat, diff: int, numTokens: map<string, int>,
      owned: map<string, int>)
    returns (numTokens': map<string, int>, owned': map<string, int>)
    requires Ascending(tokens) && i < |tokens| && diff == Width(tokens, i)
    requires owned.Keys == numTokens.Keys == Met(tokens, owners, i)
    requires WidthsAre(tokens, owners, i, owned) && TokensAre(tokens, owners, i, numTokens)
    ensures owned'.Keys == numTokens'.Keys == Met(tokens, owners, i + 1)
    ensures WidthsAre(tokens, owners, i + 1, owned') && TokensAre(tokens, owners, i + 1, numTokens')
  {
    var id := OwnerName(owners, tokens[i]);
    OneMoreToken(tokens, owners, i, numTokens);
    OneMoreWidth(tokens, owners, i, owned);
    MetOneMore(tokens, owners, i);
    numTokens' := numTokens[id := Add32(if id in numTokens then numTokens[id] else 0, 1)];
    owned' := owned[id := Add32(if id in owned then owned[id] else 0, diff)];
  }

  /** Instances without tokens are listed with zero. */
  method AddMissing(m: Ingesters, tokens: seq<Token>, owners: map<Token, Info>, numTokens: map<string, int>,
      owned: map<string, int>)
    returns (numTokens': map<string, int>, owned': map<string, int>)
    requires Ascending(tokens) && owned.Keys == numTokens.Keys == Met(tokens, owners, |tokens|)
    requires WidthsAre(tokens, owners, |tokens|, owned) && TokensAre(tokens, owners, |tokens|, numTokens)
    ensures owned'.Keys == numTokens'.Keys == m.Keys + Met(tokens, owners, |tokens|)
    ensures WidthsAre(tokens, owners, |tokens|, owned') && TokensAre(tokens, owners, |tokens|, numTokens')
  {
    numTokens', owned' := numTokens, owned;
    var todo := m.Keys;
    while todo != {}
      invariant todo <= m.Keys
      invariant owned'.Keys == numTokens'.Keys == (m.Keys - todo) + Met(tokens, owners, |tokens|)
      invariant WidthsAre(tokens, owners, |tokens|, owned') && TokensAre(tokens, owners, |tokens|, numTokens')
      decreases todo
    {
      var id :| id in todo;
      todo := todo - {id};
      if id !in owned' {
        NotMetNotCounted(tokens, owners, id, |tokens|);
        owned' := owned'[id := 0];
        numTokens' := numTokens'[id := 0];
      }
    }
  }

  lemma Add32OfWrapped(total: nat, x: nat)
    ensures Add32(total % TOKEN_SPACE, x) == (total + x) % TOKEN_SPACE
  {
  }

  lemma Add32Fits(a: nat, b: nat)
    requires a + b < TOKEN_SPACE
    ensures Add32(a, b) == a + b
  {
  }

  lemma OneMoreToken(tokens: seq<Token>, owners: map<Token, Info>, i: nat, numTokens: map<string, int>)
    requires Ascending(tokens) && i < |tokens| && numTokens.Keys == Met(tokens, owners, i)
    requires TokensAre(tokens, owners, i, numTokens)
    ensures var id := Owner(tokens, owners, i);
      TokensAre(tokens, owners, i + 1, numTokens[id := Add32(if id in numTokens then numTokens[id] else 0, 1)])
  {
    var id := Owner(tokens, owners, i);
    if id !in numTokens {
      NotMetNotCounted(tokens, owners, id, i);
    }
    Add32OfWrapped(TokensOf(tokens, owners, id, i), 1);
  }

  lemma OneMoreWidth(tokens: seq<Token>, owners: map<Token, Info>, i: nat, owned: map<string, int>)
    requires Ascending(tokens) && i < |tokens| && owned.Keys == Met(tokens, owners, i)
    requires WidthsAre(tokens, owners, i, owned)
    ensures var id := Owner(tokens, owners, i);
      WidthsAre(tokens, owners, i + 1, owned[id := Add32(if id in owned then owned[id] else 0, Width(tokens, i))])
  {
    var id := Owner(tokens, owners, i);
    if id !in owned {
      NotMetNotCounted(tokens, owners, id, i);
    }
    CountedFits(tokens, owners, id, i + 1);
    Add32Fits(Counted(tokens, owners, id, i), Width(tokens, i));
  }

  lemma MetOneMore(tokens: seq<Token>, owners: map<Token, Info>, i: nat)
    requires i < |tokens|
    ensures Met(tokens, owners, i + 1) == Met(tokens, owners, i) + {Owner(tokens, owners, i)}
  {
  }

  // ---------------------------------------------------------------- conservation

  ghost function CountedUpTo(tokens: seq<Token>, owners: map<Token, Info>, n: nat): string -> nat
    requires Ascending(tokens) && n <= |tokens|
  {
    id => if Ascending(tokens) && n <= |tokens| then Counted(tokens, owners, id, n) else 0
  }

  /** What is counted for all instances together is the whole space but one key, however the tokens are distributed. */
  lemma {:induction false} CountsAddUp(tokens: seq<Token>, owners: map<Token, Info>, ids: set<string>, n: nat)
    requires Ascending(tokens) && 0 < n <= |tokens| && Met(tokens, owners, n) <= ids
    ensures SumOver(ids, CountedUpTo(tokens, owners, n))
      == if n == |tokens| then TOKEN_SPACE - 1 else tokens[n] - tokens[0]
  {
    var id := Owner(tokens, owners, n - 1);
    assert id in Met(tokens, owners, n);
    var now, before := CountedUpTo(tokens, owners, n), CountedUpTo(tokens, owners, n - 1);
    SumWithout(ids, now, id);
    SumWithout(ids, before, id);
    SumsAgree(ids - {id}, now, before);
    if n > 1 {
      CountsAddUp(tokens, owners, ids, n - 1);
    } else {
      SumOfZeros(ids, before);
    }
  }

  // ---------------------------------------------------------------- which keys are counted

  /** The keys from the i-th token up to the next one, around the top for the last. */
  predicate InRange(tokens: seq<Token>, i: nat, key: Token)
    requires i < |tokens|
  {
    if i + 1 == |tokens| then tokens[i] <= key || key < tokens[0] else tokens[i] <= key < tokens[i + 1]
  }

  ghost function Keys(tokens: seq<Token>, i: nat): set<int>
    requires i < |tokens|
  {
    set key | 0 <= key < TOKEN_SPACE && InRange(tokens, i, key)
  }

  predicate Between(low: int, key: int, high: int) {
    low <= key < high
  }

  ghost function Interval(low: int, high: int): set<int> {
    set key | low <= key < high && Between(low, key, high)
  }

  lemma {:induction false} IntervalCounts(low: int, high: int)
    requires low <= high
    ensures |Interval(low, high)| == high - low
    decreases high - low
  {
    if low < high {
      IntervalCounts(low, high - 1);
      assert Interval(low, high) == Interval(low, high - 1) + {high - 1};
    }
  }

  /** The count is the number of keys of the range, one short for the range around the top. */
  lemma WidthCountsKeys(tokens: seq<Token>, i: nat)
    requires Ascending(tokens) && i < |tokens|
    ensures |Keys(tokens, i)| == Width(tokens, i) + if i + 1 == |tokens| then 1 else 0
  {
    if i + 1 == |tokens| {
      var above, below := Interval(tokens[i], TOKEN_SPACE), Interval(0, tokens[0]);
      IntervalCounts(tokens[i], TOKEN_SPACE);
      IntervalCounts(0, tokens[0]);
      assert Keys(tokens, i) == above + below;
      assert i > 0 ==> tokens[0] <= tokens[i];
      assert above !! below;
    } else {
      assert tokens[i] <= tokens[i + 1];
      IntervalCounts(tokens[i], tokens[i + 1]);
      assert Keys(tokens, i) == Interval(tokens[i], tokens[i + 1]);
    }
  }

  /**
   * A lookup starts at the token after the one for which the key is counted: the counts say how far it is from the
   * tokens of an instance to the next ones, not how many keys are looked up at the instance.
   */
  lemma CountedForTheTokenBefore(tokens: seq<Token>, key: Token, start: nat, i: nat)
    requires StrictlyAscending(tokens) && IsStart(tokens, key, start) && i < |tokens|
    ensures InRange(tokens, i, key) <==> start == Wrapped(i + 1, |tokens|)
  {
    if start > 0 && i < start {
      assert tokens[i] <= tokens[start - 1];
    }
  }

  /** With a at token 0 and b at token 1, a is counted one key although all keys but one are looked up there. */
  lemma SharesAreExchanged(owners: map<Token, Info>)
    requires owners == map[0 := Info("a", ""), 1 := Info("b", "")]
    ensures Counted([0, 1], owners, "a", 2) == 1
    ensures forall key: Token :: IsStart([0, 1], key, 0) <==> key != 0
  {
    assert Counted([0, 1], owners, "a", 1) == 1;
  }

  ghost function StartOf(tokens: seq<Token>, key: Token): (start: nat)
    requires tokens != []
    ensures start < |tokens| && IsStart(tokens, key, start)
  {
    StartExists(tokens, key);
    var start: nat :| start < |tokens| && IsStart(tokens, key, start);
    start
  }

  /** The instance at which the lookup of a key starts. */
  ghost function FirstAsked(tokens: seq<Token>, owners: map<Token, Info>): int -> string
    requires tokens != []
  {
    key => if 0 <= key < TOKEN_SPACE && tokens != [] then Owner(tokens, owners, StartOf(tokens, key)) else ""
  }

  /** The number of keys that are looked up at an instance. */
  ghost function LookedUp(tokens: seq<Token>, owners: map<Token, Info>): string -> nat
    requires tokens != []
  {
    id => if tokens != [] then |Part(Interval(0, TOKEN_SPACE), FirstAsked(tokens, owners), id)| else 0
  }

  lemma LookupsAddUp(tokens: seq<Token>, owners: map<Token, Info>)
    requires tokens != []
    ensures SumOver(Met(tokens, owners, |tokens|), LookedUp(tokens, owners)) == TOKEN_SPACE
  {
    var keys, asked := Interval(0, TOKEN_SPACE), FirstAsked(tokens, owners);
    forall key | key in keys ensures asked(key) in Met(tokens, owners, |tokens|) {
      assert asked(key) == Owner(tokens, owners, StartOf(tokens, key));
    }
    PartsAddUp(keys, asked, Met(tokens, owners, |tokens|), LookedUp(tokens, owners));
    IntervalCounts(0, TOKEN_SPACE);
  }

  ghost predicate CountIsWrong(tokens: seq<Token>, owners: map<Token, Info>, id: string)
    requires Ascending(tokens) && tokens != []
  {
    Counted(tokens, owners, id, |tokens|) != LookedUp(tokens, owners)(id)
  }

  /** No ring with tokens has all its counts right: some instance is looked up for another number of keys. */
  lemma SomeCountIsWrong(tokens: seq<Token>, owners: map<Token, Info>)
    requires Ascending(tokens) && tokens != []
    ensures exists id :: id in Met(tokens, owners, |tokens|) && CountIsWrong(tokens, owners, id)
  {
    var ids, counted := Met(tokens, owners, |tokens|), CountedUpTo(tokens, owners, |tokens|);
    CountsAddUp(tokens, owners, ids, |tokens|);
    LookupsAddUp(tokens, owners);
    if forall id :: id in ids ==> !CountIsWrong(tokens, owners, id) {
      SumsAgree(ids, counted, LookedUp(tokens, owners));
    }
  }
}
