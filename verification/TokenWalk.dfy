/** Walking a sorted token list clockwise from a key (searchToken in ring/util.go, the walks in ring/ring.go). */
module TokenWalk {
  import opened RingTypes
  import opened TokenLists
  import opened Conflicts
  import ShuffleShard

  /** Where the walk starts: the first token larger than the key, or the very first one. */
  ghost predicate IsStart(tokens: seq<Token>, key: Token, start: nat) {
    || (start < |tokens| && tokens[start] > key && forall i :: 0 <= i < start ==> tokens[i] <= key)
    || (start == 0 && forall i :: 0 <= i < |tokens| ==> tokens[i] <= key)
  }

  lemma StartIsUnique(tokens: seq<Token>, key: Token, a: nat, b: nat)
    requires IsStart(tokens, key, a) && IsStart(tokens, key, b)
    ensures a == b
  {
  }

  lemma {:induction false} StartExists(tokens: seq<Token>, key: Token)
    requires tokens != []
    ensures exists start: nat :: start < |tokens| && IsStart(tokens, key, start)
  {
    if forall i :: 0 <= i < |tokens| ==> tokens[i] <= key {
      assert IsStart(tokens, key, 0);
    } else {
      var i := 0;
      while tokens[i] <= key
        invariant 0 <= i < |tokens| && forall j :: 0 <= j < i ==> tokens[j] <= key
        decreases |tokens| - i
      {
        i := i + 1;
      }
      assert IsStart(tokens, key, i);
    }
  }

  /** Binary search, as sort.Search does it. */
  method SearchToken(tokens: seq<Token>, key: Token) returns (start: nat)
    requires Ascending(tokens)
    ensures IsStart(tokens, key, start)
    ensures tokens != [] ==> start < |tokens|
  {
    var i, j := 0, |tokens|;
    while i < j
      invariant 0 <= i <= j <= |tokens|
      invariant forall k :: 0 <= k < i ==> tokens[k] <= key
      invariant forall k :: j <= k < |tokens| ==> tokens[k] > key
    {
      var h := (i + j) / 2;
      if !(tokens[h] > key) {
        i := h + 1;
      } else {
        j := h;
      }
    }
    start := i;
    if start >= |tokens| {
      start := 0;
    }
  }

  /** The index of the j-th token of a walk over n tokens. */
  function At(start: nat, j: nat, n: nat): (r: nat)
    requires start < n && j < n
    ensures r < n
  {
    if start + j < n then start + j else start + j - n
  }

  /** The loops let the position run past the end and wrap it around at the top. */
  function Wrapped(i: nat, n: nat): (r: nat)
    requires i <= n && n > 0
    ensures r == if i == n then 0 else i
  {
    i % n
  }

  /** The distance from the key never goes down during the walk. */
  lemma WalkIsClockwise(tokens: seq<Token>, key: Token, start: nat, i: nat, j: nat)
    requires Ascending(tokens) && IsStart(tokens, key, start) && start < |tokens| && i <= j < |tokens|
    ensures ShuffleShard.Distance(key, tokens[At(start, i, |tokens|)])
      <= ShuffleShard.Distance(key, tokens[At(start, j, |tokens|)])
  {
  }

  /** Every token is met once around. */
  lemma WalkMeetsAll(tokens: seq<Token>, start: nat, t: Token) returns (j: nat)
    requires start < |tokens| && t in tokens
    ensures j < |tokens| && tokens[At(start, j, |tokens|)] == t
  {
    var p :| 0 <= p < |tokens| && tokens[p] == t;
    j := if p >= start then p - start else p + |tokens| - start;
  }

  /** The first token of the walk whose owner is not selected is the nearest open one. */
  lemma FirstOpenIsNearest(
    m: Ingesters, tokens: seq<Token>, key: Token, start: nat, j: nat, shard: set<string>, k: string)
    requires ConflictFree(m) && Ascending(tokens) && Elements(tokens) == ShuffleShard.Tokens(m)
    requires IsStart(tokens, key, start) && start < |tokens| && j < |tokens|
    requires forall i :: 0 <= i < j ==> tokens[At(start, i, |tokens|)] !in ShuffleShard.Open(m, shard)
    requires ShuffleShard.Owns(m, k, tokens[At(start, j, |tokens|)]) && k !in shard
    ensures var t := tokens[At(start, j, |tokens|)];
      && ShuffleShard.Open(m, shard) != {}
      && ShuffleShard.Nearest(ShuffleShard.Open(m, shard), key) == t
      && t in ShuffleShard.Tokens(m) && ShuffleShard.OwnerOf(m, t) == k
  {
    var t := tokens[At(start, j, |tokens|)];
    var open := ShuffleShard.Open(m, shard);
    ShuffleShard.OpenOwner(m, shard, k, t);
    forall u | u in open ensures ShuffleShard.Distance(key, t) <= ShuffleShard.Distance(key, u) {
      assert u in Elements(tokens);
      var i := WalkMeetsAll(tokens, start, u);
      assert i >= j;
      WalkIsClockwise(tokens, key, start, j, i);
    }
    assert ShuffleShard.IsNearest(open, key, t);
    ShuffleShard.NearestIsUnique(open, key, t);
  }

  /** Once around without an open token: nothing is left to select. */
  lemma WalkExhausted(m: Ingesters, tokens: seq<Token>, start: nat, shard: set<string>)
    requires Elements(tokens) == ShuffleShard.Tokens(m) && (tokens != [] ==> start < |tokens|)
    requires forall i :: 0 <= i < |tokens| ==> tokens[At(start, i, |tokens|)] !in ShuffleShard.Open(m, shard)
    ensures ShuffleShard.Open(m, shard) == {}
  {
    forall u: Token ensures u !in ShuffleShard.Open(m, shard) {
      if u in Elements(tokens) {
        var i := WalkMeetsAll(tokens, start, u);
      }
    }
  }
}
