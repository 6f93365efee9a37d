/** Key-value pairs on the wire and the stream of them. */
module KvWire {
  import opened Varints
  import opened Skipping
  import opened Fields
  import opened Messages

  // KeyValuePair in kv/memberlist/kv.pb.go, and the full state that two nodes exchange: LocalState and
  // MergeRemoteState in kv/memberlist/memberlist_client.go.

  type Text = seq<Byte>

  datatype KeyValuePair = KeyValuePair(key: Text, value: seq<Byte>, codec: Text)

  const EMPTY: KeyValuePair := KeyValuePair([], [], [])

  function Parts(p: KeyValuePair): (r: seq<seq<Byte>>)
    ensures |r| == 3
  {
    [TextField(0x0a, p.key), TextField(0x12, p.value), TextField(0x1a, p.codec)]
  }

  function PairBytes(p: KeyValuePair): seq<Byte> {
    Concat(Parts(p))
  }

  lemma ThreeParts(f: seq<seq<Byte>>)
    requires |f| == 3
    ensures Concat(f) == f[0] + (f[1] + f[2])
  {
    assert f[1..][1..] == f[2..] && f[2] + [] == f[2];
    assert Concat(f[2..]) == f[2];
    assert Concat(f[1..]) == f[1] + Concat(f[2..]);
  }

  // ---------------------------------------------------------------- one pair

  method PairSize(p: KeyValuePair) returns (n: nat)
    ensures n == |PairBytes(p)|
  {
    ThreeParts(Parts(p));
    n := TextSize(0x0a, p.key);
    var l := TextSize(0x12, p.value);
    n := n + l;
    l := TextSize(0x1a, p.codec);
    n := n + l;
  }

  /** MarshalToSizedBuffer: the last field first. */
  method MarshalPairTo(buf: array<Byte>, end: int, p: KeyValuePair) returns (i: int)
    requires |PairBytes(p)| <= end <= buf.Length
    modifies buf
    ensures Wrote(old(buf[..]), buf[..], i, end, PairBytes(p))
  {
    ThreeParts(Parts(p));
    ghost var b0 := buf[..];
    var i1 := WriteTextField(buf, end, 0x1a, p.codec);
    ghost var b1 := buf[..];
    var i2 := WriteTextField(buf, i1, 0x12, p.value);
    WroteMore(b0, b1, buf[..], i2, i1, end, TextField(0x12, p.value), TextField(0x1a, p.codec));
    ghost var b2 := buf[..];
    i := WriteTextField(buf, i2, 0x0a, p.key);
    WroteMore(b0, b2, buf[..], i, i2, end, TextField(0x0a, p.key), TextField(0x12, p.value) + TextField(0x1a, p.codec));
  }

  method MarshalPair(p: KeyValuePair) returns (data: seq<Byte>)
    ensures data == PairBytes(p)
  {
    var size := PairSize(p);
    var buf := new Byte[size];
    var i := MarshalPairTo(buf, size, p);
    assert i == 0;
    data := buf[..size - i];
  }

  /** The field with the given number is set. */
  function PutText(p: KeyValuePair, field: int, s: Text): KeyValuePair {
    if field == 1 then p.(key := s) else if field == 2 then p.(value := s) else p.(codec := s)
  }

  function ReadField(data: seq<Byte>, i: nat, j: nat, field: int, wireType: nat, p: KeyValuePair)
    : (r: Result<(KeyValuePair, nat)>)
    ensures i < j <= |data| && r.Ok? ==> i < r.value.1 <= |data|
  {
    if 1 <= field <= 3 then
      if wireType != 2 then Err(WrongWireType)
      else
        match ReadText(data, j)
        case Err(e) => Err(e)
        case Ok((s, next)) => Ok((PutText(p, field, s), next))
    else if i >= |data| then Err(UnexpectedEOF)
    else (match SkipAt(data, i) case Err(e) => Err(e) case Ok(next) => Ok((p, next)))
  }

  lemma FieldsAdvance()
    ensures Advances(ReadField)
  {
  }

  function DecodePair(data: seq<Byte>): Result<KeyValuePair> {
    FieldsAdvance();
    Decode(ReadField, data, 0, EMPTY)
  }

  /** Unmarshal. */
  method UnmarshalPair(data: seq<Byte>) returns (r: Result<KeyValuePair>)
    ensures r == DecodePair(data)
  {
    FieldsAdvance();
    var p := EMPTY;
    var iNdEx: nat := 0;
    while iNdEx < |data|
      invariant iNdEx <= |data| && Decode(ReadField, data, iNdEx, p) == DecodePair(data)
      decreases |data| - iNdEx
    {
      var tag := ReadTag(data, iNdEx);
      if tag.Err? {
        return Err(tag.error);
      }
      var (wire, j) := tag.value;
      var field := UnmarshalField(data, iNdEx, j, FieldOf(wire), wire % 8, p);
      if field.Err? {
        return Err(field.error);
      }
      p, iNdEx := field.value.0, field.value.1;
    }
    r := Ok(p);
  }

  method UnmarshalField(data: seq<Byte>, i: nat, j: nat, field: int, wireType: nat, p: KeyValuePair)
    returns (r: Result<(KeyValuePair, nat)>)
    requires i < j <= |data|
    ensures r == ReadField(data, i, j, field, wireType, p)
  {
    match field {
      case 1 =>
        if wireType != 2 {
          return Err(WrongWireType);
        }
        var s := UnmarshalText(data, j);
        r := if s.Err? then Err(s.error) else Ok((p.(key := s.value.0), s.value.1));
      case 2 =>
        if wireType != 2 {
          return Err(WrongWireType);
        }
        var s := UnmarshalText(data, j);
        r := if s.Err? then Err(s.error) else Ok((p.(value := s.value.0), s.value.1));
      case 3 =>
        if wireType != 2 {
          return Err(WrongWireType);
        }
        var s := UnmarshalText(data, j);
        r := if s.Err? then Err(s.error) else Ok((p.(codec := s.value.0), s.value.1));
      case _ =>
        var next := SkipUnknown(data, i);
        r := if next.Err? then Err(next.error) else Ok((p, next.value));
    }
  }

  // ---------------------------------------------------------------- the round trip of one pair

  function Stages(p: KeyValuePair): (r: seq<KeyValuePair>)
    ensures |r| == 4 && r[0] == EMPTY && r[3] == p
  {
    [EMPTY, EMPTY.(key := p.key), EMPTY.(key := p.key, value := p.value), p]
  }

  lemma TakesTexts(data: seq<Byte>, p: KeyValuePair)
    ensures TakesText(ReadField, data, 1, p.key, Stages(p)[0], Stages(p)[1])
    ensures TakesText(ReadField, data, 2, p.value, Stages(p)[1], Stages(p)[2])
    ensures TakesText(ReadField, data, 3, p.codec, Stages(p)[2], Stages(p)[3])
  {
  }

  lemma StepsOverFields(read: FieldReader<KeyValuePair>, data: seq<Byte>, p: KeyValuePair, ms: seq<KeyValuePair>)
    requires |data| < TWO_63 && ms == Stages(p)
    requires TakesText(read, data, 1, p.key, ms[0], ms[1]) && TakesText(read, data, 2, p.value, ms[1], ms[2])
    requires TakesText(read, data, 3, p.codec, ms[2], ms[3])
    ensures StepsOverAll(read, data, Parts(p), ms)
  {
    StepsOverText(read, data, 0x0a, p.key, ms[0], ms[1]);
    StepsOverText(read, data, 0x12, p.value, ms[1], ms[2]);
    StepsOverText(read, data, 0x1a, p.codec, ms[2], ms[3]);
  }

  /** Unmarshal undoes Marshal for every pair. */
  lemma PairRoundTrip(p: KeyValuePair)
    requires |PairBytes(p)| < TWO_63
    ensures DecodePair(PairBytes(p)) == Ok(p)
  {
    FieldsAdvance();
    TakesTexts(PairBytes(p), p);
    StepsOverFields(ReadField, PairBytes(p), p, Stages(p));
    DecodesParts(ReadField, Parts(p), Stages(p));
  }

  // ---------------------------------------------------------------- the stream of pairs

  const MAX_LENGTH: int := 0x1_0000_0000

  function BigEndian(n: nat): seq<Byte>
    requires n < MAX_LENGTH
  {
    [n / 256 / 256 / 256, n / 256 / 256 % 256, n / 256 % 256, n % 256]
  }

  function Uint32(b: seq<Byte>): nat
    requires |b| == 4
  {
    var b0: nat, b1: nat, b2: nat, b3: nat := b[0], b[1], b[2], b[3];
    ((b0 * 256 + b1) * 256 + b2) * 256 + b3
  }

  lemma BigEndianReadsBack(n: nat)
    requires n < MAX_LENGTH
    ensures Uint32(BigEndian(n)) == n
  {
  }

  type Encoder = KeyValuePair -> seq<Byte>
  type Decoder = seq<Byte> -> Result<KeyValuePair>

  predicate Fits(encode: Encoder, pairs: seq<KeyValuePair>) {
    forall i :: 0 <= i < |pairs| ==> |encode(pairs[i])| < MAX_LENGTH
  }

  /** Each pair with its length in front, as four bytes. */
  function Stream(encode: Encoder, pairs: seq<KeyValuePair>): seq<Byte>
    requires Fits(encode, pairs)
  {
    if pairs == [] then []
    else BigEndian(|encode(pairs[0])|) + encode(pairs[0]) + Stream(encode, pairs[1..])
  }

  /** The pairs taken from a stream, and whether it was read to its end. */
  function Split(decode: Decoder, data: seq<Byte>): (seq<KeyValuePair>, bool) {
    if data == [] then ([], true)
    else if |data| < 4 then ([], false)
    else
      var length, rest := Uint32(data[..4]), data[4..];
      if |rest| < length then ([], false)
      else
        match decode(rest[..length])
        case Err(_) => ([], false)
        case Ok(p) => var (more, ok) := Split(decode, rest[length..]); ([p] + more, ok)
  }

  ghost predicate Undoes(encode: Encoder, decode: Decoder) {
    forall p :: |encode(p)| < MAX_LENGTH ==> decode(encode(p)) == Ok(p)
  }

  lemma OneFrame(encode: Encoder, decode: Decoder, p: KeyValuePair, tail: seq<Byte>)
    requires Undoes(encode, decode) && |encode(p)| < MAX_LENGTH
    ensures var (more, ok) := Split(decode, tail);
      Split(decode, BigEndian(|encode(p)|) + encode(p) + tail) == ([p] + more, ok)
  {
    var length := |encode(p)|;
    var data := BigEndian(length) + encode(p) + tail;
    BigEndianReadsBack(length);
    assert data[..4] == BigEndian(length) && data[4..] == encode(p) + tail;
    assert data[4..][..length] == encode(p) && data[4..][length..] == tail;
  }

  /** k pairs are complete within the first n bytes of their stream, the next one is not. */
  ghost predicate CutsAfter(encode: Encoder, decode: Decoder, pairs: seq<KeyValuePair>, n: nat, k: nat)
    requires Fits(encode, pairs) && n <= |Stream(encode, pairs)|
  {
    && k <= |pairs| && |Stream(encode, pairs[..k])| <= n
    && (k < |pairs| ==> n < |Stream(encode, pairs[..k + 1])|)
    && Split(decode, Stream(encode, pairs)[..n]) == (pairs[..k], n == |Stream(encode, pairs[..k])|)
  }

  /** A stream that is cut off anywhere yields exactly the pairs that are complete, and it shows whether one is not. */
  lemma {:induction false} CutStream(encode: Encoder, decode: Decoder, pairs: seq<KeyValuePair>, n: nat)
    returns (k: nat)
    requires Undoes(encode, decode) && Fits(encode, pairs) && n <= |Stream(encode, pairs)|
    ensures CutsAfter(encode, decode, pairs, n, k)
    decreases |pairs|
  {
    k := 0;
    if pairs == [] {
      assert Stream(encode, pairs)[..n] == [];
    } else {
      FirstFrame(encode, pairs);
      var frame := 4 + |encode(pairs[0])|;
      if n < frame {
        CutFirst(encode, decode, pairs, n);
      } else {
        var more := CutStream(encode, decode, pairs[1..], n - frame);
        CutLater(encode, decode, pairs, n, more);
        k := more + 1;
      }
    }
  }

  lemma CutFirst(encode: Encoder, decode: Decoder, pairs: seq<KeyValuePair>, n: nat)
    requires Fits(encode, pairs) && pairs != [] && n < 4 + |encode(pairs[0])| && n <= |Stream(encode, pairs)|
    ensures CutsAfter(encode, decode, pairs, n, 0)
  {
    assert pairs[..0] == [] && pairs[..1] == [pairs[0]];
    FirstFrame(encode, [pairs[0]]);
    CutFrame(encode, decode, pairs[0], Stream(encode, pairs[1..]), n);
  }

  lemma CutLater(encode: Encoder, decode: Decoder, pairs: seq<KeyValuePair>, n: nat, more: nat)
    requires Undoes(encode, decode) && Fits(encode, pairs) && pairs != []
    requires 4 + |encode(pairs[0])| <= n <= |Stream(encode, pairs)|
    requires n - 4 - |encode(pairs[0])| <= |Stream(encode, pairs[1..])|
    requires CutsAfter(encode, decode, pairs[1..], n - 4 - |encode(pairs[0])|, more)
    ensures CutsAfter(encode, decode, pairs, n, more + 1)
  {
    SplitsFirst(encode, decode, pairs, n);
    TakeMore(encode, pairs, more);
    if more < |pairs[1..]| {
      TakeMore(encode, pairs, more + 1);
    }
  }

  lemma SplitsFirst(encode: Encoder, decode: Decoder, pairs: seq<KeyValuePair>, n: nat)
    requires Undoes(encode, decode) && Fits(encode, pairs) && pairs != []
    requires 4 + |encode(pairs[0])| <= n <= |Stream(encode, pairs)|
    ensures n - 4 - |encode(pairs[0])| <= |Stream(encode, pairs[1..])|
    ensures var (more, ok) := Split(decode, Stream(encode, pairs[1..])[..n - 4 - |encode(pairs[0])|]);
      Split(decode, Stream(encode, pairs)[..n]) == ([pairs[0]] + more, ok)
  {
    var frame := BigEndian(|encode(pairs[0])|) + encode(pairs[0]);
    var rest := Stream(encode, pairs[1..]);
    assert Stream(encode, pairs)[..n] == frame + rest[..n - |frame|];
    OneFrame(encode, decode, pairs[0], rest[..n - |frame|]);
  }

  lemma FirstFrame(encode: Encoder, pairs: seq<KeyValuePair>)
    requires Fits(encode, pairs) && pairs != []
    ensures |encode(pairs[0])| < MAX_LENGTH && Fits(encode, pairs[1..])
    ensures Stream(encode, pairs) == BigEndian(|encode(pairs[0])|) + encode(pairs[0]) + Stream(encode, pairs[1..])
    ensures |pairs| == 1 ==> Stream(encode, pairs) == BigEndian(|encode(pairs[0])|) + encode(pairs[0])
  {
  }

  lemma TakeMore(encode: Encoder, pairs: seq<KeyValuePair>, k: nat)
    requires Fits(encode, pairs) && k < |pairs|
    ensures Fits(encode, pairs[..k + 1]) && Fits(encode, pairs[1..][..k])
    ensures pairs[..k + 1] == [pairs[0]] + pairs[1..][..k]
    ensures |Stream(encode, pairs[..k + 1])| == 4 + |encode(pairs[0])| + |Stream(encode, pairs[1..][..k])|
  {
    assert pairs[..k + 1][1..] == pairs[1..][..k];
  }

  /** Less than one frame. */
  lemma CutFrame(encode: Encoder, decode: Decoder, p: KeyValuePair, rest: seq<Byte>, n: nat)
    requires |encode(p)| < MAX_LENGTH && n < 4 + |encode(p)|
    ensures Split(decode, (BigEndian(|encode(p)|) + encode(p) + rest)[..n]) == ([], n == 0)
  {
    var data := (BigEndian(|encode(p)|) + encode(p) + rest)[..n];
    if n >= 4 {
      BigEndianReadsBack(|encode(p)|);
      assert data[..4] == BigEndian(|encode(p)|);
    }
  }

  lemma PairUndoes()
    ensures Undoes(PairBytes, DecodePair)
  {
    forall p | |PairBytes(p)| < MAX_LENGTH ensures DecodePair(PairBytes(p)) == Ok(p) {
      PairRoundTrip(p);
    }
  }

  /** MergeRemoteState takes exactly the pairs that LocalState has written. */
  lemma StateRoundTrip(pairs: seq<KeyValuePair>)
    requires Fits(PairBytes, pairs)
    ensures Split(DecodePair, Stream(PairBytes, pairs)) == (pairs, true)
  {
    PairUndoes();
    var n := |Stream(PairBytes, pairs)|;
    var k := CutStream(PairBytes, DecodePair, pairs, n);
    assert Stream(PairBytes, pairs)[..n] == Stream(PairBytes, pairs);
    assert k == |pairs| && pairs[..k] == pairs by {
      if k < |pairs| {
        StreamGrows(PairBytes, pairs, k + 1);
      }
    }
  }

  lemma {:induction false} StreamGrows(encode: Encoder, pairs: seq<KeyValuePair>, k: nat)
    requires Fits(encode, pairs) && k <= |pairs|
    ensures |Stream(encode, pairs[..k])| <= |Stream(encode, pairs)|
    decreases |pairs|
  {
    if k > 0 {
      StreamGrows(encode, pairs[1..], k - 1);
      TakeMore(encode, pairs, k - 1);
    }
  }

  // ---------------------------------------------------------------- the methods

  /** What the store holds for a key: the value in encoded form, unless there is none or it cannot be encoded. */
  datatype Stored = Stored(encoded: seq<Byte>, encodable: bool, codec: Text)

  /** The key is sent. */
  predicate IsSent(store: map<Text, Stored>, key: Text)
    requires key in store
  {
    store[key].encodable && |PairBytes(KeyValuePair(key, store[key].encoded, store[key].codec))| < MAX_LENGTH
  }

  /** The pairs are those of the keys that are sent, each once. */
  ghost predicate ListsSent(store: map<Text, Stored>, keys: set<Text>, pairs: seq<KeyValuePair>) {
    && (forall i, j :: 0 <= i < j < |pairs| ==> pairs[i].key != pairs[j].key)
    && (forall p :: p in pairs <==>
          p.key in keys && p.key in store && IsSent(store, p.key)
          && p == KeyValuePair(p.key, store[p.key].encoded, store[p.key].codec))
  }

  /** The stream of some listing of all pairs that are sent. */
  ghost predicate IsLocalState(store: map<Text, Stored>, pairs: seq<KeyValuePair>, data: seq<Byte>) {
    ListsSent(store, store.Keys, pairs) && Fits(PairBytes, pairs) && data == Stream(PairBytes, pairs)
  }

  method LocalState(store: map<Text, Stored>) returns (data: seq<Byte>)
    ensures exists pairs :: IsLocalState(store, pairs, data)
  {
    data := [];
    ghost var pairs := [];
    var todo := store.Keys;
    while todo != {}
      invariant todo <= store.Keys && Fits(PairBytes, pairs) && data == Stream(PairBytes, pairs)
      invariant ListsSent(store, store.Keys - todo, pairs)
      decreases todo
    {
      var key :| key in todo;
      ghost var done := store.Keys - todo;
      todo := todo - {key};
      assert store.Keys - todo == done + {key};
      var val := store[key];
      if !val.encodable {
        NotSent(store, done, pairs, key);
        continue;
      }
      var p := KeyValuePair(key, val.encoded, val.codec);
      var ser := MarshalPair(p);
      if |ser| > MAX_LENGTH - 1 {
        NotSent(store, done, pairs, key);
        continue;
      }
      StreamAppend(PairBytes, pairs, p);
      SentToo(store, done, pairs, key);
      data := data + BigEndian(|ser|) + ser;
      pairs := pairs + [p];
    }
    assert store.Keys - todo == store.Keys;
    assert IsLocalState(store, pairs, data);
  }

  lemma NotSent(store: map<Text, Stored>, done: set<Text>, pairs: seq<KeyValuePair>, key: Text)
    requires ListsSent(store, done, pairs) && key in store && !IsSent(store, key)
    ensures ListsSent(store, done + {key}, pairs)
  {
  }

  lemma SentToo(store: map<Text, Stored>, done: set<Text>, pairs: seq<KeyValuePair>, key: Text)
    requires ListsSent(store, done, pairs) && key in store && key !in done && IsSent(store, key)
    ensures ListsSent(store, done + {key}, pairs + [KeyValuePair(key, store[key].encoded, store[key].codec)])
  {
    assert forall i :: 0 <= i < |pairs| ==> pairs[i] in pairs;
  }

  lemma {:induction false} StreamAppend(encode: Encoder, pairs: seq<KeyValuePair>, p: KeyValuePair)
    requires Fits(encode, pairs) && |encode(p)| < MAX_LENGTH
    ensures Fits(encode, pairs + [p])
    ensures Stream(encode, pairs + [p]) == Stream(encode, pairs) + BigEndian(|encode(p)|) + encode(p)
    decreases |pairs|
  {
    if pairs == [] {
      assert [] + [p] == [p];
      FirstFrame(encode, [p]);
    } else {
      StreamAppend(encode, pairs[1..], p);
      assert (pairs + [p])[1..] == pairs[1..] + [p];
    }
  }

  /** The loop of MergeRemoteState, up to the point where each pair is merged. */
  method SplitRemoteState(data: seq<Byte>) returns (pairs: seq<KeyValuePair>, ok: bool)
    ensures (pairs, ok) == Split(DecodePair, data)
  {
    pairs, ok := [], true;
    var rest := data;
    PrependNothing(Split(DecodePair, data));
    while |rest| > 0
      invariant Prepend(pairs, Split(DecodePair, rest)) == Split(DecodePair, data)
      decreases |rest|
    {
      SplitStep(DecodePair, rest, pairs);
      if |rest| < 4 {
        return pairs, false;
      }
      var kvPairLength := Uint32(rest[..4]);
      rest := rest[4..];
      if |rest| < kvPairLength {
        return pairs, false;
      }
      var p := UnmarshalPair(rest[..kvPairLength]);
      if p.Err? {
        return pairs, false;
      }
      rest := rest[kvPairLength..];
      pairs := pairs + [p.value];
    }
    assert pairs + [] == pairs;
  }

  function Prepend(pairs: seq<KeyValuePair>, more: (seq<KeyValuePair>, bool)): (seq<KeyValuePair>, bool) {
    (pairs + more.0, more.1)
  }

  lemma PrependNothing(more: (seq<KeyValuePair>, bool))
    ensures Prepend([], more) == more
  {
    assert [] + more.0 == more.0;
  }

  lemma SplitStep(decode: Decoder, data: seq<Byte>, pairs: seq<KeyValuePair>)
    requires data != []
    ensures Prepend(pairs, Split(decode, data)) ==
      if |data| < 4 || |data[4..]| < Uint32(data[..4])
         || decode(data[4..][..Uint32(data[..4])]).Err? then (pairs, false)
      else
        var length, rest := Uint32(data[..4]), data[4..];
        Prepend(pairs + [decode(rest[..length]).value], Split(decode, rest[length..]))
  {
    assert pairs + [] == pairs;
    if |data| >= 4 && |data[4..]| >= Uint32(data[..4]) && decode(data[4..][..Uint32(data[..4])]).Ok? {
      var length, rest := Uint32(data[..4]), data[4..];
      var p, more := decode(rest[..length]).value, Split(decode, rest[length..]).0;
      assert pairs + ([p] + more) == (pairs + [p]) + more;
    }
  }
}
