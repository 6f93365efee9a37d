/** The wire format of one ring entry (InstanceDesc in ring/ring.pb.go). */
module InstanceWire {
  import opened Varints
  import opened Skipping
  import opened Fields
  import opened Messages
  import RingTypes

  type Token = RingTypes.Token

  /** Text is a string of bytes here; the state is any 32-bit number. */
  datatype InstanceDesc = InstanceDesc(
    addr: seq<Byte>, timestamp: Int64, state: Int32, tokens: seq<Token>, zone: seq<Byte>, registeredTimestamp: Int64)

  const EMPTY: InstanceDesc := InstanceDesc([], 0, 0, [], [], 0)

  // ---------------------------------------------------------------- the format

  function PackedTokens(tokens: seq<Token>): seq<Byte> {
    if tokens == [] then [] else Varint(tokens[0]) + PackedTokens(tokens[1..])
  }

  function NumberField(tag: Byte, v: Int64): seq<Byte> {
    if v == 0 then [] else [tag] + Varint(Unsigned64(v))
  }

  function TokensField(tokens: seq<Token>): seq<Byte> {
    if tokens == [] then [] else Delimited(0x32, PackedTokens(tokens))
  }

  /** The fields in ascending order of their numbers. */
  function Parts(m: InstanceDesc): (r: seq<seq<Byte>>)
    ensures |r| == 6
  {
    [TextField(0x0a, m.addr), NumberField(0x10, m.timestamp), NumberField(0x18, m.state), TokensField(m.tokens),
     TextField(0x3a, m.zone), NumberField(0x40, m.registeredTimestamp)]
  }

  function InstanceBytes(m: InstanceDesc): seq<Byte> {
    Concat(Parts(m))
  }

  lemma SixParts(f: seq<seq<Byte>>)
    requires |f| == 6
    ensures Concat(f) == f[0] + (f[1] + (f[2] + (f[3] + (f[4] + f[5]))))
  {
    LastPart(f[5..]);
    assert f[1..][1..] == f[2..] && f[2..][1..] == f[3..] && f[3..][1..] == f[4..] && f[4..][1..] == f[5..];
    assert Concat(f[4..]) == f[4] + Concat(f[5..]);
    assert Concat(f[3..]) == f[3] + Concat(f[4..]);
    assert Concat(f[2..]) == f[2] + Concat(f[3..]);
    assert Concat(f[1..]) == f[1] + Concat(f[2..]);
  }

  lemma LastPart(f: seq<seq<Byte>>)
    requires |f| == 1
    ensures Concat(f) == f[0]
  {
    assert f[0] + [] == f[0];
  }

  // ---------------------------------------------------------------- its size

  /** Size computes, without encoding, how many bytes the encoding has. */
  method InstanceSize(m: InstanceDesc) returns (n: nat)
    ensures n == |InstanceBytes(m)|
  {
    SixParts(Parts(m));
    n := TextSize(0x0a, m.addr);
    if m.timestamp != 0 {
      SovIsLength(Unsigned64(m.timestamp));
      n := n + 1 + Sov(Unsigned64(m.timestamp));
    }
    if m.state != 0 {
      SovIsLength(Unsigned64(m.state));
      n := n + 1 + Sov(Unsigned64(m.state));
    }
    if |m.tokens| > 0 {
      var l := 0;
      for i := 0 to |m.tokens|
        invariant l + |PackedTokens(m.tokens[i..])| == |PackedTokens(m.tokens)|
      {
        SovIsLength(m.tokens[i]);
        assert m.tokens[i..][1..] == m.tokens[i + 1..];
        l := l + Sov(m.tokens[i]);
      }
      SovIsLength(l);
      n := n + 1 + Sov(l) + l;
    }
    var zoneSize := TextSize(0x3a, m.zone);
    n := n + zoneSize;
    if m.registeredTimestamp != 0 {
      SovIsLength(Unsigned64(m.registeredTimestamp));
      n := n + 1 + Sov(Unsigned64(m.registeredTimestamp));
    }
  }

  // ---------------------------------------------------------------- writing it backwards

  method WriteNumberField(buf: array<Byte>, end: int, tag: Byte, v: Int64) returns (i: int)
    requires |NumberField(tag, v)| <= end <= buf.Length
    modifies buf
    ensures Wrote(old(buf[..]), buf[..], i, end, NumberField(tag, v))
  {
    i := end;
    if v != 0 {
      i := WriteHeader(buf, end, tag, Unsigned64(v));
    } else {
      WroteNothing(buf[..], end);
    }
  }

  /** The tokens are packed into a buffer of their own first, forwards. */
  method PackTokens(tokens: seq<Token>) returns (packed: array<Byte>, j: nat)
    ensures fresh(packed) && j <= packed.Length && packed[..j] == PackedTokens(tokens)
  {
    packed := new Byte[|tokens| * 10];
    j := 0;
    for i := 0 to |tokens|
      invariant j <= 10 * i && packed[..j] + PackedTokens(tokens[i..]) == PackedTokens(tokens)
    {
      PackedOneMore(packed[..j], tokens, i);
      j := PackToken(packed, j, tokens[i]);
    }
  }

  lemma PackedOneMore(before: seq<Byte>, tokens: seq<Token>, i: nat)
    requires i < |tokens|
    ensures before + PackedTokens(tokens[i..]) == (before + Varint(tokens[i])) + PackedTokens(tokens[i + 1..])
  {
    assert tokens[i..][1..] == tokens[i + 1..];
    assert before + (Varint(tokens[i]) + PackedTokens(tokens[i + 1..]))
      == (before + Varint(tokens[i])) + PackedTokens(tokens[i + 1..]);
  }

  method PackToken(packed: array<Byte>, start: nat, token: Token) returns (j: nat)
    requires start + 10 <= packed.Length
    modifies packed
    ensures j <= start + 10 && packed[..j] == old(packed[..start]) + Varint(token)
  {
    VarintOf64(token);
    j := start;
    var num: nat := token;
    ghost var written: seq<Byte> := [];
    while num >= 128
      invariant j == start + |written| && |written| + |Varint(num)| <= 10
      invariant written + Varint(num) == Varint(token)
      invariant packed[..j] == old(packed[..start]) + written
    {
      OneMoreByte(written, num);
      packed[j] := num % 128 + 128;
      assert packed[..j + 1] == packed[..j] + [packed[j]];
      written := written + [packed[j]];
      num := num / 128;
      j := j + 1;
    }
    packed[j] := num;
    assert packed[..j + 1] == packed[..j] + [packed[j]];
    j := j + 1;
  }

  method WriteTokensField(buf: array<Byte>, end: int, tokens: seq<Token>) returns (i: int)
    requires |TokensField(tokens)| <= end <= buf.Length
    modifies buf
    ensures Wrote(old(buf[..]), buf[..], i, end, TokensField(tokens))
  {
    i := end;
    if |tokens| > 0 {
      var packed, j := PackTokens(tokens);
      i := WriteDelimited(buf, end, 0x32, packed[..j]);
    } else {
      WroteNothing(buf[..], end);
    }
  }

  /** MarshalToSizedBuffer: the last field first, each in front of the one before. */
  method MarshalInstanceTo(buf: array<Byte>, end: int, m: InstanceDesc) returns (i: int)
    requires |InstanceBytes(m)| <= end <= buf.Length
    modifies buf
    ensures Wrote(old(buf[..]), buf[..], i, end, InstanceBytes(m))
  {
    SixParts(Parts(m));
    ghost var b0 := buf[..];
    var i1 := WriteNumberField(buf, end, 0x40, m.registeredTimestamp);
    ghost var b1 := buf[..];
    var i2 := WriteTextField(buf, i1, 0x3a, m.zone);
    ghost var part := TextField(0x3a, m.zone) + NumberField(0x40, m.registeredTimestamp);
    WroteMore(b0, b1, buf[..], i2, i1, end, TextField(0x3a, m.zone), NumberField(0x40, m.registeredTimestamp));
    ghost var b2 := buf[..];
    var i3 := WriteTokensField(buf, i2, m.tokens);
    WroteMore(b0, b2, buf[..], i3, i2, end, TokensField(m.tokens), part);
    i := MarshalFront(buf, b0, i3, end, m, TokensField(m.tokens) + part);
  }

  /** The first three fields, in front of what has been written. */
  method MarshalFront(buf: array<Byte>, ghost b0: seq<Byte>, i3: int, end: int, m: InstanceDesc, ghost part: seq<Byte>)
    returns (i: int)
    requires Wrote(b0, buf[..], i3, end, part)
    requires |TextField(0x0a, m.addr) + (NumberField(0x10, m.timestamp) + NumberField(0x18, m.state))| <= i3
    modifies buf
    ensures Wrote(b0, buf[..], i, end,
      TextField(0x0a, m.addr) + (NumberField(0x10, m.timestamp) + (NumberField(0x18, m.state) + part)))
  {
    ghost var b3 := buf[..];
    var i4 := WriteNumberField(buf, i3, 0x18, m.state);
    ghost var part4 := NumberField(0x18, m.state) + part;
    WroteMore(b0, b3, buf[..], i4, i3, end, NumberField(0x18, m.state), part);
    ghost var b4 := buf[..];
    var i5 := WriteNumberField(buf, i4, 0x10, m.timestamp);
    ghost var part5 := NumberField(0x10, m.timestamp) + part4;
    WroteMore(b0, b4, buf[..], i5, i4, end, NumberField(0x10, m.timestamp), part4);
    ghost var b5 := buf[..];
    i := WriteTextField(buf, i5, 0x0a, m.addr);
    WroteMore(b0, b5, buf[..], i, i5, end, TextField(0x0a, m.addr), part5);
  }

  /** Marshal: a buffer of exactly the computed size, filled down to offset 0. */
  method MarshalInstance(m: InstanceDesc) returns (data: seq<Byte>)
    ensures data == InstanceBytes(m)
  {
    var size := InstanceSize(m);
    var buf := new Byte[size];
    var i := MarshalInstanceTo(buf, size, m);
    assert i == 0;
    data := buf[..size - i];
  }

  // ---------------------------------------------------------------- reading

  /** Packed tokens up to a position. The last one may reach beyond it, and reading then goes on behind it. */
  function ReadPacked(data: seq<Byte>, i: nat, post: nat, tokens: seq<Token>): (r: Result<(seq<Token>, nat)>)
    requires post <= |data|
    ensures r.Ok? && i <= |data| ==> i <= r.value.1 <= |data|
    decreases post - i
  {
    if i >= post then Ok((tokens, i))
    else
      match Read(data, i, Bits32)
      case Err(e) => Err(e)
      case Ok((v, next)) => ReadPacked(data, next, post, tokens + [v])
  }

  /** One field, whose tag starts at i and ends at j. */
  function ReadField(data: seq<Byte>, i: nat, j: nat, field: int, wireType: nat, m: InstanceDesc)
    : (r: Result<(InstanceDesc, nat)>)
    ensures i < j <= |data| && r.Ok? ==> i < r.value.1 <= |data|
  {
    match field
    case 1 =>
      if wireType != 2 then Err(WrongWireType)
      else (match ReadText(data, j) case Err(e) => Err(e) case Ok((s, next)) => Ok((m.(addr := s), next)))
    case 2 =>
      if wireType != 0 then Err(WrongWireType)
      else (match Read(data, j, Bits64)
            case Err(e) => Err(e) case Ok((v, next)) => Ok((m.(timestamp := Signed64(v)), next)))
    case 3 =>
      if wireType != 0 then Err(WrongWireType)
      else (match Read(data, j, Bits32)
            case Err(e) => Err(e) case Ok((v, next)) => Ok((m.(state := Signed32(v)), next)))
    case 6 => ReadTokens(data, j, wireType, m)
    case 7 =>
      if wireType != 2 then Err(WrongWireType)
      else (match ReadText(data, j) case Err(e) => Err(e) case Ok((s, next)) => Ok((m.(zone := s), next)))
    case 8 =>
      if wireType != 0 then Err(WrongWireType)
      else (
        match Read(data, j, Bits64)
        case Err(e) => Err(e)
        case Ok((v, next)) => Ok((m.(registeredTimestamp := Signed64(v)), next)))
    case _ =>
      if i >= |data| then Err(UnexpectedEOF)
      else (match SkipAt(data, i) case Err(e) => Err(e) case Ok(next) => Ok((m, next)))
  }

  /** Tokens come packed, or one by one from older writers. */
  function ReadTokens(data: seq<Byte>, j: nat, wireType: nat, m: InstanceDesc): (r: Result<(InstanceDesc, nat)>)
    ensures r.Ok? ==> j < r.value.1 <= |data|
  {
    if wireType == 0 then
      (match Read(data, j, Bits32) case Err(e) => Err(e) case Ok((v, next)) => Ok((m.(tokens := m.tokens + [v]), next)))
    else if wireType == 2 then
      (match ReadLength(data, j)
       case Err(e) => Err(e)
       case Ok((from, to)) => (
         match ReadPacked(data, from, to, m.tokens)
         case Err(e) => Err(e)
         case Ok((tokens, next)) => Ok((m.(tokens := tokens), next))))
    else Err(WrongWireType)
  }

  lemma FieldsAdvance()
    ensures Advances(ReadField)
  {
  }

  function DecodeInstance(data: seq<Byte>): Result<InstanceDesc> {
    FieldsAdvance();
    Decode(ReadField, data, 0, EMPTY)
  }

  /** Unmarshal. */
  method UnmarshalInstance(data: seq<Byte>) returns (r: Result<InstanceDesc>)
    ensures r == DecodeInstance(data)
  {
    FieldsAdvance();
    var m := EMPTY;
    var iNdEx: nat := 0;
    while iNdEx < |data|
      invariant iNdEx <= |data| && Decode(ReadField, data, iNdEx, m) == DecodeInstance(data)
      decreases |data| - iNdEx
    {
      var tag := ReadTag(data, iNdEx);
      if tag.Err? {
        return Err(tag.error);
      }
      var (wire, j) := tag.value;
      var field := UnmarshalField(data, iNdEx, j, FieldOf(wire), wire % 8, m);
      if field.Err? {
        return Err(field.error);
      }
      m, iNdEx := field.value.0, field.value.1;
    }
    r := Ok(m);
  }

  method UnmarshalField(data: seq<Byte>, i: nat, j: nat, field: int, wireType: nat, m: InstanceDesc)
    returns (r: Result<(InstanceDesc, nat)>)
    requires i < j <= |data|
    ensures r == ReadField(data, i, j, field, wireType, m)
  {
    match field {
      case 1 =>
        if wireType != 2 {
          return Err(WrongWireType);
        }
        var s := UnmarshalText(data, j);
        r := if s.Err? then Err(s.error) else Ok((m.(addr := s.value.0), s.value.1));
      case 2 =>
        if wireType != 0 {
          return Err(WrongWireType);
        }
        var v := ReadVarint(data, j, Bits64);
        r := if v.Err? then Err(v.error) else Ok((m.(timestamp := Signed64(v.value.0)), v.value.1));
      case 3 =>
        if wireType != 0 {
          return Err(WrongWireType);
        }
        var v := ReadVarint(data, j, Bits32);
        r := if v.Err? then Err(v.error) else Ok((m.(state := Signed32(v.value.0)), v.value.1));
      case 6 =>
        r := UnmarshalTokens(data, j, wireType, m);
      case 7 =>
        if wireType != 2 {
          return Err(WrongWireType);
        }
        var s := UnmarshalText(data, j);
        r := if s.Err? then Err(s.error) else Ok((m.(zone := s.value.0), s.value.1));
      case 8 =>
        if wireType != 0 {
          return Err(WrongWireType);
        }
        var v := ReadVarint(data, j, Bits64);
        r := if v.Err? then Err(v.error) else Ok((m.(registeredTimestamp := Signed64(v.value.0)), v.value.1));
      case _ =>
        var next := SkipUnknown(data, i);
        r := if next.Err? then Err(next.error) else Ok((m, next.value));
    }
  }

  method UnmarshalTokens(data: seq<Byte>, j: nat, wireType: nat, m: InstanceDesc)
    returns (r: Result<(InstanceDesc, nat)>)
    ensures r == ReadTokens(data, j, wireType, m)
  {
    if wireType == 0 {
      var v := ReadVarint(data, j, Bits32);
      r := if v.Err? then Err(v.error) else Ok((m.(tokens := m.tokens + [v.value.0]), v.value.1));
    } else if wireType == 2 {
      var l := ReadLengthPrefix(data, j);
      if l.Err? {
        return Err(l.error);
      }
      var iNdEx, postIndex := l.value.0, l.value.1;
      var tokens: seq<Token> := m.tokens;
      while iNdEx < postIndex
        invariant iNdEx <= |data|
        invariant ReadPacked(data, iNdEx, postIndex, tokens) == ReadPacked(data, l.value.0, postIndex, m.tokens)
        decreases postIndex - iNdEx
      {
        var v := ReadVarint(data, iNdEx, Bits32);
        if v.Err? {
          return Err(v.error);
        }
        tokens, iNdEx := tokens + [v.value.0], v.value.1;
      }
      r := Ok((m.(tokens := tokens), iNdEx));
    } else {
      r := Err(WrongWireType);
    }
  }

  // ---------------------------------------------------------------- the round trip

  lemma ReadsNumberField(data: seq<Byte>, i: nat, tag: Byte, width: Width, v: Int64)
    requires v != 0 && At(data, i, NumberField(tag, v))
    ensures At(data, i, [tag])
    ensures Read(data, i + 1, width) == Ok((Kept(Unsigned64(v), width), i + |NumberField(tag, v)|))
  {
    SplitAt(data, i, [tag], Varint(Unsigned64(v)));
    ReadsBack(data, i + 1, Unsigned64(v));
  }

  lemma StateSurvives(v: Int32)
    ensures Signed32(Kept(Unsigned64(v), Bits32)) == v
  {
    if v < 0 {
      assert (v + 0x1_0000_0000_0000_0000) % 0x1_0000_0000 == v + 0x1_0000_0000;
    }
  }

  lemma PackedStep(data: seq<Byte>, i: nat, post: nat, before: seq<Token>, token: Token, next: nat)
    requires i < post <= |data| && Read(data, i, Bits32) == Ok((token, next))
    ensures ReadPacked(data, i, post, before) == ReadPacked(data, next, post, before + [token])
  {
  }

  lemma ReadsToken(data: seq<Byte>, i: nat, token: Token, rest: seq<Byte>)
    requires At(data, i, Varint(token) + rest)
    ensures Read(data, i, Bits32) == Ok((token, i + |Varint(token)|)) && At(data, i + |Varint(token)|, rest)
  {
    SplitAt(data, i, Varint(token), rest);
    ReadsBack(data, i, token);
  }

  lemma {:induction false} ReadsPacked(data: seq<Byte>, i: nat, post: nat, tokens: seq<Token>, before: seq<Token>)
    requires At(data, i, PackedTokens(tokens)) && post == i + |PackedTokens(tokens)|
    ensures ReadPacked(data, i, post, before) == Ok((before + tokens, post))
    decreases |tokens|
  {
    if tokens == [] {
      assert before + tokens == before;
    } else {
      var next := i + |Varint(tokens[0])|;
      ReadsToken(data, i, tokens[0], PackedTokens(tokens[1..]));
      PackedStep(data, i, post, before, tokens[0], next);
      ReadsPacked(data, next, post, tokens[1..], before + [tokens[0]]);
      assert before + [tokens[0]] + tokens[1..] == before + tokens;
    }
  }

  /** Wherever the content stands, it is read as these tokens. */
  ghost predicate PackedReadsAs(data: seq<Byte>, content: seq<Byte>, tokens: seq<Token>) {
    forall from: nat, to: nat {:trigger ReadPacked(data, from, to, [])} ::
      At(data, from, content) && to == from + |content| ==> ReadPacked(data, from, to, []) == Ok((tokens, to))
  }

  lemma PackedReadsBack(data: seq<Byte>, tokens: seq<Token>)
    ensures PackedReadsAs(data, PackedTokens(tokens), tokens)
  {
    forall from: nat, to: nat | At(data, from, PackedTokens(tokens)) && to == from + |PackedTokens(tokens)|
      ensures ReadPacked(data, from, to, []) == Ok((tokens, to))
    {
      ReadsPacked(data, from, to, tokens, []);
      assert [] + tokens == tokens;
    }
  }

  /** What has been decoded after the first fields. */
  function Stages(m: InstanceDesc): (r: seq<InstanceDesc>)
    ensures |r| == 7 && r[0] == EMPTY && r[6] == m
  {
    [EMPTY, EMPTY.(addr := m.addr), EMPTY.(addr := m.addr, timestamp := m.timestamp),
     EMPTY.(addr := m.addr, timestamp := m.timestamp, state := m.state),
     m.(zone := [], registeredTimestamp := 0), m.(registeredTimestamp := 0), m]
  }

  /** Where the number of a field is read as v, the field is. */
  ghost predicate TakesNumber(
    read: FieldReader<InstanceDesc>, data: seq<Byte>, field: int, width: Width, v: nat, m: InstanceDesc,
    m': InstanceDesc)
  {
    forall i: nat, j: nat {:trigger read(data, i, j, field, 0, m)} ::
      i < j && Read(data, j, width).Ok? && Read(data, j, width).value.0 == v
      ==> read(data, i, j, field, 0, m) == Ok((m', Read(data, j, width).value.1))
  }

  lemma StepsOverNumber(
    read: FieldReader<InstanceDesc>, data: seq<Byte>, tag: Byte, width: Width, v: Int64, m: InstanceDesc,
    m': InstanceDesc)
    requires 8 <= tag < 128 && tag % 8 == 0 && (v == 0 ==> m' == m)
    requires TakesNumber(read, data, tag / 8, width, Kept(Unsigned64(v), width), m, m')
    ensures StepsOver(read, data, NumberField(tag, v), m, m')
  {
    if v != 0 {
      NumberIsRead(read, data, tag, width, v, m, m');
      StepsOverPart(read, data, NumberField(tag, v), tag, m, m');
    }
  }

  lemma NumberIsRead(
    read: FieldReader<InstanceDesc>, data: seq<Byte>, tag: Byte, width: Width, v: Int64, m: InstanceDesc,
    m': InstanceDesc)
    requires tag % 8 == 0 && v != 0 && TakesNumber(read, data, tag / 8, width, Kept(Unsigned64(v), width), m, m')
    ensures ReadsPart(read, data, NumberField(tag, v), tag, m, m')
  {
    forall i: nat | At(data, i, NumberField(tag, v))
      ensures At(data, i, [tag])
      ensures read(data, i, i + 1, tag / 8, tag % 8, m) == Ok((m', i + |NumberField(tag, v)|))
    {
      ReadsNumberField(data, i, tag, width, v);
    }
  }

  /** Where packed content is read as these tokens, the field is. */
  ghost predicate TakesTokens(
    read: FieldReader<InstanceDesc>, data: seq<Byte>, tokens: seq<Token>, m: InstanceDesc, m': InstanceDesc)
  {
    forall i: nat, j: nat {:trigger read(data, i, j, 6, 2, m)} ::
      i < j && ReadLength(data, j).Ok?
      && ReadPacked(data, ReadLength(data, j).value.0, ReadLength(data, j).value.1, [])
           == Ok((tokens, ReadLength(data, j).value.1))
      ==> read(data, i, j, 6, 2, m) == Ok((m', ReadLength(data, j).value.1))
  }

  lemma StepsOverPacked(
    read: FieldReader<InstanceDesc>, data: seq<Byte>, tokens: seq<Token>, content: seq<Byte>, m: InstanceDesc,
    m': InstanceDesc)
    requires |data| < TWO_63 && PackedReadsAs(data, content, tokens) && TakesTokens(read, data, tokens, m, m')
    ensures StepsOver(read, data, Delimited(0x32, content), m, m')
  {
    forall i: nat | At(data, i, Delimited(0x32, content))
      ensures At(data, i, [0x32])
      ensures read(data, i, i + 1, 6, 2, m) == Ok((m', i + |Delimited(0x32, content)|))
    {
      var from, to := ReadsDelimited(data, i, 0x32, content);
      assert ReadPacked(data, from, to, []) == Ok((tokens, to));
    }
    StepsOverPart(read, data, Delimited(0x32, content), 0x32, m, m');
  }

  lemma StepsOverTokens(
    read: FieldReader<InstanceDesc>, data: seq<Byte>, tokens: seq<Token>, m: InstanceDesc, m': InstanceDesc)
    requires |data| < TWO_63 && (tokens == [] ==> m' == m) && TakesTokens(read, data, tokens, m, m')
    ensures StepsOver(read, data, TokensField(tokens), m, m')
  {
    if tokens != [] {
      PackedReadsBack(data, tokens);
      StepsOverPacked(read, data, tokens, PackedTokens(tokens), m, m');
    }
  }

  // ReadField takes every field of an entry.

  lemma TakesTexts(data: seq<Byte>, m: InstanceDesc)
    ensures TakesText(ReadField, data, 1, m.addr, Stages(m)[0], Stages(m)[1])
    ensures TakesText(ReadField, data, 7, m.zone, Stages(m)[4], Stages(m)[5])
  {
  }

  lemma TakesTimestamps(data: seq<Byte>, m: InstanceDesc)
    ensures TakesNumber(ReadField, data, 2, Bits64, Kept(Unsigned64(m.timestamp), Bits64), Stages(m)[1], Stages(m)[2])
    ensures TakesNumber(ReadField, data, 8, Bits64, Kept(Unsigned64(m.registeredTimestamp), Bits64), Stages(m)[5], m)
  {
    assert Signed64(Unsigned64(m.timestamp)) == m.timestamp;
    assert Signed64(Unsigned64(m.registeredTimestamp)) == m.registeredTimestamp;
  }

  lemma TakesState(data: seq<Byte>, m: InstanceDesc)
    ensures TakesNumber(ReadField, data, 3, Bits32, Kept(Unsigned64(m.state), Bits32), Stages(m)[2], Stages(m)[3])
  {
    StateSurvives(m.state);
  }

  lemma TakesPacked(data: seq<Byte>, m: InstanceDesc)
    ensures TakesTokens(ReadField, data, m.tokens, Stages(m)[3], Stages(m)[4])
  {
  }

  lemma StepsOverFields(read: FieldReader<InstanceDesc>, data: seq<Byte>, m: InstanceDesc, ms: seq<InstanceDesc>)
    requires |data| < TWO_63 && ms == Stages(m)
    requires TakesText(read, data, 1, m.addr, ms[0], ms[1])
    requires TakesNumber(read, data, 2, Bits64, Kept(Unsigned64(m.timestamp), Bits64), ms[1], ms[2])
    requires TakesNumber(read, data, 3, Bits32, Kept(Unsigned64(m.state), Bits32), ms[2], ms[3])
    requires TakesTokens(read, data, m.tokens, ms[3], ms[4])
    requires TakesText(read, data, 7, m.zone, ms[4], ms[5])
    requires TakesNumber(read, data, 8, Bits64, Kept(Unsigned64(m.registeredTimestamp), Bits64), ms[5], ms[6])
    ensures StepsOverAll(read, data, Parts(m), ms)
  {
    StepsOverText(read, data, 0x0a, m.addr, ms[0], ms[1]);
    StepsOverNumber(read, data, 0x10, Bits64, m.timestamp, ms[1], ms[2]);
    StepsOverNumber(read, data, 0x18, Bits32, m.state, ms[2], ms[3]);
    StepsOverTokens(read, data, m.tokens, ms[3], ms[4]);
    StepsOverText(read, data, 0x3a, m.zone, ms[4], ms[5]);
    StepsOverNumber(read, data, 0x40, Bits64, m.registeredTimestamp, ms[5], ms[6]);
  }

  lemma StepsOverParts(data: seq<Byte>, m: InstanceDesc)
    requires |data| < TWO_63
    ensures StepsOverAll(ReadField, data, Parts(m), Stages(m))
  {
    TakesTexts(data, m);
    TakesTimestamps(data, m);
    TakesState(data, m);
    TakesPacked(data, m);
    StepsOverFields(ReadField, data, m, Stages(m));
  }

  /** Unmarshal undoes Marshal for every entry. */
  lemma InstanceRoundTrip(m: InstanceDesc)
    requires |InstanceBytes(m)| < TWO_63
    ensures DecodeInstance(InstanceBytes(m)) == Ok(m)
  {
    FieldsAdvance();
    StepsOverParts(InstanceBytes(m), m);
    DecodesParts(ReadField, Parts(m), Stages(m));
  }

  /** A field number, positive as an int32, that the decoder does not know. */
  predicate IsNew(field: nat) {
    0 < field < 0x8000_0000 && field !in {1, 2, 3, 6, 7, 8}
  }

  lemma StepsOverUnknown(data: seq<Byte>, m: InstanceDesc, field: nat, u: Unknown, part: seq<Byte>)
    requires |data| < TWO_63 && IsNew(field) && TagsFit(field, u) && part == Under(field, u)
    ensures StepsOver(ReadField, data, part, m, m)
  {
    forall i: nat | At(data, i, part) ensures StepsTo(ReadField, data, i, m, i + |part|, m) {
      StepsOverUnknownAt(data, i, m, field, u, i + |part|);
    }
  }

  lemma StepsOverUnknownAt(data: seq<Byte>, i: nat, m: InstanceDesc, field: nat, u: Unknown, next: nat)
    requires |data| < TWO_63 && IsNew(field) && TagsFit(field, u)
    requires At(data, i, Under(field, u)) && next == i + |Under(field, u)|
    ensures StepsTo(ReadField, data, i, m, next, m)
  {
    var tag, j := UnknownIsRead(data, i, field, u, next);
    UnknownIsSkipped(data, i, j, m, tag, next);
  }

  lemma UnknownIsRead(data: seq<Byte>, i: nat, field: nat, u: Unknown, next: nat) returns (tag: nat, j: nat)
    requires |data| < TWO_63 && field < 0x8000_0000 && TagsFit(field, u)
    requires At(data, i, Under(field, u)) && next == i + |Under(field, u)|
    ensures i < |data| && SkipAt(data, i) == Ok(next)
    ensures Read(data, i, Bits64) == Ok((tag, j)) && FieldOf(tag) == field && tag % 8 != 4
  {
    SkipsUnknown(data, i, field, u, next);
    tag := 8 * field + WireTypeOf(u);
    j := i + |Varint(tag)|;
    TagSplits(field, WireTypeOf(u));
  }

  lemma TagSplits(field: nat, wireType: nat)
    requires field < 0x8000_0000 && wireType < 8
    ensures FieldOf(8 * field + wireType) == field && (8 * field + wireType) % 8 == wireType
  {
  }

  lemma UnknownIsSkipped(data: seq<Byte>, i: nat, j: nat, m: InstanceDesc, tag: nat, next: nat)
    requires 0 < FieldOf(tag) && IsNew(FieldOf(tag)) && tag % 8 != 4 && i < |data|
    requires Read(data, i, Bits64) == Ok((tag, j)) && SkipAt(data, i) == Ok(next)
    ensures StepsTo(ReadField, data, i, m, next, m)
  {
    assert ReadField(data, i, j, FieldOf(tag), tag % 8, m) == Ok((m, next));
  }

  /** A newer writer may add a field of any kind anywhere: it is skipped, and the rest is decoded as before. */
  lemma NewFieldIsSkipped(m: InstanceDesc, k: nat, field: nat, u: Unknown)
    requires k <= 6 && IsNew(field) && TagsFit(field, u)
    requires |Concat(Parts(m)[..k] + [Under(field, u)] + Parts(m)[k..])| < TWO_63
    ensures DecodeInstance(Concat(Parts(m)[..k] + [Under(field, u)] + Parts(m)[k..])) == Ok(m)
  {
    FieldsAdvance();
    var part := Under(field, u);
    var longer := Parts(m)[..k] + [part] + Parts(m)[k..];
    StepsOverParts(Concat(longer), m);
    StepsOverUnknown(Concat(longer), Stages(m)[k], field, u, part);
    InsertedPart(ReadField, Concat(longer), Parts(m), Stages(m), k, part);
    DecodesParts(ReadField, longer, Stages(m)[..k + 1] + Stages(m)[k..]);
  }
}
