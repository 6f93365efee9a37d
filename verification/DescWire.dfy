/**
 * The wire format of a whole ring (Desc in ring/ring.pb.go): a map from instance names to entries, each of them a
 * message of two fields, in whatever order the map is iterated.
 */
module DescWire {
  import opened Varints
  import opened Skipping
  import opened Fields
  import opened Messages
  import opened InstanceWire

  type Text = seq<Byte>
  type Desc = map<Text, InstanceDesc>

  // ---------------------------------------------------------------- the format

  /** How the message inside the message is encoded and decoded. */
  type Encoder = InstanceDesc -> seq<Byte>
  type Decoder = seq<Byte> -> Result<InstanceDesc>

  /** One entry of the map: the name and the instance, even if they have their default values. */
  function EntryWith(encode: Encoder, name: Text, e: InstanceDesc): seq<Byte> {
    Delimited(0x0a, name) + Delimited(0x12, encode(e))
  }

  /** The entries in some order of the names. */
  function EntryParts(encode: Encoder, m: Desc, order: seq<Text>): (r: seq<seq<Byte>>)
    requires forall name :: name in order ==> name in m
    ensures |r| == |order|
  {
    seq(|order|, k requires 0 <= k < |order| => Delimited(0x0a, EntryWith(encode, order[k], m[order[k]])))
  }

  function EntryBytes(name: Text, e: InstanceDesc): seq<Byte> {
    EntryWith(InstanceBytes, name, e)
  }

  function DescBytes(m: Desc, order: seq<Text>): seq<Byte>
    requires forall name :: name in order ==> name in m
  {
    Concat(EntryParts(InstanceBytes, m, order))
  }

  /** The order names every key once. */
  ghost predicate IsOrder(m: Desc, order: seq<Text>) {
    && (forall i, j :: 0 <= i < j < |order| ==> order[i] != order[j])
    && (forall name :: name in order <==> name in m)
  }

  // ---------------------------------------------------------------- its size

  function EntrySize(name: Text, e: InstanceDesc): nat {
    |Delimited(0x0a, EntryBytes(name, e))|
  }

  /** The sum over all entries, whatever their order. */
  ghost function Sum(size: (Text, InstanceDesc) -> nat, m: Desc): nat
    decreases |m|
  {
    if m == map[] then 0
    else
      var name :| name in m;
      assert (m - {name}).Keys == m.Keys - {name};
      size(name, m[name]) + Sum(size, m - {name})
  }

  ghost function DescSize(m: Desc): nat {
    Sum(EntrySize, m)
  }

  lemma {:induction false} SumWithout(size: (Text, InstanceDesc) -> nat, m: Desc, name: Text)
    requires name in m
    ensures Sum(size, m) == size(name, m[name]) + Sum(size, m - {name})
    decreases |m|
  {
    var first :| first in m && Sum(size, m) == size(first, m[first]) + Sum(size, m - {first});
    if first != name {
      assert (m - {first}).Keys == m.Keys - {first} && (m - {name}).Keys == m.Keys - {name};
      SumWithout(size, m - {first}, name);
      assert (m - {first}) - {name} == (m - {name}) - {first};
      SumWithout(size, m - {name}, first);
    }
  }

  method SizeOfEntry(name: Text, e: InstanceDesc) returns (n: nat)
    ensures n == EntrySize(name, e)
  {
    var l := InstanceSize(e);
    SovIsLength(|name|);
    SovIsLength(l);
    var mapEntrySize := 1 + |name| + Sov(|name|) + 1 + l + Sov(l);
    SovIsLength(mapEntrySize);
    n := mapEntrySize + 1 + Sov(mapEntrySize);
  }

  /** Size adds up the sizes of the entries without encoding them. */
  method SizeOfDesc(m: Desc) returns (n: nat)
    ensures n == DescSize(m)
  {
    n := 0;
    var rest := m;
    while rest != map[]
      invariant rest.Keys <= m.Keys && forall name :: name in rest ==> rest[name] == m[name]
      invariant n + DescSize(rest) == DescSize(m)
      decreases |rest|
    {
      var name :| name in rest;
      SumWithout(EntrySize, rest, name);
      var l := SizeOfEntry(name, rest[name]);
      n := n + l;
      assert (rest - {name}).Keys == rest.Keys - {name};
      rest := rest - {name};
    }
  }

  // ---------------------------------------------------------------- writing it backwards

  /** One entry: the instance, the name in front of it, and the length of both in front of them. */
  method WriteEntry(buf: array<Byte>, end: int, name: Text, e: InstanceDesc) returns (i: int)
    requires EntrySize(name, e) <= end <= buf.Length
    modifies buf
    ensures Wrote(old(buf[..]), buf[..], i, end, Delimited(0x0a, EntryBytes(name, e)))
  {
    ghost var b0, entry := buf[..], EntryBytes(name, e);
    var i2 := WriteInstance(buf, end, e);
    ghost var b2 := buf[..];
    var i3 := WriteDelimited(buf, i2, 0x0a, name);
    WroteMore(b0, b2, buf[..], i3, i2, end, Delimited(0x0a, name), Delimited(0x12, InstanceBytes(e)));
    ghost var b3 := buf[..];
    i := WriteHeader(buf, i3, 0x0a, end - i3);
    WroteDelimited(b0, b3, buf[..], i, i3, end, 0x0a, entry);
  }

  method WriteInstance(buf: array<Byte>, end: int, e: InstanceDesc) returns (i: int)
    requires |Delimited(0x12, InstanceBytes(e))| <= end <= buf.Length
    modifies buf
    ensures Wrote(old(buf[..]), buf[..], i, end, Delimited(0x12, InstanceBytes(e)))
  {
    ghost var b0, value := buf[..], InstanceBytes(e);
    var i1 := MarshalInstanceTo(buf, end, e);
    ghost var b1 := buf[..];
    i := WriteHeader(buf, i1, 0x12, end - i1);
    WroteDelimited(b0, b1, buf[..], i, i1, end, 0x12, value);
  }

  /** MarshalToSizedBuffer: each entry in front of the one before, in the order in which the map is iterated. */
  method MarshalDescTo(buf: array<Byte>, end: int, m: Desc) returns (i: int, ghost order: seq<Text>)
    requires DescSize(m) <= end <= buf.Length
    modifies buf
    ensures IsOrder(m, order) && i == end - DescSize(m)
    ensures Wrote(old(buf[..]), buf[..], i, end, DescBytes(m, order))
  {
    ghost var b0 := buf[..];
    i, order := end, [];
    var rest := m;
    WroteNothing(b0, end);
    while rest != map[]
      invariant Remaining(m, rest, order)
      invariant Wrote(b0, buf[..], i, end, DescBytes(m, order))
      invariant i == end - DescSize(m) + DescSize(rest)
      decreases |rest|
    {
      var name :| name in rest;
      SumWithout(EntrySize, rest, name);
      ghost var b1, back, mid := buf[..], DescBytes(m, order), i;
      i := WriteEntry(buf, i, name, rest[name]);
      WroteMore(b0, b1, buf[..], i, mid, end, Delimited(0x0a, EntryBytes(name, rest[name])), back);
      OneFewer(m, rest, order, name);
      order := [name] + order;
      rest := rest - {name};
    }
  }

  /** The entries still to be written, and those that have been, the last one first. */
  ghost predicate Remaining(m: Desc, rest: Desc, order: seq<Text>) {
    && (forall i, j :: 0 <= i < j < |order| ==> order[i] != order[j])
    && (forall name :: name in m <==> name in order || name in rest)
    && (forall name :: name in rest ==> name !in order && rest[name] == m[name])
  }

  lemma OneFewer(m: Desc, rest: Desc, order: seq<Text>, name: Text)
    requires Remaining(m, rest, order) && name in rest
    ensures Remaining(m, rest - {name}, [name] + order)
    ensures DescBytes(m, [name] + order) == Delimited(0x0a, EntryBytes(name, rest[name])) + DescBytes(m, order)
    ensures |rest - {name}| < |rest|
  {
    PrependEntry(InstanceBytes, m, order, name);
    assert (rest - {name}).Keys == rest.Keys - {name};
  }

  lemma PrependEntry(encode: Encoder, m: Desc, order: seq<Text>, name: Text)
    requires name in m && forall n :: n in order ==> n in m
    ensures EntryParts(encode, m, [name] + order)
      == [Delimited(0x0a, EntryWith(encode, name, m[name]))] + EntryParts(encode, m, order)
    ensures Concat(EntryParts(encode, m, [name] + order))
      == Delimited(0x0a, EntryWith(encode, name, m[name])) + Concat(EntryParts(encode, m, order))
  {
    var parts := [Delimited(0x0a, EntryWith(encode, name, m[name]))] + EntryParts(encode, m, order);
    forall k | 0 <= k < |parts| ensures parts[k] == EntryParts(encode, m, [name] + order)[k] {
    }
    assert parts[1..] == EntryParts(encode, m, order);
  }

  /** Marshal: the computed size is exactly what is needed, and writing ends at offset 0. */
  method MarshalDesc(m: Desc) returns (data: seq<Byte>, ghost order: seq<Text>)
    ensures IsOrder(m, order) && data == DescBytes(m, order)
    ensures |data| == DescSize(m)
  {
    var size := SizeOfDesc(m);
    var buf := new Byte[size];
    var i;
    i, order := MarshalDescTo(buf, size, m);
    assert i == 0;
    data := buf[..size - i];
  }

  // ---------------------------------------------------------------- reading

  function ReadNested(nested: Decoder, data: seq<Byte>, j: nat): (r: Result<(InstanceDesc, nat)>)
    ensures r.Ok? ==> j < r.value.1 <= |data|
  {
    match ReadLength(data, j)
    case Err(error) => Err(error)
    case Ok((from, to)) => (match nested(data[from..to]) case Err(error) => Err(error) case Ok(v) => Ok((v, to)))
  }

  /**
   * One field of a map entry. Lengths are checked against the whole data, except when a field is skipped. Then it is
   * not checked either that the end of the field is an int: if it is not, it wraps around to a negative position, which
   * is taken to be within the entry, and reading there panics.
   */
  function ReadEntryField(nested: Decoder, data: seq<Byte>, i: nat, post: nat, name: Text, e: InstanceDesc)
    : (r: Result<(Text, InstanceDesc, nat)>)
    requires i < |data|
    ensures r.Ok? ==> i < r.value.2
  {
    match Read(data, i, Bits64)
    case Err(error) => Err(error)
    case Ok((wire, j)) =>
      match FieldOf(wire)
      case 1 => (match ReadText(data, j) case Err(error) => Err(error) case Ok((s, next)) => Ok((s, e, next)))
      case 2 => (match ReadNested(nested, data, j)
                case Err(error) => Err(error) case Ok((v, next)) => Ok((name, v, next)))
      case _ => (
        match Skip(data[i..])
        case Err(error) => Err(error)
        case Ok(n) =>
          if i + n >= TWO_63 then Err(IndexOutOfRange)
          else if i + n > post then Err(UnexpectedEOF) else Ok((name, e, i + n)))
  }

  function DecodeEntry(nested: Decoder, data: seq<Byte>, i: nat, post: nat, name: Text, e: InstanceDesc)
    : Result<(Text, InstanceDesc)>
    requires post <= |data|
    decreases post - i
  {
    if i >= post then Ok((name, e))
    else
      match ReadEntryField(nested, data, i, post, name, e)
      case Err(error) => Err(error)
      case Ok((name', e', next)) => DecodeEntry(nested, data, next, post, name', e')
  }

  function ReadFieldWith(nested: Decoder, data: seq<Byte>, i: nat, j: nat, field: int, wireType: nat, m: Desc)
    : (r: Result<(Desc, nat)>)
    ensures i < j <= |data| && r.Ok? ==> i < r.value.1 <= |data|
  {
    if field == 1 then
      if wireType != 2 then Err(WrongWireType)
      else
        match ReadLength(data, j)
        case Err(error) => Err(error)
        case Ok((from, to)) => (
          match DecodeEntry(nested, data, from, to, [], EMPTY)
          case Err(error) => Err(error)
          case Ok((name, e)) => Ok((m[name := e], to)))
    else if i >= |data| then Err(UnexpectedEOF)
    else (match SkipAt(data, i) case Err(error) => Err(error) case Ok(next) => Ok((m, next)))
  }

  function ReadDescField(data: seq<Byte>, i: nat, j: nat, field: int, wireType: nat, m: Desc): Result<(Desc, nat)> {
    ReadFieldWith(DecodeInstance, data, i, j, field, wireType, m)
  }

  lemma DescFieldsAdvance()
    ensures Advances(ReadDescField)
  {
  }

  function DecodeDesc(data: seq<Byte>): Result<Desc> {
    DescFieldsAdvance();
    Decode(ReadDescField, data, 0, map[])
  }

  /** Unmarshal. */
  method UnmarshalDesc(data: seq<Byte>) returns (r: Result<Desc>)
    ensures r == DecodeDesc(data)
  {
    DescFieldsAdvance();
    var m: Desc := map[];
    var iNdEx: nat := 0;
    while iNdEx < |data|
      invariant iNdEx <= |data| && Decode(ReadDescField, data, iNdEx, m) == DecodeDesc(data)
      decreases |data| - iNdEx
    {
      var tag := ReadTag(data, iNdEx);
      if tag.Err? {
        return Err(tag.error);
      }
      var (wire, j) := tag.value;
      var field := UnmarshalDescField(data, iNdEx, j, FieldOf(wire), wire % 8, m);
      if field.Err? {
        return Err(field.error);
      }
      m, iNdEx := field.value.0, field.value.1;
    }
    r := Ok(m);
  }

  method UnmarshalDescField(data: seq<Byte>, i: nat, j: nat, field: int, wireType: nat, m: Desc)
    returns (r: Result<(Desc, nat)>)
    requires i < j <= |data|
    ensures r == ReadDescField(data, i, j, field, wireType, m)
  {
    if field == 1 {
      if wireType != 2 {
        return Err(WrongWireType);
      }
      var l := ReadLengthPrefix(data, j);
      if l.Err? {
        return Err(l.error);
      }
      var entry := UnmarshalEntry(data, l.value.0, l.value.1);
      r := if entry.Err? then Err(entry.error) else Ok((m[entry.value.0 := entry.value.1], l.value.1));
    } else {
      var next := SkipUnknown(data, i);
      r := if next.Err? then Err(next.error) else Ok((m, next.value));
    }
  }

  method UnmarshalEntry(data: seq<Byte>, start: nat, post: nat) returns (r: Result<(Text, InstanceDesc)>)
    requires post <= |data|
    ensures r == DecodeEntry(DecodeInstance, data, start, post, [], EMPTY)
  {
    var iNdEx := start;
    var mapkey: Text, mapvalue := [], EMPTY;
    while iNdEx < post
      invariant DecodeEntry(DecodeInstance, data, iNdEx, post, mapkey, mapvalue)
        == DecodeEntry(DecodeInstance, data, start, post, [], EMPTY)
      decreases post - iNdEx
    {
      var field := UnmarshalEntryField(data, iNdEx, post, mapkey, mapvalue);
      if field.Err? {
        return Err(field.error);
      }
      mapkey, mapvalue, iNdEx := field.value.0, field.value.1, field.value.2;
    }
    r := Ok((mapkey, mapvalue));
  }

  method UnmarshalEntryField(data: seq<Byte>, i: nat, post: nat, name: Text, e: InstanceDesc)
    returns (r: Result<(Text, InstanceDesc, nat)>)
    requires i < |data|
    ensures r == ReadEntryField(DecodeInstance, data, i, post, name, e)
  {
    var tag := ReadVarint(data, i, Bits64);
    if tag.Err? {
      return Err(tag.error);
    }
    match FieldOf(tag.value.0) {
      case 1 =>
        var s := UnmarshalText(data, tag.value.1);
        r := if s.Err? then Err(s.error) else Ok((s.value.0, e, s.value.1));
      case 2 =>
        var v := UnmarshalNested(data, tag.value.1);
        r := if v.Err? then Err(v.error) else Ok((name, v.value.0, v.value.1));
      case _ =>
        var skippy := SkipField(data[i..]);
        if skippy.Err? {
          return Err(skippy.error);
        }
        var next := i + skippy.value;
        if next >= TWO_63 {
          // The position wraps around to a negative one, which is not beyond post: the loop goes on and reads there.
          return Err(IndexOutOfRange);
        }
        r := if next > post then Err(UnexpectedEOF) else Ok((name, e, next));
    }
  }

  method UnmarshalNested(data: seq<Byte>, j: nat) returns (r: Result<(InstanceDesc, nat)>)
    ensures r == ReadNested(DecodeInstance, data, j)
  {
    var l := ReadLengthPrefix(data, j);
    if l.Err? {
      return Err(l.error);
    }
    var v := UnmarshalInstance(data[l.value.0..l.value.1]);
    r := if v.Err? then Err(v.error) else Ok((v.value, l.value.1));
  }

  // ---------------------------------------------------------------- the round trip

  lemma ReadsName(nested: Decoder, data: seq<Byte>, i: nat, post: nat, k: seq<Byte>, name: Text, next: nat)
    requires |data| < TWO_63 && At(data, i, k) && k == Delimited(0x0a, name) && next == i + |k|
    ensures i < next && ReadEntryField(nested, data, i, post, [], EMPTY) == Ok((name, EMPTY, next))
  {
    var from, to := ReadsDelimited(data, i, 0x0a, name);
    ReadsTag(data, i, 0x0a);
  }

  lemma ReadsValue(
    nested: Decoder, data: seq<Byte>, i: nat, post: nat, name: Text, v: seq<Byte>, value: seq<Byte>, e: InstanceDesc)
    requires |data| < TWO_63 && At(data, i, v) && v == Delimited(0x12, value) && nested(value) == Ok(e)
    requires post == i + |v|
    ensures i < post && ReadEntryField(nested, data, i, post, name, EMPTY) == Ok((name, e, post))
  {
    var from, to := ReadsDelimited(data, i, 0x12, value);
    ReadsTag(data, i, 0x12);
  }

  lemma EntryReadsBack(
    nested: Decoder, data: seq<Byte>, i: nat, post: nat, k: seq<Byte>, v: seq<Byte>, name: Text, value: seq<Byte>,
    e: InstanceDesc)
    requires |data| < TWO_63 && nested(value) == Ok(e) && k == Delimited(0x0a, name) && v == Delimited(0x12, value)
    requires At(data, i, k + v) && post == i + |k + v|
    ensures DecodeEntry(nested, data, i, post, [], EMPTY) == Ok((name, e))
  {
    SplitAt(data, i, k, v);
    var mid := i + |k|;
    ReadsName(nested, data, i, post, k, name, mid);
    ReadsValue(nested, data, mid, post, name, v, value, e);
    TwoFields(nested, data, i, mid, post, name, e);
  }

  lemma TwoFields(nested: Decoder, data: seq<Byte>, i: nat, mid: nat, post: nat, name: Text, e: InstanceDesc)
    requires i < mid < post <= |data|
    requires ReadEntryField(nested, data, i, post, [], EMPTY) == Ok((name, EMPTY, mid))
    requires ReadEntryField(nested, data, mid, post, name, EMPTY) == Ok((name, e, post))
    ensures DecodeEntry(nested, data, i, post, [], EMPTY) == Ok((name, e))
  {
    assert DecodeEntry(nested, data, post, post, name, e) == Ok((name, e));
    assert DecodeEntry(nested, data, mid, post, name, EMPTY) == Ok((name, e));
  }

  /** The reader reads fields in the way above. */
  ghost predicate Uses(read: FieldReader<Desc>, nested: Decoder) {
    forall data: seq<Byte>, i: nat, j: nat, field: int, wireType: nat, m: Desc
      {:trigger ReadFieldWith(nested, data, i, j, field, wireType, m)} ::
      read(data, i, j, field, wireType, m) == ReadFieldWith(nested, data, i, j, field, wireType, m)
  }

  lemma EntryIsRead(
    nested: Decoder, data: seq<Byte>, i: nat, j: nat, from: nat, to: nat, m: Desc, name: Text, value: seq<Byte>,
    e: InstanceDesc, entry: seq<Byte>)
    requires |data| < TWO_63 && nested(value) == Ok(e) && entry == Delimited(0x0a, name) + Delimited(0x12, value)
    requires ContentAt(data, i, j, from, to, entry)
    ensures ReadFieldWith(nested, data, i, j, 1, 2, m) == Ok((m[name := e], to))
  {
    EntryReadsBack(nested, data, from, to, Delimited(0x0a, name), Delimited(0x12, value), name, value, e);
    ReadsEntryAt(nested, data, i, j, m, from, to, name, e);
  }

  lemma ReadsEntryAt(
    nested: Decoder, data: seq<Byte>, i: nat, j: nat, m: Desc, from: nat, to: nat, name: Text, e: InstanceDesc)
    requires ReadLength(data, j) == Ok((from, to)) && DecodeEntry(nested, data, from, to, [], EMPTY) == Ok((name, e))
    ensures ReadFieldWith(nested, data, i, j, 1, 2, m) == Ok((m[name := e], to))
  {
  }

  lemma TakesEntry(
    read: FieldReader<Desc>, nested: Decoder, data: seq<Byte>, m: Desc, name: Text, value: seq<Byte>, e: InstanceDesc,
    entry: seq<Byte>)
    requires Uses(read, nested) && |data| < TWO_63 && nested(value) == Ok(e)
    requires entry == Delimited(0x0a, name) + Delimited(0x12, value)
    ensures TakesContent(read, data, 1, entry, m, m[name := e])
  {
    forall i: nat, j: nat, from: nat, to: nat | ContentAt(data, i, j, from, to, entry)
      ensures read(data, i, j, 1, 2, m) == Ok((m[name := e], to))
    {
      EntryIsRead(nested, data, i, j, from, to, m, name, value, e, entry);
    }
  }

  /** The ring after the first entries. */
  function Stage(m: Desc, order: seq<Text>, k: nat): Desc
    requires k <= |order| && forall name :: name in order ==> name in m
  {
    map name | name in order[..k] :: m[name]
  }

  function Stages(m: Desc, order: seq<Text>): (r: seq<Desc>)
    requires forall name :: name in order ==> name in m
    ensures |r| == |order| + 1
  {
    seq(|order| + 1, k requires 0 <= k <= |order| => Stage(m, order, k))
  }

  lemma NextStage(m: Desc, order: seq<Text>, k: nat)
    requires k < |order| && forall name :: name in order ==> name in m
    ensures Stage(m, order, k + 1) == Stage(m, order, k)[order[k] := m[order[k]]]
  {
    assert order[..k + 1] == order[..k] + [order[k]];
  }

  lemma LastStage(m: Desc, order: seq<Text>)
    requires forall name :: name in order <==> name in m
    ensures Stage(m, order, 0) == map[] && Stage(m, order, |order|) == m
  {
    assert order[..|order|] == order;
  }

  lemma StepsOverEntries(
    read: FieldReader<Desc>, encode: Encoder, nested: Decoder, data: seq<Byte>, m: Desc, order: seq<Text>)
    requires Uses(read, nested) && |data| < TWO_63 && forall name :: name in order ==> name in m
    requires forall name :: name in order ==> nested(encode(m[name])) == Ok(m[name])
    ensures StepsOverAll(read, data, EntryParts(encode, m, order), Stages(m, order))
  {
    forall k | 0 <= k < |order|
      ensures StepsOver(read, data, EntryParts(encode, m, order)[k], Stages(m, order)[k], Stages(m, order)[k + 1])
    {
      StepsOverOne(read, encode, nested, data, m, order, k);
    }
  }

  lemma StepsOverOne(
    read: FieldReader<Desc>, encode: Encoder, nested: Decoder, data: seq<Byte>, m: Desc, order: seq<Text>, k: nat)
    requires Uses(read, nested) && |data| < TWO_63 && k < |order| && forall name :: name in order ==> name in m
    requires nested(encode(m[order[k]])) == Ok(m[order[k]])
    ensures StepsOver(read, data, EntryParts(encode, m, order)[k], Stage(m, order, k), Stage(m, order, k + 1))
  {
    var name := order[k];
    var entry := EntryWith(encode, name, m[name]);
    NextStage(m, order, k);
    TakesEntry(read, nested, data, Stage(m, order, k), name, encode(m[name]), m[name], entry);
    StepsOverDelimited(read, data, 0x0a, entry, Stage(m, order, k), Stage(m, order, k + 1));
  }

  lemma {:induction false} PartsAreShorter(parts: seq<seq<Byte>>, k: nat)
    requires k < |parts|
    ensures |parts[k]| <= |Concat(parts)|
    decreases |parts|
  {
    if k > 0 {
      PartsAreShorter(parts[1..], k - 1);
    }
  }

  lemma EntryDecodes(m: Desc, order: seq<Text>, name: Text)
    requires IsOrder(m, order) && |DescBytes(m, order)| < TWO_63 && name in order
    ensures DecodeInstance(InstanceBytes(m[name])) == Ok(m[name])
  {
    var k :| 0 <= k < |order| && order[k] == name;
    PartsAreShorter(EntryParts(InstanceBytes, m, order), k);
    InstanceRoundTrip(m[name]);
  }

  /** Unmarshal undoes Marshal for every ring, in whatever order its entries are written. */
  lemma DescRoundTrip(m: Desc, order: seq<Text>)
    requires IsOrder(m, order) && |DescBytes(m, order)| < TWO_63
    ensures DecodeDesc(DescBytes(m, order)) == Ok(m)
  {
    forall name | name in order ensures DecodeInstance(InstanceBytes(m[name])) == Ok(m[name]) {
      EntryDecodes(m, order, name);
    }
    DescFieldsAdvance();
    StepsOverEntries(ReadDescField, InstanceBytes, DecodeInstance, DescBytes(m, order), m, order);
    LastStage(m, order);
    DecodesParts(ReadDescField, EntryParts(InstanceBytes, m, order), Stages(m, order));
  }
}
