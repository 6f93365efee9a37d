/** Lengths, and skipping a field that the decoder does not know (skipRing in ring/ring.pb.go, skipKv in kv.pb.go). */
module Skipping {
  import opened Varints

  /** A length prefix: where the content starts and where it ends. */
  function ReadLength(data: seq<Byte>, i: nat): (r: Result<(nat, nat)>)
    ensures r.Ok? ==> i < r.value.0 <= r.value.1 <= |data|
  {
    match Read(data, i, Bits64)
    case Err(e) => Err(e)
    case Ok(v) =>
      var length := Signed64(v.0);
      if length < 0 then Err(InvalidLength)
      else if v.1 + length >= TWO_63 then Err(InvalidLength)
      else if v.1 + length > |data| then Err(UnexpectedEOF)
      else Ok((v.1, v.1 + length))
  }

  method ReadLengthPrefix(data: seq<Byte>, i: nat) returns (r: Result<(nat, nat)>)
    ensures r == ReadLength(data, i)
  {
    var v := ReadVarint(data, i, Bits64);
    if v.Err? {
      return Err(v.error);
    }
    var length := Signed64(v.value.0);
    if length < 0 {
      return Err(InvalidLength);
    }
    var postIndex := v.value.1 + length;
    if postIndex >= TWO_63 {
      return Err(InvalidLength);
    }
    if postIndex > |data| {
      return Err(UnexpectedEOF);
    }
    r := Ok((v.value.1, postIndex));
  }

  lemma LengthReadsBack(data: seq<Byte>, i: nat, s: seq<Byte>) returns (from: nat, to: nat)
    requires |data| < TWO_63 && At(data, i, Varint(|s|) + s)
    ensures from == i + |Varint(|s|)| && to == from + |s| && At(data, from, s)
    ensures ReadLength(data, i) == Ok((from, to))
  {
    from := i + |Varint(|s|)|;
    to := from + |s|;
    SplitAt(data, i, Varint(|s|), s);
    LengthReads(data, i, |s|, from);
  }

  lemma LengthReads(data: seq<Byte>, i: nat, length: nat, from: nat)
    requires |data| < TWO_63 && At(data, i, Varint(length)) && from == i + |Varint(length)| && from + length <= |data|
    ensures ReadLength(data, i) == Ok((from, from + length))
  {
    ReadsBack(data, i, length);
  }

  function Behind(r: Result<(nat, nat)>): Result<nat> {
    match r case Ok(v) => Ok(v.1) case Err(e) => Err(e)
  }

  /** How many bytes the field at the front takes, its tag included. Content may be claimed that is not there. */
  function Skip(data: seq<Byte>): (r: Result<nat>)
    requires |data| > 0
    ensures r.Ok? ==> r.value > 0
    decreases |data|, 0
  {
    match Read(data, 0, Bits64)
    case Err(e) => Err(e)
    case Ok((wire, i)) =>
      match wire % 8
      case 0 => Behind(ReadFrom(data, i, 0))
      case 1 => Ok(i + 8)
      case 2 => (
        match Read(data, i, Bits64)
        case Err(e) => Err(e)
        case Ok(v) =>
          var length := Signed64(v.0);
          if length < 0 || v.1 + length >= TWO_63 then Err(InvalidLength) else Ok(v.1 + length))
      case 3 => SkipGroup(data, i)
      case 4 => Ok(i)
      case 5 => Ok(i + 4)
      case _ => Err(IllegalWireType)
  }

  /** Skips fields up to and including the end of the group. */
  function SkipGroup(data: seq<Byte>, i: nat): (r: Result<nat>)
    ensures r.Ok? ==> r.value > i
    decreases |data| - i, 1
  {
    match Read(data, i, Bits64)
    case Err(e) => Err(e)
    case Ok((wire, j)) =>
      if wire % 8 == 4 then Ok(j)
      else
        match Skip(data[i..])
        case Err(e) => Err(e)
        case Ok(n) => if i + n >= TWO_63 then Err(InvalidLength) else SkipGroup(data, i + n)
  }

  method SkipField(data: seq<Byte>) returns (r: Result<nat>)
    requires |data| > 0
    ensures r == Skip(data)
    decreases |data|, 0
  {
    var tag := ReadVarint(data, 0, Bits64);
    if tag.Err? {
      return Err(tag.error);
    }
    var iNdEx := tag.value.1;
    match tag.value.0 % 8 {
      case 0 =>
        r := SkipVarint(data, iNdEx);
      case 1 =>
        r := Ok(iNdEx + 8);
      case 2 =>
        var v := ReadVarint(data, iNdEx, Bits64);
        if v.Err? {
          return Err(v.error);
        }
        var length := Signed64(v.value.0);
        if length < 0 {
          return Err(InvalidLength);
        }
        iNdEx := v.value.1 + length;
        r := if iNdEx >= TWO_63 then Err(InvalidLength) else Ok(iNdEx);
      case 3 =>
        r := SkipGroupFields(data, iNdEx);
      case 4 =>
        r := Ok(iNdEx);
      case 5 =>
        r := Ok(iNdEx + 4);
      case _ =>
        r := Err(IllegalWireType);
    }
  }

  method SkipGroupFields(data: seq<Byte>, start: nat) returns (r: Result<nat>)
    ensures r == SkipGroup(data, start)
    decreases |data| - start, 1
  {
    var iNdEx := start;
    while true
      invariant iNdEx >= start && SkipGroup(data, iNdEx) == SkipGroup(data, start)
      decreases |data| - iNdEx
    {
      var inner := ReadVarint(data, iNdEx, Bits64);
      if inner.Err? {
        return Err(inner.error);
      }
      if inner.value.0 % 8 == 4 {
        return Ok(inner.value.1);
      }
      var next := SkipField(data[iNdEx..]);
      if next.Err? {
        return Err(next.error);
      }
      iNdEx := iNdEx + next.value;
      if iNdEx >= TWO_63 {
        return Err(InvalidLength);
      }
    }
  }

  method SkipVarint(data: seq<Byte>, start: nat) returns (r: Result<nat>)
    ensures r == Behind(ReadFrom(data, start, 0))
  {
    var iNdEx: nat, shift: nat := start, 0;
    ghost var k: nat := 0;
    while true
      invariant shift == 7 * k && k <= 10 && Behind(ReadFrom(data, iNdEx, k)) == Behind(ReadFrom(data, start, 0))
      decreases 10 - k
    {
      if shift >= 64 {
        return Err(IntOverflow);
      }
      if iNdEx >= |data| {
        return Err(UnexpectedEOF);
      }
      OneByteFurther(data, iNdEx, k);
      iNdEx := iNdEx + 1;
      if data[iNdEx - 1] < 128 {
        return Ok(iNdEx);
      }
      shift, k := shift + 7, k + 1;
    }
  }

  lemma OneByteFurther(data: seq<Byte>, i: nat, k: nat)
    requires k < 10 && i < |data|
    ensures Behind(ReadFrom(data, i, k)) == if data[i] < 128 then Ok(i + 1) else Behind(ReadFrom(data, i + 1, k + 1))
  {
  }

  /** A field to skip that starts at position i of the whole message. */
  function SkipAt(data: seq<Byte>, i: nat): (r: Result<nat>)
    requires i < |data|
    ensures r.Ok? ==> i < r.value <= |data|
  {
    match Skip(data[i..])
    case Err(e) => Err(e)
    case Ok(n) => if i + n >= TWO_63 then Err(InvalidLength)
                  else if i + n > |data| then Err(UnexpectedEOF) else Ok(i + n)
  }

  method SkipUnknown(data: seq<Byte>, i: nat) returns (r: Result<nat>)
    requires i < |data|
    ensures r == SkipAt(data, i)
  {
    var skippy := SkipField(data[i..]);
    if skippy.Err? {
      return Err(skippy.error);
    }
    if i + skippy.value >= TWO_63 {
      return Err(InvalidLength);
    }
    if i + skippy.value > |data| {
      return Err(UnexpectedEOF);
    }
    r := Ok(i + skippy.value);
  }

  // ---------------------------------------------------------------- whole fields are skipped

  type FourBytes = s: seq<Byte> | |s| == 4 witness [0, 0, 0, 0]
  type EightBytes = s: seq<Byte> | |s| == 8 witness [0, 0, 0, 0, 0, 0, 0, 0]

  /** What an unknown field may hold. Groups hold fields, which may be groups in turn. */
  datatype Unknown =
    | Number(v: Uint64)
    | Fixed64(eight: EightBytes)
    | Content(content: seq<Byte>)
    | Group(fields: UnknownFields)
    | Fixed32(four: FourBytes)

  datatype UnknownFields = NoMore | More(field: nat, u: Unknown, rest: UnknownFields)

  function WireTypeOf(u: Unknown): (r: nat)
    ensures r in {0, 1, 2, 3, 5}
  {
    match u
    case Number(_) => 0
    case Fixed64(_) => 1
    case Content(_) => 2
    case Group(_) => 3
    case Fixed32(_) => 5
  }

  /** The encoding of a field, and that of the fields of a group. */
  function Under(field: nat, u: Unknown): seq<Byte>
    decreases u, 1
  {
    Varint(8 * field + WireTypeOf(u)) + Value(field, u)
  }

  function Value(field: nat, u: Unknown): seq<Byte>
    decreases u, 0
  {
    match u
    case Number(v) => Varint(v)
    case Fixed64(eight) => eight
    case Content(content) => Varint(|content|) + content
    case Group(fields) => UnderAll(fields) + Varint(8 * field + 4)
    case Fixed32(four) => four
  }

  function UnderAll(fields: UnknownFields): seq<Byte> {
    match fields
    case NoMore => []
    case More(field, u, rest) => Under(field, u) + UnderAll(rest)
  }

  /** Field numbers, those within groups included, whose tags fit into 64 bits. */
  predicate TagsFit(field: nat, u: Unknown)
    decreases u
  {
    8 * field + 7 < 0x1_0000_0000_0000_0000 && (u.Group? ==> AllTagsFit(u.fields))
  }

  predicate AllTagsFit(fields: UnknownFields)
    decreases fields
  {
    fields.More? ==> TagsFit(fields.field, fields.u) && AllTagsFit(fields.rest)
  }

  lemma TagIsRead(data: seq<Byte>, i: nat, tag: Uint64, value: seq<Byte>, from: nat)
    requires At(data, i, Varint(tag) + value) && from == i + |Varint(tag)|
    ensures Read(data, i, Bits64) == Ok((tag, from)) && At(data, from, value)
  {
    SplitAt(data, i, Varint(tag), value);
    ReadsBack(data, i, tag);
  }

  /** The tag has been read, and the value stands from there to behind. */
  ghost predicate ValueAt(data: seq<Byte>, tag: nat, from: nat, value: seq<Byte>, behind: nat) {
    && 0 < |data| < TWO_63 && Read(data, 0, Bits64) == Ok((tag, from))
    && At(data, from, value) && behind == from + |value|
  }

  lemma SkipsNumber(data: seq<Byte>, tag: nat, from: nat, v: Uint64, behind: nat)
    requires tag % 8 == 0 && ValueAt(data, tag, from, Varint(v), behind)
    ensures Skip(data) == Ok(behind)
  {
    VarintOf64(v);
    ReadsVarint(data, from, 0, v);
  }

  lemma SkipsContent(data: seq<Byte>, tag: nat, from: nat, content: seq<Byte>, behind: nat)
    requires tag % 8 == 2 && ValueAt(data, tag, from, Varint(|content|) + content, behind)
    ensures Skip(data) == Ok(behind)
  {
    var mid := from + |Varint(|content|)|;
    TagIsRead(data, from, |content|, content, mid);
    SkipsLength(data, tag, from, |content|, mid, behind);
  }

  lemma SkipsLength(data: seq<Byte>, tag: nat, from: nat, length: nat, mid: nat, behind: nat)
    requires 0 < |data| && tag % 8 == 2 && behind == mid + length < TWO_63
    requires Read(data, 0, Bits64) == Ok((tag, from)) && Read(data, from, Bits64) == Ok((length, mid))
    ensures Skip(data) == Ok(behind)
  {
  }

  lemma SkipsFixed(data: seq<Byte>, tag: nat, from: nat, bytes: seq<Byte>, behind: nat)
    requires (tag % 8 == 1 && |bytes| == 8) || (tag % 8 == 5 && |bytes| == 4)
    requires ValueAt(data, tag, from, bytes, behind)
    ensures Skip(data) == Ok(behind)
  {
  }

  lemma SkipsGroup(data: seq<Byte>, tag: nat, from: nat, value: seq<Byte>, behind: nat)
    requires tag % 8 == 3 && ValueAt(data, tag, from, value, behind) && SkipGroup(data, from) == Ok(behind)
    ensures Skip(data) == Ok(behind)
  {
  }

  lemma {:induction false} SkipsValue(data: seq<Byte>, tag: nat, from: nat, field: nat, u: Unknown, behind: nat)
    requires TagsFit(field, u) && tag == 8 * field + WireTypeOf(u)
    requires ValueAt(data, tag, from, Value(field, u), behind)
    ensures Skip(data) == Ok(behind)
    decreases u, 0
  {
    match u
    case Number(v) => SkipsNumber(data, tag, from, v, behind);
    case Content(content) => SkipsContent(data, tag, from, content, behind);
    case Fixed64(eight) => SkipsFixed(data, tag, from, eight, behind);
    case Fixed32(four) => SkipsFixed(data, tag, from, four, behind);
    case Group(fields) =>
      SkipsFields(data, from, fields, field, behind);
      SkipsGroup(data, tag, from, Value(field, u), behind);
  }

  lemma EndsGroup(data: seq<Byte>, i: nat, tag: Uint64, behind: nat)
    requires tag % 8 == 4 && At(data, i, Varint(tag)) && behind == i + |Varint(tag)|
    ensures SkipGroup(data, i) == Ok(behind)
  {
    ReadsBack(data, i, tag);
  }

  /** The fields of a group and its end, whatever number that has. */
  lemma {:induction false} SkipsFields(data: seq<Byte>, i: nat, fields: UnknownFields, end: nat, behind: nat)
    requires |data| < TWO_63 && AllTagsFit(fields) && 8 * end + 7 < 0x1_0000_0000_0000_0000
    requires At(data, i, UnderAll(fields) + Varint(8 * end + 4))
    requires behind == i + |UnderAll(fields) + Varint(8 * end + 4)|
    ensures SkipGroup(data, i) == Ok(behind)
    decreases fields
  {
    match fields
    case NoMore =>
      assert UnderAll(fields) + Varint(8 * end + 4) == Varint(8 * end + 4);
      EndsGroup(data, i, 8 * end + 4, behind);
    case More(field, u, rest) =>
      var next := i + |Under(field, u)|;
      FirstAndOthers(data, i, fields, end, next, behind);
      FieldIsInFront(data, i, field, u, next);
      SkipsFields(data, next, rest, end, behind);
      OneFieldFurther(data, i, 8 * field + WireTypeOf(u), next, behind);
  }

  lemma FirstAndOthers(data: seq<Byte>, i: nat, fields: UnknownFields, end: nat, next: nat, behind: nat)
    requires fields.More? && next == i + |Under(fields.field, fields.u)|
    requires At(data, i, UnderAll(fields) + Varint(8 * end + 4))
    requires behind == i + |UnderAll(fields) + Varint(8 * end + 4)|
    ensures At(data, i, Under(fields.field, fields.u)) && At(data, next, UnderAll(fields.rest) + Varint(8 * end + 4))
    ensures behind == next + |UnderAll(fields.rest) + Varint(8 * end + 4)|
  {
    var first, others := Under(fields.field, fields.u), UnderAll(fields.rest) + Varint(8 * end + 4);
    assert UnderAll(fields) + Varint(8 * end + 4) == first + others;
    SplitAt(data, i, first, others);
  }

  lemma OneFieldFurther(data: seq<Byte>, i: nat, tag: nat, next: nat, end: nat)
    requires i < next <= |data| < TWO_63 && tag % 8 != 4
    requires Read(data, i, Bits64).Ok? && Read(data, i, Bits64).value.0 == tag && Skip(data[i..]) == Ok(next - i)
    requires SkipGroup(data, next) == Ok(end)
    ensures SkipGroup(data, i) == Ok(end)
  {
  }

  lemma {:induction false} FieldIsInFront(data: seq<Byte>, i: nat, field: nat, u: Unknown, next: nat)
    requires |data| < TWO_63 && TagsFit(field, u) && At(data, i, Under(field, u)) && next == i + |Under(field, u)|
    ensures i < next && Skip(data[i..]) == Ok(next - i)
    ensures Read(data, i, Bits64) == Ok((8 * field + WireTypeOf(u), i + |Varint(8 * field + WireTypeOf(u))|))
    decreases u, 1
  {
    var tag := 8 * field + WireTypeOf(u);
    TagIsRead(data, i, tag, Value(field, u), i + |Varint(tag)|);
    assert At(data[i..], 0, Under(field, u));
    TagIsRead(data[i..], 0, tag, Value(field, u), |Varint(tag)|);
    SkipsValue(data[i..], tag, |Varint(tag)|, field, u, next - i);
  }

  /** A field of any kind is skipped in full, wherever it stands. */
  lemma SkipsUnknown(data: seq<Byte>, i: nat, field: nat, u: Unknown, next: nat)
    requires |data| < TWO_63 && TagsFit(field, u) && At(data, i, Under(field, u)) && next == i + |Under(field, u)|
    ensures i < |data| && SkipAt(data, i) == Ok(next)
    ensures Read(data, i, Bits64) == Ok((8 * field + WireTypeOf(u), i + |Varint(8 * field + WireTypeOf(u))|))
  {
    FieldIsInFront(data, i, field, u, next);
    SkipsTo(data, i, next);
  }

  lemma SkipsTo(data: seq<Byte>, i: nat, next: nat)
    requires i < next <= |data| < TWO_63 && Skip(data[i..]) == Ok(next - i)
    ensures SkipAt(data, i) == Ok(next)
  {
  }
}
