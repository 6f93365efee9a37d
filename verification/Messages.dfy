/**
 * What all decoders of messages have in common: a loop over fields, each with a tag in front (Unmarshal in
 * ring/ring.pb.go and kv/memberlist/kv.pb.go). A message is given by how it reads one field; a reader that steps over
 * each part of an encoding decodes the whole of it, and a part that changes nothing may stand anywhere.
 */
module Messages {
  import opened Varints
  import opened Skipping
  import opened Fields

  /**
   * Reads the field whose tag starts at the first and ends at the second position, with the given field number and wire
   * type, into what has been decoded so far; yields that and the position behind the field.
   */
  type FieldReader<!M> = (seq<Byte>, nat, nat, int, nat, M) -> Result<(M, nat)>

  /** Every field takes at least one byte and ends within the data. */
  ghost predicate Advances<M(!new)>(read: FieldReader<M>) {
    forall data: seq<Byte>, i: nat, j: nat, field: int, wireType: nat, m: M ::
      i < j <= |data| && read(data, i, j, field, wireType, m).Ok? ==>
        i < read(data, i, j, field, wireType, m).value.1 <= |data|
  }

  /** The field number of a tag, cut down to 32 bits. */
  function FieldOf(wire: nat): Int32 {
    Signed32(wire / 8 % 0x1_0000_0000)
  }

  /** The tag and the field at position i. */
  function ReadOne<M>(read: FieldReader<M>, data: seq<Byte>, i: nat, m: M): Result<(M, nat)> {
    match Read(data, i, Bits64)
    case Err(e) => Err(e)
    case Ok((wire, j)) =>
      if wire % 8 == 4 then Err(EndGroup)
      else if FieldOf(wire) <= 0 then Err(IllegalTag)
      else read(data, i, j, FieldOf(wire), wire % 8, m)
  }

  /** Decoding from position i on, into what has been decoded so far. */
  function Decode<M(!new)>(read: FieldReader<M>, data: seq<Byte>, i: nat, m: M): Result<M>
    requires Advances(read)
    decreases |data| - i
  {
    if i >= |data| then (if i > |data| then Err(UnexpectedEOF) else Ok(m))
    else
      match ReadOne(read, data, i, m)
      case Err(e) => Err(e)
      case Ok((m', next)) => Decode(read, data, next, m')
  }

  method ReadTag(data: seq<Byte>, i: nat) returns (r: Result<(nat, nat)>)
    ensures r == match Read(data, i, Bits64)
                 case Err(e) => Err(e)
                 case Ok((wire, j)) =>
                   if wire % 8 == 4 then Err(EndGroup)
                   else if FieldOf(wire) <= 0 then Err(IllegalTag) else Ok((wire, j))
  {
    var tag := ReadVarint(data, i, Bits64);
    if tag.Err? {
      return Err(tag.error);
    }
    var wire := tag.value.0;
    if wire % 8 == 4 {
      return Err(EndGroup);
    }
    if FieldOf(wire) <= 0 {
      return Err(IllegalTag);
    }
    r := Ok((wire, tag.value.1));
  }

  /** A field is left out, or its tag is one byte and it is read as expected. */
  ghost predicate StepsTo<M>(read: FieldReader<M>, data: seq<Byte>, i: nat, m: M, next: nat, m': M) {
    (next == i && m' == m) || (i < |data| && ReadOne(read, data, i, m) == Ok((m', next)))
  }

  /** One field after the other. */
  lemma Follow<M(!new)>(
    read: FieldReader<M>, data: seq<Byte>, i: nat, m: M, j: nat, m': M, result: Result<M>)
    requires Advances(read) && StepsTo(read, data, i, m, j, m') && Decode(read, data, j, m') == result
    ensures Decode(read, data, i, m) == result
  {
  }

  lemma ReadsTag(data: seq<Byte>, i: nat, tag: Byte)
    requires tag < 128 && At(data, i, [tag])
    ensures i < |data| && Read(data, i, Bits64) == Ok((tag, i + 1))
  {
    assert data[i] == data[i..i + 1][0];
  }

  lemma StepOver<M>(read: FieldReader<M>, data: seq<Byte>, i: nat, tag: Byte, m: M, m': M, next: nat)
    requires 8 <= tag < 128 && tag % 8 != 4 && At(data, i, [tag])
    requires read(data, i, i + 1, tag / 8, tag % 8, m) == Ok((m', next))
    ensures StepsTo(read, data, i, m, next, m')
  {
    ReadsTag(data, i, tag);
    assert FieldOf(tag) == tag / 8;
  }

  // ---------------------------------------------------------------- messages made of parts

  function Concat(parts: seq<seq<Byte>>): seq<Byte> {
    if parts == [] then [] else parts[0] + Concat(parts[1..])
  }

  /** Wherever the part stands in the data, the reader steps over it. */
  ghost predicate StepsOver<M>(read: FieldReader<M>, data: seq<Byte>, part: seq<Byte>, m: M, m': M) {
    forall i: nat {:trigger At(data, i, part)} :: At(data, i, part) ==> StepsTo(read, data, i, m, i + |part|, m')
  }

  /** The part starts with the tag, and its field is read in full. */
  ghost predicate ReadsPart<M>(read: FieldReader<M>, data: seq<Byte>, part: seq<Byte>, tag: Byte, m: M, m': M) {
    forall i: nat {:trigger At(data, i, part)} :: At(data, i, part) ==>
      At(data, i, [tag]) && read(data, i, i + 1, tag / 8, tag % 8, m) == Ok((m', i + |part|))
  }

  lemma StepsOverPart<M>(read: FieldReader<M>, data: seq<Byte>, part: seq<Byte>, tag: Byte, m: M, m': M)
    requires 8 <= tag < 128 && tag % 8 != 4 && ReadsPart(read, data, part, tag, m, m')
    ensures StepsOver(read, data, part, m, m')
  {
    forall i: nat | At(data, i, part) ensures StepsTo(read, data, i, m, i + |part|, m') {
      StepOver(read, data, i, tag, m, m', i + |part|);
    }
  }

  /** Where the text of a field is read as s, the field is. */
  ghost predicate TakesText<M>(read: FieldReader<M>, data: seq<Byte>, field: int, s: seq<Byte>, m: M, m': M) {
    forall i: nat, j: nat {:trigger read(data, i, j, field, 2, m)} ::
      i < j && ReadText(data, j).Ok? && ReadText(data, j).value.0 == s
      ==> read(data, i, j, field, 2, m) == Ok((m', ReadText(data, j).value.1))
  }

  lemma StepsOverText<M>(read: FieldReader<M>, data: seq<Byte>, tag: Byte, s: seq<Byte>, m: M, m': M)
    requires |data| < TWO_63 && 8 <= tag < 128 && tag % 8 == 2 && (s == [] ==> m' == m)
    requires TakesText(read, data, tag / 8, s, m, m')
    ensures StepsOver(read, data, TextField(tag, s), m, m')
  {
    if s != [] {
      forall i: nat | At(data, i, TextField(tag, s))
        ensures At(data, i, [tag])
        ensures read(data, i, i + 1, tag / 8, tag % 8, m) == Ok((m', i + |TextField(tag, s)|))
      {
        ReadsTextField(data, i, tag, s);
      }
      StepsOverPart(read, data, TextField(tag, s), tag, m, m');
    }
  }

  /** Where the content of a field stands, the field is read in full. */
  ghost predicate TakesContent<M>(read: FieldReader<M>, data: seq<Byte>, field: int, content: seq<Byte>, m: M, m': M) {
    forall i: nat, j: nat, from: nat, to: nat
      {:trigger ContentAt(data, i, j, from, to, content), read(data, i, j, field, 2, m)} ::
      ContentAt(data, i, j, from, to, content) ==> read(data, i, j, field, 2, m) == Ok((m', to))
  }

  ghost predicate ContentAt(data: seq<Byte>, i: nat, j: nat, from: nat, to: nat, content: seq<Byte>) {
    i < j && ReadLength(data, j) == Ok((from, to)) && At(data, from, content) && to == from + |content|
  }

  lemma StepsOverDelimited<M>(read: FieldReader<M>, data: seq<Byte>, tag: Byte, content: seq<Byte>, m: M, m': M)
    requires |data| < TWO_63 && 8 <= tag < 128 && tag % 8 == 2 && TakesContent(read, data, tag / 8, content, m, m')
    ensures StepsOver(read, data, Delimited(tag, content), m, m')
  {
    forall i: nat | At(data, i, Delimited(tag, content))
      ensures At(data, i, [tag])
      ensures read(data, i, i + 1, tag / 8, tag % 8, m) == Ok((m', i + |Delimited(tag, content)|))
    {
      var from, to := ReadsDelimited(data, i, tag, content);
      assert ContentAt(data, i, i + 1, from, to, content);
    }
    StepsOverPart(read, data, Delimited(tag, content), tag, m, m');
  }

  /** Part by part, the reader goes from the first to the last of the given values. */
  ghost predicate StepsOverAll<M>(read: FieldReader<M>, data: seq<Byte>, parts: seq<seq<Byte>>, ms: seq<M>) {
    |ms| == |parts| + 1 && forall k :: 0 <= k < |parts| ==> StepsOver(read, data, parts[k], ms[k], ms[k + 1])
  }

  lemma {:induction false} FollowParts<M(!new)>(
    read: FieldReader<M>, data: seq<Byte>, i: nat, parts: seq<seq<Byte>>, ms: seq<M>)
    requires Advances(read) && StepsOverAll(read, data, parts, ms)
    requires At(data, i, Concat(parts)) && i + |Concat(parts)| == |data|
    ensures Decode(read, data, i, ms[0]) == Ok(ms[|parts|])
    decreases |parts|
  {
    if parts != [] {
      SplitAt(data, i, parts[0], Concat(parts[1..]));
      assert StepsOver(read, data, parts[0], ms[0], ms[1]);
      forall k | 0 <= k < |parts[1..]| ensures StepsOver(read, data, parts[1..][k], ms[1..][k], ms[1..][k + 1]) {
        assert StepsOver(read, data, parts[k + 1], ms[k + 1], ms[k + 2]);
      }
      FollowParts(read, data, i + |parts[0]|, parts[1..], ms[1..]);
      Follow(read, data, i, ms[0], i + |parts[0]|, ms[1], Ok(ms[|parts|]));
    }
  }

  /** A reader that steps over all parts decodes the message that consists of them. */
  lemma DecodesParts<M(!new)>(read: FieldReader<M>, parts: seq<seq<Byte>>, ms: seq<M>)
    requires Advances(read) && StepsOverAll(read, Concat(parts), parts, ms)
    ensures Decode(read, Concat(parts), 0, ms[0]) == Ok(ms[|parts|])
  {
    FollowParts(read, Concat(parts), 0, parts, ms);
  }

  /** A part that changes nothing may be inserted anywhere. */
  lemma InsertedPart<M(!new)>(
    read: FieldReader<M>, data: seq<Byte>, parts: seq<seq<Byte>>, ms: seq<M>, k: nat, part: seq<Byte>)
    requires k <= |parts| && StepsOverAll(read, data, parts, ms) && StepsOver(read, data, part, ms[k], ms[k])
    ensures StepsOverAll(read, data, parts[..k] + [part] + parts[k..], ms[..k + 1] + ms[k..])
  {
    var longer, ns := parts[..k] + [part] + parts[k..], ms[..k + 1] + ms[k..];
    forall j | 0 <= j < |longer| ensures StepsOver(read, data, longer[j], ns[j], ns[j + 1]) {
      if j < k {
        assert StepsOver(read, data, parts[j], ms[j], ms[j + 1]);
      } else if j > k {
        assert StepsOver(read, data, parts[j - 1], ms[j - 1], ms[j]);
      }
    }
  }
}
