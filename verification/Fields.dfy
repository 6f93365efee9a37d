/**
 * Length-delimited fields, after the section "Length-Delimited Records" of the Protocol Buffers encoding
 * specification: what they look like, how they are written backwards in front of an offset (content, then length,
 * then tag), and how they are read, with the checks on lengths that do not fit into an int or into the data.
 */
module Fields {
  import opened Varints
  import opened Skipping

  /** A tag, the length of the content, and the content. */
  function Delimited(tag: Byte, content: seq<Byte>): seq<Byte> {
    [tag] + (Varint(|content|) + content)
  }

  /** Fields with the default value are left out. */
  function TextField(tag: Byte, s: seq<Byte>): seq<Byte> {
    if s == [] then [] else Delimited(tag, s)
  }

  method TextSize(ghost tag: Byte, s: seq<Byte>) returns (n: nat)
    ensures n == |TextField(tag, s)|
  {
    var l := |s|;
    SovIsLength(l);
    n := if l > 0 then 1 + l + Sov(l) else 0;
  }

  method WriteTextField(buf: array<Byte>, end: int, tag: Byte, s: seq<Byte>) returns (i: int)
    requires |TextField(tag, s)| <= end <= buf.Length
    modifies buf
    ensures Wrote(old(buf[..]), buf[..], i, end, TextField(tag, s))
  {
    i := end;
    if |s| > 0 {
      i := WriteDelimited(buf, end, tag, s);
    } else {
      WroteNothing(buf[..], end);
    }
  }

  /** Content, then its length, then the tag: each in front of the one before. */
  method WriteDelimited(buf: array<Byte>, end: int, tag: Byte, s: seq<Byte>) returns (i: int)
    requires |Delimited(tag, s)| <= end <= buf.Length
    modifies buf
    ensures Wrote(old(buf[..]), buf[..], i, end, Delimited(tag, s))
  {
    ghost var b0 := buf[..];
    var i1 := WriteBytes(buf, end, s);
    ghost var b1 := buf[..];
    i := WriteHeader(buf, i1, tag, |s|);
    WroteDelimited(b0, b1, buf[..], i, i1, end, tag, s);
  }

  /** A header in front of the content. */
  lemma WroteDelimited(b0: seq<Byte>, b1: seq<Byte>, b2: seq<Byte>, i: int, mid: int, end: int, tag: Byte, s: seq<Byte>)
    requires Wrote(b0, b1, mid, end, s) && Wrote(b1, b2, i, mid, [tag] + Varint(|s|))
    ensures Wrote(b0, b2, i, end, Delimited(tag, s))
  {
    WroteMore(b0, b1, b2, i, mid, end, [tag] + Varint(|s|), s);
    assert ([tag] + Varint(|s|)) + s == [tag] + (Varint(|s|) + s);
  }

  method WriteHeader(buf: array<Byte>, end: int, tag: Byte, v: nat) returns (i: int)
    requires |Varint(v)| + 1 <= end <= buf.Length
    modifies buf
    ensures Wrote(old(buf[..]), buf[..], i, end, [tag] + Varint(v))
  {
    ghost var b0 := buf[..];
    var i1 := EncodeVarint(buf, end, v);
    ghost var b1 := buf[..];
    i := WriteByte(buf, i1, tag);
    WroteMore(b0, b1, buf[..], i, i1, end, [tag], Varint(v));
  }

  /** The content of a length-delimited field, and the position behind it. */
  function ReadText(data: seq<Byte>, i: nat): (r: Result<(seq<Byte>, nat)>)
    ensures r.Ok? ==> i < r.value.1 <= |data|
  {
    match ReadLength(data, i)
    case Err(e) => Err(e)
    case Ok((from, to)) => Ok((data[from..to], to))
  }

  method UnmarshalText(data: seq<Byte>, i: nat) returns (r: Result<(seq<Byte>, nat)>)
    ensures r == ReadText(data, i)
  {
    var l := ReadLengthPrefix(data, i);
    if l.Err? {
      return Err(l.error);
    }
    r := Ok((data[l.value.0..l.value.1], l.value.1));
  }

  lemma ReadsDelimited(data: seq<Byte>, i: nat, tag: Byte, content: seq<Byte>) returns (from: nat, to: nat)
    requires |data| < TWO_63 && At(data, i, Delimited(tag, content))
    ensures At(data, i, [tag]) && ReadLength(data, i + 1) == Ok((from, to)) && At(data, from, content)
    ensures to == from + |content| == i + |Delimited(tag, content)|
  {
    SplitAt(data, i, [tag], Varint(|content|) + content);
    from, to := LengthReadsBack(data, i + 1, content);
  }

  lemma ReadsTextField(data: seq<Byte>, i: nat, tag: Byte, s: seq<Byte>)
    requires |data| < TWO_63 && tag < 128 && s != [] && At(data, i, TextField(tag, s))
    ensures At(data, i, [tag])
    ensures ReadText(data, i + 1) == Ok((s, i + |TextField(tag, s)|))
  {
    SplitAt(data, i, [tag], Varint(|s|) + s);
    var from, to := LengthReadsBack(data, i + 1, s);
  }
}
