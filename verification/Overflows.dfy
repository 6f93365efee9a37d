/** Where decoding panics, and where it never does (ring/ring.pb.go, kv/memberlist/kv.pb.go). */
module Overflows {
  import opened Varints
  import opened Skipping
  import opened Fields
  import opened Messages
  import InstanceWire
  import KvWire
  import opened DescWire

  // The end of a skipped field is checked for overflow by all decoders, except within the entries of a map.

  predicate Panics<T(==)>(r: Result<T>) {
    r == Err(IndexOutOfRange)
  }

  // ---------------------------------------------------------------- what never panics

  lemma {:induction false} ReadingIsSafe(data: seq<Byte>, i: nat, k: nat)
    ensures !Panics(ReadFrom(data, i, k))
    decreases |data| - i
  {
    if k < 10 && i < |data| && data[i] >= 128 {
      ReadingIsSafe(data, i + 1, k + 1);
    }
  }

  lemma ReadIsSafe(data: seq<Byte>, i: nat, width: Width)
    ensures !Panics(Read(data, i, width)) && !Panics(ReadLength(data, i)) && !Panics(ReadText(data, i))
  {
    ReadingIsSafe(data, i, 0);
  }

  lemma {:induction false} SkippingIsSafe(data: seq<Byte>)
    requires |data| > 0
    ensures !Panics(Skip(data))
    decreases |data|, 0
  {
    ReadingIsSafe(data, 0, 0);
    match Read(data, 0, Bits64)
    case Err(e) =>
    case Ok((wire, i)) =>
      ReadingIsSafe(data, i, 0);
      SkippingGroupsIsSafe(data, i);
  }

  lemma {:induction false} SkippingGroupsIsSafe(data: seq<Byte>, i: nat)
    requires i > 0
    ensures !Panics(SkipGroup(data, i))
    decreases |data| - i, 1
  {
    ReadingIsSafe(data, i, 0);
    if i < |data| {
      SkippingIsSafe(data[i..]);
      var r := Skip(data[i..]);
      if r.Ok? && i + r.value < TWO_63 && Read(data, i, Bits64).Ok? {
        SkippingGroupsIsSafe(data, i + r.value);
      }
    }
  }

  ghost predicate NeverPanics<M(!new)>(read: FieldReader<M>) {
    forall data: seq<Byte>, i: nat, j: nat, field: int, wireType: nat, m: M
      {:trigger read(data, i, j, field, wireType, m)} ::
      i < j <= |data| ==> read(data, i, j, field, wireType, m) != Err(IndexOutOfRange)
  }

  lemma {:induction false} DecodingIsSafe<M(!new)>(read: FieldReader<M>, data: seq<Byte>, i: nat, m: M)
    requires Advances(read) && NeverPanics(read)
    ensures Decode(read, data, i, m) != Err(IndexOutOfRange)
    decreases |data| - i
  {
    if i < |data| {
      ReadIsSafe(data, i, Bits64);
      match ReadOne(read, data, i, m)
      case Err(_) =>
      case Ok((m', next)) => DecodingIsSafe(read, data, next, m');
    }
  }

  lemma {:induction false} PackedIsSafe(data: seq<Byte>, i: nat, post: nat, tokens: seq<InstanceWire.Token>)
    requires post <= |data|
    ensures !Panics(InstanceWire.ReadPacked(data, i, post, tokens))
    decreases post - i
  {
    if i < post {
      ReadIsSafe(data, i, Bits32);
      match Read(data, i, Bits32)
      case Err(_) =>
      case Ok((v, next)) => PackedIsSafe(data, next, post, tokens + [v]);
    }
  }

  lemma TokensAreSafe(data: seq<Byte>, j: nat, wireType: nat, m: InstanceWire.InstanceDesc)
    ensures !Panics(InstanceWire.ReadTokens(data, j, wireType, m))
  {
    ReadIsSafe(data, j, Bits32);
    if wireType == 2 && ReadLength(data, j).Ok? {
      var (from, to) := ReadLength(data, j).value;
      PackedIsSafe(data, from, to, m.tokens);
    }
  }

  lemma InstanceFieldsAreSafe()
    ensures NeverPanics(InstanceWire.ReadField)
  {
    forall data: seq<Byte>, i: nat, j: nat, field: int, wireType: nat, m: InstanceWire.InstanceDesc | i < j <= |data|
      ensures InstanceWire.ReadField(data, i, j, field, wireType, m) != Err(IndexOutOfRange)
    {
      ReadIsSafe(data, j, Bits64);
      ReadIsSafe(data, j, Bits32);
      SkippingIsSafe(data[i..]);
      TokensAreSafe(data, j, wireType, m);
    }
  }

  lemma PairFieldsAreSafe()
    ensures NeverPanics(KvWire.ReadField)
  {
    forall data: seq<Byte>, i: nat, j: nat, field: int, wireType: nat, p: KvWire.KeyValuePair | i < j <= |data|
      ensures KvWire.ReadField(data, i, j, field, wireType, p) != Err(IndexOutOfRange)
    {
      ReadIsSafe(data, j, Bits64);
      SkippingIsSafe(data[i..]);
    }
  }

  /** The decoder of entries never panics, whatever it is given. */
  lemma InstanceDecodingIsSafe(data: seq<Byte>)
    ensures InstanceWire.DecodeInstance(data) != Err(IndexOutOfRange)
  {
    InstanceWire.FieldsAdvance();
    InstanceFieldsAreSafe();
    DecodingIsSafe(InstanceWire.ReadField, data, 0, InstanceWire.EMPTY);
  }

  /** Nor does the decoder of key-value pairs. */
  lemma PairDecodingIsSafe(data: seq<Byte>)
    ensures KvWire.DecodePair(data) != Err(IndexOutOfRange)
  {
    KvWire.FieldsAdvance();
    PairFieldsAreSafe();
    DecodingIsSafe(KvWire.ReadField, data, 0, KvWire.EMPTY);
  }

  // ---------------------------------------------------------------- what panics

  /** At p stands a field of an entry other than name and value, the claimed end of which is no int. */
  predicate ClaimsTooMuch(data: seq<Byte>, p: nat) {
    p < |data| &&
      match Read(data, p, Bits64)
      case Err(_) => false
      case Ok((wire, _)) =>
        FieldOf(wire) != 1 && FieldOf(wire) != 2 && Skip(data[p..]).Ok? && p + Skip(data[p..]).value >= TWO_63
  }

  /** Decoding an entry from i on gets to position k. */
  predicate EntryReaches(nested: Decoder, data: seq<Byte>, i: nat, post: nat, k: nat)
    requires post <= |data|
    decreases post - i
  {
    i == k || (
      i < post &&
        match ReadEntryField(nested, data, i, post, [], InstanceWire.EMPTY)
        case Err(_) => false
        case Ok((_, _, next)) => EntryReaches(nested, data, next, post, k))
  }

  /** What has been decoded so far does not matter for where decoding goes. */
  lemma EntryFieldEnds(
    nested: Decoder, data: seq<Byte>, i: nat, post: nat, name: Text, e: InstanceWire.InstanceDesc)
    requires i < |data|
    ensures var r, r0 := ReadEntryField(nested, data, i, post, name, e),
                         ReadEntryField(nested, data, i, post, [], InstanceWire.EMPTY);
      (r.Ok? <==> r0.Ok?) && (r.Ok? ==> r.value.2 == r0.value.2) && (r.Err? ==> r.error == r0.error)
  {
  }

  ghost predicate IsSafe(nested: Decoder) {
    forall s :: nested(s) != Err(IndexOutOfRange)
  }

  lemma EntryFieldPanics(nested: Decoder, data: seq<Byte>, i: nat, post: nat, name: Text, e: InstanceWire.InstanceDesc)
    requires IsSafe(nested) && i < |data|
    ensures ReadEntryField(nested, data, i, post, name, e) == Err(IndexOutOfRange) <==> ClaimsTooMuch(data, i)
  {
    ReadIsSafe(data, i, Bits64);
    SkippingIsSafe(data[i..]);
    if Read(data, i, Bits64).Ok? {
      ReadIsSafe(data, Read(data, i, Bits64).value.1, Bits64);
    }
  }

  /** Decoding an entry reaches such a field. */
  predicate EntryFieldAt(nested: Decoder, data: seq<Byte>, from: nat, to: nat, p: nat) {
    to <= |data| && p < to && EntryReaches(nested, data, from, to, p) && ClaimsTooMuch(data, p)
  }

  lemma {:induction false} EntryPanicsExactly(
    nested: Decoder, data: seq<Byte>, i: nat, post: nat, name: Text, e: InstanceWire.InstanceDesc)
    requires IsSafe(nested) && post <= |data|
    ensures DecodeEntry(nested, data, i, post, name, e) == Err(IndexOutOfRange)
      <==> exists p: nat :: EntryFieldAt(nested, data, i, post, p)
    decreases post - i
  {
    if i < post {
      EntryFieldPanics(nested, data, i, post, name, e);
      EntryFieldEnds(nested, data, i, post, name, e);
      match ReadEntryField(nested, data, i, post, name, e)
      case Err(_) =>
        assert EntryReaches(nested, data, i, post, i);
        if ClaimsTooMuch(data, i) { assert EntryFieldAt(nested, data, i, post, i); }
      case Ok((name', e', next)) =>
        EntryPanicsExactly(nested, data, next, post, name', e');
        forall p: nat | EntryFieldAt(nested, data, next, post, p) ensures EntryFieldAt(nested, data, i, post, p) {
        }
        forall p: nat | EntryFieldAt(nested, data, i, post, p) ensures EntryFieldAt(nested, data, next, post, p) {
        }
    }
  }

  /** Decoding a ring from i on gets to position k. */
  predicate Reaches(nested: Decoder, data: seq<Byte>, i: nat, k: nat)
    decreases |data| - i
  {
    i == k || (
      i < |data| &&
        match NextField(nested, data, i)
        case Err(_) => false
        case Ok(next) => Reaches(nested, data, next, k))
  }

  function NextField(nested: Decoder, data: seq<Byte>, i: nat): (r: Result<nat>)
    requires i < |data|
    ensures r.Ok? ==> i < r.value <= |data|
  {
    match Read(data, i, Bits64)
    case Err(e) => Err(e)
    case Ok((wire, j)) =>
      if wire % 8 == 4 then Err(EndGroup)
      else if FieldOf(wire) <= 0 then Err(IllegalTag)
      else
        match ReadFieldWith(nested, data, i, j, FieldOf(wire), wire % 8, map[])
        case Err(e) => Err(e)
        case Ok((_, next)) => Ok(next)
  }

  /** At q stands an entry of the map, with its content in between. */
  predicate EntryStandsAt(data: seq<Byte>, q: nat, from: nat, to: nat) {
    q < |data| &&
      match Read(data, q, Bits64)
      case Err(_) => false
      case Ok((wire, j)) => FieldOf(wire) == 1 && wire % 8 == 2 && ReadLength(data, j) == Ok((from, to))
  }

  ghost predicate PanicsIn(nested: Decoder, data: seq<Byte>, q: nat, from: nat, to: nat, p: nat) {
    EntryStandsAt(data, q, from, to) && EntryFieldAt(nested, data, from, to, p)
  }

  ghost predicate EntryAtPanics(nested: Decoder, data: seq<Byte>, q: nat) {
    exists from: nat, to: nat, p: nat :: PanicsIn(nested, data, q, from, to, p)
  }

  lemma EntryAtPanicsMeans(nested: Decoder, data: seq<Byte>, q: nat, wire: nat, j: nat)
    requires q < |data| && Read(data, q, Bits64) == Ok((wire, j))
    ensures EntryAtPanics(nested, data, q) <==> FieldOf(wire) == 1 && wire % 8 == 2 && LengthPanics(nested, data, j)
  {
    if EntryAtPanics(nested, data, q) {
      var from: nat, to: nat, p: nat :| PanicsIn(nested, data, q, from, to, p);
    }
    if FieldOf(wire) == 1 && wire % 8 == 2 && LengthPanics(nested, data, j) {
      var (from, to) := ReadLength(data, j).value;
      var p: nat :| EntryFieldAt(nested, data, from, to, p);
      assert PanicsIn(nested, data, q, from, to, p);
    }
  }

  /** The entry whose length stands at j panics. */
  ghost predicate LengthPanics(nested: Decoder, data: seq<Byte>, j: nat) {
    match ReadLength(data, j)
    case Err(_) => false
    case Ok((from, to)) => exists p: nat :: EntryFieldAt(nested, data, from, to, p)
  }

  lemma FieldPanics(nested: Decoder, data: seq<Byte>, i: nat, j: nat, field: int, wireType: nat, m: Desc)
    requires IsSafe(nested) && i < j <= |data|
    ensures ReadFieldWith(nested, data, i, j, field, wireType, m) == Err(IndexOutOfRange)
      <==> field == 1 && wireType == 2 && LengthPanics(nested, data, j)
    ensures var r, r0 := ReadFieldWith(nested, data, i, j, field, wireType, m),
                         ReadFieldWith(nested, data, i, j, field, wireType, map[]);
      (r.Ok? <==> r0.Ok?) && (r.Ok? ==> r.value.1 == r0.value.1)
  {
    ReadIsSafe(data, j, Bits64);
    SkippingIsSafe(data[i..]);
    if field == 1 && wireType == 2 && ReadLength(data, j).Ok? {
      var (from, to) := ReadLength(data, j).value;
      EntryPanicsExactly(nested, data, from, to, [], InstanceWire.EMPTY);
    }
  }

  /** One step of the decoding loop, for any way of reading fields that goes by ReadFieldWith. */
  lemma StepPanics(read: FieldReader<Desc>, nested: Decoder, data: seq<Byte>, i: nat, m: Desc)
    requires Uses(read, nested) && IsSafe(nested) && i < |data|
    ensures ReadOne(read, data, i, m) == Err(IndexOutOfRange) <==> EntryAtPanics(nested, data, i)
    ensures ReadOne(read, data, i, m).Ok? <==> NextField(nested, data, i).Ok?
    ensures ReadOne(read, data, i, m).Ok? ==> ReadOne(read, data, i, m).value.1 == NextField(nested, data, i).value
  {
    ReadIsSafe(data, i, Bits64);
    match Read(data, i, Bits64)
    case Err(_) =>
      assert !EntryAtPanics(nested, data, i);
    case Ok((wire, j)) =>
      var field, wireType := FieldOf(wire), wire % 8;
      assert read(data, i, j, field, wireType, m) == ReadFieldWith(nested, data, i, j, field, wireType, m);
      FieldPanics(nested, data, i, j, field, wireType, m);
      EntryAtPanicsMeans(nested, data, i, wire, j);
  }

  lemma {:induction false} DecodingPanicsExactly(
    read: FieldReader<Desc>, nested: Decoder, data: seq<Byte>, i: nat, m: Desc)
    requires Uses(read, nested) && Advances(read) && IsSafe(nested)
    ensures Decode(read, data, i, m) == Err(IndexOutOfRange)
      <==> exists q :: Reaches(nested, data, i, q) && EntryAtPanics(nested, data, q)
    decreases |data| - i
  {
    if i < |data| {
      StepPanics(read, nested, data, i, m);
      match ReadOne(read, data, i, m)
      case Err(_) =>
        assert Reaches(nested, data, i, i);
      case Ok((m', next)) =>
        DecodingPanicsExactly(read, nested, data, next, m');
        forall q | Reaches(nested, data, next, q) ensures Reaches(nested, data, i, q) {
        }
    }
  }

  /**
   * Decoding a ring panics if and only if it reaches an entry of the map, and in it a field other than name and value,
   * the claimed end of which is at or beyond 2 to the power of 63.
   */
  lemma DescPanicsExactly(data: seq<Byte>)
    ensures DecodeDesc(data) == Err(IndexOutOfRange) <==> exists q ::
      Reaches(InstanceWire.DecodeInstance, data, 0, q) && EntryAtPanics(InstanceWire.DecodeInstance, data, q)
  {
    DescFieldsAdvance();
    forall s ensures InstanceWire.DecodeInstance(s) != Err(IndexOutOfRange) {
      InstanceDecodingIsSafe(s);
    }
    DecodingPanicsExactly(ReadDescField, InstanceWire.DecodeInstance, data, 0, map[]);
  }

  /** Twelve bytes from anyone are enough: an entry with an unknown field of 2 to the power of 63 less 11 bytes. */
  const TWELVE: seq<Byte> := [0x0a, 0x0a, 0x1a, 0xf5, 0xff, 0xff, 0xff, 0xff, 0xff, 0xff, 0xff, 0x7f]

  lemma TwelveClaimTooMuch()
    ensures ClaimsTooMuch(TWELVE, 2)
  {
    var field: seq<Byte> := [0x1a, 0xf5, 0xff, 0xff, 0xff, 0xff, 0xff, 0xff, 0xff, 0x7f];
    assert TWELVE[2..] == field;
    assert ReadFrom(field, 9, 8) == Ok((0x7f, 10));
    assert ReadFrom(field, 8, 7) == Ok((0x3fff, 10));
    assert ReadFrom(field, 7, 6) == Ok((0x1f_ffff, 10));
    assert ReadFrom(field, 6, 5) == Ok((0xfff_ffff, 10));
    assert ReadFrom(field, 5, 4) == Ok((0x7_ffff_ffff, 10));
    assert ReadFrom(field, 4, 3) == Ok((0x3ff_ffff_ffff, 10));
    assert ReadFrom(field, 3, 2) == Ok((0x1_ffff_ffff_ffff, 10));
    assert ReadFrom(field, 2, 1) == Ok((0xff_ffff_ffff_ffff, 10));
    assert ReadFrom(field, 1, 0) == Ok((0x7fff_ffff_ffff_fff5, 10));
    assert Read(field, 0, Bits64) == Ok((0x1a, 1));
    assert Skip(field) == Ok(0x7fff_ffff_ffff_ffff);
    assert Read(TWELVE, 2, Bits64) == Ok((0x1a, 3));
  }

  lemma FirstFieldPanics(nested: Decoder, data: seq<Byte>, from: nat, to: nat)
    requires EntryStandsAt(data, 0, from, to) && from < to <= |data| && ClaimsTooMuch(data, from)
    ensures EntryAtPanics(nested, data, 0)
  {
    assert EntryReaches(nested, data, from, to, from);
    assert PanicsIn(nested, data, 0, from, to, from);
  }

  lemma TwelveHoldAnEntry()
    ensures EntryStandsAt(TWELVE, 0, 2, 12)
  {
    assert ReadFrom(TWELVE, 0, 0) == Ok((0x0a, 1)) && ReadFrom(TWELVE, 1, 0) == Ok((10, 2));
  }

  lemma TwelveBytesPanic()
    ensures DecodeDesc(TWELVE) == Err(IndexOutOfRange)
  {
    TwelveHoldAnEntry();
    TwelveClaimTooMuch();
    FirstFieldPanics(InstanceWire.DecodeInstance, TWELVE, 2, 12);
    assert Reaches(InstanceWire.DecodeInstance, TWELVE, 0, 0);
    DescPanicsExactly(TWELVE);
  }
}
