/** Rings as they are merged and rings as they are encoded (ring/model.go, ring/ring.pb.go). */
module RingOnWire {
  import opened RingTypes
  import opened Conflicts
  import opened MergeSpec
  import MergeLaws
  import Varints
  import InstanceWire
  import DescWire

  // A Go string is a string of bytes: here one whose characters are below 256.

  type Bytes = seq<Varints.Byte>

  predicate IsGoString(s: string) {
    forall i :: 0 <= i < |s| ==> s[i] as int < 256
  }

  function ToBytes(s: string): Bytes {
    seq(|s|, i requires 0 <= i < |s| => s[i] as int % 256)
  }

  function FromBytes(b: Bytes): (s: string)
    ensures IsGoString(s) && ToBytes(s) == b
  {
    seq(|b|, i requires 0 <= i < |b| => b[i] as char)
  }

  lemma GoStringsAreBytes(s: string)
    requires IsGoString(s)
    ensures FromBytes(ToBytes(s)) == s
  {
  }

  /** The numbers of the states. */
  function StateNumber(state: InstanceState): int {
    match state
    case ACTIVE => 0
    case LEAVING => 1
    case PENDING => 2
    case JOINING => 3
    case LEFT => 4
  }

  predicate IsInt64(v: int) {
    -Varints.TWO_63 <= v < Varints.TWO_63
  }

  /** Entries, and rings, that can be encoded: the timestamps are of 64 bits. */
  predicate Fits(e: InstanceDesc) {
    IsGoString(e.addr) && IsGoString(e.zone) && IsInt64(e.timestamp) && IsInt64(e.registeredTimestamp)
  }

  predicate RingFits(m: Ingesters) {
    forall k :: k in m ==> IsGoString(k) && Fits(m[k])
  }

  function EntryToWire(e: InstanceDesc): InstanceWire.InstanceDesc
    requires Fits(e)
  {
    InstanceWire.InstanceDesc(
      ToBytes(e.addr), e.timestamp, StateNumber(e.state), e.tokens, ToBytes(e.zone), e.registeredTimestamp)
  }

  /** None if the number of the state is not known. */
  function EntryFromWire(w: InstanceWire.InstanceDesc): Option<InstanceDesc> {
    match StateOf(w.state)
    case None => None
    case Some(state) =>
      Some(InstanceDesc(FromBytes(w.addr), w.timestamp, state, w.tokens, FromBytes(w.zone), w.registeredTimestamp))
  }

  function StateOf(number: int): Option<InstanceState> {
    match number
    case 0 => Some(ACTIVE)
    case 1 => Some(LEAVING)
    case 2 => Some(PENDING)
    case 3 => Some(JOINING)
    case 4 => Some(LEFT)
    case _ => None
  }

  lemma EntryComesBack(e: InstanceDesc)
    requires Fits(e)
    ensures EntryFromWire(EntryToWire(e)) == Some(e)
  {
    GoStringsAreBytes(e.addr);
    GoStringsAreBytes(e.zone);
  }

  lemma EntryGoesBack(w: InstanceWire.InstanceDesc)
    requires EntryFromWire(w).Some?
    ensures Fits(EntryFromWire(w).value) && EntryToWire(EntryFromWire(w).value) == w
  {
  }

  function ToWire(m: Ingesters): DescWire.Desc
    requires RingFits(m)
  {
    map b | b in (set k | k in m :: ToBytes(k)) && FromBytes(b) in m :: EntryToWire(m[FromBytes(b)])
  }

  /** The ring that has been decoded, if all states are known. */
  function FromWire(w: DescWire.Desc): Option<Ingesters> {
    if exists b :: b in w && EntryFromWire(w[b]).None? then None
    else Some(map s | s in (set b | b in w :: FromBytes(b)) && ToBytes(s) in w :: EntryFromWire(w[ToBytes(s)]).value)
  }

  lemma NameOnWire(m: Ingesters, k: string)
    requires RingFits(m) && IsGoString(k)
    ensures ToBytes(k) in ToWire(m) <==> k in m
    ensures k in m ==> ToWire(m)[ToBytes(k)] == EntryToWire(m[k])
  {
    GoStringsAreBytes(k);
  }

  lemma RingComesBack(m: Ingesters)
    requires RingFits(m)
    ensures FromWire(ToWire(m)) == Some(m)
  {
    var w := ToWire(m);
    forall b | b in w ensures EntryFromWire(w[b]) == Some(m[FromBytes(b)]) {
      EntryComesBack(m[FromBytes(b)]);
    }
    assert FromWire(w).Some?;
    var r := FromWire(w).value;
    forall k ensures (k in r <==> k in m) && (k in m ==> r[k] == m[k]) {
      NameComesBack(m, k);
    }
    assert r == m;
  }

  lemma NameComesBack(m: Ingesters, k: string)
    requires RingFits(m) && FromWire(ToWire(m)).Some?
    ensures var r := FromWire(ToWire(m)).value; (k in r <==> k in m) && (k in m ==> r[k] == m[k])
  {
    var w := ToWire(m);
    if k in m {
      NameOnWire(m, k);
      GoStringsAreBytes(k);
      EntryComesBack(m[k]);
      assert k in set b | b in w :: FromBytes(b) by {
        assert FromBytes(ToBytes(k)) == k;
      }
    } else if k in FromWire(w).value {
      NameOnWire(m, k);
    }
  }

  /** What is decoded from the bytes, if it is a ring with known states. */
  function Received(data: Bytes): Option<Ingesters> {
    match DescWire.DecodeDesc(data)
    case Err(_) => None
    case Ok(w) => FromWire(w)
  }

  /** The bytes are an encoding of the ring, with the entries in some order. */
  ghost predicate Encodes(data: Bytes, m: Ingesters) {
    && RingFits(m) && |data| < Varints.TWO_63
    && exists order :: DescWire.IsOrder(ToWire(m), order) && data == DescWire.DescBytes(ToWire(m), order)
  }

  /** The codec of the ring, apart from compression. */
  method Encode(m: Ingesters) returns (data: Bytes)
    requires RingFits(m)
    ensures |data| < Varints.TWO_63 ==> Encodes(data, m)
  {
    ghost var order;
    data, order := DescWire.MarshalDesc(ToWire(m));
  }

  method Decode(data: Bytes) returns (r: Option<Ingesters>)
    ensures r == Received(data)
  {
    var w := DescWire.UnmarshalDesc(data);
    r := if w.Err? then None else FromWire(w.value);
  }

  /** Whoever receives an encoded ring has the ring that was sent. */
  lemma RingRoundTrip(data: Bytes, m: Ingesters)
    requires Encodes(data, m)
    ensures Received(data) == Some(m)
  {
    var order :| DescWire.IsOrder(ToWire(m), order) && data == DescWire.DescBytes(ToWire(m), order);
    DescWire.DescRoundTrip(ToWire(m), order);
    RingComesBack(m);
  }

  /** Merging rings that can be encoded gives rings that can be encoded. */
  lemma MergeFits(d: Ingesters, b: Ingesters, cas: bool, now: int)
    requires RingFits(d) && RingFits(b) && IsInt64(now)
    ensures RingFits(MergeState(d, b, cas, now))
    ensures MergeChange(d, b, cas, now).Some? ==> RingFits(MergeChange(d, b, cas, now).value)
  {
    var e := Entries(d, b, cas, now);
    ResolvedKeepsTheRest(e);
    forall k | k in e ensures IsGoString(k) && Fits(e[k]) && Fits(Resolved(e)[k]) {
      assert Resolved(e)[k].(tokens := e[k].tokens) == e[k];
    }
  }

  /**
   * Gossip from end to end: a node in state d merges b and sends the encoded change; a peer in the same state that
   * decodes it and merges what it gets ends in the state of the node, unless the clock was behind a buried entry.
   */
  lemma PeerCatchesUp(d: Ingesters, b: Ingesters, cas: bool, now: int, later: int, data: Bytes)
    requires Clean(d) && Normal(b) && RingFits(d) && RingFits(b) && IsInt64(now)
    requires MergeChange(d, b, cas, now).Some? && Encodes(data, MergeChange(d, b, cas, now).value)
    ensures Received(data).Some?
    ensures Merged(d, Received(data).value, false, later) == MergeState(d, b, cas, now)
      <==> MergeLaws.ClockCoversBuried(d, b, cas, now)
  {
    RingRoundTrip(data, MergeChange(d, b, cas, now).value);
    MergeLaws.ChangeSuffices(d, b, cas, now, later);
  }
}
