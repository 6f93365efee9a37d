/** The entries of the ring and the token lists they hold (ring/ring.proto, ring/model.go). */
module RingTypes {

  datatype Option<+T> = None | Some(value: T)

  datatype InstanceState = ACTIVE | LEAVING | PENDING | JOINING | LEFT

  /** Tokens are unsigned 32-bit numbers. */
  const TOKEN_SPACE: int := 0x1_0000_0000
  type Token = t: int | 0 <= t < TOKEN_SPACE

  datatype InstanceDesc = InstanceDesc(
    addr: string,
    timestamp: int,
    state: InstanceState,
    tokens: seq<Token>,
    zone: string,
    registeredTimestamp: int)

  /** The content of a ring: one entry per instance ID. */
  type Ingesters = map<string, InstanceDesc>

  /** What reading a missing key of a Go map of entries yields. */
  const ABSENT: InstanceDesc := InstanceDesc("", 0, ACTIVE, [], "", 0)

  function Lookup(m: Ingesters, name: string): InstanceDesc {
    if name in m then m[name] else ABSENT
  }

  /** The order in which Go compares strings. */
  predicate Less(a: string, b: string) {
    |b| > 0 && (|a| == 0 || a[0] < b[0] || (a[0] == b[0] && Less(a[1..], b[1..])))
  }

  lemma {:induction false} LessIsTotal(a: string, b: string)
    ensures a == b ==> !Less(a, b)
    ensures a != b ==> Less(a, b) != Less(b, a)
  {
    if |a| > 0 && |b| > 0 {
      LessIsTotal(a[1..], b[1..]);
      assert a == [a[0]] + a[1..];
      assert b == [b[0]] + b[1..];
    }
  }

  lemma {:induction false} LessIsTransitive(a: string, b: string, c: string)
    requires Less(a, b) && Less(b, c)
    ensures Less(a, c)
  {
    if |a| > 0 && a[0] == b[0] == c[0] {
      LessIsTransitive(a[1..], b[1..], c[1..]);
    }
  }
}
