/**
 * The Protocol Buffers wire format, as far as the generated code in ProfileDTO.pb.go
 * relies on it: base-128 varints, the key `(field << 3) | wireType` that opens every
 * field, little-endian fixed32 payloads, length-delimited payloads, and the int32
 * sign extension used for varint-encoded int32 and enum fields.
 */
module Wire {
  import opened Wrappers

  newtype byte = x: int | 0 <= x < 0x100
  newtype int32 = x: int | -0x8000_0000 <= x < 0x8000_0000
  newtype uint32 = x: int | 0 <= x < 0x1_0000_0000

  const TwoTo32: nat := 0x1_0000_0000
  const TwoTo63: nat := 0x8000_0000_0000_0000
  const TwoTo64: nat := 0x1_0000_0000_0000_0000

  /** A uint64 varint never takes more than ten bytes. */
  const MaxVarintLen: nat := 10
  /** The largest field number a key may carry. */
  const MaxFieldNumber: nat := 0x1FFF_FFFF

  // The wire types of the format (proto.WireVarint ... proto.WireFixed32).
  const WireVarint: nat := 0
  const WireFixed64: nat := 1
  const WireBytes: nat := 2
  const WireStartGroup: nat := 3
  const WireEndGroup: nat := 4
  const WireFixed32: nat := 5

  datatype Error =
    | UnexpectedEOF             // the input ends inside a field
    | Overflow                  // a varint that does not end within ten bytes
    | BadByteLength             // a length prefix that is negative as a Go int
    | IllegalTag                // a key whose field number is zero
    | GroupNotModelled          // a start-group or end-group wire type
    | UnknownWireType           // wire type 6 or 7
    | BadWireType               // proto.ErrInternalBadWireType, raised by the oneof unmarshaler
    | WrongWireType(field: nat) // a declared field that arrives with another wire type
    | RequiredNotSet(name: string)

  /** The bytes of a base-128 varint: seven bits per byte, low group first, high bit set on all but the last. */
  function EncodeVarint(x: nat): (r: seq<byte>)
    ensures 1 <= |r|
    decreases x
  {
    if x < 0x80 then [x as byte]
    else [(x % 0x80 + 0x80) as byte] + EncodeVarint(x / 0x80)
  }

  /** Only the last byte of a varint has its high bit clear. */
  lemma {:induction false} VarintContinuationBits(x: nat)
    ensures var r := EncodeVarint(x);
            r[|r| - 1] < 0x80 && forall i :: 0 <= i < |r| - 1 ==> 0x80 <= r[i]
    decreases x
  {
    if 0x80 <= x {
      VarintContinuationBits(x / 0x80);
    }
  }

  /** The number of bytes a varint of a uint64 takes, by thresholds on its value. */
  function SizeVarint(x: nat): (n: nat)
    ensures 1 <= n <= MaxVarintLen
  {
    if x < 0x80 then 1
    else if x < 0x4000 then 2
    else if x < 0x20_0000 then 3
    else if x < 0x1000_0000 then 4
    else if x < 0x8_0000_0000 then 5
    else if x < 0x400_0000_0000 then 6
    else if x < 0x2_0000_0000_0000 then 7
    else if x < 0x100_0000_0000_0000 then 8
    else if x < 0x8000_0000_0000_0000 then 9
    else 10
  }

  lemma SizeVarintStep(x: nat)
    requires 0x80 <= x < TwoTo64
    ensures SizeVarint(x) == 1 + SizeVarint(x / 0x80)
  {
  }

  /** SizeVarint counts exactly the bytes EncodeVarint emits, for every uint64. */
  lemma {:induction false} VarintSize(x: nat)
    requires x < TwoTo64
    ensures |EncodeVarint(x)| == SizeVarint(x)
    decreases x
  {
    if 0x80 <= x {
      SizeVarintStep(x);
      VarintSize(x / 0x80);
    }
  }

  datatype Varint = Varint(value: nat, len: nat)

  /** Reads a varint from the front of s, looking at no more than budget bytes. */
  function VarintPrefix(s: seq<byte>, budget: nat): (r: Result<Varint, Error>)
    ensures r.Success? ==> 1 <= r.value.len <= |s| && r.value.len <= budget
    decreases budget
  {
    if budget == 0 then Failure(Overflow)
    else if |s| == 0 then Failure(UnexpectedEOF)
    else if s[0] < 0x80 then Success(Varint(s[0] as nat, 1))
    else
      match VarintPrefix(s[1..], budget - 1)
      case Failure(e) => Failure(e)
      case Success(v) => Success(Varint(s[0] as int - 0x80 + 0x80 * v.value, v.len + 1))
  }

  /**
   * Reads a uint64 varint (Buffer.DecodeVarint): at most ten bytes, bits beyond
   * the 64th dropped.
   */
  function DecodeVarint(s: seq<byte>): (r: Result<Varint, Error>)
    ensures r.Success? ==> r.value.value < TwoTo64 && 1 <= r.value.len <= |s| && r.value.len <= MaxVarintLen
  {
    match VarintPrefix(s, MaxVarintLen)
    case Failure(e) => Failure(e)
    case Success(v) => Success(Varint(v.value % TwoTo64, v.len))
  }

  lemma {:induction false} VarintPrefixOfEncoding(x: nat, rest: seq<byte>, budget: nat)
    requires |EncodeVarint(x)| <= budget
    ensures VarintPrefix(EncodeVarint(x) + rest, budget) == Success(Varint(x, |EncodeVarint(x)|))
    decreases x
  {
    if 0x80 <= x {
      var s := EncodeVarint(x) + rest;
      assert s[1..] == EncodeVarint(x / 0x80) + rest;
      VarintPrefixOfEncoding(x / 0x80, rest, budget - 1);
    }
  }

  /** A varint reads back as the value written and takes SizeVarint bytes, whatever follows it. */
  lemma DecodeEncodeVarint(x: nat, rest: seq<byte>)
    requires x < TwoTo64
    ensures DecodeVarint(EncodeVarint(x) + rest) == Success(Varint(x, SizeVarint(x)))
  {
    VarintSize(x);
    var n := |EncodeVarint(x)|;
    assert n <= MaxVarintLen;
    VarintPrefixOfEncoding(x, rest, MaxVarintLen);
    assert VarintPrefix(EncodeVarint(x) + rest, MaxVarintLen) == Success(Varint(x, n));
    assert x % TwoTo64 == x;
  }

  /** The key `(field << 3) | wire` written in front of a field. */
  function Key(field: nat, wire: nat): (k: nat)
    requires wire < 8
    ensures k / 8 == field && k % 8 == wire
  {
    field * 8 + wire
  }

  datatype FieldKey = FieldKey(field: nat, wire: nat, len: nat)

  /** Reads a key: field number `key >> 3`, wire type `key & 7`; field number zero is illegal. */
  function ReadKey(s: seq<byte>): (r: Result<FieldKey, Error>)
    ensures r.Success? ==> 1 <= r.value.field && r.value.wire < 8 && 1 <= r.value.len <= |s|
  {
    match DecodeVarint(s)
    case Failure(e) => Failure(e)
    case Success(v) =>
      if v.value / 8 == 0 then Failure(IllegalTag)
      else Success(FieldKey(v.value / 8, v.value % 8, v.len))
  }

  /** A key written for a legal field number reads back as that field and wire type. */
  lemma ReadEncodedKey(field: nat, wire: nat, rest: seq<byte>)
    requires 1 <= field <= MaxFieldNumber && wire < 8
    ensures ReadKey(EncodeVarint(Key(field, wire)) + rest)
         == Success(FieldKey(field, wire, SizeVarint(Key(field, wire))))
  {
    DecodeEncodeVarint(Key(field, wire), rest);
  }

  /** uint64(x) for an int32 x: a negative value is sign-extended, so it takes ten varint bytes. */
  function Int32ToUint64(i: int32): (u: nat)
    ensures u < TwoTo64
    ensures i < 0 <==> TwoTo63 <= u
  {
    if i < 0 then i as int + TwoTo64 else i as nat
  }

  /** int32(u): the low 32 bits of u read as a two's-complement number. */
  function Uint64ToInt32(u: nat): (i: int32)
    ensures i as int % TwoTo32 == u % TwoTo32
  {
    var low := u % TwoTo32;
    if low < 0x8000_0000 then low as int32 else (low - TwoTo32) as int32
  }

  lemma Int32RoundTrip(i: int32)
    ensures Uint64ToInt32(Int32ToUint64(i)) == i
  {
    if i < 0 {
      var u := Int32ToUint64(i);
      assert u == (TwoTo32 - 1) * TwoTo32 + (i as int + TwoTo32);
      assert u % TwoTo32 == i as int + TwoTo32;
    }
  }

  /** A fixed32 payload: four bytes, least significant first. */
  function EncodeFixed32(v: uint32): (r: seq<byte>)
    ensures |r| == 4
  {
    var q1 := v as int / 0x100;
    var q2 := q1 / 0x100;
    var q3 := q2 / 0x100;
    [(v as int % 0x100) as byte, (q1 % 0x100) as byte, (q2 % 0x100) as byte, q3 as byte]
  }

  function DecodeFixed32(s: seq<byte>): uint32
    requires 4 <= |s|
  {
    (s[0] as int + 0x100 * (s[1] as int) + 0x1_0000 * (s[2] as int) + 0x100_0000 * (s[3] as int)) as uint32
  }

  lemma Fixed32RoundTrip(v: uint32, rest: seq<byte>)
    ensures DecodeFixed32(EncodeFixed32(v) + rest) == v
  {
    var q1 := v as int / 0x100;
    var q2 := q1 / 0x100;
    var q3 := q2 / 0x100;
    assert v as int == v as int % 0x100 + 0x100 * q1;
    assert q1 == q1 % 0x100 + 0x100 * q2;
    assert q2 == q2 % 0x100 + 0x100 * q3;
  }

  /** A payload as read for its wire type; only varint and fixed32 values are interpreted. */
  datatype Payload =
    | VarintPayload(value: nat)
    | Fixed64Payload(raw: seq<byte>)
    | BytesPayload(bytes: seq<byte>)
    | Fixed32Payload(bits: uint32)

  datatype PayloadRead = PayloadRead(payload: Payload, len: nat)

  /** A length-delimited span: the payload occupies s[start..end], after a varint length. */
  datatype Span = Span(start: nat, end: nat)

  /** Reads a varint length and checks that it fits a Go int and the bytes that remain. */
  function ReadDelimited(s: seq<byte>): (r: Result<Span, Error>)
    ensures r.Success? ==> 1 <= r.value.start <= r.value.end <= |s|
  {
    match DecodeVarint(s)
    case Failure(e) => Failure(e)
    case Success(n) =>
      if TwoTo63 <= n.value then Failure(BadByteLength)
      else if |s| < n.len + n.value then Failure(UnexpectedEOF)
      else Success(Span(n.len, n.len + n.value))
  }

  /** Reads the payload that follows a key of the given wire type. */
  function ReadPayload(wire: nat, s: seq<byte>): (r: Result<PayloadRead, Error>)
    ensures r.Success? ==> r.value.len <= |s|
    ensures r.Success? ==> (wire == WireVarint <==> r.value.payload.VarintPayload?)
    ensures r.Success? ==> (wire == WireFixed32 <==> r.value.payload.Fixed32Payload?)
  {
    if wire == WireVarint then
      match DecodeVarint(s)
      case Failure(e) => Failure(e)
      case Success(v) => Success(PayloadRead(VarintPayload(v.value), v.len))
    else if wire == WireFixed64 then
      if |s| < 8 then Failure(UnexpectedEOF) else Success(PayloadRead(Fixed64Payload(s[..8]), 8))
    else if wire == WireBytes then
      match ReadDelimited(s)
      case Failure(e) => Failure(e)
      case Success(sp) => Success(PayloadRead(BytesPayload(s[sp.start..sp.end]), sp.end))
    else if wire == WireFixed32 then
      if |s| < 4 then Failure(UnexpectedEOF) else Success(PayloadRead(Fixed32Payload(DecodeFixed32(s)), 4))
    else if wire == WireStartGroup || wire == WireEndGroup then
      Failure(GroupNotModelled)
    else
      Failure(UnknownWireType)
  }

  // ---------------------------------------------------------------- reads look only at what they consume

  /** A varint that reads from s within its first n bytes reads the same from any u that starts with those bytes. */
  lemma {:induction false} VarintPrefixAgrees(s: seq<byte>, u: seq<byte>, n: nat, budget: nat)
    requires n <= |s| && n <= |u| && s[..n] == u[..n]
    requires VarintPrefix(s, budget).Success? && VarintPrefix(s, budget).value.len <= n
    ensures VarintPrefix(u, budget) == VarintPrefix(s, budget)
    decreases budget
  {
    assert s[0] == s[..n][0] == u[..n][0] == u[0];
    if 0x80 <= s[0] {
      assert s[1..][..n - 1] == s[..n][1..] == u[..n][1..] == u[1..][..n - 1];
      VarintPrefixAgrees(s[1..], u[1..], n - 1, budget - 1);
    }
  }

  lemma DecodeVarintAgrees(s: seq<byte>, u: seq<byte>, n: nat)
    requires n <= |s| && n <= |u| && s[..n] == u[..n]
    requires DecodeVarint(s).Success? && DecodeVarint(s).value.len <= n
    ensures DecodeVarint(u) == DecodeVarint(s)
  {
    VarintPrefixAgrees(s, u, n, MaxVarintLen);
  }

  /** A key read from the first n bytes of s reads the same from any u that starts with those bytes. */
  lemma ReadKeyAgrees(s: seq<byte>, u: seq<byte>, n: nat)
    requires n <= |s| && n <= |u| && s[..n] == u[..n]
    requires ReadKey(s).Success? && ReadKey(s).value.len <= n
    ensures ReadKey(u) == ReadKey(s)
  {
    DecodeVarintAgrees(s, u, n);
  }

  /** A length-delimited payload that lies within the first n bytes of s reads the same from u. */
  lemma ReadDelimitedAgrees(s: seq<byte>, u: seq<byte>, n: nat)
    requires n <= |s| && n <= |u| && s[..n] == u[..n]
    requires ReadDelimited(s).Success? && ReadDelimited(s).value.end <= n
    ensures ReadDelimited(u) == ReadDelimited(s)
  {
    DecodeVarintAgrees(s, u, n);
  }

  /** A payload read from the first n bytes of s reads the same from any u that starts with those bytes. */
  lemma ReadPayloadAgrees(wire: nat, s: seq<byte>, u: seq<byte>, n: nat)
    requires n <= |s| && n <= |u| && s[..n] == u[..n]
    requires ReadPayload(wire, s).Success? && ReadPayload(wire, s).value.len <= n
    ensures ReadPayload(wire, u) == ReadPayload(wire, s)
  {
    if wire == WireVarint {
      DecodeVarintAgrees(s, u, n);
    } else if wire == WireFixed64 {
      assert s[..8] == s[..n][..8] == u[..n][..8] == u[..8];
    } else if wire == WireBytes {
      ReadDelimitedAgrees(s, u, n);
      var sp := ReadDelimited(s).value;
      assert s[sp.start..sp.end] == s[..n][sp.start..sp.end] == u[..n][sp.start..sp.end] == u[sp.start..sp.end];
    } else if wire == WireFixed32 {
      assert s[..4] == s[..n][..4] == u[..n][..4] == u[..4];
      assert s[0] == u[0] && s[1] == u[1] && s[2] == u[2] && s[3] == u[3] by {
        assert s[..4][0] == s[0] && s[..4][1] == s[1] && s[..4][2] == s[2] && s[..4][3] == s[3];
        assert u[..4][0] == u[0] && u[..4][1] == u[1] && u[..4][2] == u[2] && u[..4][3] == u[3];
      }
    }
  }
}
