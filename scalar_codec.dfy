/**
 * Struct tags, and a codec driven by them for the messages whose fields are all
 * int32/enum (varint) or float32 (fixed32) scalars: the VM profile, the PM profile
 * and the commodity profile. The i-th struct tag of such a message declares field
 * number i + 1, and the i-th entry of Message.fields holds that field when present.
 *
 * Encoding emits the present fields in field-number order and then the unrecognized
 * bytes. Decoding reads field after field: a declared field arriving with its wire
 * type overwrites the field (the last occurrence wins), with another wire type it is
 * an error, and an undeclared field is kept byte for byte, key included, in the
 * unrecognized tail. A decoded message that misses a required field is an error.
 */
module ScalarCodec {
  import opened Wrappers
  import opened Wire

  /** The wire kind a struct tag names: `varint`, `fixed32` or `bytes`. */
  datatype WireKind = VarintKind | Fixed32Kind | BytesKind

  /** Whether a field is `req`, `opt`, `rep`, or a member of a oneof. */
  datatype Status = Required | Optional | Repeated | OneofMember

  /** A struct tag such as `protobuf:"fixed32,2,opt,name=capacity"`. */
  datatype StructTag = StructTag(name: string, number: nat, kind: WireKind, status: Status)

  function WireTypeOf(k: WireKind): (w: nat)
    ensures w < 8
  {
    match k
    case VarintKind => WireVarint
    case Fixed32Kind => WireFixed32
    case BytesKind => WireBytes
  }

  /** The tags of a message this codec handles: fields 1..n, scalar, required or optional. */
  predicate ScalarTags(tags: seq<StructTag>)
  {
    && |tags| <= MaxFieldNumber
    && forall i :: 0 <= i < |tags| ==>
         && tags[i].number == i + 1
         && tags[i].kind != BytesKind
         && (tags[i].status == Required || tags[i].status == Optional)
  }

  datatype Scalar = Int32Value(i: int32) | Fixed32Value(bits: uint32)

  /** A scalar message: one optional slot per declared field, and the unrecognized bytes. */
  datatype Message = Message(fields: seq<Option<Scalar>>, unrecognized: seq<byte>)

  function KindOf(s: Scalar): WireKind
  {
    match s
    case Int32Value(_) => VarintKind
    case Fixed32Value(_) => Fixed32Kind
  }

  /** Every present field holds a value of the kind its tag declares. */
  predicate Conforms(tags: seq<StructTag>, m: Message)
  {
    && |m.fields| == |tags|
    && forall i :: 0 <= i < |tags| && m.fields[i].Some? ==> KindOf(m.fields[i].value) == tags[i].kind
  }

  predicate RequiredPresent(tags: seq<StructTag>, m: Message)
    requires |m.fields| == |tags|
  {
    forall i :: 0 <= i < |tags| && tags[i].status == Required ==> m.fields[i].Some?
  }

  /** The message every decode starts from: no field set, nothing unrecognized. */
  function Empty(tags: seq<StructTag>): (m: Message)
    ensures Conforms(tags, m)
    ensures forall i :: 0 <= i < |tags| ==> m.fields[i].None?
    ensures m.unrecognized == []
  {
    Message(seq(|tags|, _ => None), [])
  }

  // ---------------------------------------------------------------- encoding

  function EncodeScalar(s: Scalar): seq<byte>
  {
    match s
    case Int32Value(i) => EncodeVarint(Int32ToUint64(i))
    case Fixed32Value(b) => EncodeFixed32(b)
  }

  function EncodeField(number: nat, s: Scalar): seq<byte>
  {
    EncodeVarint(Key(number, WireTypeOf(KindOf(s)))) + EncodeScalar(s)
  }

  /** The present fields from slot i on, each under field number slot + 1, in order. */
  function EncodeFieldsFrom(fields: seq<Option<Scalar>>, i: nat): seq<byte>
    decreases |fields| - i
  {
    if |fields| <= i then []
    else (if fields[i].Some? then EncodeField(i + 1, fields[i].value) else []) + EncodeFieldsFrom(fields, i + 1)
  }

  /** Marshal: the present fields in field-number order, then the unrecognized bytes verbatim. */
  function Marshal(m: Message): seq<byte>
  {
    EncodeFieldsFrom(m.fields, 0) + m.unrecognized
  }

  // ---------------------------------------------------------------- sizing

  function ScalarSize(s: Scalar): nat
  {
    match s
    case Int32Value(i) => SizeVarint(Int32ToUint64(i))
    case Fixed32Value(_) => 4
  }

  function SizeFrom(fields: seq<Option<Scalar>>, i: nat): nat
    decreases |fields| - i
  {
    if |fields| <= i then 0
    else
      (if fields[i].Some?
       then SizeVarint(Key(i + 1, WireTypeOf(KindOf(fields[i].value)))) + ScalarSize(fields[i].value)
       else 0)
      + SizeFrom(fields, i + 1)
  }

  /** proto.Size: the size computed field by field, without encoding. */
  function Size(m: Message): nat
  {
    SizeFrom(m.fields, 0) + |m.unrecognized|
  }

  lemma {:induction false} SizeFromIsLength(fields: seq<Option<Scalar>>, i: nat)
    requires |fields| <= MaxFieldNumber
    ensures SizeFrom(fields, i) == |EncodeFieldsFrom(fields, i)|
    decreases |fields| - i
  {
    if i < |fields| {
      if fields[i].Some? {
        var s := fields[i].value;
        VarintSize(Key(i + 1, WireTypeOf(KindOf(s))));
        if s.Int32Value? {
          VarintSize(Int32ToUint64(s.i));
        }
      }
      SizeFromIsLength(fields, i + 1);
    }
  }

  /** The size agrees with the number of bytes Marshal emits. */
  lemma SizeIsLength(m: Message)
    requires |m.fields| <= MaxFieldNumber
    ensures Size(m) == |Marshal(m)|
  {
    SizeFromIsLength(m.fields, 0);
  }

  // ---------------------------------------------------------------- decoding

  function ScalarOf(p: Payload): Scalar
    requires p.VarintPayload? || p.Fixed32Payload?
  {
    match p
    case VarintPayload(v) => Int32Value(Uint64ToInt32(v))
    case Fixed32Payload(b) => Fixed32Value(b)
  }

  /** What one decoding step leads to: an error, or the input left and the message so far. */
  datatype Step = Stop(error: Error) | Next(rest: seq<byte>, acc: Message)

  /** Decodes the field at the front of s into acc. */
  function DecodeStep(tags: seq<StructTag>, s: seq<byte>, acc: Message): (r: Step)
    requires ScalarTags(tags) && Conforms(tags, acc) && |s| != 0
    ensures r.Next? ==> |r.rest| < |s| && Conforms(tags, r.acc)
  {
    match ReadKey(s)
    case Failure(e) => Stop(e)
    case Success(k) =>
      var rest := s[k.len..];
      if k.field <= |tags| then
        if k.wire != WireTypeOf(tags[k.field - 1].kind) then Stop(WrongWireType(k.field))
        else
          match ReadPayload(k.wire, rest)
          case Failure(e) => Stop(e)
          case Success(p) => Next(rest[p.len..], acc.(fields := acc.fields[k.field - 1 := Some(ScalarOf(p.payload))]))
      else
        match ReadPayload(k.wire, rest)
        case Failure(e) => Stop(e)
        case Success(p) => Next(rest[p.len..], acc.(unrecognized := acc.unrecognized + s[..k.len + p.len]))
  }

  /** Decodes the fields in s into acc, stopping at the first error with what was decoded so far. */
  function DecodeFields(tags: seq<StructTag>, s: seq<byte>, acc: Message): (r: (Message, Option<Error>))
    requires ScalarTags(tags) && Conforms(tags, acc)
    ensures Conforms(tags, r.0)
    decreases |s|
  {
    if |s| == 0 then (acc, None)
    else
      match DecodeStep(tags, s, acc)
      case Stop(e) => (acc, Some(e))
      case Next(rest, acc') => DecodeFields(tags, rest, acc')
  }

  /** The first required slot from i on that is unset, if any. */
  function FirstMissing(tags: seq<StructTag>, fields: seq<Option<Scalar>>, i: nat): (r: Option<nat>)
    requires |fields| == |tags|
    ensures r.None? ==> forall j :: i <= j < |tags| && tags[j].status == Required ==> fields[j].Some?
    ensures r.Some? ==> i <= r.value < |tags| && tags[r.value].status == Required && fields[r.value].None?
    decreases |tags| - i
  {
    if |tags| <= i then None
    else if tags[i].status == Required && fields[i].None? then Some(i)
    else FirstMissing(tags, fields, i + 1)
  }

  /** Unmarshal: decode from the empty message, then check the required fields. */
  function Unmarshal(tags: seq<StructTag>, s: seq<byte>): (r: (Message, Option<Error>))
    requires ScalarTags(tags)
    ensures Conforms(tags, r.0)
    ensures r.1.None? ==> RequiredPresent(tags, r.0)
  {
    var (m, err) := DecodeFields(tags, s, Empty(tags));
    if err.Some? then (m, err)
    else
      match FirstMissing(tags, m.fields, 0)
      case Some(i) => (m, Some(RequiredNotSet(tags[i].name)))
      case None => (m, None)
  }

  // ---------------------------------------------------------------- round trip

  /** s is a sequence of whole fields, none of them declared by tags. */
  predicate UnknownOnly(tags: seq<StructTag>, s: seq<byte>)
    decreases |s|
  {
    if |s| == 0 then true
    else
      match ReadKey(s)
      case Failure(_) => false
      case Success(k) =>
        && |tags| < k.field
        && match ReadPayload(k.wire, s[k.len..])
           case Failure(_) => false
           case Success(p) => UnknownOnly(tags, s[k.len + p.len..])
  }

  lemma AppendSplit(a: seq<byte>, s: seq<byte>, n: nat)
    requires n <= |s|
    ensures (a + s[..n]) + s[n..] == a + s
  {
    assert s[..n] + s[n..] == s;
  }

  /** An undeclared field at the front goes, as it came, to the end of the unrecognized bytes. */
  lemma UnknownStep(tags: seq<StructTag>, s: seq<byte>, acc: Message) returns (n: nat)
    requires ScalarTags(tags) && Conforms(tags, acc) && UnknownOnly(tags, s) && |s| != 0
    ensures 1 <= n <= |s| && UnknownOnly(tags, s[n..])
    ensures DecodeFields(tags, s, acc) == DecodeFields(tags, s[n..], acc.(unrecognized := acc.unrecognized + s[..n]))
  {
    var k := ReadKey(s).value;
    var p := ReadPayload(k.wire, s[k.len..]).value;
    assert s[k.len..][p.len..] == s[k.len + p.len..];
    n := k.len + p.len;
    assert DecodeStep(tags, s, acc) == Next(s[n..], acc.(unrecognized := acc.unrecognized + s[..n]));
  }

  /** Undeclared fields are appended to the unrecognized bytes exactly as they came. */
  lemma {:induction false} UnknownFieldsKept(tags: seq<StructTag>, s: seq<byte>, acc: Message)
    requires ScalarTags(tags) && Conforms(tags, acc) && UnknownOnly(tags, s)
    ensures DecodeFields(tags, s, acc) == (acc.(unrecognized := acc.unrecognized + s), None)
    decreases |s|
  {
    if |s| == 0 {
      assert acc.unrecognized + s == acc.unrecognized;
    } else {
      var n := UnknownStep(tags, s, acc);
      var acc' := acc.(unrecognized := acc.unrecognized + s[..n]);
      UnknownFieldsKept(tags, s[n..], acc');
      AppendSplit(acc.unrecognized, s, n);
    }
  }

  /** A non-empty run of whole undeclared fields starts with one such field. */
  lemma UnknownOnlyHead(tags: seq<StructTag>, s: seq<byte>) returns (k: FieldKey, p: PayloadRead)
    requires UnknownOnly(tags, s) && |s| != 0
    ensures ReadKey(s) == Success(k) && |tags| < k.field
    ensures ReadPayload(k.wire, s[k.len..]) == Success(p)
    ensures UnknownOnly(tags, s[k.len + p.len..])
  {
    k := ReadKey(s).value;
    p := ReadPayload(k.wire, s[k.len..]).value;
  }

  /** An undeclared field in front of a run of whole undeclared fields makes a longer run. */
  lemma UnknownOnlyCons(tags: seq<StructTag>, s: seq<byte>, k: FieldKey, p: PayloadRead)
    requires ReadKey(s) == Success(k) && |tags| < k.field
    requires ReadPayload(k.wire, s[k.len..]) == Success(p)
    requires UnknownOnly(tags, s[k.len + p.len..])
    ensures UnknownOnly(tags, s)
  {
  }

  /** A field that reads from the front of a reads the same from the front of a + b. */
  lemma FieldReadsBefore(a: seq<byte>, b: seq<byte>, k: FieldKey, p: PayloadRead)
    requires ReadKey(a) == Success(k) && ReadPayload(k.wire, a[k.len..]) == Success(p)
    ensures ReadKey(a + b) == Success(k) && ReadPayload(k.wire, (a + b)[k.len..]) == Success(p)
    ensures (a + b)[k.len + p.len..] == a[k.len + p.len..] + b
  {
    var ab := a + b;
    var tail := a[k.len..];
    assert ab[..k.len] == a[..k.len];
    ReadKeyAgrees(a, ab, k.len);
    assert ab[k.len..] == tail + b;
    assert (tail + b)[..p.len] == tail[..p.len];
    ReadPayloadAgrees(k.wire, tail, ab[k.len..], p.len);
  }

  /** Two runs of whole undeclared fields, one after the other, are one such run. */
  lemma {:induction false} UnknownOnlyAppend(tags: seq<StructTag>, a: seq<byte>, b: seq<byte>)
    requires UnknownOnly(tags, a) && UnknownOnly(tags, b)
    ensures UnknownOnly(tags, a + b)
    decreases |a|
  {
    if |a| == 0 {
      assert a + b == b;
    } else {
      var k, p := UnknownOnlyHead(tags, a);
      FieldReadsBefore(a, b, k, p);
      UnknownOnlyAppend(tags, a[k.len + p.len..], b);
      UnknownOnlyCons(tags, a + b, k, p);
    }
  }

  /** A field that reads from the front of s reads the same from the bytes it spans, with nothing after. */
  lemma FieldReadsAlone(s: seq<byte>, k: FieldKey, p: PayloadRead)
    requires ReadKey(s) == Success(k) && ReadPayload(k.wire, s[k.len..]) == Success(p)
    ensures var f := s[..k.len + p.len];
            ReadKey(f) == Success(k) && ReadPayload(k.wire, f[k.len..]) == Success(p) && f[k.len + p.len..] == []
  {
    var f := s[..k.len + p.len];
    KeyReadsAlone(s, f, k);
    PayloadReadsAlone(k.wire, s[k.len..], f[k.len..], p);
  }

  /** A key that reads from the front of s reads the same from any prefix of s that holds it. */
  lemma KeyReadsAlone(s: seq<byte>, f: seq<byte>, k: FieldKey)
    requires ReadKey(s) == Success(k) && k.len <= |f| <= |s| && f == s[..|f|]
    ensures ReadKey(f) == Success(k)
  {
    assert f[..k.len] == s[..k.len];
    ReadKeyAgrees(s, f, k.len);
  }

  /** A payload that reads from the front of s reads the same from exactly its own bytes. */
  lemma PayloadReadsAlone(wire: nat, s: seq<byte>, g: seq<byte>, p: PayloadRead)
    requires ReadPayload(wire, s) == Success(p) && g == s[..p.len]
    ensures ReadPayload(wire, g) == Success(p) && g[p.len..] == []
  {
    assert g[..p.len] == s[..p.len];
    ReadPayloadAgrees(wire, s, g, p.len);
  }

  /** The bytes of one undeclared field, as the decoder cuts them from the input, are a run of whole undeclared fields. */
  lemma UnknownFieldAlone(tags: seq<StructTag>, s: seq<byte>, k: FieldKey, p: PayloadRead)
    requires ReadKey(s) == Success(k) && |tags| < k.field
    requires ReadPayload(k.wire, s[k.len..]) == Success(p)
    ensures UnknownOnly(tags, s[..k.len + p.len])
  {
    FieldReadsAlone(s, k, p);
    var f := s[..k.len + p.len];
    assert UnknownOnly(tags, f[k.len + p.len..]);
    UnknownOnlyCons(tags, f, k, p);
  }

  /** An undeclared field at the front: the step appends its bytes to the unrecognized ones. */
  lemma StepOverUnknownField(tags: seq<StructTag>, s: seq<byte>, acc: Message, k: FieldKey, p: PayloadRead)
    requires ScalarTags(tags) && Conforms(tags, acc) && |s| != 0
    requires ReadKey(s) == Success(k) && |tags| < k.field
    requires ReadPayload(k.wire, s[k.len..]) == Success(p)
    ensures DecodeStep(tags, s, acc)
         == Next(s[k.len..][p.len..], acc.(unrecognized := acc.unrecognized + s[..k.len + p.len]))
  {
  }

  /** A step over anything but an undeclared field leaves the unrecognized bytes as they were. */
  lemma StepOverOtherField(tags: seq<StructTag>, s: seq<byte>, acc: Message)
    requires ScalarTags(tags) && Conforms(tags, acc) && |s| != 0
    requires ReadKey(s).Success? ==> ReadKey(s).value.field <= |tags|
    ensures DecodeStep(tags, s, acc).Next? ==> DecodeStep(tags, s, acc).acc.unrecognized == acc.unrecognized
  {
  }

  /** One decoding step keeps the unrecognized bytes a run of whole undeclared fields. */
  lemma StepKeepsUnknownOnly(tags: seq<StructTag>, s: seq<byte>, acc: Message)
    requires ScalarTags(tags) && Conforms(tags, acc) && |s| != 0 && UnknownOnly(tags, acc.unrecognized)
    ensures DecodeStep(tags, s, acc).Next? ==> UnknownOnly(tags, DecodeStep(tags, s, acc).acc.unrecognized)
  {
    var key := ReadKey(s);
    if key.Success? && |tags| < key.value.field {
      var k := key.value;
      var payload := ReadPayload(k.wire, s[k.len..]);
      if payload.Success? {
        var p := payload.value;
        StepOverUnknownField(tags, s, acc, k, p);
        UnknownFieldAlone(tags, s, k, p);
        UnknownOnlyAppend(tags, acc.unrecognized, s[..k.len + p.len]);
      }
    } else {
      StepOverOtherField(tags, s, acc);
    }
  }

  /**
   * Decoding keeps the unrecognized bytes a run of whole undeclared fields, so every
   * message the decoder produces meets the round-trip lemmas' precondition on them.
   */
  lemma {:induction false} DecodeKeepsUnknownOnly(tags: seq<StructTag>, s: seq<byte>, acc: Message)
    requires ScalarTags(tags) && Conforms(tags, acc) && UnknownOnly(tags, acc.unrecognized)
    ensures UnknownOnly(tags, DecodeFields(tags, s, acc).0.unrecognized)
    decreases |s|
  {
    if |s| != 0 {
      StepKeepsUnknownOnly(tags, s, acc);
      match DecodeStep(tags, s, acc)
      case Stop(_) =>
      case Next(rest, acc') => DecodeKeepsUnknownOnly(tags, rest, acc');
    }
  }

  /** Whatever the input, the message Unmarshal produces has only whole undeclared fields in its unrecognized bytes. */
  lemma UnmarshalKeepsUnknownOnly(tags: seq<StructTag>, s: seq<byte>)
    requires ScalarTags(tags)
    ensures UnknownOnly(tags, Unmarshal(tags, s).0.unrecognized)
  {
    DecodeKeepsUnknownOnly(tags, s, Empty(tags));
  }

  function PayloadOf(s: Scalar): Payload
  {
    match s
    case Int32Value(i) => VarintPayload(Int32ToUint64(i))
    case Fixed32Value(b) => Fixed32Payload(b)
  }

  /** An encoded scalar reads back as a payload that converts to the same scalar. */
  lemma ReadEncodedScalar(s: Scalar, rest: seq<byte>)
    ensures ReadPayload(WireTypeOf(KindOf(s)), EncodeScalar(s) + rest)
         == Success(PayloadRead(PayloadOf(s), |EncodeScalar(s)|))
    ensures ScalarOf(PayloadOf(s)) == s
  {
    match s
    case Int32Value(i) =>
      DecodeEncodeVarint(Int32ToUint64(i), rest);
      VarintSize(Int32ToUint64(i));
      Int32RoundTrip(i);
    case Fixed32Value(b) =>
      Fixed32RoundTrip(b, rest);
  }

  /** Slots 0..i-1 of fields, and nothing after: what the decoder has seen after i encoded slots. */
  function Prefix(fields: seq<Option<Scalar>>, i: nat): (r: seq<Option<Scalar>>)
    ensures |r| == |fields|
  {
    seq(|fields|, j requires 0 <= j < |fields| => if j < i then fields[j] else None)
  }

  /** One encoded declared field, then anything: the decoder stores the field and goes on after it. */
  lemma DecodeEncodedField(tags: seq<StructTag>, i: nat, v: Scalar, rest: seq<byte>, acc: Message)
    requires ScalarTags(tags) && Conforms(tags, acc) && i < |tags| && KindOf(v) == tags[i].kind
    ensures DecodeFields(tags, EncodeField(i + 1, v) + rest, acc)
         == DecodeFields(tags, rest, acc.(fields := acc.fields[i := Some(v)]))
  {
    StepOverEncodedField(tags, i, v, rest, acc);
  }

  /** A declared field whose key and payload read: the step stores the payload's scalar in its slot. */
  lemma StepOverKnownField(tags: seq<StructTag>, s: seq<byte>, acc: Message, k: FieldKey, p: PayloadRead)
    requires ScalarTags(tags) && Conforms(tags, acc) && |s| != 0
    requires ReadKey(s) == Success(k) && k.field <= |tags| && k.wire == WireTypeOf(tags[k.field - 1].kind)
    requires ReadPayload(k.wire, s[k.len..]) == Success(p)
    ensures DecodeStep(tags, s, acc)
         == Next(s[k.len..][p.len..], acc.(fields := acc.fields[k.field - 1 := Some(ScalarOf(p.payload))]))
  {
  }

  /** An encoded field reads back as its key, then its payload, then whatever followed it. */
  lemma ReadEncodedField(i: nat, v: Scalar, rest: seq<byte>) returns (k: FieldKey, p: PayloadRead)
    requires i < MaxFieldNumber
    ensures k.field == i + 1 && k.wire == WireTypeOf(KindOf(v)) && p.payload == PayloadOf(v) && ScalarOf(PayloadOf(v)) == v
    ensures ReadKey(EncodeField(i + 1, v) + rest) == Success(k)
    ensures ReadPayload(k.wire, (EncodeField(i + 1, v) + rest)[k.len..]) == Success(p)
    ensures (EncodeField(i + 1, v) + rest)[k.len..][p.len..] == rest
  {
    var wire := WireTypeOf(KindOf(v));
    var key := EncodeVarint(Key(i + 1, wire));
    var body := EncodeScalar(v) + rest;
    var s := EncodeField(i + 1, v) + rest;
    assert s == key + body;
    ReadEncodedKey(i + 1, wire, body);
    VarintSize(Key(i + 1, wire));
    k := FieldKey(i + 1, wire, |key|);
    assert s[k.len..] == body;
    ReadEncodedScalar(v, rest);
    p := PayloadRead(PayloadOf(v), |EncodeScalar(v)|);
    assert body[p.len..] == rest;
  }

  lemma StepOverEncodedField(tags: seq<StructTag>, i: nat, v: Scalar, rest: seq<byte>, acc: Message)
    requires ScalarTags(tags) && Conforms(tags, acc) && i < |tags| && KindOf(v) == tags[i].kind
    ensures DecodeStep(tags, EncodeField(i + 1, v) + rest, acc) == Next(rest, acc.(fields := acc.fields[i := Some(v)]))
  {
    var k, p := ReadEncodedField(i, v, rest);
    StepOverKnownField(tags, EncodeField(i + 1, v) + rest, acc, k, p);
  }

  /** Slot i of the decoder's view becomes what the message holds there. */
  lemma PrefixGrows(fields: seq<Option<Scalar>>, i: nat)
    requires i < |fields|
    ensures fields[i].Some? ==> Prefix(fields, i)[i := fields[i]] == Prefix(fields, i + 1)
    ensures fields[i].None? ==> Prefix(fields, i) == Prefix(fields, i + 1)
  {
  }

  lemma PrefixEnds(fields: seq<Option<Scalar>>)
    ensures Prefix(fields, |fields|) == fields
    ensures forall j :: 0 <= j < |fields| ==> Prefix(fields, 0)[j].None?
  {
  }

  /** The bytes of slot i, and then those of the slots after it. */
  lemma EncodeFieldsStep(fields: seq<Option<Scalar>>, i: nat, tail: seq<byte>)
    requires i < |fields|
    ensures fields[i].None? ==> EncodeFieldsFrom(fields, i) + tail == EncodeFieldsFrom(fields, i + 1) + tail
    ensures fields[i].Some? ==> EncodeFieldsFrom(fields, i) + tail
                                == EncodeField(i + 1, fields[i].value) + (EncodeFieldsFrom(fields, i + 1) + tail)
  {
    var here := if fields[i].Some? then EncodeField(i + 1, fields[i].value) else [];
    var after := EncodeFieldsFrom(fields, i + 1);
    assert EncodeFieldsFrom(fields, i) == here + after;
    assert (here + after) + tail == here + (after + tail);
    if fields[i].None? {
      assert here + after == after;
    }
  }

  /** Decoding slot i's bytes moves the decoder's view from Prefix(i) to Prefix(i + 1). */
  lemma KnownFieldStep(tags: seq<StructTag>, m: Message, i: nat, tail: seq<byte>, acc: Message)
    requires ScalarTags(tags) && Conforms(tags, m) && i < |tags|
    requires Conforms(tags, acc) && acc.fields == Prefix(m.fields, i)
    ensures Conforms(tags, acc.(fields := Prefix(m.fields, i + 1)))
    ensures DecodeFields(tags, EncodeFieldsFrom(m.fields, i) + tail, acc)
         == DecodeFields(tags, EncodeFieldsFrom(m.fields, i + 1) + tail, acc.(fields := Prefix(m.fields, i + 1)))
  {
    PrefixGrows(m.fields, i);
    EncodeFieldsStep(m.fields, i, tail);
    if m.fields[i].Some? {
      DecodeEncodedField(tags, i, m.fields[i].value, EncodeFieldsFrom(m.fields, i + 1) + tail, acc);
    }
  }

  /** Once every slot is decoded, only the unrecognized tail is left, and it is kept as it is. */
  lemma NoKnownFieldsLeft(tags: seq<StructTag>, m: Message, tail: seq<byte>, acc: Message)
    requires ScalarTags(tags) && Conforms(tags, m)
    requires Conforms(tags, acc) && acc.fields == Prefix(m.fields, |tags|)
    requires UnknownOnly(tags, tail)
    ensures DecodeFields(tags, EncodeFieldsFrom(m.fields, |tags|) + tail, acc)
         == (Message(m.fields, acc.unrecognized + tail), None)
  {
    PrefixEnds(m.fields);
    assert EncodeFieldsFrom(m.fields, |tags|) + tail == tail;
    UnknownFieldsKept(tags, tail, acc);
  }

  lemma {:induction false} KnownFieldsDecoded(tags: seq<StructTag>, m: Message, i: nat, tail: seq<byte>, acc: Message)
    requires ScalarTags(tags) && Conforms(tags, m) && i <= |tags|
    requires Conforms(tags, acc) && acc.fields == Prefix(m.fields, i)
    requires UnknownOnly(tags, tail)
    ensures DecodeFields(tags, EncodeFieldsFrom(m.fields, i) + tail, acc)
         == (Message(m.fields, acc.unrecognized + tail), None)
    decreases |tags| - i
  {
    if i == |tags| {
      NoKnownFieldsLeft(tags, m, tail, acc);
    } else {
      KnownFieldStep(tags, m, i, tail, acc);
      KnownFieldsDecoded(tags, m, i + 1, tail, acc.(fields := Prefix(m.fields, i + 1)));
    }
  }

  /** Decoding what Marshal emits restores every slot and the unrecognized bytes, with no decoding error. */
  lemma MarshalDecodes(tags: seq<StructTag>, m: Message)
    requires ScalarTags(tags) && Conforms(tags, m) && UnknownOnly(tags, m.unrecognized)
    ensures DecodeFields(tags, Marshal(m), Empty(tags)) == (m, None)
  {
    var e := Empty(tags);
    PrefixEnds(m.fields);
    assert e.fields == Prefix(m.fields, 0);
    KnownFieldsDecoded(tags, m, 0, m.unrecognized, e);
    assert e.unrecognized + m.unrecognized == m.unrecognized;
  }

  /**
   * Decoding what Marshal emits gives the message back, including absent fields and
   * the unrecognized bytes, provided the tail holds only undeclared fields and every
   * required field is present.
   */
  lemma RoundTrip(tags: seq<StructTag>, m: Message)
    requires ScalarTags(tags) && Conforms(tags, m) && RequiredPresent(tags, m)
    requires UnknownOnly(tags, m.unrecognized)
    ensures Unmarshal(tags, Marshal(m)) == (m, None)
  {
    MarshalDecodes(tags, m);
    assert FirstMissing(tags, m.fields, 0).None?;
  }

  /** A message missing a required field decodes in full and then reports the first such field by name. */
  lemma MissingRequiredReported(tags: seq<StructTag>, m: Message, i: nat)
    requires ScalarTags(tags) && Conforms(tags, m) && UnknownOnly(tags, m.unrecognized)
    requires FirstMissing(tags, m.fields, 0) == Some(i)
    ensures Unmarshal(tags, Marshal(m)) == (m, Some(RequiredNotSet(tags[i].name)))
  {
    MarshalDecodes(tags, m);
  }
}
