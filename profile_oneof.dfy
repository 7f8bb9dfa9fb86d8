/**
 * The codec of the VMOrPMProfileData oneof of an entity profile: the functions the
 * generic encoder and decoder call for fields 8 (vmProfileDTO) and 9 (pmProfileDTO).
 *
 * The marshaler writes the variant held, as the key `field << 3 | WireBytes` and the
 * length-delimited nested message; the sizer counts those bytes without writing
 * them; the unmarshaler is handed a key already read, claims it when its field is
 * 8 or 9, and then replaces the variant held with the one decoded.
 */
module ProfileOneof {
  import opened Wrappers
  import opened Wire
  import opened ScalarCodec
  import opened ProtoBuffer
  import opened ProfileMessages
  import opened EntityProfile

  const VmProfileField: nat := 8
  const PmProfileField: nat := 9

  /** The field number of the variant d holds. */
  function FieldOf(d: ProfileData): (f: nat)
    requires !d.NoProfileData?
    ensures d.VmProfileData? ==> f == VmProfileField
    ensures d.PmProfileData? ==> f == PmProfileField
  {
    if d.VmProfileData? then VmProfileField else PmProfileField
  }

  /** The struct tags of the message sent under a oneof field. */
  function NestedTags(field: nat): (tags: seq<StructTag>)
    requires field == VmProfileField || field == PmProfileField
    ensures ScalarTags(tags) && forall i :: 0 <= i < |tags| ==> tags[i].status == Optional
  {
    ProfileTagsAreScalar();
    if field == VmProfileField then VmProfileTags else PmProfileTags
  }

  /** The nested message of the variant d holds, as the codec sees it. */
  function NestedMessage(d: ProfileData): (m: Message)
    requires !d.NoProfileData?
    ensures Conforms(NestedTags(FieldOf(d)), m)
  {
    match d
    case VmProfileData(vm) => VmMessage(vm)
    case PmProfileData(pm) => PmMessage(pm)
  }

  /** The nested message's size fits the Go int that proto.Size returns. */
  predicate Encodable(d: ProfileData)
  {
    d.NoProfileData? || Size(NestedMessage(d)) < TwoTo63
  }

  /**
   * The nested message's unrecognized bytes are whole fields it does not declare, as
   * decoding leaves them (UnmarshalKeepsWellFormed).
   */
  predicate WellFormed(d: ProfileData)
  {
    d.NoProfileData? || UnknownOnly(NestedTags(FieldOf(d)), NestedMessage(d).unrecognized)
  }

  /** What the marshaler appends for d: nothing for an unset oneof, else the key and the length-delimited message. */
  function OneofBytes(d: ProfileData): seq<byte>
  {
    if d.NoProfileData? then []
    else
      var m := NestedMessage(d);
      EncodeVarint(Key(FieldOf(d), WireBytes)) + EncodeVarint(Size(m)) + Marshal(m)
  }

  // ---------------------------------------------------------------- marshaler

  /** _EntityProfileDTO_OneofMarshaler: appends the variant m holds to b; a closed union leaves no error case. */
  method OneofMarshaler(m: EntityProfileDTO, b: Buffer) returns (err: Option<Error>)
    requires Encodable(m.profileData)
    modifies b`buf
    ensures b.buf == old(b.buf) + OneofBytes(m.profileData)
    ensures err.None?
  {
    err := None;
    if !m.profileData.NoProfileData? {
      var field := FieldOf(m.profileData);
      var nested := NestedMessage(m.profileData);
      ghost var before := b.buf;
      b.EncodeVarint(Key(field, WireBytes));
      b.EncodeMessage(nested);
      assert b.buf == before + (EncodeVarint(Key(field, WireBytes)) + EncodeVarint(Size(nested)) + Marshal(nested));
    }
  }

  /** The two keys fit in one byte: 8 << 3 | 2 is 66 and 9 << 3 | 2 is 74. */
  lemma KeyBytes()
    ensures EncodeVarint(Key(VmProfileField, WireBytes)) == [66]
    ensures EncodeVarint(Key(PmProfileField, WireBytes)) == [74]
  {
  }

  /** The marshaler's bytes, between anything before and after them: a one-byte key, then the length-delimited message. */
  lemma OneofBytesSplit(d: ProfileData, pre: seq<byte>, rest: seq<byte>)
    requires !d.NoProfileData?
    ensures var m := NestedMessage(d);
            var key := EncodeVarint(Key(FieldOf(d), WireBytes));
            && key == [if d.VmProfileData? then 66 else 74]
            && OneofBytes(d) == key + (EncodeVarint(Size(m)) + Marshal(m))
            && pre + OneofBytes(d) + rest == (pre + key) + (EncodeVarint(Size(m)) + Marshal(m)) + rest
  {
    KeyBytes();
  }

  /**
   * The marshaler writes at most one field: nothing when the oneof is unset, and
   * otherwise a one-byte key, 66 for a VM profile and 74 for a PM profile, that
   * reads back as field 8 or 9 with wire type bytes.
   */
  lemma MarshalerEmitsOneField(d: ProfileData, rest: seq<byte>)
    ensures OneofBytes(d) == [] <==> d.NoProfileData?
    ensures d.VmProfileData? ==> OneofBytes(d)[0] == 66
    ensures d.PmProfileData? ==> OneofBytes(d)[0] == 74
    ensures !d.NoProfileData? ==> ReadKey(OneofBytes(d) + rest) == Success(FieldKey(FieldOf(d), WireBytes, 1))
  {
    if !d.NoProfileData? {
      var m := NestedMessage(d);
      var key := EncodeVarint(Key(FieldOf(d), WireBytes));
      var body := EncodeVarint(Size(m)) + Marshal(m);
      OneofBytesSplit(d, [], rest);
      assert OneofBytes(d) + rest == key + (body + rest);
      ReadEncodedKey(FieldOf(d), WireBytes, body + rest);
    }
  }

  // ---------------------------------------------------------------- sizer

  /** _EntityProfileDTO_OneofSizer: the key's size, the length's size and the message's size; zero when unset. */
  function OneofSizer(d: ProfileData): (n: nat)
    ensures n == 0 <==> d.NoProfileData?
  {
    if d.NoProfileData? then 0
    else
      var s := Size(NestedMessage(d));
      SizeVarint(Key(FieldOf(d), WireBytes)) + SizeVarint(s) + s
  }

  /** The sizer counts exactly the bytes the marshaler writes. */
  lemma SizerMatchesMarshaler(d: ProfileData)
    requires Encodable(d)
    ensures OneofSizer(d) == |OneofBytes(d)|
  {
    if !d.NoProfileData? {
      var m := NestedMessage(d);
      VarintSize(Key(FieldOf(d), WireBytes));
      VarintSize(Size(m));
      SizeIsLength(m);
    }
  }

  // ---------------------------------------------------------------- unmarshaler

  /** What the unmarshaler returns and leaves: claimed or not, the error, the oneof, the read position. */
  datatype Unmarshaled = Unmarshaled(handled: bool, err: Option<Error>, data: ProfileData, next: nat)

  /**
   * _EntityProfileDTO_OneofUnmarshaler on a oneof holding data, for a key with field
   * tag and wire type wire, the buffer reading buf at index.
   */
  function OneofUnmarshal(data: ProfileData, tag: int, wire: int, buf: seq<byte>, index: nat): (r: Unmarshaled)
    requires index <= |buf|
    ensures r.handled <==> tag == VmProfileField || tag == PmProfileField
    ensures !r.handled ==> r == Unmarshaled(false, None, data, index)
    ensures r.handled && wire != WireBytes ==> r == Unmarshaled(true, Some(BadWireType), data, index)
    ensures r.handled && wire == WireBytes ==>
              && (r.data.VmProfileData? <==> tag == VmProfileField)
              && (r.data.PmProfileData? <==> tag == PmProfileField)
              && var d := DecodeMessageAt(NestedTags(tag), buf, index);
                 NestedMessage(r.data) == d.msg && r.err == d.err && r.next == d.next
  {
    if tag == VmProfileField then
      if wire != WireBytes then Unmarshaled(true, Some(BadWireType), data, index)
      else
        var d := DecodeMessageAt(NestedTags(tag), buf, index);
        Unmarshaled(true, d.err, VmProfileData(VmOf(d.msg)), d.next)
    else if tag == PmProfileField then
      if wire != WireBytes then Unmarshaled(true, Some(BadWireType), data, index)
      else
        var d := DecodeMessageAt(NestedTags(tag), buf, index);
        Unmarshaled(true, d.err, PmProfileData(PmOf(d.msg)), d.next)
    else
      Unmarshaled(false, None, data, index)
  }

  /**
   * _EntityProfileDTO_OneofUnmarshaler: claims fields 8 and 9. With a wire type other
   * than bytes it fails and changes nothing; otherwise it decodes the nested message
   * and stores it as the new variant even when decoding failed part way.
   */
  method OneofUnmarshaler(m: EntityProfileDTO, tag: int, wire: int, b: Buffer) returns (handled: bool, err: Option<Error>)
    requires b.Valid()
    modifies m`profileData, b`index
    ensures b.Valid()
    ensures Unmarshaled(handled, err, m.profileData, b.index)
         == OneofUnmarshal(old(m.profileData), tag, wire, b.buf, old(b.index))
  {
    ProfileTagsAreScalar();
    if tag == VmProfileField {
      if wire != WireBytes {
        return true, Some(BadWireType);
      }
      var msg, e := b.DecodeMessage(VmProfileTags);
      m.profileData := VmProfileData(VmOf(msg));
      return true, e;
    } else if tag == PmProfileField {
      if wire != WireBytes {
        return true, Some(BadWireType);
      }
      var msg, e := b.DecodeMessage(PmProfileTags);
      m.profileData := PmProfileData(PmOf(msg));
      return true, e;
    } else {
      return false, None;
    }
  }

  /** The unmarshaler claims exactly the fields the struct tags declare as members of the oneof, all of kind bytes. */
  lemma OneofClaimsItsStructTags(data: ProfileData, tag: int, wire: int, buf: seq<byte>, index: nat)
    requires index <= |buf|
    ensures OneofUnmarshal(data, tag, wire, buf, index).handled
        <==> exists i :: 0 <= i < |EntityProfileTags| && EntityProfileTags[i].number == tag
                         && EntityProfileTags[i].status == OneofMember
    ensures forall i :: 0 <= i < |EntityProfileTags| && EntityProfileTags[i].status == OneofMember
                        ==> WireTypeOf(EntityProfileTags[i].kind) == WireBytes
  {
    assert forall i :: 0 <= i < |EntityProfileTags| && EntityProfileTags[i].status == OneofMember ==> i == 7 || i == 8;
    if tag == VmProfileField {
      assert EntityProfileTags[7].number == tag;
    } else if tag == PmProfileField {
      assert EntityProfileTags[8].number == tag;
    }
  }

  /** A nested message that decodes without error becomes the oneof's variant, whatever it held. */
  lemma StoresDecoded(data: ProfileData, d: ProfileData, buf: seq<byte>, index: nat, next: nat)
    requires !d.NoProfileData? && index <= |buf|
    requires DecodeMessageAt(NestedTags(FieldOf(d)), buf, index) == Decoded(NestedMessage(d), next, None)
    ensures OneofUnmarshal(data, FieldOf(d), WireBytes, buf, index) == Unmarshaled(true, None, d, next)
  {
    match d
    case VmProfileData(vm) => VmOfVmMessage(vm);
    case PmProfileData(pm) => PmOfPmMessage(pm);
  }

  /**
   * The unmarshaler only ever stores a well-formed variant: the nested message it
   * decodes keeps only whole undeclared fields in its unrecognized bytes, so the
   * round trip below applies to whatever it stored.
   */
  lemma UnmarshalKeepsWellFormed(data: ProfileData, tag: int, wire: int, buf: seq<byte>, index: nat)
    requires index <= |buf| && WellFormed(data)
    ensures WellFormed(OneofUnmarshal(data, tag, wire, buf, index).data)
  {
    var r := OneofUnmarshal(data, tag, wire, buf, index);
    if r.handled && wire == WireBytes {
      var d := DecodeMessageAt(NestedTags(tag), buf, index);
      assert FieldOf(r.data) == tag;
      assert UnknownOnly(NestedTags(tag), NestedMessage(r.data).unrecognized);
    }
  }

  /**
   * Decoding what the marshaler wrote gives back the same variant: the key reads as
   * the variant's field with wire type bytes, and the unmarshaler, whatever the
   * oneof held before, stores the variant, reports no error and stops right after it.
   */
  lemma UnmarshalMarshalRoundTrip(d: ProfileData, data: ProfileData, pre: seq<byte>, rest: seq<byte>)
    requires !d.NoProfileData? && Encodable(d) && WellFormed(d)
    ensures ReadKey(OneofBytes(d) + rest) == Success(FieldKey(FieldOf(d), WireBytes, 1))
    ensures OneofUnmarshal(data, FieldOf(d), WireBytes, pre + OneofBytes(d) + rest, |pre| + 1)
         == Unmarshaled(true, None, d, |pre| + |OneofBytes(d)|)
  {
    MarshalerEmitsOneField(d, rest);
    var m := NestedMessage(d);
    var key := EncodeVarint(Key(FieldOf(d), WireBytes));
    var body := EncodeVarint(Size(m)) + Marshal(m);
    var buf := pre + OneofBytes(d) + rest;
    OneofBytesSplit(d, pre, rest);
    assert buf == (pre + key) + body + rest && |pre + key| == |pre| + 1;
    DecodeEncodedMessage(NestedTags(FieldOf(d)), m, pre + key, rest);
    assert DecodeMessageAt(NestedTags(FieldOf(d)), buf, |pre| + 1) == Decoded(m, |pre| + |OneofBytes(d)|, None);
    StoresDecoded(data, d, buf, |pre| + 1, |pre| + |OneofBytes(d)|);
  }

  /**
   * The last field wins: for field 8 or 9 with wire type bytes, what the unmarshaler
   * returns and leaves does not depend on the variant the oneof held before, so a
   * VM profile followed by a PM profile leaves the PM profile, and the reverse.
   */
  lemma LastFieldWins(before: ProfileData, other: ProfileData, tag: int, buf: seq<byte>, index: nat)
    requires index <= |buf| && (tag == VmProfileField || tag == PmProfileField)
    ensures OneofUnmarshal(before, tag, WireBytes, buf, index) == OneofUnmarshal(other, tag, WireBytes, buf, index)
  {
  }
}
