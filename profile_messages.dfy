/**
 * The three profile messages whose fields are all scalars: the VM profile and the
 * PM profile (the two variants of an entity profile's VMOrPMProfileData) and the
 * commodity profile. Each field is optional-with-presence (a nil pointer in Go,
 * None here), and each message keeps the bytes of fields it does not declare.
 * float32 fields are carried as their 32-bit patterns and never interpreted;
 * the commodity type is an enum code carried as an int32.
 */
module ProfileMessages {
  import opened Wrappers
  import opened Wire
  import opened ScalarCodec

  /** A float32 field: its IEEE 754 bit pattern, sent as fixed32. Zero is the pattern of +0.0. */
  type Float32Bits = uint32

  /** A CommodityDTO_CommodityType value: an enum code, sent as an int32 varint. */
  type CommodityType = int32

  /** CommodityDTO_CLUSTER, the first (code 0) member of CommodityDTO_CommodityType. */
  const CommodityTypeCluster: CommodityType := 0

  datatype VmProfile = VmProfile(
    numVCPUs: Option<int32>,
    vCPUSpeed: Option<Float32Bits>,
    numStorageConsumed: Option<int32>,
    unrecognized: seq<byte>)

  datatype PmProfile = PmProfile(
    numCores: Option<int32>,
    cpuCoreSpeed: Option<Float32Bits>,
    unrecognized: seq<byte>)

  datatype CommodityProfile = CommodityProfile(
    commodityType: Option<CommodityType>,
    capacity: Option<Float32Bits>,
    consumedFactor: Option<Float32Bits>,
    consumed: Option<Float32Bits>,
    reservation: Option<Float32Bits>,
    overhead: Option<Float32Bits>,
    unrecognized: seq<byte>)

  // ---------------------------------------------------------------- struct tags

  const VmProfileTags: seq<StructTag> := [
    StructTag("numVCPUs", 1, VarintKind, Optional),
    StructTag("vCPUSpeed", 2, Fixed32Kind, Optional),
    StructTag("numStorageConsumed", 3, VarintKind, Optional)]

  const PmProfileTags: seq<StructTag> := [
    StructTag("numCores", 1, VarintKind, Optional),
    StructTag("cpuCoreSpeed", 2, Fixed32Kind, Optional)]

  const CommodityProfileTags: seq<StructTag> := [
    StructTag("commodityType", 1, VarintKind, Required),
    StructTag("capacity", 2, Fixed32Kind, Optional),
    StructTag("consumedFactor", 3, Fixed32Kind, Optional),
    StructTag("consumed", 4, Fixed32Kind, Optional),
    StructTag("reservation", 5, Fixed32Kind, Optional),
    StructTag("overhead", 6, Fixed32Kind, Optional)]

  /** The three tables declare scalar fields numbered from 1; only the commodity type is required. */
  lemma ProfileTagsAreScalar()
    ensures ScalarTags(VmProfileTags) && ScalarTags(PmProfileTags) && ScalarTags(CommodityProfileTags)
    ensures forall i :: 0 <= i < |VmProfileTags| ==> VmProfileTags[i].status == Optional
    ensures forall i :: 0 <= i < |PmProfileTags| ==> PmProfileTags[i].status == Optional
    ensures forall i :: 0 <= i < |CommodityProfileTags| ==> (CommodityProfileTags[i].status == Required <==> i == 0)
  {
  }

  // ---------------------------------------------------------------- slots

  function IntSlot(o: Option<int32>): (s: Option<Scalar>)
    ensures s.Some? <==> o.Some?
    ensures s.Some? ==> s.value == Int32Value(o.value)
  {
    if o.Some? then Some(Int32Value(o.value)) else None
  }

  function FloatSlot(o: Option<Float32Bits>): (s: Option<Scalar>)
    ensures s.Some? <==> o.Some?
    ensures s.Some? ==> s.value == Fixed32Value(o.value)
  {
    if o.Some? then Some(Fixed32Value(o.value)) else None
  }

  function IntOf(s: Option<Scalar>): (o: Option<int32>)
    requires s.None? || s.value.Int32Value?
    ensures IntSlot(o) == s
  {
    if s.Some? then Some(s.value.i) else None
  }

  function FloatOf(s: Option<Scalar>): (o: Option<Float32Bits>)
    requires s.None? || s.value.Fixed32Value?
    ensures FloatSlot(o) == s
  {
    if s.Some? then Some(s.value.bits) else None
  }

  // ---------------------------------------------------------------- messages <-> profiles

  /** The VM profile as the codec sees it: slot i holds field i + 1. */
  function VmMessage(v: VmProfile): (m: Message)
    ensures Conforms(VmProfileTags, m) && m.unrecognized == v.unrecognized
  {
    Message([IntSlot(v.numVCPUs), FloatSlot(v.vCPUSpeed), IntSlot(v.numStorageConsumed)], v.unrecognized)
  }

  /** The VM profile a decoded message describes; VmMessage takes it back to the same message. */
  function VmOf(m: Message): (v: VmProfile)
    requires Conforms(VmProfileTags, m)
    ensures VmMessage(v) == m
  {
    var v := VmProfile(IntOf(m.fields[0]), FloatOf(m.fields[1]), IntOf(m.fields[2]), m.unrecognized);
    assert VmMessage(v).fields == m.fields;
    v
  }

  lemma VmOfVmMessage(v: VmProfile)
    ensures VmOf(VmMessage(v)) == v
  {
  }

  function PmMessage(p: PmProfile): (m: Message)
    ensures Conforms(PmProfileTags, m) && m.unrecognized == p.unrecognized
  {
    Message([IntSlot(p.numCores), FloatSlot(p.cpuCoreSpeed)], p.unrecognized)
  }

  function PmOf(m: Message): (p: PmProfile)
    requires Conforms(PmProfileTags, m)
    ensures PmMessage(p) == m
  {
    var p := PmProfile(IntOf(m.fields[0]), FloatOf(m.fields[1]), m.unrecognized);
    assert PmMessage(p).fields == m.fields;
    p
  }

  lemma PmOfPmMessage(p: PmProfile)
    ensures PmOf(PmMessage(p)) == p
  {
  }

  function CommodityMessage(c: CommodityProfile): (m: Message)
    ensures Conforms(CommodityProfileTags, m) && m.unrecognized == c.unrecognized
  {
    Message([IntSlot(c.commodityType), FloatSlot(c.capacity), FloatSlot(c.consumedFactor),
             FloatSlot(c.consumed), FloatSlot(c.reservation), FloatSlot(c.overhead)], c.unrecognized)
  }

  function CommodityOf(m: Message): (c: CommodityProfile)
    requires Conforms(CommodityProfileTags, m)
    ensures CommodityMessage(c) == m
  {
    var c := CommodityProfile(IntOf(m.fields[0]), FloatOf(m.fields[1]), FloatOf(m.fields[2]),
                              FloatOf(m.fields[3]), FloatOf(m.fields[4]), FloatOf(m.fields[5]), m.unrecognized);
    assert CommodityMessage(c).fields == m.fields;
    c
  }

  // ---------------------------------------------------------------- which field goes where

  /** Each VM profile field travels in the slot its struct tag names, under that tag's field number. */
  lemma VmFieldsByName(v: VmProfile)
    ensures forall i | 0 <= i < |VmProfileTags| ::
      && (VmProfileTags[i].name == "numVCPUs" ==>
            VmProfileTags[i].number == 1 && VmMessage(v).fields[i] == IntSlot(v.numVCPUs))
      && (VmProfileTags[i].name == "vCPUSpeed" ==>
            VmProfileTags[i].number == 2 && VmMessage(v).fields[i] == FloatSlot(v.vCPUSpeed))
      && (VmProfileTags[i].name == "numStorageConsumed" ==>
            VmProfileTags[i].number == 3 && VmMessage(v).fields[i] == IntSlot(v.numStorageConsumed))
  {
  }

  /** Each PM profile field travels in the slot its struct tag names, under that tag's field number. */
  lemma PmFieldsByName(p: PmProfile)
    ensures forall i | 0 <= i < |PmProfileTags| ::
      && (PmProfileTags[i].name == "numCores" ==>
            PmProfileTags[i].number == 1 && PmMessage(p).fields[i] == IntSlot(p.numCores))
      && (PmProfileTags[i].name == "cpuCoreSpeed" ==>
            PmProfileTags[i].number == 2 && PmMessage(p).fields[i] == FloatSlot(p.cpuCoreSpeed))
  {
  }

  /** Each commodity profile field travels in the slot its struct tag names, under that tag's field number. */
  lemma CommodityFieldsByName(c: CommodityProfile)
    ensures forall i | 0 <= i < |CommodityProfileTags| ::
      && (CommodityProfileTags[i].name == "commodityType" ==>
            CommodityProfileTags[i].number == 1 && CommodityMessage(c).fields[i] == IntSlot(c.commodityType))
      && (CommodityProfileTags[i].name == "capacity" ==>
            CommodityProfileTags[i].number == 2 && CommodityMessage(c).fields[i] == FloatSlot(c.capacity))
      && (CommodityProfileTags[i].name == "consumedFactor" ==>
            CommodityProfileTags[i].number == 3 && CommodityMessage(c).fields[i] == FloatSlot(c.consumedFactor))
      && (CommodityProfileTags[i].name == "consumed" ==>
            CommodityProfileTags[i].number == 4 && CommodityMessage(c).fields[i] == FloatSlot(c.consumed))
      && (CommodityProfileTags[i].name == "reservation" ==>
            CommodityProfileTags[i].number == 5 && CommodityMessage(c).fields[i] == FloatSlot(c.reservation))
      && (CommodityProfileTags[i].name == "overhead" ==>
            CommodityProfileTags[i].number == 6 && CommodityMessage(c).fields[i] == FloatSlot(c.overhead))
  {
  }

  // ---------------------------------------------------------------- commodity codec

  /** A commodity profile decoded on its own: a missing commodity type is an error, as its `req` tag demands. */
  function DecodeCommodity(s: seq<byte>): (r: Result<CommodityProfile, Error>)
    ensures r.Success? ==> r.value.commodityType.Some?
  {
    ProfileTagsAreScalar();
    var u := Unmarshal(CommodityProfileTags, s);
    if u.1.Some? then Failure(u.1.value) else Success(CommodityOf(u.0))
  }

  function EncodeCommodity(c: CommodityProfile): seq<byte>
  {
    Marshal(CommodityMessage(c))
  }

  /** A commodity profile with its type set reads back unchanged from its encoding. */
  lemma CommodityRoundTrip(c: CommodityProfile)
    requires c.commodityType.Some? && UnknownOnly(CommodityProfileTags, c.unrecognized)
    ensures DecodeCommodity(EncodeCommodity(c)) == Success(c)
  {
    ProfileTagsAreScalar();
    RoundTrip(CommodityProfileTags, CommodityMessage(c));
  }

  /** Every commodity profile that decodes is encoded and decoded again unchanged. */
  lemma DecodedCommodityReencodes(s: seq<byte>)
    requires DecodeCommodity(s).Success?
    ensures DecodeCommodity(EncodeCommodity(DecodeCommodity(s).value)) == DecodeCommodity(s)
  {
    ProfileTagsAreScalar();
    UnmarshalKeepsUnknownOnly(CommodityProfileTags, s);
    CommodityRoundTrip(DecodeCommodity(s).value);
  }

  /** Without its commodity type, a commodity profile fails to decode and the error names that field. */
  lemma CommodityTypeRequired(c: CommodityProfile)
    requires c.commodityType.None? && UnknownOnly(CommodityProfileTags, c.unrecognized)
    ensures DecodeCommodity(EncodeCommodity(c)) == Failure(RequiredNotSet("commodityType"))
  {
    ProfileTagsAreScalar();
    var m := CommodityMessage(c);
    assert FirstMissing(CommodityProfileTags, m.fields, 0) == Some(0);
    MissingRequiredReported(CommodityProfileTags, m, 0);
  }

  // ---------------------------------------------------------------- getters

  function GetNumVCPUs(m: Option<VmProfile>): (r: int32)
    ensures m.Some? && m.value.numVCPUs.Some? ==> r == m.value.numVCPUs.value
    ensures m.None? || m.value.numVCPUs.None? ==> r == 0
  {
    if m.Some? && m.value.numVCPUs.Some? then m.value.numVCPUs.value else 0
  }

  function GetVCPUSpeed(m: Option<VmProfile>): (r: Float32Bits)
    ensures m.Some? && m.value.vCPUSpeed.Some? ==> r == m.value.vCPUSpeed.value
    ensures m.None? || m.value.vCPUSpeed.None? ==> r == 0
  {
    if m.Some? && m.value.vCPUSpeed.Some? then m.value.vCPUSpeed.value else 0
  }

  function GetNumStorageConsumed(m: Option<VmProfile>): (r: int32)
    ensures m.Some? && m.value.numStorageConsumed.Some? ==> r == m.value.numStorageConsumed.value
    ensures m.None? || m.value.numStorageConsumed.None? ==> r == 0
  {
    if m.Some? && m.value.numStorageConsumed.Some? then m.value.numStorageConsumed.value else 0
  }

  function GetNumCores(m: Option<PmProfile>): (r: int32)
    ensures m.Some? && m.value.numCores.Some? ==> r == m.value.numCores.value
    ensures m.None? || m.value.numCores.None? ==> r == 0
  {
    if m.Some? && m.value.numCores.Some? then m.value.numCores.value else 0
  }

  function GetCpuCoreSpeed(m: Option<PmProfile>): (r: Float32Bits)
    ensures m.Some? && m.value.cpuCoreSpeed.Some? ==> r == m.value.cpuCoreSpeed.value
    ensures m.None? || m.value.cpuCoreSpeed.None? ==> r == 0
  {
    if m.Some? && m.value.cpuCoreSpeed.Some? then m.value.cpuCoreSpeed.value else 0
  }

  function GetCommodityType(m: Option<CommodityProfile>): (r: CommodityType)
    ensures m.Some? && m.value.commodityType.Some? ==> r == m.value.commodityType.value
    ensures m.None? || m.value.commodityType.None? ==> r == CommodityTypeCluster
  {
    if m.Some? && m.value.commodityType.Some? then m.value.commodityType.value else CommodityTypeCluster
  }

  function GetCapacity(m: Option<CommodityProfile>): (r: Float32Bits)
    ensures m.Some? && m.value.capacity.Some? ==> r == m.value.capacity.value
    ensures m.None? || m.value.capacity.None? ==> r == 0
  {
    if m.Some? && m.value.capacity.Some? then m.value.capacity.value else 0
  }

  function GetConsumedFactor(m: Option<CommodityProfile>): (r: Float32Bits)
    ensures m.Some? && m.value.consumedFactor.Some? ==> r == m.value.consumedFactor.value
    ensures m.None? || m.value.consumedFactor.None? ==> r == 0
  {
    if m.Some? && m.value.consumedFactor.Some? then m.value.consumedFactor.value else 0
  }

  function GetConsumed(m: Option<CommodityProfile>): (r: Float32Bits)
    ensures m.Some? && m.value.consumed.Some? ==> r == m.value.consumed.value
    ensures m.None? || m.value.consumed.None? ==> r == 0
  {
    if m.Some? && m.value.consumed.Some? then m.value.consumed.value else 0
  }

  function GetReservation(m: Option<CommodityProfile>): (r: Float32Bits)
    ensures m.Some? && m.value.reservation.Some? ==> r == m.value.reservation.value
    ensures m.None? || m.value.reservation.None? ==> r == 0
  {
    if m.Some? && m.value.reservation.Some? then m.value.reservation.value else 0
  }

  function GetOverhead(m: Option<CommodityProfile>): (r: Float32Bits)
    ensures m.Some? && m.value.overhead.Some? ==> r == m.value.overhead.value
    ensures m.None? || m.value.overhead.None? ==> r == 0
  {
    if m.Some? && m.value.overhead.Some? then m.value.overhead.value else 0
  }
}
