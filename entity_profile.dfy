/**
 * The entity profile: a template for service entities, with an id, a display name,
 * the entity type it applies to, its commodity profiles, descriptive strings, the
 * VMOrPMProfileData oneof (a VM profile, a PM profile, or neither), two matching
 * flags and entity properties. It is an object updated in place: the oneof
 * unmarshaler assigns its union field and Reset clears it.
 *
 * The getters accept a nil receiver (null here) and then return the default.
 */
module EntityProfile {
  import opened Wrappers
  import opened Wire
  import opened ScalarCodec
  import opened ProfileMessages

  /** An EntityDTO_EntityType value: an enum code, sent as an int32 varint. */
  type EntityType = int32

  /** EntityDTO_SWITCH, the first (code 0) member of EntityDTO_EntityType. */
  const EntityTypeSwitch: EntityType := 0

  /** An EntityDTO_EntityProperty message, kept opaque as its encoding. */
  datatype EntityProperty = EntityProperty(encoded: seq<byte>)

  /** The VMOrPMProfileData oneof: unset, a VM profile, or a PM profile. */
  datatype ProfileData = NoProfileData | VmProfileData(vm: VmProfile) | PmProfileData(pm: PmProfile)

  const EntityProfileTags: seq<StructTag> := [
    StructTag("id", 1, BytesKind, Required),
    StructTag("displayName", 2, BytesKind, Required),
    StructTag("entityType", 3, VarintKind, Required),
    StructTag("commodityProfile", 4, BytesKind, Repeated),
    StructTag("model", 5, BytesKind, Optional),
    StructTag("vendor", 6, BytesKind, Optional),
    StructTag("description", 7, BytesKind, Optional),
    StructTag("vmProfileDTO", 8, BytesKind, OneofMember),
    StructTag("pmProfileDTO", 9, BytesKind, OneofMember),
    StructTag("enableProvisionMatch", 10, VarintKind, Optional),
    StructTag("enableResizeMatch", 11, VarintKind, Optional),
    StructTag("entityProperties", 12, BytesKind, Repeated)]

  class EntityProfileDTO {
    var id: Option<string>
    var displayName: Option<string>
    var entityType: Option<EntityType>
    var commodityProfile: seq<CommodityProfile>
    var model: Option<string>
    var vendor: Option<string>
    var description: Option<string>
    var profileData: ProfileData
    var enableProvisionMatch: Option<bool>
    var enableResizeMatch: Option<bool>
    var entityProperties: seq<EntityProperty>
    var unrecognized: seq<byte>

    /** The zero value EntityProfileDTO{}: no field set, no oneof variant, nothing unrecognized. */
    ghost predicate IsZero()
      reads this
    {
      && id.None? && displayName.None? && entityType.None? && commodityProfile == []
      && model.None? && vendor.None? && description.None? && profileData.NoProfileData?
      && enableProvisionMatch.None? && enableResizeMatch.None? && entityProperties == []
      && unrecognized == []
    }

    /** new(EntityProfileDTO). */
    constructor()
      ensures IsZero()
    {
      id, displayName, entityType, commodityProfile := None, None, None, [];
      model, vendor, description, profileData := None, None, None, NoProfileData;
      enableProvisionMatch, enableResizeMatch, entityProperties, unrecognized := None, None, [], [];
    }

    /** `*m = EntityProfileDTO{}`: every field back to its zero value, so every getter reports its default. */
    method Reset()
      modifies this
      ensures IsZero()
      ensures GetId(this) == "" && GetDisplayName(this) == "" && GetEntityType(this) == EntityTypeSwitch
      ensures GetModel(this) == "" && GetVendor(this) == "" && GetDescription(this) == ""
      ensures GetCommodityProfile(this) == [] && GetEntityProperties(this) == []
      ensures GetVmProfileDTO(this).None? && GetPmProfileDTO(this).None?
      ensures !GetEnableProvisionMatch(this) && !GetEnableResizeMatch(this)
    {
      id, displayName, entityType, commodityProfile := None, None, None, [];
      model, vendor, description, profileData := None, None, None, NoProfileData;
      enableProvisionMatch, enableResizeMatch, entityProperties, unrecognized := None, None, [], [];
    }
  }

  // ---------------------------------------------------------------- getters

  function GetVMOrPMProfileData(m: EntityProfileDTO?): (r: ProfileData)
    reads m
    ensures m != null ==> r == m.profileData
    ensures m == null ==> r.NoProfileData?
  {
    if m != null then m.profileData else NoProfileData
  }

  function GetId(m: EntityProfileDTO?): (r: string)
    reads m
    ensures m != null && m.id.Some? ==> r == m.id.value
    ensures m == null || m.id.None? ==> r == ""
  {
    if m != null && m.id.Some? then m.id.value else ""
  }

  function GetDisplayName(m: EntityProfileDTO?): (r: string)
    reads m
    ensures m != null && m.displayName.Some? ==> r == m.displayName.value
    ensures m == null || m.displayName.None? ==> r == ""
  {
    if m != null && m.displayName.Some? then m.displayName.value else ""
  }

  function GetEntityType(m: EntityProfileDTO?): (r: EntityType)
    reads m
    ensures m != null && m.entityType.Some? ==> r == m.entityType.value
    ensures m == null || m.entityType.None? ==> r == EntityTypeSwitch
  {
    if m != null && m.entityType.Some? then m.entityType.value else EntityTypeSwitch
  }

  function GetCommodityProfile(m: EntityProfileDTO?): (r: seq<CommodityProfile>)
    reads m
    ensures m != null ==> r == m.commodityProfile
    ensures m == null ==> r == []
  {
    if m != null then m.commodityProfile else []
  }

  function GetModel(m: EntityProfileDTO?): (r: string)
    reads m
    ensures m != null && m.model.Some? ==> r == m.model.value
    ensures m == null || m.model.None? ==> r == ""
  {
    if m != null && m.model.Some? then m.model.value else ""
  }

  function GetVendor(m: EntityProfileDTO?): (r: string)
    reads m
    ensures m != null && m.vendor.Some? ==> r == m.vendor.value
    ensures m == null || m.vendor.None? ==> r == ""
  {
    if m != null && m.vendor.Some? then m.vendor.value else ""
  }

  function GetDescription(m: EntityProfileDTO?): (r: string)
    reads m
    ensures m != null && m.description.Some? ==> r == m.description.value
    ensures m == null || m.description.None? ==> r == ""
  {
    if m != null && m.description.Some? then m.description.value else ""
  }

  /** The VM profile, when and only when the oneof holds one. */
  function GetVmProfileDTO(m: EntityProfileDTO?): (r: Option<VmProfile>)
    reads m
    ensures r.Some? <==> GetVMOrPMProfileData(m).VmProfileData?
    ensures r.Some? ==> r.value == GetVMOrPMProfileData(m).vm
  {
    match GetVMOrPMProfileData(m)
    case VmProfileData(vm) => Some(vm)
    case _ => None
  }

  /** The PM profile, when and only when the oneof holds one; never together with a VM profile. */
  function GetPmProfileDTO(m: EntityProfileDTO?): (r: Option<PmProfile>)
    reads m
    ensures r.Some? <==> GetVMOrPMProfileData(m).PmProfileData?
    ensures r.Some? ==> r.value == GetVMOrPMProfileData(m).pm
    ensures r.Some? ==> GetVmProfileDTO(m).None?
  {
    match GetVMOrPMProfileData(m)
    case PmProfileData(pm) => Some(pm)
    case _ => None
  }

  function GetEnableProvisionMatch(m: EntityProfileDTO?): (r: bool)
    reads m
    ensures m != null && m.enableProvisionMatch.Some? ==> r == m.enableProvisionMatch.value
    ensures m == null || m.enableProvisionMatch.None? ==> !r
  {
    if m != null && m.enableProvisionMatch.Some? then m.enableProvisionMatch.value else false
  }

  function GetEnableResizeMatch(m: EntityProfileDTO?): (r: bool)
    reads m
    ensures m != null && m.enableResizeMatch.Some? ==> r == m.enableResizeMatch.value
    ensures m == null || m.enableResizeMatch.None? ==> !r
  {
    if m != null && m.enableResizeMatch.Some? then m.enableResizeMatch.value else false
  }

  function GetEntityProperties(m: EntityProfileDTO?): (r: seq<EntityProperty>)
    reads m
    ensures m != null ==> r == m.entityProperties
    ensures m == null ==> r == []
  {
    if m != null then m.entityProperties else []
  }
}
