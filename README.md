# Resource-profile messages of the Turbonomic SDK, in Dafny

This project models the resource-profile message layer of the Turbonomic Go SDK, as
generated into `ProfileDTO.pb.go`. It has five messages:

- the entity profile (`EntityProfileDTO`), a template for service entities;
- the VM profile and the PM profile, the two variants of the entity profile's
  `VMOrPMProfileData` oneof;
- the commodity profile, one per commodity (CPU, MEM, ...) of a template;
- the deployment profile, a service catalog item tied to entity profiles and scopes.

Each singular field is optional-with-presence; repeated fields are plain lists and the oneof is a union. A nil pointer in Go is `None` here.
Each message keeps the bytes of fields it does not declare (`XXX_unrecognized`).

The model covers:

- **Getters.** Every `Get*` getter returns the stored value when the field is set.
  When the field is unset, or the message itself is nil, it returns the type's
  default: `""`, `false`, `0`, `EntityDTO_SWITCH` or `CommodityDTO_CLUSTER`.
  Repeated fields come back as stored.
- **The oneof.** The VM-or-PM union has three parts:
  - a marshaler that writes key 66 (field 8) or 74 (field 9), then the nested
    message, length-delimited;
  - a sizer that counts those bytes;
  - an unmarshaler that claims fields 8 and 9 and replaces the variant held.
- **Struct tags.** Each field's number, wire kind (`varint`, `fixed32`, `bytes`)
  and status (`req`, `opt`, `rep`, oneof member) are written out as tables for
  the entity, VM, PM and commodity profiles. The tables of the three all-scalar
  messages (VM, PM, commodity) drive a codec.

Modules, one file each:

- `Wrappers` (`wrappers.dfy`): `Option` and `Result`.
- `Wire` (`wire.dfy`): the Protocol Buffers wire format as this code uses it:
  - base-128 varints;
  - keys `field << 3 | wire`;
  - little-endian fixed32;
  - length-delimited payloads;
  - int32 values sign-extended to 64 bits.
- `ScalarCodec` (`scalar_codec.dfy`): struct tags, and a codec they drive for
  messages whose fields are all int32/enum or float32. Encoding writes the
  present fields in field order, then the unrecognized bytes. Decoding works
  field by field:
  - the last occurrence of a field wins;
  - a declared field with another wire type is an error;
  - an undeclared field is kept, key included;
  - a missing `req` field is reported by name (the first one missing).
- `ProtoBuffer` (`proto_buffer.dfy`): the `proto.Buffer` that the oneof
  functions call. It is a class holding the bytes and a read position, with
  `EncodeVarint` (a loop), `EncodeMessage` and `DecodeMessage`.
- `ProfileMessages` (`profile_messages.dfy`): the VM, PM and commodity
  profiles, their struct tags, their getters, and their conversion to and from
  codec messages.
- `Deployment` (`deployment_profile.dfy`): the deployment profile and its
  getters.
- `EntityProfile` (`entity_profile.dfy`): the entity profile. It is a class,
  because the oneof unmarshaler assigns its union field in place and `Reset`
  overwrites it. The module also holds its getters, which accept a null
  receiver.
- `ProfileOneof` (`profile_oneof.dfy`): the oneof marshaler, unmarshaler and
  sizer, with their properties.

Representation choices:

- float32 fields are held as their 32-bit patterns (`uint32`) and never
  interpreted.
- Enum fields are held as int32 codes.
- `EntityDTO_EntityProperty` and `ContextData` are declared in other files of
  the SDK. They are held as opaque encoded bytes.

## Model

| member | source | states |
|---|---|---|
| `EntityProfile.EntityProfileDTO.constructor` | vendor/github.com/turbonomic/turbo-go-sdk/pkg/proto/ProfileDTO.pb.go:18-50 | a new entity profile has no field set, no oneof variant and no unrecognized bytes |
| `EntityProfile.EntityProfileDTO.Reset` | vendor/github.com/turbonomic/turbo-go-sdk/pkg/proto/ProfileDTO.pb.go:52 | every field is back to its zero value, so every getter then reports its default and both oneof getters report nil |
| `EntityProfile.GetVMOrPMProfileData` | vendor/github.com/turbonomic/turbo-go-sdk/pkg/proto/ProfileDTO.pb.go:71-76 | the union held, or no variant for a nil message |
| `EntityProfile.GetId` | vendor/github.com/turbonomic/turbo-go-sdk/pkg/proto/ProfileDTO.pb.go:78-83 | the stored id when set; `""` when unset or the message is nil |
| `EntityProfile.GetDisplayName` | vendor/github.com/turbonomic/turbo-go-sdk/pkg/proto/ProfileDTO.pb.go:85-90 | the stored display name when set; `""` otherwise |
| `EntityProfile.GetEntityType` | vendor/github.com/turbonomic/turbo-go-sdk/pkg/proto/ProfileDTO.pb.go:92-97 | the stored entity type when set; `EntityDTO_SWITCH` otherwise |
| `EntityProfile.GetCommodityProfile` | vendor/github.com/turbonomic/turbo-go-sdk/pkg/proto/ProfileDTO.pb.go:99-104 | the stored list itself, order and duplicates kept; empty for a nil message |
| `EntityProfile.GetModel` | vendor/github.com/turbonomic/turbo-go-sdk/pkg/proto/ProfileDTO.pb.go:106-111 | the stored model when set; `""` otherwise |
| `EntityProfile.GetVendor` | vendor/github.com/turbonomic/turbo-go-sdk/pkg/proto/ProfileDTO.pb.go:113-118 | the stored vendor when set; `""` otherwise |
| `EntityProfile.GetDescription` | vendor/github.com/turbonomic/turbo-go-sdk/pkg/proto/ProfileDTO.pb.go:120-125 | the stored description when set; `""` otherwise |
| `EntityProfile.GetVmProfileDTO` | vendor/github.com/turbonomic/turbo-go-sdk/pkg/proto/ProfileDTO.pb.go:127-132 | non-nil exactly when the union holds a VM profile, and then that profile |
| `EntityProfile.GetPmProfileDTO` | vendor/github.com/turbonomic/turbo-go-sdk/pkg/proto/ProfileDTO.pb.go:134-139 | non-nil exactly when the union holds a PM profile, and then that profile; never non-nil together with GetVmProfileDTO |
| `EntityProfile.GetEnableProvisionMatch` | vendor/github.com/turbonomic/turbo-go-sdk/pkg/proto/ProfileDTO.pb.go:141-146 | the stored flag when set; false otherwise |
| `EntityProfile.GetEnableResizeMatch` | vendor/github.com/turbonomic/turbo-go-sdk/pkg/proto/ProfileDTO.pb.go:148-153 | the stored flag when set; false otherwise |
| `EntityProfile.GetEntityProperties` | vendor/github.com/turbonomic/turbo-go-sdk/pkg/proto/ProfileDTO.pb.go:155-160 | the stored list itself; empty for a nil message |
| `ProfileMessages.GetNumVCPUs` | vendor/github.com/turbonomic/turbo-go-sdk/pkg/proto/ProfileDTO.pb.go:257-262 | the stored count when set; 0 when unset or the profile is nil |
| `ProfileMessages.GetVCPUSpeed` | vendor/github.com/turbonomic/turbo-go-sdk/pkg/proto/ProfileDTO.pb.go:264-269 | the stored bits when set; 0 otherwise |
| `ProfileMessages.GetNumStorageConsumed` | vendor/github.com/turbonomic/turbo-go-sdk/pkg/proto/ProfileDTO.pb.go:271-276 | the stored count when set; 0 otherwise |
| `ProfileMessages.GetNumCores` | vendor/github.com/turbonomic/turbo-go-sdk/pkg/proto/ProfileDTO.pb.go:295-300 | the stored count when set; 0 otherwise |
| `ProfileMessages.GetCpuCoreSpeed` | vendor/github.com/turbonomic/turbo-go-sdk/pkg/proto/ProfileDTO.pb.go:302-307 | the stored bits when set; 0 otherwise |
| `ProfileMessages.GetCommodityType` | vendor/github.com/turbonomic/turbo-go-sdk/pkg/proto/ProfileDTO.pb.go:333-338 | the stored commodity type when set; `CommodityDTO_CLUSTER` otherwise |
| `ProfileMessages.GetCapacity` | vendor/github.com/turbonomic/turbo-go-sdk/pkg/proto/ProfileDTO.pb.go:340-345 | the stored bits when set; 0 otherwise |
| `ProfileMessages.GetConsumedFactor` | vendor/github.com/turbonomic/turbo-go-sdk/pkg/proto/ProfileDTO.pb.go:347-352 | the stored bits when set; 0 otherwise |
| `ProfileMessages.GetConsumed` | vendor/github.com/turbonomic/turbo-go-sdk/pkg/proto/ProfileDTO.pb.go:354-359 | the stored bits when set; 0 otherwise |
| `ProfileMessages.GetReservation` | vendor/github.com/turbonomic/turbo-go-sdk/pkg/proto/ProfileDTO.pb.go:361-366 | the stored bits when set; 0 otherwise |
| `ProfileMessages.GetOverhead` | vendor/github.com/turbonomic/turbo-go-sdk/pkg/proto/ProfileDTO.pb.go:368-373 | the stored bits when set; 0 otherwise |
| `Deployment.GetId` | vendor/github.com/turbonomic/turbo-go-sdk/pkg/proto/ProfileDTO.pb.go:399-404 | the stored id when set; `""` otherwise |
| `Deployment.GetProfileName` | vendor/github.com/turbonomic/turbo-go-sdk/pkg/proto/ProfileDTO.pb.go:406-411 | the stored profile name when set; `""` otherwise |
| `Deployment.GetContextData` | vendor/github.com/turbonomic/turbo-go-sdk/pkg/proto/ProfileDTO.pb.go:413-418 | the stored list itself; empty for a nil profile |
| `Deployment.GetRelatedEntityProfileId` | vendor/github.com/turbonomic/turbo-go-sdk/pkg/proto/ProfileDTO.pb.go:420-425 | the stored ids, order and duplicates kept; empty for a nil profile |
| `Deployment.GetRelatedScopeId` | vendor/github.com/turbonomic/turbo-go-sdk/pkg/proto/ProfileDTO.pb.go:427-432 | the stored ids, order and duplicates kept; empty for a nil profile |
| `ProfileMessages.ProfileTagsAreScalar` | vendor/github.com/turbonomic/turbo-go-sdk/pkg/proto/ProfileDTO.pb.go:242-324 | the VM, PM and commodity struct tags number their fields from 1, declare only varint and fixed32 kinds, and make only the commodity type required |
| `ProfileMessages.VmMessage` | vendor/github.com/turbonomic/turbo-go-sdk/pkg/proto/ProfileDTO.pb.go:242-246 | a VM profile's slots have the kinds its struct tags declare (varint, fixed32, varint) and its unrecognized bytes carry over; which field goes in which slot is stated by VmFieldsByName |
| `ProfileMessages.VmOf` | vendor/github.com/turbonomic/turbo-go-sdk/pkg/proto/ProfileDTO.pb.go:237-248 | every message that fits the VM struct tags is exactly one VM profile |
| `ProfileMessages.VmOfVmMessage` | vendor/github.com/turbonomic/turbo-go-sdk/pkg/proto/ProfileDTO.pb.go:237-248 | the VM profile survives the trip to a message and back |
| `ProfileMessages.PmMessage` | vendor/github.com/turbonomic/turbo-go-sdk/pkg/proto/ProfileDTO.pb.go:283-284 | a PM profile's slots have the kinds its struct tags declare (varint, fixed32) and its unrecognized bytes carry over; which field goes in which slot is stated by PmFieldsByName |
| `ProfileMessages.PmOf` | vendor/github.com/turbonomic/turbo-go-sdk/pkg/proto/ProfileDTO.pb.go:279-286 | every message that fits the PM struct tags is exactly one PM profile |
| `ProfileMessages.PmOfPmMessage` | vendor/github.com/turbonomic/turbo-go-sdk/pkg/proto/ProfileDTO.pb.go:279-286 | the PM profile survives the trip to a message and back |
| `ProfileMessages.CommodityMessage` | vendor/github.com/turbonomic/turbo-go-sdk/pkg/proto/ProfileDTO.pb.go:314-324 | a commodity profile's slots have the kinds its struct tags declare (a varint, then five fixed32) and its unrecognized bytes carry over; which field goes in which slot is stated by CommodityFieldsByName |
| `ProfileMessages.CommodityOf` | vendor/github.com/turbonomic/turbo-go-sdk/pkg/proto/ProfileDTO.pb.go:312-326 | every message that fits the commodity struct tags is exactly one commodity profile |
| `ProfileMessages.VmFieldsByName` | vendor/github.com/turbonomic/turbo-go-sdk/pkg/proto/ProfileDTO.pb.go:242-246 | numVCPUs travels in the slot tagged `name=numVCPUs` as field 1, vCPUSpeed in the slot tagged `name=vCPUSpeed` as field 2, numStorageConsumed in the slot tagged `name=numStorageConsumed` as field 3 |
| `ProfileMessages.PmFieldsByName` | vendor/github.com/turbonomic/turbo-go-sdk/pkg/proto/ProfileDTO.pb.go:283-284 | numCores travels in the slot tagged `name=numCores` as field 1, cpuCoreSpeed in the slot tagged `name=cpuCoreSpeed` as field 2 |
| `ProfileMessages.CommodityFieldsByName` | vendor/github.com/turbonomic/turbo-go-sdk/pkg/proto/ProfileDTO.pb.go:314-324 | each of commodityType, capacity, consumedFactor, consumed, reservation and overhead travels in the slot whose tag carries its name, as fields 1 to 6 in that order |
| `ProfileMessages.DecodeCommodity` | vendor/github.com/turbonomic/turbo-go-sdk/pkg/proto/ProfileDTO.pb.go:314 | a commodity profile that decodes has its commodity type set, as its `req` tag demands |
| `ProfileMessages.CommodityRoundTrip` | vendor/github.com/turbonomic/turbo-go-sdk/pkg/proto/ProfileDTO.pb.go:312-326 | a commodity profile with its type set, whose unrecognized bytes are whole undeclared fields (`UnknownOnly`), decodes from its encoding unchanged, unknown fields included |
| `ProfileMessages.DecodedCommodityReencodes` | vendor/github.com/turbonomic/turbo-go-sdk/pkg/proto/ProfileDTO.pb.go:312-326 | every commodity profile that decodes is encoded and decoded again to the same result, with no precondition on its unknown fields |
| `ProfileMessages.CommodityTypeRequired` | vendor/github.com/turbonomic/turbo-go-sdk/pkg/proto/ProfileDTO.pb.go:314 | without its type, a commodity profile's encoding fails to decode with a required-field error naming `commodityType` |
| `ProfileOneof.FieldOf` | vendor/github.com/turbonomic/turbo-go-sdk/pkg/proto/ProfileDTO.pb.go:61-66 | a VM profile travels as field 8, a PM profile as field 9 |
| `ProfileOneof.OneofMarshaler` | vendor/github.com/turbonomic/turbo-go-sdk/pkg/proto/ProfileDTO.pb.go:170-189 | appends the key and the length-delimited nested message of the variant held, or nothing when unset, and never fails |
| `ProfileOneof.KeyBytes` | vendor/github.com/turbonomic/turbo-go-sdk/pkg/proto/ProfileDTO.pb.go:175-180 | the keys `8<<3\|WireBytes` and `9<<3\|WireBytes` are the single bytes 66 and 74 |
| `ProfileOneof.OneofBytesSplit` | vendor/github.com/turbonomic/turbo-go-sdk/pkg/proto/ProfileDTO.pb.go:175-181 | the marshaler's output is a one-byte key followed by the varint size and the nested message's encoding |
| `ProfileOneof.MarshalerEmitsOneField` | vendor/github.com/turbonomic/turbo-go-sdk/pkg/proto/ProfileDTO.pb.go:170-189 | the output is empty exactly when the oneof is unset, otherwise it starts with 66 (VM) or 74 (PM), which reads back as field 8 or 9 with wire type bytes |
| `ProfileOneof.OneofSizer` | vendor/github.com/turbonomic/turbo-go-sdk/pkg/proto/ProfileDTO.pb.go:215-234 | zero exactly when the oneof is unset |
| `ProfileOneof.SizerMatchesMarshaler` | vendor/github.com/turbonomic/turbo-go-sdk/pkg/proto/ProfileDTO.pb.go:215-234 | the sizer's count equals the number of bytes the marshaler appends |
| `ProfileOneof.OneofUnmarshal` | vendor/github.com/turbonomic/turbo-go-sdk/pkg/proto/ProfileDTO.pb.go:191-213 | claims exactly fields 8 and 9; another field gives (false, nil) and changes nothing; a wire type other than bytes gives (true, bad wire type) and changes nothing; otherwise the variant of that field replaces what was held, holding the decoded message even when decoding failed, and the decoding error is returned |
| `ProfileOneof.OneofUnmarshaler` | vendor/github.com/turbonomic/turbo-go-sdk/pkg/proto/ProfileDTO.pb.go:191-213 | the results, the new union field and the new read position are those OneofUnmarshal gives, and the buffer's bytes stay as they were |
| `ProfileOneof.StoresDecoded` | vendor/github.com/turbonomic/turbo-go-sdk/pkg/proto/ProfileDTO.pb.go:198-201 | a nested message that decodes without error becomes the new variant, whatever was held |
| `ProfileOneof.OneofClaimsItsStructTags` | vendor/github.com/turbonomic/turbo-go-sdk/pkg/proto/ProfileDTO.pb.go:61-66 | the unmarshaler claims a field exactly when the entity profile's struct tags mark it a oneof member, and every such field is of kind bytes |
| `ProfileOneof.UnmarshalMarshalRoundTrip` | vendor/github.com/turbonomic/turbo-go-sdk/pkg/proto/ProfileDTO.pb.go:170-213 | for a `WellFormed` variant (its nested message's unrecognized bytes are whole undeclared fields), the marshaler's output, after any prefix and before anything, reads back as the same variant's key, and the unmarshaler then restores the same variant with no error and stops right after it |
| `ProfileOneof.UnmarshalKeepsWellFormed` | vendor/github.com/turbonomic/turbo-go-sdk/pkg/proto/ProfileDTO.pb.go:198-209 | the unmarshaler only stores a `WellFormed` variant, so the round trip applies to whatever it decoded |
| `ProfileOneof.LastFieldWins` | vendor/github.com/turbonomic/turbo-go-sdk/pkg/proto/ProfileDTO.pb.go:198-209 | for field 8 or 9 with wire type bytes the outcome does not depend on the variant held before, so the last such field in a stream wins |
| `ProtoBuffer.Buffer.EncodeVarint` | vendor/github.com/turbonomic/turbo-go-sdk/pkg/proto/ProfileDTO.pb.go:175-180 | appends exactly the base-128 varint of the value |
| `ProtoBuffer.Buffer.EncodeMessage` | vendor/github.com/turbonomic/turbo-go-sdk/pkg/proto/ProfileDTO.pb.go:176-181 | appends the message's size as a varint, then its encoding |
| `ProtoBuffer.Buffer.DecodeMessage` | vendor/github.com/turbonomic/turbo-go-sdk/pkg/proto/ProfileDTO.pb.go:199 | returns and moves the read position as DecodeMessageAt says |
| `ProtoBuffer.DecodeRawBytes` | vendor/github.com/turbonomic/turbo-go-sdk/pkg/proto/ProfileDTO.pb.go:199 | a payload span lies after the length and ends at the new position; a length that does not read leaves the position unchanged |
| `ProtoBuffer.RawBytesIsReadDelimited` | vendor/github.com/turbonomic/turbo-go-sdk/pkg/proto/ProfileDTO.pb.go:199 | the raw-bytes read gives the same error as the read that skips a field, or the same payload span shifted to the read position |
| `ProtoBuffer.DecodeMessageAt` | vendor/github.com/turbonomic/turbo-go-sdk/pkg/proto/ProfileDTO.pb.go:199 | the decoded message fits the struct tags, keeps only whole undeclared fields as unrecognized bytes, has its required fields when there is no error, and stays empty when the raw bytes cannot be read |
| `ProtoBuffer.DecodeEncodedMessage` | vendor/github.com/turbonomic/turbo-go-sdk/pkg/proto/ProfileDTO.pb.go:176 | for a message whose unrecognized bytes are whole undeclared fields (`UnknownOnly`), what EncodeMessage appends decodes back to the same message with the position right after it, whatever precedes or follows |
| `Wire.VarintSize` | vendor/github.com/turbonomic/turbo-go-sdk/pkg/proto/ProfileDTO.pb.go:221-222 | proto.SizeVarint counts exactly the bytes of the varint, for every uint64 |
| `Wire.DecodeEncodeVarint` | vendor/github.com/turbonomic/turbo-go-sdk/pkg/proto/ProfileDTO.pb.go:175 | a varint reads back as the value written, taking SizeVarint bytes, whatever follows |
| `Wire.VarintContinuationBits` | vendor/github.com/turbonomic/turbo-go-sdk/pkg/proto/ProfileDTO.pb.go:175 | only the last byte of a varint has its high bit clear |
| `Wire.ReadEncodedKey` | vendor/github.com/turbonomic/turbo-go-sdk/pkg/proto/ProfileDTO.pb.go:191 | a key written for a legal field number reads back as the same field and wire type |
| `Wire.Int32RoundTrip` | vendor/github.com/turbonomic/turbo-go-sdk/pkg/proto/ProfileDTO.pb.go:242 | an int32 sign-extended to a uint64 and cut back to 32 bits is the same int32 |
| `Wire.Fixed32RoundTrip` | vendor/github.com/turbonomic/turbo-go-sdk/pkg/proto/ProfileDTO.pb.go:244 | four little-endian bytes read back as the same 32-bit value |
| `ScalarCodec.SizeIsLength` | vendor/github.com/turbonomic/turbo-go-sdk/pkg/proto/ProfileDTO.pb.go:220 | proto.Size of a message equals the number of bytes its encoding takes |
| `ScalarCodec.Unmarshal` | vendor/github.com/turbonomic/turbo-go-sdk/pkg/proto/ProfileDTO.pb.go:199 | a decoded message fits its struct tags and, when there is no error, has every required field |
| `ScalarCodec.UnknownFieldsKept` | vendor/github.com/turbonomic/turbo-go-sdk/pkg/proto/ProfileDTO.pb.go:247 | fields the struct tags do not declare are appended to the unrecognized bytes exactly as they came, key included |
| `ScalarCodec.KnownFieldsDecoded` | vendor/github.com/turbonomic/turbo-go-sdk/pkg/proto/ProfileDTO.pb.go:242-246 | the encoded declared fields decode back into the same slots, each absent one staying absent |
| `ScalarCodec.MarshalDecodes` | vendor/github.com/turbonomic/turbo-go-sdk/pkg/proto/ProfileDTO.pb.go:237-248 | for a message whose unrecognized bytes are whole undeclared fields (`UnknownOnly`), decoding its encoding restores every field and the unrecognized bytes, with no decoding error |
| `ScalarCodec.RoundTrip` | vendor/github.com/turbonomic/turbo-go-sdk/pkg/proto/ProfileDTO.pb.go:237-248 | a message with its required fields, whose unrecognized bytes are whole undeclared fields (`UnknownOnly`), decodes from its encoding to itself, with no error |
| `ScalarCodec.UnknownOnlyAppend` | vendor/github.com/turbonomic/turbo-go-sdk/pkg/proto/ProfileDTO.pb.go:247 | two runs of whole undeclared fields join into one |
| `ScalarCodec.DecodeKeepsUnknownOnly` | vendor/github.com/turbonomic/turbo-go-sdk/pkg/proto/ProfileDTO.pb.go:247 | the decoding loop adds only whole undeclared fields to the unrecognized bytes |
| `ScalarCodec.UnmarshalKeepsUnknownOnly` | vendor/github.com/turbonomic/turbo-go-sdk/pkg/proto/ProfileDTO.pb.go:247 | every message the codec decodes keeps only whole undeclared fields as unrecognized bytes |
| `ScalarCodec.MissingRequiredReported` | vendor/github.com/turbonomic/turbo-go-sdk/pkg/proto/ProfileDTO.pb.go:314 | a message missing a required field decodes fully and then reports the first such field by name |

## Left out

- Go's pointer to an empty oneof wrapper is not modelled. In Go the union could hold
  `&EntityProfileDTO_VmProfileDTO{nil}`; here a variant always holds a message,
  as the unmarshaler always allocates one.
- The marshaler's `default:` branch (`ProfileDTO.pb.go:185-186`) is not modelled,
  and neither is the sizer's `panic` (`:230-231`). They fire only for a type
  outside the union, which a closed Dafny datatype cannot hold.
- ProfileOneof.OneofMarshaler: the nested `EncodeMessage` is modelled as never
  failing. The library's nil-message error cannot arise, since a variant always
  holds a message. The VM and PM profiles have no required field, so no
  required-field error arises either.
- The entity profile's and the deployment profile's own codecs are not
  modelled: strings, repeated and nested fields go through the library's
  reflection-based encoder. Only the entity profile's struct tags are written
  out (`EntityProfileTags`), because the oneof's claim on fields 8 and 9 is
  related to them; the deployment profile's struct tags are not part of the model.
- The library's codec internals are not reproduced. The nested-message codec is
  a per-struct-tag model of the wire format. Where it may differ from the library:
  - a declared field with another wire type is an error;
  - start-group and end-group fields are an error;
  - a field number of zero is an error before the wire type is looked at;
  - an undeclared field's key is kept as the bytes read. The library re-encodes
    the key as the minimal varint of `field<<3|wire` before it stores the field.
    The two differ only for a key sent in a non-minimal varint (for example
    `[0xE8, 0x00]` for field 13, varint, which the library stores as `[0x68]`).
- ScalarCodec.MissingRequiredReported names the first missing required field
  in its `RequiredNotSet` error. The table-driven decoder of golang/protobuf 1.1
  and later names the last missing one, and the older reflection decoder reports
  the name `{Unknown}`. Only the commodity profile has a required field, and
  only one, so first and last coincide for every message this model decodes.
  Which runtime this code links against is not part of this model.
- ProfileMessages.CommodityTypeRequired states the error as
  `RequiredNotSet("commodityType")`, for the same reason; with the older
  decoder the error is the same kind but carries `{Unknown}`.
- The three oneof functions (`XXX_OneofFuncs`, `ProfileDTO.pb.go:163-168`) are
  called only by the older reflection runtime; golang/protobuf 1.1 and later use
  only the wrapper list. The oneof model follows the older path.
- The repeated-field getters (`EntityProfile.GetCommodityProfile`,
  `EntityProfile.GetEntityProperties`, `Deployment.GetContextData`,
  `Deployment.GetRelatedEntityProfileId`, `Deployment.GetRelatedScopeId`)
  return a value sequence. In Go they return the slice itself, which shares
  storage with the message, and the pointer elements of
  `commodityProfile`, `entityProperties` and `contextData` may be nil. The
  model captures neither the aliasing nor nil elements.
- The oneof getters (`EntityProfile.GetVmProfileDTO`,
  `EntityProfile.GetPmProfileDTO`) return a copy of the profile. In Go they
  return the pointer held in the union (`ProfileDTO.pb.go:129`, `:136`), so a
  caller writing through it changes the entity profile; the model does not
  capture that aliasing.
- `Reset` on the VM, PM, commodity and deployment profiles is not modelled
  separately: these are values here, and their zero value is the profile with
  every field `None` and nothing unrecognized.
- float32 arithmetic: fixed32 fields are opaque bit patterns. Nothing in
  `ProfileDTO.pb.go` computes consumed = capacity × consumedFactor,
  capacity − overhead, or checks reservation ≤ capacity. Those rules belong to
  consumers of the messages and are not modelled.
- The enums `EntityDTO_EntityType` and `CommodityDTO_CommodityType` are declared
  in another file of the SDK. Their values are taken as int32 codes. The getter
  defaults `EntityDTO_SWITCH` and `CommodityDTO_CLUSTER` are taken to be code 0,
  the first member of each enum; that file is not part of this model.
- The message registry and reflection are not modelled: `init`, the gzipped file
  descriptor, `Descriptor`, `String` and `ProtoMessage`. They are runtime
  registration and text formatting in the protobuf library.
- `cmd/kubeturbo/app/kubeturbo_builder.go` is not part of this model: it is process
  bootstrap (flags, API clients, HTTP servers, goroutines) and I/O.
- Go's `int` is 64 bits wide, so a nested message's size stays below 2^63. The
  marshaler and the round-trip lemmas take this as a precondition (`Encodable`).
