/**
 * The deployment profile (a service catalog item): an id, a profile name, the
 * context data needed to deploy, and the ids of the entity profiles and scopes it
 * relates to. ContextData is a message declared outside this file; it is kept as
 * its encoded bytes.
 */
module Deployment {
  import opened Wrappers
  import opened Wire

  /** A ContextData message, kept opaque as its encoding. */
  datatype ContextData = ContextData(encoded: seq<byte>)

  datatype DeploymentProfile = DeploymentProfile(
    id: Option<string>,
    profileName: Option<string>,
    contextData: seq<ContextData>,
    relatedEntityProfileId: seq<string>,
    relatedScopeId: seq<string>,
    unrecognized: seq<byte>)

  function GetId(m: Option<DeploymentProfile>): (r: string)
    ensures m.Some? && m.value.id.Some? ==> r == m.value.id.value
    ensures m.None? || m.value.id.None? ==> r == ""
  {
    if m.Some? && m.value.id.Some? then m.value.id.value else ""
  }

  function GetProfileName(m: Option<DeploymentProfile>): (r: string)
    ensures m.Some? && m.value.profileName.Some? ==> r == m.value.profileName.value
    ensures m.None? || m.value.profileName.None? ==> r == ""
  {
    if m.Some? && m.value.profileName.Some? then m.value.profileName.value else ""
  }

  function GetContextData(m: Option<DeploymentProfile>): (r: seq<ContextData>)
    ensures m.Some? ==> r == m.value.contextData
    ensures m.None? ==> r == []
  {
    if m.Some? then m.value.contextData else []
  }

  function GetRelatedEntityProfileId(m: Option<DeploymentProfile>): (r: seq<string>)
    ensures m.Some? ==> r == m.value.relatedEntityProfileId
    ensures m.None? ==> r == []
  {
    if m.Some? then m.value.relatedEntityProfileId else []
  }

  function GetRelatedScopeId(m: Option<DeploymentProfile>): (r: seq<string>)
    ensures m.Some? ==> r == m.value.relatedScopeId
    ensures m.None? ==> r == []
  {
    if m.Some? then m.value.relatedScopeId else []
  }
}
