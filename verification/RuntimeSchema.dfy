/** The normal form of an authorize request. */
module RuntimeSchema {
  import opened Models
  import opened Text
  import opened Authority

  datatype Fields = Fields(tokenId: string, ownerSub: string, group: Option<string>, resource: Option<string>)

  function Stripped(f: Fields): Fields {
    Fields(Strip(f.tokenId), Strip(f.ownerSub), StripOrNone(f.group), StripOrNone(f.resource))
  }

  /** Both ids present, and exactly one target. */
  predicate Complete(f: Fields) {
    f.tokenId != "" && f.ownerSub != "" && f.group.Some? != f.resource.Some?
  }

  class RuntimeAuthorizationRequestSchema {
    var tokenId: string
    var ownerSub: string
    var group: Option<string>
    var resource: Option<string>

    function Contents(): Fields
      reads this
    {
      Fields(tokenId, ownerSub, group, resource)
    }

    constructor (fields: Fields)
      ensures Contents() == fields
    {
      tokenId, ownerSub, group, resource := fields.tokenId, fields.ownerSub, fields.group, fields.resource;
    }

    /** Accepts exactly the requests whose stripped fields are complete, and then stores the stripped fields. */
    method ValidateTarget() returns (r: Result<()>)
      modifies this
      ensures r.Ok? <==> Complete(Stripped(old(Contents())))
      ensures r.Err? ==> r.error == InvalidValue
      ensures Contents() == if r.Ok? then Stripped(old(Contents())) else old(Contents())
    {
      var strippedId := Strip(tokenId);
      var strippedSub := Strip(ownerSub);
      var strippedGroup := StripOrNone(group);
      var strippedResource := StripOrNone(resource);
      if strippedId == "" || strippedSub == "" {
        return Err(InvalidValue);
      }
      if strippedGroup.Some? == strippedResource.Some? {
        return Err(InvalidValue);
      }
      tokenId := strippedId;
      ownerSub := strippedSub;
      group := strippedGroup;
      resource := strippedResource;
      r := Ok(());
    }
  }

  lemma StripOrNoneIdempotent(s: Option<string>)
    ensures StripOrNone(StripOrNone(s)) == StripOrNone(s)
    ensures StripOrNone(s).Some? ==> StripOrNone(s).value != ""
  {
    if s.Some? {
      var _, _ := StripCuts(s.value);
      StripTrimmed(Strip(s.value));
    }
  }

  /** Validating a validated request changes nothing. */
  lemma StrippedIdempotent(f: Fields)
    ensures Stripped(Stripped(f)) == Stripped(f)
  {
    var _, _ := StripCuts(f.tokenId);
    var _, _ := StripCuts(f.ownerSub);
    StripTrimmed(Strip(f.tokenId));
    StripTrimmed(Strip(f.ownerSub));
    StripOrNoneIdempotent(f.group);
    StripOrNoneIdempotent(f.resource);
  }

  /** Both ids, and either a group or a resource but not both, are there and not blank. */
  predicate Definite(f: Fields) {
    && HasInk(f.tokenId) && HasInk(f.ownerSub)
    && ((f.group.Some? && HasInk(f.group.value)) <==> !(f.resource.Some? && HasInk(f.resource.value)))
  }

  /** What the validator accepts, said of the fields as they came in. */
  lemma AcceptsIff(f: Fields)
    ensures Complete(Stripped(f)) <==> Definite(f)
  {
    StripBlankIff(f.tokenId);
    StripBlankIff(f.ownerSub);
    if f.group.Some? {
      StripBlankIff(f.group.value);
    }
    if f.resource.Some? {
      StripBlankIff(f.resource.value);
    }
  }

  function ToRequest(f: Fields): AuthorizationRequest {
    AuthorizationRequest(f.tokenId, Some(f.ownerSub), f.group, f.resource)
  }

  /** The request that comes of accepted fields: every field that is given, stripped, and nothing for a blank one. */
  lemma RequestOf(f: Fields)
    requires Definite(f)
    ensures
      var request := ToRequest(Stripped(f));
      && request.tokenId == Strip(f.tokenId) && request.ownerSub == Some(Strip(f.ownerSub))
      && (if f.group.Some? && HasInk(f.group.value) then
            request.requestedGroup == Some(Strip(f.group.value)) && request.requestedResource == None
          else
            && f.resource.Some? && HasInk(f.resource.value)
            && request.requestedGroup == None && request.requestedResource == Some(Strip(f.resource.value)))
  {
    if f.group.Some? {
      StripBlankIff(f.group.value);
    }
    if f.resource.Some? {
      StripBlankIff(f.resource.value);
    }
  }

  /** An accepted request always asks for one definite permission: its group if it has one, else its resource. */
  lemma PermissionIsDefinite(f: Fields)
    requires Definite(f)
    ensures
      var permission := RequiredPermission(ToRequest(Stripped(f)));
      && permission.Some? && HasInk(permission.value)
      && permission == Some(Strip(if f.group.Some? && HasInk(f.group.value) then f.group.value else f.resource.value))
  {
    RequestOf(f);
    var given := if f.group.Some? && HasInk(f.group.value) then f.group.value else f.resource.value;
    StripBlankIff(given);
    StripBlankIff(Strip(given));
    var _, _ := StripCuts(given);
    StripTrimmed(Strip(given));
  }
}
