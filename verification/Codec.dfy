/** The documents the Vault repositories store, and the round trips between them and the records. */
module Codec {
  import opened Models

  /**
   * Document values. `Stamp` is the ISO 8601 text of a time: `isoformat` and `fromisoformat` are taken
   * as inverse to each other, so the text itself is not spelled out.
   */
  datatype Json =
    | Null
    | Bool(flag: bool)
    | Text(text: string)
    | Stamp(time: Time)
    | List(items: seq<Json>)
    | Dict(fields: map<string, Json>)

  type Secret = map<string, Json>

  function Field(data: Secret, key: string): Json {
    if key in data then data[key] else Null
  }

  function EncodeText(s: Option<string>): Json {
    if s.Some? then Text(s.value) else Null
  }

  function EncodeStamp(t: Option<Time>): Json {
    if t.Some? then Stamp(t.value) else Null
  }

  function DecodeText(j: Json): Result<Option<string>> {
    match j
    case Null => Ok(None)
    case Text(s) => Ok(Some(s))
    case _ => Err(Malformed)
  }

  function RequiredText(data: Secret, key: string): Result<string> {
    match Field(data, key)
    case Text(s) => Ok(s)
    case _ => Err(Malformed)
  }

  /** `_parse_datetime(value if isinstance(value, str) else None)`: anything but a date text counts as absent. */
  function DecodeStamp(j: Json): Result<Option<Time>> {
    match j
    case Stamp(t) => Ok(Some(t))
    case Text(s) => if s == "" then Ok(None) else Err(Malformed)
    case _ => Ok(None)
  }

  function OrElse<T>(v: Option<T>, fallback: T): T {
    if v.Some? then v.value else fallback
  }

  // --- group definitions

  function EncodeGroup(group: GroupDefinition): Secret {
    map[
      "name" := Text(group.name),
      "description" := EncodeText(group.description),
      "is_system" := Bool(group.isSystem),
      "is_active" := Bool(group.isActive),
      "created_at" := Stamp(group.createdAt)
    ]
  }

  function DecodeFlag(data: Secret, key: string, fallback: bool): Result<bool> {
    match Field(data, key)
    case Bool(b) => Ok(b)
    case Null => Ok(if key in data then false else fallback)
    case _ => Err(Malformed)
  }

  function DecodeGroup(data: Secret, now: Time): Result<GroupDefinition> {
    var name :- RequiredText(data, "name");
    var description :- DecodeText(Field(data, "description"));
    var isSystem :- DecodeFlag(data, "is_system", false);
    var isActive :- DecodeFlag(data, "is_active", true);
    var createdAt :- DecodeStamp(Field(data, "created_at"));
    Ok(GroupDefinition(name, description, isSystem, isActive, OrElse(createdAt, now)))
  }

  lemma GroupRoundTrip(group: GroupDefinition, now: Time)
    ensures DecodeGroup(EncodeGroup(group), now) == Ok(group)
  {
  }

  // --- user profiles

  function EncodeProfile(profile: UserProfile): Secret {
    map[
      "keycloak_sub" := Text(profile.keycloakSub),
      "registered_at" := Stamp(profile.registeredAt),
      "updated_at" := Stamp(profile.updatedAt),
      "display_name" := EncodeText(profile.displayName),
      "email" := EncodeText(profile.email)
    ]
  }

  function DecodeProfile(data: Secret, now: Time): Result<UserProfile> {
    var sub :- RequiredText(data, "keycloak_sub");
    var registeredAt :- DecodeStamp(Field(data, "registered_at"));
    var updatedAt :- DecodeStamp(Field(data, "updated_at"));
    var displayName :- DecodeText(Field(data, "display_name"));
    var email :- DecodeText(Field(data, "email"));
    Ok(UserProfile(sub, OrElse(registeredAt, now), OrElse(updatedAt, now), displayName, email))
  }

  lemma ProfileRoundTrip(profile: UserProfile, now: Time)
    ensures DecodeProfile(EncodeProfile(profile), now) == Ok(profile)
  {
  }

  // --- memberships

  function EncodeMembership(m: Membership): Secret {
    map[
      "keycloak_sub" := Text(m.keycloakSub),
      "group_name" := Text(m.groupName),
      "granted_at" := Stamp(m.grantedAt),
      "granted_by_sub" := EncodeText(m.grantedBySub)
    ]
  }

  function DecodeMembership(data: Secret, now: Time): Result<Membership> {
    var sub :- RequiredText(data, "keycloak_sub");
    var group :- RequiredText(data, "group_name");
    var grantedAt :- DecodeStamp(Field(data, "granted_at"));
    var grantedBySub :- DecodeText(Field(data, "granted_by_sub"));
    Ok(Membership(sub, group, OrElse(grantedAt, now), grantedBySub))
  }

  lemma MembershipRoundTrip(m: Membership, now: Time)
    ensures DecodeMembership(EncodeMembership(m), now) == Ok(m)
  {
  }

  function EncodeMemberships(ms: seq<Membership>): seq<Json> {
    seq(|ms|, i requires 0 <= i < |ms| => Dict(EncodeMembership(ms[i])))
  }

  /** The blob stored under a user's `groups` path. */
  function EncodeBlob(sub: string, ms: seq<Membership>): Secret {
    map["keycloak_sub" := Text(sub), "memberships" := List(EncodeMemberships(ms))]
  }

  /** Entries that are not documents are skipped. */
  function DecodeMemberships(items: seq<Json>, now: Time): Result<seq<Membership>> {
    if items == [] then Ok([])
    else
      var rest :- DecodeMemberships(items[1..], now);
      if !items[0].Dict? then Ok(rest)
      else
        var m :- DecodeMembership(items[0].fields, now);
        Ok([m] + rest)
  }

  function DecodeBlob(data: Secret, now: Time): Result<seq<Membership>> {
    match Field(data, "memberships")
    case List(items) => DecodeMemberships(items, now)
    case _ => Ok([])
  }

  lemma {:induction false} MembershipsRoundTrip(ms: seq<Membership>, now: Time)
    ensures DecodeMemberships(EncodeMemberships(ms), now) == Ok(ms)
  {
    if ms != [] {
      MembershipsRoundTrip(ms[1..], now);
      MembershipRoundTrip(ms[0], now);
      assert EncodeMemberships(ms)[1..] == EncodeMemberships(ms[1..]);
      assert ms == [ms[0]] + ms[1..];
    }
  }

  lemma BlobRoundTrip(sub: string, ms: seq<Membership>, now: Time)
    ensures DecodeBlob(EncodeBlob(sub, ms), now) == Ok(ms)
  {
    MembershipsRoundTrip(ms, now);
  }

  // --- issued tokens and their index entries

  function EncodeNames(names: seq<string>): seq<Json> {
    seq(|names|, i requires 0 <= i < |names| => Text(names[i]))
  }

  function DecodeNames(items: seq<Json>): Result<seq<string>> {
    if items == [] then Ok([])
    else if !items[0].Text? then Err(Malformed)
    else
      var rest :- DecodeNames(items[1..]);
      Ok([items[0].text] + rest)
  }

  lemma {:induction false} NamesRoundTrip(names: seq<string>)
    ensures DecodeNames(EncodeNames(names)) == Ok(names)
  {
    if names != [] {
      NamesRoundTrip(names[1..]);
      assert EncodeNames(names)[1..] == EncodeNames(names[1..]);
      assert names == [names[0]] + names[1..];
    }
  }

  function EncodeStatus(status: TokenStatus): Json {
    Text(if status.Active? then "active" else "revoked")
  }

  function DecodeStatus(data: Secret): Result<TokenStatus> {
    if "status" !in data then Ok(Active)
    else if data["status"] == Text("active") then Ok(Active)
    else if data["status"] == Text("revoked") then Ok(Revoked)
    else Err(Malformed)
  }

  function EncodeToken(record: TokenRecord): Secret {
    map[
      "token_id" := Text(record.tokenId),
      "owner_sub" := Text(record.ownerSub),
      "granted_groups" := List(EncodeNames(record.grantedGroups)),
      "status" := EncodeStatus(record.status),
      "issued_at" := Stamp(record.issuedAt),
      "expires_at" := EncodeStamp(record.expiresAt),
      "issued_by_sub" := EncodeText(record.issuedBySub),
      "jwt_hash" := EncodeText(record.jwtHash),
      "pending_reveal" := Bool(record.pendingReveal),
      "revoked_at" := EncodeStamp(record.revokedAt)
    ]
  }

  function DecodeToken(data: Secret, now: Time): Result<TokenRecord> {
    var issuedAt :- DecodeStamp(Field(data, "issued_at"));
    var expiresAt :- DecodeStamp(Field(data, "expires_at"));
    var revokedAt :- DecodeStamp(Field(data, "revoked_at"));
    var raw := Field(data, "granted_groups");
    var groups :- if raw.List? then DecodeNames(raw.items) else Ok([]);
    var tokenId :- RequiredText(data, "token_id");
    var ownerSub :- RequiredText(data, "owner_sub");
    var status :- DecodeStatus(data);
    var issuedBySub :- DecodeText(Field(data, "issued_by_sub"));
    var jwtHash :- DecodeText(Field(data, "jwt_hash"));
    var pendingReveal :- DecodeFlag(data, "pending_reveal", false);
    Ok(TokenRecord(tokenId, ownerSub, groups, status, OrElse(issuedAt, now), expiresAt, issuedBySub, jwtHash,
                   pendingReveal, revokedAt))
  }

  /** Reading back what was written gives the same record, whatever the clock says meanwhile. */
  lemma TokenRoundTrip(record: TokenRecord, now: Time)
    ensures DecodeToken(EncodeToken(record), now) == Ok(record)
  {
    hide EncodeNames, DecodeNames, EncodeToken;
    NamesRoundTrip(record.grantedGroups);
    TokenFields(record);
  }

  lemma TokenFields(record: TokenRecord)
    ensures
      var data := EncodeToken(record);
      && Field(data, "issued_at") == Stamp(record.issuedAt)
      && Field(data, "expires_at") == EncodeStamp(record.expiresAt)
      && Field(data, "revoked_at") == EncodeStamp(record.revokedAt)
      && Field(data, "granted_groups") == List(EncodeNames(record.grantedGroups))
      && RequiredText(data, "token_id") == Ok(record.tokenId)
      && RequiredText(data, "owner_sub") == Ok(record.ownerSub)
      && DecodeStatus(data) == Ok(record.status)
      && DecodeText(Field(data, "issued_by_sub")) == Ok(record.issuedBySub)
      && DecodeText(Field(data, "jwt_hash")) == Ok(record.jwtHash)
      && DecodeFlag(data, "pending_reveal", false) == Ok(record.pendingReveal)
  {
    hide EncodeNames, DecodeNames;
  }

  function UserEntry(record: TokenRecord): Secret {
    map[
      "token_id" := Text(record.tokenId),
      "owner_sub" := Text(record.ownerSub),
      "status" := EncodeStatus(record.status)
    ]
  }

  function GroupEntry(record: TokenRecord, group: string): Secret {
    map[
      "token_id" := Text(record.tokenId),
      "group_name" := Text(group),
      "owner_sub" := Text(record.ownerSub),
      "status" := EncodeStatus(record.status)
    ]
  }
}
