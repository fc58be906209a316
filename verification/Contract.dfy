/**
 * What every request promises, in terms of the state before, the state after and the reply alone: when it succeeds,
 * which error it gives otherwise, what is different afterwards and what is logged.
 */
module Contract {
  import opened Models
  import opened Text
  import opened Sorting
  import opened Rules
  import opened Claims
  import opened Authority
  import opened Runs
  import opened History
  import Codec

  // --- starts

  /** Old groups and memberships stay; the admin group and the configured admins are there. */
  ghost predicate StartMeets(s: State, trusted: seq<string>, now: Time, t: State) {
    var description := Some("Reserved control-plane administrators");
    && t == s.(groups := t.groups, members := t.members, log := [])
    && t.groups == (if RESERVED_ADMIN_GROUP in s.groups then s.groups
                    else s.groups[RESERVED_ADMIN_GROUP :=
                           GroupDefinition("admin", description, true, true, now)])
    && (forall k :: k in t.members <==>
          k in s.members || (k.1 == RESERVED_ADMIN_GROUP && k.0 != ""
                             && exists i | 0 <= i < |trusted| :: Strip(trusted[i]) == k.0))
    && (forall k | k in t.members :: t.members[k] ==
          if k in s.members then s.members[k] else Membership(k.0, RESERVED_ADMIN_GROUP, now, None))
  }

  lemma StartDoes(s: State, trusted: seq<string>, now: Time)
    ensures StartMeets(s, trusted, now, Bootstrap(s.(log := []), trusted, now))
  {
    hide NormalizeSubjects, GrantAdmins, Strip;
    var subs := NormalizeSubjects(trusted);
    GrantAdminsExact(s.members, subs, now);
    forall x ensures x in subs <==> x != "" && exists i | 0 <= i < |trusted| :: Strip(trusted[i]) == x {
      SubjectsAre(trusted, x);
    }
  }

  // --- registration

  /** The verified identity claims a text for the key that is not blank. */
  predicate Gives(claims: map<string, Codec.Json>, key: string, v: string) {
    key in claims && claims[key] == Codec.Text(v) && HasInk(v)
  }

  /** A given text replaces what was known; nothing given leaves it. */
  ghost predicate Takes(claims: map<string, Codec.Json>, key: string, before: Option<string>, after: Option<string>) {
    && (forall v | Gives(claims, key, v) :: after == Some(v))
    && ((forall v :: !Gives(claims, key, v)) ==> after == before)
  }

  ghost predicate RegisterMeets(s: State, identity: Identity, env: Env, t: State, result: RegistrationResult) {
    var sub, known, profile := identity.subject, identity.subject in s.profiles, result.profile;
    && t == s.(profiles := s.profiles[sub := profile], log := t.log)
    && t.log == s.log + [AuditEvent(UserRegistration, Some(sub), Some(sub), None, None, None, env.correlation,
                                    if known then Refreshed else Created, env.now)]
    && result.created == !known
    && profile.keycloakSub == sub && profile.updatedAt == env.now
    && profile.registeredAt == (if known then s.profiles[sub].registeredAt else env.now)
    && Takes(identity.claims, "name", if known then s.profiles[sub].displayName else None, profile.displayName)
    && Takes(identity.claims, "email", if known then s.profiles[sub].email else None, profile.email)
  }

  lemma ClaimTaken(claims: map<string, Codec.Json>, key: string, before: Option<string>)
    ensures Takes(claims, key, before, OrExisting(StringClaim(claims, key), before))
  {
    if key in claims && claims[key].Text? {
      StripBlankIff(claims[key].text);
      assert HasInk(claims[key].text) ==> Gives(claims, key, claims[key].text);
    }
  }

  lemma RegisterDoes(s: State, identity: Identity, env: Env)
    ensures
      var (t, result) := RegisterSelf(s, identity, env.now, env.correlation);
      RegisterMeets(s, identity, env, t, result)
  {
    hide StringClaim, Takes;
    var known, sub := identity.subject in s.profiles, identity.subject;
    ClaimTaken(identity.claims, "name", if known then s.profiles[sub].displayName else None);
    ClaimTaken(identity.claims, "email", if known then s.profiles[sub].email else None);
  }

  // --- profiles and listings

  ghost predicate ProfileMeets(s: State, sub: string, t: State, view: ProfileView) {
    && t == s
    && (if sub in s.profiles then view.profile == Some(s.profiles[sub]) else view.profile == None)
    && (forall g :: g in view.groups <==> (sub, g) in s.members)
    && (forall i, j | 0 <= i < j < |view.groups| ::
          StringLe(view.groups[i], view.groups[j]) && view.groups[i] != view.groups[j])
  }

  /** The caller's records that have not been hidden by a stop, each once, newest first. */
  ghost predicate ListingMeets(s: State, sub: string, env: Env, t: State, rows: seq<TokenRecord>) {
    && t == s.(log := s.log + [AuditEvent(TokenList, Some(sub), Some(sub), None, None, None, env.correlation, Success,
                                          env.now)])
    && NoDuplicates(rows)
    && (forall r :: r in rows <==> exists id | id in s.tokens ::
          s.tokens[id] == r && s.tokens[id].ownerSub == sub && id !in s.unlisted)
    && (forall i, j | 0 <= i < j < |rows| :: rows[i].issuedAt >= rows[j].issuedAt)
  }

  // --- groups and memberships

  /** The text without the whitespace around it, if there is more than that. */
  ghost predicate KeptText(given: Option<string>, kept: Option<string>) {
    if given.Some? && HasInk(given.value) then kept == Some(Strip(given.value)) else kept == None
  }

  /** What the log says of a name that was given for a group. */
  function Mentioned(name: string): Option<string> {
    NonEmpty(Lower(Strip(name)))
  }

  function SucceededIf(ok: bool): Outcome {
    if ok then Success else Failure
  }

  ghost predicate CreateMeets(s: State, actor: string, name: string, description: Option<string>, env: Env, t: State,
                              r: Result<GroupDefinition>) {
    var n := NormalizeGroupName(name);
    && t == s.(groups := t.groups, log := t.log)
    && t.log == s.log + [AuditEvent(EventType.GroupCreate, Some(actor), None, Mentioned(name), None, None,
                                    env.correlation, SucceededIf(r.Ok?), env.now)]
    && (r.Ok? <==> n.Ok? && n.value != RESERVED_ADMIN_GROUP && n.value !in s.groups)
    && (r.Ok? ==>
          && t.groups == s.groups[n.value := r.value]
          && r.value.name == n.value && r.value.isActive && !r.value.isSystem && r.value.createdAt == env.now
          && KeptText(description, r.value.description))
    && (r.Err? ==>
          && t.groups == s.groups
          && r.error == if n.Err? then InvalidValue
                        else if n.value == RESERVED_ADMIN_GROUP then ReservedGroup else GroupAlreadyExists)
  }

  lemma CreateDoes(s: State, actor: string, name: string, description: Option<string>, env: Env)
    ensures
      var (t, r) := CreateGroup(s, actor, name, description, env.now, env.correlation);
      CreateMeets(s, actor, name, description, env, t, r)
  {
    hide IsGroupName, Lower, Strip;
    NormalIsMentioned(name);
    if description.Some? {
      StripBlankIff(description.value);
    }
  }

  lemma NormalIsMentioned(name: string)
    ensures NormalizeGroupName(name).Ok? ==> Mentioned(name) == Some(NormalizeGroupName(name).value)
  {
  }

  ghost predicate AddMeets(s: State, actor: string, sub: string, name: string, env: Env, t: State,
                           r: Result<Membership>) {
    var n := NormalizeGroupName(name);
    var usable := n.Ok? && n.value in s.groups && s.groups[n.value].isActive;
    && t == s.(members := t.members, log := t.log)
    && t.log == s.log + [AuditEvent(MembershipAdd, Some(actor), Some(sub), Mentioned(name), None, None,
                                    env.correlation, SucceededIf(r.Ok?), env.now)]
    && (r.Ok? <==> usable && sub in s.profiles)
    && (r.Ok? ==>
          && t.members == s.members[(sub, n.value) := r.value]
          && r.value == if (sub, n.value) in s.members then s.members[(sub, n.value)]
                        else Membership(sub, n.value, env.now, Some(actor)))
    && (r.Err? ==>
          && t.members == s.members
          && r.error == if n.Err? then InvalidValue else if !usable then GroupNotFound else UnregisteredUser)
  }

  lemma AddDoes(s: State, actor: string, sub: string, name: string, env: Env)
    requires MembersKeyed(s.members)
    ensures
      var (t, r) := AddMembership(s, actor, sub, name, env.now, env.correlation);
      AddMeets(s, actor, sub, name, env, t, r)
  {
    hide IsGroupName, Lower, Strip;
    NormalIsMentioned(name);
  }

  ghost predicate RemoveMeets(s: State, actor: string, sub: string, name: string, env: Env, t: State, r: Result<()>) {
    var n := NormalizeGroupName(name);
    var usable := n.Ok? && n.value in s.groups && s.groups[n.value].isActive;
    var known := usable && (sub, n.value) in s.members;
    var others := exists other | other != sub :: (other, RESERVED_ADMIN_GROUP) in s.members;
    && t == s.(members := t.members, log := t.log)
    && t.log == s.log + [AuditEvent(MembershipRemove, Some(actor), Some(sub), Mentioned(name), None, None,
                                    env.correlation, SucceededIf(r.Ok?), env.now)]
    && (r.Ok? <==> known && (n.value == RESERVED_ADMIN_GROUP ==> others))
    && (r.Ok? ==> t.members == s.members - {(sub, n.value)})
    && (r.Err? ==>
          && t.members == s.members
          && r.error == if n.Err? then InvalidValue else if !usable then GroupNotFound
                        else if known then LastAdminRemoval
                        else if sub in s.profiles then MembershipNotFound else UnregisteredUser)
  }

  lemma RemoveDoes(s: State, actor: string, sub: string, name: string, env: Env)
    requires MembersKeyed(s.members)
    ensures
      var (t, r) := RemoveMembership(s, actor, sub, name, env.now, env.correlation);
      RemoveMeets(s, actor, sub, name, env, t, r)
  {
    hide IsGroupName, Lower, Strip, MembershipsOfGroup;
    NormalIsMentioned(name);
    if (sub, RESERVED_ADMIN_GROUP) in s.members {
      OnlyMemberIff(s.members, RESERVED_ADMIN_GROUP, sub);
    }
  }

  lemma OnlyMemberIff(members: map<(string, string), Membership>, group: string, sub: string)
    requires MembersKeyed(members) && (sub, group) in members
    ensures |MembershipsOfGroup(members, group)| - 1 <= 0 <==> !exists other | other != sub :: (other, group) in members
  {
    var all := MembershipsOfGroup(members, group);
    var own := members[(sub, group)];
    assert own in all;
    if |all| >= 2 {
      var other := AnotherMember(members, group, sub);
    } else {
      forall other | (other, group) in members ensures other == sub {
        assert members[(other, group)] in all;
        OnlyElement(all, own, members[(other, group)]);
      }
    }
  }

  // --- tokens

  predicate Asked(names: seq<string>, g: string) {
    exists i | 0 <= i < |names| :: NormalizeGroupName(names[i]) == Ok(g)
  }

  /** The first request for `g` comes before any for `h`. */
  ghost predicate AskedBefore(names: seq<string>, g: string, h: string) {
    exists i | 0 <= i < |names| ::
      NormalizeGroupName(names[i]) == Ok(g) && forall j | 0 <= j <= i :: NormalizeGroupName(names[j]) != Ok(h)
  }

  /** Every group asked for, in normal form, once, in the order they were first asked for. */
  ghost predicate Grants(names: seq<string>, granted: seq<string>) {
    && NoDuplicates(granted)
    && (forall g :: g in granted <==> Asked(names, g))
    && forall i, j | 0 <= i < j < |granted| :: AskedBefore(names, granted[i], granted[j])
  }

  /** The first reason, in the order in which they are looked for, why groups cannot be granted. */
  ghost function GrantRefusal(s: State, names: seq<string>): Option<Error> {
    if exists i | 0 <= i < |names| :: NormalizeGroupName(names[i]).Err? then Some(InvalidValue)
    else if Asked(names, RESERVED_ADMIN_GROUP) then Some(ReservedGroup)
    else if names == [] then Some(InvalidValue)
    else if exists g :: Asked(names, g) && !(g in s.groups && s.groups[g].isActive) then Some(GroupNotFound)
    else None
  }

  /** The first reason why a token cannot be minted. */
  ghost function MintRefusal(s: State, owner: string, names: seq<string>, lifetime: int, env: Env): Option<Error> {
    if owner !in s.profiles then Some(UnregisteredUser)
    else if GrantRefusal(s, names).Some? then GrantRefusal(s, names)
    else if lifetime <= 0 then Some(InvalidValue)
    else if env.now + lifetime * SECOND > LAST_INSTANT then Some(Overflow)
    else if forall claims | MintClaims(claims, owner, lifetime, env) :: env.signing.sign(claims).None? then
      Some(SigningKeyUnavailable)
    else None
  }

  /** Days from the epoch to the start of a year of the Gregorian calendar. */
  function DaysBefore(year: nat): int
    requires year > 0
  {
    365 * (year - 1970) + (year - 1) / 4 - (year - 1) / 100 + (year - 1) / 400
    - (1969 / 4 - 1969 / 100 + 1969 / 400)
  }

  /** The last instant a `datetime` can have is the last microsecond of the year 9999. */
  lemma LastInstantIs()
    ensures LAST_INSTANT + 1 == DaysBefore(10_000) * 86_400 * SECOND
    ensures DaysBefore(1970) == 0 && DaysBefore(2001) - DaysBefore(2000) == 366
    ensures DaysBefore(1901) - DaysBefore(1900) == 365
  {
  }

  /** The claims are those of a token for the owner, with the fresh id, issued now for the lifetime. */
  ghost predicate MintClaims(claims: ClaimSet, owner: string, lifetime: int, env: Env) {
    ClaimsFor(claims, env.freshId, owner, env.signing.issuer, env.now, Some(env.now + lifetime * SECOND))
  }

  ghost predicate MintMeets(s: State, actor: string, owner: string, names: seq<string>, expiresIn: Option<int>,
                            env: Env, t: State, r: Result<MintedToken>) {
    var lifetime := if expiresIn.Some? then expiresIn.value else env.signing.defaultLifetime;
    var refusal := MintRefusal(s, owner, names, lifetime, env);
    && t.log == s.log + [AuditEvent(TokenMint, Some(actor), Some(owner), None,
                                    if r.Ok? then Some(env.freshId) else None, None, env.correlation,
                                    SucceededIf(r.Ok?), env.now)]
    && (if refusal.Some? then r == Err(refusal.value) && t == s.(log := t.log)
        else
          && r.Ok?
          && var record, raw := r.value.record, r.value.rawToken;
             && (exists claims :: MintClaims(claims, owner, lifetime, env) && env.signing.sign(claims) == Some(raw))
             && record == TokenRecord(env.freshId, owner, record.grantedGroups, Active, env.now,
                                      Some(env.now + lifetime * SECOND), Some(actor), Some(env.signing.sha256(raw)),
                                      false, None)
             && Grants(names, record.grantedGroups)
             && t == s.(tokens := s.tokens[env.freshId := record], unlisted := s.unlisted - {env.freshId},
                        inexact := s.inexact - {env.freshId}, log := t.log))
  }

  lemma GrantsDedupe(names: seq<string>)
    requires NormalizeAll(names).Ok?
    ensures Grants(names, Dedupe(NormalizeAll(names).value))
  {
    hide NormalizeGroupName;
    var normalized := NormalizeAll(names).value;
    var granted := Dedupe(normalized);
    DedupeElements(normalized);
    forall g ensures g in granted <==> Asked(names, g) {
      if Asked(names, g) {
        var i :| 0 <= i < |names| && NormalizeGroupName(names[i]) == Ok(g);
        assert normalized[i] == g;
      }
    }
    forall i, j | 0 <= i < j < |granted| ensures AskedBefore(names, granted[i], granted[j]) {
      DedupeStable(normalized, i, j);
      var k := FirstIndex(normalized, granted[i]);
      var later := FirstIndex(normalized, granted[j]);
      forall l | 0 <= l <= k ensures NormalizeGroupName(names[l]) != Ok(granted[j]) {
        assert normalized[l] == normalized[..later][l];
      }
    }
  }

  /** The checks on the requested groups fail for the first reason that applies, and grant what was asked for. */
  lemma GroupsValidated(s: State, names: seq<string>)
    ensures ValidateGroups(s.groups, names).Err? <==> GrantRefusal(s, names).Some?
    ensures ValidateGroups(s.groups, names).Err? ==>
              GrantRefusal(s, names) == Some(ValidateGroups(s.groups, names).error)
    ensures ValidateGroups(s.groups, names).Ok? ==> Grants(names, ValidateGroups(s.groups, names).value)
  {
    hide NormalizeGroupName, Dedupe, Grants;
    if NormalizeAll(names).Ok? {
      var normalized := NormalizeAll(names).value;
      GrantsDedupe(names);
      forall g ensures g in normalized <==> Asked(names, g) {
        if Asked(names, g) {
          var i :| 0 <= i < |names| && NormalizeGroupName(names[i]) == Ok(g);
          assert normalized[i] == g;
        }
      }
    }
  }

  lemma MintDoes(s: State, actor: string, owner: string, names: seq<string>, expiresIn: Option<int>, env: Env)
    ensures
      var (t, r) := MintToken(s, actor, owner, names, expiresIn, env.now, env.freshId, env.signing, env.correlation);
      MintMeets(s, actor, owner, names, expiresIn, env, t, r)
  {
    hide ValidateGroups, GrantRefusal, Grants, BuildClaims, ClaimsFor;
    GroupsValidated(s, names);
    var lifetime := if expiresIn.Some? then expiresIn.value else env.signing.defaultLifetime;
    var built := BuildClaims(env.freshId, owner, env.signing.issuer, env.now, Some(env.now + lifetime * SECOND));
    forall claims ensures MintClaims(claims, owner, lifetime, env) <==> claims == built {
      ClaimsForIff(claims, env.freshId, owner, env.signing.issuer, env.now, Some(env.now + lifetime * SECOND));
    }
    assert MintClaims(built, owner, lifetime, env);
  }

  ghost predicate InspectMeets(s: State, actor: string, id: string, env: Env, t: State, r: Result<TokenRecord>) {
    var owner := if id in s.tokens then Some(s.tokens[id].ownerSub) else None;
    && t == s.(log := s.log + [AuditEvent(TokenInspect, Some(actor), owner, None, Some(id), None, env.correlation,
                                          SucceededIf(id in s.tokens), env.now)])
    && (if id in s.tokens then r == Ok(s.tokens[id]) else r == Err(TokenNotFound))
  }

  /** The first revocation dates the record, and nothing else of it changes; a later one changes nothing. */
  ghost predicate RevokeMeets(s: State, actor: string, id: string, env: Env, t: State, r: Result<TokenRecord>) {
    var owner := if id in s.tokens then Some(s.tokens[id].ownerSub) else None;
    && t.log == s.log + [AuditEvent(TokenRevoke, Some(actor), owner, None, Some(id), None, env.correlation,
                                    SucceededIf(id in s.tokens), env.now)]
    && (if id !in s.tokens then r == Err(TokenNotFound) && t == s.(log := t.log)
        else if s.tokens[id].status.Revoked? then r == Ok(s.tokens[id]) && t == s.(log := t.log)
        else
          && r == Ok(s.tokens[id].(status := Revoked, revokedAt := Some(env.now)))
          && t == s.(tokens := s.tokens[id := r.value], unlisted := s.unlisted - {id}, inexact := s.inexact - {id},
                     log := t.log))
  }

  lemma RevokeDoes(s: State, actor: string, id: string, env: Env)
    ensures
      var (t, r) := RevokeToken(s, actor, id, env.now, env.correlation);
      RevokeMeets(s, actor, id, env, t, r)
  {
  }

  // --- runtime authorization

  /** The group that is asked about, or else the resource, as long as there is a name for it. */
  predicate AsksFor(request: AuthorizationRequest, p: string) {
    && p != ""
    && (|| request.requestedGroup == Some(p)
        || (request.requestedGroup in {None, Some("")} && request.requestedResource == Some(p)))
  }

  ghost predicate Opens(r: TokenRecord, request: AuthorizationRequest, now: Time) {
    && request.ownerSub == Some(r.ownerSub)
    && r.status == Active
    && (r.expiresAt.Some? ==> now < r.expiresAt.value)
    && exists i | 0 <= i < |r.grantedGroups| :: AsksFor(request, r.grantedGroups[i])
  }

  ghost predicate DecisionMeets(s: State, request: AuthorizationRequest, env: Env, t: State, allowed: bool) {
    && (allowed <==> request.tokenId in s.tokens && Opens(s.tokens[request.tokenId], request, env.now))
    && t == s.(log := s.log + [AuditEvent(RuntimeAuthorize, request.ownerSub, request.ownerSub,
                                          request.requestedGroup, Some(request.tokenId), request.requestedResource,
                                          env.correlation, if allowed then Allow else Deny, env.now)])
  }

  lemma DecisionDoes(s: State, request: AuthorizationRequest, env: Env)
    ensures
      var (t, allowed) := Authorize(s, request, env.now, env.correlation);
      DecisionMeets(s, request, env, t, allowed)
  {
    var permission := RequiredPermission(request);
    forall p ensures AsksFor(request, p) <==> permission == Some(p) && p != "" {}
  }

  // --- every request

  ghost predicate Meets(s: State, c: Call, env: Env, t: State, reply: Reply) {
    match c
    case Register(identity) => reply.RegisteredReply? && RegisterMeets(s, identity, env, t, reply.result)
    case ShowProfile(sub) => reply.ProfileReply? && ProfileMeets(s, sub, t, reply.view)
    case ShowTokens(sub) => reply.TokensReply? && ListingMeets(s, sub, env, t, reply.rows)
    case AskRuntime(request) => reply.DecisionReply? && DecisionMeets(s, request, env, t, reply.allowed)
    case CreateGroupCall(actor, name, description) =>
      reply.GroupReply? && CreateMeets(s, actor, name, description, env, t, reply.group)
    case AddMemberCall(actor, sub, group) =>
      reply.MembershipReply? && AddMeets(s, actor, sub, group, env, t, reply.membership)
    case RemoveMemberCall(actor, sub, group) =>
      reply.RemovalReply? && RemoveMeets(s, actor, sub, group, env, t, reply.removal)
    case MintCall(actor, owner, groups, expiresIn) =>
      reply.MintReply? && MintMeets(s, actor, owner, groups, expiresIn, env, t, reply.minted)
    case InspectCall(actor, id) => reply.RecordReply? && InspectMeets(s, actor, id, env, t, reply.record)
    case RevokeCall(actor, id) => reply.RecordReply? && RevokeMeets(s, actor, id, env, t, reply.record)
  }

  lemma ListingDoes(s: State, sub: string, env: Env, rows: seq<TokenRecord>)
    requires Answers(s, ShowTokens(sub), env, TokensReply(rows))
    ensures ListingMeets(s, sub, env, After(s, ShowTokens(sub), env), rows)
  {
    forall r ensures r in rows <==> exists id | id in s.tokens ::
        s.tokens[id] == r && s.tokens[id].ownerSub == sub && id !in s.unlisted
    {
      assert r in rows <==> r in ListedOf(s.tokens, s.unlisted, sub);
    }
    forall i, j | 0 <= i < j < |rows| ensures rows[i].issuedAt >= rows[j].issuedAt {
      assert NewestFirst(rows[i], rows[j]);
    }
  }

  lemma ProfileDoes(s: State, sub: string, view: ProfileView)
    requires IsProfileView(s, sub, view)
    ensures ProfileMeets(s, sub, s, view)
  {
  }

  lemma InspectDoes(s: State, actor: string, id: string, env: Env)
    ensures
      var (t, r) := GetToken(s, actor, id, env.now, env.correlation);
      InspectMeets(s, actor, id, env, t, r)
  {
  }

  /** Whatever a request may be answered, and what it does, meets what requests of its kind promise. */
  lemma EveryCallMeets(s: State, c: Call, env: Env, reply: Reply)
    requires MembersKeyed(s.members) && Answers(s, c, env, reply)
    ensures Meets(s, c, env, After(s, c, env), reply)
  {
    hide RegisterSelf, CreateGroup, AddMembership, RemoveMembership, MintToken, GetToken, RevokeToken, Authorize;
    hide ListingMeets, ProfileMeets, DecisionMeets, IsProfileView;
    hide RegisterMeets, CreateMeets, AddMeets, RemoveMeets, MintMeets, InspectMeets, RevokeMeets, ListedSelfTokens;
    match c
    case Register(identity) => RegisterDoes(s, identity, env);
    case ShowProfile(sub) => ProfileDoes(s, sub, reply.view);
    case ShowTokens(sub) => ListingDoes(s, sub, env, reply.rows);
    case AskRuntime(request) => DecisionDoes(s, request, env);
    case CreateGroupCall(actor, name, description) => CreateDoes(s, actor, name, description, env);
    case AddMemberCall(actor, sub, group) => AddDoes(s, actor, sub, group, env);
    case RemoveMemberCall(actor, sub, group) => RemoveDoes(s, actor, sub, group, env);
    case MintCall(actor, owner, groups, expiresIn) => MintDoes(s, actor, owner, groups, expiresIn, env);
    case InspectCall(actor, id) => InspectDoes(s, actor, id, env);
    case RevokeCall(actor, id) => RevokeDoes(s, actor, id, env);
  }
}
