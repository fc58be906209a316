/**
 * What every service operation does to the state, as functions: the specification the service classes
 * are proved against, over either backend.
 */
module Authority {
  import opened Models
  import opened Text
  import opened Rules
  import opened Claims
  import opened Sorting
  import Codec

  const LAST_INSTANT: Time := 253_402_300_799_999_999

  function Logged(s: State, event: EventType, actor: Option<string>, subject: Option<string>, group: Option<string>,
                  token: Option<string>, resource: Option<string>, correlation: Option<string>, outcome: Outcome,
                  now: Time): State {
    s.(log := s.log + [AuditEvent(event, actor, subject, group, token, resource, correlation, outcome, now)])
  }

  /** The log grew by one event, a failure exactly when `failed`. */
  predicate Appends(before: seq<AuditEvent>, after: seq<AuditEvent>, failed: bool) {
    |after| == |before| + 1 && after[..|before|] == before && (after[|before|].outcome.Failure? <==> failed)
  }

  // --- bootstrap

  function BootstrapGroups(groups: map<string, GroupDefinition>, now: Time): map<string, GroupDefinition> {
    if RESERVED_ADMIN_GROUP in groups then groups else groups[RESERVED_ADMIN_GROUP := ReservedAdminGroup(now)]
  }

  /** Makes every subject an admin that is not one yet; others keep the membership they have. */
  function GrantAdmins(members: map<(string, string), Membership>, subs: seq<string>, now: Time)
    : map<(string, string), Membership>
  {
    if subs == [] then members
    else
      var before := GrantAdmins(members, subs[..|subs| - 1], now);
      var sub := subs[|subs| - 1];
      if (sub, RESERVED_ADMIN_GROUP) in before then before
      else before[(sub, RESERVED_ADMIN_GROUP) := Membership(sub, RESERVED_ADMIN_GROUP, now, None)]
  }

  function Bootstrap(s: State, trusted: seq<string>, now: Time): State {
    s.(groups := BootstrapGroups(s.groups, now), members := GrantAdmins(s.members, NormalizeSubjects(trusted), now))
  }

  /** The first `left` of the missing admins get their membership, the others none. */
  function GrantUpTo(members: map<(string, string), Membership>, subs: seq<string>, now: Time, left: nat)
    : map<(string, string), Membership>
    decreases subs
  {
    if subs == [] || left == 0 then members
    else if (subs[0], RESERVED_ADMIN_GROUP) in members then GrantUpTo(members, subs[1..], now, left)
    else
      var membership := Membership(subs[0], RESERVED_ADMIN_GROUP, now, None);
      GrantUpTo(members[(subs[0], RESERVED_ADMIN_GROUP) := membership], subs[1..], now, left - 1)
  }

  /** The bootstrap plan as far as its first `done` store writes. */
  function BootstrapUpTo(s: State, trusted: seq<string>, now: Time, done: nat): State {
    if RESERVED_ADMIN_GROUP in s.groups then
      s.(members := GrantUpTo(s.members, NormalizeSubjects(trusted), now, done))
    else if done == 0 then s
    else
      s.(groups := BootstrapGroups(s.groups, now),
         members := GrantUpTo(s.members, NormalizeSubjects(trusted), now, done - 1))
  }

  // --- registration and profile

  datatype Identity = Identity(subject: string, claims: map<string, Codec.Json>)

  function StringClaim(claims: map<string, Codec.Json>, name: string): Option<string> {
    if name in claims && claims[name].Text? && Strip(claims[name].text) != "" then Some(claims[name].text) else None
  }

  function OrExisting(claimed: Option<string>, existing: Option<string>): Option<string> {
    if claimed.Some? then claimed else existing
  }

  datatype RegistrationResult = RegistrationResult(profile: UserProfile, created: bool)

  function RefreshedProfile(existing: Option<UserProfile>, identity: Identity, now: Time): UserProfile {
    var name, email := StringClaim(identity.claims, "name"), StringClaim(identity.claims, "email");
    if existing.None? then UserProfile(identity.subject, now, now, name, email)
    else UserProfile(identity.subject, existing.value.registeredAt, now,
                     OrExisting(name, existing.value.displayName), OrExisting(email, existing.value.email))
  }

  function RegisterSelf(s: State, identity: Identity, now: Time, correlation: Option<string>)
    : (r: (State, RegistrationResult))
    ensures r.0 == s.(profiles := r.0.profiles, log := r.0.log) && Appends(s.log, r.0.log, false)
  {
    var existing := Lookup(s.profiles, identity.subject);
    var profile := RefreshedProfile(existing, identity, now);
    var created := existing.None?;
    (Logged(s.(profiles := s.profiles[identity.subject := profile]), UserRegistration, Some(identity.subject),
            Some(identity.subject), None, None, None, correlation, if created then Created else Refreshed, now),
     RegistrationResult(profile, created))
  }

  datatype ProfileView = ProfileView(profile: Option<UserProfile>, groups: seq<string>)

  /** The caller's profile if registered, and the caller's groups in increasing order. */
  ghost predicate IsProfileView(s: State, sub: string, view: ProfileView) {
    && view.profile == Lookup(s.profiles, sub)
    && StrictlySorted(view.groups)
    && forall g :: g in view.groups <==> (sub, g) in s.members
  }

  /** Only one view fits a state, so both backends show the same one. */
  lemma ProfileViewUnique(s: State, sub: string, a: ProfileView, b: ProfileView)
    requires IsProfileView(s, sub, a) && IsProfileView(s, sub, b)
    ensures a == b
  {
    StrictlySortedUnique(a.groups, b.groups);
  }

  // --- groups and memberships

  function NewGroupName(groups: map<string, GroupDefinition>, name: string): Result<string> {
    var validated :- NormalizeGroupName(name);
    if validated == RESERVED_ADMIN_GROUP then Err(ReservedGroup)
    else if validated in groups then Err(GroupAlreadyExists)
    else Ok(validated)
  }

  function CreateGroup(s: State, actor: string, name: string, description: Option<string>, now: Time,
                       correlation: Option<string>): (r: (State, Result<GroupDefinition>))
    ensures r.0 == s.(groups := r.0.groups, log := r.0.log) && Appends(s.log, r.0.log, r.1.Err?)
    ensures r.1.Err? ==> r.0.groups == s.groups
  {
    match NewGroupName(s.groups, name)
    case Err(e) =>
      (Logged(s, EventType.GroupCreate, Some(actor), None, NonEmpty(Lower(Strip(name))), None, None, correlation,
              Failure, now), Err(e))
    case Ok(validated) =>
      var group := GroupDefinition(validated, StripOrNone(description), false, true, now);
      (Logged(s.(groups := s.groups[validated := group]), EventType.GroupCreate, Some(actor), None, Some(validated),
              None, None,
              correlation, Success, now), Ok(group))
  }

  predicate ActiveGroup(groups: map<string, GroupDefinition>, name: string) {
    name in groups && groups[name].isActive
  }

  function KnownGroup(groups: map<string, GroupDefinition>, name: string): Result<string> {
    var validated :- NormalizeGroupName(name);
    if !ActiveGroup(groups, validated) then Err(GroupNotFound) else Ok(validated)
  }

  function MembershipToAdd(s: State, actor: string, sub: string, name: string, now: Time): Result<Membership> {
    var validated :- KnownGroup(s.groups, name);
    if sub !in s.profiles then Err(UnregisteredUser)
    else if (sub, validated) in s.members then Ok(s.members[(sub, validated)])
    else Ok(Membership(sub, validated, now, Some(actor)))
  }

  function AddMembership(s: State, actor: string, sub: string, name: string, now: Time, correlation: Option<string>)
    : (r: (State, Result<Membership>))
    ensures r.0 == s.(members := r.0.members, log := r.0.log) && Appends(s.log, r.0.log, r.1.Err?)
    ensures r.1.Err? ==> r.0.members == s.members
  {
    match MembershipToAdd(s, actor, sub, name, now)
    case Err(e) =>
      (Logged(s, MembershipAdd, Some(actor), Some(sub), NonEmpty(Lower(Strip(name))), None, None, correlation,
              Failure, now), Err(e))
    case Ok(m) =>
      var group := Lower(Strip(name));
      (Logged(if (sub, group) in s.members then s else s.(members := s.members[(sub, group) := m]),
              MembershipAdd, Some(actor), Some(sub), Some(m.groupName), None, None, correlation, Success, now), Ok(m))
  }

  function MembershipToRemove(s: State, sub: string, name: string): Result<string> {
    var validated :- KnownGroup(s.groups, name);
    if (sub, validated) !in s.members then
      if sub !in s.profiles then Err(UnregisteredUser) else Err(MembershipNotFound)
    else if validated == RESERVED_ADMIN_GROUP && |MembershipsOfGroup(s.members, RESERVED_ADMIN_GROUP)| - 1 <= 0 then
      Err(LastAdminRemoval)
    else Ok(validated)
  }

  function RemoveMembership(s: State, actor: string, sub: string, name: string, now: Time, correlation: Option<string>)
    : (r: (State, Result<()>))
    ensures r.0 == s.(members := r.0.members, log := r.0.log) && Appends(s.log, r.0.log, r.1.Err?)
    ensures r.1.Err? ==> r.0.members == s.members
  {
    match MembershipToRemove(s, sub, name)
    case Err(e) =>
      (Logged(s, MembershipRemove, Some(actor), Some(sub), NonEmpty(Lower(Strip(name))), None, None, correlation,
              Failure, now), Err(e))
    case Ok(group) =>
      (Logged(s.(members := s.members - {(sub, group)}), MembershipRemove, Some(actor), Some(sub), Some(group), None,
              None, correlation, Success, now), Ok(()))
  }

  // --- tokens

  function ValidateGroups(groups: map<string, GroupDefinition>, names: seq<string>): Result<seq<string>> {
    var normalized :- EnsureRuntimeGroupsAllowed(names);
    if normalized == [] then Err(InvalidValue)
    else if exists g | g in normalized :: !ActiveGroup(groups, g) then Err(GroupNotFound)
    else Ok(Dedupe(normalized))
  }

  datatype MintedToken = MintedToken(record: TokenRecord, rawToken: string)

  function NewToken(s: State, actor: string, owner: string, groups: seq<string>, expiresIn: Option<int>, now: Time,
                    freshId: string, signing: Signing): Result<MintedToken> {
    if owner !in s.profiles then Err(UnregisteredUser)
    else
      var granted :- ValidateGroups(s.groups, groups);
      var lifetime := if expiresIn.None? then signing.defaultLifetime else expiresIn.value;
      if lifetime <= 0 then Err(InvalidValue)
      else if now + lifetime * SECOND > LAST_INSTANT then Err(Overflow)
      else
        var expiresAt := Some(now + lifetime * SECOND);
        var raw := signing.sign(BuildClaims(freshId, owner, signing.issuer, now, expiresAt));
        if raw.None? then Err(SigningKeyUnavailable)
        else Ok(MintedToken(
                  TokenRecord(freshId, owner, granted, Active, now, expiresAt, Some(actor),
                              Some(signing.sha256(raw.value)), false, None),
                  raw.value))
  }

  function MintToken(s: State, actor: string, owner: string, groups: seq<string>, expiresIn: Option<int>, now: Time,
                     freshId: string, signing: Signing, correlation: Option<string>): (r: (State, Result<MintedToken>))
    ensures r.0 == s.(tokens := r.0.tokens, unlisted := r.0.unlisted, inexact := r.0.inexact, log := r.0.log)
    ensures Appends(s.log, r.0.log, r.1.Err?)
    ensures r.1.Err? ==> r.0 == s.(log := r.0.log)
  {
    match NewToken(s, actor, owner, groups, expiresIn, now, freshId, signing)
    case Err(e) =>
      (Logged(s, TokenMint, Some(actor), Some(owner), None, None, None, correlation, Failure, now), Err(e))
    case Ok(minted) =>
      (Logged(WriteToken(s, freshId, minted.record), TokenMint, Some(actor), Some(owner), None, Some(freshId), None,
              correlation, Success, now),
       Ok(minted))
  }

  function GetToken(s: State, actor: string, tokenId: string, now: Time, correlation: Option<string>)
    : (r: (State, Result<TokenRecord>))
    ensures r.0 == s.(log := r.0.log) && Appends(s.log, r.0.log, r.1.Err?)
  {
    if tokenId !in s.tokens then
      (Logged(s, TokenInspect, Some(actor), None, None, Some(tokenId), None, correlation, Failure, now),
       Err(TokenNotFound))
    else
      (Logged(s, TokenInspect, Some(actor), Some(s.tokens[tokenId].ownerSub), None, Some(tokenId), None, correlation,
              Success, now),
       Ok(s.tokens[tokenId]))
  }

  /** Revoking a revoked token gives back the record as it is. */
  function RevokedRecord(current: TokenRecord, now: Time): TokenRecord {
    if current.status.Revoked? then current else current.(status := Revoked, revokedAt := Some(now))
  }

  function RevokeToken(s: State, actor: string, tokenId: string, now: Time, correlation: Option<string>)
    : (r: (State, Result<TokenRecord>))
    ensures r.0 == s.(tokens := r.0.tokens, unlisted := r.0.unlisted, inexact := r.0.inexact, log := r.0.log)
    ensures Appends(s.log, r.0.log, r.1.Err?)
    ensures r.1.Err? ==> r.0 == s.(log := r.0.log)
  {
    if tokenId !in s.tokens then
      (Logged(s, TokenRevoke, Some(actor), None, None, Some(tokenId), None, correlation, Failure, now),
       Err(TokenNotFound))
    else
      var current := s.tokens[tokenId];
      var record := RevokedRecord(current, now);
      (Logged(if current.status.Revoked? then s else WriteToken(s, tokenId, record), TokenRevoke, Some(actor),
              Some(record.ownerSub), None, Some(tokenId), None, correlation, Success, now),
       Ok(record))
  }

  function ListedSelfTokens(s: State, sub: string, now: Time, correlation: Option<string>): State {
    Logged(s, TokenList, Some(sub), Some(sub), None, None, None, correlation, Success, now)
  }

  /** `sorted(..., key=issued_at, reverse=True)`. */
  predicate NewestFirst(a: TokenRecord, b: TokenRecord) {
    a.issuedAt >= b.issuedAt
  }

  // --- runtime authorization

  /** `requested_group or requested_resource`. */
  function RequiredPermission(request: AuthorizationRequest): Option<string> {
    if request.requestedGroup.Some? && request.requestedGroup.value != "" then request.requestedGroup
    else request.requestedResource
  }

  predicate Allowed(tokens: map<string, TokenRecord>, request: AuthorizationRequest, now: Time) {
    var permission := RequiredPermission(request);
    && request.tokenId in tokens
    && permission.Some? && permission.value != ""
    && var record := tokens[request.tokenId];
       && request.ownerSub == Some(record.ownerSub)
       && record.status.Active?
       && (record.expiresAt.None? || now < record.expiresAt.value)
       && permission.value in record.grantedGroups
  }

  function Authorize(s: State, request: AuthorizationRequest, now: Time,
                     correlation: Option<string>): (r: (State, bool))
    ensures r.0 == s.(log := r.0.log) && Appends(s.log, r.0.log, false)
  {
    var allowed := Allowed(s.tokens, request, now);
    (Logged(s, RuntimeAuthorize, request.ownerSub, request.ownerSub, request.requestedGroup, Some(request.tokenId),
            request.requestedResource, correlation, if allowed then Allow else Deny, now), allowed)
  }

  // --- one request, whatever it asks for

  datatype Call =
    | Register(identity: Identity)
    | ShowProfile(subject: string)
    | ShowTokens(subject: string)
    | AskRuntime(request: AuthorizationRequest)
    | CreateGroupCall(actor: string, name: string, description: Option<string>)
    | AddMemberCall(actor: string, subject: string, group: string)
    | RemoveMemberCall(actor: string, subject: string, group: string)
    | MintCall(actor: string, owner: string, groups: seq<string>, expiresIn: Option<int>)
    | InspectCall(actor: string, tokenId: string)
    | RevokeCall(actor: string, tokenId: string)

  predicate AdminOnly(c: Call) {
    !c.Register? && !c.ShowProfile? && !c.ShowTokens? && !c.AskRuntime?
  }

  function Actor(c: Call): string
    requires AdminOnly(c)
  {
    c.actor
  }

  /** What a request gets from its surroundings: the clock, a fresh id, its correlation header, the signer. */
  datatype Env = Env(now: Time, freshId: string, correlation: Option<string>, signing: Signing)

  function After(s: State, c: Call, env: Env): State {
    match c
    case Register(identity) => RegisterSelf(s, identity, env.now, env.correlation).0
    case ShowProfile(_) => s
    case ShowTokens(sub) => ListedSelfTokens(s, sub, env.now, env.correlation)
    case AskRuntime(request) => Authorize(s, request, env.now, env.correlation).0
    case CreateGroupCall(actor, name, description) =>
      CreateGroup(s, actor, name, description, env.now, env.correlation).0
    case AddMemberCall(actor, sub, group) => AddMembership(s, actor, sub, group, env.now, env.correlation).0
    case RemoveMemberCall(actor, sub, group) => RemoveMembership(s, actor, sub, group, env.now, env.correlation).0
    case MintCall(actor, owner, groups, expiresIn) =>
      MintToken(s, actor, owner, groups, expiresIn, env.now, env.freshId, env.signing, env.correlation).0
    case InspectCall(actor, tokenId) => GetToken(s, actor, tokenId, env.now, env.correlation).0
    case RevokeCall(actor, tokenId) => RevokeToken(s, actor, tokenId, env.now, env.correlation).0
  }

  /**
   * The state a handler leaves behind when the process stops after `done` of its store writes. Only minting and
   * revoking make several; what happens to the log does not matter, as it is lost.
   */
  function Stopped(s: State, c: Call, env: Env, done: nat): State {
    match c
    case MintCall(actor, owner, groups, expiresIn) =>
      var minted := NewToken(s, actor, owner, groups, expiresIn, env.now, env.freshId, env.signing);
      if minted.Err? then s else WriteTokenUpTo(s, env.freshId, minted.value.record, done)
    case RevokeCall(_, tokenId) =>
      if tokenId !in s.tokens || s.tokens[tokenId].status.Revoked? then s
      else WriteTokenUpTo(s, tokenId, RevokedRecord(s.tokens[tokenId], env.now), done)
    case _ => if done == 0 then s else After(s, c, env)
  }

  /** The states agree on everything but the index entries and the log. */
  predicate SameRecords(a: State, b: State) {
    a.profiles == b.profiles && a.groups == b.groups && a.members == b.members && a.tokens == b.tokens
  }

  /** A stop is nothing or all as far as records go: the first write decides. */
  lemma StopIsNothingOrAll(s: State, c: Call, env: Env, done: nat)
    ensures SameRecords(Stopped(s, c, env, done), if done == 0 then s else After(s, c, env))
  {
    hide RegisterSelf, CreateGroup, AddMembership, RemoveMembership, GetToken, Authorize, NewToken;
  }

  /** Each part of the state has its own operations; no call reaches into another part. */
  lemma CallScope(s: State, c: Call, env: Env)
    ensures !c.Register? ==> After(s, c, env).profiles == s.profiles
    ensures !c.CreateGroupCall? ==> After(s, c, env).groups == s.groups
    ensures !c.AddMemberCall? && !c.RemoveMemberCall? ==> After(s, c, env).members == s.members
    ensures !c.MintCall? && !c.RevokeCall? ==>
              && After(s, c, env).tokens == s.tokens
              && After(s, c, env).unlisted == s.unlisted && After(s, c, env).inexact == s.inexact
  {
  }

  datatype Reply =
    | RegisteredReply(result: RegistrationResult)
    | ProfileReply(view: ProfileView)
    | TokensReply(rows: seq<TokenRecord>)
    | DecisionReply(allowed: bool)
    | GroupReply(group: Result<GroupDefinition>)
    | MembershipReply(membership: Result<Membership>)
    | RemovalReply(removal: Result<()>)
    | MintReply(minted: Result<MintedToken>)
    | RecordReply(record: Result<TokenRecord>)

  /** The replies a request may get; only a token listing leaves any choice, in the order of equally old rows. */
  ghost predicate Answers(s: State, c: Call, env: Env, reply: Reply) {
    match c
    case Register(identity) => reply == RegisteredReply(RegisterSelf(s, identity, env.now, env.correlation).1)
    case ShowProfile(sub) => reply.ProfileReply? && IsProfileView(s, sub, reply.view)
    case ShowTokens(sub) =>
      reply.TokensReply? && Lists(reply.rows, ListedOf(s.tokens, s.unlisted, sub)) && Ordered(NewestFirst, reply.rows)
    case AskRuntime(request) => reply == DecisionReply(Authorize(s, request, env.now, env.correlation).1)
    case CreateGroupCall(actor, name, description) =>
      reply == GroupReply(CreateGroup(s, actor, name, description, env.now, env.correlation).1)
    case AddMemberCall(actor, sub, group) =>
      reply == MembershipReply(AddMembership(s, actor, sub, group, env.now, env.correlation).1)
    case RemoveMemberCall(actor, sub, group) =>
      reply == RemovalReply(RemoveMembership(s, actor, sub, group, env.now, env.correlation).1)
    case MintCall(actor, owner, groups, expiresIn) =>
      reply == MintReply(MintToken(s, actor, owner, groups, expiresIn, env.now, env.freshId, env.signing,
                                   env.correlation).1)
    case InspectCall(actor, tokenId) => reply == RecordReply(GetToken(s, actor, tokenId, env.now, env.correlation).1)
    case RevokeCall(actor, tokenId) => reply == RecordReply(RevokeToken(s, actor, tokenId, env.now, env.correlation).1)
  }

  /** Two replies that agree, up to the order of token rows. */
  predicate SameReply(a: Reply, b: Reply) {
    if a.TokensReply? && b.TokensReply? then multiset(a.rows) == multiset(b.rows) else a == b
  }

  /** Whatever backend gives them, two answers to the same request in the same state agree. */
  lemma AnswersAgree(s: State, c: Call, env: Env, a: Reply, b: Reply)
    requires Answers(s, c, env, a) && Answers(s, c, env, b)
    ensures SameReply(a, b)
  {
    match c
    case ShowProfile(sub) => ProfileViewUnique(s, sub, a.view, b.view);
    case ShowTokens(sub) => ListingsPermute(a.rows, b.rows, ListedOf(s.tokens, s.unlisted, sub));
    case _ =>
  }

  lemma ListingsPermute<T(!new)>(xs: seq<T>, ys: seq<T>, all: set<T>)
    requires Lists(xs, all) && Lists(ys, all)
    ensures multiset(xs) == multiset(ys)
  {
    MultiplicityOfDistinct(xs);
    MultiplicityOfDistinct(ys);
    forall x ensures multiset(xs)[x] == multiset(ys)[x] {
      assert x in multiset(xs) <==> x in xs;
      assert x in multiset(ys) <==> x in ys;
    }
  }
}
