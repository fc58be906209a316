/** The services: step by step over a repository bundle, each proved to do what `Authority` says. */
module Services {
  import opened Models
  import opened Text
  import opened Rules
  import opened Sorting
  import opened Claims
  import opened Paths
  import opened Authority
  import opened Bundle
  import opened TokenStore

  /** `require_admin_identity`: the gate in front of every admin handler, a step of its own. */
  method RequireAdminIdentity(bundle: RepositoryBundle, subject: string) returns (passes: bool)
    requires bundle.Valid() && bundle.Accepts(subject)
    ensures bundle.Valid() && bundle.View() == old(bundle.View())
    ensures passes <==> IsAdmin(bundle.View(), subject)
  {
    hide RepositoryBundle.Valid, RepositoryBundle.View, RepositoryBundle.Footprint;
    passes := bundle.HasMembership(subject, RESERVED_ADMIN_GROUP);
  }

  class BootstrapService {
    const bundle: RepositoryBundle

    constructor (bundle: RepositoryBundle)
      ensures this.bundle == bundle
    {
      this.bundle := bundle;
    }

    method ApplyPlan(trusted: seq<string>, now: Time)
      requires bundle.Valid() && forall sub | sub in NormalizeSubjects(trusted) :: bundle.Accepts(sub)
      modifies bundle.Footprint()
      ensures bundle.Valid() && bundle.View() == Bootstrap(old(bundle.View()), trusted, now)
    {
      hide RepositoryBundle.Valid, RepositoryBundle.View, NormalizeSubjects;
      var subs := NormalizeSubjectsLoop(trusted);
      AdminIsNormal();
      GroupNamesAreSegments(RESERVED_ADMIN_GROUP);
      var group := bundle.GetGroup(RESERVED_ADMIN_GROUP);
      if group.None? {
        bundle.UpsertGroup(ReservedAdminGroup(now));
      }
      GrantAll(subs, now);
    }

    /** The loop that grants the admin group to every configured subject that lacks it. */
    method GrantAll(subs: seq<string>, now: Time)
      requires bundle.Valid() && forall sub | sub in subs :: bundle.Accepts(sub)
      modifies bundle.Footprint()
      ensures bundle.Valid()
      ensures bundle.View() == old(bundle.View()).(members := GrantAdmins(old(bundle.View()).members, subs, now))
    {
      hide RepositoryBundle.Valid, RepositoryBundle.View, RepositoryBundle.Footprint;
      ghost var start := bundle.View();
      for i := 0 to |subs|
        invariant bundle.Valid()
        invariant bundle.View() == start.(members := GrantAdmins(start.members, subs[..i], now))
      {
        assert subs[i] in subs && subs[..i + 1][..i] == subs[..i];
        var found := bundle.HasMembership(subs[i], RESERVED_ADMIN_GROUP);
        if !found {
          bundle.AddMembership(Membership(subs[i], RESERVED_ADMIN_GROUP, now, None));
        }
      }
      assert subs[..|subs|] == subs;
    }

    /** The same in a process that stops after `done` store writes. */
    method ApplyPlanStopped(trusted: seq<string>, now: Time, done: nat)
      requires bundle.Vault? && bundle.Valid()
      requires forall sub | sub in NormalizeSubjects(trusted) :: bundle.Accepts(sub)
      modifies bundle.Footprint()
      ensures bundle.Valid() && bundle.View() == BootstrapUpTo(old(bundle.View()), trusted, now, done)
    {
      hide RepositoryBundle.Valid, RepositoryBundle.View, NormalizeSubjects, GrantUpTo;
      var subs := NormalizeSubjectsLoop(trusted);
      AdminIsNormal();
      GroupNamesAreSegments(RESERVED_ADMIN_GROUP);
      var group := bundle.GetGroup(RESERVED_ADMIN_GROUP);
      var left := done;
      if group.None? {
        if left == 0 {
          return;
        }
        bundle.UpsertGroup(ReservedAdminGroup(now));
        left := left - 1;
      }
      GrantSome(subs, now, left);
    }

    method GrantSome(subs: seq<string>, now: Time, done: nat)
      requires bundle.Valid() && forall sub | sub in subs :: bundle.Accepts(sub)
      modifies bundle.Footprint()
      ensures bundle.Valid()
      ensures bundle.View() == old(bundle.View()).(members := GrantUpTo(old(bundle.View()).members, subs, now, done))
    {
      hide RepositoryBundle.Valid, RepositoryBundle.View, RepositoryBundle.Footprint;
      ghost var start := bundle.View();
      var left := done;
      for i := 0 to |subs|
        invariant bundle.Valid() && bundle.View() == start.(members := bundle.View().members)
        invariant GrantUpTo(start.members, subs, now, done) == GrantUpTo(bundle.View().members, subs[i..], now, left)
      {
        assert subs[i] in subs && subs[i..][1..] == subs[i + 1..];
        var found := bundle.HasMembership(subs[i], RESERVED_ADMIN_GROUP);
        if !found {
          if left == 0 {
            return;
          }
          bundle.AddMembership(Membership(subs[i], RESERVED_ADMIN_GROUP, now, None));
          left := left - 1;
        }
      }
    }
  }

  class UserRegistrationService {
    const bundle: RepositoryBundle

    constructor (bundle: RepositoryBundle)
      ensures this.bundle == bundle
    {
      this.bundle := bundle;
    }

    method RegisterSelf(identity: Identity, now: Time, correlation: Option<string>) returns (r: RegistrationResult)
      requires bundle.Valid() && bundle.Accepts(identity.subject)
      modifies bundle.Footprint()
      ensures bundle.Valid()
      ensures (bundle.View(), r) == Authority.RegisterSelf(old(bundle.View()), identity, now, correlation)
    {
      hide RepositoryBundle.Valid, RepositoryBundle.View, RepositoryBundle.Footprint;
      var existing := bundle.GetProfile(identity.subject);
      var displayName := StringClaim(identity.claims, "name");
      var email := StringClaim(identity.claims, "email");
      if existing.Some? {
        displayName := OrExisting(displayName, existing.value.displayName);
        email := OrExisting(email, existing.value.email);
      }
      var registeredAt := if existing.Some? then existing.value.registeredAt else now;
      var profile := UserProfile(identity.subject, registeredAt, now, displayName, email);
      bundle.UpsertProfile(profile);
      bundle.AppendAudit(AuditEvent(UserRegistration, Some(identity.subject), Some(identity.subject), None, None, None,
                                    correlation, if existing.None? then Created else Refreshed, now));
      r := RegistrationResult(profile, existing.None?);
    }

    method GetSelfProfile(subject: string) returns (view: ProfileView)
      requires bundle.Valid() && bundle.Accepts(subject)
      ensures bundle.Valid() && bundle.View() == old(bundle.View())
      ensures IsProfileView(bundle.View(), subject, view)
    {
      hide RepositoryBundle.Valid, RepositoryBundle.View, RepositoryBundle.Footprint;
      var profile := bundle.GetProfile(subject);
      var memberships := bundle.ListMemberships(subject);
      var names := [];
      for i := 0 to |memberships|
        invariant |names| == i && forall j | 0 <= j < i :: names[j] == memberships[j].groupName
      {
        names := names + [memberships[i].groupName];
      }
      ghost var members := bundle.View().members;
      forall j | 0 <= j < |names|
        ensures (subject, names[j]) in members && members[(subject, names[j])] == memberships[j]
      {
        assert memberships[j] in MembershipsOfUser(members, subject);
      }
      assert NoDuplicates(names);
      forall g ensures g in names <==> (subject, g) in members {
        if (subject, g) in members {
          var m := members[(subject, g)];
          assert m in MembershipsOfUser(members, subject);
          var j :| 0 <= j < |memberships| && memberships[j] == m;
          assert names[j] == g;
        }
      }
      SortNamesStrict(names);
      view := ProfileView(profile, SortNames(names));
    }
  }

  class AdminGroupService {
    const bundle: RepositoryBundle

    constructor (bundle: RepositoryBundle)
      ensures this.bundle == bundle
    {
      this.bundle := bundle;
    }

    method CreateGroup(actor: string, name: string, description: Option<string>, now: Time, correlation: Option<string>)
      returns (r: Result<GroupDefinition>)
      requires bundle.Valid()
      modifies bundle.Footprint()
      ensures bundle.Valid()
      ensures (bundle.View(), r)
              == Authority.CreateGroup(old(bundle.View()), actor, name, description, now, correlation)
    {
      hide RepositoryBundle.Valid, RepositoryBundle.View, RepositoryBundle.Footprint;
      r := TryCreateGroup(name, description, now);
      var group := if r.Ok? then Some(r.value.name) else NonEmpty(Lower(Strip(name)));
      bundle.AppendAudit(AuditEvent(EventType.GroupCreate, Some(actor), None, group, None, None, correlation,
                                    if r.Ok? then Success else Failure, now));
    }

    /** The body of `create_group`'s try block. */
    method TryCreateGroup(name: string, description: Option<string>, now: Time) returns (r: Result<GroupDefinition>)
      requires bundle.Valid()
      modifies bundle.Footprint()
      ensures bundle.Valid()
      ensures match NewGroupName(old(bundle.View()).groups, name)
              case Err(e) => r == Err(e) && bundle.View() == old(bundle.View())
              case Ok(n) =>
                && r == Ok(GroupDefinition(n, StripOrNone(description), false, true, now))
                && bundle.View() == old(bundle.View()).(groups := old(bundle.View()).groups[n := r.value])
    {
      hide RepositoryBundle.Valid, RepositoryBundle.View, RepositoryBundle.Footprint;
      var validated := NormalizeGroupName(name);
      if validated.Err? {
        return Err(validated.error);
      }
      Rules.NormalizeIdempotent(name);
      GroupNamesAreSegments(validated.value);
      var reserved := IsReservedGroup(validated.value);
      if reserved.value {
        return Err(ReservedGroup);
      }
      var existing := bundle.GetGroup(validated.value);
      if existing.Some? {
        return Err(GroupAlreadyExists);
      }
      var group := GroupDefinition(validated.value, StripOrNone(description), false, true, now);
      bundle.UpsertGroup(group);
      r := Ok(group);
    }

    /** `_find_membership`: the first of the subject's memberships in the group. */
    method FindMembership(sub: string, group: string) returns (r: Option<Membership>)
      requires bundle.Valid() && bundle.Accepts(sub)
      ensures bundle.Valid() && bundle.View() == old(bundle.View())
      ensures r == Lookup(bundle.View().members, (sub, group))
    {
      hide RepositoryBundle.Valid, RepositoryBundle.View, RepositoryBundle.Footprint;
      var memberships := bundle.ListMemberships(sub);
      ghost var members := bundle.View().members;
      assert (sub, group) in members ==> members[(sub, group)] in memberships;
      for i := 0 to |memberships|
        invariant forall j | 0 <= j < i :: memberships[j].groupName != group
      {
        if memberships[i].groupName == group {
          assert memberships[i] in MembershipsOfUser(bundle.View().members, sub);
          return Some(memberships[i]);
        }
      }
      r := None;
    }

    /** The lookups both membership operations start with. */
    method FindActiveGroup(name: string) returns (r: Result<string>)
      requires bundle.Valid()
      ensures bundle.Valid() && bundle.View() == old(bundle.View())
      ensures r == KnownGroup(bundle.View().groups, name)
    {
      hide RepositoryBundle.Valid, RepositoryBundle.View, RepositoryBundle.Footprint;
      var validated := NormalizeGroupName(name);
      if validated.Err? {
        return Err(validated.error);
      }
      GroupNamesAreSegments(validated.value);
      var group := bundle.GetGroup(validated.value);
      if group.None? || !group.value.isActive {
        return Err(GroupNotFound);
      }
      r := validated;
    }

    method AddMembership(actor: string, sub: string, name: string, now: Time, correlation: Option<string>)
      returns (r: Result<Membership>)
      requires bundle.Valid() && bundle.Accepts(sub)
      modifies bundle.Footprint()
      ensures bundle.Valid()
      ensures (bundle.View(), r) == Authority.AddMembership(old(bundle.View()), actor, sub, name, now, correlation)
    {
      hide RepositoryBundle.Valid, RepositoryBundle.View, RepositoryBundle.Footprint;
      r := TryAddMembership(actor, sub, name, now);
      var group := if r.Ok? then Some(r.value.groupName) else NonEmpty(Lower(Strip(name)));
      bundle.AppendAudit(AuditEvent(MembershipAdd, Some(actor), Some(sub), group, None, None, correlation,
                                    if r.Ok? then Success else Failure, now));
    }

    /** The body of `add_membership`'s try block: an existing membership is returned as it is. */
    method TryAddMembership(actor: string, sub: string, name: string, now: Time) returns (r: Result<Membership>)
      requires bundle.Valid() && bundle.Accepts(sub)
      modifies bundle.Footprint()
      ensures bundle.Valid()
      ensures r == MembershipToAdd(old(bundle.View()), actor, sub, name, now)
      ensures bundle.View() ==
              if r.Err? || (sub, Lower(Strip(name))) in old(bundle.View()).members then old(bundle.View())
              else old(bundle.View()).(members := old(bundle.View()).members[(sub, Lower(Strip(name))) := r.value])
    {
      hide RepositoryBundle.Valid, RepositoryBundle.View, RepositoryBundle.Footprint;
      var validated := FindActiveGroup(name);
      if validated.Err? {
        return Err(validated.error);
      }
      var registered := bundle.IsRegistered(sub);
      if !registered {
        return Err(UnregisteredUser);
      }
      var existing := FindMembership(sub, validated.value);
      if existing.Some? {
        return Ok(existing.value);
      }
      var membership := Membership(sub, validated.value, now, Some(actor));
      bundle.AddMembership(membership);
      r := Ok(membership);
    }

    method RemoveMembership(actor: string, sub: string, name: string, now: Time, correlation: Option<string>)
      returns (r: Result<()>)
      requires bundle.Valid() && bundle.Accepts(sub)
      modifies bundle.Footprint()
      ensures bundle.Valid()
      ensures (bundle.View(), r) == Authority.RemoveMembership(old(bundle.View()), actor, sub, name, now, correlation)
    {
      hide RepositoryBundle.Valid, RepositoryBundle.View, RepositoryBundle.Footprint;
      r := TryRemoveMembership(sub, name);
      var normalized := Lower(Strip(name));
      var group := if r.Ok? then Some(normalized) else NonEmpty(normalized);
      bundle.AppendAudit(AuditEvent(MembershipRemove, Some(actor), Some(sub), group, None, None, correlation,
                                    if r.Ok? then Success else Failure, now));
    }

    /** The body of `remove_membership`'s try block, last-admin guard included. */
    method TryRemoveMembership(sub: string, name: string) returns (r: Result<()>)
      requires bundle.Valid() && bundle.Accepts(sub)
      modifies bundle.Footprint()
      ensures bundle.Valid()
      ensures match MembershipToRemove(old(bundle.View()), sub, name)
              case Err(e) => r == Err(e) && bundle.View() == old(bundle.View())
              case Ok(group) =>
                && r == Ok(())
                && bundle.View() == old(bundle.View()).(members := old(bundle.View()).members - {(sub, group)})
    {
      hide RepositoryBundle.Valid, RepositoryBundle.View, RepositoryBundle.Footprint;
      var validated := FindActiveGroup(name);
      if validated.Err? {
        return Err(validated.error);
      }
      var existing := FindMembership(sub, validated.value);
      if existing.None? {
        var registered := bundle.IsRegistered(sub);
        if !registered {
          return Err(UnregisteredUser);
        }
        return Err(MembershipNotFound);
      }
      if validated.value == RESERVED_ADMIN_GROUP {
        var count := bundle.CountMembers(RESERVED_ADMIN_GROUP);
        var guard := EnsureAdminMembershipRemains(count as int - 1);
        if guard.Err? {
          return guard;
        }
      }
      var removed := bundle.RemoveMembership(sub, validated.value);
      if !removed {
        return Err(MembershipNotFound);
      }
      r := Ok(());
    }
  }

  class AdminTokenService {
    const bundle: RepositoryBundle
    const signing: Signing

    constructor (bundle: RepositoryBundle, signing: Signing)
      ensures this.bundle == bundle && this.signing == signing
    {
      this.bundle, this.signing := bundle, signing;
    }

    /** `_validate_groups`: a growing list and a set of what it has seen, failing at the first unknown group. */
    method ValidateGroupsLoop(groups: seq<string>) returns (r: Result<seq<string>>)
      requires bundle.Valid()
      ensures bundle.Valid() && bundle.View() == old(bundle.View())
      ensures r == ValidateGroups(bundle.View().groups, groups)
    {
      hide RepositoryBundle.Valid, RepositoryBundle.View, RepositoryBundle.Footprint;
      var allowed := EnsureRuntimeGroupsAllowed(groups);
      if allowed.Err? {
        return Err(allowed.error);
      }
      var normalized := allowed.value;
      if normalized == [] {
        return Err(InvalidValue);
      }
      r := UniqueActive(normalized);
    }

    /** The loop of `_validate_groups`. */
    method UniqueActive(normalized: seq<string>) returns (r: Result<seq<string>>)
      requires bundle.Valid() && forall g | g in normalized :: IsGroupName(g)
      ensures bundle.Valid() && bundle.View() == old(bundle.View())
      ensures r == if exists g | g in normalized :: !ActiveGroup(bundle.View().groups, g) then Err(GroupNotFound)
                   else Ok(Dedupe(normalized))
    {
      hide RepositoryBundle.Valid, RepositoryBundle.View, RepositoryBundle.Footprint, IsGroupName;
      ghost var groups := bundle.View().groups;
      var unique: seq<string> := [];
      var seen: set<string> := {};
      for i := 0 to |normalized|
        invariant bundle.Valid() && bundle.View() == old(bundle.View())
        invariant unique == Dedupe(normalized[..i])
        invariant forall g :: g in seen <==> g in normalized[..i]
        invariant forall g | g in seen :: ActiveGroup(groups, g)
      {
        assert normalized[..i + 1] == normalized[..i] + [normalized[i]];
        DedupeStep(normalized[..i], normalized[i]);
        DedupeElements(normalized[..i]);
        if normalized[i] in seen {
          continue;
        }
        seen := seen + {normalized[i]};
        assert normalized[i] in normalized;
        GroupNamesAreSegments(normalized[i]);
        var group := bundle.GetGroup(normalized[i]);
        if group.None? || !group.value.isActive {
          return Err(GroupNotFound);
        }
        unique := unique + [normalized[i]];
      }
      assert normalized[..|normalized|] == normalized;
      r := Ok(unique);
    }

    method MintToken(actor: string, owner: string, groups: seq<string>, expiresIn: Option<int>, now: Time,
                     freshId: string, correlation: Option<string>)
      returns (r: Result<MintedToken>)
      requires bundle.Valid() && bundle.Accepts(owner) && bundle.Accepts(freshId)
      modifies bundle.Footprint()
      ensures bundle.Valid()
      ensures (bundle.View(), r) ==
              Authority.MintToken(old(bundle.View()), actor, owner, groups, expiresIn, now, freshId, signing,
                                  correlation)
    {
      hide RepositoryBundle.Valid, RepositoryBundle.View, RepositoryBundle.Footprint, NewToken, WriteToken;
      r := TryMintToken(actor, owner, groups, expiresIn, now, freshId);
      var tokenId := if r.Ok? then Some(r.value.record.tokenId) else None;
      bundle.AppendAudit(AuditEvent(TokenMint, Some(actor), Some(owner), None, tokenId, None, correlation,
                                    if r.Ok? then Success else Failure, now));
    }

    /** The body of `mint_token`'s try block. */
    method TryMintToken(actor: string, owner: string, groups: seq<string>, expiresIn: Option<int>, now: Time,
                        freshId: string)
      returns (r: Result<MintedToken>)
      requires bundle.Valid() && bundle.Accepts(owner) && bundle.Accepts(freshId)
      modifies bundle.Footprint()
      ensures bundle.Valid()
      ensures r == NewToken(old(bundle.View()), actor, owner, groups, expiresIn, now, freshId, signing)
      ensures r.Ok? ==> r.value.record.tokenId == freshId
      ensures bundle.View() ==
              if r.Err? then old(bundle.View()) else WriteToken(old(bundle.View()), freshId, r.value.record)
    {
      hide RepositoryBundle.Valid, RepositoryBundle.View, RepositoryBundle.Footprint, NewToken;
      r := PrepareToken(actor, owner, groups, expiresIn, now, freshId);
      if r.Ok? {
        bundle.UpsertToken(r.value.record);
      }
    }

    /** Everything up to the one store write: the checks, the signed token, the record. */
    method PrepareToken(actor: string, owner: string, groups: seq<string>, expiresIn: Option<int>, now: Time,
                        freshId: string)
      returns (r: Result<MintedToken>)
      requires bundle.Valid() && bundle.Accepts(owner) && bundle.Accepts(freshId)
      ensures bundle.Valid() && bundle.View() == old(bundle.View())
      ensures r == NewToken(bundle.View(), actor, owner, groups, expiresIn, now, freshId, signing)
      ensures r.Ok? ==> r.value.record.tokenId == freshId && (bundle.Vault? ==> WellNamedRecord(r.value.record))
    {
      hide RepositoryBundle.Valid, RepositoryBundle.View, RepositoryBundle.Footprint, ValidateGroups;
      var registered := bundle.IsRegistered(owner);
      if !registered {
        return Err(UnregisteredUser);
      }
      var granted := ValidateGroupsLoop(groups);
      if granted.Err? {
        return Err(granted.error);
      }
      var lifetime := if expiresIn.None? then signing.defaultLifetime else expiresIn.value;
      if lifetime <= 0 {
        return Err(InvalidValue);
      }
      if now + lifetime * SECOND > LAST_INSTANT {
        return Err(Overflow);
      }
      var expiresAt := Some(now + lifetime * SECOND);
      var raw := signing.sign(BuildClaims(freshId, owner, signing.issuer, now, expiresAt));
      if raw.None? {
        return Err(SigningKeyUnavailable);
      }
      var record := TokenRecord(freshId, owner, granted.value, Active, now, expiresAt, Some(actor),
                                Some(signing.sha256(raw.value)), false, None);
      GrantedGroupsAreNames(bundle.View().groups, groups);
      r := Ok(MintedToken(record, raw.value));
    }

    /** `mint_token` in a process that stops after `done` of the store writes. */
    method MintTokenStopped(actor: string, owner: string, groups: seq<string>, expiresIn: Option<int>, now: Time,
                            freshId: string, done: nat)
      requires bundle.Vault? && bundle.Valid() && bundle.Accepts(owner) && bundle.Accepts(freshId)
      requires freshId !in bundle.View().tokens
      modifies bundle.Footprint()
      ensures bundle.Valid()
      ensures
        var minted := NewToken(old(bundle.View()), actor, owner, groups, expiresIn, now, freshId, signing);
        bundle.View() == if minted.Err? then old(bundle.View())
                         else WriteTokenUpTo(old(bundle.View()), freshId, minted.value.record, done)
    {
      hide RepositoryBundle.Valid, RepositoryBundle.View, RepositoryBundle.Footprint, ValidateGroups;
      var minted := PrepareToken(actor, owner, groups, expiresIn, now, freshId);
      if minted.Ok? {
        bundle.UpsertTokenStopped(minted.value.record, done);
      }
    }

    method GetToken(actor: string, tokenId: string, now: Time, correlation: Option<string>)
      returns (r: Result<TokenRecord>)
      requires bundle.Valid()
      modifies bundle.Footprint()
      ensures bundle.Valid()
      ensures (bundle.View(), r) == Authority.GetToken(old(bundle.View()), actor, tokenId, now, correlation)
    {
      hide RepositoryBundle.Valid, RepositoryBundle.View, RepositoryBundle.Footprint;
      var record := bundle.GetToken(tokenId);
      if record.None? {
        bundle.AppendAudit(AuditEvent(TokenInspect, Some(actor), None, None, Some(tokenId), None, correlation,
                                      Failure, now));
        return Err(TokenNotFound);
      }
      bundle.AppendAudit(AuditEvent(TokenInspect, Some(actor), Some(record.value.ownerSub), None, Some(tokenId), None,
                                    correlation, Success, now));
      r := Ok(record.value);
    }

    method RevokeToken(actor: string, tokenId: string, now: Time, correlation: Option<string>)
      returns (r: Result<TokenRecord>)
      requires bundle.Valid()
      modifies bundle.Footprint()
      ensures bundle.Valid()
      ensures (bundle.View(), r) == Authority.RevokeToken(old(bundle.View()), actor, tokenId, now, correlation)
    {
      hide RepositoryBundle.Valid, RepositoryBundle.View, RepositoryBundle.Footprint;
      var current := bundle.GetToken(tokenId);
      if current.None? {
        bundle.AppendAudit(AuditEvent(TokenRevoke, Some(actor), None, None, Some(tokenId), None, correlation, Failure,
                                      now));
        return Err(TokenNotFound);
      }
      var revoked := current.value;
      if current.value.status.Active? {
        revoked := AsRevoked(current.value, now);
        bundle.UpsertToken(revoked);
      }
      bundle.AppendAudit(AuditEvent(TokenRevoke, Some(actor), Some(revoked.ownerSub), None, Some(tokenId), None,
                                    correlation, Success, now));
      r := Ok(revoked);
    }

    /** The record `revoke_token` writes: copied field by field, with a new status and the time of the revocation. */
    static function AsRevoked(current: TokenRecord, now: Time): TokenRecord {
      TokenRecord(current.tokenId, current.ownerSub, current.grantedGroups, Revoked, current.issuedAt,
                  current.expiresAt, current.issuedBySub, current.jwtHash, current.pendingReveal, Some(now))
    }

    /** `revoke_token` in a process that stops after `done` of the store writes. */
    method RevokeTokenStopped(tokenId: string, now: Time, done: nat)
      requires bundle.Vault? && bundle.Valid()
      modifies bundle.Footprint()
      ensures bundle.Valid()
      ensures
        var tokens := old(bundle.View()).tokens;
        bundle.View() == if tokenId !in tokens || tokens[tokenId].status.Revoked? then old(bundle.View())
                         else WriteTokenUpTo(old(bundle.View()), tokenId, RevokedRecord(tokens[tokenId], now), done)
    {
      hide RepositoryBundle.Valid, RepositoryBundle.View, RepositoryBundle.Footprint, WriteTokenUpTo;
      var current := bundle.GetToken(tokenId);
      if current.Some? && current.value.status.Active? {
        bundle.UpsertTokenStopped(AsRevoked(current.value, now), done);
      }
    }
  }

  /** Granted groups are normal names, so each is one path segment. */
  lemma GrantedGroupsAreNames(groups: map<string, GroupDefinition>, names: seq<string>)
    ensures
      var granted := ValidateGroups(groups, names);
      granted.Ok? ==> forall g | g in granted.value :: Name(g)
  {
    var allowed := EnsureRuntimeGroupsAllowed(names);
    if ValidateGroups(groups, names).Ok? {
      DedupeElements(allowed.value);
      forall g | g in Dedupe(allowed.value) ensures Name(g) {
        assert g in allowed.value;
        GroupNamesAreSegments(g);
      }
    }
  }

  class UserTokenService {
    const bundle: RepositoryBundle

    constructor (bundle: RepositoryBundle)
      ensures this.bundle == bundle
    {
      this.bundle := bundle;
    }

    /** Exactly the caller's listed records, newest first; equally old ones stay in the repository's order. */
    method ListSelfTokens(subject: string, now: Time, correlation: Option<string>)
      returns (rows: seq<TokenRecord>, ghost listed: seq<TokenRecord>)
      requires bundle.Valid() && bundle.Accepts(subject)
      modifies bundle.Footprint()
      ensures bundle.Valid() && bundle.View() == ListedSelfTokens(old(bundle.View()), subject, now, correlation)
      ensures Lists(listed, ListedOf(old(bundle.View()).tokens, old(bundle.View()).unlisted, subject))
      ensures rows == Sort(NewestFirst, listed)
      ensures Lists(rows, ListedOf(old(bundle.View()).tokens, old(bundle.View()).unlisted, subject))
              && Ordered(NewestFirst, rows)
    {
      hide RepositoryBundle.Valid, RepositoryBundle.View, RepositoryBundle.Footprint;
      var listing := bundle.ListTokens(subject);
      listed := listing;
      rows := Sort(NewestFirst, listing);
      SortOrders(NewestFirst, listing);
      SortPermutes(NewestFirst, listing);
      NoDuplicatesPermutes(listing, rows);
      bundle.AppendAudit(AuditEvent(TokenList, Some(subject), Some(subject), None, None, None, correlation, Success,
                                    now));
    }
  }

  /** Among rows issued at the same instant the sort keeps the repository's order. */
  lemma SelfListingStable(listed: seq<TokenRecord>, row: TokenRecord)
    ensures
      var sameAge := (r: TokenRecord) => r.issuedAt == row.issuedAt;
      Select(sameAge, Sort(NewestFirst, listed)) == Select(sameAge, listed)
  {
    SortStable(NewestFirst, listed, row, (r: TokenRecord) => r.issuedAt == row.issuedAt);
  }

  class RuntimeAuthorizationService {
    const bundle: RepositoryBundle

    constructor (bundle: RepositoryBundle)
      ensures this.bundle == bundle
    {
      this.bundle := bundle;
    }

    method Authorize(request: AuthorizationRequest, now: Time, correlation: Option<string>) returns (allowed: bool)
      requires bundle.Valid()
      modifies bundle.Footprint()
      ensures bundle.Valid()
      ensures (bundle.View(), allowed) == Authority.Authorize(old(bundle.View()), request, now, correlation)
    {
      hide RepositoryBundle.Valid, RepositoryBundle.View, RepositoryBundle.Footprint;
      allowed := false;
      var record := bundle.GetToken(request.tokenId);
      if record.Some? {
        var permission := request.requestedGroup;
        if permission.None? || permission.value == "" {
          permission := request.requestedResource;
        }
        allowed := permission.Some? && permission.value != ""
                   && request.ownerSub == Some(record.value.ownerSub)
                   && record.value.status.Active?
                   && (record.value.expiresAt.None? || now < record.value.expiresAt.value)
                   && permission.value in record.value.grantedGroups;
      }
      bundle.AppendAudit(AuditEvent(RuntimeAuthorize, request.ownerSub, request.ownerSub, request.requestedGroup,
                                    Some(request.tokenId), request.requestedResource, correlation,
                                    if allowed then Allow else Deny, now));
    }
  }

  /** The names in a request that end up in store paths. */
  predicate Acceptable(bundle: RepositoryBundle, c: Call, env: Env) {
    match c
    case Register(identity) => bundle.Accepts(identity.subject)
    case ShowProfile(sub) => bundle.Accepts(sub)
    case ShowTokens(sub) => bundle.Accepts(sub)
    case AddMemberCall(_, sub, _) => bundle.Accepts(sub)
    case RemoveMemberCall(_, sub, _) => bundle.Accepts(sub)
    case MintCall(_, owner, _, _) => bundle.Accepts(owner) && bundle.Accepts(env.freshId)
    case _ => true
  }

  /** Dispatches a request that needs no admin to its service. */
  method HandlePublic(bundle: RepositoryBundle, c: Call, env: Env) returns (reply: Reply)
    requires bundle.Valid() && Acceptable(bundle, c, env) && !AdminOnly(c)
    modifies bundle.Footprint()
    ensures bundle.Valid()
    ensures bundle.View() == After(old(bundle.View()), c, env)
    ensures Answers(old(bundle.View()), c, env, reply)
  {
    hide RepositoryBundle.Valid, RepositoryBundle.View, Authority.RegisterSelf, Authority.CreateGroup,
         Authority.AddMembership;
    hide IsProfileView, Lists, Ordered, ListedOf;
    hide Authority.RemoveMembership, Authority.MintToken, Authority.GetToken, Authority.RevokeToken,
         Authority.Authorize;
    match c {
      case Register(identity) =>
        var registration := new UserRegistrationService(bundle);
        var result := registration.RegisterSelf(identity, env.now, env.correlation);
        reply := RegisteredReply(result);
      case ShowProfile(sub) =>
        var registration := new UserRegistrationService(bundle);
        var view := registration.GetSelfProfile(sub);
        reply := ProfileReply(view);
      case ShowTokens(sub) =>
        var userTokens := new UserTokenService(bundle);
        var rows, _ := userTokens.ListSelfTokens(sub, env.now, env.correlation);
        reply := TokensReply(rows);
      case AskRuntime(request) =>
        var runtime := new RuntimeAuthorizationService(bundle);
        var allowed := runtime.Authorize(request, env.now, env.correlation);
        reply := DecisionReply(allowed);
    }
  }

  /** Dispatches an admin request, whose gate was passed some time before, to its service. */
  method HandleAdmin(bundle: RepositoryBundle, c: Call, env: Env) returns (reply: Reply)
    requires bundle.Valid() && Acceptable(bundle, c, env) && AdminOnly(c)
    modifies bundle.Footprint()
    ensures bundle.Valid()
    ensures bundle.View() == After(old(bundle.View()), c, env)
    ensures Answers(old(bundle.View()), c, env, reply)
  {
    hide RepositoryBundle.Valid, RepositoryBundle.View, Authority.RegisterSelf, Authority.CreateGroup,
         Authority.AddMembership;
    hide Authority.RemoveMembership, Authority.MintToken, Authority.GetToken, Authority.RevokeToken,
         Authority.Authorize;
    var groupService := new AdminGroupService(bundle);
    var tokenService := new AdminTokenService(bundle, env.signing);
    match c {
      case CreateGroupCall(actor, name, description) =>
        var group := groupService.CreateGroup(actor, name, description, env.now, env.correlation);
        reply := GroupReply(group);
      case AddMemberCall(actor, sub, group) =>
        var membership := groupService.AddMembership(actor, sub, group, env.now, env.correlation);
        reply := MembershipReply(membership);
      case RemoveMemberCall(actor, sub, group) =>
        var removal := groupService.RemoveMembership(actor, sub, group, env.now, env.correlation);
        reply := RemovalReply(removal);
      case MintCall(actor, owner, groups, expiresIn) =>
        var minted := tokenService.MintToken(actor, owner, groups, expiresIn, env.now, env.freshId, env.correlation);
        reply := MintReply(minted);
      case InspectCall(actor, tokenId) =>
        var record := tokenService.GetToken(actor, tokenId, env.now, env.correlation);
        reply := RecordReply(record);
      case RevokeCall(actor, tokenId) =>
        var record := tokenService.RevokeToken(actor, tokenId, env.now, env.correlation);
        reply := RecordReply(record);
    }
  }

  /** Handles one request, whatever it asks for. */
  method Handle(bundle: RepositoryBundle, c: Call, env: Env) returns (reply: Reply)
    requires bundle.Valid() && Acceptable(bundle, c, env)
    modifies bundle.Footprint()
    ensures bundle.Valid()
    ensures bundle.View() == After(old(bundle.View()), c, env)
    ensures Answers(old(bundle.View()), c, env, reply)
  {
    hide RepositoryBundle.Valid, RepositoryBundle.View, RepositoryBundle.Footprint, After, Answers;
    if AdminOnly(c) {
      reply := HandleAdmin(bundle, c, env);
    } else {
      reply := HandlePublic(bundle, c, env);
    }
  }

  /** A handler in a process that stops after `done` of its store writes. */
  method HandleStopped(bundle: RepositoryBundle, c: Call, env: Env, done: nat)
    requires bundle.Vault? && bundle.Valid() && Acceptable(bundle, c, env)
    requires c.MintCall? ==> env.freshId !in bundle.View().tokens
    modifies bundle.Footprint()
    ensures bundle.Valid() && bundle.View() == Stopped(old(bundle.View()), c, env, done)
  {
    hide RepositoryBundle.Valid, RepositoryBundle.View, After, NewToken, WriteTokenUpTo;
    if c.MintCall? {
      var tokenService := new AdminTokenService(bundle, env.signing);
      tokenService.MintTokenStopped(c.actor, c.owner, c.groups, c.expiresIn, env.now, env.freshId, done);
    } else if c.RevokeCall? {
      var tokenService := new AdminTokenService(bundle, env.signing);
      tokenService.RevokeTokenStopped(c.tokenId, env.now, done);
    } else if done > 0 {
      var _ := Handle(bundle, c, env);
    }
  }
}
