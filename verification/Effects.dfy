/** What one operation does, as later operations see it. */
module Effects {
  import opened Models
  import opened Text
  import opened Rules
  import opened Claims
  import opened Codec
  import opened VaultSigner
  import opened Authority
  import opened Runs
  import opened History
  import opened Contract

  // --- registration

  /** Registering again with the same claims changes nothing but the time of the last update. */
  lemma RegistrationIdempotent(s: State, identity: Identity, now: Time, later: Time, correlation: Option<string>)
    ensures
      var (t, first) := RegisterSelf(s, identity, now, correlation);
      var (u, second) := RegisterSelf(t, identity, later, correlation);
      && !second.created && second.profile == first.profile.(updatedAt := later)
      && u.profiles == t.profiles[identity.subject := first.profile.(updatedAt := later)]
  {
  }

  // --- memberships

  lemma LookupAfterAdd(s: State, actor: string, sub: string, name: string, now: Time, correlation: Option<string>)
    requires MembersKeyed(s.members)
    ensures
      var (t, added) := AddMembership(s, actor, sub, name, now, correlation);
      added.Ok? ==>
        && KnownGroup(s.groups, name) == Ok(added.value.groupName)
        && added.value.keycloakSub == sub
        && t.members == s.members[(sub, added.value.groupName) := added.value]
  {
  }

  /** Adding twice is adding once: the second call gives back the first one's membership and changes nothing. */
  lemma AddIsIdempotent(s: State, actor: string, other: string, sub: string, name: string, now: Time, later: Time,
                        correlation: Option<string>)
    requires MembersKeyed(s.members)
    ensures
      var (t, added) := AddMembership(s, actor, sub, name, now, correlation);
      var (u, again) := AddMembership(t, other, sub, name, later, correlation);
      added.Ok? ==> again == added && u.members == t.members
  {
  }

  /** A removal undoes the addition of a new membership, unless that one is the first admin ever. */
  lemma RemoveUndoesAdd(s: State, actor: string, sub: string, name: string, now: Time, later: Time,
                        correlation: Option<string>)
    requires MembersKeyed(s.members)
    ensures
      var (t, added) := AddMembership(s, actor, sub, name, now, correlation);
      var (u, removal) := RemoveMembership(t, actor, sub, name, later, correlation);
      added.Ok? && (sub, added.value.groupName) !in s.members ==>
        && (removal.Ok? <==> added.value.groupName != RESERVED_ADMIN_GROUP || HasAdmin(s))
        && u.members == (if removal.Ok? then s.members else t.members)
        && (removal.Err? ==> removal.error == LastAdminRemoval)
  {
    LookupAfterAdd(s, actor, sub, name, now, correlation);
    var (t, added) := AddMembership(s, actor, sub, name, now, correlation);
    if added.Ok? && (sub, added.value.groupName) !in s.members {
      hide AddMembership, KnownGroup;
      assert t.members - {(sub, added.value.groupName)} == s.members;
      if added.value.groupName == RESERVED_ADMIN_GROUP {
        AdminCount(s, t.members, sub, added.value);
      }
    }
  }

  /** A new admin is the only one exactly when there was none before. */
  lemma AdminCount(s: State, after: map<(string, string), Membership>, sub: string, m: Membership)
    requires MembersKeyed(s.members) && m.keycloakSub == sub && m.groupName == RESERVED_ADMIN_GROUP
    requires !IsAdmin(s, sub) && after == s.members[(sub, RESERVED_ADMIN_GROUP) := m]
    ensures |MembershipsOfGroup(after, RESERVED_ADMIN_GROUP)| - 1 <= 0 <==> !HasAdmin(s)
  {
    var before := s.members;
    var old_, new_ := MembershipsOfGroup(before, RESERVED_ADMIN_GROUP), MembershipsOfGroup(after, RESERVED_ADMIN_GROUP);
    assert new_ == old_ + {m} by {
      forall x ensures x in new_ <==> x in old_ + {m} {
        if x in old_ {
          var k :| k in before && k.1 == RESERVED_ADMIN_GROUP && before[k] == x;
          assert k in after && after[k] == x;
        }
        if x == m {
          assert after[(sub, RESERVED_ADMIN_GROUP)] == m;
        }
      }
    }
    assert m !in old_;
    if other :| IsAdmin(s, other) {
      assert before[(other, RESERVED_ADMIN_GROUP)] in old_;
    } else {
      forall k | k in before ensures k.1 != RESERVED_ADMIN_GROUP {
        assert !IsAdmin(s, k.0);
      }
      assert old_ == {};
    }
  }

  // --- tokens

  /**
   * Groups can be granted exactly when there is at least one and each names a defined, active group other than
   * `admin`.
   */
  lemma ValidateGroupsIff(groups: map<string, GroupDefinition>, names: seq<string>)
    ensures ValidateGroups(groups, names).Ok?
       <==> names != [] && forall n | n in names ::
              && NormalizeGroupName(n).Ok?
              && NormalizeGroupName(n).value != RESERVED_ADMIN_GROUP
              && ActiveGroup(groups, NormalizeGroupName(n).value)
  {
  }

  /** What a mint grants: the requested groups in normal form, and nothing else. */
  lemma GrantedExactly(groups: map<string, GroupDefinition>, names: seq<string>, g: string)
    requires ValidateGroups(groups, names).Ok?
    ensures g in ValidateGroups(groups, names).value <==> exists n | n in names :: NormalizeGroupName(n) == Ok(g)
  {
    hide NormalizeGroupName;
    var normalized := NormalizeAll(names).value;
    DedupeElements(normalized);
    if g in normalized {
      var i :| 0 <= i < |normalized| && normalized[i] == g;
      assert names[i] in names;
    }
    if n :| n in names && NormalizeGroupName(n) == Ok(g) {
      var i :| 0 <= i < |names| && names[i] == n;
      assert normalized[i] == g;
    }
  }

  /**
   * From the moment of its mint a token opens exactly the groups it was asked for, to exactly its owner,
   * until exactly its lifetime is over; no other token is affected.
   */
  lemma MintedTokenOpens(s: State, actor: string, owner: string, groups: seq<string>, expiresIn: Option<int>, env: Env,
                         request: AuthorizationRequest, when: Time)
    ensures
      var (t, minted) :=
          MintToken(s, actor, owner, groups, expiresIn, env.now, env.freshId, env.signing, env.correlation);
      var permission := RequiredPermission(request);
      var lifetime := if expiresIn.Some? then expiresIn.value else env.signing.defaultLifetime;
      minted.Ok? ==>
        && (request.tokenId == env.freshId ==>
              (Allowed(t.tokens, request, when) <==>
                && request.ownerSub == Some(owner) && when < env.now + lifetime * SECOND
                && permission.Some? && permission.value != ""
                && exists n | n in groups :: NormalizeGroupName(n) == Ok(permission.value)))
        && (request.tokenId != env.freshId ==> Allowed(t.tokens, request, when) == Allowed(s.tokens, request, when))
  {
    hide ValidateGroups, NormalizeGroupName;
    var minted := NewToken(s, actor, owner, groups, expiresIn, env.now, env.freshId, env.signing);
    var permission := RequiredPermission(request);
    if minted.Ok? && permission.Some? {
      GrantedExactly(s.groups, groups, permission.value);
    }
  }

  // --- runs

  /** A group name, in any spelling, can be created once: every later attempt of any run is refused. */
  lemma NameCreatedOnce(steps: seq<Step>, i: nat, name: string, other: string, actor: string, now: Time,
                        description: Option<string>, correlation: Option<string>)
    requires i <= |steps| && FreshIds(steps)
    requires NormalizeGroupName(name).Ok? && NormalizeGroupName(name) == NormalizeGroupName(other)
    requires NormalizeGroupName(name).value in Exec(steps[..i]).state.groups
    ensures
      var outcome := CreateGroup(Exec(steps).state, actor, other, description, now, correlation).1;
      outcome == Err(if NormalizeGroupName(name).value == RESERVED_ADMIN_GROUP then ReservedGroup
                     else GroupAlreadyExists)
  {
    hide NormalizeGroupName, Exec;
    RecordsEvolve(steps, i);
  }

  /**
   * Nothing but expiry and revocation ends what a token opens: an allowed request stays allowed at every
   * later moment of every run as long as neither has happened, whatever happens to memberships and admins.
   */
  lemma AllowedUntil(steps: seq<Step>, i: nat, request: AuthorizationRequest, earlier: Time, now: Time)
    requires i <= |steps| && FreshIds(steps)
    requires Allowed(Exec(steps[..i]).state.tokens, request, earlier)
    ensures
      var then_, record :=
          Exec(steps[..i]).state.tokens[request.tokenId], Lookup(Exec(steps).state.tokens, request.tokenId);
      Allowed(Exec(steps).state.tokens, request, now)
      <==> record.Some? && record.value.status.Active? && (then_.expiresAt.Some? ==> now < then_.expiresAt.value)
  {
    hide Exec;
    RecordsEvolve(steps, i);
  }

  // --- what users have told

  predicate RegistersAt(step: Step, sub: string) {
    step.Public? && step.call.Register? && step.call.identity.subject == sub
  }

  ghost predicate GivesAt(step: Step, sub: string, key: string, v: string) {
    RegistersAt(step, sub) && Gives(step.call.identity.claims, key, v)
  }

  /** `told` is what the last registration of the subject to give anything gave, if one ever did. */
  ghost predicate LastGiven(steps: seq<Step>, sub: string, key: string, told: Option<string>) {
    match told
    case None => forall i, v | 0 <= i < |steps| :: !GivesAt(steps[i], sub, key, v)
    case Some(v) =>
      exists i | 0 <= i < |steps| ::
        GivesAt(steps[i], sub, key, v) && forall j, w | i < j < |steps| :: !GivesAt(steps[j], sub, key, w)
  }

  ghost predicate FirstRegisteredAt(steps: seq<Step>, sub: string, when: Time) {
    exists i | 0 <= i < |steps| ::
      RegistersAt(steps[i], sub) && steps[i].env.now == when && forall j | 0 <= j < i :: !RegistersAt(steps[j], sub)
  }

  ghost predicate LastRegisteredAt(steps: seq<Step>, sub: string, when: Time) {
    exists i | 0 <= i < |steps| ::
      && RegistersAt(steps[i], sub) && steps[i].env.now == when
      && forall j | i < j < |steps| :: !RegistersAt(steps[j], sub)
  }

  ghost predicate ProfileTold(steps: seq<Step>, sub: string, profiles: map<string, UserProfile>) {
    if sub in profiles then
      && FirstRegisteredAt(steps, sub, profiles[sub].registeredAt)
      && LastRegisteredAt(steps, sub, profiles[sub].updatedAt)
      && LastGiven(steps, sub, "name", profiles[sub].displayName)
      && LastGiven(steps, sub, "email", profiles[sub].email)
    else
      forall i | 0 <= i < |steps| :: !RegistersAt(steps[i], sub)
  }

  /**
   * Along every run, restarts and stops included, a profile shows the name and the email that the subject's last
   * registration to give one gave, and the times of the first and the last one; nobody else's doings change it.
   */
  lemma {:induction false} ProfileShowsLastGiven(steps: seq<Step>, sub: string)
    ensures ProfileTold(steps, sub, Exec(steps).state.profiles)
  {
    hide Next, ProfileTold;
    if steps == [] {
      NothingTold(sub);
    } else {
      var init, last := steps[..|steps| - 1], steps[|steps| - 1];
      ProfileShowsLastGiven(init, sub);
      Provenance(init);
      hide PendingProven, MembersProven, TokensProven, GroupsProven, RegisterSelf;
      OnlyRegistersChange(init, last);
      assert init + [last] == steps;
      if RegistersAt(last, sub) {
        ToldNow(init, last, sub, Exec(init).state);
      } else {
        ToldBefore(init, last, sub, Exec(init).state.profiles, Exec(steps).state.profiles);
      }
    }
  }

  lemma NothingTold(sub: string)
    ensures ProfileTold([], sub, Exec([]).state.profiles)
  {
  }

  lemma ToldBefore(init: seq<Step>, last: Step, sub: string, before: map<string, UserProfile>,
                   after: map<string, UserProfile>)
    requires ProfileTold(init, sub, before) && !RegistersAt(last, sub) && Lookup(after, sub) == Lookup(before, sub)
    ensures ProfileTold(init + [last], sub, after)
  {
    hide Gives;
    var steps := init + [last];
    assert forall i | 0 <= i < |init| :: steps[i] == init[i];
    if sub in before {
      var i :| 0 <= i < |init| && RegistersAt(init[i], sub) && init[i].env.now == before[sub].registeredAt
               && forall j | 0 <= j < i :: !RegistersAt(init[j], sub);
      assert RegistersAt(steps[i], sub);
      var k :| 0 <= k < |init| && RegistersAt(init[k], sub) && init[k].env.now == before[sub].updatedAt
               && forall j | k < j < |init| :: !RegistersAt(init[j], sub);
      assert RegistersAt(steps[k], sub);
      StillGiven(init, last, sub, "name", before[sub].displayName);
      StillGiven(init, last, sub, "email", before[sub].email);
    }
  }

  /** What was given last is still given last after a step that gives nothing. */
  lemma StillGiven(init: seq<Step>, last: Step, sub: string, key: string, told: Option<string>)
    requires LastGiven(init, sub, key, told) && forall v :: !GivesAt(last, sub, key, v)
    ensures LastGiven(init + [last], sub, key, told)
  {
    hide GivesAt;
    var steps := init + [last];
    assert forall i | 0 <= i < |init| :: steps[i] == init[i];
    if told.Some? {
      var i :| 0 <= i < |init| && GivesAt(init[i], sub, key, told.value)
               && forall j, w | i < j < |init| :: !GivesAt(init[j], sub, key, w);
      assert GivesAt(steps[i], sub, key, told.value);
    }
  }

  /** A registration that gives something is the last to do so. */
  lemma NewlyGiven(init: seq<Step>, last: Step, sub: string, key: string, before: Option<string>,
                   after: Option<string>)
    requires LastGiven(init, sub, key, before) && RegistersAt(last, sub)
    requires Takes(last.call.identity.claims, key, before, after)
    ensures LastGiven(init + [last], sub, key, after)
  {
    if v :| GivesAt(last, sub, key, v) {
      assert Gives(last.call.identity.claims, key, v);
      assert GivesAt((init + [last])[|init|], sub, key, v);
    } else {
      assert forall v :: Gives(last.call.identity.claims, key, v) ==> GivesAt(last, sub, key, v);
      StillGiven(init, last, sub, key, before);
    }
  }

  lemma ToldNow(init: seq<Step>, last: Step, sub: string, s: State)
    requires ProfileTold(init, sub, s.profiles) && RegistersAt(last, sub)
    ensures ProfileTold(init + [last], sub,
                        RegisterSelf(s, last.call.identity, last.env.now, last.env.correlation).0.profiles)
  {
    hide RegisterSelf, Gives, Takes, GivesAt, LastGiven;
    var (t, result) := RegisterSelf(s, last.call.identity, last.env.now, last.env.correlation);
    RegisterDoes(s, last.call.identity, last.env);
    var steps := init + [last];
    assert forall i | 0 <= i < |init| :: steps[i] == init[i];
    assert steps[|init|] == last;
    var known := sub in s.profiles;
    if known {
      var i :| 0 <= i < |init| && RegistersAt(init[i], sub) && init[i].env.now == s.profiles[sub].registeredAt
               && forall j | 0 <= j < i :: !RegistersAt(init[j], sub);
      assert RegistersAt(steps[i], sub);
    } else {
      NoneGiven(init, sub, "name");
      NoneGiven(init, sub, "email");
    }
    assert FirstRegisteredAt(steps, sub, t.profiles[sub].registeredAt);
    NewlyGiven(init, last, sub, "name", if known then s.profiles[sub].displayName else None,
               result.profile.displayName);
    NewlyGiven(init, last, sub, "email", if known then s.profiles[sub].email else None, result.profile.email);
  }

  lemma NoneGiven(steps: seq<Step>, sub: string, key: string)
    requires forall i | 0 <= i < |steps| :: !RegistersAt(steps[i], sub)
    ensures LastGiven(steps, sub, key, None)
  {
  }

  lemma OnlyRegistersChange(init: seq<Step>, step: Step)
    requires PendingProven(init)
    ensures
      var before := Exec(init);
      Next(before, step).state.profiles ==
      match step
      case Public(Register(identity), env) => RegisterSelf(before.state, identity, env.now, env.correlation).0.profiles
      case _ => before.state.profiles
  {
    hide Exec, WasAdmin, Bootstrap, After, Stopped, Next;
    var before := Exec(init);
    if step.Boot? {
      BootKeepsProfiles(before, step);
    } else {
      StepChangesState(before, step);
      if Applied(before, step).Some? {
        CallScope(before.state, Applied(before, step).value.0, Applied(before, step).value.1);
        RegisterIs(before.state, Applied(before, step).value.0, Applied(before, step).value.1);
      }
    }
  }

  lemma BootKeepsProfiles(sys: System, step: Step)
    requires step.Boot?
    ensures Next(sys, step).state.profiles == sys.state.profiles
  {
  }

  lemma RegisterIs(s: State, c: Call, env: Env)
    ensures c.Register? ==> After(s, c, env) == RegisterSelf(s, c.identity, env.now, env.correlation).0
  {
  }

  // --- minting along a run

  /**
   * Once its owner is registered and its groups are created, nothing that happens later makes a mint fail: it
   * succeeds if and only if the lifetime is positive and representable and the signer works.
   */
  lemma MintStaysPossible(steps: seq<Step>, i: nat, actor: string, owner: string, names: seq<string>,
                          expiresIn: Option<int>, env: Env, claims: ClaimSet)
    requires i <= |steps| && FreshIds(steps)
    requires owner in Exec(steps[..i]).state.profiles && names != []
    requires forall n | n in names ::
               && NormalizeGroupName(n).Ok? && NormalizeGroupName(n).value != RESERVED_ADMIN_GROUP
               && NormalizeGroupName(n).value in Exec(steps[..i]).state.groups
    requires MintClaims(claims, owner, if expiresIn.Some? then expiresIn.value else env.signing.defaultLifetime, env)
    ensures
      var s := Exec(steps).state;
      var lifetime := if expiresIn.Some? then expiresIn.value else env.signing.defaultLifetime;
      NewToken(s, actor, owner, names, expiresIn, env.now, env.freshId, env.signing).Ok?
      <==> 0 < lifetime && env.now + lifetime * SECOND <= LAST_INSTANT && env.signing.sign(claims).Some?
  {
    hide Exec, FreshIds, NormalizeGroupName, ValidateGroups, NewToken, BuildClaims, ClaimsFor;
    var lifetime := if expiresIn.Some? then expiresIn.value else env.signing.defaultLifetime;
    GroupsStayGrantable(steps, i, owner, names);
    MintSucceedsIff(Exec(steps).state, actor, owner, names, expiresIn, env);
    ClaimsForIff(claims, env.freshId, owner, env.signing.issuer, env.now, Some(env.now + lifetime * SECOND));
  }

  lemma GroupsStayGrantable(steps: seq<Step>, i: nat, owner: string, names: seq<string>)
    requires i <= |steps| && FreshIds(steps)
    requires owner in Exec(steps[..i]).state.profiles && names != []
    requires forall n | n in names ::
               && NormalizeGroupName(n).Ok? && NormalizeGroupName(n).value != RESERVED_ADMIN_GROUP
               && NormalizeGroupName(n).value in Exec(steps[..i]).state.groups
    ensures owner in Exec(steps).state.profiles && ValidateGroups(Exec(steps).state.groups, names).Ok?
  {
    hide Exec, FreshIds, NormalizeGroupName, ValidateGroups, GoodMembers, GoodTokens, ProfilesKeyed;
    var s := Exec(steps).state;
    RecordsEvolve(steps, i);
    ReachableIntegrity(steps);
    forall n | n in names ensures ActiveGroup(s.groups, NormalizeGroupName(n).value) {
      assert NormalizeGroupName(n).value in s.groups;
    }
    ValidateGroupsIff(s.groups, names);
  }

  lemma MintSucceedsIff(s: State, actor: string, owner: string, names: seq<string>, expiresIn: Option<int>, env: Env)
    requires owner in s.profiles && ValidateGroups(s.groups, names).Ok?
    ensures
      var lifetime := if expiresIn.Some? then expiresIn.value else env.signing.defaultLifetime;
      var claims := BuildClaims(env.freshId, owner, env.signing.issuer, env.now, Some(env.now + lifetime * SECOND));
      NewToken(s, actor, owner, names, expiresIn, env.now, env.freshId, env.signing).Ok?
      <==> 0 < lifetime && env.now + lifetime * SECOND <= LAST_INSTANT && env.signing.sign(claims).Some?
    ensures
      var lifetime := if expiresIn.Some? then expiresIn.value else env.signing.defaultLifetime;
      var claims := BuildClaims(env.freshId, owner, env.signing.issuer, env.now, Some(env.now + lifetime * SECOND));
      0 < lifetime && env.now + lifetime * SECOND <= LAST_INSTANT && env.signing.sign(claims).None? ==>
        NewToken(s, actor, owner, names, expiresIn, env.now, env.freshId, env.signing) == Err(SigningKeyUnavailable)
  {
    hide ValidateGroups, BuildClaims;
  }

  /**
   * With the signer that reads its key from the store, and a lifetime that can be granted, such a mint fails if and
   * only if the signing path holds no text for the private key, or a blank one; the error says so.
   */
  lemma MintNeedsKeyIff(steps: seq<Step>, i: nat, actor: string, owner: string, names: seq<string>,
                        expiresIn: Option<int>, env: Env, stored: Option<Secret>,
                        encode: (SigningMaterial, ClaimSet) -> string)
    requires i <= |steps| && FreshIds(steps)
    requires owner in Exec(steps[..i]).state.profiles && names != []
    requires forall n | n in names ::
               && NormalizeGroupName(n).Ok? && NormalizeGroupName(n).value != RESERVED_ADMIN_GROUP
               && NormalizeGroupName(n).value in Exec(steps[..i]).state.groups
    requires env.signing == SigningWith(stored, encode, env.signing.sha256, env.signing.issuer,
                                        env.signing.defaultLifetime)
    requires
      var lifetime := if expiresIn.Some? then expiresIn.value else env.signing.defaultLifetime;
      0 < lifetime && env.now + lifetime * SECOND <= LAST_INSTANT
    ensures
      var minted := NewToken(Exec(steps).state, actor, owner, names, expiresIn, env.now, env.freshId, env.signing);
      && (minted.Err? <==> stored.None? || !NonBlankText(stored.value, "private_key_pem"))
      && (minted.Err? ==> minted.error == SigningKeyUnavailable)
  {
    hide Exec, FreshIds, NormalizeGroupName, ValidateGroups, NewToken, BuildClaims;
    GroupsStayGrantable(steps, i, owner, names);
    MintSucceedsIff(Exec(steps).state, actor, owner, names, expiresIn, env);
    var lifetime := if expiresIn.Some? then expiresIn.value else env.signing.defaultLifetime;
    var claims := BuildClaims(env.freshId, owner, env.signing.issuer, env.now, Some(env.now + lifetime * SECOND));
    KeyDecides(stored, encode, env.signing.sha256, env.signing.issuer, env.signing.defaultLifetime, claims);
  }

  lemma KeyDecides(stored: Option<Secret>, encode: (SigningMaterial, ClaimSet) -> string,
                   sha256: string -> string, issuer: string, defaultLifetime: int, claims: ClaimSet)
    ensures SigningWith(stored, encode, sha256, issuer, defaultLifetime).sign(claims).None?
       <==> stored.None? || !NonBlankText(stored.value, "private_key_pem")
  {
    var signing := SigningWith(stored, encode, sha256, issuer, defaultLifetime);
    match Material(stored) {
      case Err(_) => assert signing.sign(claims) == None;
      case Ok(material) => assert signing.sign(claims) == Some(encode(material, claims));
    }
  }

  /** The lifetime a mint asks for, or the default. */
  function LifetimeOf(c: Call, env: Env): int
    requires c.MintCall?
  {
    if c.expiresIn.Some? then c.expiresIn.value else env.signing.defaultLifetime
  }

  /** The mint in state `s` gave out a text signed over these claims, which are those of what its record is now. */
  ghost predicate SignedBy(s: State, c: Call, env: Env, r: TokenRecord, claims: ClaimSet)
    requires c.MintCall?
  {
    var minted := NewToken(s, c.actor, c.owner, c.groups, c.expiresIn, env.now, env.freshId, env.signing);
    && minted.Ok? && Evolves(minted.value.record, r)
    && env.signing.sign(claims) == Some(minted.value.rawToken)
    && r.jwtHash == Some(env.signing.sha256(minted.value.rawToken))
    && r.tokenId == env.freshId && r.ownerSub == c.owner && r.issuedAt == env.now
    && LifetimeOf(c, env) > 0 && r.expiresAt == Some(env.now + LifetimeOf(c, env) * SECOND)
    && ClaimsFor(claims, r.tokenId, r.ownerSub, env.signing.issuer, r.issuedAt, r.expiresAt)
  }

  lemma MintSigns(s: State, c: Call, env: Env, r: TokenRecord) returns (claims: ClaimSet)
    requires c.MintCall?
    requires
      var minted := NewToken(s, c.actor, c.owner, c.groups, c.expiresIn, env.now, env.freshId, env.signing);
      minted.Ok? && Evolves(minted.value.record, r)
    ensures SignedBy(s, c, env, r, claims)
  {
    hide ValidateGroups, BuildClaims, ClaimsFor;
    claims := BuildClaims(r.tokenId, r.ownerSub, env.signing.issuer, r.issuedAt, r.expiresAt);
    ClaimsForIff(claims, r.tokenId, r.ownerSub, env.signing.issuer, r.issuedAt, r.expiresAt);
  }

  lemma SignedWindow(s: State, c: Call, env: Env, r: TokenRecord, claims: ClaimSet)
    requires c.MintCall? && SignedBy(s, c, env, r, claims) && r.issuedAt >= 0
    ensures claims.exp == Some(claims.iat + LifetimeOf(c, env))
    ensures forall now :: LocallyUnexpired(claims, now) ==> now < r.expiresAt.value
  {
    hide NewToken;
    WindowExactIff(claims, r.tokenId, r.ownerSub, env.signing.issuer, r.issuedAt, LifetimeOf(c, env));
    LocalImpliesRecordIff(claims, r.tokenId, r.ownerSub, env.signing.issuer, r.issuedAt,
                          r.issuedAt + LifetimeOf(c, env) * SECOND);
  }

  /**
   * Every token of a reachable state was minted by one admin's handler of the run, with that handler's signer: the
   * raw token in its reply is the signature over claims that name the token, its owner and the issuer and are dated
   * by the record's times, and the record holds its digest. From the epoch on, the claims' window is exactly the
   * lifetime that was asked for, and whoever checks only the raw token never takes it for valid after the record has
   * expired.
   */
  lemma SignedClaims(steps: seq<Step>, t: string) returns (j: nat, c: Call, env: Env, claims: ClaimSet, raw: string)
    requires t in Exec(steps).state.tokens
    ensures 0 < j <= |steps| && HandlesAsAdmin(steps[..j], c, env) && c.MintCall? && env.freshId == t
    ensures
      var reply := MintToken(Exec(steps[..j - 1]).state, c.actor, c.owner, c.groups, c.expiresIn, env.now, env.freshId,
                             env.signing, env.correlation).1;
      reply.Ok? && reply.value.rawToken == raw
    ensures
      var r := Exec(steps).state.tokens[t];
      && env.signing.sign(claims) == Some(raw) && r.jwtHash == Some(env.signing.sha256(raw))
      && claims.jti == t && claims.sub == r.ownerSub == c.owner && claims.iss == env.signing.issuer
      && r.issuedAt == env.now && claims.iat == claims.nbf && CutToSeconds(claims.iat, r.issuedAt)
      && r.expiresAt == Some(env.now + LifetimeOf(c, env) * SECOND)
      && claims.exp.Some? && CutToSeconds(claims.exp.value, r.expiresAt.value)
      && (r.issuedAt >= 0 ==>
            && claims.exp == Some(claims.iat + LifetimeOf(c, env))
            && forall now :: LocallyUnexpired(claims, now) ==> now < r.expiresAt.value)
  {
    hide Exec, MintsToken, LocallyUnexpired, HandlesAsAdmin, CutToSeconds, NewToken;
    var r := Exec(steps).state.tokens[t];
    Provenance(steps);
    j :| 0 < j <= |steps| && MintsToken(steps[..j], t, r);
    c, env, claims := MintedFor(steps[..j], t, r);
    assert steps[..j][..|steps[..j]| - 1] == steps[..j - 1];
    var s := Exec(steps[..j - 1]).state;
    raw := NewToken(s, c.actor, c.owner, c.groups, c.expiresIn, env.now, env.freshId, env.signing).value.rawToken;
    if r.issuedAt >= 0 {
      SignedWindow(s, c, env, r, claims);
    }
  }

  lemma MintedFor(steps: seq<Step>, t: string, r: TokenRecord) returns (c: Call, env: Env, claims: ClaimSet)
    requires steps != [] && MintsToken(steps, t, r)
    ensures HandlesAsAdmin(steps, c, env) && c.MintCall? && env.freshId == t
    ensures SignedBy(Exec(steps[..|steps| - 1]).state, c, env, r, claims)
  {
    hide Exec, HandlesAsAdmin, NewToken, SignedBy, Evolves;
    var s := Exec(steps[..|steps| - 1]).state;
    c, env :| HandlesAsAdmin(steps, c, env) && c.MintCall? && env.freshId == t
      && var minted := NewToken(s, c.actor, c.owner, c.groups, c.expiresIn, env.now, env.freshId, env.signing);
         minted.Ok? && Evolves(minted.value.record, r);
    claims := MintSigns(s, c, env, r);
  }
}
