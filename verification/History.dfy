/** What holds in every state a run can reach, who is responsible for it, and what the audit log says about it. */
module History {
  import opened Models
  import opened Text
  import opened Rules
  import opened Claims
  import opened Authority
  import opened Runs

  // --- integrity of reachable states

  ghost predicate GoodGroups(s: State) {
    forall g | g in s.groups ::
      && s.groups[g].name == g && IsGroupName(g) && s.groups[g].isActive
      && (s.groups[g].isSystem <==> g == RESERVED_ADMIN_GROUP)
  }

  ghost predicate GoodMembers(s: State) {
    && MembersKeyed(s.members)
    && forall k | k in s.members :: k.1 in s.groups && (k.0 in s.profiles || s.members[k].grantedBySub == None)
  }

  /** A token grants some distinct, defined, active groups in normal form, never `admin`, to a registered owner. */
  ghost predicate GoodToken(s: State, r: TokenRecord) {
    && r.grantedGroups != [] && NoDuplicates(r.grantedGroups)
    && (forall g | g in r.grantedGroups :: ActiveGroup(s.groups, g) && IsGroupName(g) && g != RESERVED_ADMIN_GROUP)
    && r.ownerSub in s.profiles
    && r.expiresAt.Some? && r.issuedAt < r.expiresAt.value
    && (r.status.Revoked? <==> r.revokedAt.Some?)
  }

  ghost predicate GoodTokens(s: State) {
    TokensKeyed(s.tokens) && forall t | t in s.tokens :: GoodToken(s, s.tokens[t])
  }

  ghost predicate ProfilesKeyed(s: State) {
    forall sub | sub in s.profiles :: s.profiles[sub].keycloakSub == sub
  }

  ghost predicate Integrity(s: State) {
    GoodGroups(s) && GoodMembers(s) && GoodTokens(s) && ProfilesKeyed(s)
  }

  lemma BootKeepsIntegrity(s: State, trusted: seq<string>, now: Time)
    requires Integrity(s)
    ensures Integrity(Bootstrap(s, trusted, now))
    ensures RESERVED_ADMIN_GROUP in Bootstrap(s, trusted, now).groups
  {
    hide GoodTokens, GoodMembers, GrantAdmins, NormalizeSubjects;
    AdminIsNormal();
    BootKeepsMembers(s, trusted, now);
    BootKeepsTokens(s, trusted, now);
  }

  lemma BootKeepsMembers(s: State, trusted: seq<string>, now: Time)
    requires GoodMembers(s)
    ensures GoodMembers(Bootstrap(s, trusted, now))
  {
    hide NormalizeSubjects;
    GrantAdminsExact(s.members, NormalizeSubjects(trusted), now);
  }

  lemma BootKeepsTokens(s: State, trusted: seq<string>, now: Time)
    requires GoodTokens(s)
    ensures GoodTokens(Bootstrap(s, trusted, now))
  {
    hide GoodToken, NormalizeSubjects, GrantAdmins;
    forall t | t in s.tokens ensures GoodToken(Bootstrap(s, trusted, now), s.tokens[t]) {
      GoodTokenEvolves(s, Bootstrap(s, trusted, now), s.tokens[t], s.tokens[t]);
    }
  }

  /** A record minted by the service is a good token of the state it was minted in. */
  lemma NewTokenIsGood(s: State, actor: string, owner: string, groups: seq<string>, expiresIn: Option<int>, now: Time,
                       freshId: string, signing: Signing)
    ensures
      var minted := NewToken(s, actor, owner, groups, expiresIn, now, freshId, signing);
      minted.Ok? ==> GoodToken(s, minted.value.record) && minted.value.record.tokenId == freshId
                     && minted.value.record.issuedBySub == Some(actor) && minted.value.record.status.Active?
  {
    var minted := NewToken(s, actor, owner, groups, expiresIn, now, freshId, signing);
    if minted.Ok? {
      var normalized := EnsureRuntimeGroupsAllowed(groups).value;
      DedupeElements(normalized);
      forall g | g in Dedupe(normalized)
        ensures ActiveGroup(s.groups, g) && IsGroupName(g) && g != RESERVED_ADMIN_GROUP
      {
        assert g in normalized;
      }
      assert normalized[0] in Dedupe(normalized);
    }
  }

  /** A good token stays good while records only evolve. */
  lemma GoodTokenEvolves(s: State, t: State, r: TokenRecord, r': TokenRecord)
    requires GoodToken(s, r) && Evolves(r, r') && StateEvolves(s, t)
    ensures GoodToken(t, r')
  {
  }

  /** After a call every token is an old one, at most revoked meanwhile, or the one just minted. */
  lemma CallMakesToken(s: State, c: Call, env: Env, t: string)
    requires t in After(s, c, env).tokens
    ensures
      var r := After(s, c, env).tokens[t];
      || (t in s.tokens && Evolves(s.tokens[t], r))
      || (c.MintCall? && t == env.freshId
          && var minted := NewToken(s, c.actor, c.owner, c.groups, c.expiresIn, env.now, env.freshId, env.signing);
             minted.Ok? && r == minted.value.record)
  {
    hide RegisterSelf, CreateGroup, AddMembership, RemoveMembership, GetToken, RevokeToken, Authorize, NewToken;
    match c
    case RevokeCall(actor, tokenId) => RevokeEvolves(s, actor, tokenId, env.now, env.correlation);
      RevokeAddsNone(s, actor, tokenId, env.now, env.correlation);
    case _ =>
  }

  lemma RevokeAddsNone(s: State, actor: string, tokenId: string, now: Time, correlation: Option<string>)
    ensures RevokeToken(s, actor, tokenId, now, correlation).0.tokens.Keys == s.tokens.Keys
  {
  }

  lemma CallKeepsTokens(s: State, c: Call, env: Env)
    requires GoodTokens(s) && (c.MintCall? ==> env.freshId !in s.tokens)
    ensures GoodTokens(After(s, c, env))
  {
    hide After, GoodToken, NewToken;
    var t := After(s, c, env);
    CallEvolves(s, c, env);
    forall id | id in t.tokens ensures GoodToken(t, t.tokens[id]) && t.tokens[id].tokenId == id {
      CallMakesToken(s, c, env, id);
      if id in s.tokens && Evolves(s.tokens[id], t.tokens[id]) {
        GoodTokenEvolves(s, t, s.tokens[id], t.tokens[id]);
      } else {
        NewTokenIsGood(s, c.actor, c.owner, c.groups, c.expiresIn, env.now, env.freshId, env.signing);
        GoodTokenEvolves(s, t, t.tokens[id], t.tokens[id]);
      }
    }
  }

  /** What adding puts there is the membership asked for: a new one of a registered subject, in a defined group. */
  lemma AddMakesMembership(s: State, actor: string, sub: string, name: string, now: Time, correlation: Option<string>,
                           k: (string, string))
    requires k in AddMembership(s, actor, sub, name, now, correlation).0.members
    ensures
      var (t, outcome) := AddMembership(s, actor, sub, name, now, correlation);
      || (k in s.members && t.members[k] == s.members[k])
      || (k !in s.members && outcome == Ok(t.members[k]) && k.0 == sub && NormalizeGroupName(name) == Ok(k.1)
          && t.members[k] == Membership(k.0, k.1, now, Some(actor)) && k.0 in s.profiles && k.1 in s.groups)
  {
    hide IsGroupName, Lower, Strip;
  }

  lemma RemoveMakesNone(s: State, actor: string, sub: string, name: string, now: Time, correlation: Option<string>)
    ensures
      var after := RemoveMembership(s, actor, sub, name, now, correlation).0.members;
      forall k | k in after :: k in s.members && after[k] == s.members[k]
  {
    hide MembershipToRemove, Lower, Strip;
  }

  /** After a call every membership is an old one or the one just added. */
  lemma CallMakesMember(s: State, c: Call, env: Env, k: (string, string))
    requires k in After(s, c, env).members
    ensures
      var m := After(s, c, env).members[k];
      || (k in s.members && m == s.members[k])
      || (c.AddMemberCall? && c.subject == k.0 && NormalizeGroupName(c.group) == Ok(k.1) && k !in s.members
          && AddMembership(s, c.actor, c.subject, c.group, env.now, env.correlation).1 == Ok(m)
          && m == Membership(k.0, k.1, env.now, Some(c.actor)) && k.0 in s.profiles && k.1 in s.groups)
  {
    hide RegisterSelf, CreateGroup, AddMembership, RemoveMembership, MintToken, GetToken, RevokeToken, Authorize;
    hide NormalizeGroupName;
    match c
    case AddMemberCall(actor, sub, name) => AddMakesMembership(s, actor, sub, name, env.now, env.correlation, k);
    case RemoveMemberCall(actor, sub, name) => RemoveMakesNone(s, actor, sub, name, env.now, env.correlation);
    case _ =>
  }

  lemma CallKeepsMembers(s: State, c: Call, env: Env)
    requires GoodMembers(s) && (c.MintCall? ==> env.freshId !in s.tokens)
    ensures GoodMembers(After(s, c, env))
  {
    hide After, NormalizeGroupName, AddMembership;
    var t := After(s, c, env);
    CallEvolves(s, c, env);
    forall k | k in t.members
      ensures t.members[k].keycloakSub == k.0 && t.members[k].groupName == k.1
      ensures k.1 in t.groups && (k.0 in t.profiles || t.members[k].grantedBySub == None)
    {
      CallMakesMember(s, c, env, k);
    }
  }

  /** Integrity is about records only. */
  lemma IntegrityCarries(s: State, t: State)
    requires Integrity(s) && SameRecords(s, t)
    ensures Integrity(t)
  {
    forall id | id in s.tokens ensures GoodToken(t, s.tokens[id]) {
      assert GoodToken(s, s.tokens[id]);
    }
  }

  lemma CreateKeepsGoodGroups(s: State, actor: string, name: string, description: Option<string>, now: Time,
                              correlation: Option<string>)
    requires GoodGroups(s)
    ensures GoodGroups(CreateGroup(s, actor, name, description, now, correlation).0)
  {
    hide IsGroupName, Lower, Strip, StripOrNone;
    var outcome := NewGroupName(s.groups, name);
    assert outcome.Ok? ==> IsGroupName(outcome.value);
  }

  lemma CallKeepsGroups(s: State, c: Call, env: Env)
    requires GoodGroups(s)
    ensures GoodGroups(After(s, c, env))
  {
    hide RegisterSelf, CreateGroup, AddMembership, RemoveMembership, MintToken, GetToken, RevokeToken, Authorize;
    hide IsGroupName;
    match c
    case CreateGroupCall(actor, name, description) =>
      CreateKeepsGoodGroups(s, actor, name, description, env.now, env.correlation);
    case _ =>
  }

  lemma CallKeepsProfiles(s: State, c: Call, env: Env)
    requires ProfilesKeyed(s)
    ensures ProfilesKeyed(After(s, c, env))
  {
  }

  lemma CallKeepsIntegrity(s: State, c: Call, env: Env)
    requires Integrity(s) && (c.MintCall? ==> env.freshId !in s.tokens)
    ensures Integrity(After(s, c, env))
  {
    hide After, GoodGroups, GoodMembers, GoodTokens, ProfilesKeyed;
    CallKeepsTokens(s, c, env);
    CallKeepsMembers(s, c, env);
    CallKeepsGroups(s, c, env);
    CallKeepsProfiles(s, c, env);
  }

  lemma StepKeepsIntegrity(sys: System, step: Step)
    requires Integrity(sys.state) && (RunsHandler(step) ==> step.env.freshId !in sys.state.tokens)
    ensures Integrity(Next(sys, step).state)
    ensures step.Boot? || RESERVED_ADMIN_GROUP in sys.state.groups
        ==> RESERVED_ADMIN_GROUP in Next(sys, step).state.groups
  {
    hide After, Stopped, Bootstrap, Integrity;
    if step.Boot? {
      IntegrityCarries(sys.state, sys.state.(log := []));
      BootKeepsIntegrity(sys.state.(log := []), step.trusted, step.now);
    } else {
      StepChangesState(sys, step);
      StepEvolves(sys, step);
      if Applied(sys, step).Some? {
        CallKeepsIntegrity(sys.state, Applied(sys, step).value.0, Applied(sys, step).value.1);
      }
      IntegrityCarries(AfterApplied(sys, step), Next(sys, step).state);
    }
  }

  lemma StartIsSound()
    ensures Integrity(START.state)
  {
  }

  /** Every reachable state is sound; after the first start the admin group is there, a system group, and active. */
  lemma {:induction false} ReachableIntegrity(steps: seq<Step>)
    requires FreshIds(steps)
    ensures Integrity(Exec(steps).state)
    ensures forall i | 0 <= i < |steps| && steps[i].Boot? :: RESERVED_ADMIN_GROUP in Exec(steps).state.groups
  {
    hide Next, Integrity, FreshIds;
    if steps == [] {
      StartIsSound();
    } else {
      var n := |steps| - 1;
      FreshIdsPrefix(steps);
      ReachableIntegrity(steps[..n]);
      assert forall i | 0 <= i < n :: steps[..n][i] == steps[i];
      StepKeepsIntegrity(Exec(steps[..n]), steps[n]);
    }
  }

  /** No runtime token ever opens the control plane. */
  lemma AdminNeverAuthorized(steps: seq<Step>, request: AuthorizationRequest, now: Time)
    requires FreshIds(steps) && RequiredPermission(request) == Some(RESERVED_ADMIN_GROUP)
    ensures !Allowed(Exec(steps).state.tokens, request, now)
  {
    ReachableIntegrity(steps);
  }

  /** What an allowed request is sure of: a registered owner, an active group, a token issued before it expires. */
  lemma AllowedMeans(steps: seq<Step>, request: AuthorizationRequest, now: Time)
    requires FreshIds(steps) && Allowed(Exec(steps).state.tokens, request, now)
    ensures
      var s := Exec(steps).state;
      && request.ownerSub.Some? && request.ownerSub.value in s.profiles
      && ActiveGroup(s.groups, RequiredPermission(request).value)
      && s.tokens[request.tokenId].revokedAt == None
      && s.tokens[request.tokenId].expiresAt.Some? && now < s.tokens[request.tokenId].expiresAt.value
  {
    ReachableIntegrity(steps);
  }

  // --- provenance

  /** The subject was an admin before some step of the run. */
  ghost predicate WasAdmin(steps: seq<Step>, sub: string) {
    exists j | 0 <= j < |steps| :: IsAdmin(Exec(steps[..j]).state, sub)
  }

  /** The last step runs some or all of a handler whose request an admin of before it made. */
  ghost predicate HandlesAsAdmin(steps: seq<Step>, c: Call, env: Env)
    requires steps != []
  {
    var last, before := steps[|steps| - 1], steps[..|steps| - 1];
    && RunsHandler(last) && Applied(Exec(before), last) == Some((c, env))
    && AdminOnly(c) && WasAdmin(before, Actor(c))
  }

  /** The last step is an admin's handler that succeeds in creating this very group, which was not there before. */
  ghost predicate CreatesGroup(steps: seq<Step>, g: string, group: GroupDefinition)
    requires steps != []
  {
    var s := Exec(steps[..|steps| - 1]).state;
    exists c, env | HandlesAsAdmin(steps, c, env) ::
      && c.CreateGroupCall? && NormalizeGroupName(c.name) == Ok(g) && g !in s.groups
      && CreateGroup(s, c.actor, c.name, c.description, env.now, env.correlation).1 == Ok(group)
  }

  /** The last step is a start that finds no admin group and makes this very one. */
  ghost predicate StartsWithGroup(steps: seq<Step>, g: string, group: GroupDefinition)
    requires steps != []
  {
    var last := steps[|steps| - 1];
    && last.Boot? && g == RESERVED_ADMIN_GROUP && g !in Exec(steps[..|steps| - 1]).state.groups
    && group == ReservedAdminGroup(last.now)
  }

  /** The last step is an admin's handler that mints this very token; at most it has been revoked since. */
  ghost predicate MintsToken(steps: seq<Step>, t: string, r: TokenRecord)
    requires steps != []
  {
    var s := Exec(steps[..|steps| - 1]).state;
    exists c, env | HandlesAsAdmin(steps, c, env) ::
      && c.MintCall? && env.freshId == t
      && var minted := NewToken(s, c.actor, c.owner, c.groups, c.expiresIn, env.now, env.freshId, env.signing);
         minted.Ok? && Evolves(minted.value.record, r)
  }

  /** The last step is an admin's handler that succeeds in adding this very membership, which was not there before. */
  ghost predicate AddsMembership(steps: seq<Step>, k: (string, string), m: Membership)
    requires steps != []
  {
    var s := Exec(steps[..|steps| - 1]).state;
    exists c, env | HandlesAsAdmin(steps, c, env) ::
      && c.AddMemberCall? && c.subject == k.0 && NormalizeGroupName(c.group) == Ok(k.1) && k !in s.members
      && AddMembership(s, c.actor, c.subject, c.group, env.now, env.correlation).1 == Ok(m)
      && m == Membership(k.0, k.1, env.now, Some(c.actor))
  }

  /** The last step is a start whose configuration makes the subject an admin, by this very membership. */
  ghost predicate StartsWithAdmin(steps: seq<Step>, k: (string, string), m: Membership)
    requires steps != []
  {
    var last := steps[|steps| - 1];
    && last.Boot? && k.1 == RESERVED_ADMIN_GROUP && k.0 in NormalizeSubjects(last.trusted)
    && k !in Exec(steps[..|steps| - 1]).state.members
    && m == Membership(k.0, k.1, last.now, None)
  }

  ghost predicate GroupProven(steps: seq<Step>, g: string, group: GroupDefinition) {
    exists j | 0 < j <= |steps| :: CreatesGroup(steps[..j], g, group) || StartsWithGroup(steps[..j], g, group)
  }

  ghost predicate TokenProven(steps: seq<Step>, t: string, r: TokenRecord) {
    exists j | 0 < j <= |steps| :: MintsToken(steps[..j], t, r)
  }

  ghost predicate MembershipProven(steps: seq<Step>, k: (string, string), m: Membership) {
    exists j | 0 < j <= |steps| :: AddsMembership(steps[..j], k, m) || StartsWithAdmin(steps[..j], k, m)
  }

  lemma WasAdminGrows(steps: seq<Step>, n: nat, sub: string)
    requires n <= |steps| && WasAdmin(steps[..n], sub)
    ensures WasAdmin(steps, sub)
  {
    hide Exec, IsAdmin;
    var j :| 0 <= j < n && IsAdmin(Exec(steps[..n][..j]).state, sub);
    assert steps[..n][..j] == steps[..j];
  }

  lemma GroupProvenGrows(steps: seq<Step>, n: nat, g: string, group: GroupDefinition)
    requires n <= |steps| && GroupProven(steps[..n], g, group)
    ensures GroupProven(steps, g, group)
  {
    hide CreatesGroup, StartsWithGroup;
    var j :| 0 < j <= n && (CreatesGroup(steps[..n][..j], g, group) || StartsWithGroup(steps[..n][..j], g, group));
    assert steps[..n][..j] == steps[..j];
  }

  lemma MintsEvolves(steps: seq<Step>, t: string, r: TokenRecord, r': TokenRecord)
    requires steps != [] && MintsToken(steps, t, r) && Evolves(r, r')
    ensures MintsToken(steps, t, r')
  {
    hide HandlesAsAdmin, NewToken, Exec;
  }

  lemma TokenProvenGrows(steps: seq<Step>, n: nat, t: string, r: TokenRecord, r': TokenRecord)
    requires n <= |steps| && TokenProven(steps[..n], t, r) && Evolves(r, r')
    ensures TokenProven(steps, t, r')
  {
    hide MintsToken, Evolves;
    var j :| 0 < j <= n && MintsToken(steps[..n][..j], t, r);
    assert steps[..n][..j] == steps[..j];
    MintsEvolves(steps[..j], t, r, r');
  }

  lemma MembershipProvenGrows(steps: seq<Step>, n: nat, k: (string, string), m: Membership)
    requires n <= |steps| && MembershipProven(steps[..n], k, m)
    ensures MembershipProven(steps, k, m)
  {
    hide AddsMembership, StartsWithAdmin;
    var j :| 0 < j <= n && (AddsMembership(steps[..n][..j], k, m) || StartsWithAdmin(steps[..n][..j], k, m));
    assert steps[..n][..j] == steps[..j];
  }

  /** Requests in flight were let in by the gate, so their makers were admins then. */
  ghost predicate PendingProven(steps: seq<Step>) {
    forall i | 0 <= i < |Exec(steps).pending| ::
      AdminOnly(Exec(steps).pending[i]) && WasAdmin(steps, Actor(Exec(steps).pending[i]))
  }

  ghost predicate MembersProven(steps: seq<Step>) {
    forall k | k in Exec(steps).state.members :: MembershipProven(steps, k, Exec(steps).state.members[k])
  }

  ghost predicate TokensProven(steps: seq<Step>) {
    forall t | t in Exec(steps).state.tokens :: TokenProven(steps, t, Exec(steps).state.tokens[t])
  }

  ghost predicate GroupsProven(steps: seq<Step>) {
    forall g | g in Exec(steps).state.groups :: GroupProven(steps, g, Exec(steps).state.groups[g])
  }

  lemma PendingStep(steps: seq<Step>)
    requires steps != [] && PendingProven(steps[..|steps| - 1])
    ensures PendingProven(steps)
  {
    hide After, Stopped, Bootstrap, WasAdmin;
    var n := |steps| - 1;
    var before := Exec(steps[..n]);
    forall i | 0 <= i < |Exec(steps).pending|
      ensures AdminOnly(Exec(steps).pending[i]) && WasAdmin(steps, Actor(Exec(steps).pending[i]))
    {
      var call := Exec(steps).pending[i];
      if exists j | 0 <= j < |before.pending| :: before.pending[j] == call {
        WasAdminGrows(steps, n, Actor(call));
      } else {
        assert steps[n].Gate? && call == steps[n].call;
        WasAdminBefore(steps, n, Actor(call));
      }
    }
  }

  lemma WasAdminBefore(steps: seq<Step>, n: nat, sub: string)
    requires n < |steps| && IsAdmin(Exec(steps[..n]).state, sub)
    ensures WasAdmin(steps, sub)
  {
  }

  /** The call a step applies, if an admin's, is a pending one, so its maker was an admin. */
  lemma AppliedByAdmin(steps: seq<Step>)
    requires steps != [] && PendingProven(steps[..|steps| - 1])
    ensures
      var applied := Applied(Exec(steps[..|steps| - 1]), steps[|steps| - 1]);
      applied.Some? && AdminOnly(applied.value.0) ==> HandlesAsAdmin(steps, applied.value.0, applied.value.1)
  {
    hide WasAdmin, Exec;
  }

  /** After a call every group is an old one or the one just created. */
  lemma CallMakesGroup(s: State, c: Call, env: Env, g: string)
    requires g in After(s, c, env).groups
    ensures
      var group := After(s, c, env).groups[g];
      || (g in s.groups && group == s.groups[g])
      || (c.CreateGroupCall? && NormalizeGroupName(c.name) == Ok(g) && g !in s.groups
          && CreateGroup(s, c.actor, c.name, c.description, env.now, env.correlation).1 == Ok(group))
  {
    hide RegisterSelf, CreateGroup, AddMembership, RemoveMembership, MintToken, GetToken, RevokeToken, Authorize;
    match c
    case CreateGroupCall(actor, name, description) =>
      CreateMakesGroup(s, actor, name, description, env.now, env.correlation, g);
    case _ =>
  }

  lemma CreateMakesGroup(s: State, actor: string, name: string, description: Option<string>, now: Time,
                         correlation: Option<string>, g: string)
    requires g in CreateGroup(s, actor, name, description, now, correlation).0.groups
    ensures
      var (t, outcome) := CreateGroup(s, actor, name, description, now, correlation);
      || (g in s.groups && t.groups[g] == s.groups[g])
      || (NormalizeGroupName(name) == Ok(g) && g !in s.groups && outcome == Ok(t.groups[g]))
  {
    hide NormalizeGroupName, Lower, Strip, StripOrNone;
  }

  lemma MembersStep(steps: seq<Step>)
    requires steps != [] && PendingProven(steps[..|steps| - 1]) && MembersProven(steps[..|steps| - 1])
    ensures MembersProven(steps)
  {
    hide After, Next, Bootstrap, HandlesAsAdmin, PendingProven, NormalizeGroupName, MembershipProven, AddMembership;
    var n := |steps| - 1;
    var before, last := Exec(steps[..n]), steps[n];
    AppliedByAdmin(steps);
    if !last.Boot? {
      StepChangesState(before, last);
    }
    forall k | k in Exec(steps).state.members ensures MembershipProven(steps, k, Exec(steps).state.members[k]) {
      var m := Exec(steps).state.members[k];
      if k in before.state.members && m == before.state.members[k] {
        MembershipProvenGrows(steps, n, k, m);
      } else if last.Boot? {
        StartMakesMember(steps, k);
      } else {
        CallMakesMember(before.state, Applied(before, last).value.0, Applied(before, last).value.1, k);
        MembershipProvenNow(steps, k, m);
      }
    }
  }

  lemma BootMembers(sys: System, step: Step)
    requires step.Boot?
    ensures Next(sys, step).state.members ==
            GrantAdmins(sys.state.members, NormalizeSubjects(step.trusted), step.now)
  {
    hide GrantAdmins, NormalizeSubjects;
  }

  lemma StartMakesMember(steps: seq<Step>, k: (string, string))
    requires steps != [] && steps[|steps| - 1].Boot? && k in Exec(steps).state.members
    ensures
      var members := Exec(steps[..|steps| - 1]).state.members;
      || (k in members && Exec(steps).state.members[k] == members[k])
      || MembershipProven(steps, k, Exec(steps).state.members[k])
  {
    hide NormalizeSubjects, AddsMembership, Next, GrantAdmins;
    var last, before := steps[|steps| - 1], Exec(steps[..|steps| - 1]);
    BootMembers(before, last);
    GrantAdminsExact(before.state.members, NormalizeSubjects(last.trusted), last.now);
    assert steps[..|steps|] == steps;
  }

  lemma MembershipProvenNow(steps: seq<Step>, k: (string, string), m: Membership)
    requires steps != [] && AddsMembership(steps, k, m)
    ensures MembershipProven(steps, k, m)
  {
    hide AddsMembership;
    assert steps[..|steps|] == steps;
  }

  lemma TokensStep(steps: seq<Step>)
    requires steps != [] && PendingProven(steps[..|steps| - 1]) && TokensProven(steps[..|steps| - 1])
    ensures TokensProven(steps)
  {
    hide After, Next, Bootstrap, HandlesAsAdmin, PendingProven, NewToken, TokenProven;
    var n := |steps| - 1;
    var before, last := Exec(steps[..n]), steps[n];
    AppliedByAdmin(steps);
    forall t | t in Exec(steps).state.tokens ensures TokenProven(steps, t, Exec(steps).state.tokens[t]) {
      var r := Exec(steps).state.tokens[t];
      StepMakesToken(before, last, t);
      if t in before.state.tokens && Evolves(before.state.tokens[t], r) {
        TokenProvenGrows(steps, n, t, before.state.tokens[t], r);
      } else {
        TokenProvenNow(steps, t, r);
      }
    }
  }

  lemma StepMakesToken(sys: System, step: Step, t: string)
    requires t in Next(sys, step).state.tokens
    ensures
      var r, applied := Next(sys, step).state.tokens[t], Applied(sys, step);
      || (t in sys.state.tokens && Evolves(sys.state.tokens[t], r))
      || (applied.Some? && applied.value.0.MintCall? && t == applied.value.1.freshId
          && var (c, env) := applied.value;
             var minted :=
                 NewToken(sys.state, c.actor, c.owner, c.groups, c.expiresIn, env.now, env.freshId, env.signing);
             minted.Ok? && r == minted.value.record)
  {
    hide After, NewToken, GrantAdmins, NormalizeSubjects, BootstrapGroups;
    if !step.Boot? {
      StepChangesState(sys, step);
      if Applied(sys, step).Some? {
        CallMakesToken(sys.state, Applied(sys, step).value.0, Applied(sys, step).value.1, t);
      }
    }
  }

  lemma TokenProvenNow(steps: seq<Step>, t: string, r: TokenRecord)
    requires steps != [] && MintsToken(steps, t, r)
    ensures TokenProven(steps, t, r)
  {
    hide MintsToken;
    assert steps[..|steps|] == steps;
  }

  lemma GroupsStep(steps: seq<Step>)
    requires steps != [] && PendingProven(steps[..|steps| - 1]) && GroupsProven(steps[..|steps| - 1])
    ensures GroupsProven(steps)
  {
    hide After, Next, Bootstrap, HandlesAsAdmin, PendingProven, NormalizeGroupName, GroupProven, CreateGroup;
    var n := |steps| - 1;
    var before, last := Exec(steps[..n]), steps[n];
    AppliedByAdmin(steps);
    if !last.Boot? {
      StepChangesState(before, last);
    }
    forall g | g in Exec(steps).state.groups ensures GroupProven(steps, g, Exec(steps).state.groups[g]) {
      var group := Exec(steps).state.groups[g];
      if g in before.state.groups && group == before.state.groups[g] {
        GroupProvenGrows(steps, n, g, group);
      } else if last.Boot? {
        BootMakesGroup(before, last, g);
        GroupProvenNow(steps, g, group);
      } else {
        CallMakesGroup(before.state, Applied(before, last).value.0, Applied(before, last).value.1, g);
        GroupProvenNow(steps, g, group);
      }
    }
  }

  lemma BootMakesGroup(sys: System, step: Step, g: string)
    requires step.Boot? && g in Next(sys, step).state.groups
    ensures
      var group := Next(sys, step).state.groups[g];
      || (g in sys.state.groups && group == sys.state.groups[g])
      || (g == RESERVED_ADMIN_GROUP && g !in sys.state.groups && group == ReservedAdminGroup(step.now))
  {
    hide GrantAdmins, NormalizeSubjects;
  }

  lemma GroupProvenNow(steps: seq<Step>, g: string, group: GroupDefinition)
    requires steps != [] && (CreatesGroup(steps, g, group) || StartsWithGroup(steps, g, group))
    ensures GroupProven(steps, g, group)
  {
    hide CreatesGroup, StartsWithGroup;
    assert steps[..|steps|] == steps;
  }

  /**
   * Every membership, token and group of a reachable state was made by a step of the run: by a handler that made
   * exactly it, on the request of a subject that was an admin earlier, also when the admin lost the group between
   * gate and handler, or, for the admin group and memberships in it, by a start, configured with the subject.
   */
  lemma {:induction false} Provenance(steps: seq<Step>)
    ensures PendingProven(steps) && MembersProven(steps) && TokensProven(steps) && GroupsProven(steps)
  {
    if steps == [] {
    } else {
      hide PendingProven, MembersProven, TokensProven, GroupsProven;
      Provenance(steps[..|steps| - 1]);
      PendingStep(steps);
      MembersStep(steps);
      TokensStep(steps);
      GroupsStep(steps);
    }
  }

  /** Without a configured bootstrap subject nobody ever gets any authority. */
  lemma {:induction false} NoBootstrapNoAuthority(steps: seq<Step>)
    requires forall i | 0 <= i < |steps| && steps[i].Boot? :: NormalizeSubjects(steps[i].trusted) == []
    ensures
      var sys := Exec(steps);
      && sys.state.members == map[] && sys.state.tokens == map[] && sys.pending == []
      && sys.state.groups.Keys <= {RESERVED_ADMIN_GROUP}
  {
    hide After, Stopped;
    if steps != [] {
      var n := |steps| - 1;
      NoBootstrapNoAuthority(steps[..n]);
      var sys := Exec(steps[..n]);
      if !steps[n].Boot? {
        StepChangesState(sys, steps[n]);
        if Applied(sys, steps[n]).Some? {
          CallScope(sys.state, steps[n].call, steps[n].env);
        }
      }
    }
  }

  // --- the audit log

  /** What the audit log can tell about the state. */
  datatype Facts = Facts(
    members: set<(string, string)>,
    groups: set<string>,
    tokens: set<string>,
    revoked: set<string>,
    registered: set<string>)

  function RevokedIds(tokens: map<string, TokenRecord>): set<string> {
    set t | t in tokens && tokens[t].status.Revoked?
  }

  function FactsOf(s: State): Facts {
    Facts(s.members.Keys, s.groups.Keys, s.tokens.Keys, RevokedIds(s.tokens), s.profiles.Keys)
  }

  /** One event read as a change; failures, inspections, listings and decisions change nothing. */
  function Note(f: Facts, e: AuditEvent): Facts {
    match e.eventType
    case GroupCreate =>
      if e.outcome.Success? && e.groupName.Some? then f.(groups := f.groups + {e.groupName.value}) else f
    case MembershipAdd =>
      if e.outcome.Success? && e.subjectSub.Some? && e.groupName.Some?
      then f.(members := f.members + {(e.subjectSub.value, e.groupName.value)}) else f
    case MembershipRemove =>
      if e.outcome.Success? && e.subjectSub.Some? && e.groupName.Some?
      then f.(members := f.members - {(e.subjectSub.value, e.groupName.value)}) else f
    case TokenMint =>
      if e.outcome.Success? && e.tokenId.Some? then f.(tokens := f.tokens + {e.tokenId.value}) else f
    case TokenRevoke =>
      if e.outcome.Success? && e.tokenId.Some? then f.(revoked := f.revoked + {e.tokenId.value}) else f
    case UserRegistration =>
      if (e.outcome.Created? || e.outcome.Refreshed?) && e.subjectSub.Some?
      then f.(registered := f.registered + {e.subjectSub.value}) else f
    case _ => f
  }

  function ReplayLog(f: Facts, log: seq<AuditEvent>): Facts {
    if log == [] then f else Note(ReplayLog(f, log[..|log| - 1]), log[|log| - 1])
  }

  ghost predicate LogsOnce(s: State, t: State) {
    |t.log| == |s.log| + 1 && t.log[..|s.log|] == s.log && FactsOf(t) == Note(FactsOf(s), t.log[|s.log|])
  }

  lemma SameFacts(s: State, t: State, f: Facts)
    requires t.members.Keys == f.members && t.groups.Keys == f.groups && t.tokens.Keys == f.tokens
    requires RevokedIds(t.tokens) == f.revoked && t.profiles.Keys == f.registered
    ensures FactsOf(t) == f
  {
  }

  lemma CreateGroupLogged(s: State, c: Call, env: Env)
    requires c.CreateGroupCall?
    ensures LogsOnce(s, After(s, c, env))
  {
    hide IsGroupName, Lower, Strip;
    var t := After(s, c, env);
    SameFacts(s, t, Note(FactsOf(s), t.log[|s.log|]));
  }

  lemma AddMemberLogged(s: State, c: Call, env: Env)
    requires MembersKeyed(s.members) && c.AddMemberCall?
    ensures LogsOnce(s, After(s, c, env))
  {
  }

  lemma RemoveMemberLogged(s: State, c: Call, env: Env)
    requires c.RemoveMemberCall?
    ensures LogsOnce(s, After(s, c, env))
  {
  }

  lemma MintLogged(s: State, c: Call, env: Env)
    requires env.freshId !in s.tokens && c.MintCall?
    ensures LogsOnce(s, After(s, c, env))
  {
    hide NewToken;
    NewTokenIsGood(s, c.actor, c.owner, c.groups, c.expiresIn, env.now, env.freshId, env.signing);
    var t := After(s, c, env);
    assert RevokedIds(t.tokens) == RevokedIds(s.tokens);
    SameFacts(s, t, Note(FactsOf(s), t.log[|s.log|]));
  }

  lemma RevokedIdsAfter(tokens: map<string, TokenRecord>, tokenId: string, now: Time)
    requires tokenId in tokens
    ensures RevokedIds(tokens[tokenId := RevokedRecord(tokens[tokenId], now)]) == RevokedIds(tokens) + {tokenId}
  {
  }

  lemma RevokeLogged(s: State, actor: string, tokenId: string, now: Time, correlation: Option<string>)
    ensures LogsOnce(s, RevokeToken(s, actor, tokenId, now, correlation).0)
  {
    hide RevokedIds;
    var t := RevokeToken(s, actor, tokenId, now, correlation).0;
    if tokenId in s.tokens {
      RevokedIdsAfter(s.tokens, tokenId, now);
      assert t.tokens == s.tokens[tokenId := RevokedRecord(s.tokens[tokenId], now)];
      assert t.tokens.Keys == s.tokens.Keys;
    }
    SameFacts(s, t, Note(FactsOf(s), t.log[|s.log|]));
  }

  lemma InspectLogged(s: State, c: Call, env: Env)
    requires c.InspectCall?
    ensures LogsOnce(s, After(s, c, env))
  {
  }

  lemma PublicCallsLogged(s: State, c: Call, env: Env)
    requires !AdminOnly(c) && !c.ShowProfile?
    ensures LogsOnce(s, After(s, c, env))
  {
  }

  /**
   * A call appends exactly one event, except that showing a profile appends none; the event accounts for every
   * change.
   */
  lemma CallIsLogged(s: State, c: Call, env: Env)
    requires MembersKeyed(s.members) && (c.MintCall? ==> env.freshId !in s.tokens)
    ensures if c.ShowProfile? then After(s, c, env) == s else LogsOnce(s, After(s, c, env))
  {
    hide LogsOnce, RegisterSelf, CreateGroup, AddMembership, RemoveMembership, MintToken, GetToken, RevokeToken;
    hide Authorize;
    match c
    case CreateGroupCall(_, _, _) => CreateGroupLogged(s, c, env);
    case AddMemberCall(_, _, _) => AddMemberLogged(s, c, env);
    case RemoveMemberCall(_, _, _) => RemoveMemberLogged(s, c, env);
    case MintCall(_, _, _, _) => MintLogged(s, c, env);
    case InspectCall(_, _) => InspectLogged(s, c, env);
    case RevokeCall(actor, tokenId) => RevokeLogged(s, actor, tokenId, env.now, env.correlation);
    case ShowProfile(_) =>
    case _ => PublicCallsLogged(s, c, env);
  }

  /** An operation that fails changes nothing but the log. */
  lemma FailureOnlyLogs(s: State, c: Call, env: Env)
    requires |After(s, c, env).log| > |s.log|
    requires After(s, c, env).log[|s.log|].outcome.Failure?
    ensures After(s, c, env) == s.(log := After(s, c, env).log)
  {
  }

  /** As long as the process runs, no step takes back or changes anything already logged. */
  lemma StepAppends(sys: System, step: Step)
    requires !step.Boot? && !step.Stop?
    ensures sys.state.log <= Next(sys, step).state.log
  {
    StepChangesState(sys, step);
    if Applied(sys, step).Some? {
      CallAppends(sys.state, Applied(sys, step).value.0, Applied(sys, step).value.1);
    }
  }

  lemma CallAppends(s: State, c: Call, env: Env)
    ensures s.log <= After(s, c, env).log
  {
  }

  /**
   * From the state right after a start, reading the log back gives exactly the current memberships, group
   * names, token ids, revoked ids and registered subjects.
   */
  lemma {:induction false} AuditReplay(steps: seq<Step>, b: nat)
    requires b < |steps| && FreshIds(steps)
    requires steps[b].Boot? && forall i | b < i < |steps| :: !steps[i].Boot? && !steps[i].Stop?
    ensures FactsOf(Exec(steps).state) == ReplayLog(FactsOf(Exec(steps[..b + 1]).state), Exec(steps).state.log)
  {
    hide Next, FactsOf, Note, FreshIds, StepFollows;
    var n := |steps| - 1;
    if b == n {
      assert steps[..b + 1] == steps;
      BootEmptiesLog(Exec(steps[..n]), steps[n]);
    } else {
      var init := steps[..n];
      FreshIdsPrefix(steps);
      assert init[..b + 1] == steps[..b + 1];
      AuditReplay(init, b);
      ReachableIntegrity(init);
      StepReplays(Exec(init), steps[n]);
      ReplayFollows(FactsOf(Exec(steps[..b + 1]).state), Exec(init).state, Exec(steps).state);
    }
  }

  lemma BootEmptiesLog(sys: System, step: Step)
    requires step.Boot?
    ensures Next(sys, step).state.log == []
  {
  }

  /** Nothing happened that the log tells of, or exactly what its new last event tells. */
  ghost predicate StepFollows(s: State, t: State) {
    (t.log == s.log && FactsOf(t) == FactsOf(s)) || LogsOnce(s, t)
  }

  lemma StepReplays(sys: System, step: Step)
    requires !step.Boot? && !step.Stop? && Integrity(sys.state)
    requires RunsHandler(step) ==> step.env.freshId !in sys.state.tokens
    ensures StepFollows(sys.state, Next(sys, step).state)
  {
    hide After, Next, LogsOnce, FactsOf;
    StepChangesState(sys, step);
    if Applied(sys, step).Some? {
      CallIsLogged(sys.state, Applied(sys, step).value.0, Applied(sys, step).value.1);
    }
  }

  lemma ReplayFollows(f: Facts, s: State, t: State)
    requires StepFollows(s, t) && FactsOf(s) == ReplayLog(f, s.log)
    ensures FactsOf(t) == ReplayLog(f, t.log)
  {
    hide FactsOf, Note;
  }
}
