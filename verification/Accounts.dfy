/** What later answers and the audit log owe to which earlier step of a run. */
module Accounts {
  import opened Models
  import opened Rules
  import opened Claims
  import opened Authority
  import opened Runs
  import opened History
  import opened Contract
  import opened Effects

  // --- which group and subject a run knows

  /** Some step of the run created the group: an admin's handler, or a start for the admin group. */
  ghost predicate GroupMade(steps: seq<Step>, g: string) {
    exists j, group | 0 < j <= |steps| :: CreatesGroup(steps[..j], g, group) || StartsWithGroup(steps[..j], g, group)
  }

  ghost predicate Registered(steps: seq<Step>, sub: string) {
    exists i | 0 <= i < |steps| :: RegistersAt(steps[i], sub)
  }

  lemma MadeIsThere(steps: seq<Step>, g: string, group: GroupDefinition)
    requires steps != [] && (CreatesGroup(steps, g, group) || StartsWithGroup(steps, g, group))
    ensures g in Exec(steps).state.groups
  {
    var before, last := Exec(steps[..|steps| - 1]), steps[|steps| - 1];
    hide Exec, WasAdmin, After, CreateGroup, GrantAdmins, Stopped;
    if CreatesGroup(steps, g, group) {
      var c, env :| HandlesAsAdmin(steps, c, env) && c.CreateGroupCall? && NormalizeGroupName(c.name) == Ok(g)
        && CreateGroup(before.state, c.actor, c.name, c.description, env.now, env.correlation).1 == Ok(group);
      StepChangesState(before, last);
      CreateIs(before.state, c, env);
      CreateDoes(before.state, c.actor, c.name, c.description, env);
      StepIs(steps);
    } else {
      StepIs(steps);
    }
  }

  lemma StepIs(steps: seq<Step>)
    requires steps != []
    ensures Exec(steps) == Next(Exec(steps[..|steps| - 1]), steps[|steps| - 1])
  {
  }

  lemma CreateIs(s: State, c: Call, env: Env)
    requires c.CreateGroupCall?
    ensures After(s, c, env) == CreateGroup(s, c.actor, c.name, c.description, env.now, env.correlation).0
  {
  }

  /** The groups of a reachable state are those that some step of the run created. */
  lemma GroupsAreMade(steps: seq<Step>, g: string)
    requires FreshIds(steps)
    ensures g in Exec(steps).state.groups <==> GroupMade(steps, g)
  {
    hide Exec, CreatesGroup, StartsWithGroup, FreshIds;
    if g in Exec(steps).state.groups {
      Provenance(steps);
      assert GroupProven(steps, g, Exec(steps).state.groups[g]);
    }
    if GroupMade(steps, g) {
      var j, group :| 0 < j <= |steps|
        && (CreatesGroup(steps[..j], g, group) || StartsWithGroup(steps[..j], g, group));
      MadeIsThere(steps[..j], g, group);
      RecordsEvolve(steps, j);
    }
  }

  /** The registered subjects of a reachable state are those that some step of the run registered. */
  lemma ProfilesAreMade(steps: seq<Step>, sub: string)
    ensures sub in Exec(steps).state.profiles <==> Registered(steps, sub)
  {
    hide Exec;
    ProfileShowsLastGiven(steps, sub);
  }

  /**
   * In every reachable state a group can be created if and only if its name is well formed and not reserved, and no
   * step of the run created it under any spelling.
   */
  lemma CreateSucceedsIff(steps: seq<Step>, actor: string, name: string, description: Option<string>, env: Env)
    requires FreshIds(steps)
    ensures
      var n := NormalizeGroupName(name);
      CreateGroup(Exec(steps).state, actor, name, description, env.now, env.correlation).1.Ok?
      <==> n.Ok? && n.value != RESERVED_ADMIN_GROUP && !GroupMade(steps, n.value)
  {
    hide Exec, NormalizeGroupName, CreateGroup, GroupMade, FreshIds;
    CreateDoes(Exec(steps).state, actor, name, description, env);
    if NormalizeGroupName(name).Ok? {
      GroupsAreMade(steps, NormalizeGroupName(name).value);
    }
  }

  /**
   * In every reachable state a subject can be added to a group if and only if some step of the run registered the
   * subject and some step created the group the name spells; the subject is a member then.
   */
  lemma AddSucceedsIff(steps: seq<Step>, actor: string, sub: string, name: string, env: Env)
    requires FreshIds(steps)
    ensures
      var n := NormalizeGroupName(name);
      var (t, added) := AddMembership(Exec(steps).state, actor, sub, name, env.now, env.correlation);
      && (added.Ok? <==> n.Ok? && GroupMade(steps, n.value) && Registered(steps, sub))
      && (added.Ok? ==> (sub, n.value) in t.members)
  {
    hide Exec, NormalizeGroupName, AddMembership, GroupMade, Registered, FreshIds, GoodTokens;
    ReachableIntegrity(steps);
    AddDoes(Exec(steps).state, actor, sub, name, env);
    ProfilesAreMade(steps, sub);
    if NormalizeGroupName(name).Ok? {
      GroupsAreMade(steps, NormalizeGroupName(name).value);
    }
  }

  // --- tokens

  /** The inspected record is the one its mint made, at most revoked since; there is one if and only if one was made. */
  lemma InspectShowsMint(steps: seq<Step>, actor: string, id: string, env: Env)
    requires FreshIds(steps)
    ensures
      var r := GetToken(Exec(steps).state, actor, id, env.now, env.correlation).1;
      && (r.Ok? <==> exists j, record | 0 < j <= |steps| :: MintsToken(steps[..j], id, record))
      && (r.Ok? ==> exists j | 0 < j <= |steps| :: MintsToken(steps[..j], id, r.value))
  {
    hide Exec, MintsToken, FreshIds, GetToken;
    InspectDoes(Exec(steps).state, actor, id, env);
    if id in Exec(steps).state.tokens {
      Provenance(steps);
      assert TokenProven(steps, id, Exec(steps).state.tokens[id]);
    }
    if j, record :| 0 < j <= |steps| && MintsToken(steps[..j], id, record) {
      MintedIsThere(steps[..j], id, record);
      RecordsEvolve(steps, j);
    }
  }

  lemma MintedIsThere(steps: seq<Step>, t: string, r: TokenRecord)
    requires steps != [] && MintsToken(steps, t, r)
    ensures t in Exec(steps).state.tokens
  {
    var before, last := Exec(steps[..|steps| - 1]), steps[|steps| - 1];
    hide Exec, WasAdmin, After, NewToken, Stopped, Evolves;
    var c, env :| HandlesAsAdmin(steps, c, env) && c.MintCall? && env.freshId == t
      && NewToken(before.state, c.actor, c.owner, c.groups, c.expiresIn, env.now, env.freshId, env.signing).Ok?;
    StepChangesState(before, last);
    StepIs(steps);
    MintIs(before.state, c, env);
  }

  lemma MintIs(s: State, c: Call, env: Env)
    requires c.MintCall?
    requires NewToken(s, c.actor, c.owner, c.groups, c.expiresIn, env.now, env.freshId, env.signing).Ok?
    ensures env.freshId in After(s, c, env).tokens
  {
    hide NewToken;
  }

  /** Step `j` runs a revocation of the token, at least as far as its first store write. */
  ghost predicate RevokesAt(steps: seq<Step>, j: nat, t: string)
    requires j < |steps|
  {
    var before := Exec(steps[..j]);
    var applied := Applied(before, steps[j]);
    && applied.Some? && applied.value.0.RevokeCall? && applied.value.0.tokenId == t
    && t in before.state.tokens
  }

  /** The date is that of the first revocation of the run, if there was one. */
  ghost predicate FirstRevokedAt(steps: seq<Step>, t: string, when: Option<Time>) {
    match when
    case None => forall j | 0 <= j < |steps| :: !RevokesAt(steps, j, t)
    case Some(now) =>
      exists j | 0 <= j < |steps| ::
        RevokesAt(steps, j, t) && steps[j].env.now == now && forall i | 0 <= i < j :: !RevokesAt(steps, i, t)
  }

  lemma {:induction false} RevokesInPrefix(steps: seq<Step>, n: nat, j: nat, t: string)
    requires j < n <= |steps|
    ensures RevokesAt(steps[..n], j, t) <==> RevokesAt(steps, j, t)
  {
    assert steps[..n][..j] == steps[..j];
  }

  lemma FirstRevokedStays(steps: seq<Step>, t: string, when: Option<Time>)
    requires steps != [] && FirstRevokedAt(steps[..|steps| - 1], t, when)
    requires when.Some? || !RevokesAt(steps, |steps| - 1, t)
    ensures FirstRevokedAt(steps, t, when)
  {
    hide RevokesAt;
    var n := |steps| - 1;
    forall j | 0 <= j < n ensures RevokesAt(steps[..n], j, t) <==> RevokesAt(steps, j, t) {
      RevokesInPrefix(steps, n, j, t);
    }
  }

  lemma FirstRevokedNow(steps: seq<Step>, t: string)
    requires steps != [] && FirstRevokedAt(steps[..|steps| - 1], t, None)
    requires RevokesAt(steps, |steps| - 1, t)
    ensures FirstRevokedAt(steps, t, Some(steps[|steps| - 1].env.now))
  {
    hide RevokesAt;
    var n := |steps| - 1;
    forall j | 0 <= j < n ensures RevokesAt(steps[..n], j, t) <==> RevokesAt(steps, j, t) {
      RevokesInPrefix(steps, n, j, t);
    }
  }

  /** No other call touches a token's record. */
  lemma OthersKeepRecord(s: State, c: Call, env: Env, t: string)
    requires t in s.tokens && !(c.RevokeCall? && c.tokenId == t) && !(c.MintCall? && env.freshId == t)
    ensures t in After(s, c, env).tokens && After(s, c, env).tokens[t] == s.tokens[t]
  {
    hide NewToken, RegisterSelf, CreateGroup, AddMembership, RemoveMembership, GetToken, Authorize;
  }

  lemma RevokeIs(s: State, c: Call, env: Env)
    requires c.RevokeCall?
    ensures After(s, c, env) == RevokeToken(s, c.actor, c.tokenId, env.now, env.correlation).0
  {
  }

  /** What one more step does to the revocation date of a token that is there. */
  lemma RevocationStep(sys: System, step: Step, t: string)
    requires t in sys.state.tokens && (RunsHandler(step) ==> step.env.freshId !in sys.state.tokens)
    ensures t in Next(sys, step).state.tokens
    ensures
      var before, after, applied := sys.state.tokens[t], Next(sys, step).state.tokens[t], Applied(sys, step);
      if applied.Some? && applied.value.0.RevokeCall? && applied.value.0.tokenId == t && before.status.Active?
      then after.revokedAt == Some(applied.value.1.now) else after == before
  {
    hide After, Stopped, GrantAdmins, RevokeToken;
    if !step.Boot? {
      StepChangesState(sys, step);
      if Applied(sys, step).Some? {
        var (c, env) := Applied(sys, step).value;
        if c.RevokeCall? && c.tokenId == t {
          RevokeIs(sys.state, c, env);
          RevokeDoes(sys.state, c.actor, t, env);
        } else {
          OthersKeepRecord(sys.state, c, env, t);
        }
      }
    }
  }

  lemma NoneRevokedBefore(steps: seq<Step>, t: string)
    requires FreshIds(steps) && t !in Exec(steps).state.tokens
    ensures FirstRevokedAt(steps, t, None)
  {
    hide FreshIds, Exec;
    forall j | 0 <= j < |steps| ensures !RevokesAt(steps, j, t) {
      RecordsEvolve(steps, j);
    }
  }

  /**
   * In every reachable state a token's revocation date is the time of the first revocation that got to a store
   * write, and it has none if and only if there was none.
   */
  lemma {:induction false} RevokedSinceFirst(steps: seq<Step>, t: string)
    requires FreshIds(steps) && t in Exec(steps).state.tokens
    ensures FirstRevokedAt(steps, t, Exec(steps).state.tokens[t].revokedAt)
  {
    hide FreshIds, FirstRevokedAt, Next, Applied;
    assert steps != [];
    var n := |steps| - 1;
    var init, last := steps[..n], steps[n];
    var before := Exec(init);
    hide Exec;
    StepIs(steps);
    FreshIdsPrefix(steps);
    ReachableIntegrity(init);
    if t in before.state.tokens {
      RevokedSinceFirst(init, t);
      RevocationStep(before, last, t);
      var applied := Applied(before, last);
      AppliedEnv(before, last);
      assert GoodToken(before.state, before.state.tokens[t]);
      if RevokesAt(steps, n, t) && before.state.tokens[t].status.Active? {
        FirstRevokedNow(steps, t);
      } else {
        FirstRevokedStays(steps, t, before.state.tokens[t].revokedAt);
      }
    } else {
      NoneRevokedBefore(init, t);
      StepMakesToken(before, last, t);
      NewIsUnrevoked(before, last, t);
      FirstRevokedStays(steps, t, None);
    }
  }

  lemma AppliedEnv(sys: System, step: Step)
    ensures Applied(sys, step).Some? ==> !step.Boot? && !step.Gate? && step.env == Applied(sys, step).value.1
  {
  }

  lemma NewIsUnrevoked(sys: System, step: Step, t: string)
    requires t !in sys.state.tokens && t in Next(sys, step).state.tokens
    ensures Next(sys, step).state.tokens[t].revokedAt == None
  {
    hide Next, Applied, ValidateGroups, BuildClaims;
    StepMakesToken(sys, step, t);
  }

  // --- the audit log

  /** The event tells who asked for what, when, and under which correlation id. */
  predicate Tells(e: AuditEvent, c: Call, env: Env) {
    && e.occurredAt == env.now && e.correlationId == env.correlation
    && match c
       case Register(identity) =>
         e.eventType.UserRegistration? && e.actorSub == e.subjectSub == Some(identity.subject)
       case ShowProfile(_) => false
       case ShowTokens(sub) => e.eventType.TokenList? && e.actorSub == e.subjectSub == Some(sub)
       case AskRuntime(request) =>
         && e.eventType.RuntimeAuthorize? && e.actorSub == e.subjectSub == request.ownerSub
         && e.tokenId == Some(request.tokenId)
         && e.groupName == request.requestedGroup && e.resource == request.requestedResource
       case CreateGroupCall(actor, name, _) =>
         e.eventType.GroupCreate? && e.actorSub == Some(actor) && e.groupName == Mentioned(name)
       case AddMemberCall(actor, sub, name) =>
         && e.eventType.MembershipAdd? && e.actorSub == Some(actor) && e.subjectSub == Some(sub)
         && e.groupName == Mentioned(name)
       case RemoveMemberCall(actor, sub, name) =>
         && e.eventType.MembershipRemove? && e.actorSub == Some(actor) && e.subjectSub == Some(sub)
         && e.groupName == Mentioned(name)
       case MintCall(actor, owner, _, _) =>
         e.eventType.TokenMint? && e.actorSub == Some(actor) && e.subjectSub == Some(owner)
       case InspectCall(actor, id) => e.eventType.TokenInspect? && e.actorSub == Some(actor) && e.tokenId == Some(id)
       case RevokeCall(actor, id) => e.eventType.TokenRevoke? && e.actorSub == Some(actor) && e.tokenId == Some(id)
  }

  /** The kinds of event that only admins' requests leave behind. */
  predicate OfAdmins(e: AuditEvent) {
    e.eventType in {EventType.GroupCreate, MembershipAdd, MembershipRemove, TokenMint, TokenInspect, TokenRevoke}
  }

  /** The last step handled a request the event tells of, and the log was complete up to it when the step was done. */
  ghost predicate Logs(steps: seq<Step>, log: seq<AuditEvent>)
    requires steps != [] && log != []
  {
    var before, last, e := steps[..|steps| - 1], steps[|steps| - 1], log[|log| - 1];
    exists c, env ::
      && Applied(Exec(before), last) == Some((c, env)) && Tells(e, c, env)
      && Exec(steps).state.log == log
      && (OfAdmins(e) ==> e.actorSub.Some? && WasAdmin(before, e.actorSub.value))
  }

  ghost predicate Accounted(steps: seq<Step>, log: seq<AuditEvent>)
    requires log != []
  {
    exists j | 0 < j <= |steps| :: Logs(steps[..j], log)
  }

  lemma CallTells(s: State, c: Call, env: Env)
    requires MembersKeyed(s.members)
    ensures
      var log := After(s, c, env).log;
      if c.ShowProfile? then log == s.log
      else log != [] && log[..|log| - 1] == s.log && Tells(log[|log| - 1], c, env)
  {
    hide RegisterSelf, CreateGroup, AddMembership, RemoveMembership, MintToken, GetToken, RevokeToken, Mentioned;
    match c
    case Register(identity) => RegisterDoes(s, identity, env);
    case CreateGroupCall(actor, name, description) => CreateDoes(s, actor, name, description, env);
    case AddMemberCall(actor, sub, group) => AddDoes(s, actor, sub, group, env);
    case RemoveMemberCall(actor, sub, group) => RemoveDoes(s, actor, sub, group, env);
    case MintCall(actor, owner, groups, expiresIn) => MintDoes(s, actor, owner, groups, expiresIn, env);
    case InspectCall(actor, id) => InspectDoes(s, actor, id, env);
    case RevokeCall(actor, id) => RevokeDoes(s, actor, id, env);
    case _ =>
  }

  lemma StepTells(sys: System, step: Step)
    requires MembersKeyed(sys.state.members)
    ensures
      var log, applied := Next(sys, step).state.log, Applied(sys, step);
      || log == [] || log == sys.state.log
      || (applied.Some? && log[..|log| - 1] == sys.state.log
          && Tells(log[|log| - 1], applied.value.0, applied.value.1))
  {
    hide After, Stopped, GrantAdmins;
    if !step.Boot? && !step.Stop? && Applied(sys, step).Some? {
      CallTells(sys.state, Applied(sys, step).value.0, Applied(sys, step).value.1);
    }
  }

  /**
   * Every event of the log was left by one step of the run, which handled a request the event tells of: who asked,
   * what about, when, under which correlation id. For everything only admins may do, the one who asked was an admin
   * earlier in the run.
   */
  lemma {:induction false} EventsAreAccountedFor(steps: seq<Step>, i: nat)
    requires FreshIds(steps) && i < |Exec(steps).state.log|
    ensures Accounted(steps, Exec(steps).state.log[..i + 1])
  {
    hide FreshIds, Next, Applied, Tells, OfAdmins, Logs, Integrity, PendingProven;
    assert steps != [];
    var n := |steps| - 1;
    var init, last := steps[..n], steps[n];
    var log, before := Exec(steps).state.log, Exec(init).state.log;
    StepIs(steps);
    hide Exec;
    FreshIdsPrefix(steps);
    ReachableIntegrity(init);
    MembersAreKeyed(Exec(init).state);
    StepTells(Exec(init), last);
    if i < |before| && before <= log {
      EventsAreAccountedFor(init, i);
      assert log[..i + 1] == before[..i + 1];
      AccountedGrows(steps, n, log[..i + 1]);
    } else {
      Provenance(init);
      LogsNow(steps);
      assert log[..i + 1] == log && steps[..|steps|] == steps;
    }
  }

  lemma MembersAreKeyed(s: State)
    requires Integrity(s)
    ensures MembersKeyed(s.members)
  {
  }

  lemma AccountedGrows(steps: seq<Step>, n: nat, log: seq<AuditEvent>)
    requires n <= |steps| && log != [] && Accounted(steps[..n], log)
    ensures Accounted(steps, log)
  {
    hide Logs;
    var j :| 0 < j <= n && Logs(steps[..n][..j], log);
    assert steps[..n][..j] == steps[..j];
  }

  lemma LogsNow(steps: seq<Step>)
    requires steps != [] && PendingProven(steps[..|steps| - 1])
    requires Exec(steps).state.log != []
    requires
      var sys, last, log := Exec(steps[..|steps| - 1]), steps[|steps| - 1], Exec(steps).state.log;
      var applied := Applied(sys, last);
      applied.Some? && Tells(log[|log| - 1], applied.value.0, applied.value.1)
    ensures Logs(steps, Exec(steps).state.log)
  {
    hide Exec, WasAdmin, After, Stopped;
    var (c, env) := Applied(Exec(steps[..|steps| - 1]), steps[|steps| - 1]).value;
    AppliedByAdmin(steps);
  }
}
