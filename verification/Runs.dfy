/**
 * The service as a state machine: starts, the admin gate, handlers that run some time after their gate, public
 * requests, and stops of the process in the middle of a handler, in any interleaving.
 */
module Runs {
  import opened Models
  import opened Text
  import opened Rules
  import opened Claims
  import opened Authority

  /** The persistent state, and the admin requests that passed the gate and have not run yet. */
  datatype System = System(state: State, pending: seq<Call>)

  datatype Step =
    | Boot(trusted: seq<string>, now: Time)
    | Gate(call: Call)
    | Run(index: nat, env: Env)
    | Public(call: Call, env: Env)
    | Stop(index: nat, env: Env, done: nat)

  const START := System(EMPTY_STATE, [])

  function Without(calls: seq<Call>, i: nat): seq<Call>
    requires i < |calls|
  {
    calls[..i] + calls[i + 1..]
  }

  /**
   * A restart keeps the store, loses the audit list and every request in flight, and applies the bootstrap
   * plan. The gate looks at memberships only when it is passed; a handler never looks again. A stop ends the
   * process after `done` store writes of the chosen handler, if there is one, and loses the same things.
   */
  function Next(sys: System, step: Step): System {
    match step
    case Boot(trusted, now) => System(Bootstrap(sys.state.(log := []), trusted, now), [])
    case Gate(call) =>
      if AdminOnly(call) && IsAdmin(sys.state, Actor(call)) then sys.(pending := sys.pending + [call]) else sys
    case Run(index, env) =>
      if index < |sys.pending|
      then System(After(sys.state, sys.pending[index], env), Without(sys.pending, index))
      else sys
    case Public(call, env) => if AdminOnly(call) then sys else sys.(state := After(sys.state, call, env))
    case Stop(index, env, done) =>
      var left := if index < |sys.pending| then Stopped(sys.state, sys.pending[index], env, done) else sys.state;
      System(left.(log := []), [])
  }

  function Exec(steps: seq<Step>): System {
    if steps == [] then START else Next(Exec(steps[..|steps| - 1]), steps[|steps| - 1])
  }

  /** Some or all of a pending handler is run. */
  predicate RunsHandler(step: Step) {
    step.Run? || step.Stop?
  }

  /** A minted id is one that no token has yet. */
  ghost predicate FreshIds(steps: seq<Step>) {
    forall i | 0 <= i < |steps| && RunsHandler(steps[i]) :: steps[i].env.freshId !in Exec(steps[..i]).state.tokens
  }

  lemma ExecPrefix(steps: seq<Step>, i: nat)
    requires i < |steps|
    ensures Exec(steps[..i + 1]) == Next(Exec(steps[..i]), steps[i])
    ensures steps[..|steps|] == steps
  {
    assert steps[..i + 1][..i] == steps[..i];
  }

  /** The one call, if any, whose effect on the records a step has: a stopped one counts from its first write on. */
  function Applied(sys: System, step: Step): Option<(Call, Env)> {
    match step
    case Run(index, env) => if index < |sys.pending| then Some((sys.pending[index], env)) else None
    case Public(call, env) => if AdminOnly(call) then None else Some((call, env))
    case Stop(index, env, done) =>
      if index < |sys.pending| && done > 0 then Some((sys.pending[index], env)) else None
    case _ => None
  }

  function AfterApplied(sys: System, step: Step): State {
    match Applied(sys, step)
    case None => sys.state
    case Some((c, env)) => After(sys.state, c, env)
  }

  lemma StepChangesState(sys: System, step: Step)
    requires !step.Boot?
    ensures SameRecords(Next(sys, step).state, AfterApplied(sys, step))
    ensures !step.Stop? ==> Next(sys, step).state == AfterApplied(sys, step)
  {
    hide After, Stopped;
    if step.Stop? && step.index < |sys.pending| {
      StopIsNothingOrAll(sys.state, sys.pending[step.index], step.env, step.done);
    }
  }

  /** To everyone but the readers of listings, a stop is a restart with the handler not begun or completed. */
  lemma StopVerdict(sys: System, index: nat, env: Env, done: nat, request: AuthorizationRequest, now: Time)
    requires index < |sys.pending|
    ensures
      var stopped := Next(sys, Stop(index, env, done)).state;
      var completed := Next(sys, Run(index, env)).state;
      && SameRecords(stopped, if done == 0 then sys.state else completed)
      && (Allowed(stopped.tokens, request, now)
          <==> Allowed(if done == 0 then sys.state.tokens else completed.tokens, request, now))
  {
    StopIsNothingOrAll(sys.state, sys.pending[index], env, done);
    hide After, Stopped;
  }

  // --- bootstrap

  /** Granting admins touches nothing that is there and adds exactly the missing admins. */
  lemma {:induction false} GrantAdminsExact(members: map<(string, string), Membership>, subs: seq<string>, now: Time)
    ensures
      var after := GrantAdmins(members, subs, now);
      && (forall k | k in members :: k in after && after[k] == members[k])
      && (forall k | k in after && k !in members ::
            k.1 == RESERVED_ADMIN_GROUP && k.0 in subs && after[k] == Membership(k.0, RESERVED_ADMIN_GROUP, now, None))
      && (forall sub | sub in subs :: (sub, RESERVED_ADMIN_GROUP) in after)
  {
    if subs != [] {
      GrantAdminsExact(members, subs[..|subs| - 1], now);
      assert subs == subs[..|subs| - 1] + [subs[|subs| - 1]];
    }
  }

  /** A second restart with the same plan, at any later time, finds nothing to do. */
  lemma BootstrapIdempotent(s: State, trusted: seq<string>, now: Time, later: Time)
    ensures Bootstrap(Bootstrap(s, trusted, now), trusted, later) == Bootstrap(s, trusted, now)
  {
    var subs := NormalizeSubjects(trusted);
    var once := GrantAdmins(s.members, subs, now);
    GrantAdminsExact(s.members, subs, now);
    GrantAdminsExact(once, subs, later);
    assert GrantAdmins(once, subs, later) == once;
  }

  /** The admins after a restart are the old ones and the plan's, in whatever order the plan lists them. */
  lemma BootstrapAdmins(s: State, trusted: seq<string>, now: Time, sub: string)
    ensures IsAdmin(Bootstrap(s, trusted, now), sub) <==> IsAdmin(s, sub) || sub in NormalizeSubjects(trusted)
    ensures forall k | k in s.members ::
              k in Bootstrap(s, trusted, now).members && Bootstrap(s, trusted, now).members[k] == s.members[k]
    ensures forall g | g in s.groups ::
              g in Bootstrap(s, trusted, now).groups && Bootstrap(s, trusted, now).groups[g] == s.groups[g]
    ensures Bootstrap(s, trusted, now).tokens == s.tokens && Bootstrap(s, trusted, now).profiles == s.profiles
  {
    GrantAdminsExact(s.members, NormalizeSubjects(trusted), now);
  }

  lemma BootstrapOrderInsensitive(s: State, a: seq<string>, b: seq<string>, now: Time)
    requires forall sub :: sub in NormalizeSubjects(a) <==> sub in NormalizeSubjects(b)
    ensures Bootstrap(s, a, now) == Bootstrap(s, b, now)
  {
    hide GrantAdmins, NormalizeSubjects;
    var xs, ys := NormalizeSubjects(a), NormalizeSubjects(b);
    GrantAdminsExact(s.members, xs, now);
    GrantAdminsExact(s.members, ys, now);
    var m, n := GrantAdmins(s.members, xs, now), GrantAdmins(s.members, ys, now);
    assert forall k | k in m :: k in n && m[k] == n[k];
    assert forall k | k in n :: k in m;
    assert m == n;
  }

  lemma {:induction false} GrantAdminsCons(members: map<(string, string), Membership>, sub: string, rest: seq<string>,
                                           now: Time)
    ensures GrantAdmins(members, [sub] + rest, now) == GrantAdmins(GrantAdmins(members, [sub], now), rest, now)
  {
    if rest == [] {
      assert [sub] + rest == [sub];
    } else {
      var init := rest[..|rest| - 1];
      GrantAdminsCons(members, sub, init, now);
      assert ([sub] + rest)[..|rest|] == [sub] + init;
    }
  }

  lemma {:induction false} GrantUpToIsPrefix(members: map<(string, string), Membership>, subs: seq<string>, now: Time,
                                             left: nat)
    returns (n: nat)
    ensures n <= |subs| && GrantUpTo(members, subs, now, left) == GrantAdmins(members, subs[..n], now)
    ensures left >= |subs| ==> n == |subs|
    decreases subs
  {
    if subs == [] || left == 0 {
      n := 0;
    } else {
      var granted := GrantAdmins(members, [subs[0]], now);
      assert [subs[0]][..0] == [];
      var m := GrantUpToIsPrefix(granted, subs[1..], now, if granted == members then left else left - 1);
      n := m + 1;
      GrantAdminsCons(members, subs[0], subs[1..][..m], now);
      assert subs[..n] == [subs[0]] + subs[1..][..m];
      GrantOne(members, subs[0], now);
    }
  }

  lemma GrantOne(members: map<(string, string), Membership>, sub: string, now: Time)
    ensures GrantAdmins(members, [sub], now) ==
            if (sub, RESERVED_ADMIN_GROUP) in members then members
            else members[(sub, RESERVED_ADMIN_GROUP) := Membership(sub, RESERVED_ADMIN_GROUP, now, None)]
    ensures GrantAdmins(members, [sub], now) == members <==> (sub, RESERVED_ADMIN_GROUP) in members
  {
    assert [sub][..0] == [];
    if (sub, RESERVED_ADMIN_GROUP) !in members {
      assert (sub, RESERVED_ADMIN_GROUP) in GrantAdmins(members, [sub], now);
    }
  }

  /** A start that stops after any number of its writes is one not begun, or one configured with fewer subjects. */
  lemma StoppedStartIsShorter(s: State, trusted: seq<string>, now: Time, done: nat) returns (n: nat)
    ensures n <= |NormalizeSubjects(trusted)|
    ensures || BootstrapUpTo(s, trusted, now, done) == s
            || BootstrapUpTo(s, trusted, now, done) == Bootstrap(s, NormalizeSubjects(trusted)[..n], now)
    ensures done > |NormalizeSubjects(trusted)| ==> BootstrapUpTo(s, trusted, now, done) == Bootstrap(s, trusted, now)
  {
    hide NormalizeSubjects, GrantUpTo, GrantAdmins;
    var subs := NormalizeSubjects(trusted);
    var left := if RESERVED_ADMIN_GROUP in s.groups || done == 0 then done else done - 1;
    n := GrantUpToIsPrefix(s.members, subs, now, left);
    NormalizedPrefix(trusted, n);
    assert subs[..|subs|] == subs;
  }

  /** So a stop in a start needs no step of its own: it is a start with fewer subjects, or none, and then a stop. */
  lemma StoppedStartIsRun(sys: System, trusted: seq<string>, now: Time, done: nat, env: Env) returns (n: nat)
    ensures n <= |NormalizeSubjects(trusted)|
    ensures
      var stopped := System(BootstrapUpTo(sys.state, trusted, now, done).(log := []), []);
      || stopped == Next(sys, Stop(|sys.pending|, env, 0))
      || stopped == Next(Next(sys, Boot(NormalizeSubjects(trusted)[..n], now)), Stop(0, env, 0))
  {
    hide NormalizeSubjects, BootstrapUpTo;
    n := StoppedStartIsShorter(sys.state, trusted, now, done);
  }

  // --- the last admin

  ghost predicate HasAdmin(s: State) {
    exists sub :: IsAdmin(s, sub)
  }

  /** With at least two memberships in a group, taking one away leaves another. */
  lemma AnotherMember(members: map<(string, string), Membership>, group: string, sub: string) returns (other: string)
    requires |MembershipsOfGroup(members, group)| >= 2
    ensures (other, group) in members && other != sub
  {
    var all := MembershipsOfGroup(members, group);
    if (sub, group) in members {
      assert |all - {members[(sub, group)]}| >= 1;
      var m :| m in all - {members[(sub, group)]};
      var k :| k in members && k.1 == group && members[k] == m;
      other := k.0;
    } else {
      var m :| m in all;
      var k :| k in members && k.1 == group && members[k] == m;
      other := k.0;
    }
  }

  lemma RemoveKeepsAdmin(s: State, actor: string, sub: string, name: string, now: Time, correlation: Option<string>)
    requires HasAdmin(s)
    ensures HasAdmin(RemoveMembership(s, actor, sub, name, now, correlation).0)
  {
    hide KnownGroup, Lower, Strip;
    var t := RemoveMembership(s, actor, sub, name, now, correlation).0;
    var admin :| IsAdmin(s, admin);
    if MembershipToRemove(s, sub, name) == Ok(RESERVED_ADMIN_GROUP) {
      var other := AnotherMember(s.members, RESERVED_ADMIN_GROUP, sub);
      assert IsAdmin(t, other);
    } else {
      assert IsAdmin(t, admin);
    }
  }

  lemma AddKeepsAdmin(s: State, actor: string, sub: string, name: string, now: Time, correlation: Option<string>)
    requires HasAdmin(s)
    ensures HasAdmin(AddMembership(s, actor, sub, name, now, correlation).0)
  {
    hide MembershipToAdd, Lower, Strip;
    var admin :| IsAdmin(s, admin);
    assert IsAdmin(AddMembership(s, actor, sub, name, now, correlation).0, admin);
  }

  lemma CallKeepsAdmin(s: State, c: Call, env: Env)
    requires HasAdmin(s)
    ensures HasAdmin(After(s, c, env))
  {
    hide RegisterSelf, CreateGroup, AddMembership, RemoveMembership, MintToken, GetToken, RevokeToken, Authorize;
    match c
    case AddMemberCall(actor, sub, group) => AddKeepsAdmin(s, actor, sub, group, env.now, env.correlation);
    case RemoveMemberCall(actor, sub, group) => RemoveKeepsAdmin(s, actor, sub, group, env.now, env.correlation);
    case _ =>
      var admin :| IsAdmin(s, admin);
      assert IsAdmin(After(s, c, env), admin);
  }

  lemma StepKeepsAdmin(sys: System, step: Step)
    requires HasAdmin(sys.state)
    ensures HasAdmin(Next(sys, step).state)
  {
    if step.Boot? {
      var admin :| IsAdmin(sys.state, admin);
      BootstrapAdmins(sys.state.(log := []), step.trusted, step.now, admin);
    } else {
      StepChangesState(sys, step);
      if Applied(sys, step).Some? {
        CallKeepsAdmin(sys.state, Applied(sys, step).value.0, Applied(sys, step).value.1);
      }
      var admin :| IsAdmin(AfterApplied(sys, step), admin);
      assert IsAdmin(Next(sys, step).state, admin);
    }
  }

  /**
   * Once there is an admin there is one in every later state: under every interleaving of gates and
   * handlers, with stale gates, and across restarts.
   */
  lemma {:induction false} LastAdminSurvives(steps: seq<Step>, i: nat)
    requires i <= |steps| && HasAdmin(Exec(steps[..i]).state)
    ensures HasAdmin(Exec(steps).state)
  {
    hide Next, HasAdmin;
    if i < |steps| {
      var n := |steps| - 1;
      assert steps[..n][..i] == steps[..i];
      LastAdminSurvives(steps[..n], i);
      StepKeepsAdmin(Exec(steps[..n]), steps[n]);
    } else {
      assert steps[..i] == steps;
    }
  }

  /** A removal is refused as the last admin's exactly when the subject is the only admin. */
  lemma LastAdminRefusedIff(s: State, actor: string, sub: string, now: Time, correlation: Option<string>)
    requires MembersKeyed(s.members) && ActiveGroup(s.groups, RESERVED_ADMIN_GROUP)
    ensures RemoveMembership(s, actor, sub, RESERVED_ADMIN_GROUP, now, correlation).1 == Err(LastAdminRemoval)
       <==> IsAdmin(s, sub) && forall other | IsAdmin(s, other) :: other == sub
  {
    AdminIsNormal();
    NormalFormFixed(RESERVED_ADMIN_GROUP);
    var all := MembershipsOfGroup(s.members, RESERVED_ADMIN_GROUP);
    if IsAdmin(s, sub) {
      var own := s.members[(sub, RESERVED_ADMIN_GROUP)];
      assert own in all;
      if |all| >= 2 {
        var other := AnotherMember(s.members, RESERVED_ADMIN_GROUP, sub);
        assert IsAdmin(s, other);
      } else {
        forall other | IsAdmin(s, other) ensures other == sub {
          var m := s.members[(other, RESERVED_ADMIN_GROUP)];
          assert m in all;
          OnlyElement(all, own, m);
        }
      }
    }
  }

  lemma OnlyElement<T>(all: set<T>, a: T, b: T)
    requires a in all && b in all && |all| < 2
    ensures a == b
  {
    if a != b {
      assert {a, b} <= all;
      Subset({a, b}, all);
    }
  }

  lemma {:induction false} Subset<T>(small: set<T>, big: set<T>)
    requires small <= big
    ensures |small| <= |big|
  {
    if small != {} {
      var x :| x in small;
      Subset(small - {x}, big - {x});
    }
  }

  // --- how single records change

  /** A record stays as it is, or goes from active to revoked and changes in nothing else. */
  ghost predicate Evolves(a: TokenRecord, b: TokenRecord) {
    b == a || (a.status.Active? && b.revokedAt.Some? && b == a.(status := Revoked, revokedAt := b.revokedAt))
  }

  /** Nothing a user has told is ever forgotten, and the first registration stays the first. */
  ghost predicate ProfileEvolves(a: UserProfile, b: UserProfile) {
    && b.registeredAt == a.registeredAt
    && (a.displayName.Some? ==> b.displayName.Some?)
    && (a.email.Some? ==> b.email.Some?)
  }

  ghost predicate StateEvolves(s: State, t: State) {
    && (forall id | id in s.tokens :: id in t.tokens && Evolves(s.tokens[id], t.tokens[id]))
    && (forall g | g in s.groups :: g in t.groups && t.groups[g] == s.groups[g])
    && (forall sub | sub in s.profiles :: sub in t.profiles && ProfileEvolves(s.profiles[sub], t.profiles[sub]))
  }

  lemma RegisterEvolves(s: State, identity: Identity, now: Time, correlation: Option<string>)
    ensures
      var after := RegisterSelf(s, identity, now, correlation).0.profiles;
      forall sub | sub in s.profiles :: sub in after && ProfileEvolves(s.profiles[sub], after[sub])
  {
  }

  lemma CreateKeepsGroups(s: State, actor: string, name: string, description: Option<string>, now: Time,
                          correlation: Option<string>)
    ensures
      var after := CreateGroup(s, actor, name, description, now, correlation).0.groups;
      forall g | g in s.groups :: g in after && after[g] == s.groups[g]
  {
    hide NormalizeGroupName, Lower, Strip;
  }

  lemma MintKeepsTokens(s: State, c: Call, env: Env)
    requires c.MintCall? && env.freshId !in s.tokens
    ensures
      var after := MintToken(s, c.actor, c.owner, c.groups, c.expiresIn, env.now, env.freshId, env.signing,
                             env.correlation).0.tokens;
      forall t | t in s.tokens :: t in after && after[t] == s.tokens[t]
  {
    hide NewToken;
  }

  lemma RevokeEvolves(s: State, actor: string, tokenId: string, now: Time, correlation: Option<string>)
    ensures
      var after := RevokeToken(s, actor, tokenId, now, correlation).0.tokens;
      forall t | t in s.tokens :: t in after && Evolves(s.tokens[t], after[t])
  {
  }

  lemma CallEvolves(s: State, c: Call, env: Env)
    requires env.freshId !in s.tokens || !c.MintCall?
    ensures StateEvolves(s, After(s, c, env))
  {
    hide RegisterSelf, CreateGroup, AddMembership, RemoveMembership, MintToken, GetToken, RevokeToken, Authorize;
    match c
    case Register(identity) => RegisterEvolves(s, identity, env.now, env.correlation);
    case CreateGroupCall(actor, name, description) =>
      CreateKeepsGroups(s, actor, name, description, env.now, env.correlation);
    case MintCall(_, _, _, _) => MintKeepsTokens(s, c, env);
    case RevokeCall(actor, tokenId) => RevokeEvolves(s, actor, tokenId, env.now, env.correlation);
    case _ =>
  }

  lemma StepEvolves(sys: System, step: Step)
    requires RunsHandler(step) ==> step.env.freshId !in sys.state.tokens
    ensures StateEvolves(sys.state, Next(sys, step).state)
  {
    if !step.Boot? {
      StepChangesState(sys, step);
      if Applied(sys, step).Some? {
        CallEvolves(sys.state, Applied(sys, step).value.0, Applied(sys, step).value.1);
      }
    }
  }

  lemma EvolvesReflexive(s: State)
    ensures StateEvolves(s, s)
  {
  }

  lemma EvolvesTransitive(a: State, b: State, c: State)
    requires StateEvolves(a, b) && StateEvolves(b, c)
    ensures StateEvolves(a, c)
  {
  }

  lemma FreshIdsPrefix(steps: seq<Step>)
    requires FreshIds(steps) && steps != []
    ensures FreshIds(steps[..|steps| - 1])
    ensures
      var last := steps[|steps| - 1];
      RunsHandler(last) ==> last.env.freshId !in Exec(steps[..|steps| - 1]).state.tokens
  {
    var init := steps[..|steps| - 1];
    forall j | 0 <= j < |init| && RunsHandler(init[j]) ensures init[j].env.freshId !in Exec(init[..j]).state.tokens {
      assert init[j] == steps[j] && init[..j] == steps[..j];
    }
  }

  lemma FreshIdsUpTo(steps: seq<Step>, i: nat)
    requires FreshIds(steps) && i <= |steps|
    ensures FreshIds(steps[..i])
  {
    assert forall j | 0 <= j < i :: steps[..i][j] == steps[j] && steps[..i][..j] == steps[..j];
  }

  /** From any point of a run to its end: tokens only ever get revoked, group definitions never change. */
  lemma {:induction false} RecordsEvolve(steps: seq<Step>, i: nat)
    requires i <= |steps| && FreshIds(steps)
    ensures StateEvolves(Exec(steps[..i]).state, Exec(steps).state)
  {
    hide StateEvolves, FreshIds, Next;
    if i < |steps| {
      var n := |steps| - 1;
      var init := steps[..n];
      assert init[..i] == steps[..i];
      FreshIdsPrefix(steps);
      RecordsEvolve(init, i);
      StepEvolves(Exec(init), steps[n]);
      EvolvesTransitive(Exec(steps[..i]).state, Exec(init).state, Exec(steps).state);
    } else {
      assert steps[..i] == steps;
      EvolvesReflexive(Exec(steps).state);
    }
  }

  /**
   * Once a request about an existing token is denied, the same request is denied at every later moment of
   * every run.
   */
  lemma DenialIsPermanent(steps: seq<Step>, i: nat, request: AuthorizationRequest, then_: Time, now: Time)
    requires i <= |steps| && FreshIds(steps) && then_ <= now
    requires request.tokenId in Exec(steps[..i]).state.tokens
    requires !Allowed(Exec(steps[..i]).state.tokens, request, then_)
    ensures !Allowed(Exec(steps).state.tokens, request, now)
  {
    RecordsEvolve(steps, i);
  }

  /** Revoking is permanent and takes effect at once, for every requester and permission. */
  lemma RevokedIsDenied(s: State, actor: string, tokenId: string, env: Env, request: AuthorizationRequest, now: Time)
    requires request.tokenId == tokenId
    ensures !Allowed(After(s, RevokeCall(actor, tokenId), env).tokens, request, now)
    ensures tokenId in s.tokens && s.tokens[tokenId].status.Revoked? ==>
              After(s, RevokeCall(actor, tokenId), env).tokens == s.tokens
  {
  }
}
