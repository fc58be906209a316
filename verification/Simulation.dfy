/** Whole runs of the server over the two backends, restarts and stops included where the store outlives them. */
module Simulation {
  import opened Models
  import opened Text
  import opened Claims
  import opened Paths
  import opened Sorting
  import opened Authority
  import opened Bundle
  import opened Services
  import opened Runs
  import opened History
  import opened Contract
  import opened Documents

  /** What a client sees of a step. */
  datatype Response = Silent | Refused | Passed | Replied(reply: Reply)

  /** The responses a step may get in a system state. */
  ghost predicate Responds(sys: System, step: Step, response: Response) {
    match step
    case Boot(_, _) => response == Silent
    case Gate(call) => response == if AdminOnly(call) && IsAdmin(sys.state, Actor(call)) then Passed else Refused
    case Run(index, env) =>
      if index < |sys.pending| then response.Replied? && Answers(sys.state, sys.pending[index], env, response.reply)
      else response == Silent
    case Public(call, env) =>
      if AdminOnly(call) then response == Refused
      else response.Replied? && Answers(sys.state, call, env, response.reply)
    case Stop(_, _, _) => response == Silent
  }

  /** The names in a step that end up in store paths are usable. */
  predicate StepAcceptable(bundle: RepositoryBundle, sys: System, step: Step) {
    match step
    case Boot(trusted, _) => forall sub | sub in NormalizeSubjects(trusted) :: bundle.Accepts(sub)
    case Gate(call) => AdminOnly(call) ==> bundle.Accepts(Actor(call))
    case Run(index, env) => index < |sys.pending| ==> Acceptable(bundle, sys.pending[index], env)
    case Public(call, env) => Acceptable(bundle, call, env)
    case Stop(index, env, _) =>
      bundle.Vault? && (index < |sys.pending| ==>
        && Acceptable(bundle, sys.pending[index], env)
        && (sys.pending[index].MintCall? ==> env.freshId !in sys.state.tokens))
  }

  /** A start of the process: a Vault bundle is built anew over the store; an in-memory one must be new already. */
  method Start(bundle: RepositoryBundle, trusted: seq<string>, now: Time) returns (next: RepositoryBundle)
    requires bundle.Valid() && (bundle.Memory? ==> bundle.View() == EMPTY_STATE)
    requires forall sub | sub in NormalizeSubjects(trusted) :: bundle.Accepts(sub)
    modifies bundle.Footprint()
    ensures next.Valid() && next.Vault? == bundle.Vault? && next.KeyAtStart() == bundle.KeyAtStart()
    ensures next.View() == Bootstrap(old(bundle.View()).(log := []), trusted, now)
    ensures forall o | o in next.Footprint() :: o in bundle.Footprint() || fresh(o)
  {
    hide RepositoryBundle.Valid, RepositoryBundle.View, Bootstrap, NormalizeSubjects;
    next := bundle;
    if bundle.Vault? {
      next := RebuildVaultBundle(bundle);
    }
    var bootstrap := new BootstrapService(next);
    bootstrap.ApplyPlan(trusted, now);
  }

  /** One step of the server: starts, gates, handlers of passed requests, public requests, stops. */
  method Advance(bundle: RepositoryBundle, pending: seq<Call>, step: Step)
    returns (next: RepositoryBundle, left: seq<Call>, response: Response)
    requires bundle.Valid() && StepAcceptable(bundle, System(bundle.View(), pending), step)
    requires step.Boot? && bundle.Memory? ==> bundle.View() == EMPTY_STATE
    modifies bundle.Footprint()
    ensures next.Valid() && next.Vault? == bundle.Vault? && next.KeyAtStart() == bundle.KeyAtStart()
    ensures System(next.View(), left) == Next(System(old(bundle.View()), pending), step)
    ensures Responds(System(old(bundle.View()), pending), step, response)
    ensures forall o | o in next.Footprint() :: o in bundle.Footprint() || fresh(o)
  {
    hide RepositoryBundle.Valid, RepositoryBundle.View, RepositoryBundle.Footprint, After, Answers, Bootstrap, Stopped;
    next, left, response := bundle, pending, Silent;
    match step {
      case Boot(trusted, now) =>
        next := Start(bundle, trusted, now);
        left := [];
      case Gate(call) =>
        response := Refused;
        if AdminOnly(call) {
          var passes := RequireAdminIdentity(bundle, Actor(call));
          if passes {
            left := pending + [call];
            response := Passed;
          }
        }
      case Run(index, env) =>
        if index < |pending| {
          left := Without(pending, index);
          var reply := Handle(bundle, pending[index], env);
          response := Replied(reply);
        }
      case Public(call, env) =>
        response := Refused;
        if !AdminOnly(call) {
          var reply := Handle(bundle, call, env);
          response := Replied(reply);
        }
      case Stop(index, env, done) =>
        if index < |pending| {
          HandleStopped(bundle, pending[index], env, done);
        }
        next := RebuildVaultBundle(bundle);
        left := [];
    }
  }

  lemma AcceptableAnyBundle(a: RepositoryBundle, b: RepositoryBundle, sys: System, step: Step)
    requires a.Vault? == b.Vault?
    ensures StepAcceptable(a, sys, step) == StepAcceptable(b, sys, step)
  {
  }

  /** The same along a run; only a Vault bundle can be started again or stop and go on. */
  ghost predicate RunAcceptable(bundle: RepositoryBundle, steps: seq<Step>) {
    && (forall i | 0 <= i < |steps| :: StepAcceptable(bundle, Exec(steps[..i]), steps[i]))
    && (bundle.Memory? ==> forall i | 0 < i < |steps| :: !steps[i].Boot?)
  }

  /** Every step of the run got a response that fits the state it found. */
  ghost predicate RunResponds(steps: seq<Step>, responses: seq<Response>) {
    && |responses| == |steps|
    && forall i | 0 <= i < |steps| :: Responds(Exec(steps[..i]), steps[i], responses[i])
  }

  /** The requests anybody may make. */
  predicate ForEveryone(c: Call) {
    c.Register? || c.ShowProfile? || c.ShowTokens? || c.AskRuntime?
  }

  /**
   * The step did what is promised of it: the gate lets exactly the current admins' requests pass, only requests that
   * passed it are handled besides public ones, and every request handled meets what its kind promises.
   */
  ghost predicate StepMeets(sys: System, step: Step, next: System, response: Response) {
    match step
    case Boot(trusted, now) =>
      response == Silent && next.pending == [] && StartMeets(sys.state, trusted, now, next.state)
    case Gate(call) =>
      if !ForEveryone(call) && (call.actor, RESERVED_ADMIN_GROUP) in sys.state.members
      then response == Passed && next == sys.(pending := sys.pending + [call])
      else response == Refused && next == sys
    case Run(index, env) =>
      if index < |sys.pending| then
        && response.Replied? && Meets(sys.state, sys.pending[index], env, next.state, response.reply)
        && next.pending == sys.pending[..index] + sys.pending[index + 1..]
      else response == Silent && next == sys
    case Public(call, env) =>
      if ForEveryone(call) then
        response.Replied? && Meets(sys.state, call, env, next.state, response.reply) && next.pending == sys.pending
      else response == Refused && next == sys
    case Stop(index, env, done) =>
      && response == Silent && next.pending == [] && next.state.log == []
      && if index < |sys.pending| && done > 0 then
           exists whole, reply ::
             Meets(sys.state, sys.pending[index], env, whole, reply) && SameRecords(next.state, whole)
         else next.state == sys.state.(log := [])
  }

  ghost predicate RunMeets(steps: seq<Step>, responses: seq<Response>) {
    && |responses| == |steps|
    && forall i | 0 <= i < |steps| ::
         StepMeets(Exec(steps[..i]), steps[i], Exec(steps[..i + 1]), responses[i])
  }

  lemma StepDoes(sys: System, step: Step, response: Response)
    requires Responds(sys, step, response) && MembersKeyed(sys.state.members)
    requires forall i | 0 <= i < |sys.pending| :: AdminOnly(sys.pending[i])
    ensures StepMeets(sys, step, Next(sys, step), response)
  {
    hide After, Answers, Meets, Bootstrap, StartMeets, Stopped;
    match step
    case Boot(trusted, now) => StartDoes(sys.state, trusted, now);
    case Gate(call) =>
    case Run(index, env) =>
      if index < |sys.pending| {
        EveryCallMeets(sys.state, sys.pending[index], env, response.reply);
      }
    case Public(call, env) =>
      if ForEveryone(call) {
        EveryCallMeets(sys.state, call, env, response.reply);
      }
    case Stop(index, env, done) =>
      if index < |sys.pending| {
        StoppedDoes(sys.state, sys.pending[index], env, done);
      }
  }

  lemma StoppedDoes(s: State, c: Call, env: Env, done: nat)
    requires MembersKeyed(s.members) && AdminOnly(c)
    ensures done == 0 ==> Stopped(s, c, env, done) == s
    ensures done > 0 ==>
              exists whole, reply :: Meets(s, c, env, whole, reply) && SameRecords(Stopped(s, c, env, done), whole)
  {
    if done > 0 {
      var reply := AdminAnswer(s, c, env);
      EveryCallMeets(s, c, env, reply);
      StopIsNothingOrAll(s, c, env, done);
    } else {
      hide After;
    }
  }

  lemma AdminAnswer(s: State, c: Call, env: Env) returns (reply: Reply)
    requires AdminOnly(c)
    ensures Answers(s, c, env, reply)
  {
    hide CreateGroup, AddMembership, RemoveMembership, MintToken, GetToken, RevokeToken;
    match c
    case CreateGroupCall(actor, name, description) =>
      reply := GroupReply(CreateGroup(s, actor, name, description, env.now, env.correlation).1);
    case AddMemberCall(actor, sub, group) =>
      reply := MembershipReply(AddMembership(s, actor, sub, group, env.now, env.correlation).1);
    case RemoveMemberCall(actor, sub, group) =>
      reply := RemovalReply(RemoveMembership(s, actor, sub, group, env.now, env.correlation).1);
    case MintCall(actor, owner, groups, expiresIn) =>
      reply := MintReply(MintToken(s, actor, owner, groups, expiresIn, env.now, env.freshId, env.signing,
                                   env.correlation).1);
    case InspectCall(actor, tokenId) => reply := RecordReply(GetToken(s, actor, tokenId, env.now, env.correlation).1);
    case RevokeCall(actor, tokenId) => reply := RecordReply(RevokeToken(s, actor, tokenId, env.now, env.correlation).1);
  }

  /** Along every run, restarts and stops included, every step does what is promised of it. */
  lemma EveryStepMeets(steps: seq<Step>, responses: seq<Response>)
    requires FreshIds(steps) && RunResponds(steps, responses)
    ensures RunMeets(steps, responses)
  {
    hide Exec, Next, Responds, StepMeets, FreshIds;
    forall i | 0 <= i < |steps|
      ensures StepMeets(Exec(steps[..i]), steps[i], Exec(steps[..i + 1]), responses[i])
    {
      ExecPrefix(steps, i);
      FreshIdsUpTo(steps, i);
      ReachableIntegrity(steps[..i]);
      Provenance(steps[..i]);
      StepDoes(Exec(steps[..i]), steps[i], responses[i]);
    }
  }

  /**
   * The server over one backend, from an empty store through any run, restarts and stops included: it does exactly
   * what the state machine does, so everything proved about reachable states holds of the repositories, Vault-backed
   * ones included; every step of it does what is promised, and the documents in the store say so. Whatever is at
   * the signing path stays there.
   */
  method Drive(start: RepositoryBundle, steps: seq<Step>)
    returns (bundle: RepositoryBundle, pending: seq<Call>, responses: seq<Response>)
    requires start.Valid() && start.View() == EMPTY_STATE
    requires RunAcceptable(start, steps)
    modifies start.Footprint()
    ensures bundle.Valid() && System(bundle.View(), pending) == Exec(steps)
    ensures BundleSaid(bundle) && bundle.SigningKey() == old(start.SigningKey())
    ensures forall o | o in bundle.Footprint() :: o in start.Footprint() || fresh(o)
    ensures RunResponds(steps, responses) && (FreshIds(steps) ==> RunMeets(steps, responses))
  {
    hide RepositoryBundle.Valid, RepositoryBundle.View, RepositoryBundle.Footprint, RepositoryBundle.SigningKey;
    hide RepositoryBundle.KeyAtStart, RepositoryBundle.Accepts, Next, Responds, StepAcceptable, FreshIds, RunMeets;
    hide Bootstrap, BundleSaid;
    start.KeyIsKept();
    bundle, pending, responses := start, [], [];
    for i := 0 to |steps|
      invariant bundle.Valid() && bundle.Vault? == start.Vault? && bundle.KeyAtStart() == start.KeyAtStart()
      invariant System(bundle.View(), pending) == Exec(steps[..i])
      invariant forall o | o in bundle.Footprint() :: o in start.Footprint() || fresh(o)
      invariant |responses| == i
      invariant forall j | 0 <= j < i :: Responds(Exec(steps[..j]), steps[j], responses[j])
    {
      ExecPrefix(steps, i);
      AcceptableAnyBundle(start, bundle, Exec(steps[..i]), steps[i]);
      var response: Response;
      bundle, pending, response := Advance(bundle, pending, steps[i]);
      responses := responses + [response];
    }
    assert steps[..|steps|] == steps;
    bundle.KeyIsKept();
    BundleSays(bundle);
    if FreshIds(steps) {
      EveryStepMeets(steps, responses);
    }
  }

  predicate SameResponse(a: Response, b: Response) {
    if a.Replied? && b.Replied? then SameReply(a.reply, b.reply) else a == b
  }

  predicate SameResponses(a: seq<Response>, b: seq<Response>) {
    |a| == |b| && forall i | 0 <= i < |a| :: SameResponse(a[i], b[i])
  }

  /**
   * Backend simulation: any run of one process, with the same clocks, ids and signer, gets the same responses
   * over a Vault bundle and over an in-memory bundle, and leaves the same contents, audit log and requests
   * in flight.
   */
  method DriveBoth(vault: RepositoryBundle, memory: RepositoryBundle, steps: seq<Step>)
    returns (a: RepositoryBundle, b: RepositoryBundle, fromVault: seq<Response>, fromMemory: seq<Response>)
    requires vault.Vault? && memory.Memory? && vault.Valid() && memory.Valid()
    requires vault.Footprint() !! memory.Footprint() && vault.View() == memory.View() == EMPTY_STATE
    requires RunAcceptable(vault, steps) && RunAcceptable(memory, steps)
    modifies vault.Footprint(), memory.Footprint()
    ensures a.Valid() && b.Valid() && a.View() == b.View() == Exec(steps).state
    ensures RunResponds(steps, fromVault) && RunResponds(steps, fromMemory) && SameResponses(fromVault, fromMemory)
  {
    hide RepositoryBundle.Valid, RepositoryBundle.View, RepositoryBundle.SigningKey, Exec;
    hide RunAcceptable, RunResponds, SameResponses, FreshIds, RunMeets, BundleSaid;
    var inFlight, inFlight': seq<Call>;
    a, inFlight, fromVault := Drive(vault, steps);
    b, inFlight', fromMemory := Drive(memory, steps);
    RunResponsesAgree(steps, fromVault, fromMemory);
  }

  /** Two responses to the same step in the same system state agree. */
  lemma ResponsesAgree(sys: System, step: Step, a: Response, b: Response)
    requires Responds(sys, step, a) && Responds(sys, step, b)
    ensures SameResponse(a, b)
  {
    hide Answers;
    match step
    case Run(index, env) =>
      if index < |sys.pending| {
        AnswersAgree(sys.state, sys.pending[index], env, a.reply, b.reply);
      }
    case Public(call, env) =>
      if !AdminOnly(call) {
        AnswersAgree(sys.state, call, env, a.reply, b.reply);
      }
    case _ =>
  }

  lemma RunResponsesAgree(steps: seq<Step>, a: seq<Response>, b: seq<Response>)
    requires RunResponds(steps, a) && RunResponds(steps, b)
    ensures SameResponses(a, b)
  {
    hide Responds;
    forall i | 0 <= i < |steps| ensures SameResponse(a[i], b[i]) {
      ResponsesAgree(Exec(steps[..i]), steps[i], a[i], b[i]);
    }
  }
}
