/**
 * Runs of the service, seen as runs of store writes: what the services issue along any run, stops included, is what
 * the crash-safety results are about.
 */
module Stops {
  import opened Models
  import opened Text
  import opened Claims
  import opened Paths
  import opened Authority
  import opened Runs
  import opened TokenStore
  import opened CrashSafety
  import opened CrashRuns
  import opened History
  import Services

  /** The record a mint writes is one of the two upserts that crash safety is about. */
  lemma MintIsServiceUpsert(s: State, actor: string, owner: string, groups: seq<string>, expiresIn: Option<int>,
                            env: Env)
    requires Name(owner) && Name(env.freshId) && env.freshId !in s.tokens
    ensures
      var minted := NewToken(s, actor, owner, groups, expiresIn, env.now, env.freshId, env.signing);
      minted.Ok? ==> ServiceUpsert(s.tokens, minted.value.record) && NoDuplicates(minted.value.record.grantedGroups)
  {
    hide ValidateGroups;
    NewTokenIsGood(s, actor, owner, groups, expiresIn, env.now, env.freshId, env.signing);
    Services.GrantedGroupsAreNames(s.groups, groups);
  }

  /** So is the record a first revoke writes; a second revoke writes nothing at all. */
  lemma RevokeIsServiceUpsert(tokens: Tokens, tokenId: string, now: Time)
    requires tokenId in tokens && tokens[tokenId].tokenId == tokenId && WellNamedRecord(tokens[tokenId])
    ensures tokens[tokenId].status.Active? ==> ServiceUpsert(tokens, RevokedRecord(tokens[tokenId], now))
    ensures tokens[tokenId].status.Revoked? ==> RevokedRecord(tokens[tokenId], now) == tokens[tokenId]
  {
  }

  /** The token record a handler writes, if it gets that far. */
  function Written(s: State, c: Call, env: Env): Option<TokenRecord> {
    match c
    case MintCall(actor, owner, groups, expiresIn) =>
      var minted := NewToken(s, actor, owner, groups, expiresIn, env.now, env.freshId, env.signing);
      if minted.Ok? then Some(minted.value.record) else None
    case RevokeCall(_, tokenId) =>
      if tokenId in s.tokens && s.tokens[tokenId].status.Active? then Some(RevokedRecord(s.tokens[tokenId], env.now))
      else None
    case _ => None
  }

  /** The token upsert a step issues: in full, or as far as the process gets. */
  function JobOf(sys: System, step: Step): seq<Job> {
    if !RunsHandler(step) || step.index >= |sys.pending| then []
    else
      match Written(sys.state, sys.pending[step.index], step.env)
      case None => []
      case Some(record) => [Upsert(record, if step.Stop? then step.done else WriteCount(record))]
  }

  function JobsOf(steps: seq<Step>): seq<Job> {
    if steps == [] then []
    else
      var init := steps[..|steps| - 1];
      JobsOf(init) + JobOf(Exec(init), steps[|steps| - 1])
  }

  /** Owners and minted ids of the run are usable names. */
  ghost predicate NamedMint(sys: System, step: Step) {
    RunsHandler(step) && step.index < |sys.pending| && sys.pending[step.index].MintCall? ==>
      Name(sys.pending[step.index].owner) && Name(step.env.freshId)
  }

  ghost predicate NamedRun(steps: seq<Step>) {
    forall i | 0 <= i < |steps| :: NamedMint(Exec(steps[..i]), steps[i])
  }

  lemma NamedRunPrefix(steps: seq<Step>)
    requires NamedRun(steps) && steps != []
    ensures NamedRun(steps[..|steps| - 1])
    ensures NamedMint(Exec(steps[..|steps| - 1]), steps[|steps| - 1])
  {
    hide NamedMint, Exec;
    var init := steps[..|steps| - 1];
    assert forall i | 0 <= i < |init| :: init[i] == steps[i] && init[..i] == steps[..i];
  }

  /** What the jobs of a run add up to is the token part of the state. */
  predicate Matches(jobs: seq<Job>, s: State) {
    RecordsAfter(jobs) == s.tokens && UnlistedFrom(jobs) == s.unlisted && InexactFrom(jobs) == s.inexact
  }

  lemma {:induction false} JobsAreWellNamed(layout: VaultPathLayout, jobs: seq<Job>, t: string)
    requires ServiceRun(layout, jobs) && t in RecordsAfter(jobs)
    ensures WellNamedRecord(RecordsAfter(jobs)[t])
  {
    RecordsComeFromJobs(jobs, t);
    var i :| 0 <= i < |jobs| && jobs[i].Upsert? && jobs[i].record == RecordsAfter(jobs)[t];
    RunPrefix(layout, jobs, i);
  }

  lemma WrittenIsServiceUpsert(s: State, c: Call, env: Env)
    requires GoodTokens(s) && (forall t | t in s.tokens :: WellNamedRecord(s.tokens[t]))
    requires c.MintCall? ==> Name(c.owner) && Name(env.freshId) && env.freshId !in s.tokens
    ensures Written(s, c, env).Some? ==>
              ServiceUpsert(s.tokens, Written(s, c, env).value) && NoDuplicates(Written(s, c, env).value.grantedGroups)
  {
    hide ValidateGroups, NewToken, WellNamedRecord;
    match c
    case MintCall(actor, owner, groups, expiresIn) => MintIsServiceUpsert(s, actor, owner, groups, expiresIn, env);
    case RevokeCall(_, tokenId) =>
      if tokenId in s.tokens {
        assert GoodToken(s, s.tokens[tokenId]);
        RevokeIsServiceUpsert(s.tokens, tokenId, env.now);
      }
    case _ =>
  }

  /** A call's effect on tokens and their entries is that of the one record it writes, completely or not. */
  lemma CallWrites(s: State, c: Call, env: Env)
    requires GoodTokens(s)
    ensures
      var t, record := After(s, c, env), Written(s, c, env);
      var expected := if record.None? then s else WriteToken(s, record.value.tokenId, record.value);
      t.tokens == expected.tokens && t.unlisted == expected.unlisted && t.inexact == expected.inexact
  {
    hide RegisterSelf, CreateGroup, AddMembership, RemoveMembership, GetToken, Authorize, ValidateGroups, WriteToken;
    if c.MintCall? {
      NewTokenIsGood(s, c.actor, c.owner, c.groups, c.expiresIn, env.now, env.freshId, env.signing);
    }
  }

  lemma StoppedCallWrites(s: State, c: Call, env: Env, done: nat)
    requires GoodTokens(s)
    ensures
      var t, record := Stopped(s, c, env, done), Written(s, c, env);
      var expected := if record.None? then s else WriteTokenUpTo(s, record.value.tokenId, record.value, done);
      t.tokens == expected.tokens && t.unlisted == expected.unlisted && t.inexact == expected.inexact
  {
    hide After, ValidateGroups, WriteTokenUpTo;
    CallScope(s, c, env);
    if c.MintCall? {
      NewTokenIsGood(s, c.actor, c.owner, c.groups, c.expiresIn, env.now, env.freshId, env.signing);
    }
  }

  lemma MatchesUpsert(jobs: seq<Job>, s: State, t: State, record: TokenRecord, done: nat)
    requires Matches(jobs, s)
    requires
      var expected := WriteTokenUpTo(s, record.tokenId, record, done);
      t.tokens == expected.tokens && t.unlisted == expected.unlisted && t.inexact == expected.inexact
    ensures Matches(jobs + [Upsert(record, done)], t)
  {
    var more := jobs + [Upsert(record, done)];
    assert more[..|more| - 1] == jobs;
  }

  lemma StepMatches(jobs: seq<Job>, sys: System, step: Step)
    requires Matches(jobs, sys.state) && GoodTokens(sys.state)
    requires forall i | 0 <= i < |sys.pending| :: AdminOnly(sys.pending[i])
    ensures Matches(jobs + JobOf(sys, step), Next(sys, step).state)
  {
    hide After, Stopped, Matches, GoodTokens, Written, GrantAdmins, NormalizeSubjects, WriteToken, WriteTokenUpTo;
    if RunsHandler(step) && step.index < |sys.pending| {
      var c := sys.pending[step.index];
      CallWrites(sys.state, c, step.env);
      var record := Written(sys.state, c, step.env);
      if step.Stop? {
        StoppedCallWrites(sys.state, c, step.env, step.done);
      }
      if record.Some? {
        WriteTokenIsAll(sys.state, record.value);
        MatchesUpsert(jobs, sys.state, Next(sys, step).state, record.value,
                      if step.Stop? then step.done else WriteCount(record.value));
      } else {
        MatchesSame(jobs, sys.state, Next(sys, step).state);
      }
    } else {
      if step.Public? {
        CallScope(sys.state, step.call, step.env);
      }
      MatchesSame(jobs, sys.state, Next(sys, step).state);
    }
  }

  lemma WriteTokenIsAll(s: State, record: TokenRecord)
    ensures WriteToken(s, record.tokenId, record) == WriteTokenUpTo(s, record.tokenId, record, WriteCount(record))
  {
  }

  lemma MatchesSame(jobs: seq<Job>, s: State, t: State)
    requires Matches(jobs, s) && t.tokens == s.tokens && t.unlisted == s.unlisted && t.inexact == s.inexact
    ensures Matches(jobs + [], t)
  {
    assert jobs + [] == jobs;
  }

  /**
   * Along every run of the service, stops included, the token upserts issued make a service run of the store, and
   * the state says exactly what that run leaves: the records, the unlisted tokens and the inexact ones.
   */
  lemma {:induction false} RunsAreServiceRuns(layout: VaultPathLayout, steps: seq<Step>)
    requires FreshIds(steps) && NamedRun(steps)
    ensures ServiceRun(layout, JobsOf(steps)) && DistinctGrants(JobsOf(steps))
    ensures Matches(JobsOf(steps), Exec(steps).state)
  {
    hide FreshIds, NamedRun, NamedMint, Next, ServiceRun, Integrity, DistinctGrants, Matches, PendingProven, JobOf;
    if steps == [] {
      NothingMatches(layout);
    } else {
      var init, last := steps[..|steps| - 1], steps[|steps| - 1];
      FreshIdsPrefix(steps);
      NamedRunPrefix(steps);
      RunsAreServiceRuns(layout, init);
      ReachableIntegrity(init);
      Provenance(init);
      PendingAreAdmins(init);
      TokensAreGood(Exec(init).state);
      StepMatches(JobsOf(init), Exec(init), last);
      StepIssues(layout, JobsOf(init), Exec(init), last);
    }
  }

  lemma NothingMatches(layout: VaultPathLayout)
    ensures ServiceRun(layout, []) && DistinctGrants([]) && Matches([], START.state)
  {
  }

  lemma PendingAreAdmins(steps: seq<Step>)
    requires PendingProven(steps)
    ensures forall i | 0 <= i < |Exec(steps).pending| :: AdminOnly(Exec(steps).pending[i])
  {
    hide Exec;
  }

  lemma TokensAreGood(s: State)
    requires Integrity(s)
    ensures GoodTokens(s)
  {
  }

  lemma StepIssues(layout: VaultPathLayout, jobs: seq<Job>, sys: System, step: Step)
    requires ServiceRun(layout, jobs) && DistinctGrants(jobs) && Matches(jobs, sys.state) && GoodTokens(sys.state)
    requires NamedMint(sys, step) && (RunsHandler(step) ==> step.env.freshId !in sys.state.tokens)
    ensures ServiceRun(layout, jobs + JobOf(sys, step)) && DistinctGrants(jobs + JobOf(sys, step))
  {
    hide ServiceRun, GoodTokens, Written, ServiceUpsert, WellNamedRecord;
    if JobOf(sys, step) == [] {
      assert jobs + [] == jobs;
    } else {
      forall t | t in sys.state.tokens ensures WellNamedRecord(sys.state.tokens[t]) {
        JobsAreWellNamed(layout, jobs, t);
      }
      WrittenIsServiceUpsert(sys.state, sys.pending[step.index], step.env);
      RunSnoc(layout, jobs, JobOf(sys, step)[0]);
      assert JobOf(sys, step) == [JobOf(sys, step)[0]];
    }
  }

  /**
   * In every reachable state a token's entries are inexact if and only if the last write to it stopped between its
   * first and its last store write.
   */
  lemma InexactIff(steps: seq<Step>, t: string)
    requires FreshIds(steps) && NamedRun(steps)
    ensures t in Exec(steps).state.inexact
       <==> match LastUpsert(JobsOf(steps), t)
            case None => false
            case Some(last) => !Complete(last)
  {
    hide ServiceRun, DistinctGrants, Exec, FreshIds, NamedRun;
    RunsAreServiceRuns(VaultPathLayout(""), steps);
    InexactIsLastStopped(JobsOf(steps), t);
  }

  /**
   * In every reachable state a token is missing from its owner's listing if and only if its mint stopped after its
   * first store write and no revoke of it got to its second.
   */
  lemma UnlistedIff(steps: seq<Step>, t: string)
    requires FreshIds(steps) && NamedRun(steps)
    ensures t in Exec(steps).state.unlisted
       <==> t in Exec(steps).state.tokens
            && var jobs := JobsOf(steps);
               forall i | 0 <= i < |jobs| && jobs[i].Upsert? && jobs[i].record.tokenId == t :: jobs[i].done <= 1
  {
    hide ServiceRun, DistinctGrants, Exec, FreshIds, NamedRun, JobsOf;
    RunsAreServiceRuns(VaultPathLayout(""), steps);
    CrashRuns.UnlistedIff(JobsOf(steps), t);
  }

  /**
   * A user's listing shows exactly the user's tokens if and only if each of them has been written to at least as
   * far as its second store write, by its mint or by a revoke.
   */
  lemma ListingExactIff(steps: seq<Step>, sub: string)
    requires FreshIds(steps) && NamedRun(steps)
    ensures
      var s, jobs := Exec(steps).state, JobsOf(steps);
      ListedOf(s.tokens, s.unlisted, sub) == TokensOfUser(s.tokens, sub)
      <==> forall t | t in s.tokens && s.tokens[t].ownerSub == sub ::
             exists i | 0 <= i < |jobs| :: jobs[i].Upsert? && jobs[i].record.tokenId == t && jobs[i].done >= 2
  {
    hide Exec, FreshIds, NamedRun, Integrity, Matches;
    ReachableIntegrity(steps);
    TokensAreGood(Exec(steps).state);
    RunsAreServiceRuns(VaultPathLayout(""), steps);
    ListingExactFor(JobsOf(steps), Exec(steps).state, sub);
  }

  lemma ListingExactFor(jobs: seq<Job>, s: State, sub: string)
    requires Matches(jobs, s) && TokensKeyed(s.tokens)
    ensures ListedOf(s.tokens, s.unlisted, sub) == TokensOfUser(s.tokens, sub)
       <==> forall t | t in s.tokens && s.tokens[t].ownerSub == sub ::
              exists i | 0 <= i < |jobs| :: jobs[i].Upsert? && jobs[i].record.tokenId == t && jobs[i].done >= 2
  {
    ListingMisses(s.tokens, s.unlisted, sub);
    forall t | t in s.tokens
      ensures t !in s.unlisted
         <==> exists i | 0 <= i < |jobs| :: jobs[i].Upsert? && jobs[i].record.tokenId == t && jobs[i].done >= 2
    {
      CrashRuns.UnlistedIff(jobs, t);
    }
  }

  lemma ListingMisses(tokens: Tokens, unlisted: set<string>, sub: string)
    requires TokensKeyed(tokens)
    ensures ListedOf(tokens, unlisted, sub) == TokensOfUser(tokens, sub)
       <==> forall t | t in tokens && tokens[t].ownerSub == sub :: t !in unlisted
  {
    forall t | t in tokens && tokens[t].ownerSub == sub ensures tokens[t] in TokensOfUser(tokens, sub) {
    }
    forall t | t in tokens && tokens[t].ownerSub == sub && tokens[t] in ListedOf(tokens, unlisted, sub)
      ensures t !in unlisted
    {
      var t' :| t' in tokens && t' !in unlisted && tokens[t'] == tokens[t];
      assert t' == t;
    }
  }

  /** Without stops nothing is ever left undone, restarts or not: listings are exact and so are all entries. */
  lemma {:induction false} WithoutStops(steps: seq<Step>)
    requires forall i | 0 <= i < |steps| :: !steps[i].Stop?
    ensures
      var s := Exec(steps).state;
      && s.unlisted == {} && s.inexact == {}
      && forall sub :: ListedOf(s.tokens, s.unlisted, sub) == TokensOfUser(s.tokens, sub)
  {
    if steps != [] {
      var n := |steps| - 1;
      assert forall i | 0 <= i < n :: steps[..n][i] == steps[i];
      WithoutStops(steps[..n]);
      StepLeavesNothing(Exec(steps[..n]), steps[n]);
    }
    hide Next;
  }

  lemma StepLeavesNothing(sys: System, step: Step)
    requires !step.Stop? && sys.state.unlisted == {} && sys.state.inexact == {}
    ensures Next(sys, step).state.unlisted == {} && Next(sys, step).state.inexact == {}
  {
    hide After, GrantAdmins, NormalizeSubjects;
    if Applied(sys, step).Some? {
      CallLeavesNothing(sys.state, Applied(sys, step).value.0, Applied(sys, step).value.1);
    }
  }

  lemma CallLeavesNothing(s: State, c: Call, env: Env)
    requires s.unlisted == {} && s.inexact == {}
    ensures After(s, c, env).unlisted == {} && After(s, c, env).inexact == {}
  {
    hide RegisterSelf, CreateGroup, AddMembership, RemoveMembership, GetToken, Authorize, NewToken;
  }

  lemma {:induction false} JobsGrow(steps: seq<Step>, i: nat)
    requires i <= |steps|
    ensures JobsOf(steps[..i]) <= JobsOf(steps)
  {
    hide JobOf, Exec;
    if i < |steps| {
      assert steps[..|steps| - 1][..i] == steps[..i];
      JobsGrow(steps[..|steps| - 1], i);
    } else {
      assert steps[..i] == steps;
    }
  }

  /**
   * A revoke that stopped between its first and its last write leaves entries that no later step of any run
   * repairs: its token is denied at once, and its index status is wrong for good.
   */
  lemma StoppedRevokeIsForGood(steps: seq<Step>, i: nat, t: string)
    requires FreshIds(steps) && NamedRun(steps) && i < |steps| && steps[i].Stop?
    requires steps[i].index < |Exec(steps[..i]).pending|
    requires
      var sys := Exec(steps[..i]);
      && sys.pending[steps[i].index].RevokeCall? && sys.pending[steps[i].index].tokenId == t
      && t in sys.state.tokens && sys.state.tokens[t].status.Active?
      && 0 < steps[i].done < WriteCount(sys.state.tokens[t])
    ensures t in Exec(steps).state.inexact && t in Exec(steps).state.tokens
    ensures Exec(steps).state.tokens[t].status.Revoked?
  {
    var layout, jobs := VaultPathLayout(""), JobsOf(steps);
    var k := |JobsOf(steps[..i])|;
    StoppedRevokeIsJob(steps, i, t);
    hide ServiceRun, DistinctGrants, Exec, FreshIds, NamedRun, JobsOf;
    RunsAreServiceRuns(layout, steps);
    RevokeIsLast(layout, jobs, k);
    InexactIsLastStopped(jobs, t);
  }

  lemma StoppedRevokeIsJob(steps: seq<Step>, i: nat, t: string)
    requires FreshIds(steps) && i < |steps| && steps[i].Stop? && steps[i].index < |Exec(steps[..i]).pending|
    requires
      var sys := Exec(steps[..i]);
      && sys.pending[steps[i].index].RevokeCall? && sys.pending[steps[i].index].tokenId == t
      && t in sys.state.tokens && sys.state.tokens[t].status.Active?
      && 0 < steps[i].done < WriteCount(sys.state.tokens[t])
    ensures
      var k, jobs := |JobsOf(steps[..i])|, JobsOf(steps);
      && k < |jobs| && jobs[k].Upsert? && jobs[k].record.tokenId == t && jobs[k].record.status.Revoked?
      && 0 < jobs[k].done < WriteCount(jobs[k].record)
  {
    hide Exec, FreshIds;
    var init := steps[..i];
    assert steps[..i + 1][..i] == init;
    JobsGrow(steps, i + 1);
    FreshIdsUpTo(steps, i);
    ReachableIntegrity(init);
    TokensAreGood(Exec(init).state);
    assert JobsOf(steps[..i + 1]) == JobsOf(init) + JobOf(Exec(init), steps[i]);
  }
}
