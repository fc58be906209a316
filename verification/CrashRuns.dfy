/** Whole runs of store writes, with token upserts stopped anywhere and any number of times. */
module CrashRuns {
  import opened Models
  import opened Paths
  import opened Codec
  import opened VaultStore
  import opened TokenStore
  import opened CrashSafety

  /** One thing that happens to the store: an upsert stopped after `done` writes, or a write of another repository. */
  datatype Job = Upsert(record: TokenRecord, done: nat) | Other(w: Write)

  function StoreAfter(layout: VaultPathLayout, jobs: seq<Job>): Secrets {
    if jobs == [] then map[]
    else
      var before := StoreAfter(layout, jobs[..|jobs| - 1]);
      match jobs[|jobs| - 1]
      case Upsert(record, done) =>
        var writes := ServiceWrites(layout, record);
        Replay(before, if done <= |writes| then writes[..done] else writes)
      case Other(w) => Apply(before, w)
  }

  function RecordsAfter(jobs: seq<Job>): Tokens {
    if jobs == [] then map[]
    else
      var before := RecordsAfter(jobs[..|jobs| - 1]);
      match jobs[|jobs| - 1]
      case Upsert(record, done) => TokensAfter(before, record, done)
      case Other(_) => before
  }

  function UnlistedFrom(jobs: seq<Job>): set<string> {
    if jobs == [] then {}
    else
      var init := jobs[..|jobs| - 1];
      match jobs[|jobs| - 1]
      case Upsert(record, done) => UnlistedAfter(RecordsAfter(init), UnlistedFrom(init), record.tokenId, done)
      case Other(_) => UnlistedFrom(init)
  }

  function InexactFrom(jobs: seq<Job>): set<string> {
    if jobs == [] then {}
    else
      var init := jobs[..|jobs| - 1];
      match jobs[|jobs| - 1]
      case Upsert(record, done) => InexactAfter(InexactFrom(init), record.tokenId, WriteCount(record), done)
      case Other(_) => InexactFrom(init)
  }

  /** A job a service may issue in a store of `tokens`; the other writes keep off the token paths. */
  ghost predicate ServiceJob(layout: VaultPathLayout, tokens: Tokens, job: Job) {
    match job
    case Upsert(record, _) => ServiceUpsert(tokens, record)
    case Other(w) => !TokenFamily(layout.Locate(w.path))
  }

  ghost predicate ServiceRun(layout: VaultPathLayout, jobs: seq<Job>) {
    forall i | 0 <= i < |jobs| :: ServiceJob(layout, RecordsAfter(jobs[..i]), jobs[i])
  }

  lemma RunPrefix(layout: VaultPathLayout, jobs: seq<Job>, n: nat)
    requires ServiceRun(layout, jobs) && n <= |jobs|
    ensures ServiceRun(layout, jobs[..n])
    ensures n < |jobs| ==> ServiceJob(layout, RecordsAfter(jobs[..n]), jobs[n])
  {
    assert forall i | 0 <= i < n :: jobs[..n][i] == jobs[i] && jobs[..n][..i] == jobs[..i];
  }

  lemma RunSnoc(layout: VaultPathLayout, jobs: seq<Job>, job: Job)
    requires ServiceRun(layout, jobs) && ServiceJob(layout, RecordsAfter(jobs), job)
    ensures ServiceRun(layout, jobs + [job])
    ensures (jobs + [job])[..|jobs|] == jobs
  {
    assert (jobs + [job])[..|jobs|] == jobs;
    assert forall i | 0 <= i < |jobs| :: (jobs + [job])[i] == jobs[i] && (jobs + [job])[..i] == jobs[..i];
  }

  /** The store, the records, and what stops have left undone, along every service run. */
  lemma {:induction false} RunHolds(layout: VaultPathLayout, jobs: seq<Job>)
    requires ServiceRun(layout, jobs)
    ensures TokensHeld(layout, StoreAfter(layout, jobs), RecordsAfter(jobs), UnlistedFrom(jobs), InexactFrom(jobs))
  {
    hide TokensHeld;
    if jobs == [] {
      EmptyHolds(layout);
    } else {
      var n := |jobs| - 1;
      var init := jobs[..n];
      RunPrefix(layout, jobs, n);
      RunHolds(layout, init);
      match jobs[n]
      case Upsert(record, done) =>
        var writes := ServiceWrites(layout, record);
        var k := if done <= |writes| then done else |writes|;
        ServiceWriteCount(layout, record);
        StopHolds(layout, StoreAfter(layout, init), RecordsAfter(init), UnlistedFrom(init), InexactFrom(init), record,
                  k);
        ReplayPrefix(StoreAfter(layout, init), writes, k);
      case Other(w) =>
        OtherWriteHolds(layout, StoreAfter(layout, init), RecordsAfter(init), UnlistedFrom(init), InexactFrom(init), w);
    }
  }

  lemma EmptyHolds(layout: VaultPathLayout)
    ensures TokensHeld(layout, map[], map[], {}, {})
  {
    HeldExactly(layout, map[], map[]);
  }

  lemma OtherWriteHolds(layout: VaultPathLayout, secrets: Secrets, tokens: Tokens, unlisted: set<string>,
                        inexact: set<string>, w: Write)
    requires TokensHeld(layout, secrets, tokens, unlisted, inexact) && !TokenFamily(layout.Locate(w.path))
    ensures TokensHeld(layout, Apply(secrets, w), tokens, unlisted, inexact)
  {
    hide TokensHeld;
    var after := Apply(secrets, w);
    layout.PathsLocated();
    forall t ensures Lookup(after, layout.TokenPath(t)) == Lookup(secrets, layout.TokenPath(t)) {
      layout.LocateTokenPath(t);
    }
    HeldCarries(layout, secrets, after, tokens, unlisted, inexact);
  }

  /**
   * However often token writes are cut short, in every later state of the run the canonical records are
   * exactly the upserts that got past their first write, and no index entry dangles.
   */
  lemma CrashSafeRun(layout: VaultPathLayout, jobs: seq<Job>)
    requires ServiceRun(layout, jobs)
    ensures CrashConsistent(layout, StoreAfter(layout, jobs), RecordsAfter(jobs))
  {
    RunHolds(layout, jobs);
  }

  /** After any such run a read gives the last record that got written, and never fails to decode. */
  lemma GetAfterCrashes(layout: VaultPathLayout, jobs: seq<Job>, t: string, now: Time)
    requires ServiceRun(layout, jobs)
    ensures
      var stored := Lookup(StoreAfter(layout, jobs), layout.TokenPath(t));
      if t in RecordsAfter(jobs)
      then stored.Some? && DecodeToken(stored.value, now) == Ok(RecordsAfter(jobs)[t])
      else stored == None
  {
    CrashSafeRun(layout, jobs);
    if t in RecordsAfter(jobs) {
      TokenRoundTrip(RecordsAfter(jobs)[t], now);
    }
  }

  // --- when the indexes are exact

  /** The last upsert of a token that made any write at all. */
  function LastUpsert(jobs: seq<Job>, t: string): Option<Job> {
    if jobs == [] then None
    else
      var last := jobs[|jobs| - 1];
      if last.Upsert? && last.record.tokenId == t && last.done > 0 then Some(last)
      else LastUpsert(jobs[..|jobs| - 1], t)
  }

  predicate Complete(job: Job) {
    job.Upsert? && job.done >= WriteCount(job.record)
  }

  lemma {:induction false} LastUpsertIndex(jobs: seq<Job>, t: string) returns (k: nat)
    requires LastUpsert(jobs, t).Some?
    ensures k < |jobs| && LastUpsert(jobs, t) == Some(jobs[k])
    ensures jobs[k].Upsert? && jobs[k].record.tokenId == t && jobs[k].done > 0
    ensures forall j | k < j < |jobs| && jobs[j].Upsert? && jobs[j].record.tokenId == t :: jobs[j].done == 0
  {
    var last := jobs[|jobs| - 1];
    if last.Upsert? && last.record.tokenId == t && last.done > 0 {
      k := |jobs| - 1;
    } else {
      k := LastUpsertIndex(jobs[..|jobs| - 1], t);
    }
  }

  lemma {:induction false} InexactIsLastStopped(jobs: seq<Job>, t: string)
    ensures t in InexactFrom(jobs) <==> LastUpsert(jobs, t).Some? && !Complete(LastUpsert(jobs, t).value)
  {
    if jobs != [] {
      InexactIsLastStopped(jobs[..|jobs| - 1], t);
    }
  }

  ghost predicate DistinctGrants(jobs: seq<Job>) {
    forall i | 0 <= i < |jobs| && jobs[i].Upsert? :: NoDuplicates(jobs[i].record.grantedGroups)
  }

  lemma {:induction false} RecordsComeFromJobs(jobs: seq<Job>, t: string)
    requires t in RecordsAfter(jobs)
    ensures exists i | 0 <= i < |jobs| :: jobs[i].Upsert? && jobs[i].record == RecordsAfter(jobs)[t]
  {
    var n := |jobs| - 1;
    if jobs[n].Upsert? && jobs[n].done > 0 && jobs[n].record.tokenId == t {
      assert jobs[n].record == RecordsAfter(jobs)[t];
    } else {
      RecordsComeFromJobs(jobs[..n], t);
      var i :| 0 <= i < n && jobs[..n][i].Upsert? && jobs[..n][i].record == RecordsAfter(jobs[..n])[t];
      assert jobs[i] == jobs[..n][i];
    }
  }

  /**
   * Along every service run, stops included, a token's index entries say exactly what its record says if and only
   * if the last upsert of it that wrote anything wrote everything.
   */
  lemma EntriesExactIff(layout: VaultPathLayout, jobs: seq<Job>, t: string)
    requires ServiceRun(layout, jobs) && DistinctGrants(jobs)
    ensures EntriesExact(layout, StoreAfter(layout, jobs), RecordsAfter(jobs), t)
       <==> match LastUpsert(jobs, t)
            case None => true
            case Some(last) => last.Upsert? && last.done >= |ServiceWrites(layout, last.record)|
  {
    hide EntriesExact, CrashConsistent;
    RunHolds(layout, jobs);
    InexactIsLastStopped(jobs, t);
    if LastUpsert(jobs, t).Some? {
      var k := LastUpsertIndex(jobs, t);
      ServiceWriteCount(layout, jobs[k].record);
    }
    if t in InexactFrom(jobs) {
      RecordsComeFromJobs(jobs, t);
    }
  }

  lemma {:induction false} RecordsGrow(jobs: seq<Job>, i: nat, t: string)
    requires i < |jobs| && jobs[i].Upsert? && jobs[i].record.tokenId == t && jobs[i].done > 0
    ensures t in RecordsAfter(jobs)
  {
    var n := |jobs| - 1;
    if i < n {
      RecordsGrow(jobs[..n], i, t);
    }
  }

  /** No service upsert follows a revoke, so the revoke stays the last one. */
  lemma {:induction false} RevokeIsLast(layout: VaultPathLayout, jobs: seq<Job>, i: nat)
    requires ServiceRun(layout, jobs) && i < |jobs|
    requires jobs[i].Upsert? && jobs[i].done > 0 && jobs[i].record.status.Revoked?
    ensures
      var record := jobs[i].record;
      && record.tokenId in RecordsAfter(jobs) && RecordsAfter(jobs)[record.tokenId] == record
      && LastUpsert(jobs, record.tokenId) == Some(jobs[i])
  {
    hide ServiceRun, WellNamedRecord;
    var n := |jobs| - 1;
    if i < n {
      RunPrefix(layout, jobs, n);
      RevokeIsLast(layout, jobs[..n], i);
    }
  }

  /** Index entries that a stopped revoke left behind are wrong for good. */
  lemma StoppedRevokeNeverHeals(layout: VaultPathLayout, jobs: seq<Job>, i: nat)
    requires ServiceRun(layout, jobs) && DistinctGrants(jobs) && i < |jobs|
    requires jobs[i].Upsert? && jobs[i].record.status.Revoked?
    requires 0 < jobs[i].done < |ServiceWrites(layout, jobs[i].record)|
    ensures !EntriesExact(layout, StoreAfter(layout, jobs), RecordsAfter(jobs), jobs[i].record.tokenId)
  {
    RevokeIsLast(layout, jobs, i);
    EntriesExactIff(layout, jobs, jobs[i].record.tokenId);
  }

  /** Those that a stopped mint left behind are repaired exactly by a completed revoke of the token. */
  lemma StoppedMintHealsIff(layout: VaultPathLayout, jobs: seq<Job>, i: nat)
    requires ServiceRun(layout, jobs) && DistinctGrants(jobs) && i < |jobs|
    requires jobs[i].Upsert? && jobs[i].record.status.Active?
    requires 0 < jobs[i].done < |ServiceWrites(layout, jobs[i].record)|
    ensures EntriesExact(layout, StoreAfter(layout, jobs), RecordsAfter(jobs), jobs[i].record.tokenId)
       <==> exists j | i < j < |jobs| :: Complete(jobs[j]) && jobs[j].record.tokenId == jobs[i].record.tokenId
                                         && jobs[j].record.status.Revoked?
  {
    hide EntriesExact;
    var t := jobs[i].record.tokenId;
    EntriesExactIff(layout, jobs, t);
    ServiceWriteCount(layout, jobs[i].record);
    if k :| i < k < |jobs| && Complete(jobs[k]) && jobs[k].record.tokenId == t && jobs[k].record.status.Revoked? {
      RevokeIsLast(layout, jobs, k);
      ServiceWriteCount(layout, jobs[k].record);
    } else {
      LastUpsertExists(jobs, i, t);
      var k := LastUpsertIndex(jobs, t);
      ServiceWriteCount(layout, jobs[k].record);
      if k > i {
        LaterUpsertRevokes(layout, jobs, i, k);
      }
    }
  }

  lemma {:induction false} LastUpsertExists(jobs: seq<Job>, i: nat, t: string)
    requires i < |jobs| && jobs[i].Upsert? && jobs[i].record.tokenId == t && jobs[i].done > 0
    ensures LastUpsert(jobs, t).Some?
  {
    if i < |jobs| - 1 {
      LastUpsertExists(jobs[..|jobs| - 1], i, t);
    }
  }

  /** Any later service upsert of a token that is there is its revocation. */
  lemma LaterUpsertRevokes(layout: VaultPathLayout, jobs: seq<Job>, i: nat, k: nat)
    requires ServiceRun(layout, jobs) && i < k < |jobs|
    requires jobs[i].Upsert? && jobs[i].done > 0 && jobs[k].Upsert? && jobs[k].record.tokenId == jobs[i].record.tokenId
    ensures jobs[k].record.status.Revoked?
  {
    RunPrefix(layout, jobs, k);
    RecordsGrow(jobs[..k], i, jobs[i].record.tokenId);
  }

  /** A token for a group, minted in full and then revoked by a process that stops after the canonical write. */
  lemma StoppedRevokeExample()
    ensures
      var layout := VaultPathLayout("gofr/sec");
      var minted :=
          TokenRecord("t", "ann", ["readers"], Active, 0, Some(3_600_000_000), Some("root"), None, false, None);
      var revoked := minted.(status := Revoked, revokedAt := Some(60_000_000));
      var jobs := [Upsert(minted, 3), Upsert(revoked, 1)];
      ServiceRun(layout, jobs) && !EntriesExact(layout, StoreAfter(layout, jobs), RecordsAfter(jobs), "t")
  {
    var layout := VaultPathLayout("gofr/sec");
    var minted := TokenRecord("t", "ann", ["readers"], Active, 0, Some(3_600_000_000), Some("root"), None, false, None);
    var revoked := minted.(status := Revoked, revokedAt := Some(60_000_000));
    var jobs := [Upsert(minted, 3), Upsert(revoked, 1)];
    assert jobs[..1][..0] == [] && jobs[..0] == [];
    assert RecordsAfter(jobs[..1]) == map["t" := minted];
    assert ServiceJob(layout, RecordsAfter(jobs[..0]), jobs[0]);
    assert ServiceJob(layout, RecordsAfter(jobs[..1]), jobs[1]);
    ServiceWriteCount(layout, revoked);
    StoppedRevokeNeverHeals(layout, jobs, 1);
  }

  // --- when a token is listed

  /**
   * A token is missing from its owner's listing if and only if its record is there and no upsert of it ever got to
   * its second write.
   */
  lemma {:induction false} UnlistedIff(jobs: seq<Job>, t: string)
    ensures t in UnlistedFrom(jobs)
       <==> t in RecordsAfter(jobs)
            && forall i | 0 <= i < |jobs| && jobs[i].Upsert? && jobs[i].record.tokenId == t :: jobs[i].done <= 1
  {
    if jobs != [] {
      var n := |jobs| - 1;
      var init := jobs[..n];
      UnlistedIff(init, t);
      assert forall i | 0 <= i < n :: init[i] == jobs[i];
      if t !in RecordsAfter(init) {
        forall i | 0 <= i < n && jobs[i].Upsert? && jobs[i].record.tokenId == t ensures jobs[i].done == 0 {
          if jobs[i].done > 0 {
            RecordsGrow(init, i, t);
          }
        }
      }
    }
  }

  /** In the store: the owner's entry for a token is there if and only if some upsert of it made its second write. */
  lemma ListedIff(layout: VaultPathLayout, jobs: seq<Job>, t: string)
    requires ServiceRun(layout, jobs) && t in RecordsAfter(jobs)
    ensures layout.UserTokenPath(RecordsAfter(jobs)[t].ownerSub, t) in StoreAfter(layout, jobs)
       <==> exists i | 0 <= i < |jobs| :: jobs[i].Upsert? && jobs[i].record.tokenId == t && jobs[i].done >= 2
  {
    hide CrashConsistent, InexactKnown, StoreAfter;
    RunHolds(layout, jobs);
    UnlistedIff(jobs, t);
  }

  /** A mint stopped after its first write hides the token from its owner; a revoke that gets to its second shows it. */
  lemma HalfMintedExample()
    ensures
      var layout := VaultPathLayout("gofr/sec");
      var minted :=
          TokenRecord("t", "ann", ["readers"], Active, 0, Some(3_600_000_000), Some("root"), None, false, None);
      var revoked := minted.(status := Revoked, revokedAt := Some(60_000_000));
      var stopped, shown := [Upsert(minted, 1)], [Upsert(minted, 1), Upsert(revoked, 2)];
      && ServiceRun(layout, shown)
      && "t" in RecordsAfter(stopped) && layout.UserTokenPath("ann", "t") !in StoreAfter(layout, stopped)
      && layout.UserTokenPath("ann", "t") in StoreAfter(layout, shown)
  {
    hide StoreAfter, ServiceRun, RecordsAfter, ServiceUpsert, VaultPathLayout.UserTokenPath;
    var layout := VaultPathLayout("gofr/sec");
    var minted :=
        TokenRecord("t", "ann", ["readers"], Active, 0, Some(3_600_000_000), Some("root"), None, false, None);
    var revoked := minted.(status := Revoked, revokedAt := Some(60_000_000));
    MintThenRevoke(layout, minted, revoked);
    var stopped, shown := [Upsert(minted, 1)], [Upsert(minted, 1), Upsert(revoked, 2)];
    ListedIff(layout, stopped, "t");
    assert shown[1].Upsert? && shown[1].record.tokenId == "t" && shown[1].done >= 2;
    ListedIff(layout, shown, "t");
  }

  lemma MintThenRevoke(layout: VaultPathLayout, minted: TokenRecord, revoked: TokenRecord)
    requires WellNamedRecord(minted) && minted.status.Active?
    requires revoked == minted.(status := Revoked, revokedAt := revoked.revokedAt)
    ensures
      var stopped, shown := [Upsert(minted, 1)], [Upsert(minted, 1), Upsert(revoked, 2)];
      && ServiceRun(layout, stopped) && ServiceRun(layout, shown)
      && RecordsAfter(stopped) == map[minted.tokenId := minted]
      && RecordsAfter(shown) == map[minted.tokenId := revoked]
  {
    var stopped, shown := [Upsert(minted, 1)], [Upsert(minted, 1), Upsert(revoked, 2)];
    assert shown[..1] == stopped && stopped[..0] == [] && shown[..0] == [];
    assert RecordsAfter(stopped) == map[minted.tokenId := minted];
    assert RecordsAfter(shown) == map[minted.tokenId := revoked];
  }
}
