/** Stopped upserts of any kind, changes of owner and groups included, and what trying them again repairs. */
module Retry {
  import opened Models
  import opened Paths
  import opened Codec
  import opened VaultStore
  import opened TokenStore
  import opened CrashSafety

  /** The deletes come right after the canonical write. */
  function Deletes(layout: VaultPathLayout, previous: Option<TokenRecord>, record: TokenRecord,
                   stale: seq<string>): seq<Write>
  {
    OwnerDeletes(layout, previous, record) + GroupDeletes(layout, record, stale)
  }

  /** The index entries come last. */
  function Entries(layout: VaultPathLayout, record: TokenRecord): seq<Write> {
    [Put(layout.UserTokenPath(record.ownerSub, record.tokenId), UserEntry(record))]
    + GroupPuts(layout, record, record.grantedGroups)
  }

  function Canonical(layout: VaultPathLayout, record: TokenRecord): Write {
    Put(layout.TokenPath(record.tokenId), EncodeToken(record))
  }

  lemma UpsertParts(layout: VaultPathLayout, previous: Option<TokenRecord>, record: TokenRecord, stale: seq<string>)
    ensures UpsertWrites(layout, previous, record, stale) ==
            [Canonical(layout, record)] + Deletes(layout, previous, record, stale) + Entries(layout, record)
  {
  }

  /** The place each delete clears is an index entry of the record that is replaced, and of no part of the new one. */
  lemma DeletedPlace(layout: VaultPathLayout, previous: Option<TokenRecord>, record: TokenRecord, stale: seq<string>,
                     i: nat)
    requires UpsertInputs(previous, record, stale) && i < |Deletes(layout, previous, record, stale)|
    ensures previous.Some?
    ensures
      var w, owner := Deletes(layout, previous, record, stale)[i], |OwnerDeletes(layout, previous, record)|;
      && w.Delete?
      && layout.Locate(w.path) == Some(if i < owner then UserTokenEntry(previous.value.ownerSub, record.tokenId)
                                       else GroupTokenEntry(stale[i - owner], record.tokenId))
      && (i < owner ==> w.path == layout.UserTokenPath(previous.value.ownerSub, record.tokenId)
                        && previous.value.ownerSub != record.ownerSub)
      && (i >= owner ==> w.path == layout.GroupTokenPath(stale[i - owner], record.tokenId)
                         && stale[i - owner] in previous.value.grantedGroups
                             && stale[i - owner] !in record.grantedGroups)
  {
    var owner := |OwnerDeletes(layout, previous, record)|;
    if i < owner {
      layout.LocateUserTokenPath(previous.value.ownerSub, record.tokenId);
    } else {
      var g := stale[i - owner];
      assert g in stale;
      assert g in StaleGroups(previous, record);
      layout.LocateGroupTokenPath(g, record.tokenId);
    }
  }

  lemma EntryPlace(layout: VaultPathLayout, record: TokenRecord, i: nat)
    requires WellNamedRecord(record) && i < |Entries(layout, record)|
    ensures
      var w := Entries(layout, record)[i];
      w.Put? && layout.Locate(w.path) ==
        if i == 0 then Some(UserTokenEntry(record.ownerSub, record.tokenId))
        else Some(GroupTokenEntry(record.grantedGroups[i - 1], record.tokenId))
  {
    if i == 0 {
      layout.LocateUserTokenPath(record.ownerSub, record.tokenId);
    } else {
      assert record.grantedGroups[i - 1] in record.grantedGroups;
      layout.LocateGroupTokenPath(record.grantedGroups[i - 1], record.tokenId);
    }
  }

  /** No write of an upsert but the first is on a canonical path. */
  lemma OnlyFirstIsCanonical(layout: VaultPathLayout, previous: Option<TokenRecord>, record: TokenRecord,
                             stale: seq<string>, i: nat, t: string)
    requires UpsertInputs(previous, record, stale) && 0 < i < |UpsertWrites(layout, previous, record, stale)|
    ensures UpsertWrites(layout, previous, record, stale)[i].path != layout.TokenPath(t)
  {
    UpsertParts(layout, previous, record, stale);
    layout.LocateTokenPath(t);
    var n := |Deletes(layout, previous, record, stale)|;
    if i <= n {
      DeletedPlace(layout, previous, record, stale, i - 1);
    } else {
      EntryPlace(layout, record, i - 1 - n);
    }
  }

  /**
   * Whatever an upsert changes, and wherever it stops, the canonical records are the old ones or the old ones
   * with the new record: the first write decides.
   */
  lemma AnyStopKeepsRecords(layout: VaultPathLayout, secrets: Secrets, tokens: Tokens, record: TokenRecord,
                            stale: seq<string>, k: nat)
    requires RecordsStored(layout, secrets, tokens)
    requires UpsertInputs(Lookup(tokens, record.tokenId), record, stale)
    requires k <= |UpsertWrites(layout, Lookup(tokens, record.tokenId), record, stale)|
    ensures RecordsStored(layout,
                          Replay(secrets, UpsertWrites(layout, Lookup(tokens, record.tokenId), record, stale)[..k]),
                          TokensAfter(tokens, record, k))
  {
    var previous := Lookup(tokens, record.tokenId);
    var writes := UpsertWrites(layout, previous, record, stale);
    if k == 0 {
      assert writes[..0] == [];
    } else {
      forall t ensures Lookup(Replay(secrets, writes[..k]), layout.TokenPath(t)) ==
          if t == record.tokenId then Some(EncodeToken(record)) else Lookup(secrets, layout.TokenPath(t))
      {
        layout.LocateTokenPath(t);
        layout.LocateTokenPath(record.tokenId);
        forall i | 0 < i < k ensures writes[i].path != layout.TokenPath(t) {
          OnlyFirstIsCanonical(layout, previous, record, stale, i, t);
        }
        ReplayLookup(secrets, writes[..k], layout.TokenPath(t));
        LastIsFirst(writes[..k], layout.TokenPath(t));
      }
      RecordReplaced(layout, secrets, Replay(secrets, writes[..k]), tokens, record);
    }
  }

  lemma {:induction false} LastIsFirst(writes: seq<Write>, path: string)
    requires writes != [] && forall i | 0 < i < |writes| :: writes[i].path != path
    ensures LastOn(writes, path) == if writes[0].path == path then Some(writes[0]) else None
  {
    if |writes| > 1 {
      LastIsFirst(writes[..|writes| - 1], path);
    }
  }

  /** A second try after the first write finds the new record in place, so it deletes nothing. */
  lemma RetryDeletesNothing(layout: VaultPathLayout, record: TokenRecord, stale: seq<string>)
    requires Lists(stale, StaleGroups(Some(record), record))
    ensures stale == []
    ensures UpsertWrites(layout, Some(record), record, stale) == [Canonical(layout, record)] + Entries(layout, record)
  {
    assert StaleGroups(Some(record), record) == {};
    ListingSize(stale, {});
    UpsertParts(layout, Some(record), record, stale);
    assert Deletes(layout, Some(record), record, stale) == [];
  }

  /** The three parts of an upsert as far as paths go: no two of them meet, and no path is deleted twice. */
  ghost predicate Apart(first: Write, dels: seq<Write>, ents: seq<Write>) {
    && (forall d | d in dels :: d.Delete? && d.path != first.path)
    && (forall d, w | d in dels && w in ents :: w.path != d.path)
    && (forall i, j | 0 <= i < j < |dels| :: dels[i].path != dels[j].path)
  }

  /** A delete the first `k` writes have not come to. */
  predicate Pending(dels: seq<Write>, k: nat, path: string) {
    exists i :: 0 <= i < |dels| && k - 1 <= i && dels[i].path == path
  }

  /**
   * Stopping after `k` writes and writing the first and the last part again ends where writing all three parts once
   * ends, except that the pending deletes are never made.
   */
  lemma RetryAt(secrets: Secrets, first: Write, dels: seq<Write>, ents: seq<Write>, k: nat, path: string)
    requires Apart(first, dels, ents) && 0 < k <= 1 + |dels| + |ents|
    ensures
      var writes := [first] + dels + ents;
      Lookup(Replay(Replay(secrets, writes[..k]), [first] + ents), path) ==
      if Pending(dels, k, path) then Lookup(secrets, path) else Lookup(Replay(secrets, writes), path)
    ensures Pending(dels, k, path) ==> Lookup(Replay(secrets, [first] + dels + ents), path) == None
  {
    hide Replay, LastOn, Pending;
    var writes := [first] + dels + ents;
    var d := if k - 1 <= |dels| then k - 1 else |dels|;
    var done := ents[..k - 1 - d];
    assert writes[..k] == [first] + dels[..d] + done;
    ReplayLookup(secrets, writes, path);
    ReplayLookup(secrets, writes[..k], path);
    ReplayLookup(Replay(secrets, writes[..k]), [first] + ents, path);
    LastOnConcat([first] + dels, ents, path);
    LastOnConcat([first], dels, path);
    LastOnConcat([first] + dels[..d], done, path);
    LastOnConcat([first], dels[..d], path);
    LastOnConcat([first], ents, path);
    LastOnMember([first], path);
    LastOnMember(ents, path);
    LastOnMember(done, path);
    LastOfDeletes(first, dels, ents, k, d, path);
  }

  lemma LastOfDeletes(first: Write, dels: seq<Write>, ents: seq<Write>, k: nat, d: nat, path: string)
    requires Apart(first, dels, ents) && 0 < k && d == if k - 1 <= |dels| then k - 1 else |dels|
    ensures LastOn(dels, path).Some? ==> LastOn(dels, path).value in dels && LastOn(dels, path).value.path == path
    ensures LastOn(dels, path).Some? <==> LastOn(dels[..d], path).Some? || Pending(dels, k, path)
    ensures Pending(dels, k, path) ==> LastOn(dels[..d], path).None?
    ensures LastOn(dels[..d], path).Some? ==>
              LastOn(dels[..d], path).value in dels && LastOn(dels[..d], path).value.path == path
  {
    hide LastOn;
    LastOnMember(dels, path);
    LastOnMember(dels[..d], path);
    if LastOn(dels, path).Some? {
      var i :| 0 <= i < |dels| && dels[i] == LastOn(dels, path).value;
      if i < d {
        assert dels[..d][i] in dels[..d];
      }
    }
    if Pending(dels, k, path) {
      var i :| 0 <= i < |dels| && k - 1 <= i && dels[i].path == path;
      assert dels[i] in dels;
      forall w | w in dels[..d] ensures w.path != path {
        var j :| 0 <= j < d && dels[j] == w;
      }
    }
  }

  lemma DeletesMissCanonical(layout: VaultPathLayout, previous: Option<TokenRecord>, record: TokenRecord,
                             stale: seq<string>)
    requires UpsertInputs(previous, record, stale)
    ensures forall w | w in Deletes(layout, previous, record, stale) :: w.path != Canonical(layout, record).path
  {
  }

  /** What one delete clears, the new record's entries do not write. */
  lemma EntriesMissDeletes(layout: VaultPathLayout, previous: Option<TokenRecord>, record: TokenRecord,
                           stale: seq<string>, i: nat)
    requires UpsertInputs(previous, record, stale) && i < |Deletes(layout, previous, record, stale)|
    ensures forall w | w in Entries(layout, record) :: w.path != Deletes(layout, previous, record, stale)[i].path
  {
    DeletedPlace(layout, previous, record, stale, i);
    forall w | w in Entries(layout, record) ensures w.path != Deletes(layout, previous, record, stale)[i].path {
      var j :| 0 <= j < |Entries(layout, record)| && Entries(layout, record)[j] == w;
      EntryPlace(layout, record, j);
      assert j > 0 ==> record.grantedGroups[j - 1] in record.grantedGroups;
    }
  }

  lemma DeletesDiffer(layout: VaultPathLayout, previous: Option<TokenRecord>, record: TokenRecord, stale: seq<string>,
                      i: nat, j: nat)
    requires UpsertInputs(previous, record, stale) && i < j < |Deletes(layout, previous, record, stale)|
    ensures Deletes(layout, previous, record, stale)[i].path != Deletes(layout, previous, record, stale)[j].path
  {
    DeletedPlace(layout, previous, record, stale, i);
    DeletedPlace(layout, previous, record, stale, j);
  }

  lemma PartsApart(layout: VaultPathLayout, previous: Option<TokenRecord>, record: TokenRecord, stale: seq<string>)
    requires UpsertInputs(previous, record, stale)
    ensures Apart(Canonical(layout, record), Deletes(layout, previous, record, stale), Entries(layout, record))
  {
    hide UpsertInputs, Entries, Canonical, Deletes;
    var dels := Deletes(layout, previous, record, stale);
    DeletesMissCanonical(layout, previous, record, stale);
    forall i | 0 <= i < |dels|
      ensures dels[i].Delete? && forall w | w in Entries(layout, record) :: w.path != dels[i].path
    {
      DeletedPlace(layout, previous, record, stale, i);
      EntriesMissDeletes(layout, previous, record, stale, i);
    }
    forall i, j | 0 <= i < j < |dels| ensures dels[i].path != dels[j].path {
      DeletesDiffer(layout, previous, record, stale, i, j);
    }
  }

  /** What a delete clears is no entry of the new record. */
  lemma DeletedIsNoEntry(layout: VaultPathLayout, secrets: Secrets, tokens: Tokens, previous: Option<TokenRecord>,
                         record: TokenRecord, stale: seq<string>, i: nat)
    requires UpsertInputs(previous, record, stale) && i < |Deletes(layout, previous, record, stale)|
    requires EntriesExact(layout, secrets, tokens[record.tokenId := record], record.tokenId)
    ensures Deletes(layout, previous, record, stale)[i].path !in secrets
  {
    var path, owner := Deletes(layout, previous, record, stale)[i].path, |OwnerDeletes(layout, previous, record)|;
    DeletedPlace(layout, previous, record, stale, i);
    if i < owner {
      assert Lookup(secrets, layout.UserTokenPath(previous.value.ownerSub, record.tokenId)) == None;
    } else {
      assert stale[i - owner] in stale;
      assert Lookup(secrets, layout.GroupTokenPath(stale[i - owner], record.tokenId)) == None;
    }
  }

  lemma PreviousEntryStored(layout: VaultPathLayout, secrets: Secrets, tokens: Tokens, record: TokenRecord,
                            stale: seq<string>, i: nat)
    requires TokensStored(layout, secrets, tokens)
    requires UpsertInputs(Lookup(tokens, record.tokenId), record, stale)
    requires i < |Deletes(layout, Lookup(tokens, record.tokenId), record, stale)|
    ensures Deletes(layout, Lookup(tokens, record.tokenId), record, stale)[i].path in secrets
  {
    var previous := Lookup(tokens, record.tokenId);
    var owner := |OwnerDeletes(layout, previous, record)|;
    DeletedPlace(layout, previous, record, stale, i);
    if i < owner {
      var u := previous.value.ownerSub;
      assert Lookup(secrets, layout.UserTokenPath(u, record.tokenId)) == UserEntryFor(tokens, u, record.tokenId);
    } else {
      var g := stale[i - owner];
      assert Lookup(secrets, layout.GroupTokenPath(g, record.tokenId)) == GroupEntryFor(tokens, g, record.tokenId);
    }
  }

  lemma SameSecrets(a: Secrets, b: Secrets)
    requires forall path :: Lookup(a, path) == Lookup(b, path)
    ensures a == b
  {
    forall path ensures path in a <==> path in b {
      assert Lookup(a, path) == Lookup(b, path);
    }
    forall path | path in a ensures a[path] == b[path] {
      assert Lookup(a, path) == Lookup(b, path);
    }
  }

  /** With nothing behind the pending deletes, the second try ends exactly where an undisturbed upsert ends. */
  lemma RetryIsUpsert(layout: VaultPathLayout, secrets: Secrets, previous: Option<TokenRecord>, record: TokenRecord,
                      stale: seq<string>, k: nat)
    requires UpsertInputs(previous, record, stale)
    requires 0 < k <= |UpsertWrites(layout, previous, record, stale)|
    requires NothingPending(secrets, Deletes(layout, previous, record, stale), k)
    ensures Replay(Replay(secrets, UpsertWrites(layout, previous, record, stale)[..k]),
                   [Canonical(layout, record)] + Entries(layout, record))
         == Replay(secrets, UpsertWrites(layout, previous, record, stale))
  {
    hide UpsertWrites, Deletes, Entries, Canonical, UpsertInputs, Apart, Replay;
    var writes := UpsertWrites(layout, previous, record, stale);
    var first, dels, ents :=
        Canonical(layout, record), Deletes(layout, previous, record, stale), Entries(layout, record);
    UpsertParts(layout, previous, record, stale);
    PartsApart(layout, previous, record, stale);
    var after := Replay(Replay(secrets, writes[..k]), [first] + ents);
    forall path ensures Lookup(after, path) == Lookup(Replay(secrets, writes), path) {
      RetryAt(secrets, first, dels, ents, k, path);
    }
    SameSecrets(after, Replay(secrets, writes));
  }

  /** An entry behind a pending delete outlives the second try. */
  lemma PendingOutlives(layout: VaultPathLayout, secrets: Secrets, previous: Option<TokenRecord>, record: TokenRecord,
                        stale: seq<string>, k: nat, i: nat)
    requires UpsertInputs(previous, record, stale)
    requires 0 < k <= |UpsertWrites(layout, previous, record, stale)|
    requires k - 1 <= i < |Deletes(layout, previous, record, stale)|
    requires Deletes(layout, previous, record, stale)[i].path in secrets
    ensures Deletes(layout, previous, record, stale)[i].path in
              Replay(Replay(secrets, UpsertWrites(layout, previous, record, stale)[..k]),
                     [Canonical(layout, record)] + Entries(layout, record))
  {
    hide UpsertWrites, Deletes, Entries, Canonical, UpsertInputs, Apart, Replay;
    var dels := Deletes(layout, previous, record, stale);
    UpsertParts(layout, previous, record, stale);
    PartsApart(layout, previous, record, stale);
    assert Pending(dels, k, dels[i].path);
    RetryAt(secrets, Canonical(layout, record), dels, Entries(layout, record), k, dels[i].path);
  }

  lemma RetryInputs(tokens: Tokens, record: TokenRecord, stale: seq<string>, again: seq<string>)
    requires UpsertInputs(Lookup(tokens, record.tokenId), record, stale)
    requires Lists(again, StaleGroups(Lookup(tokens, record.tokenId), record))
    ensures UpsertInputs(Lookup(tokens, record.tokenId), record, again)
  {
  }

  /** The store has nothing at the paths of the deletes that the first `k` writes have not come to. */
  predicate NothingPending(secrets: Secrets, dels: seq<Write>, k: nat) {
    forall i | 0 <= i < |dels| && k - 1 <= i :: dels[i].path !in secrets
  }

  /**
   * On any store that stopped service upserts can leave, trying a stopped upsert again makes the token's entries
   * exact if and only if the first try made no write at all, or the deletes it did not come to had nothing to
   * delete. Otherwise the canonical record is already the new one, so the second try finds no one to delete for,
   * and the old owner's or old groups' entries dangle for good.
   */
  lemma RetryRepairsIff(layout: VaultPathLayout, secrets: Secrets, tokens: Tokens, record: TokenRecord,
                        stale: seq<string>, k: nat, again: seq<string>)
    requires CrashConsistent(layout, secrets, tokens)
    requires UpsertInputs(Lookup(tokens, record.tokenId), record, stale)
    requires k <= |UpsertWrites(layout, Lookup(tokens, record.tokenId), record, stale)|
    requires Lists(again, StaleGroups(Lookup(TokensAfter(tokens, record, k), record.tokenId), record))
    ensures
      var previous, found := Lookup(tokens, record.tokenId), Lookup(TokensAfter(tokens, record, k), record.tokenId);
      var stopped := Replay(secrets, UpsertWrites(layout, previous, record, stale)[..k]);
      EntriesExact(layout, Replay(stopped, UpsertWrites(layout, found, record, again)),
                   tokens[record.tokenId := record], record.tokenId)
      <==> k == 0 || NothingPending(secrets, Deletes(layout, previous, record, stale), k)
  {
    hide UpsertWrites, Deletes, Entries, Canonical, CrashConsistent, UpsertInputs, EntriesExact, SameEntries;
    var previous := Lookup(tokens, record.tokenId);
    var writes, dels := UpsertWrites(layout, previous, record, stale), Deletes(layout, previous, record, stale);
    if k == 0 {
      assert writes[..0] == [];
      RetryInputs(tokens, record, stale, again);
      UpsertHeals(layout, secrets, tokens, record, again);
    } else {
      RetryDeletesNothing(layout, record, again);
      var after := Replay(Replay(secrets, writes[..k]), [Canonical(layout, record)] + Entries(layout, record));
      if NothingPending(secrets, dels, k) {
        UpsertHeals(layout, secrets, tokens, record, stale);
        RetryIsUpsert(layout, secrets, previous, record, stale, k);
      } else {
        var i :| 0 <= i < |dels| && k - 1 <= i && dels[i].path in secrets;
        PendingOutlives(layout, secrets, previous, record, stale, k, i);
        if EntriesExact(layout, after, tokens[record.tokenId := record], record.tokenId) {
          DeletedIsNoEntry(layout, after, tokens, previous, record, stale, i);
        }
      }
    }
  }

  /** On a store in full agreement, whose old entries are all there: no write, or past the deletes. */
  lemma RetryOfStoredIff(layout: VaultPathLayout, secrets: Secrets, tokens: Tokens, record: TokenRecord,
                         stale: seq<string>, k: nat, again: seq<string>)
    requires TokensStored(layout, secrets, tokens)
    requires UpsertInputs(Lookup(tokens, record.tokenId), record, stale)
    requires k <= |UpsertWrites(layout, Lookup(tokens, record.tokenId), record, stale)|
    requires Lists(again, StaleGroups(Lookup(TokensAfter(tokens, record, k), record.tokenId), record))
    ensures
      var previous, found := Lookup(tokens, record.tokenId), Lookup(TokensAfter(tokens, record, k), record.tokenId);
      var stopped := Replay(secrets, UpsertWrites(layout, previous, record, stale)[..k]);
      TokensStored(layout, Replay(stopped, UpsertWrites(layout, found, record, again)),
                   tokens[record.tokenId := record])
      <==> k == 0 || k > |Deletes(layout, previous, record, stale)|
  {
    hide UpsertWrites, Deletes, Entries, Canonical, TokensStored, CrashConsistent, UpsertInputs, EntriesExact;
    var previous, found := Lookup(tokens, record.tokenId), Lookup(TokensAfter(tokens, record, k), record.tokenId);
    var writes, dels := UpsertWrites(layout, previous, record, stale), Deletes(layout, previous, record, stale);
    var after := Replay(Replay(secrets, writes[..k]), UpsertWrites(layout, found, record, again));
    if k == 0 {
      assert writes[..0] == [];
      RetryInputs(tokens, record, stale, again);
      UpsertStores(layout, secrets, tokens, record, again);
    } else if k > |dels| {
      UpsertStores(layout, secrets, tokens, record, stale);
      RetryDeletesNothing(layout, record, again);
      RetryIsUpsert(layout, secrets, previous, record, stale, k);
    } else {
      StoredIffExact(layout, secrets, tokens);
      StoredIffExact(layout, after, tokens[record.tokenId := record]);
      PreviousEntryStored(layout, secrets, tokens, record, stale, |dels| - 1);
      RetryRepairsIff(layout, secrets, tokens, record, stale, k, again);
    }
  }

  /** A token that moves from one owner to another, stopped after the canonical write, and tried again. */
  lemma MovedTokenExample()
    ensures
      var layout := VaultPathLayout("gofr/sec");
      var old_ := TokenRecord("t", "ann", [], Active, 0, None, None, None, false, None);
      var moved := old_.(ownerSub := "bob");
      var secrets := SecretsFrom(layout, [Upserted(old_, [])]);
      var stopped := Replay(secrets, UpsertWrites(layout, Some(old_), moved, [])[..1]);
      !TokensStored(layout, Replay(stopped, UpsertWrites(layout, Some(moved), moved, [])), map["t" := moved])
  {
    var layout := VaultPathLayout("gofr/sec");
    var old_ := TokenRecord("t", "ann", [], Active, 0, None, None, None, false, None);
    var moved := old_.(ownerSub := "bob");
    var upserts := [Upserted(old_, [])];
    assert upserts[..0] == [];
    assert StaleGroups(None, old_) == {} && StaleGroups(Some(old_), moved) == {};
    assert StaleGroups(Some(moved), moved) == {};
    assert TokensFrom(upserts) == map["t" := old_];
    TokenRefinement(layout, upserts);
    assert |Deletes(layout, Some(old_), moved, [])| == 1;
    assert map["t" := old_]["t" := moved] == map["t" := moved];
    RetryOfStoredIff(layout, SecretsFrom(layout, upserts), map["t" := old_], moved, [], 1, []);
  }
}
