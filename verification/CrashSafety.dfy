/** What a stop between two store writes of a token upsert can and cannot leave behind. */
module CrashSafety {
  import opened Models
  import opened Paths
  import opened Codec
  import opened VaultStore
  import opened TokenStore

  /** The two upserts the token service issues: the first write of a new record, and its revocation. */
  ghost predicate ServiceUpsert(tokens: Tokens, record: TokenRecord) {
    && WellNamedRecord(record)
    && (record.tokenId !in tokens ==> record.status.Active?)
    && (record.tokenId in tokens ==>
          && tokens[record.tokenId].status.Active?
          && record.status.Revoked?
          && record == tokens[record.tokenId].(status := Revoked, revokedAt := record.revokedAt))
  }

  /** The writes of a service upsert: no owner changes and no group goes stale, so nothing is deleted. */
  function ServiceWrites(layout: VaultPathLayout, record: TokenRecord): seq<Write> {
    [Put(layout.TokenPath(record.tokenId), EncodeToken(record)),
     Put(layout.UserTokenPath(record.ownerSub, record.tokenId), UserEntry(record))]
    + GroupPuts(layout, record, record.grantedGroups)
  }

  lemma ServiceWriteCount(layout: VaultPathLayout, record: TokenRecord)
    ensures |ServiceWrites(layout, record)| == WriteCount(record)
  {
  }

  lemma ServiceUpsertDeletesNothing(layout: VaultPathLayout, tokens: Tokens, record: TokenRecord)
    requires ServiceUpsert(tokens, record)
    ensures Lists([], StaleGroups(Lookup(tokens, record.tokenId), record))
    ensures UpsertWrites(layout, Lookup(tokens, record.tokenId), record, []) == ServiceWrites(layout, record)
  {
  }

  /** An index entry is right, except that it may still call a revoked token active. */
  predicate EntryUpToStatus(entry: Option<Secret>, right: Secret, active: Secret, status: TokenStatus) {
    entry == None || entry == Some(right) || (status.Revoked? && entry == Some(active))
  }

  ghost predicate UserIndexSound(layout: VaultPathLayout, secrets: Secrets, tokens: Tokens) {
    forall u, t | Name(u) && layout.UserTokenPath(u, t) in secrets ::
      && t in tokens
      && tokens[t].ownerSub == u
      && EntryUpToStatus(Lookup(secrets, layout.UserTokenPath(u, t)), UserEntry(tokens[t]),
                         UserEntry(tokens[t].(status := Active)), tokens[t].status)
  }

  ghost predicate GroupIndexSound(layout: VaultPathLayout, secrets: Secrets, tokens: Tokens) {
    forall g, t | Name(g) && layout.GroupTokenPath(g, t) in secrets ::
      && t in tokens
      && g in tokens[t].grantedGroups
      && EntryUpToStatus(Lookup(secrets, layout.GroupTokenPath(g, t)), GroupEntry(tokens[t], g),
                         GroupEntry(tokens[t].(status := Active), g), tokens[t].status)
  }

  /** What survives any stop: canonical records intact, and no index entry dangling or misnamed. */
  ghost predicate CrashConsistent(layout: VaultPathLayout, secrets: Secrets, tokens: Tokens) {
    && RecordsStored(layout, secrets, tokens)
    && UserIndexSound(layout, secrets, tokens)
    && GroupIndexSound(layout, secrets, tokens)
  }

  lemma UserIndexStaysSound(layout: VaultPathLayout, before: Secrets, after: Secrets, tokens: Tokens,
                            record: TokenRecord)
    requires UserIndexSound(layout, before, tokens) && ServiceUpsert(tokens, record)
    requires forall u, t | Name(u) ::
               Lookup(after, layout.UserTokenPath(u, t)) == Lookup(before, layout.UserTokenPath(u, t))
    ensures UserIndexSound(layout, after, tokens[record.tokenId := record])
  {
  }

  lemma GroupIndexStaysSound(layout: VaultPathLayout, before: Secrets, after: Secrets, tokens: Tokens,
                             record: TokenRecord)
    requires GroupIndexSound(layout, before, tokens) && ServiceUpsert(tokens, record)
    requires forall g, t | Name(g) ::
               Lookup(after, layout.GroupTokenPath(g, t)) == Lookup(before, layout.GroupTokenPath(g, t))
    ensures GroupIndexSound(layout, after, tokens[record.tokenId := record])
  {
  }

  lemma CanonicalWriteConsistent(layout: VaultPathLayout, secrets: Secrets, tokens: Tokens, record: TokenRecord)
    requires CrashConsistent(layout, secrets, tokens) && ServiceUpsert(tokens, record)
    ensures CrashConsistent(layout, secrets[layout.TokenPath(record.tokenId) := EncodeToken(record)],
                            tokens[record.tokenId := record])
  {
    hide RecordsStored, UserIndexSound, GroupIndexSound, EncodeToken;
    var path := layout.TokenPath(record.tokenId);
    var after := secrets[path := EncodeToken(record)];
    layout.PathsLocated();
    forall t ensures Lookup(after, layout.TokenPath(t)) ==
        if t == record.tokenId then Some(EncodeToken(record)) else Lookup(secrets, layout.TokenPath(t))
    {
      layout.LocateTokenPath(t);
    }
    RecordReplaced(layout, secrets, after, tokens, record);
    UserIndexStaysSound(layout, secrets, after, tokens, record);
    GroupIndexStaysSound(layout, secrets, after, tokens, record);
  }

  lemma UserEntryWriteConsistent(layout: VaultPathLayout, secrets: Secrets, tokens: Tokens, record: TokenRecord)
    requires CrashConsistent(layout, secrets, tokens)
    requires record.tokenId in tokens && tokens[record.tokenId] == record
    ensures CrashConsistent(layout,
                            secrets[layout.UserTokenPath(record.ownerSub, record.tokenId) := UserEntry(record)],
                            tokens)
  {
    var path := layout.UserTokenPath(record.ownerSub, record.tokenId);
    var after := secrets[path := UserEntry(record)];
    assert Name(record.ownerSub);
    layout.PathsLocated();
    assert forall t :: Lookup(after, layout.TokenPath(t)) == Lookup(secrets, layout.TokenPath(t));
    RecordsFramed(layout, secrets, after, tokens);
    assert forall g, t | Name(g) ::
        Lookup(after, layout.GroupTokenPath(g, t)) == Lookup(secrets, layout.GroupTokenPath(g, t));
  }

  lemma GroupEntryWriteConsistent(layout: VaultPathLayout, secrets: Secrets, tokens: Tokens, record: TokenRecord,
                                  group: string)
    requires CrashConsistent(layout, secrets, tokens)
    requires record.tokenId in tokens && tokens[record.tokenId] == record && group in record.grantedGroups
    ensures CrashConsistent(layout,
                            secrets[layout.GroupTokenPath(group, record.tokenId) := GroupEntry(record, group)],
                            tokens)
  {
    var path := layout.GroupTokenPath(group, record.tokenId);
    var after := secrets[path := GroupEntry(record, group)];
    assert Name(group);
    layout.PathsLocated();
    assert forall t :: Lookup(after, layout.TokenPath(t)) == Lookup(secrets, layout.TokenPath(t));
    RecordsFramed(layout, secrets, after, tokens);
    assert forall u, t | Name(u) ::
        Lookup(after, layout.UserTokenPath(u, t)) == Lookup(secrets, layout.UserTokenPath(u, t));
  }

  /** The tokens a store holds after `k` writes of an upsert: the first write already decides. */
  function TokensAfter(tokens: Tokens, record: TokenRecord, k: nat): Tokens {
    if k == 0 then tokens else tokens[record.tokenId := record]
  }

  lemma WriteConsistent(layout: VaultPathLayout, before: Secrets, tokens: Tokens, record: TokenRecord, k: nat)
    requires ServiceUpsert(tokens, record) && k < |ServiceWrites(layout, record)|
    requires CrashConsistent(layout, before, TokensAfter(tokens, record, k))
    ensures CrashConsistent(layout, Apply(before, ServiceWrites(layout, record)[k]), TokensAfter(tokens, record, k + 1))
  {
    if k == 0 {
      CanonicalWriteConsistent(layout, before, tokens, record);
    } else if k == 1 {
      UserEntryWriteConsistent(layout, before, tokens[record.tokenId := record], record);
    } else {
      GroupEntryWriteConsistent(layout, before, tokens[record.tokenId := record], record, record.grantedGroups[k - 2]);
    }
  }

  /** A service upsert that stops after any number of its writes leaves the old record or the new one, nothing else. */
  lemma {:induction false} PrefixConsistent(layout: VaultPathLayout, secrets: Secrets, tokens: Tokens,
                                            record: TokenRecord, k: nat)
    requires CrashConsistent(layout, secrets, tokens) && ServiceUpsert(tokens, record)
    requires k <= |ServiceWrites(layout, record)|
    ensures CrashConsistent(layout, Replay(secrets, ServiceWrites(layout, record)[..k]), TokensAfter(tokens, record, k))
  {
    ReplayPrefix(secrets, ServiceWrites(layout, record), k);
    if k > 0 {
      PrefixConsistent(layout, secrets, tokens, record, k - 1);
      WriteConsistent(layout, Replay(secrets, ServiceWrites(layout, record)[..k - 1]), tokens, record, k - 1);
    }
  }

  lemma EntriesTellStatus(a: TokenRecord, b: TokenRecord, group: string)
    requires a.status != b.status
    ensures UserEntry(a) != UserEntry(b) && GroupEntry(a, group) != GroupEntry(b, group)
  {
    assert UserEntry(a)["status"] == EncodeStatus(a.status) && UserEntry(b)["status"] == EncodeStatus(b.status);
    assert GroupEntry(a, group)["status"] == EncodeStatus(a.status);
    assert GroupEntry(b, group)["status"] == EncodeStatus(b.status);
    assert Text("active") != Text("revoked") by { assert |"active"| != |"revoked"|; }
  }

  function ServicePlace(record: TokenRecord, i: nat): Place
    requires i < 2 + |record.grantedGroups|
  {
    if i == 0 then TokenAt(record.tokenId)
    else if i == 1 then UserTokenEntry(record.ownerSub, record.tokenId)
    else GroupTokenEntry(record.grantedGroups[i - 2], record.tokenId)
  }

  lemma ServiceWriteAt(layout: VaultPathLayout, record: TokenRecord, i: nat)
    requires WellNamedRecord(record) && i < |ServiceWrites(layout, record)|
    ensures layout.Locate(ServiceWrites(layout, record)[i].path) == Some(ServicePlace(record, i))
  {
    layout.PathsLocated();
    if i >= 2 {
      assert record.grantedGroups[i - 2] in record.grantedGroups;
    }
  }

  /** The path an upsert writes last is not touched by its earlier writes. */
  lemma LastPathUntouched(layout: VaultPathLayout, record: TokenRecord, k: nat)
    requires WellNamedRecord(record) && NoDuplicates(record.grantedGroups)
    requires 0 < k < |ServiceWrites(layout, record)|
    ensures
      var writes := ServiceWrites(layout, record);
      LastOn(writes[..k], writes[|writes| - 1].path) == None
  {
    var writes := ServiceWrites(layout, record);
    var last := |writes| - 1;
    ServiceWriteAt(layout, record, last);
    forall i | 0 <= i < k ensures writes[i].path != writes[last].path {
      ServiceWriteAt(layout, record, i);
    }
    UntouchedByPrefix(writes, k, writes[last].path);
  }

  // --- exact entries

  /** Both index families say exactly what the canonical records say about one token id. */
  ghost predicate EntriesExact(layout: VaultPathLayout, secrets: Secrets, tokens: Tokens, t: string) {
    && (forall u | Name(u) :: Lookup(secrets, layout.UserTokenPath(u, t)) == UserEntryFor(tokens, u, t))
    && (forall g | Name(g) :: Lookup(secrets, layout.GroupTokenPath(g, t)) == GroupEntryFor(tokens, g, t))
  }

  /** Two stores have the same index entries for a token id. */
  ghost predicate SameEntries(layout: VaultPathLayout, a: Secrets, b: Secrets, t: string) {
    && (forall u | Name(u) :: Lookup(a, layout.UserTokenPath(u, t)) == Lookup(b, layout.UserTokenPath(u, t)))
    && (forall g | Name(g) :: Lookup(a, layout.GroupTokenPath(g, t)) == Lookup(b, layout.GroupTokenPath(g, t)))
  }

  lemma ExactCarries(layout: VaultPathLayout, a: Secrets, b: Secrets, tokens: Tokens, tokens': Tokens, t: string)
    requires SameEntries(layout, a, b, t) && Lookup(tokens, t) == Lookup(tokens', t)
    ensures EntriesExact(layout, a, tokens, t) <==> EntriesExact(layout, b, tokens', t)
  {
    forall u ensures UserEntryFor(tokens, u, t) == UserEntryFor(tokens', u, t) {}
    forall g ensures GroupEntryFor(tokens, g, t) == GroupEntryFor(tokens', g, t) {}
  }

  /** A store is in full agreement exactly when it is crash consistent and every id's entries are exact. */
  lemma StoredIffExact(layout: VaultPathLayout, secrets: Secrets, tokens: Tokens)
    ensures TokensStored(layout, secrets, tokens)
       <==> CrashConsistent(layout, secrets, tokens) && forall t :: EntriesExact(layout, secrets, tokens, t)
  {
    if forall t :: EntriesExact(layout, secrets, tokens, t) {
      forall u, t | Name(u) ensures Lookup(secrets, layout.UserTokenPath(u, t)) == UserEntryFor(tokens, u, t) {
        assert EntriesExact(layout, secrets, tokens, t);
      }
      forall g, t | Name(g) ensures Lookup(secrets, layout.GroupTokenPath(g, t)) == GroupEntryFor(tokens, g, t) {
        assert EntriesExact(layout, secrets, tokens, t);
      }
    }
  }

  /** Replacing one record keeps crash consistency if its entries come out exact and no others change. */
  lemma SoundFromEntries(layout: VaultPathLayout, before: Secrets, after: Secrets, tokens: Tokens, record: TokenRecord)
    requires CrashConsistent(layout, before, tokens)
    requires RecordsStored(layout, after, tokens[record.tokenId := record])
    requires EntriesExact(layout, after, tokens[record.tokenId := record], record.tokenId)
    requires forall t | t != record.tokenId :: SameEntries(layout, before, after, t)
    ensures CrashConsistent(layout, after, tokens[record.tokenId := record])
  {
    hide RecordsStored;
    UserEntriesSound(layout, before, after, tokens, record);
    GroupEntriesSound(layout, before, after, tokens, record);
  }

  lemma UserEntriesSound(layout: VaultPathLayout, before: Secrets, after: Secrets, tokens: Tokens, record: TokenRecord)
    requires UserIndexSound(layout, before, tokens)
    requires EntriesExact(layout, after, tokens[record.tokenId := record], record.tokenId)
    requires forall t | t != record.tokenId :: SameEntries(layout, before, after, t)
    ensures UserIndexSound(layout, after, tokens[record.tokenId := record])
  {
    hide UserEntry;
    forall u, t | Name(u)
      ensures Lookup(after, layout.UserTokenPath(u, t)) ==
              if t == record.tokenId then UserEntryFor(tokens[record.tokenId := record], u, t)
              else Lookup(before, layout.UserTokenPath(u, t))
    {
      assert t != record.tokenId ==> SameEntries(layout, before, after, t);
    }
  }

  lemma GroupEntriesSound(layout: VaultPathLayout, before: Secrets, after: Secrets, tokens: Tokens, record: TokenRecord)
    requires GroupIndexSound(layout, before, tokens)
    requires EntriesExact(layout, after, tokens[record.tokenId := record], record.tokenId)
    requires forall t | t != record.tokenId :: SameEntries(layout, before, after, t)
    ensures GroupIndexSound(layout, after, tokens[record.tokenId := record])
  {
    hide GroupEntry;
    forall g, t | Name(g)
      ensures Lookup(after, layout.GroupTokenPath(g, t)) ==
              if t == record.tokenId then GroupEntryFor(tokens[record.tokenId := record], g, t)
              else Lookup(before, layout.GroupTokenPath(g, t))
    {
      assert t != record.tokenId ==> SameEntries(layout, before, after, t);
    }
  }

  /**
   * A completed upsert, of any kind, makes the record's own entries exact, whatever earlier stops left of them,
   * and changes no other token's.
   */
  lemma UpsertHeals(layout: VaultPathLayout, secrets: Secrets, tokens: Tokens, record: TokenRecord, stale: seq<string>)
    requires CrashConsistent(layout, secrets, tokens)
    requires UpsertInputs(Lookup(tokens, record.tokenId), record, stale)
    ensures
      var after := Replay(secrets, UpsertWrites(layout, Lookup(tokens, record.tokenId), record, stale));
      && CrashConsistent(layout, after, tokens[record.tokenId := record])
      && EntriesExact(layout, after, tokens[record.tokenId := record], record.tokenId)
      && forall t | t != record.tokenId :: SameEntries(layout, secrets, after, t)
  {
    var previous := Lookup(tokens, record.tokenId);
    var after := Replay(secrets, UpsertWrites(layout, previous, record, stale));
    UpsertStoresRecord(layout, secrets, tokens, record, stale);
    HealedEntries(layout, secrets, tokens, record, stale);
    forall t | t != record.tokenId ensures SameEntries(layout, secrets, after, t) {
      OtherEntriesKept(layout, secrets, previous, record, stale, t);
    }
    SoundFromEntries(layout, secrets, after, tokens, record);
  }

  lemma HealedEntries(layout: VaultPathLayout, secrets: Secrets, tokens: Tokens, record: TokenRecord,
                      stale: seq<string>)
    requires UserIndexSound(layout, secrets, tokens) && GroupIndexSound(layout, secrets, tokens)
    requires UpsertInputs(Lookup(tokens, record.tokenId), record, stale)
    ensures
      var after := Replay(secrets, UpsertWrites(layout, Lookup(tokens, record.tokenId), record, stale));
      EntriesExact(layout, after, tokens[record.tokenId := record], record.tokenId)
  {
    var previous, t := Lookup(tokens, record.tokenId), record.tokenId;
    var after := Replay(secrets, UpsertWrites(layout, previous, record, stale));
    forall u | Name(u)
      ensures Lookup(after, layout.UserTokenPath(u, t)) == UserEntryFor(tokens[t := record], u, t)
    {
      UpsertAtUserEntry(layout, secrets, previous, record, stale, u, t);
      assert layout.UserTokenPath(u, t) in secrets ==> t in tokens && tokens[t].ownerSub == u;
    }
    forall g | Name(g)
      ensures Lookup(after, layout.GroupTokenPath(g, t)) == GroupEntryFor(tokens[t := record], g, t)
    {
      UpsertAtGroupEntry(layout, secrets, previous, record, stale, g, t);
      assert layout.GroupTokenPath(g, t) in secrets ==> t in tokens && g in tokens[t].grantedGroups;
    }
  }

  lemma OtherEntriesKept(layout: VaultPathLayout, secrets: Secrets, previous: Option<TokenRecord>, record: TokenRecord,
                         stale: seq<string>, t: string)
    requires UpsertInputs(previous, record, stale) && t != record.tokenId
    ensures SameEntries(layout, secrets, Replay(secrets, UpsertWrites(layout, previous, record, stale)), t)
  {
    forall u | Name(u) {
      UpsertAtUserEntry(layout, secrets, previous, record, stale, u, t);
    }
    forall g | Name(g) {
      UpsertAtGroupEntry(layout, secrets, previous, record, stale, g, t);
    }
  }

  /** A stopped service upsert touches no other token's entries. */
  lemma PrefixKeepsOthers(layout: VaultPathLayout, secrets: Secrets, record: TokenRecord, k: nat, t: string)
    requires WellNamedRecord(record) && t != record.tokenId && k <= |ServiceWrites(layout, record)|
    ensures SameEntries(layout, secrets, Replay(secrets, ServiceWrites(layout, record)[..k]), t)
  {
    forall u | Name(u) {
      PrefixMisses(layout, secrets, record, k, UserTokenEntry(u, t));
    }
    forall g | Name(g) {
      PrefixMisses(layout, secrets, record, k, GroupTokenEntry(g, t));
    }
  }

  /** A path that none of the first `k` writes is for keeps its secret. */
  lemma PrefixMisses(layout: VaultPathLayout, secrets: Secrets, record: TokenRecord, k: nat, place: Place)
    requires WellNamedRecord(record) && WellNamed(place) && k <= |ServiceWrites(layout, record)|
    requires forall i | 0 <= i < k :: ServicePlace(record, i) != place
    ensures Lookup(Replay(secrets, ServiceWrites(layout, record)[..k]), layout.PathOf(place))
         == Lookup(secrets, layout.PathOf(place))
  {
    var writes := ServiceWrites(layout, record);
    layout.LocatePathOf(place);
    forall i | 0 <= i < k ensures writes[i].path != layout.PathOf(place) {
      ServiceWriteAt(layout, record, i);
    }
    UntouchedByPrefix(writes, k, layout.PathOf(place));
    ReplayLookup(secrets, writes[..k], layout.PathOf(place));
  }

  /** Nor does it touch any path outside the token families. */
  lemma PrefixFrame(layout: VaultPathLayout, secrets: Secrets, record: TokenRecord, k: nat)
    requires WellNamedRecord(record) && k <= |ServiceWrites(layout, record)|
    ensures forall p | !TokenFamily(layout.Locate(p)) ::
              Lookup(Replay(secrets, ServiceWrites(layout, record)[..k]), p) == Lookup(secrets, p)
  {
    var writes := ServiceWrites(layout, record);
    forall p | !TokenFamily(layout.Locate(p)) ensures Lookup(Replay(secrets, writes[..k]), p) == Lookup(secrets, p) {
      forall i | 0 <= i < k ensures writes[i].path != p {
        ServiceWriteAt(layout, record, i);
      }
      UntouchedByPrefix(writes, k, p);
      ReplayLookup(secrets, writes[..k], p);
    }
  }

  /** The entry an upsert writes last is missing or out of date until it is written. */
  lemma LastEntryPending(layout: VaultPathLayout, secrets: Secrets, tokens: Tokens, record: TokenRecord)
    requires CrashConsistent(layout, secrets, tokens) && ServiceUpsert(tokens, record)
    ensures
      var writes := ServiceWrites(layout, record);
      Lookup(secrets, writes[|writes| - 1].path) != Some(writes[|writes| - 1].data)
  {
    var groups := record.grantedGroups;
    var group := if groups == [] then "" else groups[|groups| - 1];
    if record.tokenId in tokens {
      EntriesTellStatus(tokens[record.tokenId], record, group);
    }
    assert groups != [] ==> group in groups;
  }

  lemma LastEntryWritten(layout: VaultPathLayout, secrets: Secrets, tokens: Tokens, record: TokenRecord)
    requires EntriesExact(layout, secrets, tokens, record.tokenId) && WellNamedRecord(record)
    requires record.tokenId in tokens && tokens[record.tokenId] == record
    ensures
      var writes := ServiceWrites(layout, record);
      Lookup(secrets, writes[|writes| - 1].path) == Some(writes[|writes| - 1].data)
  {
    var groups := record.grantedGroups;
    assert groups != [] ==> groups[|groups| - 1] in groups;
  }

  /** Past its first write, a service upsert leaves exact entries if and only if it made every write. */
  lemma StopExactIff(layout: VaultPathLayout, secrets: Secrets, tokens: Tokens, record: TokenRecord, k: nat)
    requires CrashConsistent(layout, secrets, tokens) && ServiceUpsert(tokens, record)
    requires NoDuplicates(record.grantedGroups)
    requires 0 < k <= |ServiceWrites(layout, record)|
    ensures EntriesExact(layout, Replay(secrets, ServiceWrites(layout, record)[..k]), tokens[record.tokenId := record],
                         record.tokenId)
       <==> k == |ServiceWrites(layout, record)|
  {
    var writes, after := ServiceWrites(layout, record), tokens[record.tokenId := record];
    if k == |writes| {
      ReplayPrefix(secrets, writes, k);
      ServiceUpsertDeletesNothing(layout, tokens, record);
      UpsertHeals(layout, secrets, tokens, record, []);
    } else {
      var last := writes[|writes| - 1];
      LastEntryPending(layout, secrets, tokens, record);
      LastPathUntouched(layout, record, k);
      ReplayLookup(secrets, writes[..k], last.path);
      if EntriesExact(layout, Replay(secrets, writes[..k]), after, record.tokenId) {
        LastEntryWritten(layout, Replay(secrets, writes[..k]), after, record);
      }
    }
  }

  // --- what a store of tokens holds, stops included

  /**
   * Crash consistent, and it is known what stops have left undone: `unlisted` are the tokens whose owner has no
   * entry for them, `inexact` the tokens whose entries do not say what the canonical record says.
   */
  ghost predicate TokensHeld(layout: VaultPathLayout, secrets: Secrets, tokens: Tokens, unlisted: set<string>,
                             inexact: set<string>) {
    && CrashConsistent(layout, secrets, tokens)
    && UnlistedKnown(layout, secrets, tokens, unlisted)
    && InexactKnown(layout, secrets, tokens, inexact)
  }

  ghost predicate UnlistedKnown(layout: VaultPathLayout, secrets: Secrets, tokens: Tokens, unlisted: set<string>) {
    && unlisted <= tokens.Keys
    && forall t | t in tokens :: t in unlisted <==> layout.UserTokenPath(tokens[t].ownerSub, t) !in secrets
  }

  /** Without duplicate groups this is an equivalence; with them the last entry may have been written early. */
  ghost predicate InexactKnown(layout: VaultPathLayout, secrets: Secrets, tokens: Tokens, inexact: set<string>) {
    && inexact <= tokens.Keys
    && (forall t | t !in inexact :: EntriesExact(layout, secrets, tokens, t))
    && (forall t | t in inexact && NoDuplicates(tokens[t].grantedGroups) :: !EntriesExact(layout, secrets, tokens, t))
  }

  lemma HeldRecords(layout: VaultPathLayout, secrets: Secrets, tokens: Tokens, unlisted: set<string>,
                    inexact: set<string>)
    requires TokensHeld(layout, secrets, tokens, unlisted, inexact)
    ensures RecordsStored(layout, secrets, tokens)
    ensures TokensKeyed(tokens) && forall t | t in tokens :: WellNamedRecord(tokens[t])
  {
  }

  /** With nothing left undone the store is in full agreement. */
  lemma HeldExactly(layout: VaultPathLayout, secrets: Secrets, tokens: Tokens)
    ensures TokensHeld(layout, secrets, tokens, {}, {}) <==> TokensStored(layout, secrets, tokens)
  {
    StoredIffExact(layout, secrets, tokens);
    if TokensStored(layout, secrets, tokens) {
      forall t | t in tokens ensures layout.UserTokenPath(tokens[t].ownerSub, t) in secrets {
        assert WellNamedRecord(tokens[t]);
        assert Lookup(secrets, layout.UserTokenPath(tokens[t].ownerSub, t))
               == UserEntryFor(tokens, tokens[t].ownerSub, t);
      }
    }
  }

  /** Writes that leave every canonical record and every entry alone leave all of this alone. */
  lemma HeldCarries(layout: VaultPathLayout, before: Secrets, after: Secrets, tokens: Tokens, unlisted: set<string>,
                    inexact: set<string>)
    requires TokensHeld(layout, before, tokens, unlisted, inexact)
    requires forall t :: Lookup(after, layout.TokenPath(t)) == Lookup(before, layout.TokenPath(t))
    requires forall t :: SameEntries(layout, before, after, t)
    ensures TokensHeld(layout, after, tokens, unlisted, inexact)
  {
    RecordsFramed(layout, before, after, tokens);
    forall u, t | Name(u)
      ensures Lookup(before, layout.UserTokenPath(u, t)) == Lookup(after, layout.UserTokenPath(u, t))
    {
      assert SameEntries(layout, before, after, t);
    }
    forall g, t | Name(g)
      ensures Lookup(before, layout.GroupTokenPath(g, t)) == Lookup(after, layout.GroupTokenPath(g, t))
    {
      assert SameEntries(layout, before, after, t);
    }
    assert CrashConsistent(layout, after, tokens);
    forall t | t in tokens ensures t in unlisted <==> layout.UserTokenPath(tokens[t].ownerSub, t) !in after {
      assert WellNamedRecord(tokens[t]);
    }
    forall t ensures EntriesExact(layout, before, tokens, t) <==> EntriesExact(layout, after, tokens, t) {
      ExactCarries(layout, before, after, tokens, tokens, t);
    }
  }

  /** One record is replaced; what is known about the other tokens stays known. */
  lemma HeldReplaced(layout: VaultPathLayout, before: Secrets, after: Secrets, tokens: Tokens, unlisted: set<string>,
                     inexact: set<string>, record: TokenRecord, unlisted': set<string>, inexact': set<string>)
    requires TokensHeld(layout, before, tokens, unlisted, inexact)
    requires CrashConsistent(layout, after, tokens[record.tokenId := record])
    requires forall t | t != record.tokenId :: SameEntries(layout, before, after, t)
    requires unlisted' - {record.tokenId} == unlisted - {record.tokenId}
    requires inexact' - {record.tokenId} == inexact - {record.tokenId}
    requires record.tokenId in unlisted' <==> layout.UserTokenPath(record.ownerSub, record.tokenId) !in after
    requires record.tokenId !in inexact' ==>
               EntriesExact(layout, after, tokens[record.tokenId := record], record.tokenId)
    requires record.tokenId in inexact' && NoDuplicates(record.grantedGroups) ==>
               !EntriesExact(layout, after, tokens[record.tokenId := record], record.tokenId)
    ensures TokensHeld(layout, after, tokens[record.tokenId := record], unlisted', inexact')
  {
    hide EntriesExact, SameEntries, UnlistedKnown, InexactKnown;
    assert forall t | t in tokens :: Name(tokens[t].ownerSub);
    UnlistedReplaced(layout, before, after, tokens, unlisted, record, unlisted');
    InexactReplaced(layout, before, after, tokens, inexact, record, inexact');
  }

  lemma UnlistedReplaced(layout: VaultPathLayout, before: Secrets, after: Secrets, tokens: Tokens,
                         unlisted: set<string>, record: TokenRecord, unlisted': set<string>)
    requires UnlistedKnown(layout, before, tokens, unlisted) && forall t | t in tokens :: Name(tokens[t].ownerSub)
    requires forall t | t != record.tokenId :: SameEntries(layout, before, after, t)
    requires unlisted' - {record.tokenId} == unlisted - {record.tokenId}
    requires record.tokenId in unlisted' <==> layout.UserTokenPath(record.ownerSub, record.tokenId) !in after
    ensures UnlistedKnown(layout, after, tokens[record.tokenId := record], unlisted')
  {
    forall t | t != record.tokenId ensures t in unlisted' <==> t in unlisted {
      assert t in unlisted' - {record.tokenId} <==> t in unlisted - {record.tokenId};
    }
    forall t | t in tokens && t != record.tokenId
      ensures t in unlisted' <==> layout.UserTokenPath(tokens[t].ownerSub, t) !in after
    {
      assert SameEntries(layout, before, after, t);
      assert Lookup(before, layout.UserTokenPath(tokens[t].ownerSub, t)).Some?
        <==> Lookup(after, layout.UserTokenPath(tokens[t].ownerSub, t)).Some?;
    }
  }

  lemma InexactReplaced(layout: VaultPathLayout, before: Secrets, after: Secrets, tokens: Tokens, inexact: set<string>,
                        record: TokenRecord, inexact': set<string>)
    requires InexactKnown(layout, before, tokens, inexact)
    requires forall t | t != record.tokenId :: SameEntries(layout, before, after, t)
    requires inexact' - {record.tokenId} == inexact - {record.tokenId}
    requires record.tokenId !in inexact' ==>
               EntriesExact(layout, after, tokens[record.tokenId := record], record.tokenId)
    requires record.tokenId in inexact' && NoDuplicates(record.grantedGroups) ==>
               !EntriesExact(layout, after, tokens[record.tokenId := record], record.tokenId)
    ensures InexactKnown(layout, after, tokens[record.tokenId := record], inexact')
  {
    forall t | t != record.tokenId
      ensures t in inexact' <==> t in inexact
      ensures EntriesExact(layout, before, tokens, t)
         <==> EntriesExact(layout, after, tokens[record.tokenId := record], t)
    {
      assert t in inexact' - {record.tokenId} <==> t in inexact - {record.tokenId};
      ExactCarries(layout, before, after, tokens, tokens[record.tokenId := record], t);
    }
    hide EntriesExact, SameEntries;
  }

  /** Exact entries list the token for its owner. */
  lemma ExactIsListed(layout: VaultPathLayout, secrets: Secrets, tokens: Tokens, t: string)
    requires t in tokens && Name(tokens[t].ownerSub) && EntriesExact(layout, secrets, tokens, t)
    ensures layout.UserTokenPath(tokens[t].ownerSub, t) in secrets
  {
  }

  /** A completed upsert of any kind: the record is listed and exact afterwards. */
  lemma UpsertHolds(layout: VaultPathLayout, secrets: Secrets, tokens: Tokens, unlisted: set<string>,
                    inexact: set<string>, record: TokenRecord, stale: seq<string>)
    requires TokensHeld(layout, secrets, tokens, unlisted, inexact)
    requires UpsertInputs(Lookup(tokens, record.tokenId), record, stale)
    ensures
      var after := Replay(secrets, UpsertWrites(layout, Lookup(tokens, record.tokenId), record, stale));
      TokensHeld(layout, after, tokens[record.tokenId := record], unlisted - {record.tokenId},
                 inexact - {record.tokenId})
  {
    hide EntriesExact, SameEntries, UpsertWrites, CrashConsistent, UnlistedKnown, InexactKnown;
    var after := Replay(secrets, UpsertWrites(layout, Lookup(tokens, record.tokenId), record, stale));
    UpsertHeals(layout, secrets, tokens, record, stale);
    ExactIsListed(layout, after, tokens[record.tokenId := record], record.tokenId);
    HeldReplaced(layout, secrets, after, tokens, unlisted, inexact, record,
                 unlisted - {record.tokenId}, inexact - {record.tokenId});
  }

  /** A service upsert stopped after `k` of its writes. */
  lemma StopHolds(layout: VaultPathLayout, secrets: Secrets, tokens: Tokens, unlisted: set<string>,
                  inexact: set<string>, record: TokenRecord, k: nat)
    requires TokensHeld(layout, secrets, tokens, unlisted, inexact) && ServiceUpsert(tokens, record)
    requires k <= |ServiceWrites(layout, record)|
    ensures TokensHeld(layout, Replay(secrets, ServiceWrites(layout, record)[..k]), TokensAfter(tokens, record, k),
                       UnlistedAfter(tokens, unlisted, record.tokenId, k),
                   InexactAfter(inexact, record.tokenId, WriteCount(record), k))
  {
    hide EntriesExact, SameEntries, CrashConsistent, UnlistedKnown, InexactKnown, ServiceWrites;
    var writes := ServiceWrites(layout, record);
    var after := Replay(secrets, writes[..k]);
    if k == 0 {
      assert writes[..0] == [];
    } else {
      PrefixConsistent(layout, secrets, tokens, record, k);
      forall t | t != record.tokenId ensures SameEntries(layout, secrets, after, t) {
        PrefixKeepsOthers(layout, secrets, record, k, t);
      }
      StoppedEntries(layout, secrets, tokens, record, k);
      ServiceWriteCount(layout, record);
      StoppedListing(layout, secrets, tokens, unlisted, record, k);
      HeldReplaced(layout, secrets, after, tokens, unlisted, inexact, record,
                   UnlistedAfter(tokens, unlisted, record.tokenId, k),
                   InexactAfter(inexact, record.tokenId, WriteCount(record), k));
    }
  }

  lemma StoppedEntries(layout: VaultPathLayout, secrets: Secrets, tokens: Tokens, record: TokenRecord, k: nat)
    requires CrashConsistent(layout, secrets, tokens) && ServiceUpsert(tokens, record)
    requires 0 < k <= |ServiceWrites(layout, record)|
    ensures
      var exact := EntriesExact(layout, Replay(secrets, ServiceWrites(layout, record)[..k]),
                                tokens[record.tokenId := record], record.tokenId);
      && (k == |ServiceWrites(layout, record)| ==> exact)
      && (k < |ServiceWrites(layout, record)| && NoDuplicates(record.grantedGroups) ==> !exact)
  {
    if NoDuplicates(record.grantedGroups) {
      StopExactIff(layout, secrets, tokens, record, k);
    } else if k == |ServiceWrites(layout, record)| {
      ReplayPrefix(secrets, ServiceWrites(layout, record), k);
      ServiceUpsertDeletesNothing(layout, tokens, record);
      UpsertHeals(layout, secrets, tokens, record, []);
    }
  }

  /** The second write is the one that lists the token. */
  lemma StoppedListing(layout: VaultPathLayout, secrets: Secrets, tokens: Tokens, unlisted: set<string>,
                       record: TokenRecord, k: nat)
    requires CrashConsistent(layout, secrets, tokens) && ServiceUpsert(tokens, record)
    requires UnlistedKnown(layout, secrets, tokens, unlisted)
    requires 0 < k <= |ServiceWrites(layout, record)|
    ensures record.tokenId in UnlistedAfter(tokens, unlisted, record.tokenId, k)
       <==> layout.UserTokenPath(record.ownerSub, record.tokenId)
              !in Replay(secrets, ServiceWrites(layout, record)[..k])
  {
    if k == 1 {
      PrefixMisses(layout, secrets, record, 1, UserTokenEntry(record.ownerSub, record.tokenId));
      assert Lookup(Replay(secrets, ServiceWrites(layout, record)[..1]),
                    layout.UserTokenPath(record.ownerSub, record.tokenId))
          == Lookup(secrets, layout.UserTokenPath(record.ownerSub, record.tokenId));
    } else {
      SecondWriteLists(layout, secrets, record, k);
    }
  }

  lemma {:induction false} SecondWriteLists(layout: VaultPathLayout, secrets: Secrets, record: TokenRecord, k: nat)
    requires 2 <= k <= |ServiceWrites(layout, record)|
    ensures layout.UserTokenPath(record.ownerSub, record.tokenId) in Replay(secrets, ServiceWrites(layout, record)[..k])
  {
    ReplayPrefix(secrets, ServiceWrites(layout, record), k);
    if k > 2 {
      SecondWriteLists(layout, secrets, record, k - 1);
    }
  }
}
