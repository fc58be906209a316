/** Canonical token records and their two index families inside the flat store. */
module TokenStore {
  import opened Models
  import opened Paths
  import opened Codec
  import opened VaultStore

  type Tokens = map<string, TokenRecord>
  type Secrets = map<string, Secret>

  ghost predicate WellNamedRecord(r: TokenRecord) {
    Name(r.tokenId) && Name(r.ownerSub) && forall g | g in r.grantedGroups :: Name(g)
  }

  function UserEntryFor(tokens: Tokens, u: string, t: string): Option<Secret> {
    if t in tokens && tokens[t].ownerSub == u then Some(UserEntry(tokens[t])) else None
  }

  function GroupEntryFor(tokens: Tokens, g: string, t: string): Option<Secret> {
    if t in tokens && g in tokens[t].grantedGroups then Some(GroupEntry(tokens[t], g)) else None
  }

  /** The canonical paths hold exactly the records of `tokens`. */
  ghost predicate RecordsStored(layout: VaultPathLayout, secrets: Secrets, tokens: Tokens) {
    && TokensKeyed(tokens)
    && (forall t | t in tokens :: WellNamedRecord(tokens[t]))
    && (forall t :: Lookup(secrets, layout.TokenPath(t)) == if t in tokens then Some(EncodeToken(tokens[t])) else None)
  }

  /** A user-index entry exists exactly for the owner, with the canonical owner and status. */
  ghost predicate UserIndexExact(layout: VaultPathLayout, secrets: Secrets, tokens: Tokens) {
    forall u, t | Name(u) :: Lookup(secrets, layout.UserTokenPath(u, t)) == UserEntryFor(tokens, u, t)
  }

  /** A group-index entry exists exactly for the granted groups, with the canonical owner and status. */
  ghost predicate GroupIndexExact(layout: VaultPathLayout, secrets: Secrets, tokens: Tokens) {
    forall g, t | Name(g) :: Lookup(secrets, layout.GroupTokenPath(g, t)) == GroupEntryFor(tokens, g, t)
  }

  /** Canonical records and both index families agree in both directions. */
  ghost predicate TokensStored(layout: VaultPathLayout, secrets: Secrets, tokens: Tokens) {
    && RecordsStored(layout, secrets, tokens)
    && UserIndexExact(layout, secrets, tokens)
    && GroupIndexExact(layout, secrets, tokens)
  }

  /** The groups whose index entries an upsert has to drop. */
  function StaleGroups(previous: Option<TokenRecord>, record: TokenRecord): set<string> {
    (if previous.Some? then set g | g in previous.value.grantedGroups else {})
    - (set g | g in record.grantedGroups)
  }

  function OwnerDeletes(layout: VaultPathLayout, previous: Option<TokenRecord>, record: TokenRecord): seq<Write> {
    if previous.Some? && previous.value.ownerSub != record.ownerSub
    then [Delete(layout.UserTokenPath(previous.value.ownerSub, previous.value.tokenId))]
    else []
  }

  function GroupDeletes(layout: VaultPathLayout, record: TokenRecord, stale: seq<string>): seq<Write> {
    seq(|stale|, i requires 0 <= i < |stale| => Delete(layout.GroupTokenPath(stale[i], record.tokenId)))
  }

  function GroupPuts(layout: VaultPathLayout, record: TokenRecord, groups: seq<string>): seq<Write> {
    seq(|groups|, i requires 0 <= i < |groups| =>
      Put(layout.GroupTokenPath(groups[i], record.tokenId), GroupEntry(record, groups[i])))
  }

  /** The writes of one upsert in program order; `stale` is the order in which the set of dropped groups came up. */
  function UpsertWrites(layout: VaultPathLayout, previous: Option<TokenRecord>, record: TokenRecord,
                        stale: seq<string>): seq<Write> {
    [Put(layout.TokenPath(record.tokenId), EncodeToken(record))]
    + OwnerDeletes(layout, previous, record)
    + GroupDeletes(layout, record, stale)
    + [Put(layout.UserTokenPath(record.ownerSub, record.tokenId), UserEntry(record))]
    + GroupPuts(layout, record, record.grantedGroups)
  }

  /** An upsert's writes, replayed block by block. */
  lemma ReplayUpsert(layout: VaultPathLayout, secrets: Secrets, previous: Option<TokenRecord>, record: TokenRecord,
                     stale: seq<string>)
    ensures
      var s1 := Apply(secrets, Put(layout.TokenPath(record.tokenId), EncodeToken(record)));
      var s2 := Replay(s1, OwnerDeletes(layout, previous, record));
      var s3 := Replay(s2, GroupDeletes(layout, record, stale));
      var s4 := Apply(s3, Put(layout.UserTokenPath(record.ownerSub, record.tokenId), UserEntry(record)));
      Replay(secrets, UpsertWrites(layout, previous, record, stale))
      == Replay(s4, GroupPuts(layout, record, record.grantedGroups))
  {
    var a := [Put(layout.TokenPath(record.tokenId), EncodeToken(record))];
    var b := OwnerDeletes(layout, previous, record);
    var c := GroupDeletes(layout, record, stale);
    var d := [Put(layout.UserTokenPath(record.ownerSub, record.tokenId), UserEntry(record))];
    ReplayConcat(secrets, a + b + c + d, GroupPuts(layout, record, record.grantedGroups));
    ReplayConcat(secrets, a + b + c, d);
    ReplayConcat(secrets, a + b, c);
    ReplayConcat(secrets, a, b);
    ReplayStep(secrets, [], a[0]);
    ReplayStep(Replay(secrets, a + b + c), [], d[0]);
    assert [] + a == a && [] + d == d;
  }

  lemma ConcatUpsert(layout: VaultPathLayout, journal: seq<Write>, previous: Option<TokenRecord>, record: TokenRecord,
                     stale: seq<string>)
    ensures journal + UpsertWrites(layout, previous, record, stale) ==
            journal + [Put(layout.TokenPath(record.tokenId), EncodeToken(record))]
            + OwnerDeletes(layout, previous, record) + GroupDeletes(layout, record, stale)
            + [Put(layout.UserTokenPath(record.ownerSub, record.tokenId), UserEntry(record))]
            + GroupPuts(layout, record, record.grantedGroups)
  {
  }

  predicate TokenFamily(place: Option<Place>) {
    place.Some? && (place.value.TokenAt? || place.value.UserTokenEntry? || place.value.GroupTokenEntry?)
  }

  /** The last write of an upsert to any path, block by block from the back. */
  lemma LastOfUpsert(layout: VaultPathLayout, previous: Option<TokenRecord>, record: TokenRecord, stale: seq<string>,
                     path: string)
    ensures
      var last := LastOn(UpsertWrites(layout, previous, record, stale), path);
      var puts := LastOn(GroupPuts(layout, record, record.grantedGroups), path);
      var dels := LastOn(GroupDeletes(layout, record, stale), path);
      var owner := LastOn(OwnerDeletes(layout, previous, record), path);
      last ==
      if puts.Some? then puts
      else if path == layout.UserTokenPath(record.ownerSub, record.tokenId) then Some(Put(path, UserEntry(record)))
      else if dels.Some? then dels
      else if owner.Some? then owner
      else if path == layout.TokenPath(record.tokenId) then Some(Put(path, EncodeToken(record)))
      else None
  {
    var a := [Put(layout.TokenPath(record.tokenId), EncodeToken(record))];
    var b := OwnerDeletes(layout, previous, record);
    var c := GroupDeletes(layout, record, stale);
    var d := [Put(layout.UserTokenPath(record.ownerSub, record.tokenId), UserEntry(record))];
    var e := GroupPuts(layout, record, record.grantedGroups);
    LastOnConcat(a + b + c + d, e, path);
    LastOnConcat(a + b + c, d, path);
    LastOnConcat(a + b, c, path);
    LastOnConcat(a, b, path);
  }

  lemma LastOfBlocks(layout: VaultPathLayout, previous: Option<TokenRecord>, record: TokenRecord, stale: seq<string>,
                     path: string)
    ensures
      var puts := LastOn(GroupPuts(layout, record, record.grantedGroups), path);
      && (puts.Some? ==> exists g | g in record.grantedGroups ::
            path == layout.GroupTokenPath(g, record.tokenId) && puts.value == Put(path, GroupEntry(record, g)))
      && (puts.None? ==> forall g | g in record.grantedGroups :: path != layout.GroupTokenPath(g, record.tokenId))
    ensures
      var dels := LastOn(GroupDeletes(layout, record, stale), path);
      && (dels.Some? ==>
            && dels.value == Delete(path)
            && exists g | g in stale :: path == layout.GroupTokenPath(g, record.tokenId))
      && (dels.None? ==> forall g | g in stale :: path != layout.GroupTokenPath(g, record.tokenId))
  {
    var puts := GroupPuts(layout, record, record.grantedGroups);
    LastOnMember(puts, path);
    if LastOn(puts, path).Some? {
      var i :| 0 <= i < |puts| && puts[i] == LastOn(puts, path).value;
      assert record.grantedGroups[i] in record.grantedGroups;
    } else {
      forall g | g in record.grantedGroups ensures path != layout.GroupTokenPath(g, record.tokenId) {
        var i :| 0 <= i < |record.grantedGroups| && record.grantedGroups[i] == g;
        assert puts[i] in puts;
      }
    }
    var dels := GroupDeletes(layout, record, stale);
    LastOnMember(dels, path);
    if LastOn(dels, path).Some? {
      var i :| 0 <= i < |dels| && dels[i] == LastOn(dels, path).value;
      assert stale[i] in stale;
    } else {
      forall g | g in stale ensures path != layout.GroupTokenPath(g, record.tokenId) {
        var i :| 0 <= i < |stale| && stale[i] == g;
        assert dels[i] in dels;
      }
    }
  }

  ghost predicate UpsertInputs(previous: Option<TokenRecord>, record: TokenRecord, stale: seq<string>) {
    && WellNamedRecord(record)
    && (previous.Some? ==> WellNamedRecord(previous.value) && previous.value.tokenId == record.tokenId)
    && Lists(stale, StaleGroups(previous, record))
  }

  /** What an upsert leaves at a user-index path. */
  lemma UpsertAtUserEntry(layout: VaultPathLayout, secrets: Secrets, previous: Option<TokenRecord>, record: TokenRecord,
                          stale: seq<string>, u: string, t: string)
    requires UpsertInputs(previous, record, stale) && Name(u)
    ensures
      var p := layout.UserTokenPath(u, t);
      Lookup(Replay(secrets, UpsertWrites(layout, previous, record, stale)), p) ==
      if t == record.tokenId && u == record.ownerSub then Some(UserEntry(record))
      else if t == record.tokenId && previous.Some? && u == previous.value.ownerSub then None
      else Lookup(secrets, p)
  {
    var p := layout.UserTokenPath(u, t);
    layout.PathsLocated();
    ReplayLookup(secrets, UpsertWrites(layout, previous, record, stale), p);
    LastOfUpsert(layout, previous, record, stale, p);
    LastOfBlocks(layout, previous, record, stale, p);
    LastOnMember(OwnerDeletes(layout, previous, record), p);
  }

  /** What an upsert leaves at a group-index path. */
  lemma UpsertAtGroupEntry(layout: VaultPathLayout, secrets: Secrets, previous: Option<TokenRecord>,
                           record: TokenRecord, stale: seq<string>, g: string, t: string)
    requires UpsertInputs(previous, record, stale) && Name(g)
    ensures
      var p := layout.GroupTokenPath(g, t);
      Lookup(Replay(secrets, UpsertWrites(layout, previous, record, stale)), p) ==
      if t == record.tokenId && g in record.grantedGroups then Some(GroupEntry(record, g))
      else if t == record.tokenId && g in StaleGroups(previous, record) then None
      else Lookup(secrets, p)
  {
    var p := layout.GroupTokenPath(g, t);
    layout.PathsLocated();
    ReplayLookup(secrets, UpsertWrites(layout, previous, record, stale), p);
    LastOfUpsert(layout, previous, record, stale, p);
    LastOfBlocks(layout, previous, record, stale, p);
    LastOnMember(OwnerDeletes(layout, previous, record), p);
  }

  /** Every other path keeps its secret, apart from the canonical path of the record itself. */
  lemma UpsertElsewhere(layout: VaultPathLayout, secrets: Secrets, previous: Option<TokenRecord>, record: TokenRecord,
                        stale: seq<string>, p: string)
    requires UpsertInputs(previous, record, stale)
    requires !TokenFamily(layout.Locate(p)) || layout.Locate(p).value.TokenAt?
    ensures Lookup(Replay(secrets, UpsertWrites(layout, previous, record, stale)), p) ==
            if p == layout.TokenPath(record.tokenId) then Some(EncodeToken(record)) else Lookup(secrets, p)
  {
    layout.PathsLocated();
    ReplayLookup(secrets, UpsertWrites(layout, previous, record, stale), p);
    LastOfUpsert(layout, previous, record, stale, p);
    LastOfBlocks(layout, previous, record, stale, p);
    LastOnMember(OwnerDeletes(layout, previous, record), p);
  }

  lemma RecordReplaced(layout: VaultPathLayout, before: Secrets, after: Secrets, tokens: Tokens, record: TokenRecord)
    requires RecordsStored(layout, before, tokens) && WellNamedRecord(record)
    requires forall t :: Lookup(after, layout.TokenPath(t)) ==
               if t == record.tokenId then Some(EncodeToken(record)) else Lookup(before, layout.TokenPath(t))
    ensures RecordsStored(layout, after, tokens[record.tokenId := record])
  {
  }

  lemma RecordsFramed(layout: VaultPathLayout, before: Secrets, after: Secrets, tokens: Tokens)
    requires RecordsStored(layout, before, tokens)
    requires forall t :: Lookup(after, layout.TokenPath(t)) == Lookup(before, layout.TokenPath(t))
    ensures RecordsStored(layout, after, tokens)
  {
  }

  lemma UpsertStoresRecord(layout: VaultPathLayout, secrets: Secrets, tokens: Tokens, record: TokenRecord,
                           stale: seq<string>)
    requires RecordsStored(layout, secrets, tokens)
    requires UpsertInputs(Lookup(tokens, record.tokenId), record, stale)
    ensures
      var after := Replay(secrets, UpsertWrites(layout, Lookup(tokens, record.tokenId), record, stale));
      RecordsStored(layout, after, tokens[record.tokenId := record])
  {
    var previous := Lookup(tokens, record.tokenId);
    var after := Replay(secrets, UpsertWrites(layout, previous, record, stale));
    forall t ensures Lookup(after, layout.TokenPath(t)) ==
        if t == record.tokenId then Some(EncodeToken(record)) else Lookup(secrets, layout.TokenPath(t))
    {
      layout.LocateTokenPath(t);
      layout.LocateTokenPath(record.tokenId);
      UpsertElsewhere(layout, secrets, previous, record, stale, layout.TokenPath(t));
    }
    RecordReplaced(layout, secrets, after, tokens, record);
  }

  lemma UpsertUserEntryExact(layout: VaultPathLayout, secrets: Secrets, tokens: Tokens, record: TokenRecord,
                             stale: seq<string>, u: string, t: string)
    requires UserIndexExact(layout, secrets, tokens) && Name(u)
    requires UpsertInputs(Lookup(tokens, record.tokenId), record, stale)
    ensures
      var after := Replay(secrets, UpsertWrites(layout, Lookup(tokens, record.tokenId), record, stale));
      Lookup(after, layout.UserTokenPath(u, t)) == UserEntryFor(tokens[record.tokenId := record], u, t)
  {
    UpsertAtUserEntry(layout, secrets, Lookup(tokens, record.tokenId), record, stale, u, t);
  }

  lemma UpsertGroupEntryExact(layout: VaultPathLayout, secrets: Secrets, tokens: Tokens, record: TokenRecord,
                              stale: seq<string>, g: string, t: string)
    requires GroupIndexExact(layout, secrets, tokens) && Name(g)
    requires UpsertInputs(Lookup(tokens, record.tokenId), record, stale)
    ensures
      var after := Replay(secrets, UpsertWrites(layout, Lookup(tokens, record.tokenId), record, stale));
      Lookup(after, layout.GroupTokenPath(g, t)) == GroupEntryFor(tokens[record.tokenId := record], g, t)
  {
    UpsertAtGroupEntry(layout, secrets, Lookup(tokens, record.tokenId), record, stale, g, t);
  }

  /**
   * A completed upsert, whatever it does to owner and groups, takes a store of `tokens` to a store of
   * `tokens` with the record replaced: indexes agree with the canonical records in both directions.
   */
  lemma UpsertStores(layout: VaultPathLayout, secrets: Secrets, tokens: Tokens, record: TokenRecord, stale: seq<string>)
    requires TokensStored(layout, secrets, tokens)
    requires UpsertInputs(Lookup(tokens, record.tokenId), record, stale)
    ensures
      var after := Replay(secrets, UpsertWrites(layout, Lookup(tokens, record.tokenId), record, stale));
      TokensStored(layout, after, tokens[record.tokenId := record])
  {
    UpsertStoresRecord(layout, secrets, tokens, record, stale);
    forall u, t | Name(u) {
      UpsertUserEntryExact(layout, secrets, tokens, record, stale, u, t);
    }
    forall g, t | Name(g) {
      UpsertGroupEntryExact(layout, secrets, tokens, record, stale, g, t);
    }
  }

  /** A completed upsert, and the order in which its dropped groups came up. */
  datatype Upserted = Upserted(record: TokenRecord, stale: seq<string>)

  function TokensFrom(upserts: seq<Upserted>): Tokens {
    if upserts == [] then map[]
    else
      var last := upserts[|upserts| - 1];
      TokensFrom(upserts[..|upserts| - 1])[last.record.tokenId := last.record]
  }

  function SecretsFrom(layout: VaultPathLayout, upserts: seq<Upserted>): Secrets {
    if upserts == [] then map[]
    else
      var init, last := upserts[..|upserts| - 1], upserts[|upserts| - 1];
      Replay(SecretsFrom(layout, init),
             UpsertWrites(layout, Lookup(TokensFrom(init), last.record.tokenId), last.record, last.stale))
  }

  ghost predicate UpsertRun(upserts: seq<Upserted>) {
    forall i | 0 <= i < |upserts| ::
      UpsertInputs(Lookup(TokensFrom(upserts[..i]), upserts[i].record.tokenId), upserts[i].record, upserts[i].stale)
  }

  /** After any sequence of completed upserts the store holds exactly the in-memory map, with both indexes exact. */
  lemma {:induction false} TokenRefinement(layout: VaultPathLayout, upserts: seq<Upserted>)
    requires UpsertRun(upserts)
    ensures TokensStored(layout, SecretsFrom(layout, upserts), TokensFrom(upserts))
  {
    if upserts != [] {
      var n := |upserts| - 1;
      var init := upserts[..n];
      assert forall i | 0 <= i < n :: init[i] == upserts[i] && init[..i] == upserts[..i];
      TokenRefinement(layout, init);
      UpsertStores(layout, SecretsFrom(layout, init), TokensFrom(init), upserts[n].record, upserts[n].stale);
    }
  }

  /** Token writes leave profiles, membership blobs, group definitions and the signing key alone. */
  lemma UpsertFrame(layout: VaultPathLayout, secrets: Secrets, previous: Option<TokenRecord>, record: TokenRecord,
                    stale: seq<string>)
    requires UpsertInputs(previous, record, stale)
    ensures
      var after := Replay(secrets, UpsertWrites(layout, previous, record, stale));
      forall p | !TokenFamily(layout.Locate(p)) :: Lookup(after, p) == Lookup(secrets, p)
  {
    forall p | !TokenFamily(layout.Locate(p))
      ensures Lookup(Replay(secrets, UpsertWrites(layout, previous, record, stale)), p) == Lookup(secrets, p)
    {
      layout.LocateTokenPath(record.tokenId);
      UpsertElsewhere(layout, secrets, previous, record, stale, p);
    }
  }
}
