/** What the documents in the store say, key by key, whatever run of the service left them there. */
module Documents {
  import opened Models
  import opened Paths
  import opened Sorting
  import opened Codec
  import opened TokenStore
  import opened CrashSafety
  import opened CrashRuns
  import opened MembershipStore
  import opened VaultRepositories
  import opened Bundle

  predicate Says(data: Secret, key: string, value: Json) {
    key in data && data[key] == value
  }

  predicate SaysText(data: Secret, key: string, value: Option<string>) {
    Says(data, key, if value.Some? then Text(value.value) else Null)
  }

  predicate SaysTime(data: Secret, key: string, value: Option<Time>) {
    Says(data, key, if value.Some? then Stamp(value.value) else Null)
  }

  predicate SaysStatus(data: Secret, status: TokenStatus) {
    Says(data, "status", Text(match status case Active => "active" case Revoked => "revoked"))
  }

  // --- tokens

  ghost predicate SaysRecord(data: Secret, r: TokenRecord) {
    && data.Keys == {"token_id", "owner_sub", "granted_groups", "status", "issued_at", "expires_at", "issued_by_sub",
                     "jwt_hash", "pending_reveal", "revoked_at"}
    && Says(data, "token_id", Text(r.tokenId)) && Says(data, "owner_sub", Text(r.ownerSub))
    && SaysStatus(data, r.status)
    && Says(data, "issued_at", Stamp(r.issuedAt))
    && SaysTime(data, "expires_at", r.expiresAt) && SaysTime(data, "revoked_at", r.revokedAt)
    && SaysText(data, "issued_by_sub", r.issuedBySub) && SaysText(data, "jwt_hash", r.jwtHash)
    && Says(data, "pending_reveal", Bool(r.pendingReveal))
    && var groups := data["granted_groups"];
       && groups.List? && |groups.items| == |r.grantedGroups|
       && forall i | 0 <= i < |groups.items| :: groups.items[i] == Text(r.grantedGroups[i])
  }

  /** An entry in the owner's index: the token's id, the owner, a status. */
  ghost predicate SaysOwned(data: Secret, t: string, owner: string, status: TokenStatus) {
    && data.Keys == {"token_id", "owner_sub", "status"}
    && Says(data, "token_id", Text(t)) && Says(data, "owner_sub", Text(owner)) && SaysStatus(data, status)
  }

  /** An entry in a group's index: the token's id, the group, the owner, a status. */
  ghost predicate SaysGranted(data: Secret, t: string, group: string, owner: string, status: TokenStatus) {
    && data.Keys == {"token_id", "group_name", "owner_sub", "status"}
    && Says(data, "token_id", Text(t)) && Says(data, "group_name", Text(group))
    && Says(data, "owner_sub", Text(owner)) && SaysStatus(data, status)
  }

  ghost predicate RecordSaid(layout: VaultPathLayout, secrets: Secrets, tokens: Tokens, t: string) {
    if t in tokens then layout.TokenPath(t) in secrets && SaysRecord(secrets[layout.TokenPath(t)], tokens[t])
    else layout.TokenPath(t) !in secrets
  }

  /** A status in an index entry: the record's, except that a stop can leave a revoked token's entry active. */
  predicate StatusSound(indexed: TokenStatus, status: TokenStatus, t: string, inexact: set<string>) {
    (t !in inexact ==> indexed == status) && (indexed.Revoked? ==> status.Revoked?)
  }

  ghost predicate OwnedSaid(layout: VaultPathLayout, secrets: Secrets, tokens: Tokens, unlisted: set<string>,
                            inexact: set<string>, u: string, t: string) {
    var path := layout.UserTokenPath(u, t);
    && (path in secrets <==> t in tokens && tokens[t].ownerSub == u && t !in unlisted)
    && (path in secrets ==> exists status ::
          SaysOwned(secrets[path], t, u, status) && StatusSound(status, tokens[t].status, t, inexact))
  }

  ghost predicate GrantedSaid(layout: VaultPathLayout, secrets: Secrets, tokens: Tokens, inexact: set<string>,
                              g: string, t: string) {
    var path := layout.GroupTokenPath(g, t);
    && (path in secrets ==> t in tokens && g in tokens[t].grantedGroups)
    && (t in tokens && g in tokens[t].grantedGroups && t !in inexact ==> path in secrets)
    && (path in secrets ==> exists status ::
          && SaysGranted(secrets[path], t, g, tokens[t].ownerSub, status)
          && StatusSound(status, tokens[t].status, t, inexact))
  }

  /**
   * At every canonical path there is the token's record; in every user's index exactly the user's tokens, apart from
   * unlisted ones, and in every group's index only tokens that grant it, all of them if their entries are exact.
   * Each entry names its token, its owner and its group, and has the token's status unless it is inexact.
   */
  ghost predicate TokensSaid(layout: VaultPathLayout, secrets: Secrets, tokens: Tokens, unlisted: set<string>,
                             inexact: set<string>) {
    && (forall t :: RecordSaid(layout, secrets, tokens, t))
    && (forall u, t | Name(u) :: OwnedSaid(layout, secrets, tokens, unlisted, inexact, u, t))
    && (forall g, t | Name(g) :: GrantedSaid(layout, secrets, tokens, inexact, g, t))
  }

  lemma RecordSays(r: TokenRecord)
    ensures SaysRecord(EncodeToken(r), r)
  {
  }

  lemma EntriesSay(r: TokenRecord, group: string)
    ensures SaysOwned(UserEntry(r), r.tokenId, r.ownerSub, r.status)
    ensures SaysGranted(GroupEntry(r, group), r.tokenId, group, r.ownerSub, r.status)
  {
  }

  lemma OwnedSays(layout: VaultPathLayout, secrets: Secrets, tokens: Tokens, unlisted: set<string>,
                  inexact: set<string>, u: string, t: string)
    requires TokensHeld(layout, secrets, tokens, unlisted, inexact) && Name(u)
    ensures OwnedSaid(layout, secrets, tokens, unlisted, inexact, u, t)
  {
    hide GroupIndexSound, UserEntry, GroupEntry, SaysOwned, SaysGranted, RecordsStored, VaultPathLayout.UserTokenPath;
    HeldRecords(layout, secrets, tokens, unlisted, inexact);
    var path := layout.UserTokenPath(u, t);
    if path in secrets {
      var r := tokens[t];
      assert EntryUpToStatus(Lookup(secrets, path), UserEntry(r), UserEntry(r.(status := Active)), r.status);
      EntriesSay(r, "");
      EntriesSay(r.(status := Active), "");
      var status := if secrets[path] == UserEntry(r) then r.status else Active;
      assert t !in inexact ==> Lookup(secrets, path) == UserEntryFor(tokens, u, t);
      assert SaysOwned(secrets[path], t, u, status) && StatusSound(status, r.status, t, inexact);
    }
  }

  lemma GrantedSays(layout: VaultPathLayout, secrets: Secrets, tokens: Tokens, unlisted: set<string>,
                    inexact: set<string>, g: string, t: string)
    requires TokensHeld(layout, secrets, tokens, unlisted, inexact) && Name(g)
    ensures GrantedSaid(layout, secrets, tokens, inexact, g, t)
  {
    hide UserIndexSound, UnlistedKnown, UserEntry, GroupEntry, SaysOwned, SaysGranted, RecordsStored;
    hide VaultPathLayout.GroupTokenPath;
    HeldRecords(layout, secrets, tokens, unlisted, inexact);
    var path := layout.GroupTokenPath(g, t);
    assert t !in inexact ==> Lookup(secrets, path) == GroupEntryFor(tokens, g, t);
    if path in secrets {
      var r := tokens[t];
      assert EntryUpToStatus(Lookup(secrets, path), GroupEntry(r, g), GroupEntry(r.(status := Active), g), r.status);
      EntriesSay(r, g);
      EntriesSay(r.(status := Active), g);
      var status := if secrets[path] == GroupEntry(r, g) then r.status else Active;
      assert SaysGranted(secrets[path], t, g, r.ownerSub, status) && StatusSound(status, r.status, t, inexact);
    }
  }

  /** Whatever completed and stopped writes have left. */
  lemma HeldSays(layout: VaultPathLayout, secrets: Secrets, tokens: Tokens, unlisted: set<string>,
                 inexact: set<string>)
    requires TokensHeld(layout, secrets, tokens, unlisted, inexact)
    ensures TokensSaid(layout, secrets, tokens, unlisted, inexact)
  {
    hide OwnedSaid, GrantedSaid, UserIndexSound, GroupIndexSound, UnlistedKnown, InexactKnown, EncodeToken, SaysRecord;
    forall t ensures RecordSaid(layout, secrets, tokens, t) {
      assert Lookup(secrets, layout.TokenPath(t)) == if t in tokens then Some(EncodeToken(tokens[t])) else None;
      if t in tokens {
        RecordSays(tokens[t]);
      }
    }
    hide TokensHeld;
    forall u, t | Name(u) ensures OwnedSaid(layout, secrets, tokens, unlisted, inexact, u, t) {
      OwnedSays(layout, secrets, tokens, unlisted, inexact, u, t);
    }
    forall g, t | Name(g) ensures GrantedSaid(layout, secrets, tokens, inexact, g, t) {
      GrantedSays(layout, secrets, tokens, unlisted, inexact, g, t);
    }
  }

  /** After any completed upserts, changing owner and groups or not: everything is there, with its status. */
  lemma CompletedUpsertsSay(layout: VaultPathLayout, upserts: seq<Upserted>)
    requires UpsertRun(upserts)
    ensures TokensSaid(layout, SecretsFrom(layout, upserts), TokensFrom(upserts), {}, {})
  {
    hide TokensHeld, TokensStored, TokensSaid, UpsertRun;
    TokenRefinement(layout, upserts);
    HeldExactly(layout, SecretsFrom(layout, upserts), TokensFrom(upserts));
    HeldSays(layout, SecretsFrom(layout, upserts), TokensFrom(upserts), {}, {});
  }

  /** After any run of upserts that stop anywhere, mixed with other repositories' writes. */
  lemma StoppedUpsertsSay(layout: VaultPathLayout, jobs: seq<Job>)
    requires ServiceRun(layout, jobs)
    ensures TokensSaid(layout, StoreAfter(layout, jobs), RecordsAfter(jobs), UnlistedFrom(jobs), InexactFrom(jobs))
  {
    hide TokensHeld, TokensSaid, ServiceRun;
    RunHolds(layout, jobs);
    HeldSays(layout, StoreAfter(layout, jobs), RecordsAfter(jobs), UnlistedFrom(jobs), InexactFrom(jobs));
  }

  // --- profiles, groups, memberships

  ghost predicate SaysProfile(data: Secret, p: UserProfile) {
    && data.Keys == {"keycloak_sub", "registered_at", "updated_at", "display_name", "email"}
    && Says(data, "keycloak_sub", Text(p.keycloakSub))
    && Says(data, "registered_at", Stamp(p.registeredAt)) && Says(data, "updated_at", Stamp(p.updatedAt))
    && SaysText(data, "display_name", p.displayName) && SaysText(data, "email", p.email)
  }

  ghost predicate SaysGroup(data: Secret, g: GroupDefinition) {
    && data.Keys == {"name", "description", "is_system", "is_active", "created_at"}
    && Says(data, "name", Text(g.name)) && SaysText(data, "description", g.description)
    && Says(data, "is_system", Bool(g.isSystem)) && Says(data, "is_active", Bool(g.isActive))
    && Says(data, "created_at", Stamp(g.createdAt))
  }

  ghost predicate SaysMembership(data: Secret, m: Membership) {
    && data.Keys == {"keycloak_sub", "group_name", "granted_at", "granted_by_sub"}
    && Says(data, "keycloak_sub", Text(m.keycloakSub)) && Says(data, "group_name", Text(m.groupName))
    && Says(data, "granted_at", Stamp(m.grantedAt)) && SaysText(data, "granted_by_sub", m.grantedBySub)
  }

  /** The subject's memberships in increasing order of their groups, one document for each. */
  ghost predicate SaysMemberships(data: Secret, sub: string, members: Members) {
    && data.Keys == {"keycloak_sub", "memberships"}
    && Says(data, "keycloak_sub", Text(sub))
    && data["memberships"].List?
    && var items := data["memberships"].items;
       exists groups: seq<string> ::
         && |groups| == |items| && StrictlySorted(groups)
         && (forall g :: g in groups <==> (sub, g) in members)
         && forall i | 0 <= i < |items| ::
              && items[i].Dict? && (sub, groups[i]) in members
              && SaysMembership(items[i].fields, members[(sub, groups[i])])
  }

  ghost predicate ProfileSaid(layout: VaultPathLayout, secrets: Secrets, profiles: map<string, UserProfile>,
                              sub: string) {
    var path := layout.UserProfilePath(sub);
    if sub in profiles then path in secrets && SaysProfile(secrets[path], profiles[sub]) else path !in secrets
  }

  ghost predicate GroupSaid(layout: VaultPathLayout, secrets: Secrets, groups: map<string, GroupDefinition>,
                            g: string) {
    var path := layout.GroupDefinitionPath(g);
    if g in groups then path in secrets && SaysGroup(secrets[path], groups[g]) else path !in secrets
  }

  ghost predicate MembershipsSaid(layout: VaultPathLayout, secrets: Secrets, members: Members, sub: string) {
    var path := layout.UserGroupsPath(sub);
    if exists g :: (sub, g) in members then path in secrets && SaysMemberships(secrets[path], sub, members)
    else path !in secrets
  }

  function GroupsOf(ms: seq<Membership>): seq<string> {
    seq(|ms|, i requires 0 <= i < |ms| => ms[i].groupName)
  }

  /** A stored list has the subject's groups in strictly increasing order, each with its membership. */
  lemma BlobLists(sub: string, blobs: Blobs, members: Members)
    requires GoodBlobs(blobs) && Agree(blobs, members) && sub in blobs
    ensures
      var ms, groups := blobs[sub], GroupsOf(blobs[sub]);
      && StrictlySorted(groups)
      && (forall g :: g in groups <==> (sub, g) in members)
      && forall i | 0 <= i < |ms| :: (sub, groups[i]) in members && members[(sub, groups[i])] == ms[i]
  {
    var ms, groups := blobs[sub], GroupsOf(blobs[sub]);
    assert GoodBlob(sub, ms);
    forall i, j | 0 <= i < j < |groups| ensures StringLe(groups[i], groups[j]) && groups[i] != groups[j] {
      assert GroupLe(ms[i], ms[j]);
    }
    hide StringLe;
    forall i | 0 <= i < |ms| ensures (sub, groups[i]) in members && members[(sub, groups[i])] == ms[i] {
      assert ms[i] in ms;
    }
    forall g | (sub, g) in members ensures g in groups {
      var i :| 0 <= i < |ms| && ms[i] == members[(sub, g)];
      assert groups[i] == g;
    }
  }

  lemma BlobSays(sub: string, blobs: Blobs, members: Members)
    requires GoodBlobs(blobs) && Agree(blobs, members) && sub in blobs
    ensures SaysMemberships(EncodeBlob(sub, blobs[sub]), sub, members)
  {
    hide EncodeMembership, SaysMembership, GoodBlobs, Agree, StrictlySorted;
    BlobLists(sub, blobs, members);
    var groups, items := GroupsOf(blobs[sub]), EncodeMemberships(blobs[sub]);
    forall i | 0 <= i < |items|
      ensures items[i].Dict? && (sub, groups[i]) in members
      ensures SaysMembership(items[i].fields, members[(sub, groups[i])])
    {
      OneMembershipSays(blobs[sub][i]);
    }
  }

  lemma OneMembershipSays(m: Membership)
    ensures SaysMembership(EncodeMembership(m), m)
  {
  }

  lemma MembershipsSay(layout: VaultPathLayout, secrets: Secrets, blobs: Blobs, members: Members, sub: string)
    requires BlobsStored(layout, secrets, blobs) && GoodBlobs(blobs) && Agree(blobs, members) && Name(sub)
    ensures MembershipsSaid(layout, secrets, members, sub)
  {
    hide EncodeBlob, SaysMemberships;
    if sub in blobs {
      BlobSays(sub, blobs, members);
      assert GoodBlob(sub, blobs[sub]);
      var m := blobs[sub][0];
      assert m in blobs[sub];
      assert (sub, m.groupName) in members;
    } else {
      forall g ensures (sub, g) !in members {
        assert (sub, g).0 !in blobs;
      }
    }
  }

  // --- the whole store

  ghost predicate StoreSaid(layout: VaultPathLayout, secrets: Secrets, s: State) {
    && TokensSaid(layout, secrets, s.tokens, s.unlisted, s.inexact)
    && (forall sub | Name(sub) :: ProfileSaid(layout, secrets, s.profiles, sub))
    && (forall g | Name(g) :: GroupSaid(layout, secrets, s.groups, g))
    && (forall sub | Name(sub) :: MembershipsSaid(layout, secrets, s.members, sub))
  }

  /** Over Vault, the store says what the bundle's view has. */
  ghost predicate BundleSaid(bundle: RepositoryBundle)
    reads bundle.Footprint()
  {
    match bundle
    case Memory(_, _, _, _, _) => true
    case Vault(p, _) => StoreSaid(p.users.paths, p.users.client.secrets, bundle.View())
  }

  lemma BundleSays(bundle: RepositoryBundle)
    requires bundle.Valid()
    ensures BundleSaid(bundle)
  {
    hide TokensHeld, TokensSaid, ProfileSaid, GroupSaid, MembershipsSaid, GoodBlobs, Agree, BlobsStored;
    match bundle
    case Memory(_, _, _, _, _) =>
    case Vault(p, _) =>
      var layout, secrets, s := p.users.paths, p.users.client.secrets, bundle.View();
      HeldSays(layout, secrets, s.tokens, s.unlisted, s.inexact);
      forall sub | Name(sub)
        ensures ProfileSaid(layout, secrets, s.profiles, sub) && MembershipsSaid(layout, secrets, s.members, sub)
      {
        ProfileSays(layout, secrets, s.profiles, sub);
        MembershipsSay(layout, secrets, p.memberships.blobs, s.members, sub);
      }
      forall g | Name(g) ensures GroupSaid(layout, secrets, s.groups, g) {
        GroupSays(layout, secrets, s.groups, g);
      }
  }

  lemma ProfileSays(layout: VaultPathLayout, secrets: Secrets, profiles: map<string, UserProfile>, sub: string)
    requires ProfilesStored(layout, secrets, profiles) && Name(sub)
    ensures ProfileSaid(layout, secrets, profiles, sub)
  {
    assert sub in profiles ==> Lookup(secrets, layout.UserProfilePath(sub)) == Some(EncodeProfile(profiles[sub]));
  }

  lemma GroupSays(layout: VaultPathLayout, secrets: Secrets, groups: map<string, GroupDefinition>, g: string)
    requires GroupsStored(layout, secrets, groups) && Name(g)
    ensures GroupSaid(layout, secrets, groups, g)
  {
    assert g in groups ==> Lookup(secrets, layout.GroupDefinitionPath(g)) == Some(EncodeGroup(groups[g]));
  }
}
