/** The Vault-backed repositories: four classes over one shared client. */
module VaultRepositories {
  import opened Models
  import opened Paths
  import opened Sorting
  import opened Codec
  import opened VaultStore
  import opened TokenStore
  import opened MembershipStore
  import opened CrashSafety

  ghost predicate ProfilesStored(layout: VaultPathLayout, secrets: Secrets, profiles: map<string, UserProfile>) {
    && (forall s | s in profiles :: Name(s) && profiles[s].keycloakSub == s)
    && (forall s | Name(s) ::
          Lookup(secrets, layout.UserProfilePath(s)) ==
          if s in profiles then Some(EncodeProfile(profiles[s])) else None)
  }

  ghost predicate GroupsStored(layout: VaultPathLayout, secrets: Secrets, groups: map<string, GroupDefinition>) {
    && (forall g | g in groups :: Name(g) && groups[g].name == g)
    && (forall g | Name(g) ::
          Lookup(secrets, layout.GroupDefinitionPath(g)) == if g in groups then Some(EncodeGroup(groups[g])) else None)
  }

  class VaultUserRepository {
    const client: VaultClient
    const paths: VaultPathLayout
    ghost var contents: map<string, UserProfile>

    ghost predicate Valid()
      reads this, client
    {
      ProfilesStored(paths, client.secrets, contents)
    }

    /** Attaches to a store that already holds `existing`. */
    constructor (client: VaultClient, paths: VaultPathLayout, ghost existing: map<string, UserProfile>)
      requires ProfilesStored(paths, client.secrets, existing)
      ensures Valid() && contents == existing && this.client == client && this.paths == paths
    {
      this.client, this.paths, contents := client, paths, existing;
    }

    method Get(sub: string) returns (r: Option<UserProfile>)
      requires Valid() && Name(sub)
      ensures r == Lookup(contents, sub)
    {
      var data := client.ReadSecret(paths.UserProfilePath(sub));
      if data.None? {
        return None;
      }
      var now: Time := *;
      ProfileRoundTrip(contents[sub], now);
      r := Some(DecodeProfile(data.value, now).value);
    }

    method Upsert(profile: UserProfile)
      requires Valid() && Name(profile.keycloakSub)
      modifies this, client
      ensures Valid() && contents == old(contents)[profile.keycloakSub := profile]
      ensures client.journal == old(client.journal)
              + [Put(paths.UserProfilePath(profile.keycloakSub), EncodeProfile(profile))]
      ensures client.secrets
              == Apply(old(client.secrets), Put(paths.UserProfilePath(profile.keycloakSub), EncodeProfile(profile)))
    {
      client.WriteSecret(paths.UserProfilePath(profile.keycloakSub), EncodeProfile(profile));
      contents := contents[profile.keycloakSub := profile];
      ProfileWriteStores(paths, old(client.secrets), old(contents), profile);
    }

    method IsRegistered(sub: string) returns (r: bool)
      requires Valid() && Name(sub)
      ensures r <==> sub in contents
    {
      r := client.SecretExists(paths.UserProfilePath(sub));
      assert Lookup(client.secrets, paths.UserProfilePath(sub)).Some? <==> sub in contents;
    }
  }

  lemma ProfileWriteStores(layout: VaultPathLayout, secrets: Secrets, profiles: map<string, UserProfile>,
                           profile: UserProfile)
    requires ProfilesStored(layout, secrets, profiles) && Name(profile.keycloakSub)
    ensures ProfilesStored(layout,
                           Apply(secrets, Put(layout.UserProfilePath(profile.keycloakSub), EncodeProfile(profile))),
                           profiles[profile.keycloakSub := profile])
  {
    var path := layout.UserProfilePath(profile.keycloakSub);
    var after := secrets[path := EncodeProfile(profile)];
    forall s | Name(s) ensures Lookup(after, layout.UserProfilePath(s)) ==
        if s == profile.keycloakSub then Some(EncodeProfile(profile)) else Lookup(secrets, layout.UserProfilePath(s))
    {
      layout.LocateUserProfilePath(s);
      layout.LocateUserProfilePath(profile.keycloakSub);
    }
  }

  lemma DefinitionWriteStores(layout: VaultPathLayout, secrets: Secrets, groups: map<string, GroupDefinition>,
                              group: GroupDefinition)
    requires GroupsStored(layout, secrets, groups) && Name(group.name)
    ensures GroupsStored(layout, Apply(secrets, Put(layout.GroupDefinitionPath(group.name), EncodeGroup(group))),
                         groups[group.name := group])
  {
    var path := layout.GroupDefinitionPath(group.name);
    var after := secrets[path := EncodeGroup(group)];
    forall g | Name(g) ensures Lookup(after, layout.GroupDefinitionPath(g)) ==
        if g == group.name then Some(EncodeGroup(group)) else Lookup(secrets, layout.GroupDefinitionPath(g))
    {
      layout.LocateGroupDefinitionPath(g);
      layout.LocateGroupDefinitionPath(group.name);
    }
  }

  class VaultGroupRepository {
    const client: VaultClient
    const paths: VaultPathLayout
    ghost var contents: map<string, GroupDefinition>

    ghost predicate Valid()
      reads this, client
    {
      GroupsStored(paths, client.secrets, contents)
    }

    constructor (client: VaultClient, paths: VaultPathLayout, ghost existing: map<string, GroupDefinition>)
      requires GroupsStored(paths, client.secrets, existing)
      ensures Valid() && contents == existing && this.client == client && this.paths == paths
    {
      this.client, this.paths, contents := client, paths, existing;
    }

    method Get(name: string) returns (r: Option<GroupDefinition>)
      requires Valid() && Name(name)
      ensures r == Lookup(contents, name)
    {
      var data := client.ReadSecret(paths.GroupDefinitionPath(name));
      if data.None? {
        return None;
      }
      var now: Time := *;
      GroupRoundTrip(contents[name], now);
      r := Some(DecodeGroup(data.value, now).value);
    }

    method Upsert(group: GroupDefinition)
      requires Valid() && Name(group.name)
      modifies this, client
      ensures Valid() && contents == old(contents)[group.name := group]
      ensures client.journal == old(client.journal) + [Put(paths.GroupDefinitionPath(group.name), EncodeGroup(group))]
      ensures client.secrets
              == Apply(old(client.secrets), Put(paths.GroupDefinitionPath(group.name), EncodeGroup(group)))
    {
      client.WriteSecret(paths.GroupDefinitionPath(group.name), EncodeGroup(group));
      contents := contents[group.name := group];
      DefinitionWriteStores(paths, old(client.secrets), old(contents), group);
    }
  }

  /** `list_known_user_ids`: the distinct child names under the users root, sorted. */
  method ListKnownUserIds(client: VaultClient, paths: VaultPathLayout) returns (ids: seq<string>)
    ensures StrictlySorted(ids)
    ensures Lists(ids, KnownUsers(paths, client.secrets.Keys))
  {
    var keys := client.ListSecrets(paths.UsersRoot());
    var names: seq<string> := [];
    for i := 0 to |keys|
      invariant NoDuplicates(names)
      invariant forall x :: x in names <==> exists j | 0 <= j < i :: StripSlashes(keys[j]) == x && x != ""
    {
      var id := StripSlashes(keys[i]);
      if id != "" && id !in names {
        names := names + [id];
      }
    }
    forall x ensures x in names <==> x in KnownUsers(paths, client.secrets.Keys) {
      if x in KnownUsers(paths, client.secrets.Keys) {
        var key :| key in Children(client.secrets.Keys, paths.UsersRoot()) && StripSlashes(key) == x;
        assert key in keys;
      }
      if x in names {
        var j :| 0 <= j < |keys| && StripSlashes(keys[j]) == x && x != "";
        assert keys[j] in keys;
      }
    }
    ids := SortNames(names);
    SortNamesStrict(names);
  }

  class VaultGroupMembershipRepository {
    const client: VaultClient
    const paths: VaultPathLayout
    ghost var blobs: Blobs
    ghost var contents: Members

    ghost predicate Valid()
      reads this, client
    {
      BlobsStored(paths, client.secrets, blobs) && GoodBlobs(blobs) && Agree(blobs, contents)
    }

    constructor (client: VaultClient, paths: VaultPathLayout, ghost stored: Blobs, ghost existing: Members)
      requires BlobsStored(paths, client.secrets, stored) && GoodBlobs(stored) && Agree(stored, existing)
      ensures Valid() && contents == existing && blobs == stored && this.client == client && this.paths == paths
    {
      this.client, this.paths, blobs, contents := client, paths, stored, existing;
    }

    method LoadMemberships(sub: string) returns (ms: seq<Membership>)
      requires Valid() && Name(sub)
      ensures ms == Loaded(blobs, sub)
    {
      var data := client.ReadSecret(paths.UserGroupsPath(sub));
      if data.None? {
        return [];
      }
      var now: Time := *;
      BlobRoundTrip(sub, blobs[sub], now);
      ms := DecodeBlob(data.value, now).value;
    }

    method StoreMemberships(sub: string, ms: seq<Membership>)
      requires Name(sub)
      modifies client
      ensures client.journal == old(client.journal) + [BlobWrite(paths, sub, ms)]
      ensures client.secrets == Apply(old(client.secrets), BlobWrite(paths, sub, ms))
    {
      if ms == [] {
        client.DeleteSecret(paths.UserGroupsPath(sub));
        return;
      }
      client.WriteSecret(paths.UserGroupsPath(sub), EncodeBlob(sub, Sort(GroupLe, ms)));
    }

    method Add(m: Membership)
      requires Valid() && Name(m.keycloakSub)
      modifies this, client
      ensures Valid() && contents == old(contents)[(m.keycloakSub, m.groupName) := m]
      ensures blobs == BlobsAdd(old(blobs), m)
      ensures client.journal == old(client.journal) + [BlobWrite(paths, m.keycloakSub, AddedList(old(blobs), m))]
      ensures client.secrets == Apply(old(client.secrets), BlobWrite(paths, m.keycloakSub, AddedList(old(blobs), m)))
    {
      var loaded := LoadMemberships(m.keycloakSub);
      var memberships := OtherGroups(m.groupName, loaded) + [m];
      BlobWriteStores(paths, client.secrets, blobs, m.keycloakSub, memberships);
      AddAgrees(blobs, contents, m);
      StoreMemberships(m.keycloakSub, memberships);
      blobs := BlobsAdd(blobs, m);
      contents := contents[(m.keycloakSub, m.groupName) := m];
    }

    method Remove(sub: string, group: string) returns (removed: bool)
      requires Valid() && Name(sub)
      modifies this, client
      ensures Valid() && contents == old(contents) - {(sub, group)}
      ensures removed <==> (sub, group) in old(contents)
      ensures blobs == BlobsRemove(old(blobs), sub, group).0
      ensures !removed ==> client.secrets == old(client.secrets) && client.journal == old(client.journal)
      ensures removed ==>
        var left := OtherGroups(group, Loaded(old(blobs), sub));
        && blobs == WithBlob(old(blobs), sub, left)
        && client.journal == old(client.journal) + [BlobWrite(paths, sub, left)]
        && client.secrets == Apply(old(client.secrets), BlobWrite(paths, sub, left))
    {
      var memberships := LoadMemberships(sub);
      var updated := OtherGroups(group, memberships);
      RemoveAgrees(blobs, contents, sub, group);
      if |updated| == |memberships| {
        contents := contents - {(sub, group)};
        return false;
      }
      BlobWriteStores(paths, client.secrets, blobs, sub, updated);
      StoreMemberships(sub, updated);
      blobs := BlobsRemove(blobs, sub, group).0;
      contents := contents - {(sub, group)};
      removed := true;
    }

    method HasMembership(sub: string, group: string) returns (found: bool)
      requires Valid() && Name(sub)
      ensures found <==> (sub, group) in contents
    {
      var memberships := LoadMemberships(sub);
      LoadedAgrees(blobs, contents, sub, group);
      found := exists m | m in memberships :: m.groupName == group;
    }

    method ListForUser(sub: string) returns (ms: seq<Membership>)
      requires Valid() && Name(sub)
      ensures Lists(ms, MembershipsOfUser(contents, sub))
    {
      ms := LoadMemberships(sub);
      LoadedAgrees(blobs, contents, sub, "");
    }

    /** Reads every known subject's blob, in subject order. */
    method ListForGroup(group: string) returns (ms: seq<Membership>)
      requires Valid()
      ensures Lists(ms, MembershipsOfGroup(contents, group))
    {
      var ids := ListKnownUserIds(client, paths);
      KnownUsersCoverBlobs(paths, client.secrets, blobs);
      ms := [];
      for i := 0 to |ids|
        invariant NoDuplicates(ms)
        invariant forall m :: m in ms <==> m in MembershipsOfGroup(contents, group) && m.keycloakSub in ids[..i]
      {
        assert ids[i] in ids;
        var loaded := LoadMemberships(ids[i]);
        OneSubject(blobs, contents, ids[i], group);
        var part := Select((m: Membership) => m.groupName == group, loaded);
        ListingGrows(ms, part, MembershipsOfGroup(contents, group), ids, i);
        ms := ms + part;
      }
      assert ids[..|ids|] == ids;
      forall m ensures m in ms <==> m in MembershipsOfGroup(contents, group) {
        if m in MembershipsOfGroup(contents, group) {
          assert m.keycloakSub in blobs;
        }
      }
    }

    method CountMembers(group: string) returns (count: nat)
      requires Valid()
      ensures count == |MembershipsOfGroup(contents, group)|
    {
      var ms := ListForGroup(group);
      ListingSize(ms, MembershipsOfGroup(contents, group));
      count := |ms|;
    }
  }

  lemma ListingGrows(ms: seq<Membership>, part: seq<Membership>, all: set<Membership>, ids: seq<string>, i: nat)
    requires i < |ids| && NoDuplicates(ids) && NoDuplicates(ms) && NoDuplicates(part)
    requires forall m :: m in ms <==> m in all && m.keycloakSub in ids[..i]
    requires forall m :: m in part <==> m in all && m.keycloakSub == ids[i]
    ensures NoDuplicates(ms + part)
    ensures forall m :: m in ms + part <==> m in all && m.keycloakSub in ids[..i + 1]
  {
  }

  /** The part of a group's listing that one subject's blob contributes: at most one membership. */
  lemma OneSubject(blobs: Blobs, members: Members, sub: string, group: string)
    requires GoodBlobs(blobs) && Agree(blobs, members)
    ensures
      var part := Select((m: Membership) => m.groupName == group, Loaded(blobs, sub));
      && NoDuplicates(part)
      && forall m :: m in part <==> m in MembershipsOfGroup(members, group) && m.keycloakSub == sub
  {
    var p := (m: Membership) => m.groupName == group;
    var loaded := Loaded(blobs, sub);
    SelectElements(p, loaded);
    SelectNoDuplicates(p, loaded);
    forall m ensures m in Select(p, loaded) <==> m in MembershipsOfGroup(members, group) && m.keycloakSub == sub {
      if m in loaded && m.groupName == group {
        assert (sub, group) in members && members[(sub, group)] == m;
      }
    }
  }

  lemma {:induction false} SelectNoDuplicates<T(!new)>(p: T -> bool, xs: seq<T>)
    requires NoDuplicates(xs)
    ensures NoDuplicates(Select(p, xs))
  {
    if xs != [] {
      var init := xs[..|xs| - 1];
      SelectNoDuplicates(p, init);
      SelectElements(p, init);
    }
  }

  class VaultTokenRepository {
    const client: VaultClient
    const paths: VaultPathLayout
    ghost var contents: Tokens
    ghost var unlisted: set<string>
    ghost var inexact: set<string>

    /** The store may be what stopped token writes have left; both ghost sets say what they left undone. */
    ghost predicate Valid()
      reads this, client
    {
      TokensHeld(paths, client.secrets, contents, unlisted, inexact)
    }

    constructor (client: VaultClient, paths: VaultPathLayout, ghost existing: Tokens, ghost unlisted: set<string>,
                 ghost inexact: set<string>)
      requires TokensHeld(paths, client.secrets, existing, unlisted, inexact)
      ensures Valid() && contents == existing && this.unlisted == unlisted && this.inexact == inexact
      ensures this.client == client && this.paths == paths
    {
      this.client, this.paths, contents, this.unlisted, this.inexact := client, paths, existing, unlisted, inexact;
    }

    /** Reads the canonical path only; the indexes may be in any state. */
    method Get(tokenId: string) returns (r: Option<TokenRecord>)
      requires RecordsStored(paths, client.secrets, contents)
      ensures r == Lookup(contents, tokenId)
    {
      var data := client.ReadSecret(paths.TokenPath(tokenId));
      if data.None? {
        return None;
      }
      var now: Time := *;
      TokenRoundTrip(contents[tokenId], now);
      r := Some(DecodeToken(data.value, now).value);
    }

    method Upsert(record: TokenRecord) returns (ghost stale: seq<string>)
      requires Valid() && WellNamedRecord(record)
      modifies this, client
      ensures Valid() && contents == old(contents)[record.tokenId := record]
      ensures unlisted == old(unlisted) - {record.tokenId} && inexact == old(inexact) - {record.tokenId}
      ensures Lists(stale, StaleGroups(Lookup(old(contents), record.tokenId), record))
      ensures
        var writes := UpsertWrites(paths, Lookup(old(contents), record.tokenId), record, stale);
        && client.journal == old(client.journal) + writes
        && client.secrets == Replay(old(client.secrets), writes)
    {
      hide TokensHeld, RecordsStored, UpsertWrites;
      HeldRecords(paths, client.secrets, contents, unlisted, inexact);
      var previous := Get(record.tokenId);
      stale := WriteRecord(previous, record);
      UpsertHolds(paths, old(client.secrets), contents, unlisted, inexact, record, stale);
      contents := contents[record.tokenId := record];
      unlisted, inexact := unlisted - {record.tokenId}, inexact - {record.tokenId};
    }

    /**
     * What is left of an upsert when the process stops after `done` of the writes `Upsert` makes. The services
     * issue only the two kinds of upsert this is about.
     */
    method UpsertStopped(record: TokenRecord, done: nat)
      requires Valid() && ServiceUpsert(contents, record)
      modifies this, client
      ensures Valid() && contents == TokensAfter(old(contents), record, done)
      ensures unlisted == UnlistedAfter(old(contents), old(unlisted), record.tokenId, done)
      ensures inexact == InexactAfter(old(inexact), record.tokenId, WriteCount(record), done)
      ensures
        var writes := UpsertWrites(paths, Lookup(old(contents), record.tokenId), record, []);
        var made := if done <= |writes| then writes[..done] else writes;
        && Lists([], StaleGroups(Lookup(old(contents), record.tokenId), record))
        && client.journal == old(client.journal) + made
        && client.secrets == Replay(old(client.secrets), made)
    {
      hide TokensHeld, UpsertWrites, ServiceUpsert, Replay;
      var writes := ServiceWrites(paths, record);
      var k := if done <= |writes| then done else |writes|;
      ServiceUpsertDeletesNothing(paths, contents, record);
      ServiceWriteCount(paths, record);
      assert writes[..|writes|] == writes;
      MakeWrites(writes[..k]);
      StopHolds(paths, old(client.secrets), contents, unlisted, inexact, record, k);
      unlisted, inexact :=
          UnlistedAfter(contents, unlisted, record.tokenId, done),
          InexactAfter(inexact, record.tokenId, WriteCount(record), done);
      contents := TokensAfter(contents, record, done);
    }

    /** The writes and deletes of one upsert, given the record it replaces. */
    method WriteRecord(previous: Option<TokenRecord>, record: TokenRecord) returns (ghost stale: seq<string>)
      modifies client
      ensures Lists(stale, StaleGroups(previous, record))
      ensures client.journal == old(client.journal) + UpsertWrites(paths, previous, record, stale)
      ensures client.secrets == Replay(old(client.secrets), UpsertWrites(paths, previous, record, stale))
    {
      client.WriteSecret(paths.TokenPath(record.tokenId), EncodeToken(record));
      DropOwnerEntry(previous, record);
      stale := DropStaleGroups(StaleGroups(previous, record), record);
      client.WriteSecret(paths.UserTokenPath(record.ownerSub, record.tokenId), UserEntry(record));
      WriteGroupEntries(record);
      ReplayUpsert(paths, old(client.secrets), previous, record, stale);
      ConcatUpsert(paths, old(client.journal), previous, record, stale);
    }

    /** The conditional that deletes the previous owner's index entry. */
    method DropOwnerEntry(previous: Option<TokenRecord>, record: TokenRecord)
      modifies client
      ensures client.secrets == Replay(old(client.secrets), OwnerDeletes(paths, previous, record))
      ensures client.journal == old(client.journal) + OwnerDeletes(paths, previous, record)
    {
      if previous.Some? && previous.value.ownerSub != record.ownerSub {
        client.DeleteSecret(paths.UserTokenPath(previous.value.ownerSub, previous.value.tokenId));
      }
    }

    /** The loop that deletes the index entries of groups the record no longer grants, in the set's own order. */
    method DropStaleGroups(dropped: set<string>, record: TokenRecord) returns (ghost stale: seq<string>)
      modifies client
      ensures Lists(stale, dropped)
      ensures client.secrets == Replay(old(client.secrets), GroupDeletes(paths, record, stale))
      ensures client.journal == old(client.journal) + GroupDeletes(paths, record, stale)
    {
      stale := [];
      var todo := dropped;
      while todo != {}
        invariant NoDuplicates(stale)
        invariant forall g :: g in dropped <==> g in todo || g in stale
        invariant forall g | g in todo :: g !in stale
        invariant client.secrets == Replay(old(client.secrets), GroupDeletes(paths, record, stale))
        invariant client.journal == old(client.journal) + GroupDeletes(paths, record, stale)
      {
        var group :| group in todo;
        client.DeleteSecret(paths.GroupTokenPath(group, record.tokenId));
        ghost var w := Delete(paths.GroupTokenPath(group, record.tokenId));
        ReplayStep(old(client.secrets), GroupDeletes(paths, record, stale), w);
        assert GroupDeletes(paths, record, stale + [group]) == GroupDeletes(paths, record, stale) + [w];
        stale := stale + [group];
        todo := todo - {group};
      }
    }

    /** The loop that writes one index entry per granted group. */
    method WriteGroupEntries(record: TokenRecord)
      modifies client
      ensures client.secrets == Replay(old(client.secrets), GroupPuts(paths, record, record.grantedGroups))
      ensures client.journal == old(client.journal) + GroupPuts(paths, record, record.grantedGroups)
    {
      ghost var puts := GroupPuts(paths, record, record.grantedGroups);
      ReplayPrefix(client.secrets, puts, 0);
      for i := 0 to |record.grantedGroups|
        invariant client.secrets == Replay(old(client.secrets), puts[..i])
        invariant client.journal == old(client.journal) + puts[..i]
      {
        var group := record.grantedGroups[i];
        client.WriteSecret(paths.GroupTokenPath(group, record.tokenId), GroupEntry(record, group));
        ReplayPrefix(old(client.secrets), puts, i + 1);
      }
      ReplayPrefix(old(client.secrets), puts, |puts|);
    }

    method MakeWrites(writes: seq<Write>)
      requires forall w | w in writes :: w.Put?
      modifies client
      ensures client.secrets == Replay(old(client.secrets), writes)
      ensures client.journal == old(client.journal) + writes
    {
      ReplayPrefix(client.secrets, writes, 0);
      for i := 0 to |writes|
        invariant client.secrets == Replay(old(client.secrets), writes[..i])
        invariant client.journal == old(client.journal) + writes[..i]
      {
        assert writes[i] in writes;
        client.WriteSecret(writes[i].path, writes[i].data);
        ReplayPrefix(old(client.secrets), writes, i + 1);
      }
      ReplayPrefix(old(client.secrets), writes, |writes|);
    }

    /** Follows the user index only, and never filters by owner; a token whose mint stopped early may be missing. */
    method ListForUser(ownerSub: string) returns (result: seq<TokenRecord>)
      requires Valid() && Name(ownerSub)
      ensures Lists(result, ListedOf(contents, unlisted, ownerSub))
    {
      hide RecordsStored, UserIndexSound, GroupIndexSound, UnlistedKnown, InexactKnown, Children, StripSlashes;
      HeldRecords(paths, client.secrets, contents, unlisted, inexact);
      var keys := client.ListSecrets(paths.UserTokensRoot(ownerSub));
      UserIndexListing(paths, client.secrets, contents, unlisted, ownerSub);
      result := [];
      for i := 0 to |keys|
        invariant |result| == i
        invariant forall j | 0 <= j < i :: keys[j] in contents && result[j] == contents[keys[j]]
      {
        assert keys[i] in keys;
        StripPlain(keys[i]);
        var tokenId := StripSlashes(keys[i]);
        if tokenId == "" {
          continue;
        }
        var record := Get(tokenId);
        if record.Some? {
          result := result + [record.value];
        }
      }
      ReadsAreListed(contents, unlisted, ownerSub, keys, result);
    }
  }

  lemma ReadsAreListed(tokens: Tokens, unlisted: set<string>, u: string, ids: seq<string>, records: seq<TokenRecord>)
    requires TokensKeyed(tokens) && NoDuplicates(ids) && |records| == |ids|
    requires forall id :: id in ids <==> id in tokens && tokens[id].ownerSub == u && id !in unlisted
    requires forall j | 0 <= j < |ids| :: ids[j] in tokens && records[j] == tokens[ids[j]]
    ensures Lists(records, ListedOf(tokens, unlisted, u))
  {
    forall r ensures r in records <==> r in ListedOf(tokens, unlisted, u) {
      if r in ListedOf(tokens, unlisted, u) {
        assert r.tokenId in ids;
        var j :| 0 <= j < |ids| && ids[j] == r.tokenId;
        assert records[j] == r;
      }
      if r in records {
        var j :| 0 <= j < |records| && records[j] == r;
        assert ids[j] in ids;
      }
    }
  }

  lemma StripPlain(key: string)
    requires '/' !in key
    ensures StripSlashes(key) == key
  {
  }

  /** A name listed under a user's token index is the id of a listed token of the user. */
  lemma ListedIsOwned(layout: VaultPathLayout, secrets: Secrets, tokens: Tokens, unlisted: set<string>, u: string,
                      id: string)
    requires TokensKeyed(tokens) && forall t | t in tokens :: WellNamedRecord(tokens[t])
    requires UserIndexSound(layout, secrets, tokens)
    requires UnlistedKnown(layout, secrets, tokens, unlisted) && Name(u)
    requires id in Children(secrets.Keys, layout.UserTokensRoot(u))
    ensures Name(id) && id in tokens && tokens[id].ownerSub == u && id !in unlisted
  {
    var root := layout.UserTokensRoot(u);
    var path :| path in secrets.Keys && Below(path, root) && id == Entry(path[|root| + 1..]);
    var rest := path[|root| + 1..];
    assert path == layout.UserTokenPath(u, rest);
    assert rest in tokens && WellNamedRecord(tokens[rest]);
    CutAt(rest, "");
  }

  lemma OwnedIsListed(layout: VaultPathLayout, secrets: Secrets, tokens: Tokens, unlisted: set<string>, id: string)
    requires UnlistedKnown(layout, secrets, tokens, unlisted) && id in tokens && Name(id) && id !in unlisted
    ensures id in Children(secrets.Keys, layout.UserTokensRoot(tokens[id].ownerSub))
  {
    var root, path := layout.UserTokensRoot(tokens[id].ownerSub), layout.UserTokenPath(tokens[id].ownerSub, id);
    assert Below(path, root) && path[|root| + 1..] == id;
    CutAt(id, "");
  }

  /** The names listed under a user's token index are exactly the ids of the user's tokens that are listed at all. */
  lemma UserIndexListing(layout: VaultPathLayout, secrets: Secrets, tokens: Tokens, unlisted: set<string>, u: string)
    requires RecordsStored(layout, secrets, tokens) && UserIndexSound(layout, secrets, tokens)
    requires UnlistedKnown(layout, secrets, tokens, unlisted) && Name(u)
    ensures forall id :: id in Children(secrets.Keys, layout.UserTokensRoot(u))
                    <==> id in tokens && tokens[id].ownerSub == u && id !in unlisted
    ensures forall id | id in Children(secrets.Keys, layout.UserTokensRoot(u)) :: Name(id)
  {
    hide UserIndexSound, UnlistedKnown, Children;
    forall id | id in Children(secrets.Keys, layout.UserTokensRoot(u))
      ensures Name(id) && id in tokens && tokens[id].ownerSub == u && id !in unlisted
    {
      ListedIsOwned(layout, secrets, tokens, unlisted, u, id);
    }
    forall id | id in tokens && tokens[id].ownerSub == u && id !in unlisted
      ensures id in Children(secrets.Keys, layout.UserTokensRoot(u))
    {
      OwnedIsListed(layout, secrets, tokens, unlisted, id);
    }
  }

  /** So after any sequence of upserts every read, and every owner's listing, has the in-memory answer. */
  lemma TokenAnswers(layout: VaultPathLayout, upserts: seq<Upserted>, t: string, u: string, now: Time)
    requires UpsertRun(upserts) && Name(u)
    ensures
      var secrets, tokens := SecretsFrom(layout, upserts), TokensFrom(upserts);
      && (if t in tokens
          then layout.TokenPath(t) in secrets && DecodeToken(secrets[layout.TokenPath(t)], now) == Ok(tokens[t])
          else layout.TokenPath(t) !in secrets)
      && (t in Children(secrets.Keys, layout.UserTokensRoot(u)) <==> t in tokens && tokens[t].ownerSub == u)
  {
    var secrets, tokens := SecretsFrom(layout, upserts), TokensFrom(upserts);
    TokenRefinement(layout, upserts);
    HeldExactly(layout, secrets, tokens);
    UserIndexListing(layout, secrets, tokens, {}, u);
    assert Lookup(secrets, layout.TokenPath(t)) == if t in tokens then Some(EncodeToken(tokens[t])) else None;
    if t in tokens {
      TokenRoundTrip(tokens[t], now);
    }
  }
}
