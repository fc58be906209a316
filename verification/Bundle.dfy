/** The repository bundle: one set of operations over either backend. */
module Bundle {
  import opened Models
  import opened Paths
  import opened Codec
  import opened VaultStore
  import opened TokenStore
  import opened CrashSafety
  import opened MembershipStore
  import opened VaultRepositories
  import opened VaultSigner
  import opened MemoryRepositories

  /** Which repository a path belongs to. */
  datatype Family = Profiles | Definitions | Blobs | Tokens | Keys | Foreign

  function FamilyOf(place: Option<Place>): Family {
    match place
    case None => Foreign
    case Some(ProfileOf(_)) => Profiles
    case Some(DefinitionOf(_)) => Definitions
    case Some(GroupsOf(_)) => Blobs
    case Some(SigningKey) => Keys
    case Some(_) => Tokens
  }

  /** The stores differ at most on the paths of one family. */
  ghost predicate OnlyTouches(layout: VaultPathLayout, before: Secrets, after: Secrets, family: Family) {
    forall p | FamilyOf(layout.Locate(p)) != family :: Lookup(after, p) == Lookup(before, p)
  }

  /** What the users of one shared store take it to hold. */
  datatype Contents = Contents(
    profiles: map<string, UserProfile>,
    groups: map<string, GroupDefinition>,
    blobs: map<string, seq<Membership>>,
    tokens: map<string, TokenRecord>,
    unlisted: set<string>,
    inexact: set<string>,
    signingKey: Option<Secret>)

  ghost predicate StoreHolds(layout: VaultPathLayout, secrets: Secrets, c: Contents) {
    && ProfilesStored(layout, secrets, c.profiles)
    && GroupsStored(layout, secrets, c.groups)
    && BlobsStored(layout, secrets, c.blobs)
    && TokensHeld(layout, secrets, c.tokens, c.unlisted, c.inexact)
    && Lookup(secrets, layout.SigningKeyPath()) == c.signingKey
  }

  lemma FrameProfiles(layout: VaultPathLayout, before: Secrets, after: Secrets, family: Family,
                      profiles: map<string, UserProfile>)
    requires ProfilesStored(layout, before, profiles)
    requires OnlyTouches(layout, before, after, family) && !family.Profiles?
    ensures ProfilesStored(layout, after, profiles)
  {
    forall s | Name(s)
      ensures Lookup(after, layout.UserProfilePath(s)) == Lookup(before, layout.UserProfilePath(s))
    {
      layout.LocateUserProfilePath(s);
    }
  }

  lemma FrameGroups(layout: VaultPathLayout, before: Secrets, after: Secrets, family: Family,
                    groups: map<string, GroupDefinition>)
    requires GroupsStored(layout, before, groups)
    requires OnlyTouches(layout, before, after, family) && !family.Definitions?
    ensures GroupsStored(layout, after, groups)
  {
    forall g | Name(g)
      ensures Lookup(after, layout.GroupDefinitionPath(g)) == Lookup(before, layout.GroupDefinitionPath(g))
    {
      layout.LocateGroupDefinitionPath(g);
    }
  }

  lemma FrameBlobs(layout: VaultPathLayout, before: Secrets, after: Secrets, family: Family, blobs: Blobs)
    requires BlobsStored(layout, before, blobs)
    requires OnlyTouches(layout, before, after, family) && !family.Blobs?
    ensures BlobsStored(layout, after, blobs)
  {
    forall s | Name(s)
      ensures Lookup(after, layout.UserGroupsPath(s)) == Lookup(before, layout.UserGroupsPath(s))
    {
      layout.LocateUserGroupsPath(s);
    }
  }

  lemma FrameEntries(layout: VaultPathLayout, before: Secrets, after: Secrets, family: Family, t: string)
    requires OnlyTouches(layout, before, after, family) && !family.Tokens?
    ensures Lookup(after, layout.TokenPath(t)) == Lookup(before, layout.TokenPath(t))
    ensures SameEntries(layout, before, after, t)
  {
    hide VaultPathLayout.TokenPath, VaultPathLayout.UserTokenPath, VaultPathLayout.GroupTokenPath;
    hide VaultPathLayout.UserProfilePath, VaultPathLayout.UserGroupsPath, VaultPathLayout.GroupDefinitionPath;
    layout.LocateTokenPath(t);
    layout.PathsLocated();
  }

  lemma FrameTokens(layout: VaultPathLayout, before: Secrets, after: Secrets, family: Family, tokens: Tokens,
                    unlisted: set<string>, inexact: set<string>)
    requires TokensHeld(layout, before, tokens, unlisted, inexact)
    requires OnlyTouches(layout, before, after, family) && !family.Tokens?
    ensures TokensHeld(layout, after, tokens, unlisted, inexact)
  {
    hide TokensHeld, OnlyTouches, SameEntries;
    forall t
      ensures Lookup(after, layout.TokenPath(t)) == Lookup(before, layout.TokenPath(t))
      ensures SameEntries(layout, before, after, t)
    {
      FrameEntries(layout, before, after, family, t);
    }
    HeldCarries(layout, before, after, tokens, unlisted, inexact);
  }

  /** The writes of one repository leave what every other user of the shared store sees unchanged. */
  lemma FamiliesIndependent(layout: VaultPathLayout, before: Secrets, after: Secrets, family: Family, c: Contents)
    requires StoreHolds(layout, before, c) && OnlyTouches(layout, before, after, family)
    ensures !family.Profiles? ==> ProfilesStored(layout, after, c.profiles)
    ensures !family.Definitions? ==> GroupsStored(layout, after, c.groups)
    ensures !family.Blobs? ==> BlobsStored(layout, after, c.blobs)
    ensures !family.Tokens? ==> TokensHeld(layout, after, c.tokens, c.unlisted, c.inexact)
    ensures !family.Keys? ==> Lookup(after, layout.SigningKeyPath()) == c.signingKey
  {
    hide ProfilesStored, GroupsStored, BlobsStored, TokensHeld;
    if !family.Profiles? { FrameProfiles(layout, before, after, family, c.profiles); }
    if !family.Definitions? { FrameGroups(layout, before, after, family, c.groups); }
    if !family.Blobs? { FrameBlobs(layout, before, after, family, c.blobs); }
    if !family.Tokens? { FrameTokens(layout, before, after, family, c.tokens, c.unlisted, c.inexact); }
    layout.LocateSigningKey();
  }

  lemma SingleWriteTouches(layout: VaultPathLayout, before: Secrets, w: Write, family: Family)
    requires FamilyOf(layout.Locate(w.path)) == family
    ensures OnlyTouches(layout, before, Apply(before, w), family)
  {
  }

  lemma ProfileWrite(layout: VaultPathLayout, secrets: Secrets, c: Contents, profile: UserProfile)
    requires StoreHolds(layout, secrets, c) && Name(profile.keycloakSub)
    ensures StoreHolds(layout,
                       Apply(secrets, Put(layout.UserProfilePath(profile.keycloakSub), EncodeProfile(profile))),
                       c.(profiles := c.profiles[profile.keycloakSub := profile]))
  {
    hide ProfilesStored, GroupsStored, BlobsStored, TokensHeld, OnlyTouches;
    var w := Put(layout.UserProfilePath(profile.keycloakSub), EncodeProfile(profile));
    layout.LocateUserProfilePath(profile.keycloakSub);
    SingleWriteTouches(layout, secrets, w, Profiles);
    FamiliesIndependent(layout, secrets, Apply(secrets, w), Profiles, c);
    ProfileWriteStores(layout, secrets, c.profiles, profile);
  }

  lemma DefinitionWrite(layout: VaultPathLayout, secrets: Secrets, c: Contents, group: GroupDefinition)
    requires StoreHolds(layout, secrets, c) && Name(group.name)
    ensures StoreHolds(layout, Apply(secrets, Put(layout.GroupDefinitionPath(group.name), EncodeGroup(group))),
                       c.(groups := c.groups[group.name := group]))
  {
    hide ProfilesStored, GroupsStored, BlobsStored, TokensHeld, OnlyTouches;
    var w := Put(layout.GroupDefinitionPath(group.name), EncodeGroup(group));
    layout.LocateGroupDefinitionPath(group.name);
    SingleWriteTouches(layout, secrets, w, Definitions);
    FamiliesIndependent(layout, secrets, Apply(secrets, w), Definitions, c);
    DefinitionWriteStores(layout, secrets, c.groups, group);
  }

  lemma BlobWriteHolds(layout: VaultPathLayout, secrets: Secrets, c: Contents, sub: string, ms: seq<Membership>)
    requires StoreHolds(layout, secrets, c) && Name(sub)
    ensures StoreHolds(layout, Apply(secrets, BlobWrite(layout, sub, ms)), c.(blobs := WithBlob(c.blobs, sub, ms)))
  {
    hide ProfilesStored, GroupsStored, BlobsStored, TokensHeld, OnlyTouches;
    layout.LocateUserGroupsPath(sub);
    SingleWriteTouches(layout, secrets, BlobWrite(layout, sub, ms), Family.Blobs);
    FamiliesIndependent(layout, secrets, Apply(secrets, BlobWrite(layout, sub, ms)), Family.Blobs, c);
    BlobWriteStores(layout, secrets, c.blobs, sub, ms);
  }

  /** Any token writes, stopped or not, together with what they leave in the token paths. */
  lemma TokenWritesHold(layout: VaultPathLayout, before: Secrets, after: Secrets, c: Contents, tokens: Tokens,
                        unlisted: set<string>, inexact: set<string>)
    requires StoreHolds(layout, before, c) && TokensHeld(layout, after, tokens, unlisted, inexact)
    requires forall p | !TokenFamily(layout.Locate(p)) :: Lookup(after, p) == Lookup(before, p)
    ensures StoreHolds(layout, after, c.(tokens := tokens, unlisted := unlisted, inexact := inexact))
  {
    hide ProfilesStored, GroupsStored, BlobsStored, TokensHeld;
    TokenFamilyTouches(layout, before, after);
    FamiliesIndependent(layout, before, after, Family.Tokens, c);
  }

  lemma TokenFamilyTouches(layout: VaultPathLayout, before: Secrets, after: Secrets)
    requires forall p | !TokenFamily(layout.Locate(p)) :: Lookup(after, p) == Lookup(before, p)
    ensures OnlyTouches(layout, before, after, Family.Tokens)
  {
  }

  /** The four repositories and the signer over one shared client. */
  datatype VaultParts = VaultParts(
    users: VaultUserRepository,
    groups: VaultGroupRepository,
    memberships: VaultGroupMembershipRepository,
    tokens: VaultTokenRepository,
    signer: VaultTokenSigner)
  {
    ghost predicate Shared() {
      && users.client == groups.client == memberships.client == tokens.client == signer.client
      && users.paths == groups.paths == memberships.paths == tokens.paths
      && signer.path == users.paths.SigningKeyPath()
    }

    ghost function Holdings(): Contents
      reads users, groups, memberships, tokens
    {
      Contents(users.contents, groups.contents, memberships.blobs, tokens.contents, tokens.unlisted, tokens.inexact,
               signer.key)
    }

    ghost predicate Valid()
      reads users, groups, memberships, tokens, users.client
    {
      && Shared()
      && StoreHolds(users.paths, users.client.secrets, Holdings())
      && GoodBlobs(memberships.blobs) && Agree(memberships.blobs, memberships.contents)
    }

    method UpsertToken(record: TokenRecord)
      requires Valid() && WellNamedRecord(record)
      modifies tokens, tokens.client
      ensures Valid()
      ensures tokens.contents == old(tokens.contents)[record.tokenId := record]
      ensures tokens.unlisted == old(tokens.unlisted) - {record.tokenId}
      ensures tokens.inexact == old(tokens.inexact) - {record.tokenId}
    {
      hide ProfilesStored, GroupsStored, BlobsStored, TokensHeld, GoodBlobs, Agree, UpsertWrites;
      ghost var before, held := users.client.secrets, Holdings();
      HeldRecords(users.paths, before, tokens.contents, tokens.unlisted, tokens.inexact);
      ghost var previous := Lookup(tokens.contents, record.tokenId);
      ghost var stale := tokens.Upsert(record);
      UpsertFrame(users.paths, before, previous, record, stale);
      TokenWritesHold(users.paths, before, users.client.secrets, held, tokens.contents, tokens.unlisted,
                      tokens.inexact);
    }

    method UpsertTokenStopped(record: TokenRecord, done: nat)
      requires Valid() && ServiceUpsert(tokens.contents, record)
      modifies tokens, tokens.client
      ensures Valid()
      ensures tokens.contents == TokensAfter(old(tokens.contents), record, done)
      ensures tokens.unlisted == UnlistedAfter(old(tokens.contents), old(tokens.unlisted), record.tokenId, done)
      ensures tokens.inexact == InexactAfter(old(tokens.inexact), record.tokenId, WriteCount(record), done)
    {
      hide ProfilesStored, GroupsStored, BlobsStored, TokensHeld, GoodBlobs, Agree, UpsertWrites;
      ghost var before, held := users.client.secrets, Holdings();
      ServiceUpsertDeletesNothing(users.paths, tokens.contents, record);
      tokens.UpsertStopped(record, done);
      ghost var writes := ServiceWrites(users.paths, record);
      assert writes[..|writes|] == writes;
      PrefixFrame(users.paths, before, record, if done <= |writes| then done else |writes|);
      TokenWritesHold(users.paths, before, users.client.secrets, held, tokens.contents, tokens.unlisted,
                      tokens.inexact);
    }
  }

  datatype RepositoryBundle =
    | Memory(
        userProfiles: InMemoryUserProfileRepository,
        groups: InMemoryGroupRepository,
        memberships: InMemoryGroupMembershipRepository,
        tokens: InMemoryTokenRepository,
        audit: LoggingAuditEventRepository)
    | Vault(parts: VaultParts, audit: LoggingAuditEventRepository)
  {
    ghost function Footprint(): set<object> {
      match this
      case Memory(u, g, m, t, a) => {u, g, m, t, a}
      case Vault(p, a) => {p.users, p.groups, p.memberships, p.tokens, p.users.client, a}
    }

    ghost predicate Valid()
      reads Footprint()
    {
      match this
      case Memory(u, g, m, t, a) => m.Valid() && t.Valid()
      case Vault(p, a) => p.Valid()
    }

    /** What the bundle holds. */
    ghost function View(): State
      reads Footprint()
    {
      match this
      case Memory(u, g, m, t, a) => State(u.profiles, g.groups, m.memberships, t.tokens, {}, {}, a.events)
      case Vault(p, a) =>
        State(p.users.contents, p.groups.contents, p.memberships.contents, p.tokens.contents, p.tokens.unlisted,
              p.tokens.inexact, a.events)
    }

    /** What is at the signing path of the store. */
    ghost function SigningKey(): Option<Secret>
      reads Footprint()
    {
      match this
      case Memory(_, _, _, _, _) => None
      case Vault(p, _) => Lookup(p.users.client.secrets, p.users.paths.SigningKeyPath())
    }

    /** What the signer found there when it was made. */
    ghost function KeyAtStart(): Option<Secret> {
      match this
      case Memory(_, _, _, _, _) => None
      case Vault(p, _) => p.signer.key
    }

    /** As long as a bundle is valid its signing key is the one it started with: no operation ever touches it. */
    lemma KeyIsKept()
      requires Valid()
      ensures SigningKey() == KeyAtStart()
    {
    }

    /** The names a backend can hold: paths only have room for non-empty, slash-free segments. */
    predicate Accepts(name: string) {
      Vault? ==> Name(name)
    }

    method GetProfile(sub: string) returns (r: Option<UserProfile>)
      requires Valid() && Accepts(sub)
      ensures Valid() && View() == old(View())
      ensures r == Lookup(View().profiles, sub)
    {
      match this
      case Memory(u, _, _, _, _) => r := u.Get(sub);
      case Vault(p, _) => r := p.users.Get(sub);
    }

    method IsRegistered(sub: string) returns (r: bool)
      requires Valid() && Accepts(sub)
      ensures Valid() && View() == old(View())
      ensures r <==> sub in View().profiles
    {
      match this
      case Memory(u, _, _, _, _) => r := u.IsRegistered(sub);
      case Vault(p, _) => r := p.users.IsRegistered(sub);
    }

    method UpsertProfile(profile: UserProfile)
      requires Valid() && Accepts(profile.keycloakSub)
      modifies Footprint()
      ensures Valid() && View() == old(View()).(profiles := old(View()).profiles[profile.keycloakSub := profile])
      ensures SigningKey() == old(SigningKey())
    {
      hide ProfilesStored, GroupsStored, BlobsStored, TokensHeld, GoodBlobs, Agree;
      match this
      case Memory(u, _, _, _, _) => u.Upsert(profile);
      case Vault(p, _) =>
        ghost var before, held := p.users.client.secrets, p.Holdings();
        p.users.Upsert(profile);
        ProfileWrite(p.users.paths, before, held, profile);
    }

    method GetGroup(name: string) returns (r: Option<GroupDefinition>)
      requires Valid() && Accepts(name)
      ensures Valid() && View() == old(View())
      ensures r == Lookup(View().groups, name)
    {
      match this
      case Memory(_, g, _, _, _) => r := g.Get(name);
      case Vault(p, _) => r := p.groups.Get(name);
    }

    method UpsertGroup(group: GroupDefinition)
      requires Valid() && Accepts(group.name)
      modifies Footprint()
      ensures Valid() && View() == old(View()).(groups := old(View()).groups[group.name := group])
      ensures SigningKey() == old(SigningKey())
    {
      hide ProfilesStored, GroupsStored, BlobsStored, TokensHeld, GoodBlobs, Agree;
      match this
      case Memory(_, g, _, _, _) => g.Upsert(group);
      case Vault(p, _) =>
        ghost var before, held := p.users.client.secrets, p.Holdings();
        p.groups.Upsert(group);
        DefinitionWrite(p.users.paths, before, held, group);
    }

    method HasMembership(sub: string, group: string) returns (found: bool)
      requires Valid() && Accepts(sub)
      ensures Valid() && View() == old(View())
      ensures found <==> (sub, group) in View().members
    {
      match this
      case Memory(_, _, m, _, _) => found := m.HasMembership(sub, group);
      case Vault(p, _) => found := p.memberships.HasMembership(sub, group);
    }

    method ListMemberships(sub: string) returns (ms: seq<Membership>)
      requires Valid() && Accepts(sub)
      ensures Valid() && View() == old(View())
      ensures Lists(ms, MembershipsOfUser(View().members, sub)) && MembersKeyed(View().members)
    {
      match this
      case Memory(_, _, m, _, _) => ms := m.ListForUser(sub);
      case Vault(p, _) => ms := p.memberships.ListForUser(sub);
    }

    method CountMembers(group: string) returns (count: nat)
      requires Valid()
      ensures Valid() && View() == old(View())
      ensures count == |MembershipsOfGroup(View().members, group)|
    {
      match this
      case Memory(_, _, m, _, _) => count := m.CountMembers(group);
      case Vault(p, _) => count := p.memberships.CountMembers(group);
    }

    method AddMembership(membership: Membership)
      requires Valid() && Accepts(membership.keycloakSub)
      modifies Footprint()
      ensures Valid()
      ensures View() == old(View()).(members :=
        old(View()).members[(membership.keycloakSub, membership.groupName) := membership])
      ensures SigningKey() == old(SigningKey())
    {
      hide ProfilesStored, GroupsStored, BlobsStored, TokensHeld, GoodBlobs, Agree;
      match this
      case Memory(_, _, m, _, _) => m.Add(membership);
      case Vault(p, _) =>
        ghost var before, held := p.users.client.secrets, p.Holdings();
        p.memberships.Add(membership);
        BlobWriteHolds(p.users.paths, before, held, membership.keycloakSub, AddedList(held.blobs, membership));
    }

    method RemoveMembership(sub: string, group: string) returns (removed: bool)
      requires Valid() && Accepts(sub)
      modifies Footprint()
      ensures Valid() && View() == old(View()).(members := old(View()).members - {(sub, group)})
      ensures removed <==> (sub, group) in old(View()).members
      ensures SigningKey() == old(SigningKey())
    {
      hide ProfilesStored, GroupsStored, BlobsStored, TokensHeld, GoodBlobs, Agree;
      match this
      case Memory(_, _, m, _, _) => removed := m.Remove(sub, group);
      case Vault(p, _) =>
        ghost var before, held := p.users.client.secrets, p.Holdings();
        removed := p.memberships.Remove(sub, group);
        if removed {
          BlobWriteHolds(p.users.paths, before, held, sub, OtherGroups(group, Loaded(held.blobs, sub)));
        }
    }

    method GetToken(tokenId: string) returns (r: Option<TokenRecord>)
      requires Valid()
      ensures Valid() && View() == old(View())
      ensures r == Lookup(View().tokens, tokenId)
      ensures r.Some? ==> r.value.tokenId == tokenId && (Vault? ==> WellNamedRecord(r.value))
    {
      match this
      case Memory(_, _, _, t, _) => r := t.Get(tokenId);
      case Vault(p, _) =>
        hide TokensHeld;
        HeldRecords(p.tokens.paths, p.tokens.client.secrets, p.tokens.contents, p.tokens.unlisted, p.tokens.inexact);
        r := p.tokens.Get(tokenId);
    }

    method UpsertToken(record: TokenRecord)
      requires Valid() && (Vault? ==> WellNamedRecord(record))
      modifies Footprint()
      ensures Valid() && View() == WriteToken(old(View()), record.tokenId, record)
      ensures SigningKey() == old(SigningKey())
    {
      hide ProfilesStored, GroupsStored, BlobsStored, TokensHeld, GoodBlobs, Agree;
      match this
      case Memory(_, _, _, t, _) => t.Upsert(record);
      case Vault(p, _) => p.UpsertToken(record);
    }

    /** The same, in a process that stops after `done` of the writes; only a Vault store outlives that. */
    method UpsertTokenStopped(record: TokenRecord, done: nat)
      requires Vault? && Valid() && ServiceUpsert(View().tokens, record)
      modifies Footprint()
      ensures Valid() && View() == WriteTokenUpTo(old(View()), record.tokenId, record, done)
      ensures SigningKey() == old(SigningKey())
    {
      hide ProfilesStored, GroupsStored, BlobsStored, TokensHeld, GoodBlobs, Agree;
      parts.UpsertTokenStopped(record, done);
    }

    method ListTokens(sub: string) returns (rows: seq<TokenRecord>)
      requires Valid() && Accepts(sub)
      ensures Valid() && View() == old(View())
      ensures Lists(rows, ListedOf(View().tokens, View().unlisted, sub))
    {
      match this
      case Memory(_, _, _, t, _) =>
        rows := t.ListForUser(sub);
        assert ListedOf(t.tokens, {}, sub) == TokensOfUser(t.tokens, sub);
      case Vault(p, _) => rows := p.tokens.ListForUser(sub);
    }

    method AppendAudit(event: AuditEvent)
      requires Valid()
      modifies Footprint()
      ensures Valid() && View() == old(View()).(log := old(View()).log + [event])
      ensures SigningKey() == old(SigningKey())
    {
      hide ProfilesStored, GroupsStored, BlobsStored, TokensHeld, GoodBlobs, Agree;
      audit.Append(event);
    }
  }

  /** `build_repository_bundle` without a configured Vault. */
  method BuildMemoryBundle() returns (bundle: RepositoryBundle)
    ensures bundle.Memory? && bundle.Valid() && fresh(bundle.Footprint())
    ensures bundle.View() == EMPTY_STATE
  {
    var users := new InMemoryUserProfileRepository();
    var groups := new InMemoryGroupRepository();
    var memberships := new InMemoryGroupMembershipRepository();
    var tokens := new InMemoryTokenRepository();
    var audit := new LoggingAuditEventRepository();
    bundle := Memory(users, groups, memberships, tokens, audit);
  }

  lemma NoTokensHeld(layout: VaultPathLayout, secrets: Secrets)
    requires secrets.Keys <= {layout.SigningKeyPath()}
    ensures TokensHeld(layout, secrets, map[], {}, {})
  {
    hide TokensHeld;
    layout.LocateSigningKey();
    layout.PathsLocated();
    HeldExactly(layout, secrets, map[]);
  }

  lemma OnlyAKeyStored(layout: VaultPathLayout, secrets: Secrets)
    requires secrets.Keys <= {layout.SigningKeyPath()}
    ensures StoreHolds(layout, secrets,
                       Contents(map[], map[], map[], map[], {}, {}, Lookup(secrets, layout.SigningKeyPath())))
  {
    hide TokensHeld;
    layout.LocateSigningKey();
    layout.PathsLocated();
    NoTokensHeld(layout, secrets);
  }

  /** `build_repository_bundle` over a Vault that holds nothing, except possibly the signing key. */
  method BuildVaultBundle(client: VaultClient, paths: VaultPathLayout) returns (bundle: RepositoryBundle)
    requires client.secrets.Keys <= {paths.SigningKeyPath()}
    ensures bundle.Vault? && bundle.Valid() && fresh(bundle.Footprint() - {client})
    ensures bundle.View() == EMPTY_STATE && bundle.SigningKey() == Lookup(client.secrets, paths.SigningKeyPath())
  {
    hide ProfilesStored, GroupsStored, BlobsStored, TokensHeld;
    OnlyAKeyStored(paths, client.secrets);
    bundle := Assemble(client, paths, map[], map[], map[], map[], map[], {}, {});
  }

  /** New repositories and an empty audit list over whatever the store holds. */
  method Assemble(client: VaultClient, paths: VaultPathLayout, ghost profiles: map<string, UserProfile>,
                  ghost groups: map<string, GroupDefinition>, ghost blobs: Blobs, ghost members: Members,
                  ghost tokens: Tokens, ghost unlisted: set<string>, ghost inexact: set<string>)
    returns (bundle: RepositoryBundle)
    requires StoreHolds(paths, client.secrets, Contents(profiles, groups, blobs, tokens, unlisted, inexact,
                                                        Lookup(client.secrets, paths.SigningKeyPath())))
    requires GoodBlobs(blobs) && Agree(blobs, members)
    ensures bundle.Vault? && bundle.Valid()
    ensures bundle.View() == State(profiles, groups, members, tokens, unlisted, inexact, [])
    ensures bundle.KeyAtStart() == Lookup(client.secrets, paths.SigningKeyPath())
    ensures bundle.parts.users.client == client && fresh(bundle.Footprint() - {client})
  {
    hide ProfilesStored, GroupsStored, BlobsStored, TokensHeld, GoodBlobs, Agree;
    var users := new VaultUserRepository(client, paths, profiles);
    var definitions := new VaultGroupRepository(client, paths, groups);
    var memberships := new VaultGroupMembershipRepository(client, paths, blobs, members);
    var records := new VaultTokenRepository(client, paths, tokens, unlisted, inexact);
    var signer := new VaultTokenSigner(client, paths.SigningKeyPath());
    var audit := new LoggingAuditEventRepository();
    bundle := Vault(VaultParts(users, definitions, memberships, records, signer), audit);
  }

  /**
   * `build_repository_bundle` over a Vault in use, stopped token writes included: new repositories see all that is
   * stored, the audit list starts empty.
   */
  method RebuildVaultBundle(bundle: RepositoryBundle) returns (next: RepositoryBundle)
    requires bundle.Vault? && bundle.Valid()
    ensures next.Vault? && next.Valid() && next.View() == old(bundle.View()).(log := [])
    ensures next.KeyAtStart() == bundle.KeyAtStart()
    ensures forall o | o in next.Footprint() :: o in bundle.Footprint() || fresh(o)
  {
    hide ProfilesStored, GroupsStored, BlobsStored, TokensHeld, GoodBlobs, Agree;
    var p := bundle.parts;
    next := Assemble(p.users.client, p.users.paths, p.users.contents, p.groups.contents, p.memberships.blobs,
                     p.memberships.contents, p.tokens.contents, p.tokens.unlisted, p.tokens.inexact);
  }
}
