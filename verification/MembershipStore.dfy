/** Per-user membership blobs, and the map of single memberships they stand for. */
module MembershipStore {
  import opened Models
  import opened Paths
  import opened Sorting
  import opened Codec
  import opened VaultStore

  type Members = map<(string, string), Membership>
  type Blobs = map<string, seq<Membership>>

  predicate GroupLe(a: Membership, b: Membership) {
    StringLe(a.groupName, b.groupName)
  }

  ghost predicate DistinctGroups(ms: seq<Membership>) {
    forall i, j | 0 <= i < j < |ms| :: ms[i].groupName != ms[j].groupName
  }

  /** What is stored for a subject: never empty, strictly sorted by group, and all the subject's own. */
  ghost predicate GoodBlob(sub: string, ms: seq<Membership>) {
    && ms != []
    && Ordered(GroupLe, ms) && DistinctGroups(ms)
    && forall m | m in ms :: m.keycloakSub == sub
  }

  ghost predicate GoodBlobs(blobs: Blobs) {
    forall s | s in blobs :: GoodBlob(s, blobs[s])
  }

  /** The blobs and the map of single memberships say the same thing. */
  ghost predicate Agree(blobs: Blobs, members: Members) {
    && MembersKeyed(members)
    && (forall k | k in members :: k.0 in blobs && members[k] in blobs[k.0])
    && (forall s, m | s in blobs && m in blobs[s] :: (s, m.groupName) in members && members[(s, m.groupName)] == m)
  }

  function Loaded(blobs: Blobs, sub: string): seq<Membership> {
    if sub in blobs then blobs[sub] else []
  }

  function OtherGroups(group: string, ms: seq<Membership>): seq<Membership> {
    Select((m: Membership) => m.groupName != group, ms)
  }

  /** `_store_memberships`: drop the blob when nothing is left, else keep it sorted by group. */
  function WithBlob(blobs: Blobs, sub: string, ms: seq<Membership>): Blobs {
    if ms == [] then blobs - {sub} else blobs[sub := Sort(GroupLe, ms)]
  }

  function AddedList(blobs: Blobs, m: Membership): seq<Membership> {
    OtherGroups(m.groupName, Loaded(blobs, m.keycloakSub)) + [m]
  }

  function BlobsAdd(blobs: Blobs, m: Membership): Blobs {
    WithBlob(blobs, m.keycloakSub, AddedList(blobs, m))
  }

  function BlobsRemove(blobs: Blobs, sub: string, group: string): (Blobs, bool) {
    var updated := OtherGroups(group, Loaded(blobs, sub));
    if |updated| == |Loaded(blobs, sub)| then (blobs, false) else (WithBlob(blobs, sub, updated), true)
  }

  lemma GroupLeTotalPreorder()
    ensures TotalPreorder(GroupLe)
  {
    StringLeTotalPreorder();
  }

  /** Sorting a list with distinct groups gives the same memberships in strictly increasing group order. */
  lemma SortedBlob(ms: seq<Membership>)
    requires DistinctGroups(ms)
    ensures Ordered(GroupLe, Sort(GroupLe, ms)) && DistinctGroups(Sort(GroupLe, ms))
    ensures forall m :: m in Sort(GroupLe, ms) <==> m in ms
    ensures ms != [] ==> Sort(GroupLe, ms) != []
  {
    var r := Sort(GroupLe, ms);
    GroupLeTotalPreorder();
    SortOrders(GroupLe, ms);
    SortPermutes(GroupLe, ms);
    NoDuplicatesPermutes(ms, r);
    forall i, j | 0 <= i < j < |r| ensures r[i].groupName != r[j].groupName {
      assert r[i] in ms && r[j] in ms && r[i] != r[j];
    }
    if ms != [] {
      assert ms[0] in r;
    }
  }

  lemma DistinctAppend(ms: seq<Membership>, m: Membership)
    requires DistinctGroups(ms) && forall x | x in ms :: x.groupName != m.groupName
    ensures DistinctGroups(ms + [m])
  {
  }

  lemma OtherGroupsElements(group: string, ms: seq<Membership>)
    ensures forall m :: m in OtherGroups(group, ms) <==> m in ms && m.groupName != group
    ensures |OtherGroups(group, ms)| == |ms| <==> forall m | m in ms :: m.groupName != group
  {
    var p := (m: Membership) => m.groupName != group;
    SelectElements(p, ms);
    if forall m | m in ms :: m.groupName != group {
      SelectAll(p, ms);
    }
  }

  lemma {:induction false} OtherGroupsDistinct(group: string, ms: seq<Membership>)
    requires DistinctGroups(ms)
    ensures DistinctGroups(OtherGroups(group, ms))
  {
    if ms != [] {
      var init, last := ms[..|ms| - 1], ms[|ms| - 1];
      OtherGroupsDistinct(group, init);
      OtherGroupsElements(group, init);
      assert forall m | m in init :: m.groupName != last.groupName;
      DistinctAppend(OtherGroups(group, init), last);
    }
  }

  lemma BlobReplaced(blobs: Blobs, members: Members, sub: string, ms: seq<Membership>, members': Members)
    requires GoodBlobs(blobs) && Agree(blobs, members) && MembersKeyed(members')
    requires DistinctGroups(ms) && forall m | m in ms :: m.keycloakSub == sub
    requires forall k: (string, string) | k.0 != sub :: Lookup(members', k) == Lookup(members, k)
    requires forall m | m in ms :: Lookup(members', (sub, m.groupName)) == Some(m)
    requires forall k | k in members' && k.0 == sub :: members'[k] in ms
    ensures GoodBlobs(WithBlob(blobs, sub, ms)) && Agree(WithBlob(blobs, sub, ms), members')
  {
    SortedBlob(ms);
    forall k | k in members' && k.0 != sub ensures k.0 in blobs && members'[k] in blobs[k.0] {
      assert Lookup(members', k) == Lookup(members, k);
    }
    forall s, m | s in blobs && s != sub && m in blobs[s] ensures Lookup(members', (s, m.groupName)) == Some(m) {
      assert Lookup(members', (s, m.groupName)) == Lookup(members, (s, m.groupName));
    }
  }

  /** Adding through the blob, read-filter-append-sort-write, adds exactly one entry to the map. */
  lemma AddAgrees(blobs: Blobs, members: Members, m: Membership)
    requires GoodBlobs(blobs) && Agree(blobs, members)
    ensures GoodBlobs(BlobsAdd(blobs, m))
    ensures Agree(BlobsAdd(blobs, m), members[(m.keycloakSub, m.groupName) := m])
  {
    var loaded := Loaded(blobs, m.keycloakSub);
    OtherGroupsElements(m.groupName, loaded);
    OtherGroupsDistinct(m.groupName, loaded);
    DistinctAppend(OtherGroups(m.groupName, loaded), m);
    BlobReplaced(blobs, members, m.keycloakSub, OtherGroups(m.groupName, loaded) + [m],
                 members[(m.keycloakSub, m.groupName) := m]);
  }

  lemma RemoveAgrees(blobs: Blobs, members: Members, sub: string, group: string)
    requires GoodBlobs(blobs) && Agree(blobs, members)
    ensures GoodBlobs(BlobsRemove(blobs, sub, group).0)
    ensures Agree(BlobsRemove(blobs, sub, group).0, members - {(sub, group)})
    ensures BlobsRemove(blobs, sub, group).1 <==> (sub, group) in members
  {
    var loaded := Loaded(blobs, sub);
    OtherGroupsElements(group, loaded);
    OtherGroupsDistinct(group, loaded);
    LoadedAgrees(blobs, members, sub, group);
    if |OtherGroups(group, loaded)| == |loaded| {
      assert members - {(sub, group)} == members;
    } else {
      BlobReplaced(blobs, members, sub, OtherGroups(group, loaded), members - {(sub, group)});
    }
  }

  /** A subject's blob answers membership questions as the map does, and lists the same memberships. */
  lemma LoadedAgrees(blobs: Blobs, members: Members, sub: string, group: string)
    requires GoodBlobs(blobs) && Agree(blobs, members)
    ensures (sub, group) in members <==> exists m | m in Loaded(blobs, sub) :: m.groupName == group
    ensures Lists(Loaded(blobs, sub), MembershipsOfUser(members, sub))
  {
  }

  /** One use of the membership repository. */
  datatype MemberOp = AddOp(m: Membership) | RemoveOp(sub: string, group: string)

  function BlobsAfter(ops: seq<MemberOp>): Blobs {
    if ops == [] then map[]
    else
      var before := BlobsAfter(ops[..|ops| - 1]);
      match ops[|ops| - 1]
      case AddOp(m) => BlobsAdd(before, m)
      case RemoveOp(sub, group) => BlobsRemove(before, sub, group).0
  }

  function MembersAfter(ops: seq<MemberOp>): Members {
    if ops == [] then map[]
    else
      var before := MembersAfter(ops[..|ops| - 1]);
      match ops[|ops| - 1]
      case AddOp(m) => before[(m.keycloakSub, m.groupName) := m]
      case RemoveOp(sub, group) => before - {(sub, group)}
  }

  /** Along every run of adds and removes the blobs stay well formed and mean exactly the in-memory map. */
  lemma {:induction false} MembershipRefinement(ops: seq<MemberOp>)
    ensures GoodBlobs(BlobsAfter(ops)) && Agree(BlobsAfter(ops), MembersAfter(ops))
  {
    if ops != [] {
      var init := ops[..|ops| - 1];
      MembershipRefinement(init);
      match ops[|ops| - 1]
      case AddOp(m) => AddAgrees(BlobsAfter(init), MembersAfter(init), m);
      case RemoveOp(sub, group) => RemoveAgrees(BlobsAfter(init), MembersAfter(init), sub, group);
    }
  }

  /** So after any run every question has the same answer on both: membership, and what a removal reports. */
  lemma MembershipAnswers(ops: seq<MemberOp>, sub: string, group: string)
    ensures (exists m | m in Loaded(BlobsAfter(ops), sub) :: m.groupName == group)
        <==> (sub, group) in MembersAfter(ops)
    ensures BlobsRemove(BlobsAfter(ops), sub, group).1 <==> (sub, group) in MembersAfter(ops)
    ensures Lists(Loaded(BlobsAfter(ops), sub), MembershipsOfUser(MembersAfter(ops), sub))
  {
    MembershipRefinement(ops);
    LoadedAgrees(BlobsAfter(ops), MembersAfter(ops), sub, group);
    RemoveAgrees(BlobsAfter(ops), MembersAfter(ops), sub, group);
  }

  /** The `groups` paths of the store hold exactly the blobs. */
  ghost predicate BlobsStored(layout: VaultPathLayout, secrets: map<string, Secret>, blobs: Blobs) {
    && (forall s | s in blobs :: Name(s))
    && (forall s | Name(s) ::
          Lookup(secrets, layout.UserGroupsPath(s)) == if s in blobs then Some(EncodeBlob(s, blobs[s])) else None)
  }

  function BlobWrite(layout: VaultPathLayout, sub: string, ms: seq<Membership>): Write {
    if ms == [] then Delete(layout.UserGroupsPath(sub))
    else Put(layout.UserGroupsPath(sub), EncodeBlob(sub, Sort(GroupLe, ms)))
  }

  lemma BlobWriteStores(layout: VaultPathLayout, secrets: map<string, Secret>, blobs: Blobs, sub: string,
                        ms: seq<Membership>)
    requires BlobsStored(layout, secrets, blobs) && Name(sub)
    ensures BlobsStored(layout, Apply(secrets, BlobWrite(layout, sub, ms)), WithBlob(blobs, sub, ms))
  {
    var after, blobs' := Apply(secrets, BlobWrite(layout, sub, ms)), WithBlob(blobs, sub, ms);
    forall s | Name(s)
      ensures Lookup(after, layout.UserGroupsPath(s)) == if s in blobs' then Some(EncodeBlob(s, blobs'[s])) else None
    {
      layout.LocateUserGroupsPath(s);
      layout.LocateUserGroupsPath(sub);
      assert Lookup(secrets, layout.UserGroupsPath(s)) == if s in blobs then Some(EncodeBlob(s, blobs[s])) else None;
    }
  }

  /** The subjects with any path at all under the users root. */
  function KnownUsers(layout: VaultPathLayout, paths: set<string>): set<string> {
    set key | key in Children(paths, layout.UsersRoot()) && StripSlashes(key) != "" :: StripSlashes(key)
  }

  /** The directory listing finds every subject that has a blob, and only usable names. */
  lemma KnownUsersCoverBlobs(layout: VaultPathLayout, secrets: map<string, Secret>, blobs: Blobs)
    requires BlobsStored(layout, secrets, blobs)
    ensures forall s | s in blobs :: s in KnownUsers(layout, secrets.Keys)
    ensures forall s | s in KnownUsers(layout, secrets.Keys) :: Name(s)
  {
    forall s | s in blobs ensures s in KnownUsers(layout, secrets.Keys) {
      var path := layout.UserGroupsPath(s);
      var root := layout.UsersRoot();
      assert Name(s) && Lookup(secrets, path) == Some(EncodeBlob(s, blobs[s]));
      assert path == root + "/" + (s + "/" + "groups");
      assert Below(path, root) && path[|root| + 1..] == s + "/" + "groups";
      CutAt(s, "groups");
      StripEntry(s + "/" + "groups");
      assert Entry(s + "/" + "groups") in Children(secrets.Keys, root);
    }
    forall key | key in Children(secrets.Keys, layout.UsersRoot()) ensures '/' !in StripSlashes(key) {
      var root := layout.UsersRoot();
      var path :| path in secrets.Keys && Below(path, root) && key == Entry(path[|root| + 1..]);
      StripEntry(path[|root| + 1..]);
    }
  }
}
