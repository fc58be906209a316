/** The records of the domain layer, its error kinds, and the state that the repositories hold between them. */
module Models {

  datatype Option<+T> = None | Some(value: T)

  /** The exception kinds the services raise; `Malformed` stands for a stored document no repository writes. */
  datatype Error =
    | InvalidValue
    | ReservedGroup
    | LastAdminRemoval
    | GroupAlreadyExists
    | GroupNotFound
    | MembershipNotFound
    | UnregisteredUser
    | TokenNotFound
    | SigningKeyUnavailable
    | Overflow
    | Malformed

  datatype Result<+T> = Ok(value: T) | Err(error: Error) {
    predicate IsFailure() {
      Err?
    }

    function PropagateFailure<U>(): Result<U>
      requires Err?
    {
      Err(error)
    }

    function Extract(): T
      requires Ok?
    {
      value
    }
  }

  /** A point in time: whole microseconds since the epoch, in UTC. */
  type Time = int

  const RESERVED_ADMIN_GROUP: string := "admin"

  datatype GroupDefinition = GroupDefinition(
    name: string,
    description: Option<string>,
    isSystem: bool,
    isActive: bool,
    createdAt: Time)

  datatype UserProfile = UserProfile(
    keycloakSub: string,
    registeredAt: Time,
    updatedAt: Time,
    displayName: Option<string>,
    email: Option<string>)

  datatype Membership = Membership(
    keycloakSub: string,
    groupName: string,
    grantedAt: Time,
    grantedBySub: Option<string>)

  datatype TokenStatus = Active | Revoked

  datatype TokenRecord = TokenRecord(
    tokenId: string,
    ownerSub: string,
    grantedGroups: seq<string>,
    status: TokenStatus,
    issuedAt: Time,
    expiresAt: Option<Time>,
    issuedBySub: Option<string>,
    jwtHash: Option<string>,
    pendingReveal: bool,
    revokedAt: Option<Time>)

  datatype AuthorizationRequest = AuthorizationRequest(
    tokenId: string,
    ownerSub: Option<string>,
    requestedGroup: Option<string>,
    requestedResource: Option<string>)

  datatype EventType =
    | GroupCreate
    | MembershipAdd
    | MembershipRemove
    | TokenMint
    | TokenInspect
    | TokenRevoke
    | TokenList
    | UserRegistration
    | RuntimeAuthorize

  datatype Outcome = Success | Failure | Created | Refreshed | Allow | Deny

  datatype AuditEvent = AuditEvent(
    eventType: EventType,
    actorSub: Option<string>,
    subjectSub: Option<string>,
    groupName: Option<string>,
    tokenId: Option<string>,
    resource: Option<string>,
    correlationId: Option<string>,
    outcome: Outcome,
    occurredAt: Time)

  /**
   * What a repository bundle holds, whichever backend it uses: the contents of the in-memory dictionaries, and
   * what token writes that were stopped half way have left undone. `unlisted` are the tokens whose owner's listing
   * misses them, `inexact` the tokens whose index entries do not all say what the record says.
   */
  datatype State = State(
    profiles: map<string, UserProfile>,
    groups: map<string, GroupDefinition>,
    members: map<(string, string), Membership>,
    tokens: map<string, TokenRecord>,
    unlisted: set<string>,
    inexact: set<string>,
    log: seq<AuditEvent>)

  const EMPTY_STATE := State(map[], map[], map[], map[], {}, {}, [])

  /** How many store writes a token write without deletes makes: the record, its owner's entry, one entry per group. */
  function WriteCount(record: TokenRecord): nat {
    2 + |record.grantedGroups|
  }

  /** The unlisted tokens after the first `done` writes for token `t`: the second one lists it. */
  function UnlistedAfter(tokens: map<string, TokenRecord>, unlisted: set<string>, t: string, done: nat): set<string> {
    if done == 0 then unlisted
    else if done >= 2 then unlisted - {t}
    else if t in tokens then unlisted
    else unlisted + {t}
  }

  /** The inexact tokens after the first `done` of `count` writes for token `t`: nothing short of all will do. */
  function InexactAfter(inexact: set<string>, t: string, count: nat, done: nat): set<string> {
    if done == 0 then inexact
    else if done >= count then inexact - {t}
    else inexact + {t}
  }

  /** The state after the first `done` writes of a token write. */
  function WriteTokenUpTo(s: State, t: string, record: TokenRecord, done: nat): State {
    if done == 0 then s
    else s.(tokens := s.tokens[t := record],
            unlisted := UnlistedAfter(s.tokens, s.unlisted, t, done),
            inexact := InexactAfter(s.inexact, t, WriteCount(record), done))
  }

  /** The state after a completed token write. */
  function WriteToken(s: State, t: string, record: TokenRecord): State {
    WriteTokenUpTo(s, t, record, WriteCount(record))
  }

  function Lookup<K, V>(m: map<K, V>, k: K): (v: Option<V>)
    ensures v.Some? <==> k in m
    ensures v.Some? ==> v.value == m[k]
  {
    if k in m then Some(m[k]) else None
  }

  /** Every membership is stored under its own subject and group. */
  ghost predicate MembersKeyed(members: map<(string, string), Membership>) {
    forall k | k in members :: members[k].keycloakSub == k.0 && members[k].groupName == k.1
  }

  /** Every token record is stored under its own id. */
  ghost predicate TokensKeyed(tokens: map<string, TokenRecord>) {
    forall t | t in tokens :: tokens[t].tokenId == t
  }

  function MembershipsOfUser(members: map<(string, string), Membership>, sub: string): set<Membership> {
    set k | k in members && k.0 == sub :: members[k]
  }

  function MembershipsOfGroup(members: map<(string, string), Membership>, group: string): set<Membership> {
    set k | k in members && k.1 == group :: members[k]
  }

  function TokensOfUser(tokens: map<string, TokenRecord>, sub: string): set<TokenRecord> {
    set t | t in tokens && tokens[t].ownerSub == sub :: tokens[t]
  }

  /** What the owner's listing shows of them. */
  function ListedOf(tokens: map<string, TokenRecord>, unlisted: set<string>, sub: string): set<TokenRecord> {
    set t | t in tokens && tokens[t].ownerSub == sub && t !in unlisted :: tokens[t]
  }

  predicate IsMember(s: State, sub: string, group: string) {
    (sub, group) in s.members
  }

  predicate IsAdmin(s: State, sub: string) {
    IsMember(s, sub, RESERVED_ADMIN_GROUP)
  }

  ghost predicate NoDuplicates<T(!new)>(xs: seq<T>) {
    forall i, j | 0 <= i < j < |xs| :: xs[i] != xs[j]
  }

  /** `xs` lists the elements of `s`, each once, in some order. */
  ghost predicate Lists<T(!new)>(xs: seq<T>, s: set<T>) {
    NoDuplicates(xs) && forall x :: x in xs <==> x in s
  }

  lemma {:induction false} ListingSize<T(!new)>(xs: seq<T>, s: set<T>)
    requires Lists(xs, s)
    ensures |xs| == |s|
  {
    if xs == [] {
      assert s == {};
    } else {
      var last := xs[|xs| - 1];
      var rest := xs[..|xs| - 1];
      assert xs == rest + [last];
      ListingSize(rest, s - {last});
    }
  }
}
