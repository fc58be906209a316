/** The in-memory repositories and the audit log. */
module MemoryRepositories {
  import opened Models

  class InMemoryUserProfileRepository {
    var profiles: map<string, UserProfile>

    constructor ()
      ensures profiles == map[]
    {
      profiles := map[];
    }

    method Get(sub: string) returns (r: Option<UserProfile>)
      ensures r == Lookup(profiles, sub)
    {
      r := Lookup(profiles, sub);
    }

    method Upsert(profile: UserProfile)
      modifies this
      ensures profiles == old(profiles)[profile.keycloakSub := profile]
    {
      profiles := profiles[profile.keycloakSub := profile];
    }

    method IsRegistered(sub: string) returns (r: bool)
      ensures r <==> sub in profiles
    {
      r := sub in profiles;
    }
  }

  class InMemoryGroupRepository {
    var groups: map<string, GroupDefinition>

    constructor ()
      ensures groups == map[]
    {
      groups := map[];
    }

    method Get(name: string) returns (r: Option<GroupDefinition>)
      ensures r == Lookup(groups, name)
    {
      r := Lookup(groups, name);
    }

    method Upsert(group: GroupDefinition)
      modifies this
      ensures groups == old(groups)[group.name := group]
    {
      groups := groups[group.name := group];
    }
  }

  class InMemoryGroupMembershipRepository {
    var memberships: map<(string, string), Membership>

    ghost predicate Valid()
      reads this
    {
      MembersKeyed(memberships)
    }

    constructor ()
      ensures Valid() && memberships == map[]
    {
      memberships := map[];
    }

    method Add(m: Membership)
      requires Valid()
      modifies this
      ensures Valid() && memberships == old(memberships)[(m.keycloakSub, m.groupName) := m]
    {
      memberships := memberships[(m.keycloakSub, m.groupName) := m];
    }

    method Remove(sub: string, group: string) returns (removed: bool)
      requires Valid()
      modifies this
      ensures Valid() && memberships == old(memberships) - {(sub, group)}
      ensures removed <==> (sub, group) in old(memberships)
    {
      removed := (sub, group) in memberships;
      memberships := memberships - {(sub, group)};
    }

    method HasMembership(sub: string, group: string) returns (found: bool)
      ensures found <==> (sub, group) in memberships
    {
      found := (sub, group) in memberships;
    }

    /** Scans all the values for the subject's. */
    method ListForUser(sub: string) returns (ms: seq<Membership>)
      requires Valid()
      ensures Lists(ms, MembershipsOfUser(memberships, sub))
    {
      ms := [];
      var todo := memberships.Keys;
      while todo != {}
        invariant todo <= memberships.Keys
        invariant NoDuplicates(ms)
        invariant forall m :: m in ms <==>
          exists k | k in memberships && k !in todo :: k.0 == sub && memberships[k] == m
      {
        var k :| k in todo;
        if memberships[k].keycloakSub == sub {
          assert memberships[k] !in ms;
          assert forall i | 0 <= i < |ms| :: ms[i] in ms;
          ms := ms + [memberships[k]];
        }
        todo := todo - {k};
      }
    }

    /** Scans all the values for the group's. */
    method ListForGroup(group: string) returns (ms: seq<Membership>)
      requires Valid()
      ensures Lists(ms, MembershipsOfGroup(memberships, group))
    {
      ms := [];
      var todo := memberships.Keys;
      while todo != {}
        invariant todo <= memberships.Keys
        invariant NoDuplicates(ms)
        invariant forall m :: m in ms <==>
          exists k | k in memberships && k !in todo :: k.1 == group && memberships[k] == m
      {
        var k :| k in todo;
        if memberships[k].groupName == group {
          assert memberships[k] !in ms;
          assert forall i | 0 <= i < |ms| :: ms[i] in ms;
          ms := ms + [memberships[k]];
        }
        todo := todo - {k};
      }
    }

    method CountMembers(group: string) returns (count: nat)
      requires Valid()
      ensures count == |MembershipsOfGroup(memberships, group)|
    {
      var ms := ListForGroup(group);
      ListingSize(ms, MembershipsOfGroup(memberships, group));
      count := |ms|;
    }
  }

  class InMemoryTokenRepository {
    var tokens: map<string, TokenRecord>

    ghost predicate Valid()
      reads this
    {
      TokensKeyed(tokens)
    }

    constructor ()
      ensures Valid() && tokens == map[]
    {
      tokens := map[];
    }

    method Get(tokenId: string) returns (r: Option<TokenRecord>)
      ensures r == Lookup(tokens, tokenId)
    {
      r := Lookup(tokens, tokenId);
    }

    method Upsert(record: TokenRecord)
      requires Valid()
      modifies this
      ensures Valid() && tokens == old(tokens)[record.tokenId := record]
    {
      tokens := tokens[record.tokenId := record];
    }

    /** Scans all the values for the owner's. */
    method ListForUser(ownerSub: string) returns (rows: seq<TokenRecord>)
      requires Valid()
      ensures Lists(rows, TokensOfUser(tokens, ownerSub))
    {
      rows := [];
      var todo := tokens.Keys;
      while todo != {}
        invariant todo <= tokens.Keys
        invariant NoDuplicates(rows)
        invariant forall r :: r in rows <==>
          exists t | t in tokens && t !in todo :: tokens[t].ownerSub == ownerSub && tokens[t] == r
      {
        var t :| t in todo;
        if tokens[t].ownerSub == ownerSub {
          assert tokens[t] !in rows;
          assert forall i | 0 <= i < |rows| :: rows[i] in rows;
          rows := rows + [tokens[t]];
        }
        todo := todo - {t};
      }
    }
  }

  /** The audit sink: an in-memory list in both bundles, so it starts empty with every process. */
  class LoggingAuditEventRepository {
    var events: seq<AuditEvent>

    constructor ()
      ensures events == []
    {
      events := [];
    }

    method Append(event: AuditEvent)
      modifies this
      ensures events == old(events) + [event]
    {
      events := events + [event];
    }
  }
}
