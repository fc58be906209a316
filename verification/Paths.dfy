/** The layout of records and indexes in the flat path-to-secret store. */
module Paths {
  import opened Models

  /** A usable path segment: subjects, token ids and group names are all of this form. */
  predicate Name(s: string) {
    s != "" && '/' !in s
  }

  /** The part of `s` before its first slash, and the part after it when there is one. */
  function Cut(s: string): (r: (string, Option<string>))
    ensures '/' !in r.0
    ensures s == r.0 + if r.1.Some? then "/" + r.1.value else ""
  {
    if s == "" then ("", None)
    else if s[0] == '/' then ("", Some(s[1..]))
    else
      var (head, tail) := Cut(s[1..]);
      ([s[0]] + head, tail)
  }

  lemma {:induction false} CutAt(segment: string, rest: string)
    requires '/' !in segment
    ensures Cut(segment) == (segment, None)
    ensures Cut(segment + "/" + rest) == (segment, Some(rest))
  {
    var whole := segment + "/" + rest;
    if segment == "" {
      assert whole[1..] == rest;
    } else {
      CutAt(segment[1..], rest);
      assert whole[1..] == segment[1..] + "/" + rest;
      assert segment == [segment[0]] + segment[1..];
    }
  }

  /** The things the layout has a path for. */
  datatype Place =
    | ProfileOf(sub: string)
    | GroupsOf(sub: string)
    | UserTokenEntry(sub: string, id: string)
    | DefinitionOf(group: string)
    | GroupTokenEntry(group: string, id: string)
    | TokenAt(id: string)
    | SigningKey

  function ParseUser(rest: string): Option<Place> {
    var (sub, tail) := Cut(rest);
    if tail.None? then None
    else if tail.value == "profile" then Some(ProfileOf(sub))
    else if tail.value == "groups" then Some(GroupsOf(sub))
    else
      var (head, id) := Cut(tail.value);
      if head == "tokens" && id.Some? then Some(UserTokenEntry(sub, id.value)) else None
  }

  function ParseGroup(rest: string): Option<Place> {
    var (group, tail) := Cut(rest);
    if tail.None? then None
    else if tail.value == "definition" then Some(DefinitionOf(group))
    else
      var (head, id) := Cut(tail.value);
      if head == "tokens" && id.Some? then Some(GroupTokenEntry(group, id.value)) else None
  }

  function ParseRest(rest: string): Option<Place> {
    var (head, tail) := Cut(rest);
    if tail.None? then None
    else if head == "users" then ParseUser(tail.value)
    else if head == "groups" then ParseGroup(tail.value)
    else if head == "tokens" then Some(TokenAt(tail.value))
    else if head == "signing" && tail.value == "runtime" then Some(SigningKey)
    else None
  }

  lemma ParseUserAt(sub: string, id: string)
    requires Name(sub)
    ensures ParseUser(sub + "/" + "profile") == Some(ProfileOf(sub))
    ensures ParseUser(sub + "/" + "groups") == Some(GroupsOf(sub))
    ensures ParseUser(sub + "/" + ("tokens" + "/" + id)) == Some(UserTokenEntry(sub, id))
  {
    CutAt(sub, "profile");
    CutAt(sub, "groups");
    CutAt(sub, "tokens" + "/" + id);
    CutAt("tokens", id);
  }

  lemma ParseGroupAt(group: string, id: string)
    requires Name(group)
    ensures ParseGroup(group + "/" + "definition") == Some(DefinitionOf(group))
    ensures ParseGroup(group + "/" + ("tokens" + "/" + id)) == Some(GroupTokenEntry(group, id))
  {
    CutAt(group, "definition");
    CutAt(group, "tokens" + "/" + id);
    CutAt("tokens", id);
  }

  /** The layout glues segments on from the left; parsing takes them off from the left. */
  lemma Regroup(prefix: string, family: string, name: string, kind: string, id: string)
    ensures prefix + ("/" + family) + "/" + name + ("/" + kind) + "/" + id
         == prefix + "/" + (family + "/" + (name + "/" + (kind + "/" + id)))
  {
  }

  datatype VaultPathLayout = VaultPathLayout(pathPrefix: string) {

    function UsersRoot(): string {
      pathPrefix + "/users"
    }

    function UserRoot(sub: string): string {
      UsersRoot() + "/" + sub
    }

    function UserProfilePath(sub: string): string {
      UserRoot(sub) + "/profile"
    }

    function UserGroupsPath(sub: string): string {
      UserRoot(sub) + "/groups"
    }

    function UserTokensRoot(sub: string): string {
      UserRoot(sub) + "/tokens"
    }

    function UserTokenPath(sub: string, id: string): string {
      UserTokensRoot(sub) + "/" + id
    }

    function GroupsRoot(): string {
      pathPrefix + "/groups"
    }

    function GroupRoot(group: string): string {
      GroupsRoot() + "/" + group
    }

    function GroupDefinitionPath(group: string): string {
      GroupRoot(group) + "/definition"
    }

    function GroupTokensRoot(group: string): string {
      GroupRoot(group) + "/tokens"
    }

    function GroupTokenPath(group: string, id: string): string {
      GroupTokensRoot(group) + "/" + id
    }

    function TokensRoot(): string {
      pathPrefix + "/tokens"
    }

    function TokenPath(id: string): string {
      TokensRoot() + "/" + id
    }

    function SigningKeyPath(): string {
      pathPrefix + "/signing/runtime"
    }

    /** Reads a path back, segment by segment. */
    function Parse(path: string): Option<Place> {
      if |path| > |pathPrefix| && path[..|pathPrefix| + 1] == pathPrefix + "/"
      then ParseRest(path[|pathPrefix| + 1..])
      else None
    }

    lemma Under(family: string, rest: string, path: string)
      requires '/' !in family
      requires path == pathPrefix + "/" + (family + "/" + rest)
      ensures Parse(path) == ParseRest(family + "/" + rest)
      ensures Cut(family + "/" + rest) == (family, Some(rest))
    {
      CutAt(family, rest);
      assert path[|pathPrefix| + 1..] == family + "/" + rest;
    }

    function PathOf(place: Place): string {
      match place
      case ProfileOf(sub) => UserProfilePath(sub)
      case GroupsOf(sub) => UserGroupsPath(sub)
      case UserTokenEntry(sub, id) => UserTokenPath(sub, id)
      case DefinitionOf(group) => GroupDefinitionPath(group)
      case GroupTokenEntry(group, id) => GroupTokenPath(group, id)
      case TokenAt(id) => TokenPath(id)
      case SigningKey => SigningKeyPath()
    }

    lemma ParseUserPaths(sub: string)
      requires Name(sub)
      ensures Parse(UserProfilePath(sub)) == Some(ProfileOf(sub))
      ensures Parse(UserGroupsPath(sub)) == Some(GroupsOf(sub))
    {
      hide Cut, Parse, ParseUser;
      ParseUserAt(sub, "");
      Under("users", sub + "/" + "profile", UserProfilePath(sub));
      Under("users", sub + "/" + "groups", UserGroupsPath(sub));
    }

    lemma ParseUserTokenPath(sub: string, id: string)
      requires Name(sub)
      ensures Parse(UserTokenPath(sub, id)) == Some(UserTokenEntry(sub, id))
    {
      hide Cut, Parse, ParseUser;
      assert UserTokenPath(sub, id) == pathPrefix + "/" + ("users" + "/" + (sub + "/" + ("tokens" + "/" + id))) by {
        assert "/users" == "/" + "users" && "/tokens" == "/" + "tokens";
        Regroup(pathPrefix, "users", sub, "tokens", id);
      }
      ParseUserAt(sub, id);
      Under("users", sub + "/" + ("tokens" + "/" + id), UserTokenPath(sub, id));
    }

    lemma ParseGroupDefinitionPath(group: string)
      requires Name(group)
      ensures Parse(GroupDefinitionPath(group)) == Some(DefinitionOf(group))
    {
      hide Cut, Parse, ParseGroup;
      ParseGroupAt(group, "");
      Under("groups", group + "/" + "definition", GroupDefinitionPath(group));
    }

    lemma ParseGroupTokenPath(group: string, id: string)
      requires Name(group)
      ensures Parse(GroupTokenPath(group, id)) == Some(GroupTokenEntry(group, id))
    {
      hide Cut, Parse, ParseGroup;
      assert GroupTokenPath(group, id)
             == pathPrefix + "/" + ("groups" + "/" + (group + "/" + ("tokens" + "/" + id))) by {
        assert "/groups" == "/" + "groups" && "/tokens" == "/" + "tokens";
        Regroup(pathPrefix, "groups", group, "tokens", id);
      }
      ParseGroupAt(group, id);
      Under("groups", group + "/" + ("tokens" + "/" + id), GroupTokenPath(group, id));
    }

    lemma ParseTokenPath(id: string)
      ensures Parse(TokenPath(id)) == Some(TokenAt(id))
    {
      hide Parse, Cut;
      Under("tokens", id, TokenPath(id));
    }

    lemma ParseSigningKeyPath()
      ensures Parse(SigningKeyPath()) == Some(SigningKey)
    {
      hide Parse, Cut;
      Under("signing", "runtime", SigningKeyPath());
    }

    /** Parsing undoes every path constructor; canonical token ids may even hold slashes. */
    lemma ParsePathOf(place: Place)
      requires WellNamed(place)
      ensures Parse(PathOf(place)) == Some(place)
    {
      hide Parse, ParseRest, Cut;
      match place
      case ProfileOf(sub) => ParseUserPaths(sub);
      case GroupsOf(sub) => ParseUserPaths(sub);
      case UserTokenEntry(sub, id) => ParseUserTokenPath(sub, id);
      case DefinitionOf(group) => ParseGroupDefinitionPath(group);
      case GroupTokenEntry(group, id) => ParseGroupTokenPath(group, id);
      case TokenAt(id) => ParseTokenPath(id);
      case SigningKey => ParseSigningKeyPath();
    }

    /** Two constructors give the same string only if they are the same one with the same arguments. */
    lemma LayoutInjective(a: Place, b: Place)
      requires WellNamed(a) && WellNamed(b)
      requires PathOf(a) == PathOf(b)
      ensures a == b
    {
      ParsePathOf(a);
      ParsePathOf(b);
    }

    /** The one place that has this path, if any does. */
    ghost function Locate(path: string): Option<Place> {
      if exists place :: WellNamed(place) && PathOf(place) == path then
        var place :| WellNamed(place) && PathOf(place) == path;
        Some(place)
      else None
    }

    lemma LocatePathOf(place: Place)
      requires WellNamed(place)
      ensures Locate(PathOf(place)) == Some(place)
    {
      var found :| WellNamed(found) && PathOf(found) == PathOf(place) && Locate(PathOf(place)) == Some(found);
      LayoutInjective(found, place);
    }

    lemma LocateUserProfilePath(sub: string)
      requires Name(sub)
      ensures Locate(UserProfilePath(sub)) == Some(ProfileOf(sub))
    {
      LocatePathOf(ProfileOf(sub));
    }

    lemma LocateUserGroupsPath(sub: string)
      requires Name(sub)
      ensures Locate(UserGroupsPath(sub)) == Some(GroupsOf(sub))
    {
      LocatePathOf(GroupsOf(sub));
    }

    lemma LocateUserTokenPath(sub: string, id: string)
      requires Name(sub)
      ensures Locate(UserTokenPath(sub, id)) == Some(UserTokenEntry(sub, id))
    {
      LocatePathOf(UserTokenEntry(sub, id));
    }

    lemma LocateGroupDefinitionPath(group: string)
      requires Name(group)
      ensures Locate(GroupDefinitionPath(group)) == Some(DefinitionOf(group))
    {
      LocatePathOf(DefinitionOf(group));
    }

    lemma LocateGroupTokenPath(group: string, id: string)
      requires Name(group)
      ensures Locate(GroupTokenPath(group, id)) == Some(GroupTokenEntry(group, id))
    {
      LocatePathOf(GroupTokenEntry(group, id));
    }

    lemma LocateTokenPath(id: string)
      ensures Locate(TokenPath(id)) == Some(TokenAt(id))
    {
      LocatePathOf(TokenAt(id));
    }

    lemma LocateSigningKey()
      ensures Locate(SigningKeyPath()) == Some(SigningKey)
    {
      LocatePathOf(SigningKey);
    }

    /** `Locate` undoes every path constructor on usable names, so no two of them can meet. */
    lemma PathsLocated()
      ensures forall sub {:trigger UserProfilePath(sub)} | Name(sub) ::
                Locate(UserProfilePath(sub)) == Some(ProfileOf(sub))
      ensures forall sub {:trigger UserGroupsPath(sub)} | Name(sub) ::
                Locate(UserGroupsPath(sub)) == Some(GroupsOf(sub))
      ensures forall sub, id {:trigger UserTokenPath(sub, id)} | Name(sub) ::
                Locate(UserTokenPath(sub, id)) == Some(UserTokenEntry(sub, id))
      ensures forall group {:trigger GroupDefinitionPath(group)} | Name(group) ::
                Locate(GroupDefinitionPath(group)) == Some(DefinitionOf(group))
      ensures forall group, id {:trigger GroupTokenPath(group, id)} | Name(group) ::
                Locate(GroupTokenPath(group, id)) == Some(GroupTokenEntry(group, id))
      ensures forall id {:trigger TokenPath(id)} :: Locate(TokenPath(id)) == Some(TokenAt(id))
      ensures Locate(SigningKeyPath()) == Some(SigningKey)
    {
      forall sub | Name(sub) ensures Locate(UserProfilePath(sub)) == Some(ProfileOf(sub)) {
        LocateUserProfilePath(sub);
      }
      forall sub | Name(sub) ensures Locate(UserGroupsPath(sub)) == Some(GroupsOf(sub)) {
        LocateUserGroupsPath(sub);
      }
      forall sub, id | Name(sub) ensures Locate(UserTokenPath(sub, id)) == Some(UserTokenEntry(sub, id)) {
        LocateUserTokenPath(sub, id);
      }
      forall group | Name(group) ensures Locate(GroupDefinitionPath(group)) == Some(DefinitionOf(group)) {
        LocateGroupDefinitionPath(group);
      }
      forall group, id | Name(group) ensures Locate(GroupTokenPath(group, id)) == Some(GroupTokenEntry(group, id)) {
        LocateGroupTokenPath(group, id);
      }
      forall id ensures Locate(TokenPath(id)) == Some(TokenAt(id)) {
        LocateTokenPath(id);
      }
      LocateSigningKey();
    }

    /** The paths of one user, one group and one token, spelled out. */
    lemma PathTexts(sub: string, group: string, id: string)
      ensures UserProfilePath(sub) == pathPrefix + "/users/" + sub + "/profile"
      ensures UserGroupsPath(sub) == pathPrefix + "/users/" + sub + "/groups"
      ensures UserTokenPath(sub, id) == pathPrefix + "/users/" + sub + "/tokens/" + id
      ensures GroupDefinitionPath(group) == pathPrefix + "/groups/" + group + "/definition"
      ensures GroupTokenPath(group, id) == pathPrefix + "/groups/" + group + "/tokens/" + id
      ensures TokenPath(id) == pathPrefix + "/tokens/" + id
      ensures SigningKeyPath() == pathPrefix + "/signing/runtime"
    {
      assert "/users/" == "/users" + "/" && "/groups/" == "/groups" + "/" && "/tokens/" == "/tokens" + "/";
    }

    /** A subject with a slash can reach into another user's records. */
    lemma SlashesCollide(sub: string)
      ensures UserProfilePath(sub + "/tokens") == UserTokenPath(sub, "profile")
    {
    }

    /** The path is one of a user's: profile, groups, or an index entry for some token id. */
    ghost predicate UserPath(sub: string, path: string) {
      || path == UserProfilePath(sub)
      || path == UserGroupsPath(sub)
      || exists id :: path == UserTokenPath(sub, id)
    }

    lemma UserPathSuffix(sub: string, path: string)
      ensures UserPath(sub, path) <==>
              && |UserRoot(sub)| <= |path| && path[..|UserRoot(sub)|] == UserRoot(sub)
              && UserSuffix(path[|UserRoot(sub)|..])
    {
      var root := UserRoot(sub);
      if id :| path == UserTokenPath(sub, id) {
        assert path == root + ("/tokens/" + id);
        assert path[|root|..][|"/tokens/"|..] == id;
      }
      if |root| <= |path| && path[..|root|] == root && UserSuffix(path[|root|..]) {
        var suffix := path[|root|..];
        assert path == root + suffix;
        if "/tokens/" <= suffix {
          assert suffix == "/tokens/" + suffix[|"/tokens/"|..];
          assert path == UserTokenPath(sub, suffix[|"/tokens/"|..]);
        }
      }
    }

    /**
     * Two different subjects share a path if and only if one of them is the other's root of token entries, or lies
     * below it. Subjects without slashes, as are asked for elsewhere, never do.
     */
    lemma SubjectsCollideIff(u: string, v: string)
      requires u != v
      ensures (exists path :: UserPath(u, path) && UserPath(v, path)) <==> ReachesInto(u, v) || ReachesInto(v, u)
    {
      if path :| UserPath(u, path) && UserPath(v, path) {
        CollisionReaches(u, v, path);
      }
      if ReachesInto(u, v) {
        ReachCollides(u, v);
      }
      if ReachesInto(v, u) {
        ReachCollides(v, u);
      }
    }

    lemma CollisionReaches(u: string, v: string, path: string)
      requires u != v && UserPath(u, path) && UserPath(v, path)
      ensures ReachesInto(u, v) || ReachesInto(v, u)
    {
      hide UserPath, UserSuffix, ReachesInto;
      var root := UsersRoot() + "/";
      UserPathSuffix(u, path);
      UserPathSuffix(v, path);
      var s, t := path[|UserRoot(u)|..], path[|UserRoot(v)|..];
      assert path == root + u + s && path == root + v + t;
      assert path[|root|..] == u + s && path[|root|..] == v + t;
      if |u| <= |v| {
        SuffixesMeet(u, s, v, t);
      } else {
        SuffixesMeet(v, t, u, s);
      }
    }

    lemma ReachCollides(u: string, v: string)
      requires ReachesInto(u, v)
      ensures exists path :: UserPath(u, path) && UserPath(v, path)
    {
      var id := v[|u + "/tokens"|..] + "/profile";
      assert v == u + "/tokens" + v[|u + "/tokens"|..];
      assert id[0] == '/';
      assert UserTokenPath(u, id[1..]) == UserProfilePath(v) by {
        assert id == "/" + id[1..];
      }
      assert UserPath(u, UserProfilePath(v)) && UserPath(v, UserProfilePath(v));
    }
  }

  /** What can follow the user root in a user's path. */
  predicate UserSuffix(suffix: string) {
    suffix == "/profile" || suffix == "/groups" || "/tokens/" <= suffix
  }

  predicate ReachesInto(u: string, v: string) {
    v == u + "/tokens" || u + "/tokens/" <= v
  }

  /** A slash inside a suffix comes no earlier than the one behind `tokens`. */
  lemma SlashInside(suffix: string, i: nat)
    requires UserSuffix(suffix) && 0 < i < |suffix| && suffix[i] == '/'
    ensures suffix[..i] == "/tokens" || "/tokens/" <= suffix[..i]
  {
    var tokens := "/tokens/";
    assert tokens <= suffix;
    assert forall j | 0 <= j < 8 :: suffix[j] == tokens[j];
    assert i >= 7;
    if i == 7 {
      assert suffix[..7] == tokens[..7];
      assert tokens[..7] == "/tokens";
    } else {
      assert suffix[..i][..8] == tokens;
    }
  }

  /** Equal continuations of two different subjects: the longer one runs along the other's token entries. */
  lemma SuffixesMeet(u: string, s: string, v: string, t: string)
    requires |u| <= |v| && u != v && u + s == v + t && UserSuffix(s) && UserSuffix(t)
    ensures ReachesInto(u, v)
  {
    var n := |v| - |u|;
    assert (u + s)[..|u|] == u && (v + t)[..|u|] == v[..|u|] && (v + t)[|v|] == t[0];
    assert v == u + v[|u|..];
    assert (u + s)[|u|..|v|] == s[..n] && (v + t)[|u|..|v|] == v[|u|..];
    assert n > 0;
    assert t[0] == '/' && (u + s)[|v|] == s[n];
    SlashInside(s, n);
  }

  predicate WellNamed(place: Place) {
    match place
    case ProfileOf(sub) => Name(sub)
    case GroupsOf(sub) => Name(sub)
    case UserTokenEntry(sub, _) => Name(sub)
    case DefinitionOf(group) => Name(group)
    case GroupTokenEntry(group, _) => Name(group)
    case TokenAt(_) => true
    case SigningKey => true
  }

  /** What a directory listing shows for a path `rest` below it: a leaf name, or a folder name with a slash. */
  function Entry(rest: string): string {
    var (head, tail) := Cut(rest);
    if tail.None? then head else head + "/"
  }

  predicate Below(path: string, root: string) {
    |path| > |root| && path[..|root| + 1] == root + "/"
  }

  /** The immediate children of `root` among `paths`. */
  function Children(paths: set<string>, root: string): set<string> {
    set p | p in paths && Below(p, root) :: Entry(p[|root| + 1..])
  }

  function StripSlashes(key: string): string {
    if key != "" && key[|key| - 1] == '/' then StripSlashes(key[..|key| - 1]) else key
  }

  /** `key.rstrip("/")` recovers the child's name from either kind of listing entry. */
  lemma StripEntry(rest: string)
    ensures StripSlashes(Entry(rest)) == Cut(rest).0
  {
  }
}
