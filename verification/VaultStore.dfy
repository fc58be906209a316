/** The flat path-to-secret store behind every Vault repository, one write at a time. */
module VaultStore {
  import opened Models
  import opened Paths
  import opened Codec

  datatype Write = Put(path: string, data: Secret) | Delete(path: string)

  function Apply(secrets: map<string, Secret>, w: Write): map<string, Secret> {
    match w
    case Put(path, data) => secrets[path := data]
    case Delete(path) => secrets - {path}
  }

  /** The store after some writes, oldest first. */
  function Replay(secrets: map<string, Secret>, writes: seq<Write>): map<string, Secret> {
    if writes == [] then secrets
    else Apply(Replay(secrets, writes[..|writes| - 1]), writes[|writes| - 1])
  }

  lemma ReplayStep(secrets: map<string, Secret>, writes: seq<Write>, w: Write)
    ensures Replay(secrets, writes + [w]) == Apply(Replay(secrets, writes), w)
  {
  }

  lemma ReplayPrefix(secrets: map<string, Secret>, writes: seq<Write>, k: nat)
    requires k <= |writes|
    ensures Replay(secrets, writes[..k]) ==
            if k == 0 then secrets else Apply(Replay(secrets, writes[..k - 1]), writes[k - 1])
    ensures k == |writes| ==> writes[..k] == writes
  {
    if k > 0 {
      assert writes[..k][..k - 1] == writes[..k - 1];
    }
  }

  lemma {:induction false} ReplayConcat(secrets: map<string, Secret>, a: seq<Write>, b: seq<Write>)
    ensures Replay(secrets, a + b) == Replay(Replay(secrets, a), b)
  {
    if b == [] {
      assert a + b == a;
    } else {
      ReplayConcat(secrets, a, b[..|b| - 1]);
      assert (a + b)[..|a + b| - 1] == a + b[..|b| - 1];
    }
  }

  /** The last of the writes that touches `path`, if any does. */
  function LastOn(writes: seq<Write>, path: string): Option<Write> {
    if writes == [] then None
    else if writes[|writes| - 1].path == path then Some(writes[|writes| - 1])
    else LastOn(writes[..|writes| - 1], path)
  }

  function Effect(before: Option<Secret>, last: Option<Write>): Option<Secret> {
    match last
    case None => before
    case Some(Put(_, data)) => Some(data)
    case Some(Delete(_)) => None
  }

  /** Only the last write to a path decides what a replay leaves there. */
  lemma {:induction false} ReplayLookup(secrets: map<string, Secret>, writes: seq<Write>, path: string)
    ensures Lookup(Replay(secrets, writes), path) == Effect(Lookup(secrets, path), LastOn(writes, path))
  {
    if writes != [] {
      ReplayLookup(secrets, writes[..|writes| - 1], path);
    }
  }

  lemma {:induction false} LastOnConcat(a: seq<Write>, b: seq<Write>, path: string)
    ensures LastOn(a + b, path) == if LastOn(b, path).Some? then LastOn(b, path) else LastOn(a, path)
  {
    if b == [] {
      assert a + b == a;
    } else {
      LastOnConcat(a, b[..|b| - 1], path);
      assert (a + b)[..|a + b| - 1] == a + b[..|b| - 1];
    }
  }

  lemma {:induction false} LastOnMember(writes: seq<Write>, path: string)
    ensures LastOn(writes, path).Some?
        ==> LastOn(writes, path).value in writes && LastOn(writes, path).value.path == path
    ensures LastOn(writes, path).None? ==> forall w | w in writes :: w.path != path
  {
    if writes != [] {
      LastOnMember(writes[..|writes| - 1], path);
      assert writes == writes[..|writes| - 1] + [writes[|writes| - 1]];
    }
  }

  lemma UntouchedByPrefix(writes: seq<Write>, k: nat, path: string)
    requires k <= |writes|
    requires forall i | 0 <= i < k :: writes[i].path != path
    ensures LastOn(writes[..k], path) == None
  {
    LastOnMember(writes[..k], path);
  }

  /**
   * The key-value client. `journal` remembers every write ever made, so that a stop between two
   * writes can be spoken about.
   */
  class VaultClient {
    var secrets: map<string, Secret>
    ghost var journal: seq<Write>

    constructor ()
      ensures secrets == map[] && journal == []
    {
      secrets := map[];
      journal := [];
    }

    method ReadSecret(path: string) returns (data: Option<Secret>)
      ensures data == Lookup(secrets, path)
    {
      data := Lookup(secrets, path);
    }

    method WriteSecret(path: string, data: Secret)
      modifies this
      ensures journal == old(journal) + [Put(path, data)]
      ensures secrets == Apply(old(secrets), Put(path, data))
    {
      secrets := secrets[path := data];
      journal := journal + [Put(path, data)];
    }

    /** A hard delete: the path is gone from reads and listings. */
    method DeleteSecret(path: string)
      modifies this
      ensures journal == old(journal) + [Delete(path)]
      ensures secrets == Apply(old(secrets), Delete(path))
    {
      secrets := secrets - {path};
      journal := journal + [Delete(path)];
    }

    method SecretExists(path: string) returns (found: bool)
      ensures found <==> path in secrets
    {
      found := path in secrets;
    }

    /** The immediate children of a path, folders marked with a trailing slash, in some order. */
    method ListSecrets(path: string) returns (keys: seq<string>)
      ensures Lists(keys, Children(secrets.Keys, path))
    {
      keys := [];
      var todo := Children(secrets.Keys, path);
      while todo != {}
        invariant NoDuplicates(keys)
        invariant forall k :: k in Children(secrets.Keys, path) <==> k in todo || k in keys
        invariant forall k | k in todo :: k !in keys
      {
        var key :| key in todo;
        keys := keys + [key];
        todo := todo - {key};
      }
    }
  }
}
