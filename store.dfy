/**
 * The datastore behind the controllers (`users`, `files`, `file_shares`),
 * held as maps keyed by row id, and the few query shapes the controllers use.
 */
module Store {
  import opened Wrappers
  import opened Crypto
  import Mime

  type UserId = nat
  type FileId = nat

  const ACTIVE := "active"
  const DISABLED := "disabled"
  const DELETED := "deleted"
  const ADMIN := "admin"

  /** A `users` row: `status` is 'active' or 'disabled'. */
  datatype User = User(username: string, email: string, password: PasswordHash, role: string, status: string)

  /** A `files` row; `owner` is `user_id`, null for anonymous legacy uploads. */
  datatype File = File(owner: Option<UserId>, filename: string, url: string, size: nat, status: string)

  /** The key of a `file_shares` row, unique on (file_id, shared_with_id). */
  datatype ShareKey = ShareKey(file: FileId, sharedWith: UserId)

  /**
   * A file as the listing and upload replies describe it (`created_at` is
   * not modelled); its `mimetype` is always derived from the name.
   */
  datatype FileEntry = FileEntry(id: FileId, originalName: string, size: nat,
                                 fileUrl: string, isMine: bool, owner: string)
  {
    function Mimetype(): string {
      Mime.MimeFromFilename(originalName)
    }
  }

  function UsersNamed(users: map<UserId, User>, name: string): set<UserId> {
    set id | id in users && users[id].username == name
  }

  function UsersWithEmail(users: map<UserId, User>, email: string): set<UserId> {
    set id | id in users && users[id].email == email
  }

  /** The model assumes that the `users` table keeps usernames and e-mail addresses unique. */
  ghost predicate UniqueAccounts(users: map<UserId, User>) {
    forall a, b | a in users && b in users && a != b ::
      users[a].username != users[b].username && users[a].email != users[b].email
  }

  /** A subset is no larger than its superset. */
  lemma SubsetCardinality<T>(a: set<T>, b: set<T>)
    requires a <= b
    ensures |a| <= |b|
  {
    assert b == a + (b - a);
  }

  /** `.single()` and `.maybeSingle()`: the row when exactly one row matches, null otherwise. */
  function TheOne(ids: set<nat>): (r: Option<nat>)
    ensures r.Some? <==> |ids| == 1
    ensures r.Some? ==> ids == {r.value}
  {
    if |ids| == 1 then
      SingletonMembers(ids);
      var x :| x in ids; Some(x)
    else None
  }

  lemma SingletonMembers(ids: set<nat>)
    requires |ids| == 1
    ensures forall x, y | x in ids && y in ids :: x == y
    ensures forall x | x in ids :: ids == {x}
  {
    var x :| x in ids;
    assert |ids - {x}| == 0;
  }

  /** Under unique usernames, a lookup by name finds a row exactly when the name is taken. */
  lemma {:induction false} LookupByName(users: map<UserId, User>, name: string)
    requires UniqueAccounts(users)
    ensures TheOne(UsersNamed(users, name)).Some? <==> UsersNamed(users, name) != {}
    ensures forall id | id in users && users[id].username == name :: TheOne(UsersNamed(users, name)) == Some(id)
  {
    var s := UsersNamed(users, name);
    forall i | i in users && users[i].username == name
      ensures TheOne(s) == Some(i)
    {
      assert i in s;
      forall y | y in s
        ensures y == i
      {
      }
      assert s == {i};
    }
  }

  /** Under unique e-mail addresses, a lookup by e-mail finds a row exactly when the address is taken. */
  lemma {:induction false} LookupByEmail(users: map<UserId, User>, email: string)
    requires UniqueAccounts(users)
    ensures TheOne(UsersWithEmail(users, email)).Some? <==> UsersWithEmail(users, email) != {}
    ensures forall id | id in users && users[id].email == email :: TheOne(UsersWithEmail(users, email)) == Some(id)
  {
    var s := UsersWithEmail(users, email);
    forall i | i in users && users[i].email == email
      ensures TheOne(s) == Some(i)
    {
      assert i in s;
      forall y | y in s
        ensures y == i
      {
      }
      assert s == {i};
    }
  }

  /** `.order('id', { ascending: false })`: the ids of `s`, largest first. */
  function Descending(s: set<nat>): (r: seq<nat>)
    ensures |r| == |s|
    ensures forall i | 0 <= i < |r| :: r[i] in s
    ensures forall x | x in s :: x in r
    ensures forall i, j | 0 <= i < j < |r| :: r[i] > r[j]
    decreases |s|
  {
    if s == {} then []
    else
      var m := MaxOf(s);
      var rest := Descending(s - {m});
      PrependMax(s, m, rest);
      [m] + rest
  }

  /** Putting the maximum in front of the rest, listed largest first, lists the whole set largest first. */
  lemma PrependMax(s: set<nat>, m: nat, rest: seq<nat>)
    requires m in s && forall x | x in s :: x <= m
    requires |rest| == |s - {m}|
    requires forall i | 0 <= i < |rest| :: rest[i] in s - {m}
    requires forall x | x in s - {m} :: x in rest
    requires forall i, j | 0 <= i < j < |rest| :: rest[i] > rest[j]
    ensures |[m] + rest| == |s|
    ensures forall i | 0 <= i < |[m] + rest| :: ([m] + rest)[i] in s
    ensures forall x | x in s :: x in [m] + rest
    ensures forall i, j | 0 <= i < j < |[m] + rest| :: ([m] + rest)[i] > ([m] + rest)[j]
  {
    var r := [m] + rest;
    assert forall i | 0 < i < |r| :: r[i] == rest[i - 1] && r[i] < m;
    forall x | x in s
      ensures x in r
    {
      if x != m {
        assert x in s - {m};
      }
    }
  }

  function MaxOf(s: set<nat>): (m: nat)
    requires s != {}
    ensures m in s && forall x | x in s :: x <= m
  {
    HasMax(s);
    var m :| m in s && forall x | x in s :: x <= m; m
  }

  lemma {:induction false} HasMax(s: set<nat>)
    requires s != {}
    ensures exists m | m in s :: forall x | x in s :: x <= m
    decreases |s|
  {
    var y :| y in s;
    if s != {y} {
      HasMax(s - {y});
      var m :| m in s - {y} && forall x | x in s - {y} :: x <= m;
      var top := if m < y then y else m;
      forall x | x in s
        ensures x <= top
      {
        if x != y { assert x in s - {y}; }
      }
    } else {
      assert forall x | x in s :: x <= y;
    }
  }

  class Database {
    var users: map<UserId, User>
    var files: map<FileId, File>
    /** Each share row, keyed by (file, shared-with user), holds its `owner_id`. */
    var shares: map<ShareKey, UserId>

    ghost predicate Valid()
      reads this
    {
      UniqueAccounts(users)
    }

    constructor ()
      ensures Valid() && users == map[] && files == map[] && shares == map[]
    {
      users, files, shares := map[], map[], map[];
    }

    /**
     * `update({ status: 'deleted' }).eq('id', id).select('id').single()`:
     * marks the row deleted and reports whether there was one; an already
     * deleted row is found again.
     */
    method SoftDeleteFile(id: FileId) returns (found: bool)
      modifies this`files
      ensures found <==> id in old(files)
      ensures found ==> files == old(files)[id := old(files)[id].(status := DELETED)]
      ensures !found ==> files == old(files)
    {
      found := id in files;
      if found {
        files := files[id := files[id].(status := DELETED)];
      }
    }
  }
}
