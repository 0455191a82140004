/**
 * The signed-in user's file handlers of `userFileController.js`: the two
 * string helpers, listing, upload, read access through ownership, the
 * admin role or a share, deletion, and the share set.
 */
module UserFiles {
  import opened Wrappers
  import opened Text
  import opened Store
  import opened Ws
  import opened Mime

  /** The path segment in front of the storage key in every public file URL. */
  const MARKER := "/storage/v1/object/public/files/"

  // ---------------------------------------------------------------- string helpers

  /** `getStoragePath`: the text after the first occurrence of the marker, or null. */
  function StoragePath(url: string): (r: Option<string>)
    ensures r.None? <==> !Contains(url, MARKER)
    ensures r.Some? ==> exists i | 0 <= i <= |url| - |MARKER| ::
                          OccursAt(MARKER, url, i) && r.value == url[i + |MARKER|..]
                          && forall j | 0 <= j < i :: !OccursAt(MARKER, url, j)
  {
    var idx := IndexOf(url, MARKER);
    if idx == -1 then None else Some(url[idx + |MARKER|..])
  }

  /** The URL built at upload gives back the storage key, whatever the key, when the base URL cannot end in part of the marker. */
  lemma StoragePathOfUrl(base: string, key: string)
    requires !Contains(base + MARKER[..|MARKER| - 1], MARKER)
    ensures StoragePath(base + MARKER + key) == Some(key)
  {
    FirstOccurrenceAfterPrefix(base, MARKER, key);
    assert (base + MARKER + key)[|base| + |MARKER|..] == key;
  }

  // ---------------------------------------------------------------- access rules

  /** Downloading and previewing: the owner, an admin, or a user the file is shared with. */
  predicate MayRead(f: File, id: FileId, caller: UserId, role: string, shares: map<ShareKey, UserId>) {
    f.owner == Some(caller) || role == ADMIN || ShareKey(id, caller) in shares
  }

  /** Deleting: the owner or an admin; a share gives no right to delete. */
  predicate MayDelete(f: File, caller: UserId, role: string) {
    f.owner == Some(caller) || role == ADMIN
  }

  /**
   * The checks `downloadFile` and `previewFile` share, in order: 404 for a
   * missing or inactive file, 403 without a read right, 500 when the URL
   * holds no storage key; otherwise the storage key to fetch.
   */
  function ReadCheck(files: map<FileId, File>, shares: map<ShareKey, UserId>, id: FileId, caller: UserId, role: string): (r: Result<string>)
    ensures r == Fail(404, "File not found") <==> id !in files || files[id].status != ACTIVE
    ensures r == Fail(403, "Access denied") <==>
              id in files && files[id].status == ACTIVE && !MayRead(files[id], id, caller, role, shares)
    ensures r.Ok? ==> id in files && files[id].status == ACTIVE && MayRead(files[id], id, caller, role, shares)
                      && StoragePath(files[id].url) == Some(r.value) && r.value != ""
    ensures id in files && files[id].status == ACTIVE && MayRead(files[id], id, caller, role, shares) ==>
              (r.Ok? <==> StoragePath(files[id].url).Some? && StoragePath(files[id].url).value != "")
    ensures r.Fail? && r.status != 404 && r.status != 403 ==> r == Fail(500, "Invalid file URL")
  {
    if id !in files || files[id].status != ACTIVE then Fail(404, "File not found")
    else if !MayRead(files[id], id, caller, role, shares) then Fail(403, "Access denied")
    else match StoragePath(files[id].url)
      case None => Fail(500, "Invalid file URL")
      case Some(path) => if path == "" then Fail(500, "Invalid file URL") else Ok(path)
  }

  /** Whoever may delete a file may also read it. */
  lemma DeleteRightImpliesReadRight(f: File, id: FileId, caller: UserId, role: string, shares: map<ShareKey, UserId>)
    requires MayDelete(f, caller, role)
    ensures MayRead(f, id, caller, role, shares)
  {
  }

  /** A share lets a non-admin read a file but not delete it. */
  lemma ShareReadsButCannotDelete(f: File, id: FileId, caller: UserId, role: string, shares: map<ShareKey, UserId>)
    requires ShareKey(id, caller) in shares && f.owner != Some(caller) && role != ADMIN
    ensures MayRead(f, id, caller, role, shares) && !MayDelete(f, caller, role)
  {
  }

  /** `deleteFile`: the owner or an admin marks an active file deleted and everyone is told. */
  method DeleteFile(db: Database, id: FileId, caller: UserId, role: string) returns (r: Result<Notice>)
    modifies db`files
    ensures old(id !in db.files || db.files[id].status != ACTIVE) ==>
              r == Fail(404, "File not found") && db.files == old(db.files)
    ensures old(id in db.files && db.files[id].status == ACTIVE && !MayDelete(db.files[id], caller, role)) ==>
              r == Fail(403, "Access denied") && db.files == old(db.files)
    ensures old(id in db.files && db.files[id].status == ACTIVE && MayDelete(db.files[id], caller, role)) ==>
              r == Ok(Notice(FileDeleted(NatToString(id)), Everyone))
              && db.files == old(db.files)[id := old(db.files)[id].(status := DELETED)]
  {
    if id !in db.files || db.files[id].status != ACTIVE {
      return Fail(404, "File not found");
    }
    if !MayDelete(db.files[id], caller, role) {
      return Fail(403, "Access denied");
    }
    db.files := db.files[id := db.files[id].(status := DELETED)];
    r := Ok(Notice(FileDeleted(NatToString(id)), Everyone));
  }

  // ---------------------------------------------------------------- sharing

  /** `!file || file.user_id !== req.user.id`: only the owner manages shares; admins are refused too. */
  predicate IsOwner(files: map<FileId, File>, id: FileId, caller: UserId) {
    id in files && files[id].owner == Some(caller)
  }

  /** `getShares`: the usernames the file is shared with, for its owner only. */
  function GetShares(db_users: map<UserId, User>, files: map<FileId, File>, shares: map<ShareKey, UserId>, id: FileId, caller: UserId): (r: Result<set<string>>)
    ensures r.Fail? <==> !IsOwner(files, id, caller)
    ensures r.Fail? ==> r == Fail(403, "Access denied")
    ensures r.Ok? ==> forall name | name in r.value ::
              name != "" && exists u | u in db_users :: ShareKey(id, u) in shares && db_users[u].username == name
    ensures r.Ok? ==> forall k | k in shares && k.file == id && k.sharedWith in db_users && db_users[k.sharedWith].username != "" ::
              db_users[k.sharedWith].username in r.value
  {
    if !IsOwner(files, id, caller) then Fail(403, "Access denied")
    else Ok(set k | k in shares && k.file == id && k.sharedWith in db_users && db_users[k.sharedWith].username != ""
              :: db_users[k.sharedWith].username)
  }

  /** No user has the name. */
  predicate Unknown(users: map<UserId, User>, name: string) {
    UsersNamed(users, name) == {}
  }

  /** `notFound`: the requested names no user has, in request order. */
  function NotFound(usernames: seq<string>, users: map<UserId, User>): (r: seq<string>)
    ensures forall i | 0 <= i < |r| :: r[i] in usernames && Unknown(users, r[i])
    ensures forall i | 0 <= i < |usernames| && Unknown(users, usernames[i]) :: usernames[i] in r
    ensures |r| <= |usernames|
  {
    if usernames == [] then []
    else (if Unknown(users, usernames[0]) then [usernames[0]] else []) + NotFound(usernames[1..], users)
  }

  /** A single name is reported iff no user has it. */
  lemma NotFoundOne(n: string, users: map<UserId, User>)
    ensures NotFound([n], users) == if Unknown(users, n) then [n] else []
  {
    assert [n][1..] == [];
  }

  /** The filter keeps request order: it distributes over concatenation of the request. */
  lemma {:induction false} NotFoundConcat(a: seq<string>, b: seq<string>, users: map<UserId, User>)
    ensures NotFound(a + b, users) == NotFound(a, users) + NotFound(b, users)
  {
    if a == [] {
      assert a + b == b;
    } else {
      var x, rest := a[0], a[1..];
      var h := if Unknown(users, x) then [x] else [];
      assert NotFound(a + b, users) == h + NotFound(rest + b, users) by {
        assert a + b == [x] + (rest + b);
        NotFoundCons(x, rest + b, users);
      }
      assert NotFound(a, users) == h + NotFound(rest, users) by {
        assert a == [x] + rest;
        NotFoundCons(x, rest, users);
      }
      NotFoundConcat(rest, b, users);
      AppendAssoc(h, NotFound(rest, users), NotFound(b, users));
    }
  }

  lemma AppendAssoc<T>(p: seq<T>, q: seq<T>, r: seq<T>)
    ensures p + (q + r) == (p + q) + r
  {
  }

  lemma NotFoundCons(x: string, rest: seq<string>, users: map<UserId, User>)
    ensures NotFound([x] + rest, users) == (if Unknown(users, x) then [x] else []) + NotFound(rest, users)
  {
    assert ([x] + rest)[0] == x && ([x] + rest)[1..] == rest;
  }

  /** A missing name is reported as often as it was requested; a found one never. */
  lemma {:induction false} NotFoundCounts(usernames: seq<string>, users: map<UserId, User>)
    ensures forall n :: multiset(NotFound(usernames, users))[n] ==
              if Unknown(users, n) then multiset(usernames)[n] else 0
  {
    if usernames != [] {
      assert usernames == [usernames[0]] + usernames[1..];
      NotFoundCounts(usernames[1..], users);
    }
  }

  /** The users `.in('username', usernames)` finds. */
  function Found(usernames: seq<string>, users: map<UserId, User>): set<UserId> {
    set u | u in users && users[u].username in usernames
  }

  /** The upsert on (file_id, shared_with_id): one row per found user, owned by `owner`. */
  function WithShares(shares: map<ShareKey, UserId>, id: FileId, owner: UserId, users: set<UserId>): (r: map<ShareKey, UserId>)
    ensures forall u | u in users :: ShareKey(id, u) in r && r[ShareKey(id, u)] == owner
    ensures forall k | k in shares && !(k.file == id && k.sharedWith in users) :: k in r && r[k] == shares[k]
    ensures forall k | k in r :: k in shares || (k.file == id && k.sharedWith in users)
  {
    shares + map u | u in users :: ShareKey(id, u) := owner
  }

  /** Sharing with the same names again adds no row: the upsert is idempotent. */
  lemma ShareTwice(shares: map<ShareKey, UserId>, id: FileId, owner: UserId, users: set<UserId>)
    ensures WithShares(WithShares(shares, id, owner, users), id, owner, users) == WithShares(shares, id, owner, users)
  {
  }

  /** `shareFile`: the owner shares with every found name; the reply lists the found names and the missing ones. */
  method ShareFile(db: Database, id: FileId, caller: UserId, usernames: seq<string>)
    returns (r: Result<(set<string>, seq<string>)>)
    modifies db`shares
    ensures !IsOwner(db.files, id, caller) ==> r == Fail(403, "Access denied") && db.shares == old(db.shares)
    ensures IsOwner(db.files, id, caller) ==>
              var found := Found(usernames, db.users);
              && r == Ok((set u | u in found :: db.users[u].username, NotFound(usernames, db.users)))
              && db.shares == WithShares(old(db.shares), id, caller, found)
  {
    if !IsOwner(db.files, id, caller) {
      return Fail(403, "Access denied");
    }
    var found := Found(usernames, db.users);
    db.shares := WithShares(db.shares, id, caller, found);
    r := Ok((set u | u in found :: db.users[u].username, NotFound(usernames, db.users)));
  }

  /** `unshareFile`: the owner removes the share row of one named user. */
  method UnshareFile(db: Database, id: FileId, caller: UserId, username: string) returns (r: Result<()>)
    modifies db`shares
    ensures username == "" ==> r == Fail(400, "username required")
    ensures username != "" && !IsOwner(db.files, id, caller) ==> r == Fail(403, "Access denied")
    ensures username != "" && IsOwner(db.files, id, caller) && TheOne(UsersNamed(db.users, username)).None? ==>
              r == Fail(404, "User not found")
    ensures r.Fail? ==> db.shares == old(db.shares)
    ensures r.Ok? ==> username != "" && IsOwner(db.files, id, caller) && TheOne(UsersNamed(db.users, username)).Some?
                      && db.shares == old(db.shares) - {ShareKey(id, TheOne(UsersNamed(db.users, username)).value)}
    ensures username != "" && IsOwner(db.files, id, caller) && TheOne(UsersNamed(db.users, username)).Some? ==> r == Ok(())
  {
    if username == "" {
      return Fail(400, "username required");
    }
    if !IsOwner(db.files, id, caller) {
      return Fail(403, "Access denied");
    }
    var user := TheOne(UsersNamed(db.users, username));
    if user.None? {
      return Fail(404, "User not found");
    }
    db.shares := db.shares - {ShareKey(id, user.value)};
    r := Ok(());
  }

  // ---------------------------------------------------------------- listing and upload

  function Entry(files: map<FileId, File>, id: FileId, isMine: bool, owner: string): FileEntry
    requires id in files
  {
    var f := files[id];
    FileEntry(id, f.filename, f.size, f.url, isMine, owner)
  }

  function OwnActive(files: map<FileId, File>, caller: UserId): set<FileId> {
    set id | id in files && files[id].owner == Some(caller) && files[id].status == ACTIVE
  }

  function SharedActive(files: map<FileId, File>, shares: map<ShareKey, UserId>, caller: UserId): set<FileId> {
    set k | k in shares && k.sharedWith == caller && k.file in files && files[k.file].status == ACTIVE :: k.file
  }

  /** `ownerMap[f.id] || '?'`: the username of the share row's owner, or '?'. */
  function SharedOwnerName(users: map<UserId, User>, shares: map<ShareKey, UserId>, id: FileId, caller: UserId): string {
    var k := ShareKey(id, caller);
    if k in shares && shares[k] in users && users[shares[k]].username != "" then users[shares[k]].username else "?"
  }

  function OwnList(files: map<FileId, File>, ids: seq<FileId>, callerName: string): (r: seq<FileEntry>)
    requires forall i | 0 <= i < |ids| :: ids[i] in files
    ensures |r| == |ids|
    ensures forall i | 0 <= i < |ids| :: r[i] == Entry(files, ids[i], true, callerName) && r[i].id == ids[i]
  {
    if ids == [] then [] else [Entry(files, ids[0], true, callerName)] + OwnList(files, ids[1..], callerName)
  }

  function SharedList(users: map<UserId, User>, files: map<FileId, File>, shares: map<ShareKey, UserId>,
                      ids: seq<FileId>, caller: UserId): (r: seq<FileEntry>)
    requires forall i | 0 <= i < |ids| :: ids[i] in files
    ensures |r| == |ids|
    ensures forall i | 0 <= i < |ids| ::
              r[i] == Entry(files, ids[i], false, SharedOwnerName(users, shares, ids[i], caller)) && r[i].id == ids[i]
  {
    if ids == [] then []
    else [Entry(files, ids[0], false, SharedOwnerName(users, shares, ids[0], caller))]
         + SharedList(users, files, shares, ids[1..], caller)
  }

  /** The caller's own active files, newest id first, marked as theirs. */
  function OwnEntries(files: map<FileId, File>, caller: UserId, callerName: string): (r: seq<FileEntry>)
    ensures |r| == |OwnActive(files, caller)|
    ensures forall i | 0 <= i < |r| ::
              r[i].isMine && r[i].owner == callerName && r[i].id in files
              && files[r[i].id].owner == Some(caller) && files[r[i].id].status == ACTIVE
    ensures forall i | 0 <= i < |r| ::
              r[i].id in files && r[i].originalName == files[r[i].id].filename
              && r[i].size == files[r[i].id].size && r[i].fileUrl == files[r[i].id].url
    ensures forall i, j | 0 <= i < j < |r| :: r[i].id > r[j].id
  {
    var own := OwnActive(files, caller);
    assert forall x | x in own :: x in files && files[x].owner == Some(caller) && files[x].status == ACTIVE;
    OwnList(files, Descending(own), callerName)
  }

  /** The active files shared with the caller, marked as not theirs and named after the sharing owner. */
  function SharedEntries(users: map<UserId, User>, files: map<FileId, File>, shares: map<ShareKey, UserId>, caller: UserId): (r: seq<FileEntry>)
    ensures |r| == |SharedActive(files, shares, caller)|
    ensures forall i | 0 <= i < |r| ::
              !r[i].isMine && r[i].id in files && files[r[i].id].status == ACTIVE && ShareKey(r[i].id, caller) in shares
              && r[i].owner == SharedOwnerName(users, shares, r[i].id, caller)
    ensures forall i | 0 <= i < |r| ::
              r[i].id in files && r[i].originalName == files[r[i].id].filename
              && r[i].size == files[r[i].id].size && r[i].fileUrl == files[r[i].id].url
  {
    var ids := Descending(SharedActive(files, shares, caller));
    SharedListFacts(users, files, shares, caller, ids);
    SharedList(users, files, shares, ids, caller)
  }

  lemma SharedListFacts(users: map<UserId, User>, files: map<FileId, File>, shares: map<ShareKey, UserId>,
                        caller: UserId, ids: seq<FileId>)
    requires forall i | 0 <= i < |ids| :: ids[i] in SharedActive(files, shares, caller)
    ensures forall i | 0 <= i < |ids| :: ids[i] in files
    ensures forall i | 0 <= i < |ids| ::
              var e := SharedList(users, files, shares, ids, caller)[i];
              !e.isMine && e.id in files && files[e.id].status == ACTIVE && ShareKey(e.id, caller) in shares
              && e.owner == SharedOwnerName(users, shares, e.id, caller)
  {
    var shared := SharedActive(files, shares, caller);
    assert forall x | x in shared :: x in files && files[x].status == ACTIVE && ShareKey(x, caller) in shares;
  }

  /** Every own active file and every active file shared with the caller is listed. */
  lemma EntriesComplete(users: map<UserId, User>, files: map<FileId, File>, shares: map<ShareKey, UserId>,
                        caller: UserId, callerName: string, id: FileId)
    ensures id in OwnActive(files, caller) ==>
              exists i | 0 <= i < |OwnEntries(files, caller, callerName)| :: OwnEntries(files, caller, callerName)[i].id == id
    ensures id in SharedActive(files, shares, caller) ==>
              exists i | 0 <= i < |SharedEntries(users, files, shares, caller)| :: SharedEntries(users, files, shares, caller)[i].id == id
  {
    if id in OwnActive(files, caller) {
      var ids := Descending(OwnActive(files, caller));
      var i :| 0 <= i < |ids| && ids[i] == id;
      assert OwnEntries(files, caller, callerName)[i].id == id;
    }
    if id in SharedActive(files, shares, caller) {
      var ids := Descending(SharedActive(files, shares, caller));
      var i :| 0 <= i < |ids| && ids[i] == id;
      assert SharedEntries(users, files, shares, caller)[i].id == id;
    }
  }

  /**
   * `getFiles`: the caller's own active files, then the active files shared
   * with them.
   */
  function GetFiles(users: map<UserId, User>, files: map<FileId, File>, shares: map<ShareKey, UserId>,
                    caller: UserId, callerName: string): (r: seq<FileEntry>)
    ensures |r| == |OwnActive(files, caller)| + |SharedActive(files, shares, caller)|
    ensures r[..|OwnActive(files, caller)|] == OwnEntries(files, caller, callerName)
    ensures r[|OwnActive(files, caller)|..] == SharedEntries(users, files, shares, caller)
  {
    var own := OwnEntries(files, caller, callerName);
    var shared := SharedEntries(users, files, shares, caller);
    assert (own + shared)[..|own|] == own;
    assert (own + shared)[|own|..] == shared;
    own + shared
  }

  /** Every file in the listing is active and readable by the caller as a plain user. */
  lemma ListedFilesReadable(users: map<UserId, User>, files: map<FileId, File>, shares: map<ShareKey, UserId>,
                            caller: UserId, callerName: string, role: string, i: nat)
    requires i < |GetFiles(users, files, shares, caller, callerName)|
    ensures var e := GetFiles(users, files, shares, caller, callerName)[i];
            ReadCheck(files, shares, e.id, caller, role) != Fail(404, "File not found")
            && ReadCheck(files, shares, e.id, caller, role) != Fail(403, "Access denied")
  {
    var r := GetFiles(users, files, shares, caller, callerName);
    var n := |OwnActive(files, caller)|;
    if i < n {
      assert r[i] == r[..n][i];
    } else {
      assert r[i] == r[n..][i - n];
    }
  }

  /** What multer hands over: the (re-encoded) original name and the size. */
  datatype Upload = Upload(originalName: string, size: nat)

  /** `${userId}/${Date.now()}${ext}` */
  function StorageKey(caller: UserId, nowMs: nat, ext: string): string {
    NatToString(caller) + "/" + NatToString(nowMs) + ext
  }

  /**
   * `uploadFile`: 400 without a file; otherwise insert an active row for the
   * caller, named by its original name and stored under
   * `caller/timestamp+ext`, and notify admins and the caller's own sockets.
   * `ext` is `path.extname` of the name, `base` the datastore URL, `newId`
   * the id the table assigns.
   */
  method UploadFile(db: Database, caller: UserId, callerName: string, upload: Option<Upload>, ext: string,
                    base: string, nowMs: nat, newId: FileId) returns (r: Result<(FileEntry, Notice)>)
    requires newId !in db.files
    modifies db`files
    ensures upload.None? ==> r == Fail(400, "No file uploaded") && db.files == old(db.files)
    ensures upload.Some? ==>
              var url := base + MARKER + StorageKey(caller, nowMs, ext);
              var entry := FileEntry(newId, upload.value.originalName, upload.value.size, url, true, callerName);
              && db.files == old(db.files)[newId := File(Some(caller), upload.value.originalName, url, upload.value.size, ACTIVE)]
              && r == Ok((entry, Notice(FileUploaded(entry, NatToString(caller)), AdminsAnd(NatToString(caller)))))
  {
    if upload.None? {
      return Fail(400, "No file uploaded");
    }
    var url := base + MARKER + StorageKey(caller, nowMs, ext);
    db.files := db.files[newId := File(Some(caller), upload.value.originalName, url, upload.value.size, ACTIVE)];
    var entry := FileEntry(newId, upload.value.originalName, upload.value.size, url, true, callerName);
    r := Ok((entry, Notice(FileUploaded(entry, NatToString(caller)), AdminsAnd(NatToString(caller)))));
  }

  /**
   * The upload notice reaches a socket exactly when it belongs to an admin
   * or was opened with the uploader's own access token.
   */
  lemma UploadNoticeAudience(caller: UserId, c: Client, claims: Crypto.Claims)
    requires c.userId == IdText(claims.id) && c.role == claims.role
    ensures Admits(AdminsAnd(NatToString(caller)), c) <==> claims.role == Some(ADMIN) || claims.id == Some(caller)
  {
    if claims.id.Some? && NatToString(claims.id.value) == NatToString(caller) {
      assert DecimalValue(NatToString(claims.id.value)) == DecimalValue(NatToString(caller));
    }
    if claims.id.None? {
      assert NatToString(caller) != "undefined" by {
        assert IsAsciiDigit(NatToString(caller)[0]);
      }
    }
  }
}
