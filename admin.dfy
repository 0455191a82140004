/**
 * The admin handlers of `adminController.js`. Its `getStoragePath` and
 * `getMimeFromFilename` are the same text as the user controller's, so the
 * model uses `UserFiles.StoragePath` and `Mime.MimeFromFilename` for both.
 */
module Admin {
  import opened Wrappers
  import opened Text
  import opened Store
  import UserFiles
  import Mime

  /** One row of the admin file listing; the owner is a username or 'anonymous'. */
  datatype Listing = Listing(id: FileId, originalName: string, size: nat, fileUrl: string, owner: string)
  {
    /** The listed `mimetype`, derived from the name. */
    function Mimetype(): string {
      Mime.MimeFromFilename(originalName)
    }
  }

  /** One row of the admin user listing. */
  datatype UserView = UserView(id: UserId, username: string, email: string, role: string, status: string,
                               fullName: string, isActive: bool, lockedUntil: Option<int>)

  /** `f.users?.username || 'anonymous'` */
  function OwnerName(users: map<UserId, User>, f: File): (r: string)
    ensures r != ""
    ensures r == "anonymous" <==> f.owner.None? || f.owner.value !in users
                                  || users[f.owner.value].username in {"", "anonymous"}
  {
    if f.owner.Some? && f.owner.value in users && users[f.owner.value].username != "" then users[f.owner.value].username
    else "anonymous"
  }

  function ActiveFiles(files: map<FileId, File>): set<FileId> {
    set id | id in files && files[id].status == ACTIVE
  }

  function ListingOf(users: map<UserId, User>, files: map<FileId, File>, id: FileId): Listing
    requires id in files
  {
    var f := files[id];
    Listing(id, f.filename, f.size, f.url, OwnerName(users, f))
  }

  function Listings(users: map<UserId, User>, files: map<FileId, File>, ids: seq<FileId>): (r: seq<Listing>)
    requires forall i | 0 <= i < |ids| :: ids[i] in files
    ensures |r| == |ids|
    ensures forall i | 0 <= i < |ids| :: r[i] == ListingOf(users, files, ids[i]) && r[i].id == ids[i]
  {
    if ids == [] then [] else [ListingOf(users, files, ids[0])] + Listings(users, files, ids[1..])
  }

  /** `getFiles`: every active file of every user, newest id first, with its owner's name. */
  function GetFiles(users: map<UserId, User>, files: map<FileId, File>): (r: seq<Listing>)
    ensures |r| == |ActiveFiles(files)|
    ensures forall i | 0 <= i < |r| :: r[i].id in files && files[r[i].id].status == ACTIVE
    ensures forall i | 0 <= i < |r| :: r[i].id in files && r[i] == ListingOf(users, files, r[i].id)
  {
    var active := ActiveFiles(files);
    assert forall x | x in active :: x in files && files[x].status == ACTIVE;
    var ids := Descending(active);
    Listings(users, files, ids)
  }

  /** The admin listing is ordered by descending id. */
  lemma GetFilesNewestFirst(users: map<UserId, User>, files: map<FileId, File>, i: nat, j: nat)
    requires i < j < |GetFiles(users, files)|
    ensures GetFiles(users, files)[i].id > GetFiles(users, files)[j].id
  {
    var ids := Descending(ActiveFiles(files));
    assert GetFiles(users, files)[i].id == ids[i];
  }

  /** Every active file appears in the admin listing, with its owner's name. */
  lemma GetFilesComplete(users: map<UserId, User>, files: map<FileId, File>, id: FileId)
    requires id in files && files[id].status == ACTIVE
    ensures exists i | 0 <= i < |GetFiles(users, files)| ::
              GetFiles(users, files)[i].id == id && GetFiles(users, files)[i].owner == OwnerName(users, files[id])
  {
    var ids := Descending(ActiveFiles(files));
    assert id in ActiveFiles(files);
    var i :| 0 <= i < |ids| && ids[i] == id;
    assert GetFiles(users, files)[i] == ListingOf(users, files, id);
  }

  /**
   * `downloadFile` and `previewFile` for an admin: 404 when no row has the
   * id, 500 when its URL holds no storage key, otherwise the key. Neither
   * the owner nor the status is looked at.
   */
  function ReadCheck(files: map<FileId, File>, id: FileId): (r: Result<string>)
    ensures r == Fail(404, "File not found") <==> id !in files
    ensures r.Ok? <==> id in files && UserFiles.StoragePath(files[id].url).Some? && UserFiles.StoragePath(files[id].url).value != ""
    ensures r.Ok? ==> UserFiles.StoragePath(files[id].url) == Some(r.value)
  {
    if id !in files then Fail(404, "File not found")
    else match UserFiles.StoragePath(files[id].url)
      case None => Fail(500, "Invalid file URL")
      case Some(path) => if path == "" then Fail(500, "Invalid file URL") else Ok(path)
  }

  /**
   * A soft-deleted file is gone for its owner but still served on the
   * admin routes: where the user check answers 404, the admin check gives
   * the same storage key as before the deletion.
   */
  lemma AdminStillReadsDeletedFile(files: map<FileId, File>, shares: map<ShareKey, UserId>, id: FileId, caller: UserId, role: string)
    requires id in files && files[id].status == DELETED
    ensures UserFiles.ReadCheck(files, shares, id, caller, role) == Fail(404, "File not found")
    ensures ReadCheck(files, id) == ReadCheck(files[id := files[id].(status := ACTIVE)], id)
  {
  }

  /** `getUsers`: every row, with the three fields the page expects derived from it. */
  function View(id: UserId, u: User): (v: UserView)
    ensures v.id == id && v.username == u.username && v.fullName == u.username
    ensures v.isActive <==> u.status != DISABLED
    ensures v.lockedUntil.None?
  {
    UserView(id, u.username, u.email, u.role, u.status, u.username, u.status != DISABLED, None)
  }

  function Views(users: map<UserId, User>, ids: seq<UserId>): (r: seq<UserView>)
    requires forall i | 0 <= i < |ids| :: ids[i] in users
    ensures |r| == |ids|
    ensures forall i | 0 <= i < |ids| :: r[i] == View(ids[i], users[ids[i]])
  {
    if ids == [] then [] else [View(ids[0], users[ids[0]])] + Views(users, ids[1..])
  }

  /** All user rows, newest first (row ids stand in for `created_at`). */
  function GetUsers(users: map<UserId, User>): (r: seq<UserView>)
    ensures |r| == |users.Keys|
    ensures forall id | id in users :: View(id, users[id]) in r
    ensures forall i | 0 <= i < |r| :: r[i].id in users && r[i] == View(r[i].id, users[r[i].id])
  {
    var ids := Descending(users.Keys);
    ViewsFacts(users, ids);
    Views(users, ids)
  }

  lemma ViewsFacts(users: map<UserId, User>, ids: seq<UserId>)
    requires forall i | 0 <= i < |ids| :: ids[i] in users
    requires forall id | id in users :: id in ids
    ensures forall id | id in users :: View(id, users[id]) in Views(users, ids)
    ensures forall i | 0 <= i < |ids| :: Views(users, ids)[i].id in users
  {
    var r := Views(users, ids);
    forall id | id in users
      ensures View(id, users[id]) in r
    {
      var i :| 0 <= i < |ids| && ids[i] == id;
      assert r[i] == View(id, users[id]);
    }
  }

  /** The status `toggleUser` writes. */
  function Toggled(status: string): (r: string)
    ensures r == ACTIVE <==> status == DISABLED
    ensures r == DISABLED <==> status != DISABLED
  {
    if status == DISABLED then ACTIVE else DISABLED
  }

  /** Toggling twice restores an active or disabled account. */
  lemma ToggleTwice(status: string)
    requires status == ACTIVE || status == DISABLED
    ensures Toggled(Toggled(status)) == status
  {
  }

  /** Any other status is not restored: two toggles end at 'active'. */
  lemma ToggleTwiceOther(status: string)
    requires status != ACTIVE && status != DISABLED
    ensures Toggled(Toggled(status)) == ACTIVE != status
  {
  }

  /** `toggleUser`: 404 for a missing user, otherwise flip the status. */
  method ToggleUser(db: Database, id: UserId) returns (r: Result<string>)
    modifies db`users
    ensures id !in old(db.users) ==> r == Fail(404, "User not found") && db.users == old(db.users)
    ensures id in old(db.users) ==>
              var s := Toggled(old(db.users)[id].status);
              && db.users == old(db.users)[id := old(db.users)[id].(status := s)]
              && r == Ok(if s == ACTIVE then "User enabled" else "User disabled")
  {
    if id !in db.users {
      return Fail(404, "User not found");
    }
    var s := Toggled(db.users[id].status);
    db.users := db.users[id := db.users[id].(status := s)];
    r := Ok(if s == ACTIVE then "User enabled" else "User disabled");
  }

  /** `unlockUser`: sets 'active' on the row if there is one, and always answers success. */
  method UnlockUser(db: Database, id: UserId) returns (r: Result<string>)
    modifies db`users
    ensures r == Ok("User unlocked")
    ensures id in old(db.users) ==> db.users == old(db.users)[id := old(db.users)[id].(status := ACTIVE)]
    ensures id !in old(db.users) ==> db.users == old(db.users)
  {
    if id in db.users {
      db.users := db.users[id := db.users[id].(status := ACTIVE)];
    }
    r := Ok("User unlocked");
  }

  /** `deleteFile`: soft delete; 404 when no row has the id, whatever its status. */
  method DeleteFile(db: Database, id: FileId) returns (r: Result<string>)
    modifies db`files
    ensures r.Ok? <==> id in old(db.files)
    ensures r.Fail? ==> r == Fail(404, "File not found") && db.files == old(db.files)
    ensures r.Ok? ==> r.value == "File deleted successfully"
                      && db.files == old(db.files)[id := old(db.files)[id].(status := DELETED)]
  {
    var found := db.SoftDeleteFile(id);
    if !found {
      return Fail(404, "File not found");
    }
    r := Ok("File deleted successfully");
  }

  /** The files left after `.from('files').delete().eq('user_id', id)`. */
  function WithoutFilesOf(files: map<FileId, File>, owner: UserId): (r: map<FileId, File>)
    ensures forall f | f in r :: f in files && r[f] == files[f] && files[f].owner != Some(owner)
    ensures forall f | f in files && files[f].owner != Some(owner) :: f in r
  {
    map f | f in files && files[f].owner != Some(owner) :: files[f]
  }

  /**
   * `deleteUser`: hard-delete every file of the user, then the user row.
   * The two datastore failures are inputs; when the file delete fails the
   * user row stays, when the user delete fails the files are already gone.
   */
  method DeleteUser(db: Database, id: UserId, filesDeleteFails: bool, userDeleteFails: bool) returns (r: Result<string>)
    modifies db`files, db`users
    ensures filesDeleteFails ==> r.Fail? && r.status == 500 && db.files == old(db.files) && db.users == old(db.users)
    ensures !filesDeleteFails ==> db.files == WithoutFilesOf(old(db.files), id)
    ensures !filesDeleteFails && userDeleteFails ==> r.Fail? && r.status == 500 && db.users == old(db.users)
    ensures !filesDeleteFails && !userDeleteFails ==> r == Ok("User deleted") && db.users == old(db.users) - {id}
  {
    if filesDeleteFails {
      return Fail(500, "files delete failed");
    }
    db.files := WithoutFilesOf(db.files, id);
    if userDeleteFails {
      return Fail(500, "user delete failed");
    }
    db.users := db.users - {id};
    r := Ok("User deleted");
  }

  /** After a successful delete no file of the user is left, and every other file is untouched. */
  lemma DeleteUserLeavesNoFiles(files: map<FileId, File>, id: UserId, f: FileId)
    requires f in files
    ensures files[f].owner == Some(id) ==> f !in WithoutFilesOf(files, id)
    ensures files[f].owner != Some(id) ==> f in WithoutFilesOf(files, id) && WithoutFilesOf(files, id)[f] == files[f]
  {
  }
}
