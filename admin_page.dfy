/**
 * The admin page script (`frontend/src/pages/admin/script.js`): its
 * `apiFetch` and guard over `sessionStorage`, the two tab panels, the
 * grouping of the file listing by owner, and the badges and buttons of a
 * user row.
 */
module AdminPage {
  import opened Wrappers
  import opened Store
  import opened Pages
  import Admin

  /** The three items the page removes when the session ends. */
  const SESSION_KEYS: set<string> := {"accessToken", "refreshToken", "user"}

  /**
   * `apiFetch` of the admin page: the same refresh-once-and-retry protocol as
   * the user page, except that a failed refresh removes only the three
   * session items and keeps every other item.
   */
  method ApiFetch(st: Storage, req: Request, server: Request -> Response, refresh: Option<string> -> Option<TokenPair>)
    returns (res: Response, calls: seq<Call>, leaves: bool)
    modifies st
    ensures server(req).status != 401 ==>
              res == server(req) && calls == [Fetch(req)] && !leaves && st.items == old(st.items)
    ensures server(req).status == 401 ==>
              var stored := old(st.Get("refreshToken"));
              match refresh(stored)
              case Some(pair) =>
                && st.items == old(st.items)["accessToken" := pair.accessToken]["refreshToken" := pair.refreshToken]
                && res == server(Retried(req, pair)) && !leaves
                && calls == [Fetch(req), RefreshCall(stored), Fetch(Retried(req, pair))]
              case None =>
                st.items == old(st.items) - SESSION_KEYS && res == server(req) && leaves
                && calls == [Fetch(req), RefreshCall(stored)]
  {
    res := server(req);
    calls := [Fetch(req)];
    leaves := false;
    if res.status == 401 {
      var stored := st.Get("refreshToken");
      calls := calls + [RefreshCall(stored)];
      var rr := refresh(stored);
      if rr.Some? {
        st.items := st.items["accessToken" := rr.value.accessToken];
        st.items := st.items["refreshToken" := rr.value.refreshToken];
        var retry := Retried(req, rr.value);
        calls := calls + [Fetch(retry)];
        return server(retry), calls, leaves;
      } else {
        st.items := st.items - SESSION_KEYS;
        leaves := true;
      }
    }
  }

  /** A failed refresh removes exactly the session items: nothing else is lost and none of them remains. */
  lemma EndSessionRemovesExactlyThree(items: map<string, string>, key: string)
    ensures key in items - SESSION_KEYS <==> key in items && key !in SESSION_KEYS
    ensures key in items - SESSION_KEYS ==> (items - SESSION_KEYS)[key] == items[key]
    ensures |(items - SESSION_KEYS).Keys| >= |items.Keys| - 3
  {
    var removed := items.Keys * SESSION_KEYS;
    assert (items - SESSION_KEYS).Keys == items.Keys - removed;
    assert removed <= SESSION_KEYS;
    SubsetCardinality(removed, SESSION_KEYS);
    assert |SESSION_KEYS| == 3;
  }

  /** The fallback guard's test: a stored user item that parses and has the role 'admin'. */
  function Admitted(stored: Option<string>, parse: string -> Option<PageUser>): (r: bool)
    ensures r <==> stored.Some? && parse(stored.value).Some? && parse(stored.value).value.role == ADMIN
  {
    match stored
    case None => false
    case Some(text) => parse(text).Some? && parse(text).value.role == ADMIN
  }

  /** The fallback guard: a session that is not an admin's loses its three items and the page leaves. */
  method Guard(st: Storage, parse: string -> Option<PageUser>) returns (leaves: bool)
    modifies st
    ensures leaves <==> !Admitted(old(st.Get("user")), parse)
    ensures leaves ==> st.items == old(st.items) - SESSION_KEYS
    ensures !leaves ==> st.items == old(st.items)
  {
    leaves := !Admitted(st.Get("user"), parse);
    if leaves {
      st.items := st.items - SESSION_KEYS;
    }
  }

  // ---------------------------------------------------------------- tabs

  /** Which panels show: files iff the active tab is 'files', users iff it is 'users'. */
  function Panels(activeTab: string): (r: (bool, bool))
    ensures r.0 <==> activeTab == "files"
    ensures r.1 <==> activeTab == "users"
    ensures !(r.0 && r.1)
  {
    (activeTab == "files", activeTab == "users")
  }

  datatype Load = LoadFiles | LoadUsers

  class Tabs {
    var activeTab: string

    constructor ()
      ensures activeTab == "files"
    {
      activeTab := "files";
    }

    /** A tab click: the tab becomes active, the panels follow, and that panel's list is loaded. */
    method Click(tab: string) returns (shown: (bool, bool), load: Option<Load>)
      modifies this
      ensures activeTab == tab && shown == Panels(tab)
      ensures load == if tab == "files" then Some(LoadFiles) else if tab == "users" then Some(LoadUsers) else None
    {
      activeTab := tab;
      shown := Panels(activeTab);
      load := if activeTab == "files" then Some(LoadFiles) else if activeTab == "users" then Some(LoadUsers) else None;
    }
  }

  // ---------------------------------------------------------------- grouping the file listing

  type Row = Admin.Listing

  /** Some row of the listing belongs to `o`. */
  predicate HasOwner(files: seq<Row>, o: string) {
    exists j | 0 <= j < |files| :: files[j].owner == o
  }

  lemma HasOwnerSnoc(files: seq<Row>, o: string)
    requires files != []
    ensures HasOwner(files, o) <==> HasOwner(files[..|files| - 1], o) || files[|files| - 1].owner == o
  {
    var init := files[..|files| - 1];
    if HasOwner(init, o) {
      var j :| 0 <= j < |init| && init[j].owner == o;
      assert files[j].owner == o;
    }
    if HasOwner(files, o) && files[|files| - 1].owner != o {
      var j :| 0 <= j < |files| && files[j].owner == o;
      assert init[j].owner == o;
    }
  }

  /** The owners of the rows, each once, in order of first appearance. */
  function Owners(files: seq<Row>): (r: seq<string>)
    ensures forall o :: o in r <==> HasOwner(files, o)
    ensures forall i, j | 0 <= i < j < |r| :: r[i] != r[j]
  {
    if files == [] then []
    else
      var p := Owners(files[..|files| - 1]);
      var o := files[|files| - 1].owner;
      assert forall x :: HasOwner(files, x) <==> HasOwner(files[..|files| - 1], x) || x == o by {
        forall x ensures HasOwner(files, x) <==> HasOwner(files[..|files| - 1], x) || x == o {
          HasOwnerSnoc(files, x);
        }
      }
      if o in p then p else p + [o]
  }

  /** The rows of one owner, in listing order. */
  function OfOwner(files: seq<Row>, o: string): (r: seq<Row>)
    ensures forall k | 0 <= k < |r| :: r[k].owner == o && r[k] in files
  {
    if files == [] then []
    else OfOwner(files[..|files| - 1], o) + (if files[|files| - 1].owner == o then [files[|files| - 1]] else [])
  }

  /**
   * The loop of `loadAdminFiles` that fills `byOwner`: a new owner gets an
   * empty list, and each row is pushed onto its owner's list. `owners` is the
   * order the groups are drawn in.
   */
  method GroupByOwner(files: seq<Row>) returns (owners: seq<string>, byOwner: map<string, seq<Row>>)
    ensures owners == Owners(files)
    ensures byOwner.Keys == set o | o in owners
    ensures forall o | o in byOwner :: byOwner[o] == OfOwner(files, o)
  {
    owners, byOwner := [], map[];
    var i := 0;
    while i < |files|
      invariant 0 <= i <= |files|
      invariant owners == Owners(files[..i])
      invariant byOwner.Keys == set o | o in owners
      invariant forall o | o in byOwner :: byOwner[o] == OfOwner(files[..i], o)
    {
      var f := files[i];
      assert files[..i + 1][..i] == files[..i];
      if f.owner !in byOwner {
        OfOwnerAbsent(files[..i], f.owner);
        byOwner := byOwner[f.owner := []];
        owners := owners + [f.owner];
      }
      byOwner := byOwner[f.owner := byOwner[f.owner] + [f]];
      i := i + 1;
    }
    assert files[..i] == files;
  }

  /** An owner not seen yet has no rows so far. */
  lemma {:induction false} OfOwnerAbsent(files: seq<Row>, o: string)
    requires o !in Owners(files)
    ensures OfOwner(files, o) == []
  {
    if files != [] {
      HasOwnerSnoc(files, o);
      OfOwnerAbsent(files[..|files| - 1], o);
    }
  }

  /** Every row is in its owner's group. */
  lemma {:induction false} RowInOwnGroup(files: seq<Row>, j: nat)
    requires j < |files|
    ensures files[j] in OfOwner(files, files[j].owner)
  {
    var last := |files| - 1;
    if j < last {
      assert files[..last][j] == files[j];
      RowInOwnGroup(files[..last], j);
    }
  }

  /** The sum of the group sizes over a list of owners. */
  function GroupSizes(files: seq<Row>, owners: seq<string>): nat {
    if owners == [] then 0 else |OfOwner(files, owners[0])| + GroupSizes(files, owners[1..])
  }

  lemma {:induction false} GroupSizesAppendOwner(files: seq<Row>, owners: seq<string>, o: string)
    ensures GroupSizes(files, owners + [o]) == GroupSizes(files, owners) + |OfOwner(files, o)|
  {
    if owners != [] {
      assert (owners + [o])[1..] == owners[1..] + [o];
      GroupSizesAppendOwner(files, owners[1..], o);
    }
  }

  lemma {:induction false} GroupSizesAppendRow(files: seq<Row>, f: Row, owners: seq<string>)
    requires forall i, j | 0 <= i < j < |owners| :: owners[i] != owners[j]
    ensures GroupSizes(files + [f], owners) == GroupSizes(files, owners) + (if f.owner in owners then 1 else 0)
  {
    if owners != [] {
      assert (files + [f])[..|files + [f]| - 1] == files;
      GroupSizesAppendRow(files, f, owners[1..]);
      if owners[0] == f.owner {
        assert f.owner !in owners[1..] by {
          forall k | 0 <= k < |owners[1..]| ensures owners[1..][k] != f.owner {
            assert owners[1..][k] == owners[k + 1];
          }
        }
      }
    }
  }

  /** The groups partition the listing: their sizes add up to the number of rows. */
  lemma {:induction false} GroupsPartition(files: seq<Row>)
    ensures GroupSizes(files, Owners(files)) == |files|
  {
    if files != [] {
      var init := files[..|files| - 1];
      var f := files[|files| - 1];
      assert files == init + [f];
      GroupsPartition(init);
      var p := Owners(init);
      GroupSizesAppendRow(init, f, p);
      if f.owner !in p {
        GroupSizesAppendOwner(files, p, f.owner);
        OfOwnerAbsent(init, f.owner);
        assert OfOwner(files, f.owner) == [f];
      }
    }
  }

  /** Rows in strictly descending id order, as the listing is returned. */
  predicate NewestFirst(rows: seq<Row>) {
    forall i, j | 0 <= i < j < |rows| :: rows[i].id > rows[j].id
  }

  lemma NewestFirstSnoc(rows: seq<Row>, f: Row)
    requires NewestFirst(rows) && forall k | 0 <= k < |rows| :: rows[k].id > f.id
    ensures NewestFirst(rows + [f])
  {
    var s := rows + [f];
    forall i, j | 0 <= i < j < |s|
      ensures s[i].id > s[j].id
    {
      assert s[i] == rows[i];
      if j < |rows| {
        assert s[j] == rows[j];
      }
    }
  }

  /** A group keeps the listing's order: rows newest first stay so in each group. */
  lemma {:induction false} GroupKeepsOrder(files: seq<Row>, o: string)
    requires NewestFirst(files)
    ensures NewestFirst(OfOwner(files, o))
  {
    if files != [] {
      var last := files[|files| - 1];
      var init := files[..|files| - 1];
      assert NewestFirst(init) by {
        forall i, j | 0 <= i < j < |init|
          ensures init[i].id > init[j].id
        {
          assert init[i] == files[i] && init[j] == files[j];
        }
      }
      GroupKeepsOrder(init, o);
      var gi := OfOwner(init, o);
      if last.owner == o {
        forall k | 0 <= k < |gi|
          ensures gi[k].id > last.id
        {
          var j :| 0 <= j < |init| && init[j] == gi[k];
          assert files[j] == gi[k];
        }
        NewestFirstSnoc(gi, last);
      }
    }
  }

  /** The admin listing, grouped: each group is newest first, like the listing. */
  lemma GroupsOfAdminListing(users: map<UserId, User>, files: map<FileId, File>, o: string)
    ensures NewestFirst(OfOwner(Admin.GetFiles(users, files), o))
  {
    var rows := Admin.GetFiles(users, files);
    forall i, j | 0 <= i < j < |rows|
      ensures rows[i].id > rows[j].id
    {
      Admin.GetFilesNewestFirst(users, files, i, j);
    }
    GroupKeepsOrder(rows, o);
  }

  /** The group heading's plural: an 's' only for more than one file and only in English. */
  function PluralSuffix(count: nat, lang: string): (r: string)
    ensures r == "s" <==> count > 1 && lang == "en"
    ensures r == "" <==> !(count > 1 && lang == "en")
  {
    if count > 1 && lang == "en" then "s" else ""
  }

  // ---------------------------------------------------------------- user rows

  /** `u.locked_until && new Date(u.locked_until) > new Date()` */
  predicate Locked(u: Admin.UserView, nowMs: int) {
    u.lockedUntil.Some? && u.lockedUntil.value > nowMs
  }

  datatype Button = ToggleButton(enables: bool) | UnlockButton | DeleteButton

  /** The buttons of a row: none on one's own row; otherwise toggle, unlock when locked, and delete. */
  function Buttons(u: Admin.UserView, me: int, nowMs: int): (r: seq<Button>)
    ensures r == [] <==> u.id == me
    ensures UnlockButton in r <==> u.id != me && Locked(u, nowMs)
    ensures DeleteButton in r <==> u.id != me
    ensures u.id != me ==> r[0] == ToggleButton(!u.isActive)
  {
    if u.id == me then []
    else [ToggleButton(!u.isActive)] + (if Locked(u, nowMs) then [UnlockButton] else []) + [DeleteButton]
  }

  datatype Badge = DisabledBadge | LockedBadge | YouBadge

  /** The badges of a row, in the order they are drawn. */
  function Badges(u: Admin.UserView, me: int, nowMs: int): (r: seq<Badge>)
    ensures DisabledBadge in r <==> !u.isActive
    ensures LockedBadge in r <==> Locked(u, nowMs)
    ensures YouBadge in r <==> u.id == me
  {
    (if !u.isActive then [DisabledBadge] else []) + (if Locked(u, nowMs) then [LockedBadge] else [])
    + (if u.id == me then [YouBadge] else [])
  }

  /** Against the controller backend no row is ever locked, so the unlock button never shows. */
  lemma ControllerRowsNeverUnlockable(users: map<UserId, User>, me: int, nowMs: int, k: nat)
    requires k < |Admin.GetUsers(users)|
    ensures UnlockButton !in Buttons(Admin.GetUsers(users)[k], me, nowMs)
    ensures LockedBadge !in Badges(Admin.GetUsers(users)[k], me, nowMs)
  {
    var u := Admin.GetUsers(users)[k];
    assert u == Admin.View(u.id, users[u.id]);
  }
}
