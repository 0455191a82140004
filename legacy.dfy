/**
 * The unauthenticated legacy routes of `legacyController.js`: the list
 * filter chosen from the `user_id` query parameter, the upload row and
 * path, lookup by id and soft delete. `user_id` goes through JavaScript's
 * `parseInt`, modelled here on strings.
 */
module Legacy {
  import opened Wrappers
  import opened Text
  import opened Store
  import UserFiles

  // ---------------------------------------------------------------- parseInt

  predicate IsHexDigit(c: char) {
    IsAsciiDigit(c) || ('a' <= c <= 'f') || ('A' <= c <= 'F')
  }

  function HexDigitValue(c: char): (v: nat)
    requires IsHexDigit(c)
    ensures v < 16
  {
    if IsAsciiDigit(c) then c as int - '0' as int
    else if 'a' <= c <= 'f' then c as int - 'a' as int + 10
    else c as int - 'A' as int + 10
  }

  function HexValue(s: string): nat
    requires forall i | 0 <= i < |s| :: IsHexDigit(s[i])
  {
    if s == [] then 0 else HexValue(s[..|s| - 1]) * 16 + HexDigitValue(s[|s| - 1])
  }

  /** The longest prefix of decimal digits. */
  function LeadingDigits(s: string): (r: string)
    ensures AllDigits(r) && |r| <= |s| && r == s[..|r|]
    ensures |r| < |s| ==> !IsAsciiDigit(s[|r|])
  {
    if s != [] && IsAsciiDigit(s[0]) then [s[0]] + LeadingDigits(s[1..]) else []
  }

  /** The longest prefix of hexadecimal digits. */
  function LeadingHex(s: string): (r: string)
    ensures forall i | 0 <= i < |r| :: IsHexDigit(r[i])
    ensures |r| <= |s| && r == s[..|r|]
    ensures |r| < |s| ==> !IsHexDigit(s[|r|])
  {
    if s != [] && IsHexDigit(s[0]) then [s[0]] + LeadingHex(s[1..]) else []
  }

  /** `s` without a leading `+` or `-`. */
  function Unsigned(t: string): string {
    if t != [] && (t[0] == '-' || t[0] == '+') then t[1..] else t
  }

  predicate HasHexPrefix(u: string) {
    |u| >= 2 && u[0] == '0' && (u[1] == 'x' || u[1] == 'X')
  }

  /** The number the digits after the sign spell: hexadecimal after `0x`/`0X`, decimal otherwise, up to the first non-digit. */
  function Magnitude(u: string): (r: Option<nat>)
    ensures !HasHexPrefix(u) ==> (r.None? <==> u == [] || !IsAsciiDigit(u[0]))
  {
    var digits := if HasHexPrefix(u) then LeadingHex(u[2..]) else LeadingDigits(u);
    if digits == [] then None
    else Some(if HasHexPrefix(u) then HexValue(digits) else DecimalValue(digits))
  }

  /**
   * `parseInt(s)` with no radix: skip leading white space, take an optional
   * sign, then read the magnitude; `None` is NaN.
   */
  function ParseInt(s: string): Option<int> {
    var t := TrimStart(s);
    match Magnitude(Unsigned(t))
    case None => None
    case Some(v) => Some(if t != [] && t[0] == '-' then -(v as int) else v as int)
  }

  lemma {:induction false} LeadingDigitsOfDigits(d: string, t: string)
    requires AllDigits(d)
    requires t == [] || !IsAsciiDigit(t[0])
    ensures LeadingDigits(d + t) == d
  {
    if d != [] {
      assert (d + t)[1..] == d[1..] + t;
      LeadingDigitsOfDigits(d[1..], t);
    }
  }

  lemma ZeroPrintsAsZero()
    ensures NatToString(0) == "0"
  {
  }

  /**
   * `parseInt` reads back the decimal text of a number, and stops at the
   * first character after it that is not a digit (and is not the `x` that
   * would turn a lone `0` into a hexadecimal prefix).
   */
  lemma ParseIntOfDecimal(n: nat, tail: string)
    requires tail == [] || (!IsAsciiDigit(tail[0]) && tail[0] != 'x' && tail[0] != 'X')
    ensures ParseInt(NatToString(n) + tail) == Some(n)
  {
    var d := NatToString(n);
    var s := d + tail;
    assert s[0] == d[0];
    assert TrimStart(s) == s;
    assert Unsigned(s) == s;
    MagnitudeOfDecimal(d, n, tail);
  }

  lemma MagnitudeOfDecimal(d: string, n: nat, tail: string)
    requires d == NatToString(n)
    requires tail == [] || (!IsAsciiDigit(tail[0]) && tail[0] != 'x' && tail[0] != 'X')
    ensures Magnitude(d + tail) == Some(n)
  {
    var s := d + tail;
    assert !HasHexPrefix(s) by {
      if n == 0 && tail != [] { ZeroPrintsAsZero(); assert s[1] == tail[0]; }
    }
    LeadingDigitsOfDigits(d, tail);
  }

  /** A minus sign negates the number read. */
  lemma ParseIntOfNegative(n: nat)
    ensures ParseInt("-" + NatToString(n)) == Some(-(n as int))
  {
    var d := NatToString(n);
    var s := "-" + d;
    assert TrimStart(s) == s;
    assert Unsigned(s) == d;
    MagnitudeOfDecimal(d, n, []);
    assert d + [] == d;
  }

  /** Text that starts with no digit, sign, or space reads as NaN. */
  lemma ParseIntNaN(s: string)
    requires s != [] && !IsAsciiDigit(s[0]) && !IsJsSpace(s[0]) && s[0] != '-' && s[0] != '+'
    ensures ParseInt(s) == None
  {
    assert TrimStart(s) == s;
  }

  // ---------------------------------------------------------------- listing

  /** The owner filter `listFiles` adds to `status = 'active'`, or the 400 it answers. */
  datatype Filter = All | Anonymous | Owner(id: int) | BadUserId

  /** `listFiles`' choice of filter from `req.query.user_id`. */
  function ListFilter(param: Option<string>): (f: Filter)
    ensures f == All <==> param.None? || param.value == ""
    ensures f == Anonymous <==> param == Some("anonymous")
    ensures f == BadUserId <==> param.Some? && param.value !in {"", "anonymous"} && ParseInt(param.value).None?
    ensures f.Owner? <==> param.Some? && param.value !in {"", "anonymous"} && ParseInt(param.value).Some?
    ensures f.Owner? ==> ParseInt(param.value) == Some(f.id)
  {
    if param.Some? && param.value != "" && param.value != "anonymous" then
      match ParseInt(param.value)
      case None => BadUserId
      case Some(uid) => Owner(uid)
    else if param.None? || param.value == "" then All
    else Anonymous
  }

  predicate Matches(f: File, filter: Filter) {
    match filter
    case All => true
    case Anonymous => f.owner.None?
    case Owner(id) => f.owner.Some? && f.owner.value == id
    case BadUserId => false
  }

  /** `listFiles`: 400 "Invalid user_id", or the ids of the active files the filter keeps (in no particular order). */
  function ListFiles(files: map<FileId, File>, param: Option<string>): (r: Result<set<FileId>>)
    ensures r.Fail? <==> ListFilter(param) == BadUserId
    ensures r.Fail? ==> r == Fail(400, "Invalid user_id")
    ensures r.Ok? ==> forall id :: id in r.value <==>
              id in files && files[id].status == ACTIVE && Matches(files[id], ListFilter(param))
  {
    var filter := ListFilter(param);
    if filter == BadUserId then Fail(400, "Invalid user_id")
    else Ok(set id | id in files && files[id].status == ACTIVE && Matches(files[id], filter))
  }

  /** A deleted file is never listed, whatever the filter. */
  lemma DeletedNeverListed(files: map<FileId, File>, param: Option<string>, id: FileId)
    requires id in files && files[id].status == DELETED
    requires ListFiles(files, param).Ok?
    ensures id !in ListFiles(files, param).value
  {
  }

  /** A query `user_id` that is the decimal text of an id lists exactly that user's active files. */
  lemma ListByDecimalId(files: map<FileId, File>, n: nat)
    ensures ListFilter(Some(NatToString(n))) == Owner(n)
  {
    ParseIntOfDecimal(n, []);
    assert NatToString(n) + [] == NatToString(n);
    assert NatToString(n)[0] != 'a';
  }

  // ---------------------------------------------------------------- upload, lookup, delete

  /** What multer hands over: the original name, the size. */
  datatype Upload = Upload(originalName: string, size: nat)

  /** `req.body.user_id ? parseInt(req.body.user_id) : null`; NaN is stored as null. */
  function UploadOwner(param: Option<string>): (r: Option<int>)
    ensures param.None? || param.value == "" ==> r.None?
    ensures param.Some? && param.value != "" ==> r == ParseInt(param.value)
  {
    if param.None? || param.value == "" then None else ParseInt(param.value)
  }

  /** `${user_id || 'anonymous'}/${Date.now()}-${originalname}` */
  function UploadPath(param: Option<string>, nowMs: nat, name: string): (r: string)
    ensures param.None? || param.value == "" ==> StartsWith(r, "anonymous/")
    ensures param.Some? && param.value != "" ==> StartsWith(r, param.value + "/")
  {
    var folder := if param.None? || param.value == "" then "anonymous" else param.value;
    var r := folder + "/" + NatToString(nowMs) + "-" + name;
    assert r[..|folder| + 1] == folder + "/";
    r
  }

  /**
   * `upload`: 400 without a file; otherwise an active row whose URL ends in
   * the upload path. The insert itself can fail (the owner must reference a
   * user row); that outcome is the input `insertFails`, and a negative owner,
   * which no row can have, fails it too.
   */
  method LegacyUpload(db: Database, param: Option<string>, upload: Option<Upload>, base: string, nowMs: nat,
                      newId: FileId, insertFails: bool) returns (r: Result<string>)
    requires newId !in db.files
    modifies db`files
    ensures upload.None? ==> r == Fail(400, "No file uploaded") && db.files == old(db.files)
    ensures upload.Some? && (insertFails || (UploadOwner(param).Some? && UploadOwner(param).value < 0)) ==>
              r.Fail? && r.status == 500 && db.files == old(db.files)
    ensures r.Ok? ==>
              var url := base + UserFiles.MARKER + UploadPath(param, nowMs, upload.value.originalName);
              var owner := UploadOwner(param);
              && upload.Some? && !insertFails
              && r.value == url
              && db.files == old(db.files)[newId := File(if owner.None? then None else Some(owner.value as nat),
                                                         upload.value.originalName, url, upload.value.size, ACTIVE)]
    ensures upload.Some? && !insertFails && (UploadOwner(param).None? || UploadOwner(param).value >= 0) ==> r.Ok?
  {
    if upload.None? {
      return Fail(400, "No file uploaded");
    }
    var url := base + UserFiles.MARKER + UploadPath(param, nowMs, upload.value.originalName);
    var owner := UploadOwner(param);
    if insertFails || (owner.Some? && owner.value < 0) {
      return Fail(500, "insert failed");
    }
    db.files := db.files[newId := File(if owner.None? then None else Some(owner.value as nat),
                                       upload.value.originalName, url, upload.value.size, ACTIVE)];
    r := Ok(url);
  }

  /** An upload without `user_id` is stored anonymously and listed under 'anonymous'. */
  lemma AnonymousUploadListed(param: Option<string>)
    requires param.None? || param.value == ""
    ensures UploadOwner(param).None?
    ensures Matches(File(UploadOwner(param), "", "", 0, ACTIVE), ListFilter(Some("anonymous")))
  {
  }

  /** `downloadFile` and `viewFile`: the stored URL of any row with the id, whatever its status; 404 otherwise. */
  function FileUrl(files: map<FileId, File>, id: FileId): (r: Result<string>)
    ensures r.Fail? <==> id !in files
    ensures r.Fail? ==> r == Fail(404, "File not found")
    ensures r.Ok? ==> r.value == files[id].url
  {
    if id in files then Ok(files[id].url) else Fail(404, "File not found")
  }

  /** `deleteFile`: soft delete; 404 when no row has the id. */
  method DeleteFile(db: Database, id: FileId) returns (r: Result<string>)
    modifies db`files
    ensures r.Ok? <==> id in old(db.files)
    ensures r.Fail? ==> r == Fail(404, "File not found") && db.files == old(db.files)
    ensures r.Ok? ==> r.value == "File deleted successfully"
                      && db.files == old(db.files)[id := old(db.files)[id].(status := DELETED)]
  {
    var found := db.SoftDeleteFile(id);
    if !found {
      return Fail(404, "File not found");
    }
    r := Ok("File deleted successfully");
  }

  /** After a legacy delete the file drops out of every listing but its URL is still served. */
  lemma DeleteThenLookup(files: map<FileId, File>, id: FileId, param: Option<string>)
    requires id in files
    ensures var after := files[id := files[id].(status := DELETED)];
            FileUrl(after, id) == FileUrl(files, id)
            && (ListFiles(after, param).Ok? ==> id !in ListFiles(after, param).value)
  {
  }
}
