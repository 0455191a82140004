/**
 * What the user page and the admin page scripts share: the icon chosen for a
 * MIME type and the byte branch of the size formatter (the two files carry
 * identical copies of both), the browser storage they keep the session in,
 * and the requests `apiFetch` makes.
 */
module Pages {
  import opened Wrappers
  import opened Text
  import Mime

  // ---------------------------------------------------------------- file icons

  /** The emoji of `fileIcon`: 📎 🖼️ 🎬 🎵 📄 📊 📝 🗜️. */
  datatype Icon = Clip | Picture | Film | Music | PdfIcon | Sheet | Memo | Archive

  /** `fileIcon(mime)`: an empty or absent type is a clip; then three prefix tests, then four substring tests, first match wins. */
  function FileIcon(mime: Option<string>): (icon: Icon)
    ensures mime.None? || mime.value == "" ==> icon == Clip
    ensures mime.Some? && mime.value != "" ==> icon == FirstMatch(RULES, mime.value, 0)
  {
    if mime.None? || mime.value == "" then Clip
    else
      var m := mime.value;
      FirstMatchUnrolled(m);
      if StartsWith(m, "image/") then Picture
      else if StartsWith(m, "video/") then Film
      else if StartsWith(m, "audio/") then Music
      else if Contains(m, "pdf") then PdfIcon
      else if Contains(m, "spreadsheet") || Contains(m, "excel") then Sheet
      else if Contains(m, "word") || Contains(m, "document") then Memo
      else if Contains(m, "zip") || Contains(m, "rar") then Archive
      else Clip
  }

  /** One test of `fileIcon`: a prefix or a substring of the type, and the icon it gives. */
  datatype Rule = Prefix(prefix: string, icon: Icon) | Part(part: string, icon: Icon)

  /** The tests of `fileIcon` as data, in the order they are tried (an `a || b` test is two rules with one icon). */
  const RULES: seq<Rule> := [
    Prefix("image/", Picture), Prefix("video/", Film), Prefix("audio/", Music),
    Part("pdf", PdfIcon), Part("spreadsheet", Sheet), Part("excel", Sheet),
    Part("word", Memo), Part("document", Memo), Part("zip", Archive), Part("rar", Archive)
  ]

  predicate Matches(rule: Rule, m: string) {
    match rule
    case Prefix(p, _) => StartsWith(m, p)
    case Part(p, _) => Contains(m, p)
  }

  /** The icon of the first rule from index `k` on that matches, or the clip when none does. */
  function FirstMatch(rules: seq<Rule>, m: string, k: nat): Icon
    requires k <= |rules|
    decreases |rules| - k
  {
    if k == |rules| then Clip
    else if Matches(rules[k], m) then rules[k].icon
    else FirstMatch(rules, m, k + 1)
  }

  /** With no rule giving the clip, the first match is the clip exactly when no rule matches. */
  lemma {:induction false} FirstMatchClip(rules: seq<Rule>, m: string, k: nat)
    requires k <= |rules| && forall j | 0 <= j < |rules| :: rules[j].icon != Clip
    ensures FirstMatch(rules, m, k) == Clip <==> forall j | k <= j < |rules| :: !Matches(rules[j], m)
    decreases |rules| - k
  {
    if k < |rules| && !Matches(rules[k], m) {
      FirstMatchClip(rules, m, k + 1);
    }
  }

  /** The first match is the icon of a rule that matches, and no earlier rule matches. */
  lemma {:induction false} FirstMatchIsFirst(rules: seq<Rule>, m: string, k: nat) returns (j: nat)
    requires k <= |rules| && forall i | 0 <= i < |rules| :: rules[i].icon != Clip
    requires FirstMatch(rules, m, k) != Clip
    ensures k <= j < |rules| && Matches(rules[j], m) && rules[j].icon == FirstMatch(rules, m, k)
    ensures forall i | k <= i < j :: !Matches(rules[i], m)
    decreases |rules| - k
  {
    if Matches(rules[k], m) {
      j := k;
    } else {
      j := FirstMatchIsFirst(rules, m, k + 1);
    }
  }

  lemma FirstMatchUnrolled(m: string)
    ensures FirstMatch(RULES, m, 0) ==
      if StartsWith(m, "image/") then Picture
      else if StartsWith(m, "video/") then Film
      else if StartsWith(m, "audio/") then Music
      else if Contains(m, "pdf") then PdfIcon
      else if Contains(m, "spreadsheet") || Contains(m, "excel") then Sheet
      else if Contains(m, "word") || Contains(m, "document") then Memo
      else if Contains(m, "zip") || Contains(m, "rar") then Archive
      else Clip
  {
    assert FirstMatch(RULES, m, 10) == Clip;
    assert FirstMatch(RULES, m, 9) == if Contains(m, "rar") then Archive else Clip;
    assert FirstMatch(RULES, m, 8) == if Contains(m, "zip") || Contains(m, "rar") then Archive else Clip;
    assert FirstMatch(RULES, m, 7) == if Contains(m, "document") then Memo else FirstMatch(RULES, m, 8);
    assert FirstMatch(RULES, m, 6) == if Contains(m, "word") then Memo else FirstMatch(RULES, m, 7);
    assert FirstMatch(RULES, m, 5) == if Contains(m, "excel") then Sheet else FirstMatch(RULES, m, 6);
    assert FirstMatch(RULES, m, 4) == if Contains(m, "spreadsheet") then Sheet else FirstMatch(RULES, m, 5);
    assert FirstMatch(RULES, m, 3) == if Contains(m, "pdf") then PdfIcon else FirstMatch(RULES, m, 4);
    assert FirstMatch(RULES, m, 2) == if StartsWith(m, "audio/") then Music else FirstMatch(RULES, m, 3);
    assert FirstMatch(RULES, m, 1) == if StartsWith(m, "video/") then Film else FirstMatch(RULES, m, 2);
  }

  lemma NoRuleGivesClip()
    ensures forall j | 0 <= j < |RULES| :: RULES[j].icon != Clip
  {
  }

  /** The clip shows for a non-empty type exactly when no rule matches. */
  lemma ClipIffNoRuleMatches(m: string)
    requires m != ""
    ensures FileIcon(Some(m)) == Clip <==> forall j | 0 <= j < |RULES| :: !Matches(RULES[j], m)
  {
    NoRuleGivesClip();
    FirstMatchClip(RULES, m, 0);
  }

  /** The prefix tests come first: an image type is a picture whatever else it contains. */
  lemma PrefixBeatsSubstring(rest: string)
    ensures FileIcon(Some("image/" + rest)) == Picture
  {
    assert ("image/" + rest)[..6] == "image/";
  }

  /** The type the server gives a `.pdf` name, in any letter case. */
  lemma PdfMime(stem: string, ext: string)
    requires Lower(ext) == "pdf"
    ensures Mime.MimeFromFilename(stem + "." + ext) == "application/pdf"
  {
    forall i | 0 <= i < |ext|
      ensures ext[i] != '.'
    {
      assert Lower(ext)[i] == LowerChar(ext[i]);
    }
    Mime.MimeOfExtension(stem, ext);
  }

  lemma PdfTypeIcon()
    ensures FileIcon(Some("application/pdf")) == PdfIcon
  {
    var m := "application/pdf";
    assert !StartsWith(m, "image/") && !StartsWith(m, "video/") by { assert m[0] == 'a'; }
    assert !StartsWith(m, "audio/") by { assert m[..6][1] == 'p'; }
    assert Contains(m, "pdf") by {
      assert m[12..15] == "pdf";
      assert OccursAt("pdf", m, 12);
      ContainsIff(m, "pdf");
    }
  }

  /** A `.pdf` upload, in any letter case, is listed with the PDF icon. */
  lemma PdfFilesGetPdfIcon(stem: string, ext: string)
    requires Lower(ext) == "pdf"
    ensures FileIcon(Some(Mime.MimeFromFilename(stem + "." + ext))) == PdfIcon
  {
    PdfMime(stem, ext);
    PdfTypeIcon();
  }

  // ---------------------------------------------------------------- sizes

  /** `fmtSize` below 1024: the number and " B". Larger sizes use floating point and are not modelled. */
  function FmtSizeBytes(bytes: nat): (r: Option<string>)
    ensures r.Some? <==> bytes < 1024
  {
    if bytes < 1024 then Some(NatToString(bytes) + " B") else None
  }

  /** The text reads back as the byte count, at most four digits, then " B". */
  lemma FmtSizeReadsBack(bytes: nat)
    requires bytes < 1024
    ensures var s := FmtSizeBytes(bytes).value;
            && |s| <= 6 && s[|s| - 2..] == " B"
            && AllDigits(s[..|s| - 2]) && DecimalValue(s[..|s| - 2]) == bytes
  {
    var s := FmtSizeBytes(bytes).value;
    var digits := NatToString(bytes);
    assert s[..|s| - 2] == digits;
    assert Pow10(0) == 1 && Pow10(1) == 10 && Pow10(2) == 100 && Pow10(3) == 1000 && Pow10(4) == 10000;
    if bytes >= 10 {
      var k := if bytes < 100 then 2 else if bytes < 1000 then 3 else 4;
      NatToStringLength(bytes, k);
    }
  }

  // ---------------------------------------------------------------- storage and requests

  /** `localStorage` or `sessionStorage`: string items by key. */
  class Storage {
    var items: map<string, string>

    constructor (items: map<string, string>)
      ensures this.items == items
    {
      this.items := items;
    }

    /** `getItem(key)`, null when absent. */
    function Get(key: string): (r: Option<string>)
      reads this
      ensures r.Some? <==> key in items
      ensures r.Some? ==> r.value == items[key]
    {
      if key in items then Some(items[key]) else None
    }
  }

  /** A request: its URL and its `Authorization` header, if any. */
  datatype Request = Request(url: string, authorization: Option<string>)

  datatype Response = Response(status: nat, body: string)

  /** What `refresh` answers when `rr.ok`: the new token pair. */
  datatype TokenPair = TokenPair(accessToken: string, refreshToken: string)

  /** One network call `apiFetch` makes: a request, or the refresh call with the stored refresh token. */
  datatype Call = Fetch(request: Request) | RefreshCall(refreshToken: Option<string>)

  /** The stored `user` item, parsed: the fields the pages read. */
  datatype PageUser = PageUser(id: int, username: string, fullName: string, role: string)

  /** `user.full_name || user.username`, the name in the navigation bar. */
  function DisplayName(u: PageUser): (r: string)
    ensures u.fullName != "" ==> r == u.fullName
    ensures u.fullName == "" ==> r == u.username
  {
    if u.fullName != "" then u.fullName else u.username
  }

  /** The request retried after a refresh: the same URL with the new bearer. */
  function Retried(req: Request, pair: TokenPair): (r: Request)
    ensures r.url == req.url && r.authorization == Some("Bearer " + pair.accessToken)
  {
    req.(authorization := Some("Bearer " + pair.accessToken))
  }
}
