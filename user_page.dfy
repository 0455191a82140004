/**
 * The user page script (`frontend/src/pages/user/script.js`): its `apiFetch`,
 * which answers a 401 with one refresh and one retry, and the guard that
 * sends anyone but a plain user back to the login page. The page keeps its
 * session in `localStorage`.
 */
module UserPage {
  import opened Wrappers
  import opened Pages

  /**
   * `apiFetch(url, opts)`. `server` answers the page's requests and
   * `refresh` the refresh call (a pair when `rr.ok`). A non-401 answer is
   * returned as it is; a 401 triggers exactly one refresh. On success both
   * tokens are stored and the request is sent once more with the new
   * bearer; on failure storage is cleared, the page leaves for the login
   * page, and the first answer is returned.
   */
  method ApiFetch(st: Storage, req: Request, server: Request -> Response, refresh: Option<string> -> Option<TokenPair>)
    returns (res: Response, calls: seq<Call>, leaves: bool)
    modifies st
    ensures server(req).status != 401 ==>
              res == server(req) && calls == [Fetch(req)] && !leaves && st.items == old(st.items)
    ensures server(req).status == 401 ==>
              var stored := old(st.Get("refreshToken"));
              match refresh(stored)
              case Some(pair) =>
                && st.items == old(st.items)["accessToken" := pair.accessToken]["refreshToken" := pair.refreshToken]
                && res == server(Retried(req, pair)) && !leaves
                && calls == [Fetch(req), RefreshCall(stored), Fetch(Retried(req, pair))]
              case None =>
                st.items == map[] && res == server(req) && leaves && calls == [Fetch(req), RefreshCall(stored)]
  {
    res := server(req);
    calls := [Fetch(req)];
    leaves := false;
    if res.status == 401 {
      var stored := st.Get("refreshToken");
      calls := calls + [RefreshCall(stored)];
      var rr := refresh(stored);
      if rr.Some? {
        st.items := st.items["accessToken" := rr.value.accessToken];
        st.items := st.items["refreshToken" := rr.value.refreshToken];
        var retry := Retried(req, rr.value);
        calls := calls + [Fetch(retry)];
        return server(retry), calls, leaves;
      } else {
        st.items := map[];
        leaves := true;
      }
    }
  }

  /** The fallback guard's test: a stored user item that parses and has the role 'user'. */
  function Admitted(stored: Option<string>, parse: string -> Option<PageUser>): (r: bool)
    ensures r <==> stored.Some? && parse(stored.value).Some? && parse(stored.value).value.role == "user"
  {
    match stored
    case None => false
    case Some(text) => parse(text).Some? && parse(text).value.role == "user"
  }

  /** The fallback guard: a session that is not admitted is cleared from storage and the page leaves. */
  method Guard(st: Storage, parse: string -> Option<PageUser>) returns (leaves: bool)
    modifies st
    ensures leaves <==> !Admitted(old(st.Get("user")), parse)
    ensures leaves ==> st.items == map[]
    ensures !leaves ==> st.items == old(st.items)
  {
    leaves := !Admitted(st.Get("user"), parse);
    if leaves {
      st.items := map[];
    }
  }

  /** An admin's session never passes the user page's guard. */
  lemma AdminNotAdmitted(text: string, parse: string -> Option<PageUser>)
    requires parse(text).Some? && parse(text).value.role == "admin"
    ensures !Admitted(Some(text), parse)
  {
  }
}
