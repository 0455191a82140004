/**
 * The real-time gateway: the `wsClients` registry, admission of a socket by
 * the access token in its URL, the two-phase heartbeat and the filtered,
 * best-effort broadcast.
 */
module Ws {
  import opened Wrappers
  import opened Text
  import opened Crypto
  import opened Store

  type SocketId = nat

  /** Private-use close code (section 7.4.2 of RFC 6455) sent to a rejected socket. */
  const CLOSE_UNAUTHENTICATED: nat := 4001
  const HEARTBEAT_MS: nat := 30000

  /** A registry record: the socket, `String(decoded.id)` and `decoded.role`. */
  datatype Client = Client(socket: SocketId, userId: string, role: Option<string>)

  /** The payloads the controllers broadcast. */
  datatype Event =
    | FileUploaded(file: FileEntry, userId: string)
    | FileDeleted(id: string)

  /** The broadcast filters in use: the default one, and "admins plus one user's sockets". */
  datatype Audience = Everyone | AdminsAnd(userId: string)

  /** A `broadcast(payload, filter)` call a handler makes. */
  datatype Notice = Notice(event: Event, audience: Audience)

  predicate Admits(a: Audience, c: Client) {
    match a
    case Everyone => true
    case AdminsAnd(u) => c.role == Some(ADMIN) || c.userId == u
  }

  /** `String(decoded.id)`: the id's digits, or "undefined" when the token has no id. */
  function IdText(id: Option<nat>): string {
    if id.Some? then NatToString(id.value) else "undefined"
  }

  // ---------------------------------------------------------------- token in the URL

  /** `[?&]token=` starts at `p` and is followed by at least one character other than `&`. */
  predicate TokenMatchAt(url: string, p: nat) {
    p + 7 < |url| && (url[p] == '?' || url[p] == '&') && url[p + 1..p + 7] == "token=" && url[p + 7] != '&'
  }

  /** The end of the run of non-`&` characters from `i`: what `([^&]+)` captures. */
  function AmpEnd(url: string, i: nat): (e: nat)
    requires i <= |url|
    ensures i <= e <= |url|
    ensures forall k | i <= k < e :: url[k] != '&'
    ensures e < |url| ==> url[e] == '&'
    decreases |url| - i
  {
    if i == |url| || url[i] == '&' then i else AmpEnd(url, i + 1)
  }

  function TokenParamFrom(url: string, p: nat): (r: Option<string>)
    decreases |url| - p
  {
    if p >= |url| then None
    else if TokenMatchAt(url, p) then Some(url[p + 7..AmpEnd(url, p + 7)])
    else TokenParamFrom(url, p + 1)
  }

  /**
   * `req.url.match(/[?&]token=([^&]+)/)[1]`, before URI decoding: the first
   * group of the leftmost match, or null.
   */
  function TokenParam(url: string): (r: Option<string>)
    ensures r.Some? ==> |r.value| > 0 && forall k | 0 <= k < |r.value| :: r.value[k] != '&'
  {
    TokenParamFromShape(url, 0);
    TokenParamFrom(url, 0)
  }

  lemma {:induction false} TokenParamFromShape(url: string, p: nat)
    ensures var r := TokenParamFrom(url, p);
            r.Some? ==> |r.value| > 0 && forall k | 0 <= k < |r.value| :: r.value[k] != '&'
    decreases |url| - p
  {
    if p < |url| && !TokenMatchAt(url, p) {
      TokenParamFromShape(url, p + 1);
    }
  }

  /** Where nothing before `p` can start a match, the search from 0 gives the search from `p`. */
  lemma {:induction false} TokenParamSkip(url: string, p: nat)
    requires p <= |url|
    requires forall i | 0 <= i < p :: url[i] != '?' && url[i] != '&'
    ensures TokenParam(url) == TokenParamFrom(url, p)
  {
    var i := 0;
    while i < p
      invariant 0 <= i <= p
      invariant TokenParamFrom(url, 0) == TokenParamFrom(url, i)
    {
      i := i + 1;
    }
  }

  /**
   * A socket URL `path?token=T` or `path?token=T&more` yields `T`, when the
   * path has no `?` or `&` and `T` has no `&`.
   */
  lemma {:induction false} TokenParamOfUrl(path: string, t: string, more: string)
    requires forall i | 0 <= i < |path| :: path[i] != '?' && path[i] != '&'
    requires |t| > 0 && forall i | 0 <= i < |t| :: t[i] != '&'
    requires more == [] || more[0] == '&'
    ensures TokenParam(path + "?token=" + t + more) == Some(t)
  {
    var url := path + "?token=" + t + more;
    var p := |path|;
    TokenParamSkip(url, p);
    assert url[p + 1..p + 7] == "token=";
    assert TokenMatchAt(url, p);
    var e := p + 7 + |t|;
    assert forall k | p + 7 <= k < e :: url[k] == t[k - p - 7];
    AmpEndAt(url, p + 7, e);
    assert url[p + 7..e] == t;
  }

  lemma {:induction false} AmpEndAt(url: string, i: nat, e: nat)
    requires i <= e <= |url|
    requires forall k | i <= k < e :: url[k] != '&'
    requires e == |url| || url[e] == '&'
    ensures AmpEnd(url, i) == e
    decreases e - i
  {
    if i < e {
      AmpEndAt(url, i + 1, e);
    }
  }

  // ---------------------------------------------------------------- admission

  /**
   * The connection handler's decision: close with 4001 when the URL has no
   * token or the token does not verify with the access secret, otherwise the
   * record to register. `decode` stands for `decodeURIComponent` followed by
   * reading the JWT text.
   */
  function Admission(socket: SocketId, url: string, decode: string -> Token, nowMs: nat): (r: Result<Client>)
    ensures r.Fail? ==> r.status == CLOSE_UNAUTHENTICATED
    ensures r.Ok? <==> TokenParam(url).Some? && Verify(decode(TokenParam(url).value), AccessSecret, nowMs).Some?
    ensures r.Ok? ==> r.value.socket == socket
    ensures r.Ok? ==> var c := Verify(decode(TokenParam(url).value), AccessSecret, nowMs).value;
                      r.value.userId == IdText(c.id) && r.value.role == c.role
  {
    match TokenParam(url)
    case None => Fail(CLOSE_UNAUTHENTICATED, "Authentication required")
    case Some(raw) =>
      match Verify(decode(raw), AccessSecret, nowMs)
      case None => Fail(CLOSE_UNAUTHENTICATED, "Invalid or expired token")
      case Some(c) => Ok(Client(socket, IdText(c.id), c.role))
  }

  /**
   * A password-reset token is signed with the access secret, so it opens a
   * socket; the record's user id is the text "undefined" and it has no role,
   * so it hears every broadcast meant for everyone.
   */
  lemma ResetTokenAdmitted(socket: SocketId, path: string, raw: string, decode: string -> Token,
                           email: string, signedMs: nat, nowMs: nat)
    requires forall i | 0 <= i < |path| :: path[i] != '?' && path[i] != '&'
    requires |raw| > 0 && forall i | 0 <= i < |raw| :: raw[i] != '&'
    requires decode(raw) == Sign(AccessSecret, EmailClaims(email), signedMs, RESET_TTL_S)
    requires signedMs <= nowMs < signedMs + (RESET_TTL_S - 1) * 1000
    ensures Admission(socket, path + "?token=" + raw, decode, nowMs) == Ok(Client(socket, "undefined", None))
  {
    TokenParamOfUrl(path, raw, []);
    assert path + "?token=" + raw + [] == path + "?token=" + raw;
    VerifySigned(AccessSecret, EmailClaims(email), signedMs, RESET_TTL_S, nowMs);
  }

  /** A refresh token never opens a socket. */
  lemma RefreshTokenRejected(socket: SocketId, url: string, decode: string -> Token, claims: Claims, signedMs: nat, nowMs: nat)
    requires TokenParam(url).Some? && decode(TokenParam(url).value) == SignRefresh(claims, signedMs)
    ensures Admission(socket, url, decode, nowMs) == Fail(CLOSE_UNAUTHENTICATED, "Invalid or expired token")
  {
  }

  // ---------------------------------------------------------------- heartbeat and broadcast, as values

  function Sockets(cs: seq<Client>): (r: seq<SocketId>)
    ensures |r| == |cs| && forall i | 0 <= i < |cs| :: r[i] == cs[i].socket
  {
    if cs == [] then [] else [cs[0].socket] + Sockets(cs[1..])
  }

  predicate IsAlive(alive: map<SocketId, bool>, s: SocketId) {
    s in alive && alive[s]
  }

  /** The clients a heartbeat tick keeps: those that answered since the previous tick. */
  function Survivors(cs: seq<Client>, alive: map<SocketId, bool>): seq<Client> {
    if cs == [] then []
    else (if IsAlive(alive, cs[0].socket) then [cs[0]] else []) + Survivors(cs[1..], alive)
  }

  /** The clients a tick terminates. */
  function Dead(cs: seq<Client>, alive: map<SocketId, bool>): seq<Client> {
    if cs == [] then []
    else (if IsAlive(alive, cs[0].socket) then [] else [cs[0]]) + Dead(cs[1..], alive)
  }

  /** A tick keeps exactly the clients flagged alive and terminates exactly the others. */
  lemma {:induction false} TickPartition(cs: seq<Client>, alive: map<SocketId, bool>)
    ensures forall c | c in cs :: (c in Survivors(cs, alive) <==> IsAlive(alive, c.socket))
    ensures forall c | c in cs :: (c in Dead(cs, alive) <==> !IsAlive(alive, c.socket))
    ensures forall c | c in Survivors(cs, alive) :: c in cs
    ensures forall c | c in Dead(cs, alive) :: c in cs
    ensures |Survivors(cs, alive)| + |Dead(cs, alive)| == |cs|
  {
    if cs != [] {
      TickPartition(cs[1..], alive);
      assert forall c | c in cs :: c == cs[0] || c in cs[1..];
    }
  }

  /** `isAlive = false` on each of `cs`. */
  function Unmark(alive: map<SocketId, bool>, cs: seq<Client>): (r: map<SocketId, bool>)
    ensures r.Keys == alive.Keys + set c | c in cs :: c.socket
    ensures forall c | c in cs :: !IsAlive(r, c.socket)
    ensures forall s | s in alive && (forall c | c in cs :: c.socket != s) :: r[s] == alive[s]
  {
    if cs == [] then alive else Unmark(alive, cs[1..])[cs[0].socket := false]
  }

  /**
   * A client that sends no pong between two ticks is gone after the second:
   * the first tick either terminates it or clears its flag, and the second
   * then terminates it.
   */
  lemma {:induction false} SecondTickSweeps(cs: seq<Client>, alive: map<SocketId, bool>)
    ensures var kept := Survivors(cs, alive);
            Survivors(kept, Unmark(alive, kept)) == []
  {
    var kept := Survivors(cs, alive);
    NoneAliveSurvive(kept, Unmark(alive, kept));
  }

  /**
   * The same for one client, whatever the others do: if its flag is still as
   * the first tick left it when the second tick runs (it sent no pong), the
   * second tick terminates it, however many other sockets answered.
   */
  lemma SilentClientSwept(cs: seq<Client>, alive: map<SocketId, bool>, c: Client, second: map<SocketId, bool>)
    requires var kept := Survivors(cs, alive);
             IsAlive(second, c.socket) == IsAlive(Unmark(alive, kept), c.socket)
    ensures c !in Survivors(Survivors(cs, alive), second)
  {
    var kept := Survivors(cs, alive);
    TickPartition(kept, second);
  }

  lemma {:induction false} NoneAliveSurvive(cs: seq<Client>, alive: map<SocketId, bool>)
    requires forall c | c in cs :: !IsAlive(alive, c.socket)
    ensures Survivors(cs, alive) == []
  {
    if cs != [] {
      assert cs[0] in cs;
      assert forall c | c in cs[1..] :: c in cs;
      NoneAliveSurvive(cs[1..], alive);
    }
  }

  /** A client that answers the ping between two ticks survives the second. */
  lemma PongKeeps(cs: seq<Client>, alive: map<SocketId, bool>, c: Client)
    requires c in Survivors(cs, alive)
    ensures var kept := Survivors(cs, alive);
            c in Survivors(kept, Unmark(alive, kept)[c.socket := true])
  {
    TickPartition(cs, alive);
    var kept := Survivors(cs, alive);
    TickPartition(kept, Unmark(alive, kept)[c.socket := true]);
  }

  /** The sockets a broadcast tries: open ones whose record passes the filter. */
  predicate Targeted(c: Client, audience: Audience, isOpen: SocketId -> bool) {
    isOpen(c.socket) && Admits(audience, c)
  }

  /** The sockets that receive the message: targeted ones whose send did not throw, in registry order. */
  function Delivered(cs: seq<Client>, audience: Audience, isOpen: SocketId -> bool, sendThrows: SocketId -> bool): seq<SocketId> {
    if cs == [] then []
    else
      (if Targeted(cs[0], audience, isOpen) && !sendThrows(cs[0].socket) then [cs[0].socket] else [])
      + Delivered(cs[1..], audience, isOpen, sendThrows)
  }

  /** The registry after a broadcast. */
  function AfterBroadcast(cs: seq<Client>, audience: Audience, isOpen: SocketId -> bool, sendThrows: SocketId -> bool): seq<Client> {
    if cs == [] then []
    else
      (if Targeted(cs[0], audience, isOpen) && sendThrows(cs[0].socket) then [] else [cs[0]])
      + AfterBroadcast(cs[1..], audience, isOpen, sendThrows)
  }

  /**
   * A broadcast reaches exactly the targeted clients whose send did not
   * throw, and drops exactly the targeted clients whose send threw: one
   * failure does not stop the others.
   */
  lemma BroadcastEffect(cs: seq<Client>, audience: Audience, isOpen: SocketId -> bool, sendThrows: SocketId -> bool)
    requires DistinctSockets(cs)
    ensures forall c | c in cs :: (c.socket in Delivered(cs, audience, isOpen, sendThrows)
                                   <==> Targeted(c, audience, isOpen) && !sendThrows(c.socket))
    ensures forall s | s in Delivered(cs, audience, isOpen, sendThrows) :: exists c | c in cs :: c.socket == s
    ensures forall c | c in cs :: (c in AfterBroadcast(cs, audience, isOpen, sendThrows)
                                   <==> !(Targeted(c, audience, isOpen) && sendThrows(c.socket)))
    ensures forall c | c in AfterBroadcast(cs, audience, isOpen, sendThrows) :: c in cs
  {
    DeliveredEffect(cs, audience, isOpen, sendThrows);
    KeptEffect(cs, audience, isOpen, sendThrows);
  }

  lemma DeliveredEffect(cs: seq<Client>, audience: Audience, isOpen: SocketId -> bool, sendThrows: SocketId -> bool)
    requires DistinctSockets(cs)
    ensures forall c | c in cs :: (c.socket in Delivered(cs, audience, isOpen, sendThrows)
                                   <==> Targeted(c, audience, isOpen) && !sendThrows(c.socket))
    ensures forall s | s in Delivered(cs, audience, isOpen, sendThrows) :: exists c | c in cs :: c.socket == s
  {
    DeliveredReaches(cs, audience, isOpen, sendThrows);
    DeliveredFrom(cs, audience, isOpen, sendThrows);
    forall c | c in cs && c.socket in Delivered(cs, audience, isOpen, sendThrows)
      ensures Targeted(c, audience, isOpen) && !sendThrows(c.socket)
    {
      var d :| d in cs && d.socket == c.socket && Targeted(d, audience, isOpen) && !sendThrows(d.socket);
      SameSocketSameClient(cs, c, d);
    }
  }

  lemma SameSocketSameClient(cs: seq<Client>, c: Client, d: Client)
    requires DistinctSockets(cs) && c in cs && d in cs && c.socket == d.socket
    ensures c == d
  {
    var i :| 0 <= i < |cs| && cs[i] == c;
    var j :| 0 <= j < |cs| && cs[j] == d;
    assert i == j;
  }

  /** Every targeted client whose send does not throw receives the message. */
  lemma {:induction false} DeliveredReaches(cs: seq<Client>, audience: Audience, isOpen: SocketId -> bool, sendThrows: SocketId -> bool)
    ensures forall c | c in cs && Targeted(c, audience, isOpen) && !sendThrows(c.socket) ::
              c.socket in Delivered(cs, audience, isOpen, sendThrows)
  {
    if cs != [] {
      DeliveredReaches(cs[1..], audience, isOpen, sendThrows);
      assert forall c | c in cs :: c == cs[0] || c in cs[1..];
    }
  }

  /** Every socket that receives the message belongs to a targeted client whose send did not throw. */
  lemma {:induction false} DeliveredFrom(cs: seq<Client>, audience: Audience, isOpen: SocketId -> bool, sendThrows: SocketId -> bool)
    ensures forall s | s in Delivered(cs, audience, isOpen, sendThrows) ::
              exists c | c in cs :: c.socket == s && Targeted(c, audience, isOpen) && !sendThrows(s)
  {
    if cs != [] {
      DeliveredFrom(cs[1..], audience, isOpen, sendThrows);
      assert forall c | c in cs[1..] :: c in cs;
    }
  }

  lemma {:induction false} KeptEffect(cs: seq<Client>, audience: Audience, isOpen: SocketId -> bool, sendThrows: SocketId -> bool)
    ensures forall c | c in cs :: (c in AfterBroadcast(cs, audience, isOpen, sendThrows)
                                   <==> !(Targeted(c, audience, isOpen) && sendThrows(c.socket)))
    ensures forall c | c in AfterBroadcast(cs, audience, isOpen, sendThrows) :: c in cs
  {
    if cs != [] {
      KeptEffect(cs[1..], audience, isOpen, sendThrows);
      assert forall c | c in cs :: c == cs[0] || c in cs[1..];
      assert forall c | c in cs[1..] :: c in cs;
    }
  }

  /** With the default filter, open sockets and no failing send, everyone receives the message and nobody is dropped. */
  lemma {:induction false} BroadcastToAll(cs: seq<Client>, isOpen: SocketId -> bool, sendThrows: SocketId -> bool)
    requires forall c | c in cs :: isOpen(c.socket) && !sendThrows(c.socket)
    ensures Delivered(cs, Everyone, isOpen, sendThrows) == Sockets(cs)
    ensures AfterBroadcast(cs, Everyone, isOpen, sendThrows) == cs
  {
    if cs != [] {
      assert forall c | c in cs[1..] :: c in cs;
      BroadcastToAll(cs[1..], isOpen, sendThrows);
    }
  }

  /** `wsClients.delete(client)` for the record of `socket`. */
  function Without(cs: seq<Client>, socket: SocketId): seq<Client> {
    if cs == [] then []
    else (if cs[0].socket == socket then [] else [cs[0]]) + Without(cs[1..], socket)
  }

  /** Deleting removes exactly the socket's record, and deleting again changes nothing. */
  lemma {:induction false} WithoutEffect(cs: seq<Client>, socket: SocketId)
    ensures forall c | c in cs :: (c in Without(cs, socket) <==> c.socket != socket)
    ensures forall c | c in Without(cs, socket) :: c in cs
  {
    if cs != [] {
      WithoutEffect(cs[1..], socket);
      assert forall c | c in cs :: c == cs[0] || c in cs[1..];
    }
  }

  /** Closing a socket twice leaves the registry as closing it once. */
  lemma {:induction false} WithoutTwice(cs: seq<Client>, socket: SocketId)
    ensures Without(Without(cs, socket), socket) == Without(cs, socket)
  {
    if cs != [] {
      WithoutTwice(cs[1..], socket);
      var rest := Without(cs[1..], socket);
      if cs[0].socket != socket {
        assert Without(cs, socket) == [cs[0]] + rest;
        assert ([cs[0]] + rest)[1..] == rest;
      } else {
        assert Without(cs, socket) == [] + rest == rest;
      }
    }
  }

  predicate DistinctSockets(cs: seq<Client>) {
    forall i, j | 0 <= i < j < |cs| :: cs[i].socket != cs[j].socket
  }

  // ---------------------------------------------------------------- the registry

  class Gateway {
    /** `wsClients`, in insertion order. */
    var clients: seq<Client>
    /** `ws.isAlive` of every admitted socket. */
    var alive: map<SocketId, bool>
    /** The heartbeat interval is set. */
    var beating: bool

    ghost predicate Valid()
      reads this
    {
      DistinctSockets(clients) && forall c | c in clients :: c.socket in alive
    }

    /** `createWsServer`: an empty registry with the heartbeat interval running. */
    constructor ()
      ensures Valid() && clients == [] && alive == map[] && beating
    {
      clients, alive, beating := [], map[], true;
    }

    /** The `connection` handler: register the socket, or close it with 4001 and leave the registry alone. */
    method Connect(socket: SocketId, url: string, decode: string -> Token, nowMs: nat) returns (r: Result<Client>)
      requires Valid() && socket !in alive
      modifies this
      ensures Valid() && beating == old(beating)
      ensures r == Admission(socket, url, decode, nowMs)
      ensures r.Ok? ==> clients == old(clients) + [r.value] && alive == old(alive)[socket := true]
      ensures r.Fail? ==> clients == old(clients) && alive == old(alive)
    {
      r := Admission(socket, url, decode, nowMs);
      if r.Ok? {
        clients := clients + [r.value];
        alive := alive[socket := true];
      }
    }

    /** The `close` and `error` handlers: drop the socket's record; a second call changes nothing. */
    method Disconnect(socket: SocketId)
      requires Valid()
      modifies this`clients
      ensures Valid()
      ensures clients == Without(old(clients), socket)
    {
      WithoutDistinct(clients, socket);
      clients := Without(clients, socket);
    }

    /** The `pong` handler. */
    method Pong(socket: SocketId)
      requires Valid() && socket in alive
      modifies this`alive
      ensures Valid() && alive == old(alive)[socket := true]
    {
      alive := alive[socket := true];
    }

    /**
     * One heartbeat tick: every socket that has not answered since the
     * previous tick is terminated and removed; every other one is marked
     * not alive and pinged.
     */
    method Tick() returns (terminated: seq<SocketId>, pinged: seq<SocketId>)
      requires Valid() && beating
      modifies this`clients, this`alive
      ensures Valid()
      ensures clients == Survivors(old(clients), old(alive))
      ensures alive == Unmark(old(alive), clients)
      ensures terminated == Sockets(Dead(old(clients), old(alive)))
      ensures pinged == Sockets(clients)
    {
      var cs, flags, i := clients, alive, 0;
      var kept, dead := [], [];
      while i < |cs|
        invariant 0 <= i <= |cs|
        invariant kept == Survivors(cs[..i], flags) && dead == Dead(cs[..i], flags)
      {
        assert cs[..i + 1] == cs[..i] + [cs[i]];
        SplitSurvivors(cs[..i], [cs[i]], flags);
        SplitDead(cs[..i], [cs[i]], flags);
        if IsAlive(flags, cs[i].socket) {
          kept := kept + [cs[i]];
        } else {
          dead := dead + [cs[i]];
        }
        i := i + 1;
      }
      assert cs[..i] == cs;
      SurvivorsDistinct(cs, flags);
      clients := kept;
      terminated := Sockets(dead);
      pinged := Sockets(kept);
      alive := Unmark(flags, kept);
    }

    /** `broadcast(payload, filter)`: the message goes to each targeted socket; a send that throws drops only that client. */
    method Broadcast(event: Event, audience: Audience, isOpen: SocketId -> bool, sendThrows: SocketId -> bool)
      returns (delivered: seq<SocketId>)
      requires Valid()
      modifies this`clients
      ensures Valid()
      ensures delivered == Delivered(old(clients), audience, isOpen, sendThrows)
      ensures clients == AfterBroadcast(old(clients), audience, isOpen, sendThrows)
    {
      var cs, i := clients, 0;
      var kept := [];
      delivered := [];
      while i < |cs|
        invariant 0 <= i <= |cs|
        invariant delivered == Delivered(cs[..i], audience, isOpen, sendThrows)
        invariant kept == AfterBroadcast(cs[..i], audience, isOpen, sendThrows)
      {
        assert cs[..i + 1] == cs[..i] + [cs[i]];
        SplitBroadcast(cs[..i], [cs[i]], audience, isOpen, sendThrows);
        if Targeted(cs[i], audience, isOpen) {
          if sendThrows(cs[i].socket) {
          } else {
            delivered := delivered + [cs[i].socket];
            kept := kept + [cs[i]];
          }
        } else {
          kept := kept + [cs[i]];
        }
        i := i + 1;
      }
      assert cs[..i] == cs;
      BroadcastDistinct(cs, audience, isOpen, sendThrows);
      clients := kept;
    }

    /** The server's `close` handler clears the heartbeat interval. */
    method Shutdown()
      modifies this`beating
      ensures !beating
    {
      beating := false;
    }
  }

  lemma {:induction false} SplitSurvivors(a: seq<Client>, b: seq<Client>, alive: map<SocketId, bool>)
    ensures Survivors(a + b, alive) == Survivors(a, alive) + Survivors(b, alive)
  {
    if a == [] {
      assert a + b == b;
    } else {
      assert (a + b)[0] == a[0] && (a + b)[1..] == a[1..] + b;
      SplitSurvivors(a[1..], b, alive);
    }
  }

  lemma {:induction false} SplitDead(a: seq<Client>, b: seq<Client>, alive: map<SocketId, bool>)
    ensures Dead(a + b, alive) == Dead(a, alive) + Dead(b, alive)
  {
    if a == [] {
      assert a + b == b;
    } else {
      assert (a + b)[0] == a[0] && (a + b)[1..] == a[1..] + b;
      SplitDead(a[1..], b, alive);
    }
  }

  lemma SplitBroadcast(a: seq<Client>, b: seq<Client>, audience: Audience,
                       isOpen: SocketId -> bool, sendThrows: SocketId -> bool)
    ensures Delivered(a + b, audience, isOpen, sendThrows)
         == Delivered(a, audience, isOpen, sendThrows) + Delivered(b, audience, isOpen, sendThrows)
    ensures AfterBroadcast(a + b, audience, isOpen, sendThrows)
         == AfterBroadcast(a, audience, isOpen, sendThrows) + AfterBroadcast(b, audience, isOpen, sendThrows)
  {
    SplitDelivered(a, b, audience, isOpen, sendThrows);
    SplitKept(a, b, audience, isOpen, sendThrows);
  }

  lemma {:induction false} SplitDelivered(a: seq<Client>, b: seq<Client>, audience: Audience,
                                          isOpen: SocketId -> bool, sendThrows: SocketId -> bool)
    ensures Delivered(a + b, audience, isOpen, sendThrows)
         == Delivered(a, audience, isOpen, sendThrows) + Delivered(b, audience, isOpen, sendThrows)
  {
    if a != [] {
      assert (a + b)[1..] == a[1..] + b;
      SplitDelivered(a[1..], b, audience, isOpen, sendThrows);
    } else {
      assert a + b == b;
    }
  }

  lemma {:induction false} SplitKept(a: seq<Client>, b: seq<Client>, audience: Audience,
                                     isOpen: SocketId -> bool, sendThrows: SocketId -> bool)
    ensures AfterBroadcast(a + b, audience, isOpen, sendThrows)
         == AfterBroadcast(a, audience, isOpen, sendThrows) + AfterBroadcast(b, audience, isOpen, sendThrows)
  {
    if a != [] {
      assert (a + b)[1..] == a[1..] + b;
      SplitKept(a[1..], b, audience, isOpen, sendThrows);
    } else {
      assert a + b == b;
    }
  }

  lemma {:induction false} WithoutDistinct(cs: seq<Client>, socket: SocketId)
    requires DistinctSockets(cs)
    ensures DistinctSockets(Without(cs, socket))
    ensures forall c | c in Without(cs, socket) :: c in cs
  {
    if cs != [] {
      WithoutDistinct(cs[1..], socket);
      forall c | c in Without(cs[1..], socket) ensures c.socket != cs[0].socket {
        var k :| 1 <= k < |cs| && cs[k] == c;
      }
    }
  }

  /** Dropping clients keeps the sockets distinct. */
  lemma {:induction false} SurvivorsDistinct(cs: seq<Client>, alive: map<SocketId, bool>)
    requires DistinctSockets(cs)
    ensures DistinctSockets(Survivors(cs, alive))
    ensures forall c | c in Survivors(cs, alive) :: c in cs
  {
    if cs != [] {
      SurvivorsDistinct(cs[1..], alive);
      var rest := Survivors(cs[1..], alive);
      forall c | c in rest ensures c.socket != cs[0].socket {
        var k :| 1 <= k < |cs| && cs[k] == c;
      }
    }
  }

  lemma {:induction false} BroadcastDistinct(cs: seq<Client>, audience: Audience, isOpen: SocketId -> bool, sendThrows: SocketId -> bool)
    requires DistinctSockets(cs)
    ensures DistinctSockets(AfterBroadcast(cs, audience, isOpen, sendThrows))
    ensures forall c | c in AfterBroadcast(cs, audience, isOpen, sendThrows) :: c in cs
  {
    if cs != [] {
      BroadcastDistinct(cs[1..], audience, isOpen, sendThrows);
      var rest := AfterBroadcast(cs[1..], audience, isOpen, sendThrows);
      forall c | c in rest ensures c.socket != cs[0].socket {
        var k :| 1 <= k < |cs| && cs[k] == c;
      }
    }
  }
}
