/** The session automaton of cloudflare/assets/view.html with the browser objects it drives. */
module BrowserSession {
  import opened Options

  datatype SocketState = Connecting | Opened | Closing | Closed

  /** `sockets` by the session number they were opened under, `pending` the timers not yet fired or cleared,
      `openPcs` the peer connections not closed; `armed` counts the timers set since the last connect. */
  datatype Page = Page(
    session: nat,
    ws: Option<nat>,
    pc: Option<nat>,
    reconnectTimer: Option<nat>,
    sockets: map<nat, SocketState>,
    pending: set<nat>,
    openPcs: set<nat>,
    made: nat, // timers and peer connections made so far
    armed: nat)

  const LOADED: Page := Page(0, None, None, None, map[], {}, {}, 0, 0)

  function CloseSocket(p: Page, n: nat): Page {
    if n in p.sockets && p.sockets[n] != Closed then p.(sockets := p.sockets[n := Closing]) else p
  }

  function ClearTimer(p: Page): Page {
    if p.reconnectTimer.Some? then p.(pending := p.pending - {p.reconnectTimer.value}) else p
  }

  function TeardownPc(p: Page): Page {
    if p.pc.Some? then p.(openPcs := p.openPcs - {p.pc.value}, pc := None) else p
  }

  function ScheduleReconnect(p: Page): Page {
    var q := ClearTimer(p);
    q.(reconnectTimer := Some(q.made), pending := q.pending + {q.made}, made := q.made + 1, armed := q.armed + 1)
  }

  function RestartSession(p: Page): Page {
    var q := TeardownPc(p);
    ScheduleReconnect(if q.ws.Some? then CloseSocket(q, q.ws.value).(ws := None) else q)
  }

  function Connect(p: Page): Page {
    var q := TeardownPc(ClearTimer(p));
    var r := if q.ws.Some? then CloseSocket(q, q.ws.value) else q;
    var my := r.session + 1;
    r.(session := my, ws := Some(my), sockets := r.sockets[my := Connecting], armed := 0)
  }

  /** The handler of a socket's `close` event. */
  function OnClose(p: Page, my: nat): Page {
    if my != p.session then p else ScheduleReconnect(TeardownPc(p.(ws := None)))
  }

  /** `ice_servers` makes the peer connection unless there is one. */
  function OnIceServers(p: Page, my: nat): Page {
    if my != p.session || p.pc.Some? then p
    else p.(pc := Some(p.made), openPcs := p.openPcs + {p.made}, made := p.made + 1)
  }

  datatype Event =
    | TimerFires(timer: nat)
    | SocketOpens(my: nat)
    | SocketClosing(my: nat) // the closing handshake has begun
    | SocketCloses(my: nat)
    | IceServersArrive(my: nat)
    | OtherMessage(my: nat)
    | PcFails(pc: nat)

  /** Timers fire once; a socket delivers messages only while open and closes once; a closed peer connection is
      silent. */
  predicate Fires(p: Page, e: Event) {
    match e
    case TimerFires(t) => t in p.pending
    case SocketOpens(my) => my in p.sockets && p.sockets[my] == Connecting
    case SocketClosing(my) => my in p.sockets && p.sockets[my] == Opened
    case SocketCloses(my) => my in p.sockets && p.sockets[my] != Closed
    case IceServersArrive(my) => my in p.sockets && p.sockets[my] == Opened
    case OtherMessage(my) => my in p.sockets && p.sockets[my] == Opened
    case PcFails(c) => c in p.openPcs
  }

  function Handle(p: Page, e: Event): Page
    requires Fires(p, e)
  {
    match e
    case TimerFires(t) => Connect(p.(pending := p.pending - {t}))
    case SocketOpens(my) => p.(sockets := p.sockets[my := Opened])
    case SocketClosing(my) => p.(sockets := p.sockets[my := Closing])
    case SocketCloses(my) => OnClose(p.(sockets := p.sockets[my := Closed]), my)
    case IceServersArrive(my) => OnIceServers(p, my)
    case OtherMessage(_) => p
    case PcFails(_) => if p.pc.None? then p else RestartSession(p)
  }

  predicate IsRun(p: Page, es: seq<Event>)
    decreases |es|
  {
    es == [] || (Fires(p, es[0]) && IsRun(Handle(p, es[0]), es[1..]))
  }

  function Play(p: Page, es: seq<Event>): Page
    requires IsRun(p, es)
    decreases |es|
  {
    if es == [] then p else Play(Handle(p, es[0]), es[1..])
  }

  // ---- the page's own variables ----

  class ViewPage {
    var session: nat
    var ws: Option<nat>
    var pc: Option<nat>
    var reconnectTimer: Option<nat>
    var sockets: map<nat, SocketState>
    var pending: set<nat>
    var openPcs: set<nat>
    var made: nat
    var armed: nat

    ghost function Value(): Page
      reads this
    {
      Page(session, ws, pc, reconnectTimer, sockets, pending, openPcs, made, armed)
    }

    constructor ()
      ensures Value() == Connect(LOADED)
    {
      session, ws, pc, reconnectTimer := 0, None, None, None;
      sockets, pending, openPcs, made, armed := map[], {}, {}, 0, 0;
      new;
      DoConnect();
    }

    method CloseIt(n: nat)
      modifies this`sockets
      ensures Value() == CloseSocket(old(Value()), n)
    {
      if n in sockets && sockets[n] != Closed { sockets := sockets[n := Closing]; }
    }

    method ClearReconnect()
      modifies this`pending
      ensures Value() == ClearTimer(old(Value()))
    {
      if reconnectTimer.Some? { pending := pending - {reconnectTimer.value}; }
    }

    method Teardown()
      modifies this`openPcs, this`pc
      ensures Value() == TeardownPc(old(Value()))
    {
      if pc.Some? {
        openPcs := openPcs - {pc.value};
        pc := None;
      }
    }

    method Schedule()
      modifies this
      ensures Value() == ScheduleReconnect(old(Value()))
    {
      ClearReconnect();
      reconnectTimer := Some(made);
      pending := pending + {made};
      made, armed := made + 1, armed + 1;
    }

    method Restart()
      modifies this
      ensures Value() == RestartSession(old(Value()))
    {
      Teardown();
      if ws.Some? {
        CloseIt(ws.value);
        ws := None;
      }
      Schedule();
    }

    method DoConnect()
      modifies this
      ensures Value() == Connect(old(Value()))
    {
      ClearReconnect();
      Teardown();
      if ws.Some? { CloseIt(ws.value); }
      session := session + 1;
      var my := session;
      ws := Some(my);
      sockets := sockets[my := Connecting];
      armed := 0;
    }

    method Dispatch(e: Event)
      requires Fires(Value(), e)
      modifies this
      ensures Value() == Handle(old(Value()), e)
    {
      match e
      case TimerFires(t) =>
        pending := pending - {t};
        DoConnect();
      case SocketOpens(my) => sockets := sockets[my := Opened];
      case SocketClosing(my) => sockets := sockets[my := Closing];
      case SocketCloses(my) =>
        sockets := sockets[my := Closed];
        if my == session {
          ws := None;
          Teardown();
          Schedule();
        }
      case IceServersArrive(my) =>
        if my == session && pc.None? {
          pc := Some(made);
          openPcs := openPcs + {made};
          made := made + 1;
        }
      case OtherMessage(_) =>
      case PcFails(_) =>
        if pc.Some? { Restart(); }
    }
  }

  // ---- the page never stalls ----

  predicate Up(s: SocketState) {
    s == Connecting || s == Opened
  }

  ghost predicate PageInv(p: Page) {
    && (p.ws.Some? ==> p.ws == Some(p.session) && p.pending == {} && p.armed == 0)
    && (p.ws.None? ==> p.reconnectTimer.Some? && p.pending == {p.reconnectTimer.value} && p.pc.None?)
    && p.session in p.sockets
    && (p.ws.Some? ==> p.sockets[p.session] != Closed)
    && (p.ws.None? ==> !Up(p.sockets[p.session]) && p.armed <= if p.sockets[p.session] == Closed then 2 else 1)
    && (forall n :: n in p.sockets ==> n <= p.session && (Up(p.sockets[n]) ==> p.ws == Some(n)))
    && p.openPcs == (if p.pc.Some? then {p.pc.value} else {})
    && (forall n :: n in p.pending || n in p.openPcs ==> n < p.made)
  }

  lemma HandleKeepsInv(p: Page, e: Event)
    requires PageInv(p) && Fires(p, e)
    ensures PageInv(Handle(p, e))
  {
  }

  lemma {:induction false} PlayKeepsInv(p: Page, es: seq<Event>)
    requires PageInv(p) && IsRun(p, es)
    ensures PageInv(Play(p, es))
    decreases |es|
  {
    if es != [] {
      HandleKeepsInv(p, es[0]);
      PlayKeepsInv(Handle(p, es[0]), es[1..]);
    }
  }

  /** After the first connect, in every run: either there is a socket and no timer, or no socket and one timer that was
      set at most twice; at most one socket is not closing and at most one peer connection is open, and they are
      the page's own. */
  lemma NeverStalls(es: seq<Event>)
    requires IsRun(Connect(LOADED), es)
    ensures var p := Play(Connect(LOADED), es);
            && (p.ws.None? <==> |p.pending| == 1) && (p.ws.Some? <==> p.pending == {})
            && (forall n :: n in p.sockets && Up(p.sockets[n]) ==> p.ws == Some(n) && n == p.session)
            && (forall c :: c in p.openPcs ==> p.pc == Some(c))
            && p.armed <= 2
  {
    PlayKeepsInv(Connect(LOADED), es);
  }

  // ---- the page as its events tell it ----

  /** The session's number, whether it has its socket, and whether it has its peer connection. */
  datatype Tale = Tale(session: nat, socket: bool, peer: bool)

  /** A timer begins the next session; the close of the present session's socket and the failure of the peer connection
      end it; `ice_servers` of the present session makes the peer connection. */
  function Told(t: Tale, e: Event): Tale {
    match e
    case TimerFires(_) => Tale(t.session + 1, true, false)
    case SocketCloses(my) => if my == t.session then Tale(my, false, false) else t
    case PcFails(_) => Tale(t.session, false, false)
    case IceServersArrive(my) => if my == t.session then Tale(my, t.socket, true) else t
    case _ => t
  }

  function ToldAll(t: Tale, es: seq<Event>): Tale
    decreases |es|
  {
    if es == [] then t else ToldAll(Told(t, es[0]), es[1..])
  }

  lemma {:induction false} PlayTells(p: Page, es: seq<Event>)
    requires PageInv(p) && IsRun(p, es)
    ensures var q := Play(p, es);
            Tale(q.session, q.ws.Some?, q.pc.Some?) == ToldAll(Tale(p.session, p.ws.Some?, p.pc.Some?), es)
    decreases |es|
  {
    if es != [] {
      HandleKeepsInv(p, es[0]);
      PlayTells(Handle(p, es[0]), es[1..]);
    }
  }

  /** In every run from the first connect: there is a peer connection exactly if `ice_servers` of the present session
      has come and neither the close of its socket, nor a failure of the connection, nor the next session since; and
      there is a socket exactly if there was no such close or failure since the session began. */
  lemma PageExactly(es: seq<Event>)
    requires IsRun(Connect(LOADED), es)
    ensures var p, t := Play(Connect(LOADED), es), ToldAll(Tale(1, true, false), es);
            && p.session == t.session
            && (p.pc.Some? <==> t.peer) && (p.ws.Some? <==> t.socket)
            && (p.ws.Some? ==> p.ws == Some(t.session)) && (p.pc.Some? ==> p.openPcs == {p.pc.value})
  {
    PlayKeepsInv(Connect(LOADED), es);
    PlayTells(Connect(LOADED), es);
  }

  predicate IsClosed(p: Page, n: nat) {
    n in p.sockets && p.sockets[n] == Closed
  }

  ghost predicate OnePerSession(p: Page) {
    forall m :: m in p.sockets <==> 1 <= m <= p.session
  }

  lemma HandleCloses(p: Page, e: Event, n: nat)
    requires PageInv(p) && Fires(p, e) && OnePerSession(p)
    ensures OnePerSession(Handle(p, e)) && (IsClosed(Handle(p, e), n) <==> IsClosed(p, n) || e == SocketCloses(n))
  {
  }

  lemma {:induction false} ClosedFrom(p: Page, es: seq<Event>, n: nat)
    requires PageInv(p) && IsRun(p, es) && OnePerSession(p)
    ensures var q := Play(p, es);
            OnePerSession(q) && (IsClosed(q, n) <==> IsClosed(p, n) || SocketCloses(n) in es)
    decreases |es|
  {
    if es != [] {
      HandleKeepsInv(p, es[0]);
      HandleCloses(p, es[0], n);
      ClosedFrom(Handle(p, es[0]), es[1..], n);
      assert es == [es[0]] + es[1..];
    }
  }

  /** Each session so far has opened one socket, and closed are exactly those whose close has come. */
  lemma ClosedExactly(es: seq<Event>, n: nat)
    requires IsRun(Connect(LOADED), es)
    ensures var p := Play(Connect(LOADED), es);
            && (n in p.sockets <==> 1 <= n <= p.session)
            && (n in p.sockets && p.sockets[n] == Closed <==> SocketCloses(n) in es)
  {
    ClosedFrom(Connect(LOADED), es, n);
  }

  /** An event of a socket of an older session. */
  predicate OfOldSocket(p: Page, e: Event) {
    !e.TimerFires? && !e.PcFails? && e.my != p.session
  }

  /** The run without the events of older sessions' sockets. */
  function WithoutOld(p: Page, es: seq<Event>): seq<Event>
    requires IsRun(p, es)
    decreases |es|
  {
    if es == [] then []
    else (if OfOldSocket(p, es[0]) then [] else [es[0]]) + WithoutOld(Handle(p, es[0]), es[1..])
  }

  /** The pages differ in the states of older sessions' sockets at most. */
  predicate SameButOld(p: Page, q: Page) {
    && q == p.(sockets := q.sockets)
    && p.session in p.sockets && p.session in q.sockets && p.sockets[p.session] == q.sockets[p.session]
  }

  lemma OldSocketsAreIgnored(p: Page, q: Page, e: Event)
    requires PageInv(p) && SameButOld(p, q) && Fires(p, e) && OfOldSocket(p, e)
    ensures SameButOld(Handle(p, e), q)
  {
  }

  lemma OthersActAlike(p: Page, q: Page, e: Event)
    requires PageInv(p) && SameButOld(p, q) && Fires(p, e) && !OfOldSocket(p, e)
    ensures Fires(q, e) && SameButOld(Handle(p, e), Handle(q, e))
  {
  }

  /** Whatever sockets of older sessions still do, and whenever: the page's session, socket, peer connection and
      timers are those of the run without it. */
  lemma {:induction false} OldSocketsNeverMatter(p: Page, q: Page, es: seq<Event>)
    requires PageInv(p) && SameButOld(p, q) && IsRun(p, es)
    ensures IsRun(q, WithoutOld(p, es)) && SameButOld(Play(p, es), Play(q, WithoutOld(p, es)))
    decreases |es|
  {
    if es != [] {
      var p', rest := Handle(p, es[0]), WithoutOld(Handle(p, es[0]), es[1..]);
      HandleKeepsInv(p, es[0]);
      if OfOldSocket(p, es[0]) {
        OldSocketsAreIgnored(p, q, es[0]);
        OldSocketsNeverMatter(p', q, es[1..]);
        assert [] + rest == rest;
      } else {
        OthersActAlike(p, q, es[0]);
        OldSocketsNeverMatter(p', Handle(q, es[0]), es[1..]);
        assert ([es[0]] + rest)[1..] == rest;
      }
    }
  }

  /** A pending reconnect always reaches a new socket: its timer can fire, and firing connects. */
  lemma ReconnectConnects(es: seq<Event>)
    requires IsRun(Connect(LOADED), es) && Play(Connect(LOADED), es).ws.None?
    ensures var p := Play(Connect(LOADED), es);
            && p.reconnectTimer.Some? && Fires(p, TimerFires(p.reconnectTimer.value))
            && var q := Handle(p, TimerFires(p.reconnectTimer.value));
               q.ws == Some(p.session + 1) && q.sockets[p.session + 1] == Connecting && q.pending == {}
  {
    PlayKeepsInv(Connect(LOADED), es);
  }
}
