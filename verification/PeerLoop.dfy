/** The firmware's connection state: websocket events, the peer loop with its app-level ping, and the LAN
    fallback server. One peer-loop iteration and one websocket event are the atomic steps. */
module PeerLoop {
  const WRAP: int := 0x1_0000_0000 // uint32 milliseconds
  const APP_PING_INTERVAL_MS: int := 30_000
  const LAN_FALLBACK_MS: int := 60_000

  type Stamp = x: int | 0 <= x < WRAP

  /** The 64-bit timer cut to 32 bits. */
  function Cut(t: int): Stamp {
    t % WRAP
  }

  /** Unsigned 32-bit subtraction. */
  function Elapsed(now: Stamp, since: Stamp): Stamp {
    (now - since) % WRAP
  }

  datatype Pattern = Solid | SlowBlink | FastFlash

  /** `shown` is the last persistent LED pattern requested, `server` whether `s_server` is set. */
  datatype Firmware = Firmware(
    connected: bool,
    disconnectedAt: Stamp,
    lanActive: bool,
    lastPing: Stamp,
    lanUp: bool,
    server: bool,
    stopping: bool,
    shown: Pattern)

  const BOOT: Firmware := Firmware(false, 0, false, 0, false, false, false, FastFlash)

  /** `sent`: the ping was written. `alive`: the client library still calls itself connected.
      `httpd`, `handler`: the LAN server and its handler came up. */
  datatype Step =
    | Connects
    | Loses(at: nat) // DISCONNECTED, CLOSED or ERROR
    | Turn(at: nat, sent: bool, alive: bool, httpd: bool, handler: bool)

  function Mode(f: Firmware): Pattern {
    if f.connected then Solid else if f.lanActive then SlowBlink else FastFlash
  }

  function LedUpdate(f: Firmware): Firmware {
    f.(shown := Mode(f))
  }

  function MarkDisconnected(f: Firmware, at: nat): Firmware {
    LedUpdate(f.(connected := false, disconnectedAt := if f.connected then Cut(at) else f.disconnectedAt))
  }

  function LanStart(f: Firmware, httpd: bool, handler: bool): (Firmware, bool) {
    if f.server then (f, true)
    else (f.(stopping := false, server := httpd && handler), httpd && handler)
  }

  function LanStop(f: Firmware): Firmware {
    f.(stopping := true, server := false)
  }

  predicate PingDue(f: Firmware, at: nat) {
    f.connected && Elapsed(Cut(at), f.lastPing) >= APP_PING_INTERVAL_MS
  }

  predicate FallbackDue(f: Firmware, at: nat) {
    !f.connected && !f.lanUp && Elapsed(Cut(at), f.disconnectedAt) >= LAN_FALLBACK_MS
  }

  /** The ping could not be written and the library admits the connection is gone. */
  predicate FindsDead(f: Firmware, s: Step)
    requires s.Turn?
  {
    PingDue(f, s.at) && !s.sent && !s.alive
  }

  function Iterate(f: Firmware, s: Step): Firmware
    requires s.Turn?
  {
    if f.connected then
      var pinged := if PingDue(f, s.at) then f.(lastPing := Cut(s.at)) else f;
      var checked :=
        if FindsDead(f, s) then LedUpdate(pinged.(connected := false, disconnectedAt := Cut(s.at))) else pinged;
      if checked.lanUp then LanStop(checked).(lanUp := false, lanActive := false) else checked
    else if FallbackDue(f, s.at) then
      var (started, ok) := LanStart(f, s.httpd, s.handler);
      if ok then LedUpdate(started.(lanUp := true, lanActive := true))
      else started.(disconnectedAt := Cut(s.at))
    else f
  }

  function Do(f: Firmware, s: Step): Firmware {
    match s
    case Connects => LedUpdate(f.(connected := true))
    case Loses(at) => MarkDisconnected(f, at)
    case Turn(_, _, _, _, _) => Iterate(f, s)
  }

  function DoAll(f: Firmware, ss: seq<Step>): Firmware
    decreases |ss|
  {
    if ss == [] then f else DoAll(Do(f, ss[0]), ss[1..])
  }

  /** The flags that three tasks share, as the fields they are. */
  class PeerTask {
    var connected: bool
    var disconnectedAt: Stamp
    var lanActive: bool
    var lastPing: Stamp
    var lanUp: bool
    var server: bool
    var stopping: bool
    var shown: Pattern
    var pings: seq<Stamp> // when each ping was handed to the websocket client

    ghost function Value(): Firmware
      reads this
    {
      Firmware(connected, disconnectedAt, lanActive, lastPing, lanUp, server, stopping, shown)
    }

    constructor ()
      ensures Value() == BOOT && pings == []
    {
      connected, disconnectedAt, lanActive, lastPing := false, 0, false, 0;
      lanUp, server, stopping, shown, pings := false, false, false, FastFlash, [];
    }

    method UpdateLed()
      modifies this`shown
      ensures Value() == LedUpdate(old(Value()))
    {
      if connected {
        shown := Solid;
      } else if lanActive {
        shown := SlowBlink;
      } else {
        shown := FastFlash;
      }
    }

    method MarkWsDisconnected(at: nat)
      modifies this
      ensures Value() == MarkDisconnected(old(Value()), at) && pings == old(pings)
    {
      if connected { disconnectedAt := Cut(at); }
      connected := false;
      UpdateLed();
    }

    method WebsocketEvent(e: Step)
      requires !e.Turn?
      modifies this
      ensures Value() == Do(old(Value()), e) && pings == old(pings)
    {
      match e
      case Connects =>
        connected := true;
        UpdateLed();
      case Loses(at) => MarkWsDisconnected(at);
    }

    method LanStreamStart(httpd: bool, handler: bool) returns (ok: bool)
      modifies this`stopping, this`server
      ensures (Value(), ok) == LanStart(old(Value()), httpd, handler)
    {
      if server {
        return true;
      }
      stopping := false;
      if !httpd || !handler {
        return false;
      }
      server := true;
      ok := true;
    }

    method LanStreamStop()
      modifies this`stopping, this`server
      ensures Value() == LanStop(old(Value()))
    {
      stopping := true;
      if server { server := false; }
    }

    /** The ping of an iteration that finds the websocket connected. */
    method PingIfDue(now: Stamp, sent: bool, alive: bool)
      requires connected
      modifies this`lastPing, this`pings, this`connected, this`disconnectedAt, this`shown
      ensures var due := (now - old(lastPing)) % WRAP >= APP_PING_INTERVAL_MS;
              var dead := due && !sent && !alive;
              && pings == old(pings) + (if due then [now] else [])
              && lastPing == (if due then now else old(lastPing))
              && connected == !dead
              && disconnectedAt == (if dead then now else old(disconnectedAt))
              && shown == if dead then Mode(Value()) else old(shown)
    {
      if (now - lastPing) % WRAP >= APP_PING_INTERVAL_MS {
        lastPing := now;
        pings := pings + [now];
        if !sent && !alive {
          connected := false;
          disconnectedAt := now;
          UpdateLed();
        }
      }
    }

    method PeerIteration(s: Step)
      requires s.Turn?
      modifies this
      ensures Value() == Iterate(old(Value()), s)
      ensures pings == old(pings) + if old(PingDue(Value(), s.at)) then [Cut(s.at)] else []
    {
      var now := Cut(s.at);
      if connected {
        PingIfDue(now, s.sent, s.alive);
        if lanUp {
          LanStreamStop();
          lanUp, lanActive := false, false;
        }
      } else if !lanUp && (now - disconnectedAt) % WRAP >= LAN_FALLBACK_MS {
        var ok := LanStreamStart(s.httpd, s.handler);
        if ok {
          lanUp, lanActive := true, true;
          UpdateLed();
        } else {
          disconnectedAt := now;
        }
      }
    }
  }
}
