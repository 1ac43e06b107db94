/** The LED as it is seen: the mode that the connection tasks request, through the queue of the pattern task. */
module LedMode {
  import L = LedTask
  import P = PeerLoop
  import PeerTheorems

  function ToLed(p: P.Pattern): L.Pattern {
    match p
    case Solid => L.Solid
    case SlowBlink => L.SlowBlink
    case FastFlash => L.FastFlash
  }

  /** A step of the connection tasks, an error flash by some task, or a turn of the pattern task. */
  datatype Act = Peer(s: P.Step) | Flashes(n: L.Count) | LedTurns

  /** The steps that call `led_update`. */
  predicate Updates(f: P.Firmware, s: P.Step) {
    match s
    case Connects => true
    case Loses(_) => true
    case Turn(at, _, _, httpd, handler) =>
      if f.connected then P.FindsDead(f, s) else P.FallbackDue(f, at) && P.LanStart(f, httpd, handler).1
  }

  function Request(p: P.Pattern): L.Command {
    L.Command(ToLed(p), 0)
  }

  function NextFirmware(f: P.Firmware, a: Act): P.Firmware {
    if a.Peer? then P.Do(f, a.s) else f
  }

  /** What an act does at the LED queue. */
  function AtQueue(f: P.Firmware, a: Act): seq<L.Step> {
    match a
    case Peer(s) => if Updates(f, s) then [L.Asks(Request(P.Do(f, s).shown))] else []
    case Flashes(n) => [L.Asks(L.Command(L.FastFlash, n))]
    case LedTurns => [L.Turns]
  }

  function AllAtQueue(f: P.Firmware, acts: seq<Act>): seq<L.Step>
    decreases |acts|
  {
    if acts == [] then [] else AtQueue(f, acts[0]) + AllAtQueue(NextFirmware(f, acts[0]), acts[1..])
  }

  function Reached(f: P.Firmware, acts: seq<Act>): P.Firmware
    decreases |acts|
  {
    if acts == [] then f else Reached(NextFirmware(f, acts[0]), acts[1..])
  }

  predicate RealFlashes(acts: seq<Act>) {
    forall i :: 0 <= i < |acts| && acts[i].Flashes? ==> acts[i].n > 0
  }

  /** The pattern requested changes only in a step that calls `led_update`. */
  lemma OthersRequestNothing(f: P.Firmware, s: P.Step)
    requires !Updates(f, s)
    ensures P.Do(f, s).shown == f.shown
  {
  }

  /** The LED is asked for a pattern by every connect and every loss, and by the iteration that finds the connection
      dead or has the LAN server up; no other step takes room in the queue. */
  lemma UpdatesExactly(f: P.Firmware, s: P.Step)
    requires PeerTheorems.FlagsAgree(f)
    ensures var f' := P.Do(f, s);
            Updates(f, s) <==> !s.Turn? || (f.connected && !f'.connected) || (!f.server && f'.server)
  {
  }

  lemma {:induction false} RequestedAppends(a: seq<L.Step>, b: seq<L.Step>)
    ensures L.Requested(a + b) == L.Requested(a) + L.Requested(b)
  {
    if a == [] {
      assert a + b == b;
    } else {
      assert (a + b)[1..] == a[1..] + b;
      RequestedAppends(a[1..], b);
    }
  }

  lemma {:induction false} LastAppends(p: L.Pattern, a: seq<L.Act>, b: seq<L.Act>)
    ensures L.LastPersistent(p, a + b) == L.LastPersistent(L.LastPersistent(p, a), b)
    decreases |a|
  {
    if a == [] {
      assert a + b == b;
    } else {
      assert (a + b)[1..] == a[1..] + b;
      LastAppends(if a[0].Got? && a[0].c.flashes == 0 then a[0].c.pattern else p, a[1..], b);
    }
  }

  lemma OneAtQueue(f: P.Firmware, a: Act)
    requires a.Flashes? ==> a.n > 0
    ensures L.LastPersistent(ToLed(f.shown), L.Requested(AtQueue(f, a))) == ToLed(NextFirmware(f, a).shown)
  {
    var ss := AtQueue(f, a);
    if ss == [] {
      OthersRequestNothing(f, a.s);
    } else {
      assert ss[1..] == [] && L.Requested(ss) == [L.Requested(ss)[0]] && L.Requested(ss)[1..] == [];
    }
  }

  /** The last persistent pattern requested is the one the connection tasks last asked for. */
  lemma {:induction false} LastRequestIsShown(f: P.Firmware, acts: seq<Act>)
    requires RealFlashes(acts)
    ensures L.LastPersistent(ToLed(f.shown), L.Requested(AllAtQueue(f, acts))) == ToLed(Reached(f, acts).shown)
    decreases |acts|
  {
    if acts != [] {
      var first, rest := AtQueue(f, acts[0]), AllAtQueue(NextFirmware(f, acts[0]), acts[1..]);
      OneAtQueue(f, acts[0]);
      RequestedAppends(first, rest);
      LastAppends(ToLed(f.shown), L.Requested(first), L.Requested(rest));
      LastRequestIsShown(NextFirmware(f, acts[0]), acts[1..]);
    }
  }

  /** The firmware's steps among the acts. */
  function PeerSteps(acts: seq<Act>): seq<P.Step> {
    if acts == [] then [] else (if acts[0].Peer? then [acts[0].s] else []) + PeerSteps(acts[1..])
  }

  lemma {:induction false} ReachedByPeerSteps(f: P.Firmware, acts: seq<Act>)
    ensures Reached(f, acts) == P.DoAll(f, PeerSteps(acts))
    decreases |acts|
  {
    if acts != [] {
      var rest := PeerSteps(acts[1..]);
      ReachedByPeerSteps(NextFirmware(f, acts[0]), acts[1..]);
      if acts[0].Peer? { assert ([acts[0].s] + rest)[1..] == rest; } else { assert [] + rest == rest; }
    }
  }

  /** The LED after boot: the pattern of "not connected" has been shown. */
  const BOOT_BOARD: L.Board := L.Board(L.Led(L.FastFlash, L.FastFlash, 0), [])

  function BoardAfter(acts: seq<Act>): L.Board {
    L.DoAll(BOOT_BOARD, AllAtQueue(P.BOOT, acts))
  }

  function FlashesDue(acts: seq<Act>): L.Count {
    L.FlashesLeft(0, L.Heard(0, AllAtQueue(P.BOOT, acts)))
  }

  /** What the pattern task shows on its next turn. */
  function Seen(acts: seq<Act>): L.Pattern {
    var b := BoardAfter(acts);
    L.Active(L.TakeAll(b.led, b.queue))
  }

  /** Over every interleaving of websocket events, peer-loop iterations, error flashes and turns of the pattern
      task: with no flash due the LED shows the last persistent pattern that found room in the queue, and that
      is SOLID exactly while connected on every run on which no request finds four waiting. */
  lemma LedTellsTheConnection(acts: seq<Act>)
    requires RealFlashes(acts)
    ensures var ss := AllAtQueue(P.BOOT, acts);
            && (FlashesDue(acts) == 0 ==> Seen(acts) == L.LastPersistent(L.FastFlash, L.Heard(0, ss)))
            && (FlashesDue(acts) == 0 && L.Roomy(0, ss) ==>
                  && Seen(acts) == ToLed(Reached(P.BOOT, acts).shown)
                  && (Seen(acts) == L.Solid <==> Reached(P.BOOT, acts).connected)
                  && (Seen(acts) == L.SlowBlink <==> Reached(P.BOOT, acts).shown == P.SlowBlink)
                  && (Seen(acts) == L.FastFlash <==> Reached(P.BOOT, acts).shown == P.FastFlash))
  {
    var ss := AllAtQueue(P.BOOT, acts);
    L.DrainedIsHeard(BOOT_BOARD, ss);
    L.ShowsLastPersistent(BOOT_BOARD.led, L.Heard(0, ss));
    L.HeardIsRequestedExactly(0, ss);
    LastRequestIsShown(P.BOOT, acts);
    ReachedByPeerSteps(P.BOOT, acts);
    PeerTheorems.FlagsAlwaysAgree(PeerSteps(acts));
  }

  lemma First(f: P.Firmware, a: Act, rest: seq<Act>)
    ensures AllAtQueue(f, [a] + rest) == AtQueue(f, a) + AllAtQueue(NextFirmware(f, a), rest)
    ensures Reached(f, [a] + rest) == Reached(NextFirmware(f, a), rest)
  {
    assert ([a] + rest)[1..] == rest;
  }

  /** With four failed attempts between two turns the request of the connect that follows is lost: the LED
      flashes on while the camera is connected. */
  lemma StormHidesTheConnect()
    ensures var lost := Peer(P.Loses(0));
            var acts := [lost] + ([lost] + ([lost] + ([lost] + ([Peer(P.Connects)] + []))));
            && RealFlashes(acts) && FlashesDue(acts) == 0
            && Reached(P.BOOT, acts).connected && Seen(acts) == L.FastFlash
  {
    var lost, on := Peer(P.Loses(0)), Peer(P.Connects);
    var boot := P.BOOT;
    assert NextFirmware(boot, lost) == boot;
    var r1 := [on] + [];
    var r2 := [lost] + r1;
    var r3 := [lost] + r2;
    var r4 := [lost] + r3;
    First(boot, on, []);
    First(boot, lost, r1);
    First(boot, lost, r2);
    First(boot, lost, r3);
    First(boot, lost, r4);
    var f := Request(P.FastFlash);
    var s1 := L.AsksFirst(4, Request(P.Solid), []);
    assert AllAtQueue(boot, r1) == s1;
    var s2 := L.AsksFirst(3, f, s1);
    var s3 := L.AsksFirst(2, f, s2);
    var s4 := L.AsksFirst(1, f, s3);
    var s5 := L.AsksFirst(0, f, s4);
    var g := L.Got(f);
    assert L.Heard(0, s5) == [g, g, g] + [g];
    L.LastOf(L.FastFlash, [g, g, g], g);
    LedTellsTheConnection([lost] + r4);
  }
}
