/** What every interleaving of websocket events and peer-loop iterations keeps, and when the LAN fallback engages. */
module PeerTheorems {
  import opened PeerLoop

  // ---- the flags ----

  predicate FlagsAgree(f: Firmware) {
    f.lanUp == f.lanActive == f.server && (f.server ==> !f.stopping)
  }

  predicate SolidMeansConnected(f: Firmware) {
    f.shown == Solid <==> f.connected
  }

  lemma {:induction false} FlagsKept(f: Firmware, ss: seq<Step>)
    requires FlagsAgree(f) && SolidMeansConnected(f)
    ensures FlagsAgree(DoAll(f, ss)) && SolidMeansConnected(DoAll(f, ss))
    decreases |ss|
  {
    if ss != [] { FlagsKept(Do(f, ss[0]), ss[1..]); }
  }

  /** At every step boundary of every run: the three LAN flags agree, a running server is not told to stop, and the LED
      was last asked for SOLID exactly while the websocket counts as connected. */
  lemma FlagsAlwaysAgree(ss: seq<Step>)
    ensures var f := DoAll(BOOT, ss);
            && f.lanUp == f.lanActive == f.server && (f.server ==> !f.stopping)
            && (f.shown == Solid <==> f.connected)
  {
    FlagsKept(BOOT, ss);
  }

  // ---- what each step changes ----

  /** The iteration's clock stands at least `span` after the stamp, by 32-bit subtraction. */
  predicate HasElapsed(s: Step, since: Stamp, span: int)
    requires s.Turn?
  {
    (s.at % 0x1_0000_0000 - since) % 0x1_0000_0000 >= span
  }

  /** The iteration tries to start the LAN server. */
  predicate Tries(f: Firmware, s: Step) {
    s.Turn? && !f.connected && !f.server && HasElapsed(s, f.disconnectedAt, 60_000)
  }

  /** A step connects or loses the connection, also by a ping that fails on a dead client; an iteration takes the LAN
      server down when it begins connected, and tries to start it a minute into the window; taking it down tells its
      handlers to stop, and trying to start it takes that back. */
  lemma StepExactly(f: Firmware, s: Step)
    requires FlagsAgree(f)
    ensures var f' := Do(f, s);
            var pings := s.Turn? && f.connected && HasElapsed(s, f.lastPing, 30_000);
            var lost := f.connected && (s.Loses? || (pings && !s.sent && !s.alive));
            && (f'.connected <==> s.Connects? || (f.connected && !lost))
            && (f'.server <==> !(s.Turn? && f.connected) && (f.server || (Tries(f, s) && s.httpd && s.handler)))
            && (f'.stopping <==> (f.server && !f'.server) || (f.stopping && !Tries(f, s)))
            && f'.lastPing == (if pings then s.at % 0x1_0000_0000 else f.lastPing)
            && f'.disconnectedAt == (if lost || (Tries(f, s) && !f'.server) then s.at % 0x1_0000_0000
                                     else f.disconnectedAt)
  {
  }

  /** The server was taken down, and no start has been tried since. */
  function TakenDown(f: Firmware, ss: seq<Step>, before: bool): bool
    decreases |ss|
  {
    if ss == [] then before
    else
      var f' := Do(f, ss[0]);
      TakenDown(f', ss[1..], (f.server && !f'.server) || (before && !Tries(f, ss[0])))
  }

  lemma {:induction false} StoppingFrom(f: Firmware, ss: seq<Step>)
    requires FlagsAgree(f) && SolidMeansConnected(f)
    ensures DoAll(f, ss).stopping == TakenDown(f, ss, f.stopping)
    decreases |ss|
  {
    if ss != [] {
      StepExactly(f, ss[0]);
      FlagsKept(f, [ss[0]]);
      DoOne(f, ss[0]);
      StoppingFrom(Do(f, ss[0]), ss[1..]);
    }
  }

  lemma DoOne(f: Firmware, s: Step)
    ensures DoAll(f, [s]) == Do(f, s)
  {
    assert [s][1..] == [] && DoAll(Do(f, s), []) == Do(f, s);
  }

  /** In every run from boot the handlers of the LAN server, which its takedown waits for, are told to stop exactly from
      each takedown to the next try to start it. */
  lemma StoppingExactly(ss: seq<Step>)
    ensures DoAll(BOOT, ss).stopping == TakenDown(BOOT, ss, false)
  {
    StoppingFrom(BOOT, ss);
  }

  // ---- the LED pattern ----

  /** The loop finds the connection dead in the very iteration that takes the LAN server down: the LED is set while
      the LAN flag is still up, and not again when it goes down. */
  predicate BlindSpot(f: Firmware, s: Step) {
    s.Turn? && FindsDead(f, s) && f.lanUp
  }

  /** The pattern keeps naming the mode through every step except exactly that one. */
  lemma LedFollowsModeExactly(f: Firmware, s: Step)
    requires FlagsAgree(f) && f.shown == Mode(f)
    ensures Do(f, s).shown == Mode(Do(f, s)) <==> !BlindSpot(f, s)
  {
  }

  /** It happens: after a first minute offline the server is up, a reconnect, and a failing ping. */
  lemma BlindSpotHappens()
    ensures var ss := [Turn(60_000, true, true, true, true), Connects, Turn(60_010, false, false, true, true)];
            var f := DoAll(BOOT, ss);
            f.shown == SlowBlink && !f.lanActive && !f.server && Mode(f) == FastFlash
  {
    var s0, s1, s2 := Turn(60_000, true, true, true, true), Connects, Turn(60_010, false, false, true, true);
    var ss := [s0, s1, s2];
    var f1 := Do(BOOT, s0);
    var f2 := Do(f1, s1);
    assert f1 == Firmware(false, 0, true, 0, true, true, false, SlowBlink);
    assert ss[1..] == [s1, s2] && [s1, s2][1..] == [s2] && [s2][1..] == [];
    assert DoAll(f2, [s2]) == DoAll(Do(f2, s2), []);
    assert DoAll(f1, [s1, s2]) == DoAll(f2, [s2]);
    assert DoAll(BOOT, ss) == DoAll(f1, [s1, s2]);
  }

  // ---- the LAN fallback ----

  /** A storm: losses and loop iterations only, in time order from `last`, the iterations less than `gap` apart. */
  predicate Storm(ss: seq<Step>, last: nat, gap: nat)
    decreases |ss|
  {
    ss == [] ||
    (match ss[0]
     case Connects => false
     case Loses(at) => Storm(ss[1..], last, gap)
     case Turn(at, _, _, _, _) => last <= at <= last + gap && Storm(ss[1..], at, gap))
  }

  /** When the present window began: at the loss, or at the last failed start. */
  function Window(f: Firmware, ss: seq<Step>, since: nat): nat
    decreases |ss|
  {
    if ss == [] then since
    else
      var s := ss[0];
      var w := if s.Turn? && FallbackDue(f, s.at) && !(s.httpd && s.handler) then s.at else since;
      Window(Do(f, s), ss[1..], w)
  }

  function LastTurn(ss: seq<Step>, last: nat): nat
    decreases |ss|
  {
    if ss == [] then last else LastTurn(ss[1..], if ss[0].Turn? then ss[0].at else last)
  }

  predicate Waiting(f: Firmware, since: nat, last: nat) {
    && !f.connected && FlagsAgree(f)
    && (f.lanUp || (f.disconnectedAt == Cut(since) && since <= last < since + LAN_FALLBACK_MS))
  }

  lemma ElapsedIsReal(at: nat, since: nat)
    requires since <= at < since + WRAP
    ensures Elapsed(Cut(at), Cut(since)) == at - since
  {
    var d := at - since;
    assert (at % WRAP - since % WRAP - d) % WRAP == 0 by {
      assert at == at / WRAP * WRAP + at % WRAP && since == since / WRAP * WRAP + since % WRAP;
      assert at % WRAP - since % WRAP - d == (since / WRAP - at / WRAP) * WRAP;
      MultipleOfWrap(since / WRAP - at / WRAP);
    }
  }

  lemma MultipleOfWrap(k: int)
    ensures k * WRAP % WRAP == 0
  {
  }

  /** One iteration of a wait: the server is tried exactly from the end of the window on, however the clock has
      wrapped. */
  lemma TurnInWindow(f: Firmware, s: Step, since: nat, last: nat)
    requires Waiting(f, since, last) && s.Turn? && last <= s.at < since + WRAP
    ensures var f' := Do(f, s);
            && (FallbackDue(f, s.at) <==> !f.lanUp && s.at >= since + LAN_FALLBACK_MS)
            && (f'.server <==> f.server || (s.at >= since + LAN_FALLBACK_MS && s.httpd && s.handler))
            && Waiting(f', if FallbackDue(f, s.at) && !(s.httpd && s.handler) then s.at else since, s.at)
  {
    if !f.lanUp { ElapsedIsReal(s.at, since); }
  }

  lemma {:induction false} StormWaits(f: Firmware, ss: seq<Step>, since: nat, last: nat, gap: nat)
    requires Waiting(f, since, last) && Storm(ss, last, gap) && gap <= WRAP - LAN_FALLBACK_MS
    ensures Waiting(DoAll(f, ss), Window(f, ss, since), LastTurn(ss, last))
    decreases |ss|
  {
    if ss != [] {
      var s := ss[0];
      if s.Turn? {
        if f.lanUp {
          StormWaits(Do(f, s), ss[1..], since, s.at, gap);
        } else {
          TurnInWindow(f, s, since, last);
          var w := if FallbackDue(f, s.at) && !(s.httpd && s.handler) then s.at else since;
          StormWaits(Do(f, s), ss[1..], w, s.at, gap);
        }
      } else {
        StormWaits(Do(f, s), ss[1..], since, last, gap);
      }
    }
  }

  predicate StartsSucceed(ss: seq<Step>) {
    forall i :: 0 <= i < |ss| && ss[i].Turn? ==> ss[i].httpd && ss[i].handler
  }

  lemma {:induction false} WindowStays(f: Firmware, ss: seq<Step>, since: nat)
    requires StartsSucceed(ss)
    ensures Window(f, ss, since) == since
    decreases |ss|
  {
    if ss != [] {
      assert ss[0].Turn? ==> ss[0].httpd && ss[0].handler;
      assert forall i :: 0 <= i < |ss[1..]| ==> ss[1..][i] == ss[i + 1];
      WindowStays(Do(f, ss[0]), ss[1..], since);
    }
  }

  /** The step that loses the connection: a websocket event, or the iteration whose ping finds it dead. */
  predicate IsLoss(f: Firmware, s: Step) {
    f.connected && (s.Loses? || (s.Turn? && FindsDead(f, s)))
  }

  /** After any loss, whatever storm of further losses follows: the stamp is that of the loss until a start
      fails, a failed start opens another full window at its own time, and once an iteration has come 60 s into
      the window the server runs. */
  lemma FallbackEngages(f: Firmware, loss: Step, ss: seq<Step>, gap: nat)
    requires IsLoss(f, loss) && FlagsAgree(f) && Storm(ss, loss.at, gap) && gap <= WRAP - LAN_FALLBACK_MS
    ensures var f1 := Do(f, loss);
            var f' := DoAll(f1, ss);
            var w := Window(f1, ss, loss.at);
            && !f'.connected
            && (f'.server || (f'.disconnectedAt == Cut(w) && w <= LastTurn(ss, loss.at) < w + LAN_FALLBACK_MS))
            && (StartsSucceed(ss) && LastTurn(ss, loss.at) >= loss.at + LAN_FALLBACK_MS ==> f'.server)
  {
    var f1 := Do(f, loss);
    StormWaits(f1, ss, loss.at, loss.at, gap);
    if StartsSucceed(ss) { WindowStays(f1, ss, loss.at); }
  }
}
