/** Parity as the sockets see it: what each is told over a whole run, whenever. A step that tells a socket
    something more or less is never made up for later. */
module SocketParity {
  import opened HubModel
  import opened HubSafety
  import opened HubParity

  ghost function HubLog(h: Hub, es: seq<Event>): seq<Output>
    requires IsHubRun(h, es)
    decreases |es|
  {
    if es == [] then [] else Told(Step(h, es[0]).1) + HubLog(Step(h, es[0]).0, es[1..])
  }

  function GoLog(g: Go, es: seq<Event>): seq<Output>
    decreases |es|
  {
    if es == [] then [] else GoStep(g, es[0]).1 + GoLog(GoStep(g, es[0]).0, es[1..])
  }

  function Target(o: Output): SocketId {
    match o
    case Send(s, _) => s
    case Close(s, _, _) => s
  }

  /** What a socket is told, in order. */
  function To(s: SocketId, log: seq<Output>): seq<Output> {
    if log == [] then [] else (if Target(log[0]) == s then [log[0]] else []) + To(s, log[1..])
  }

  // ---- what is never made up for ----

  datatype Kind = Relayed | Gone | Superseding

  predicate IsA(o: Output, k: Kind) {
    match k
    case Relayed => o.Send? && (o.msg.Offer? || o.msg.Candidate?)
    case Gone => o.Send? && o.msg.ViewerGone?
    case Superseding => o.Close? && o.why == "superseded"
  }

  function One(o: Output, k: Kind, s: SocketId): nat {
    if Target(o) == s && IsA(o, k) then 1 else 0
  }

  /** How many of a kind a socket is told. */
  function Got(log: seq<Output>, k: Kind, s: SocketId): nat {
    if log == [] then 0 else One(log[0], k, s) + Got(log[1..], k, s)
  }

  lemma {:induction false} GotAppends(a: seq<Output>, b: seq<Output>, k: Kind, s: SocketId)
    ensures Got(a + b, k, s) == Got(a, k, s) + Got(b, k, s)
    decreases |a|
  {
    if a == [] {
      assert a + b == b;
    } else {
      assert (a + b)[1..] == a[1..] + b;
      GotAppends(a[1..], b, k, s);
    }
  }

  lemma {:induction false} GotIsTold(log: seq<Output>, k: Kind, s: SocketId)
    ensures Got(log, k, s) == Got(To(s, log), k, s)
  {
    if log != [] {
      var rest := To(s, log[1..]);
      GotIsTold(log[1..], k, s);
      if Target(log[0]) == s {
        assert To(s, log) == [log[0]] + rest && ([log[0]] + rest)[1..] == rest;
      } else {
        assert To(s, log) == rest;
      }
    }
  }

  lemma GotOfOne(o: Output, k: Kind, s: SocketId)
    ensures Got([o], k, s) == One(o, k, s)
  {
    assert [o][1..] == [];
  }

  /** The hub tells the socket more offers, candidates and superseding closes, or the Go hub more `viewer_gone`. */
  predicate Leads(a: seq<Output>, b: seq<Output>, k: Kind, s: SocketId) {
    if k == Gone then Got(a, k, s) < Got(b, k, s) else Got(b, k, s) < Got(a, k, s)
  }

  predicate NotBehind(a: seq<Output>, b: seq<Output>, k: Kind, s: SocketId) {
    if k == Gone then Got(a, k, s) <= Got(b, k, s) else Got(b, k, s) <= Got(a, k, s)
  }

  /** A viewer without the claim is relayed by the hub only. */
  lemma RelayTooMany(h: Hub, g: Go, s: SocketId, m: Incoming, now: Time)
    requires Alike(h, g) && s in h.sockets && !Aligned(h, g, Receives(s, m, now))
    ensures Device(h).Some? && GoReceive(g, s, m).1 == []
    ensures var outs := Receive(h, s, m, now).1;
            |outs| == 1 && Target(outs[0]) == Device(h).value && IsA(outs[0], Relayed)
  {
  }

  /** The close of an evicted viewer is passed on by the Go hub only. */
  lemma GoneTooMany(h: Hub, g: Go, s: SocketId, now: Time)
    requires Alike(h, g) && s in h.sockets && !Aligned(h, g, Closes(s, now))
    ensures Device(h).Some? && Drop(h, s, now).1 == []
    ensures GoStep(g, Closes(s, now)).1 == [Send(Device(h).value, ViewerGone)]
  {
    AfterDrop(h, s, now);
  }

  lemma OneTooMany(o: Output, k: Kind)
    requires IsA(o, k)
    ensures k != Gone ==> Leads([o], [], k, Target(o)) && forall j, t :: NotBehind([o], [], j, t)
    ensures k == Gone ==> Leads([], [o], k, Target(o)) && forall j, t :: NotBehind([], [o], j, t)
  {
    forall j, t ensures Got([o], j, t) == One(o, j, t) { GotOfOne(o, j, t); }
  }

  /** A step out of line tells the device one message too many, on one side or the other. */
  lemma OutOfLine(h: Hub, g: Go, e: Event) returns (k: Kind, s: SocketId)
    requires Alike(h, g) && Enabled(h, e) && !Aligned(h, g, e) && !Overlaps(h, e)
    ensures Leads(Told(Step(h, e).1), GoStep(g, e).1, k, s)
    ensures forall j, t :: NotBehind(Told(Step(h, e).1), GoStep(g, e).1, j, t)
  {
    var outs, gouts := Step(h, e).1, GoStep(g, e).1;
    if e.Receives? {
      RelayTooMany(h, g, e.sock, e.message, e.now);
      assert outs == [outs[0]];
      ToldAll(outs);
      OneTooMany(outs[0], Relayed);
      k, s := Relayed, Target(outs[0]);
    } else {
      GoneTooMany(h, g, e.sock, e.now);
      ToldAll(outs);
      OneTooMany(gouts[0], Gone);
      k, s := Gone, Target(gouts[0]);
    }
  }

  lemma GoStepSupersedesNobody(g: Go, e: Event, s: SocketId)
    ensures Got(GoStep(g, e).1, Superseding, s) == 0
  {
    NoneGot(GoStep(g, e).1, Superseding, s);
  }

  lemma {:induction false} NoneGot(log: seq<Output>, k: Kind, s: SocketId)
    requires forall o :: o in log ==> !IsA(o, k)
    ensures Got(log, k, s) == 0
  {
    if log != [] { NoneGot(log[1..], k, s); }
  }

  lemma {:induction false} GoSupersedesNobody(g: Go, es: seq<Event>, s: SocketId)
    ensures Got(GoLog(g, es), Superseding, s) == 0
    decreases |es|
  {
    if es != [] {
      var rest := GoLog(GoStep(g, es[0]).0, es[1..]);
      GoStepSupersedesNobody(g, es[0], s);
      GoSupersedesNobody(GoStep(g, es[0]).0, es[1..], s);
      GotAppends(GoStep(g, es[0]).1, rest, Superseding, s);
    }
  }

  lemma OverlapSupersedes(h: Hub, e: Event)
    requires Overlaps(h, e) && Enabled(h, e)
    ensures Got(Told(Step(h, e).1), Superseding, Device(h).value) > 0
  {
    ToldAll(Step(h, e).1);
    assert Step(h, e).1[0] == Close(Device(h).value, NORMAL_CLOSURE, "superseded");
  }

  lemma LeadIsKept(a: seq<Output>, b: seq<Output>, c: seq<Output>, d: seq<Output>, k: Kind, s: SocketId)
    requires NotBehind(a, b, k, s) && NotBehind(c, d, k, s) && (Leads(a, b, k, s) || Leads(c, d, k, s))
    ensures Leads(a + c, b + d, k, s)
  {
    GotAppends(a, c, k, s);
    GotAppends(b, d, k, s);
  }

  /** From like states, a run whose steps are not all aligned tells some socket one kind of message more often on one
      side; and on a run without overlapping devices no socket is ever behind in it. */
  lemma {:induction false} SomeSocketDiffers(h: Hub, g: Go, es: seq<Event>) returns (k: Kind, s: SocketId)
    requires Alike(h, g) && IsHubRun(h, es) && !AllAligned(h, g, es)
    ensures Leads(HubLog(h, es), GoLog(g, es), k, s)
    decreases |es|
  {
    var e := es[0];
    var h', g', outs, gouts := Step(h, e).0, GoStep(g, e).0, Told(Step(h, e).1), GoStep(g, e).1;
    if Overlaps(h, e) {
      k, s := Superseding, Device(h).value;
      OverlapSupersedes(h, e);
      GotAppends(outs, HubLog(h', es[1..]), k, s);
      GoSupersedesNobody(g, es, s);
    } else {
      StepParity(h, g, e);
      var rest, grest := HubLog(h', es[1..]), GoLog(g', es[1..]);
      if AllAligned(h', g', es[1..]) {
        AlignedLogs(h', g', es[1..]);
        k, s := OutOfLine(h, g, e);
      } else {
        k, s := SomeSocketDiffers(h', g', es[1..]);
        if !Aligned(h, g, e) { var j, t := OutOfLine(h, g, e); }
      }
      LeadIsKept(outs, gouts, rest, grest, k, s);
    }
  }

  lemma {:induction false} AlignedLogs(h: Hub, g: Go, es: seq<Event>)
    requires Alike(h, g) && IsHubRun(h, es) && AllAligned(h, g, es)
    ensures HubLog(h, es) == GoLog(g, es)
    decreases |es|
  {
    if es != [] {
      StepParity(h, g, es[0]);
      AlignedLogs(Step(h, es[0]).0, GoStep(g, es[0]).0, es[1..]);
    }
  }

  /** Every socket is told the same by both hubs over a whole run exactly if no device sockets overlap in it
      and, while there is a device, viewers without the claim stay silent and no close of an evicted viewer
      comes in. */
  lemma SocketParityExactly(es: seq<Event>)
    requires IsHubRun(EMPTY, es)
    ensures (forall s :: To(s, HubLog(EMPTY, es)) == To(s, GoLog(GO_EMPTY, es))) <==> AllTidy(EMPTY, {}, es)
  {
    TidyRunsAreAligned(EMPTY, GO_EMPTY, es);
    if AllTidy(EMPTY, {}, es) {
      AlignedLogs(EMPTY, GO_EMPTY, es);
    } else {
      var k, s := SomeSocketDiffers(EMPTY, GO_EMPTY, es);
      GotIsTold(HubLog(EMPTY, es), k, s);
      GotIsTold(GoLog(GO_EMPTY, es), k, s);
      assert To(s, HubLog(EMPTY, es)) != To(s, GoLog(GO_EMPTY, es));
    }
  }
}
