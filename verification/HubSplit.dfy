/** The hub with `onViewerConnect` split at its mint: other handlers may run between the claim
    and the arrival of the credentials. */
module HubSplit {
  import opened Options
  import opened IceTypes
  import opened HubModel
  import opened HubSafety
  import opened HubRuns

  /** `minting` are the viewer connects waiting for credentials, `told` what each viewer has been sent. */
  datatype Split = Split(hub: Hub, minting: set<SocketId>, told: map<SocketId, IceServers>)

  const SPLIT_START: Split := Split(EMPTY, {}, map[])

  datatype Part =
    | Whole(e: Event)
    | ViewerClaims(sock: SocketId, sid: Sid, now: Time)
    | MintReturns(viewer: SocketId, minted: IceServers)

  ghost predicate PartEnabled(x: Split, p: Part) {
    match p
    case Whole(e) =>
      && !e.ViewerConnects? && Enabled(x.hub, e)
      && (e.DeviceConnects? ==> e.sock !in x.minting && e.sock !in x.told)
    case ViewerClaims(s, sid, now) =>
      && Enabled(x.hub, ViewerConnects(s, sid, IceServers([], None), now))
      && s !in x.minting && s !in x.told
    case MintReturns(v, _) => v in x.minting
  }

  ghost function PartStep(x: Split, p: Part): Split
    requires PartEnabled(x, p)
  {
    match p
    case Whole(e) => x.(hub := Step(x.hub, e).0)
    case ViewerClaims(s, sid, now) =>
      Split(Claim(x.hub, s, sid, now).0, if Admits(x.hub) then x.minting + {s} else x.minting, x.told)
    case MintReturns(v, minted) => Split(Minted(x.hub, v, minted).0, x.minting - {v}, x.told[v := minted])
  }

  ghost predicate IsSplitRun(x: Split, ps: seq<Part>)
    decreases |ps|
  {
    ps == [] || (PartEnabled(x, ps[0]) && IsSplitRun(PartStep(x, ps[0]), ps[1..]))
  }

  ghost function PlaySplit(x: Split, ps: seq<Part>): Split
    requires IsSplitRun(x, ps)
    decreases |ps|
  {
    if ps == [] then x else PlaySplit(PartStep(x, ps[0]), ps[1..])
  }

  lemma PartKeepsSlots(x: Split, p: Part)
    requires SlotInv(x.hub) && PartEnabled(x, p)
    ensures SlotInv(PartStep(x, p).hub)
  {
    match p
    case Whole(e) => StepKeepsSlots(x.hub, e);
    case ViewerClaims(s, sid, now) => AfterClaim(x.hub, s, sid, now);
    case MintReturns(_, _) =>
  }

  /** The slots are as safe as with exclusive handlers, wherever the mints return. */
  lemma {:induction false} SplitSlotsAlways(x: Split, ps: seq<Part>)
    requires SlotInv(x.hub) && IsSplitRun(x, ps)
    ensures SlotInv(PlaySplit(x, ps).hub)
    decreases |ps|
  {
    if ps != [] {
      PartKeepsSlots(x, ps[0]);
      SplitSlotsAlways(PartStep(x, ps[0]), ps[1..]);
    }
  }

  /** The unsplit handler is the claim with its mint returning at once. */
  lemma UnsplitIsClaimThenMint(x: Split, s: SocketId, sid: Sid, minted: IceServers, now: Time)
    requires PartEnabled(x, ViewerClaims(s, sid, now)) && Admits(x.hub)
    ensures var claimed := PartStep(x, ViewerClaims(s, sid, now));
            && PartEnabled(claimed, MintReturns(s, minted))
            && PartStep(claimed, MintReturns(s, minted)).hub ==
                 Step(x.hub, ViewerConnects(s, sid, minted, now)).0
  {
  }

  /** Offers of a holder that has its servers carry those servers. */
  ghost predicate CacheTrue(x: Split) {
    var v := Holder(x.hub);
    v.Some? && v.value in x.told ==> x.hub.ice == Some(x.told[v.value])
  }

  /** A mint of a session that is over returns with other servers than the present holder was sent. */
  ghost predicate LateMint(x: Split, p: Part) {
    var v := Holder(x.hub);
    p.MintReturns? && v.Some? && v.value != p.viewer && v.value in x.told && x.told[v.value] != p.minted
  }

  /** Only a late mint makes the cached servers differ from those the holder was sent, and it always does. */
  lemma CacheBreaksExactlyByLateMints(x: Split, p: Part)
    requires SlotInv(x.hub) && PartEnabled(x, p) && CacheTrue(x)
    ensures CacheTrue(PartStep(x, p)) <==> !LateMint(x, p)
  {
    var h := x.hub;
    match p
    case Whole(DeviceConnects(s, id, now)) => AfterDeviceConnect(h, s, id, now);
    case Whole(Receives(_, _, _)) =>
    case Whole(Closes(s, now)) => AfterDrop(h, s, now);
    case Whole(AlarmFires(_)) =>
    case ViewerClaims(s, sid, now) => AfterClaim(h, s, sid, now);
    case MintReturns(_, _) =>
  }

  ghost predicate NoLateMints(x: Split, ps: seq<Part>)
    requires IsSplitRun(x, ps)
    decreases |ps|
  {
    ps == [] || (!LateMint(x, ps[0]) && NoLateMints(PartStep(x, ps[0]), ps[1..]))
  }

  /** The cache is the holder's after every step. */
  ghost predicate AlwaysCacheTrue(x: Split, ps: seq<Part>)
    requires IsSplitRun(x, ps)
    decreases |ps|
  {
    CacheTrue(x) && (ps == [] || AlwaysCacheTrue(PartStep(x, ps[0]), ps[1..]))
  }

  /** Throughout a run the holder's offers carry the servers it was sent, exactly if no mint of the run is late. */
  lemma {:induction false} CacheTrueExactly(x: Split, ps: seq<Part>)
    requires SlotInv(x.hub) && CacheTrue(x) && IsSplitRun(x, ps)
    ensures AlwaysCacheTrue(x, ps) <==> NoLateMints(x, ps)
    ensures AlwaysCacheTrue(x, ps) ==> CacheTrue(PlaySplit(x, ps))
    decreases |ps|
  {
    if ps != [] {
      var y := PartStep(x, ps[0]);
      PartKeepsSlots(x, ps[0]);
      CacheBreaksExactlyByLateMints(x, ps[0]);
      if CacheTrue(y) { CacheTrueExactly(y, ps[1..]); }
    }
  }

  lemma Prepend(x: Split, p: Part, ps: seq<Part>)
    requires PartEnabled(x, p) && IsSplitRun(PartStep(x, p), ps)
    ensures IsSplitRun(x, [p] + ps) && PlaySplit(x, [p] + ps) == PlaySplit(PartStep(x, p), ps)
  {
    assert ([p] + ps)[1..] == ps;
  }

  /** The two mints return, the holder's own first. */
  lemma TwoMints(x: Split, v: SocketId, gone: SocketId, a: IceServers, b: IceServers) returns (ps: seq<Part>)
    requires x.minting == {v, gone} && v != gone && Holder(x.hub) == Some(v)
    ensures IsSplitRun(x, ps)
    ensures var y := PlaySplit(x, ps); Holder(y.hub) == Some(v) && v in y.told && y.told[v] == b && y.hub.ice == Some(a)
  {
    var y := PartStep(x, MintReturns(v, b));
    Prepend(y, MintReturns(gone, a), []);
    Prepend(x, MintReturns(v, b), [MintReturns(gone, a)] + []);
    ps := [MintReturns(v, b)] + ([MintReturns(gone, a)] + []);
  }

  /** A viewer claims, leaves while its credentials are minted, and the next viewer claims. */
  lemma Abandoned(x: Split, a: SocketId, b: SocketId, now: Time) returns (ps: seq<Part>)
    requires SlotInv(x.hub) && Admits(x.hub) && x.minting == {} && x.told == map[] && a != b
    requires forall i :: i in x.hub.sockets ==> i != a && i != b && x.hub.sockets[i].sid.None?
    ensures IsSplitRun(x, ps)
    ensures var y := PlaySplit(x, ps); y.minting == {a, b} && Holder(y.hub) == Some(b)
  {
    var p1, p2, p3 := ViewerClaims(a, a, now), Whole(Closes(a, now)), ViewerClaims(b, b, now);
    AfterClaim(x.hub, a, a, now);
    var x1 := PartStep(x, p1);
    AfterDrop(x1.hub, a, now);
    var x2 := PartStep(x1, p2);
    assert x2.hub.sockets == x.hub.sockets;
    AfterClaim(x2.hub, b, b, now);
    var x3 := PartStep(x2, p3);
    Prepend(x2, p3, []);
    Prepend(x1, p2, [p3] + []);
    Prepend(x, p1, [p2] + ([p3] + []));
    ps := [p1] + ([p2] + ([p3] + []));
  }

  lemma {:induction false} Chain(x: Split, ps: seq<Part>, qs: seq<Part>)
    requires IsSplitRun(x, ps) && IsSplitRun(PlaySplit(x, ps), qs)
    ensures IsSplitRun(x, ps + qs) && PlaySplit(x, ps + qs) == PlaySplit(PlaySplit(x, ps), qs)
    decreases |ps|
  {
    if ps == [] {
      assert ps + qs == qs;
    } else {
      assert (ps + qs)[1..] == ps[1..] + qs;
      Chain(PartStep(x, ps[0]), ps[1..], qs);
    }
  }

  /** Late mints happen: there is a run after which the holder was sent `b` and its offers carry `a`. */
  lemma LateMintHappens(a: IceServers, b: IceServers)
    ensures exists ps :: IsSplitRun(SPLIT_START, ps) &&
              var x := PlaySplit(SPLIT_START, ps);
              var v := Holder(x.hub);
              v.Some? && v.value in x.told && x.told[v.value] == b && x.hub.ice == Some(a)
  {
    var p0 := Whole(DeviceConnects(0, "cam", 0));
    var x0 := PartStep(SPLIT_START, p0);
    AfterDeviceConnect(EMPTY, 0, "cam", 0);
    var claims := Abandoned(x0, 1, 2, 1);
    var mints := TwoMints(PlaySplit(x0, claims), 2, 1, a, b);
    Chain(x0, claims, mints);
    Prepend(SPLIT_START, p0, claims + mints);
    assert IsSplitRun(SPLIT_START, [p0] + (claims + mints));
  }

  // ---- exclusive handlers are a special case ----

  /** An exclusive step as parts: an admitted viewer's mint returns at once. */
  ghost function PartsOf(h: Hub, e: Event): seq<Part> {
    if !e.ViewerConnects? then [Whole(e)]
    else if Admits(h) then [ViewerClaims(e.sock, e.sid, e.now)] + ([MintReturns(e.sock, e.minted)] + [])
    else [ViewerClaims(e.sock, e.sid, e.now)] + []
  }

  /** Nobody waits for a mint, and only sockets of the world have been told. */
  ghost predicate Settled(x: Split, w: World) {
    x.hub == w.hub && x.minting == {} && x.told.Keys <= w.seen
  }

  lemma AdmittedIsSplit(w: World, x: Split, e: Event)
    requires SlotInv(w.hub) && Settled(x, w) && Possible(w, e) && e.ViewerConnects? && Admits(w.hub)
    ensures var ps := PartsOf(w.hub, e);
            IsSplitRun(x, ps) && NoLateMints(x, ps) && Settled(PlaySplit(x, ps), Exec(w, e))
  {
    var p, q := ViewerClaims(e.sock, e.sid, e.now), MintReturns(e.sock, e.minted);
    var y := PartStep(x, p);
    AfterClaim(w.hub, e.sock, e.sid, e.now);
    UnsplitIsClaimThenMint(x, e.sock, e.sid, e.minted, e.now);
    Prepend(y, q, []);
    Prepend(x, p, [q] + []);
    assert ([q] + [])[1..] == [] && ([p] + ([q] + []))[1..] == [q] + [];
    assert NoLateMints(y, [q] + []);
  }

  lemma StepIsSplit(w: World, x: Split, e: Event)
    requires SlotInv(w.hub) && Settled(x, w) && Possible(w, e)
    ensures var ps := PartsOf(w.hub, e);
            IsSplitRun(x, ps) && NoLateMints(x, ps) && Settled(PlaySplit(x, ps), Exec(w, e))
  {
    if e.ViewerConnects? && Admits(w.hub) {
      AdmittedIsSplit(w, x, e);
    } else {
      var p := if e.ViewerConnects? then ViewerClaims(e.sock, e.sid, e.now) else Whole(e);
      Prepend(x, p, []);
      assert [p] + [] == [p] && ([p] + [])[1..] == [];
    }
  }

  lemma {:induction false} ChainWithoutLateMints(x: Split, ps: seq<Part>, qs: seq<Part>)
    requires IsSplitRun(x, ps) && NoLateMints(x, ps)
    requires IsSplitRun(PlaySplit(x, ps), qs) && NoLateMints(PlaySplit(x, ps), qs)
    ensures IsSplitRun(x, ps + qs) && NoLateMints(x, ps + qs)
    ensures PlaySplit(x, ps + qs) == PlaySplit(PlaySplit(x, ps), qs)
    decreases |ps|
  {
    if ps == [] {
      assert ps + qs == qs;
    } else {
      assert (ps + qs)[1..] == ps[1..] + qs;
      ChainWithoutLateMints(PartStep(x, ps[0]), ps[1..], qs);
    }
  }

  /** Every run with exclusive handlers is a split run without late mints that reaches the same hub: what is proved of
      those holds of it. */
  lemma {:induction false} RunIsSplit(w: World, x: Split, es: seq<Event>) returns (ps: seq<Part>)
    requires SlotInv(w.hub) && Settled(x, w) && IsRun(w, es)
    ensures IsSplitRun(x, ps) && NoLateMints(x, ps) && Settled(PlaySplit(x, ps), Play(w, es))
    decreases |es|
  {
    if es == [] {
      ps := [];
    } else {
      var first := PartsOf(w.hub, es[0]);
      StepIsSplit(w, x, es[0]);
      StepKeepsSlots(w.hub, es[0]);
      var rest := RunIsSplit(Exec(w, es[0]), PlaySplit(x, first), es[1..]);
      ChainWithoutLateMints(x, first, rest);
      ps := first + rest;
    }
  }

  /** With exclusive handlers the cache is therefore always the holder's. */
  lemma ExclusiveRunsKeepTheCache(es: seq<Event>)
    requires IsRun(START, es)
    ensures exists ps :: IsSplitRun(SPLIT_START, ps) && PlaySplit(SPLIT_START, ps).hub == Play(START, es).hub
                         && AlwaysCacheTrue(SPLIT_START, ps)
  {
    var ps := RunIsSplit(START, SPLIT_START, es);
    CacheTrueExactly(SPLIT_START, ps);
  }
}
