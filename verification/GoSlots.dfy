/** The handlers of backend/internal/signaling/hub.go interleaved at their critical sections. */
module GoSlots {
  import opened Options
  import opened Registry

  /** Where a device handler stands: before Attach, in its read loop, after the deferred Detach. */
  datatype DevicePc = Accepted | Serving | Detached

  /** Where a viewer handler stands. `Arrived` has not looked at the device, `SawOnline` has;
      `Refused` found no device or a taken slot; `Watching` claimed it; `Released` ran its deferred release. */
  datatype ViewerPc = Arrived | SawOnline | Refused | Watching | Released

  datatype System = System(slots: Slots, devices: map<Conn, DevicePc>, viewers: map<Conn, ViewerPc>)

  const QUIET: System := System(VACANT, map[], map[])

  datatype Action =
    | DeviceAccept(c: Conn)
    | DeviceAttach(c: Conn)
    | DeviceDetach(c: Conn)
    | ViewerArrive(c: Conn)
    | ViewerCheck(c: Conn)
    | ViewerClaim(c: Conn)
    | ViewerRelease(c: Conn)
    | Shutdown

  predicate Ready(y: System, a: Action) {
    match a
    case DeviceAccept(c) => c !in y.devices && c !in y.viewers
    case DeviceAttach(c) => c in y.devices && y.devices[c] == Accepted
    case DeviceDetach(c) => c in y.devices && y.devices[c] == Serving
    case ViewerArrive(c) => c !in y.devices && c !in y.viewers
    case ViewerCheck(c) => c in y.viewers && y.viewers[c] == Arrived
    case ViewerClaim(c) => c in y.viewers && y.viewers[c] == SawOnline
    case ViewerRelease(c) => c in y.viewers && y.viewers[c] == Watching
    case Shutdown => true
  }

  function Act(y: System, a: Action): System
    requires Ready(y, a)
  {
    match a
    case DeviceAccept(c) => y.(devices := y.devices[c := Accepted])
    case DeviceAttach(c) => y.(slots := Attach(y.slots, c), devices := y.devices[c := Serving])
    case DeviceDetach(c) => y.(slots := Detach(y.slots, c), devices := y.devices[c := Detached])
    case ViewerArrive(c) => y.(viewers := y.viewers[c := Arrived])
    case ViewerCheck(c) => y.(viewers := y.viewers[c := if y.slots.conn.Some? then SawOnline else Refused])
    case ViewerClaim(c) =>
      y.(slots := TryClaim(y.slots, c), viewers := y.viewers[c := if y.slots.viewer.None? then Watching else Refused])
    case ViewerRelease(c) => y.(slots := Release(y.slots, c), viewers := y.viewers[c := Released])
    case Shutdown => y.(slots := VACANT)
  }

  predicate IsSchedule(y: System, acts: seq<Action>)
    decreases |acts|
  {
    acts == [] || (Ready(y, acts[0]) && IsSchedule(Act(y, acts[0]), acts[1..]))
  }

  function Run(y: System, acts: seq<Action>): System
    requires IsSchedule(y, acts)
    decreases |acts|
  {
    if acts == [] then y else Run(Act(y, acts[0]), acts[1..])
  }

  predicate SlotsOwned(y: System) {
    && (y.slots.conn.Some? ==> y.slots.conn.value in y.devices && y.devices[y.slots.conn.value] == Serving)
    && (y.slots.viewer.Some? ==> y.slots.viewer.value in y.viewers && y.viewers[y.slots.viewer.value] == Watching)
  }

  lemma {:induction false} RunKeepsOwned(y: System, acts: seq<Action>)
    requires SlotsOwned(y) && IsSchedule(y, acts)
    ensures SlotsOwned(Run(y, acts))
    decreases |acts|
  {
    if acts != [] { RunKeepsOwned(Act(y, acts[0]), acts[1..]); }
  }

  /** Under any interleaving: whoever is in the viewer slot has claimed and not released, whoever is in
      the device slot has attached and not detached, and with all viewer handlers done the slot is empty. */
  lemma SlotsBelongToRunningHandlers(acts: seq<Action>)
    requires IsSchedule(QUIET, acts)
    ensures var y := Run(QUIET, acts);
            && (forall c :: y.slots.viewer == Some(c) ==> c in y.viewers && y.viewers[c] == Watching)
            && (forall c :: y.slots.conn == Some(c) ==> c in y.devices && y.devices[c] == Serving)
            && ((forall c :: c in y.viewers ==> y.viewers[c] == Refused || y.viewers[c] == Released) ==>
                  y.slots.viewer.None?)
  {
    RunKeepsOwned(QUIET, acts);
  }

  function Rank(pc: ViewerPc): nat {
    match pc
    case Arrived => 0
    case SawOnline => 1
    case Watching => 2
    case Refused => 3
    case Released => 3
  }

  /** The steps that may empty a viewer slot held by `c`: its own release, a device leaving, the shutdown. */
  predicate MayFree(a: Action, c: Conn) {
    a == ViewerRelease(c) || a.DeviceDetach? || a.Shutdown?
  }

  /** Handlers only move on, and take the slot in the step of their own claim only; a claim is lost only by a step that
      may free it, so that no other viewer's claim or release does. */
  lemma {:induction false} HandlersMoveOn(y: System, acts: seq<Action>, c: Conn)
    requires SlotsOwned(y) && IsSchedule(y, acts) && c in y.viewers
    ensures var z := Run(y, acts);
            && c in z.viewers && Rank(y.viewers[c]) <= Rank(z.viewers[c])
            && (Rank(y.viewers[c]) == 3 ==> z.viewers[c] == y.viewers[c] && z.slots.viewer != Some(c))
            && (Rank(y.viewers[c]) == 2 && y.slots.viewer != Some(c) ==> z.slots.viewer != Some(c))
            && (y.slots.viewer == Some(c) && (forall a :: a in acts ==> !MayFree(a, c)) ==> z.slots.viewer == Some(c))
    decreases |acts|
  {
    if acts != [] {
      assert SlotsOwned(Act(y, acts[0]));
      assert acts[0] in acts;
      HandlersMoveOn(Act(y, acts[0]), acts[1..], c);
    }
  }

  /** A viewer whose check finds no device is refused for good, and only such a one is refused by its check. */
  lemma OfflineIsRefused(y: System, c: Conn, acts: seq<Action>)
    requires SlotsOwned(y) && Ready(y, ViewerCheck(c)) && IsSchedule(Act(y, ViewerCheck(c)), acts)
    ensures var checked := Act(y, ViewerCheck(c));
            var z := Run(checked, acts);
            && (checked.viewers[c] == Refused <==> y.slots.conn.None?)
            && (y.slots.conn.None? ==> c in z.viewers && z.viewers[c] == Refused && z.slots.viewer != Some(c))
  {
    HandlersMoveOn(Act(y, ViewerCheck(c)), acts, c);
  }

  // ---- who is in the slots ----

  /** The steps that empty a device slot held by `c` or give it to another. */
  predicate EndsDevice(a: Action, c: Conn) {
    a.DeviceAttach? || a == DeviceDetach(c) || a.Shutdown?
  }

  /** The `i`-th step attaches `c`, and none since has ended that. */
  predicate AttachedBy(acts: seq<Action>, i: int, c: Conn) {
    0 <= i < |acts| && acts[i] == DeviceAttach(c) && NeverEnds(acts[i + 1..], c)
  }

  predicate NeverEnds(acts: seq<Action>, c: Conn) {
    forall j :: 0 <= j < |acts| ==> !EndsDevice(acts[j], c)
  }

  lemma Further(acts: seq<Action>, c: Conn)
    requires acts != []
    ensures NeverEnds(acts, c) <==> !EndsDevice(acts[0], c) && NeverEnds(acts[1..], c)
    ensures forall i: int :: i > 0 ==> (AttachedBy(acts, i, c) <==> AttachedBy(acts[1..], i - 1, c))
  {
    assert forall j :: 0 < j < |acts| ==> acts[j] == acts[1..][j - 1] && acts[j + 1..] == acts[1..][j..];
  }

  lemma {:induction false} SlotFrom(y: System, acts: seq<Action>, c: Conn)
    requires IsSchedule(y, acts)
    ensures Run(y, acts).slots.conn == Some(c) <==>
            (y.slots.conn == Some(c) && NeverEnds(acts, c)) || exists i :: AttachedBy(acts, i, c)
    decreases |acts|
  {
    if acts != [] {
      SlotFrom(Act(y, acts[0]), acts[1..], c);
      Further(acts, c);
      if i :| AttachedBy(acts[1..], i, c) { assert AttachedBy(acts, i + 1, c); }
      if acts[0] == DeviceAttach(c) && NeverEnds(acts[1..], c) { assert AttachedBy(acts, 0, c); }
    }
  }

  /** Under any interleaving the device slot holds the connection that was attached last, until its own detach or the
      shutdown: a reconnect takes the slot from a dead connection, which then cannot give it up. */
  lemma LastAttachedExactly(acts: seq<Action>, c: Conn)
    requires IsSchedule(QUIET, acts)
    ensures Run(QUIET, acts).slots.conn == Some(c) <==>
            exists i :: 0 <= i < |acts| && acts[i] == DeviceAttach(c) && NeverEnds(acts[i + 1..], c)
  {
    SlotFrom(QUIET, acts, c);
    if i :| AttachedBy(acts, i, c) { assert acts[i] == DeviceAttach(c) && NeverEnds(acts[i + 1..], c); }
    if i :| 0 <= i < |acts| && acts[i] == DeviceAttach(c) && NeverEnds(acts[i + 1..], c) {
      assert AttachedBy(acts, i, c);
    }
  }

  predicate NeverFreed(acts: seq<Action>, c: Conn) {
    forall a :: a in acts ==> !MayFree(a, c)
  }

  lemma {:induction false} HeldExactly(y: System, acts: seq<Action>, c: Conn)
    requires SlotsOwned(y) && IsSchedule(y, acts) && y.slots.viewer == Some(c)
    ensures Run(y, acts).slots.viewer == Some(c) <==> NeverFreed(acts, c)
    decreases |acts|
  {
    if acts != [] {
      var z := Act(y, acts[0]);
      assert SlotsOwned(z) && acts == [acts[0]] + acts[1..];
      if MayFree(acts[0], c) {
        HandlersMoveOn(z, acts[1..], c);
      } else {
        HeldExactly(z, acts[1..], c);
      }
    }
  }

  /** A viewer's claim holds the slot exactly if it found it empty, and until its own release, the return of any device
      handler or the shutdown. */
  lemma ClaimHoldsExactly(before: seq<Action>, c: Conn, after: seq<Action>)
    requires IsSchedule(QUIET, before) && Ready(Run(QUIET, before), ViewerClaim(c))
    requires IsSchedule(Act(Run(QUIET, before), ViewerClaim(c)), after)
    ensures var y := Run(QUIET, before);
            Run(Act(y, ViewerClaim(c)), after).slots.viewer == Some(c) <==> y.slots.viewer.None? && NeverFreed(after, c)
  {
    var y := Run(QUIET, before);
    RunKeepsOwned(QUIET, before);
    var z := Act(y, ViewerClaim(c));
    assert SlotsOwned(z);
    if y.slots.viewer.None? { HeldExactly(z, after, c); } else { HandlersMoveOn(z, after, c); }
  }

  // ---- when a claim has a device ----

  predicate Watched(y: System) {
    y.slots.viewer.Some? ==> y.slots.conn.Some?
  }

  /** After every step of the schedule, a viewer in the slot has a device. */
  predicate AlwaysWatched(y: System, acts: seq<Action>)
    requires IsSchedule(y, acts)
    decreases |acts|
  {
    Watched(y) && (acts == [] || AlwaysWatched(Act(y, acts[0]), acts[1..]))
  }

  /** A claim taken after the online check has lapsed: no device is attached. */
  predicate LateClaim(y: System, a: Action) {
    a.ViewerClaim? && y.slots.conn.None?
  }

  predicate NoLateClaim(y: System, acts: seq<Action>)
    requires IsSchedule(y, acts)
    decreases |acts|
  {
    acts == [] || (!LateClaim(y, acts[0]) && NoLateClaim(Act(y, acts[0]), acts[1..]))
  }

  /** A claim has its device throughout a schedule exactly if no claim of it is late. */
  lemma {:induction false} WatchedExactly(y: System, acts: seq<Action>)
    requires Watched(y) && IsSchedule(y, acts)
    ensures AlwaysWatched(y, acts) <==> NoLateClaim(y, acts)
    decreases |acts|
  {
    if acts != [] && !LateClaim(y, acts[0]) { WatchedExactly(Act(y, acts[0]), acts[1..]); }
  }

  lemma WatchedFromTheStart(acts: seq<Action>)
    requires IsSchedule(QUIET, acts)
    ensures AlwaysWatched(QUIET, acts) <==> NoLateClaim(QUIET, acts)
  {
    WatchedExactly(QUIET, acts);
  }

  lemma Prepend(y: System, a: Action, acts: seq<Action>)
    requires Ready(y, a) && IsSchedule(Act(y, a), acts)
    ensures IsSchedule(y, [a] + acts) && Run(y, [a] + acts) == Run(Act(y, a), acts)
  {
    assert ([a] + acts)[1..] == acts;
  }

  /** Unlike in the Durable Object, a claim may stand without a device: the online check and the claim are two
      critical sections, and a device that detaches between them evicts nobody. */
  lemma ClaimMayOutliveDevice()
    ensures exists acts :: IsSchedule(QUIET, acts) &&
              var y := Run(QUIET, acts); y.slots == Slots(None, Some(1)) && y.devices == map[0 := Detached]
  {
    var y1 := Act(QUIET, DeviceAccept(0));
    var y2 := Act(y1, DeviceAttach(0));
    var y3 := Act(y2, ViewerArrive(1));
    var y4 := Act(y3, ViewerCheck(1));
    var y5 := Act(y4, DeviceDetach(0));
    Prepend(y5, ViewerClaim(1), []);
    var acts := [ViewerClaim(1)] + [];
    Prepend(y4, DeviceDetach(0), acts);
    acts := [DeviceDetach(0)] + acts;
    Prepend(y3, ViewerCheck(1), acts);
    acts := [ViewerCheck(1)] + acts;
    Prepend(y2, ViewerArrive(1), acts);
    acts := [ViewerArrive(1)] + acts;
    Prepend(y1, DeviceAttach(0), acts);
    acts := [DeviceAttach(0)] + acts;
    Prepend(QUIET, DeviceAccept(0), acts);
    acts := [DeviceAccept(0)] + acts;
    assert Run(QUIET, acts) == Act(y5, ViewerClaim(1));
    assert Run(QUIET, acts).devices == map[0 := Detached];
  }
}
