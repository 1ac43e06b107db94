/** The per-device hub of cloudflare/src/devicehub.ts as a state machine on values.

    One step is one exclusive handler run (a connect routine, a message, a close,
    an alarm); a socket leaves `sockets` in the step of its close handler. */
module HubModel {
  import opened Options
  import opened IceTypes

  type SocketId = nat
  type Sid = nat
  type Time = int // milliseconds

  const ALARM_MS: Time := 30_000
  const DEVICE_IDLE_MS: Time := 90_000
  const VIEWER_IDLE_MS: Time := 60_000

  // Close codes of section 7.4.1 of RFC 6455.
  const NORMAL_CLOSURE: nat := 1000
  const POLICY_VIOLATION: nat := 1008

  datatype Role = DeviceRole | ViewerRole

  /** The attachment a socket carries through hibernation. */
  datatype Meta = Meta(role: Role, sid: Option<Sid>, stale: bool)

  type Sockets = map<SocketId, Meta>

  /** The presence row of one device; times are `None` while the column is NULL. */
  datatype Row = Row(online: bool, firstSeen: Option<Time>, lastSeen: Option<Time>)

  datatype Message =
    | Answer(sdp: string)
    | Candidate(candidate: string)
    | Offer(offerSdp: string, ice: Option<IceServers>)
    | Servers(servers: Option<IceServers>)
    | PeerGone(reason: string)
    | ViewerGone
    | Error(errorReason: string)

  datatype Output = Send(to: SocketId, msg: Message) | Close(sock: SocketId, code: nat, why: string)

  /** What a peer may send; `OtherIn` is any binary, unparseable or unknown message. */
  datatype Incoming = OfferIn(sdp: string) | AnswerIn(sdp: string) | CandidateIn(candidate: string) | PingIn | OtherIn

  datatype Event =
    | DeviceConnects(sock: SocketId, id: string, now: Time)
    | ViewerConnects(sock: SocketId, sid: Sid, minted: IceServers, now: Time)
    | Receives(sock: SocketId, message: Incoming, now: Time)
    | Closes(sock: SocketId, now: Time)
    | AlarmFires(now: Time)

  datatype Hub = Hub(
    sockets: Sockets,
    deviceId: Option<string>,
    deviceLast: Option<Time>,
    viewerSid: Option<Sid>,
    viewerLast: Option<Time>,
    ice: Option<IceServers>,
    alarm: Option<Time>,
    row: Option<Row>)

  const EMPTY: Hub := Hub(map[], None, None, None, None, None, None, None)

  predicate Live(m: Meta) {
    m.role == DeviceRole && !m.stale
  }

  predicate Carries(m: Meta, sid: Sid) {
    m.role == ViewerRole && m.sid == Some(sid)
  }

  /** Some device socket that has not been superseded. */
  ghost function DeviceSocket(socks: Sockets): (r: Option<SocketId>)
    ensures r.Some? ==> r.value in socks && Live(socks[r.value])
    ensures r.None? ==> forall s :: s in socks ==> !Live(socks[s])
  {
    if exists s :: s in socks && Live(socks[s])
    then var s :| s in socks && Live(socks[s]); Some(s)
    else None
  }

  /** Some viewer socket whose session id is the stored claim. */
  ghost function ViewerSocket(socks: Sockets, claim: Option<Sid>): (r: Option<SocketId>)
    ensures r.Some? ==> claim.Some? && r.value in socks && Carries(socks[r.value], claim.value)
    ensures r.None? && claim.Some? ==> forall s :: s in socks ==> !Carries(socks[s], claim.value)
  {
    if claim.Some? && exists s :: s in socks && Carries(socks[s], claim.value)
    then var s :| s in socks && Carries(socks[s], claim.value); Some(s)
    else None
  }

  ghost function Device(h: Hub): Option<SocketId> {
    DeviceSocket(h.sockets)
  }

  ghost function Holder(h: Hub): Option<SocketId> {
    ViewerSocket(h.sockets, h.viewerSid)
  }

  /** Every live device socket but `keep` is marked stale. */
  function Superseded(socks: Sockets, keep: SocketId): Sockets {
    map s | s in socks :: if s != keep && Live(socks[s]) then socks[s].(stale := true) else socks[s]
  }

  function ToEach(to: Option<SocketId>, msg: Message): seq<Output> {
    if to.Some? then [Send(to.value, msg)] else []
  }

  function Superseding(device: Option<SocketId>): seq<Output> {
    if device.Some? then [Close(device.value, NORMAL_CLOSURE, "superseded")] else []
  }

  function Eviction(viewer: Option<SocketId>): seq<Output> {
    if viewer.Some?
    then [Send(viewer.value, PeerGone("device disconnected")),
          Close(viewer.value, NORMAL_CLOSURE, "device disconnected")]
    else []
  }

  function Cleared(h: Hub): Hub {
    h.(viewerSid := None, viewerLast := None, ice := None)
  }

  // The three row updates of cloudflare/src/db.ts.

  function UpsertOnline(row: Option<Row>, now: Time): Option<Row> {
    match row
    case None => Some(Row(true, Some(now), Some(now)))
    case Some(r) => Some(r.(online := true, lastSeen := Some(now)))
  }

  function SetOffline(row: Option<Row>, now: Time): Option<Row> {
    match row
    case None => None
    case Some(r) => Some(r.(online := false, lastSeen := Some(now)))
  }

  function TouchLastSeen(row: Option<Row>, now: Time): Option<Row> {
    match row
    case None => None
    case Some(r) => Some(r.(online := true, lastSeen := Some(now)))
  }

  // One function a handler. Each returns the next state and what was handed to sockets.

  ghost function DeviceConnect(h: Hub, s: SocketId, id: string, now: Time): (Hub, seq<Output>) {
    var socks := Superseded(h.sockets, s)[s := Meta(DeviceRole, None, false)];
    var freed := Cleared(h.(sockets := socks, deviceId := Some(id)));
    (freed.(deviceLast := Some(now), row := UpsertOnline(h.row, now), alarm := Some(now + ALARM_MS)),
     Superseding(Device(h)) + Eviction(Holder(h)))
  }

  /** The viewer's socket joins; it is rejected, or its session id becomes the claim. */
  ghost function Claim(h: Hub, s: SocketId, sid: Sid, now: Time): (Hub, seq<Output>) {
    var joined := h.(sockets := h.sockets[s := Meta(ViewerRole, Some(sid), false)]);
    if Device(h).None? then
      (joined, [Send(s, Error("device offline")), Close(s, NORMAL_CLOSURE, "device offline")])
    else if h.viewerSid.Some? then
      (joined, [Send(s, Error("busy: another viewer is already watching")),
                Close(s, POLICY_VIOLATION, "viewer slot busy")])
    else
      (joined.(viewerSid := Some(sid), viewerLast := Some(now)), [])
  }

  ghost predicate Admits(h: Hub) {
    Device(h).Some? && h.viewerSid.None?
  }

  /** The mint of session credentials has returned. */
  function Minted(h: Hub, s: SocketId, minted: IceServers): (Hub, seq<Output>) {
    (h.(ice := Some(minted)), [Send(s, Servers(Some(minted)))])
  }

  ghost function ViewerConnect(h: Hub, s: SocketId, sid: Sid, minted: IceServers, now: Time): (Hub, seq<Output>) {
    var (claimed, rejection) := Claim(h, s, sid, now);
    if Admits(h) then Minted(claimed, s, minted) else (claimed, rejection)
  }

  ghost function Receive(h: Hub, s: SocketId, m: Incoming, now: Time): (Hub, seq<Output>)
    requires s in h.sockets
  {
    if h.sockets[s].stale then (h, [])
    else if h.sockets[s].role == DeviceRole then
      match m
      case AnswerIn(sdp) => (h, ToEach(Holder(h), Answer(sdp)))
      case CandidateIn(c) => (h, ToEach(Holder(h), Candidate(c)))
      case PingIn => (h.(deviceLast := Some(now)), [])
      case _ => (h, [])
    else
      match m
      case OfferIn(sdp) => (h, ToEach(Device(h), Offer(sdp, h.ice)))
      case CandidateIn(c) => (h, ToEach(Device(h), Candidate(c)))
      case PingIn => (h.(viewerLast := Some(now)), [])
      case _ => (h, [])
  }

  ghost function Drop(h: Hub, s: SocketId, now: Time): (Hub, seq<Output>)
    requires s in h.sockets
  {
    var meta := h.sockets[s];
    var left := h.(sockets := h.sockets - {s});
    if meta.stale then (left, [])
    else if meta.role == DeviceRole then
      var row := if h.deviceId.Some? then SetOffline(h.row, now) else h.row;
      (Cleared(left).(alarm := None, row := row), Eviction(Holder(h)))
    else if meta.sid.Some? && meta.sid == h.viewerSid then
      (Cleared(left), ToEach(Device(h), ViewerGone))
    else (left, [])
  }

  /** The alarm is spent when it fires; only an attended hub arms it again. */
  ghost function Alarm(h: Hub, now: Time): (Hub, seq<Output>) {
    if Device(h).Some? && h.viewerSid.None? && now - h.deviceLast.GetOr(0) > DEVICE_IDLE_MS then
      (h.(alarm := None), [Close(Device(h).value, NORMAL_CLOSURE, "idle timeout")])
    else
      var next :=
        if Device(h).Some? then
          h.(row := if h.deviceId.Some? then TouchLastSeen(h.row, now) else h.row, alarm := Some(now + ALARM_MS))
        else h.(alarm := None);
      var evict :=
        if h.viewerSid.Some? && now - h.viewerLast.GetOr(0) > VIEWER_IDLE_MS && Holder(h).Some?
        then [Close(Holder(h).value, NORMAL_CLOSURE, "viewer idle")] else [];
      (next, evict)
  }

  /** What the runtime guarantees: new sockets and session ids are new, events come from open sockets. */
  ghost predicate Enabled(h: Hub, e: Event) {
    match e
    case DeviceConnects(s, _, _) => s !in h.sockets
    case ViewerConnects(s, sid, _, _) =>
      && s !in h.sockets
      && (forall i :: i in h.sockets ==> !Carries(h.sockets[i], sid))
    case Receives(s, _, _) => s in h.sockets
    case Closes(s, _) => s in h.sockets
    case AlarmFires(now) => h.alarm.Some? && h.alarm.value <= now
  }

  ghost function Step(h: Hub, e: Event): (Hub, seq<Output>)
    requires Enabled(h, e)
  {
    match e
    case DeviceConnects(s, id, now) => DeviceConnect(h, s, id, now)
    case ViewerConnects(s, sid, minted, now) => ViewerConnect(h, s, sid, minted, now)
    case Receives(s, m, now) => Receive(h, s, m, now)
    case Closes(s, now) => Drop(h, s, now)
    case AlarmFires(now) => Alarm(h, now)
  }
}
