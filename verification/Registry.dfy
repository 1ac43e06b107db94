/** The mutex-guarded slots of backend/internal/registry/registry.go. Each operation is one critical section. */
module Registry {
  import opened Options

  type Conn = nat

  datatype Slots = Slots(conn: Option<Conn>, viewer: Option<Conn>)

  const VACANT: Slots := Slots(None, None)

  function Attach(s: Slots, c: Conn): Slots {
    s.(conn := Some(c))
  }

  /** A detaching connection gives up the device slot only if it is its own, but always empties the viewer slot. */
  function Detach(s: Slots, c: Conn): Slots {
    Slots(if s.conn == Some(c) then None else s.conn, None)
  }

  function TryClaim(s: Slots, c: Conn): Slots {
    if s.viewer.Some? then s else s.(viewer := Some(c))
  }

  function Release(s: Slots, c: Conn): Slots {
    if s.viewer == Some(c) then s.(viewer := None) else s
  }

  class Device {
    var conn: Option<Conn>
    var viewer: Option<Conn>
    var lastSeen: int // last attach or detach; 0 = never connected

    ghost function Value(): Slots
      reads this
    {
      Slots(conn, viewer)
    }

    constructor ()
      ensures Value() == VACANT && lastSeen == 0
    {
      conn, viewer, lastSeen := None, None, 0;
    }

    method AttachConn(c: Conn, now: int)
      modifies this
      ensures Value() == Attach(old(Value()), c) && lastSeen == now
    {
      conn := Some(c);
      lastSeen := now;
    }

    method DetachConn(c: Conn, now: int) returns (evict: Option<Conn>)
      modifies this
      ensures Value() == Detach(old(Value()), c) && lastSeen == now
      ensures evict == old(viewer)
    {
      if conn == Some(c) { conn := None; }
      evict := viewer;
      viewer := None;
      lastSeen := now;
    }

    method TryClaimViewer(c: Conn) returns (ok: bool)
      modifies this`viewer
      ensures Value() == TryClaim(old(Value()), c)
      ensures ok <==> old(viewer).None?
    {
      if viewer != None {
        return false;
      }
      viewer := Some(c);
      ok := true;
    }

    method ReleaseViewer(c: Conn)
      modifies this`viewer
      ensures Value() == Release(old(Value()), c)
    {
      if viewer == Some(c) { viewer := None; }
    }

    /** Both slots are emptied; the caller closes what was in them, the viewer first. */
    method Close() returns (closing: seq<Conn>)
      modifies this
      ensures Value() == VACANT && lastSeen == old(lastSeen)
      ensures closing == old((if viewer.Some? then [viewer.value] else []) + (if conn.Some? then [conn.value] else []))
    {
      var deviceConn, viewerConn := conn, viewer;
      conn, viewer := None, None;
      closing := [];
      if viewerConn.Some? { closing := closing + [viewerConn.value]; }
      if deviceConn.Some? { closing := closing + [deviceConn.value]; }
    }
  }
}
