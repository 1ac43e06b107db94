/** The stored device configuration: validation, and the one blob that is written and read back. */
module ConfigStore {
  import opened Options

  const SSID_MAX_LEN: nat := 32
  const PASSWORD_MAX_LEN: nat := 64
  const HOST_MAX_LEN: nat := 63
  const TOKEN_MAX_LEN: nat := 64
  const RESERVED_LEN: nat := 64
  const STORE_MAGIC: nat := 0x4350_4D31
  const STORE_VERSION: nat := 3
  const BLOB_SIZE: nat := 8 + 33 + 65 + 64 + 65 + 1 + 64

  /** The fields as C strings without their terminators. */
  datatype Config = Config(
    ssid: string, password: string, host: string, token: string, autoFlash: bool, reserved: seq<int>)

  function Zeros(n: nat): (z: seq<int>)
    ensures |z| == n && forall i :: 0 <= i < n ==> z[i] == 0
  {
    if n == 0 then [] else Zeros(n - 1) + [0]
  }

  const ZEROS: seq<int> := Zeros(RESERVED_LEN)
  const DEFAULTS: Config := Config("", "", "", "", false, ZEROS)

  predicate AllIn(s: string, lo: char, hi: char) {
    forall i :: 0 <= i < |s| ==> lo <= s[i] <= hi
  }

  predicate IsHostChar(c: char, port: bool) {
    'A' <= c <= 'Z' || 'a' <= c <= 'z' || '0' <= c <= '9' || c == '.' || c == '-' || (port && c == ':')
  }

  predicate Prefixed(h: string, p: string) {
    |p| <= |h| && h[..|p|] == p
  }

  /** Where the host begins: after the prefix of the local mode, if there is one. */
  function HostStart(h: string): (k: nat)
    ensures k <= |h|
  {
    if Prefixed(h, "ws://") then 5 else if Prefixed(h, "http://") then 7 else 0
  }

  predicate HostChars(h: string, from: nat, port: bool) {
    forall i :: from <= i < |h| ==> IsHostChar(h[i], port)
  }

  predicate ValidHost(h: string) {
    0 < |h| <= HOST_MAX_LEN && HostStart(h) < |h| && HostChars(h, HostStart(h), HostStart(h) > 0)
  }

  predicate Valid(c: Config) {
    && 0 < |c.ssid| <= SSID_MAX_LEN && AllIn(c.ssid, ' ', '~')
    && |c.password| <= PASSWORD_MAX_LEN
    && ValidHost(c.host)
    && 0 < |c.token| <= TOKEN_MAX_LEN && AllIn(c.token, '!', '~')
  }

  // ---- what is valid, in characters ----

  predicate IsNameChar(c: char) {
    'A' <= c <= 'Z' || 'a' <= c <= 'z' || '0' <= c <= '9' || c == '.' || c == '-'
  }

  predicate IsName(s: string) {
    forall c :: c in s ==> IsNameChar(c)
  }

  predicate IsNameWithPort(s: string) {
    s != "" && forall c :: c in s ==> IsNameChar(c) || c == ':'
  }

  lemma InBySlices(h: string, from: nat)
    requires from <= |h|
    ensures HostChars(h, from, false) <==> IsName(h[from..])
    ensures from < |h| && HostChars(h, from, true) <==> IsNameWithPort(h[from..])
  {
    var s := h[from..];
    assert forall i :: from <= i < |h| ==> h[i] == s[i - from] && s[i - from] in s;
    assert forall i :: 0 <= i < |s| ==> s[i] == h[from + i];
  }

  lemma PrefixedExactly(h: string, p: string)
    ensures Prefixed(h, p) <==> exists rest: string :: h == p + rest
  {
    if Prefixed(h, p) { assert h == p + h[|p|..]; }
  }

  lemma SchemeIsNoName(h: string)
    requires Prefixed(h, "ws://") || Prefixed(h, "http://")
    ensures !IsName(h)
  {
    var i := if Prefixed(h, "ws://") then 2 else 4;
    assert "ws://"[2] == ':' && "http://"[4] == ':';
    assert h[i] == ':' by { assert h[i] == if i == 2 then h[..5][2] else h[..7][4]; }
    assert h[i] in h;
  }

  lemma SchemesDiffer(rest: string)
    ensures !Prefixed("http://" + rest, "ws://")
  {
    var h := "http://" + rest;
    assert h[..5][0] == h[0] == 'h' && "ws://"[0] == 'w';
  }

  lemma ValidHostExactly(h: string)
    ensures ValidHost(h) <==>
            && 1 <= |h| <= 63
            && (|| IsName(h)
                || (exists rest :: h == "ws://" + rest && IsNameWithPort(rest))
                || (exists rest :: h == "http://" + rest && IsNameWithPort(rest)))
  {
    InBySlices(h, HostStart(h));
    PrefixedExactly(h, "ws://");
    PrefixedExactly(h, "http://");
    if Prefixed(h, "ws://") || Prefixed(h, "http://") { SchemeIsNoName(h); }
    if rest: string :| h == "ws://" + rest { assert HostStart(h) == 5 && h[5..] == rest; }
    if rest: string :| h == "http://" + rest {
      SchemesDiffer(rest);
      assert HostStart(h) == 7 && h[7..] == rest;
    }
    if HostStart(h) == 0 { assert h[0..] == h; }
    if HostStart(h) == 5 { assert h == "ws://" + h[5..]; }
    if HostStart(h) == 7 { assert h == "http://" + h[7..]; }
  }

  lemma AllInMembers(s: string, lo: char, hi: char)
    ensures AllIn(s, lo, hi) <==> forall x :: x in s ==> lo <= x <= hi
  {
    assert forall i :: 0 <= i < |s| ==> s[i] in s;
  }

  /** Valid are exactly: a network name of 1 to 32 printable ASCII characters, any password of at most 64, a host of 1
      to 63 that is a plain name, or a scheme of the local mode before a name that may carry a port, and a token of 1 to
      64 printable ASCII characters without blanks. */
  lemma ValidExactly(c: Config)
    ensures Valid(c) <==>
            && 1 <= |c.ssid| <= 32 && (forall x :: x in c.ssid ==> 0x20 <= x as int <= 0x7E)
            && |c.password| <= 64
            && 1 <= |c.host| <= 63
            && (|| IsName(c.host)
                || (exists rest :: c.host == "ws://" + rest && IsNameWithPort(rest))
                || (exists rest :: c.host == "http://" + rest && IsNameWithPort(rest)))
            && 1 <= |c.token| <= 64 && (forall x :: x in c.token ==> 0x21 <= x as int <= 0x7E)
  {
    ValidHostExactly(c.host);
    AllInMembers(c.ssid, ' ', '~');
    AllInMembers(c.token, '!', '~');
  }

  method CheckRange(s: string, lo: char, hi: char) returns (ok: bool)
    ensures ok <==> AllIn(s, lo, hi)
  {
    for i := 0 to |s|
      invariant forall j :: 0 <= j < i ==> lo <= s[j] <= hi
    {
      if s[i] < lo || s[i] > hi {
        return false;
      }
    }
    ok := true;
  }

  method CheckHost(h: string) returns (ok: bool)
    ensures ok <==> ValidHost(h)
  {
    if |h| == 0 || |h| > HOST_MAX_LEN {
      return false;
    }
    var start, port := 0, false;
    if Prefixed(h, "ws://") || Prefixed(h, "http://") {
      start, port := HostStart(h), true;
      if start >= |h| {
        return false;
      }
    }
    for i := start to |h|
      invariant forall j :: start <= j < i ==> IsHostChar(h[j], port)
    {
      if !IsHostChar(h[i], port) {
        return false;
      }
    }
    ok := true;
  }

  method ConfigValidate(c: Config) returns (ok: bool)
    ensures ok <==> Valid(c)
  {
    if |c.ssid| == 0 || |c.ssid| > SSID_MAX_LEN {
      return false;
    }
    var ssidOk := CheckRange(c.ssid, ' ', '~');
    if !ssidOk || |c.password| > PASSWORD_MAX_LEN {
      return false;
    }
    var hostOk := CheckHost(c.host);
    if !hostOk || |c.token| == 0 || |c.token| > TOKEN_MAX_LEN {
      return false;
    }
    ok := CheckRange(c.token, '!', '~');
  }

  // ---- the store ----

  datatype Blob = Blob(len: nat, magic: nat, version: nat, cfg: Config)

  datatype Status = Ok | NotFound | InvalidState | InvalidArg | NvsError

  /** NVS as one atomic cell, which opens, is written and committed, or fails as a whole. */
  class Store {
    var cell: Option<Blob>

    constructor ()
      ensures cell == None
    {
      cell := None;
    }

    method Save(c: Config, writes: bool) returns (r: Status)
      modifies this
      ensures !Valid(c) ==> r == InvalidArg && cell == old(cell)
      ensures Valid(c) && !writes ==> r == NvsError && cell == old(cell)
      ensures Valid(c) && writes ==>
                r == Ok && cell == Some(Blob(BLOB_SIZE, STORE_MAGIC, STORE_VERSION, c.(reserved := ZEROS)))
    {
      var ok := ConfigValidate(c);
      if !ok {
        return InvalidArg;
      }
      if !writes {
        return NvsError;
      }
      cell := Some(Blob(BLOB_SIZE, STORE_MAGIC, STORE_VERSION, c.(reserved := ZEROS)));
      r := Ok;
    }

    method Load() returns (st: Status, c: Config)
      ensures (st, c) == Loaded(cell)
    {
      c := DEFAULTS;
      if cell == None {
        return NotFound, c;
      }
      var blob := cell.value;
      if blob.len != BLOB_SIZE || blob.magic != STORE_MAGIC || blob.version != STORE_VERSION {
        return InvalidState, c;
      }
      var ok := ConfigValidate(blob.cfg);
      if !ok {
        return InvalidState, c;
      }
      return Ok, blob.cfg;
    }
  }

  /** What a load finds in a cell; the configuration is the caller's defaults unless the status is `Ok`. */
  function Loaded(cell: Option<Blob>): (Status, Config) {
    match cell
    case None => (NotFound, DEFAULTS)
    case Some(b) =>
      if b.len == BLOB_SIZE && b.magic == STORE_MAGIC && b.version == STORE_VERSION && Valid(b.cfg) then (Ok, b.cfg)
      else (InvalidState, DEFAULTS)
  }

  /** A load finds a configuration exactly in a cell that holds a valid one under the layout's size, its magic number
      and version 3, and finds that very one; an empty cell is told from a foreign one, and both give the defaults. */
  lemma LoadedExactly(cell: Option<Blob>, c: Config)
    ensures Loaded(cell) == (Ok, c) <==> Valid(c) && cell == Some(Blob(300, 0x4350_4D31, 3, c))
    ensures Loaded(cell).0 == NotFound <==> cell.None?
    ensures Loaded(cell).0 != Ok ==> Loaded(cell).0 in {NotFound, InvalidState} && Loaded(cell).1 == DEFAULTS
  {
  }

  /** Loading after saving gives the configuration back with its reserved bytes zeroed, whatever was stored
      before; and a load is only ever `Ok` with a valid configuration. */
  method SaveThenLoad(store: Store, c: Config) returns (r: Status, st: Status, back: Config)
    modifies store
    ensures Valid(c) ==> r == Ok && st == Ok && back == c.(reserved := ZEROS)
    ensures !Valid(c) ==> r == InvalidArg && store.cell == old(store.cell)
    ensures st == Ok ==> Valid(back)
  {
    r := store.Save(c, true);
    st, back := store.Load();
  }
}
