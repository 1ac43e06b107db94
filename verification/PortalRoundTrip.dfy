/** The portal as a whole: what a browser posts back from the form it was served, and what is then stored. */
module PortalRoundTrip {
  import opened PortalText
  import opened ConfigStore
  import opened PortalForm
  import opened PortalSpelling
  import opened PortalBrowser
  import opened Utf8

  // ---- what the browser posts ----

  function NameOf(key: Key): string
    requires key != Unknown
  {
    match key
    case Ssid => "ssid"
    case Password => "pass"
    case Host => "host"
    case Token => "token"
    case AutoFlash => "auto_flash"
  }

  function Pair(key: Key, val: string): string
    requires key != Unknown && IsFieldText(val)
  {
    NameOf(key) + "=" + UrlEncode(val)
  }

  /** The pairs of a submitted form; a checkbox is there only when checked. */
  function Pairs(c: Config): seq<string>
    requires IsText(c)
  {
    [Pair(Ssid, c.ssid), Pair(Password, c.password), Pair(Host, c.host), Pair(Token, c.token)]
    + if c.autoFlash then [Pair(AutoFlash, "on")] else []
  }

  function Joined(ps: seq<string>): string {
    if ps == [] then "" else if |ps| == 1 then ps[0] else ps[0] + "&" + Joined(ps[1..])
  }

  /** The body of the submission. */
  function Posted(c: Config): string
    requires IsText(c)
  {
    Joined(Pairs(c))
  }

  // ---- parsing undoes posting ----

  predicate IsPiece(s: string) {
    s != "" && forall i :: 0 <= i < |s| ==> s[i] != '&' && s[i] != '\0'
  }

  lemma JoinedUnfolds(p: string, rest: seq<string>)
    ensures Joined([p] + rest) == if rest == [] then p else p + "&" + Joined(rest)
  {
    assert ([p] + rest)[1..] == rest;
  }

  lemma TokensOfOne(p: string)
    requires IsPiece(p)
    ensures Tokens(p) == [p]
  {
    IndexIs(p, '&', |p|);
    TokensUnfold(p);
    assert Head(p) == p && Tail(p) == "" && Tokens("") == [];
  }

  lemma TokensOfFirst(p: string, tail: string)
    requires IsPiece(p)
    ensures Tokens(p + "&" + tail) == [p] + Tokens(tail)
  {
    var s := p + ['&'] + tail;
    IndexBefore(p, '&', tail);
    TokensUnfold(s);
    assert Head(s) == p && Tail(s) == tail;
  }

  lemma {:induction false} TokensOfJoined(ps: seq<string>)
    requires forall i :: 0 <= i < |ps| ==> IsPiece(ps[i])
    ensures Tokens(Joined(ps)) == ps
    decreases |ps|
  {
    if ps != [] {
      var p, rest := ps[0], ps[1..];
      assert ps == [p] + rest;
      JoinedUnfolds(p, rest);
      if rest == [] {
        TokensOfOne(p);
      } else {
        TokensOfJoined(rest);
        TokensOfFirst(p, Joined(rest));
      }
    }
  }

  lemma {:induction false} JoinedHasNoTerminator(ps: seq<string>)
    requires forall i :: 0 <= i < |ps| ==> IsPiece(ps[i])
    ensures forall i :: 0 <= i < |Joined(ps)| ==> Joined(ps)[i] != '\0'
    decreases |ps|
  {
    if |ps| > 1 { JoinedHasNoTerminator(ps[1..]); }
  }

  lemma {:induction false} PlainIsItsOwnCode(s: string)
    requires forall i :: 0 <= i < |s| ==> Plain(s[i])
    ensures AllBytes(s) && UrlEncode(s) == s
  {
    if s != "" { PlainIsItsOwnCode(s[1..]); }
  }

  lemma NamesAreRead(key: Key)
    requires key != Unknown
    ensures forall name :: KeyOf(name) == key <==> name == NameOf(key)
    ensures 0 < |NameOf(key)| <= KEY_ROOM && forall i :: 0 <= i < |NameOf(key)| ==> Plain(NameOf(key)[i])
  {
    assert "ssid"[0] == 's' && "pass"[0] == 'p' && "host"[0] == 'h';
  }

  /** A posted pair sets its field to the very value. */
  lemma ApplyPair(c: Config, key: Key, val: string)
    requires key != Unknown && IsFieldText(val) && |val| <= MAX_FORM_BODY
    ensures Apply(c, Pair(key, val)) == Set(c, key, val)
  {
    var token, name := Pair(key, val), NameOf(key);
    NamesAreRead(key);
    IndexBefore(name, '=', UrlEncode(val));
    PlainIsItsOwnCode(name);
    DecodeEncode(name, KEY_ROOM);
    DecodeEncode(val, MAX_FORM_BODY);
    CStringExactly(name, "");
    CStringExactly(val, "");
  }

  lemma PairIsPiece(key: Key, val: string)
    requires key != Unknown && IsFieldText(val)
    ensures IsPiece(Pair(key, val)) && |Pair(key, val)| <= 11 + 3 * |val|
  {
    NamesAreRead(key);
    EncodedIsClean(val);
  }

  /** The lengths a browser may post: the password can have grown. */
  predicate Postable(c: Config) {
    && IsText(c)
    && |c.ssid| <= SSID_MAX_LEN && |c.password| <= 3 * PASSWORD_MAX_LEN
    && |c.host| <= HOST_MAX_LEN && |c.token| <= TOKEN_MAX_LEN
  }

  lemma PairsArePieces(c: Config)
    requires IsText(c)
    ensures forall i :: 0 <= i < |Pairs(c)| ==> IsPiece(Pairs(c)[i])
  {
    PairIsPiece(Ssid, c.ssid);
    PairIsPiece(Password, c.password);
    PairIsPiece(Host, c.host);
    PairIsPiece(Token, c.token);
    PairIsPiece(AutoFlash, "on");
  }

  lemma JoinedLength(p: string, rest: seq<string>, len: nat)
    requires |Joined(rest)| <= len
    ensures |Joined([p] + rest)| <= |p| + 1 + len
  {
    JoinedUnfolds(p, rest);
  }

  lemma CheckboxLength(c: Config, tail: seq<string>)
    requires tail == if c.autoFlash then [Pair(AutoFlash, "on")] else []
    ensures |Joined(tail)| <= 17
  {
    PairIsPiece(AutoFlash, "on");
  }

  lemma PostedFits(c: Config)
    requires Postable(c)
    ensures |Posted(c)| <= MAX_FORM_BODY
  {
    var ps, tail := Pairs(c)[..4], Pairs(c)[4..];
    CheckboxLength(c, tail);
    PairIsPiece(Ssid, c.ssid);
    PairIsPiece(Password, c.password);
    PairIsPiece(Host, c.host);
    PairIsPiece(Token, c.token);
    JoinedLength(ps[3], tail, 17);
    JoinedLength(ps[2], [ps[3]] + tail, 300);
    JoinedLength(ps[1], [ps[2]] + ([ps[3]] + tail), 600);
    JoinedLength(ps[0], [ps[1]] + ([ps[2]] + ([ps[3]] + tail)), 1300);
    FourthAndRest(ps, tail);
    assert ps + tail == Pairs(c);
  }

  lemma FourthAndRest<T>(ps: seq<T>, tail: seq<T>)
    requires |ps| == 4
    ensures ps + tail == [ps[0]] + ([ps[1]] + ([ps[2]] + ([ps[3]] + tail)))
  {
  }

  lemma ApplyFour(c0: Config, c1: Config, c2: Config, c3: Config, c4: Config, ps: seq<string>, tail: seq<string>)
    requires |ps| == 4
    requires Apply(c0, ps[0]) == c1 && Apply(c1, ps[1]) == c2 && Apply(c2, ps[2]) == c3 && Apply(c3, ps[3]) == c4
    ensures ApplyAll(c0, ps + tail) == ApplyAll(c4, tail)
  {
    ApplyFirst(c3, ps[3], tail);
    ApplyFirst(c2, ps[2], [ps[3]] + tail);
    ApplyFirst(c1, ps[1], [ps[2]] + ([ps[3]] + tail));
    ApplyFirst(c0, ps[0], [ps[1]] + ([ps[2]] + ([ps[3]] + tail)));
    FourthAndRest(ps, tail);
  }

  function WithText(ssid: string, password: string, host: string, token: string): Config {
    Config(ssid, password, host, token, false, ZEROS)
  }

  lemma FourSteps(c: Config)
    requires Postable(c)
    ensures var password := Clipped(c.password, PASSWORD_MAX_LEN);
            && Apply(DEFAULTS, Pair(Ssid, c.ssid)) == WithText(c.ssid, "", "", "")
            && Apply(WithText(c.ssid, "", "", ""), Pair(Password, c.password)) == WithText(c.ssid, password, "", "")
            && Apply(WithText(c.ssid, password, "", ""), Pair(Host, c.host)) == WithText(c.ssid, password, c.host, "")
            && Apply(WithText(c.ssid, password, c.host, ""), Pair(Token, c.token)) ==
                 WithText(c.ssid, password, c.host, c.token)
  {
    var password := Clipped(c.password, PASSWORD_MAX_LEN);
    ApplyPair(DEFAULTS, Ssid, c.ssid);
    ApplyPair(WithText(c.ssid, "", "", ""), Password, c.password);
    ApplyPair(WithText(c.ssid, password, "", ""), Host, c.host);
    ApplyPair(WithText(c.ssid, password, c.host, ""), Token, c.token);
  }

  lemma CheckboxStep(c: Config, tail: seq<string>)
    requires tail == (if c.autoFlash then [Pair(AutoFlash, "on")] else []) && c.reserved == ZEROS
    ensures ApplyAll(WithText(c.ssid, c.password, c.host, c.token), tail) == c
  {
    var d := WithText(c.ssid, c.password, c.host, c.token);
    if c.autoFlash {
      ApplyPair(d, AutoFlash, "on");
      ApplyOne(d, tail[0]);
    }
  }

  lemma ApplyPairs(c: Config)
    requires Postable(c) && c.reserved == ZEROS
    ensures ApplyAll(DEFAULTS, Pairs(c)) == c.(password := Clipped(c.password, PASSWORD_MAX_LEN))
  {
    var four, tail, d := Pairs(c)[..4], Pairs(c)[4..], c.(password := Clipped(c.password, PASSWORD_MAX_LEN));
    FourSteps(c);
    ApplyFour(DEFAULTS, WithText(d.ssid, "", "", ""), WithText(d.ssid, d.password, "", ""),
              WithText(d.ssid, d.password, d.host, ""), WithText(d.ssid, d.password, d.host, d.token), four, tail);
    CheckboxStep(d, tail);
    assert four + tail == Pairs(c);
  }

  lemma ApplyFirst(c: Config, token: string, rest: seq<string>)
    ensures ApplyAll(c, [token] + rest) == ApplyAll(Apply(c, token), rest)
  {
    ApplyAllAppends(c, [token], rest);
    ApplyOne(c, token);
  }

  lemma ParsingUndoesPosting(c: Config)
    requires Postable(c) && c.reserved == ZEROS
    ensures |Posted(c)| <= MAX_FORM_BODY
    ensures Parsed(DEFAULTS, Posted(c)) == c.(password := Clipped(c.password, PASSWORD_MAX_LEN))
  {
    PairsArePieces(c);
    PostedFits(c);
    JoinedHasNoTerminator(Pairs(c));
    CStringExactly(Posted(c), "");
    TokensOfJoined(Pairs(c));
    ApplyPairs(c);
  }

  // ---- which configurations come back ----

  /** The passwords that survive: without line breaks, and well-formed UTF-8 unless they fill the field and end
      in the first byte or two of a replacement character. */
  predicate Survives(password: string) {
    && NoBreaks(password)
    && (WellFormed(password) || (|password| == PASSWORD_MAX_LEN && EndsTorn(password)))
  }

  lemma SurvivesPortalExactly(password: string)
    requires |password| <= PASSWORD_MAX_LEN
    ensures Clipped(Kept(password), PASSWORD_MAX_LEN) == password <==> Survives(password)
  {
    if NoBreaks(password) {
      RepairBreaksNothing(password);
      SanitisedIsSame(Repair(password));
      SurvivesExactly(password, PASSWORD_MAX_LEN);
    }
  }

  /** Through the whole portal, for every valid configuration: it fits its page, and posting the untouched form parses
      within the body limit to the configuration with its password as browsers keep it; the password is the same
      exactly if it survives. */
  lemma PortalRoundTrip(c: Config)
    requires Valid(c) && IsCText(c.password)
    ensures PageLength(c) < PAGE_SIZE && IsText(Read(c))
    ensures |Posted(Read(c))| <= MAX_FORM_BODY
    ensures var back := Parsed(DEFAULTS, Posted(Read(c)));
            && back == c.(password := Clipped(Kept(c.password), PASSWORD_MAX_LEN), reserved := ZEROS)
            && (back == c.(reserved := ZEROS) <==> Survives(c.password))
  {
    BrowserReads(c);
    ParsingUndoesPosting(Read(c));
    SurvivesPortalExactly(c.password);
  }

  /** What the portal promises is for ASCII: there only the line breaks are lost. */
  lemma AsciiRoundTrip(c: Config)
    requires Valid(c) && IsCText(c.password) && AllAscii(c.password)
    ensures IsText(Read(c))
    ensures Parsed(DEFAULTS, Posted(Read(c))) == c.(password := Sanitised(c.password), reserved := ZEROS)
    ensures Parsed(DEFAULTS, Posted(Read(c))) == c.(reserved := ZEROS) <==> NoBreaks(c.password)
  {
    PortalRoundTrip(c);
    AsciiIsWellFormed(c.password);
    RepairIsSameExactly(c.password);
  }

  function WithPassword(password: string): Config {
    Config("a", password, "h", "t", false, ZEROS)
  }

  lemma AnyPasswordIsValid(password: string)
    requires |password| <= PASSWORD_MAX_LEN
    ensures Valid(WithPassword(password))
  {
    assert "h"[0] == 'h' && HostStart("h") == 0;
  }

  lemma PasswordIsLost(password: string)
    requires |password| <= PASSWORD_MAX_LEN && IsCText(password) && !Survives(password)
    ensures var c := WithPassword(password);
            Valid(c) && IsText(Read(c)) && Parsed(DEFAULTS, Posted(Read(c))) != c
  {
    AnyPasswordIsValid(password);
    PortalRoundTrip(WithPassword(password));
  }

  lemma BreakDoesNotSurvive(password: string)
    requires password == ['\n']
    ensures IsCText(password) && !Survives(password)
  {
    assert IsBreak(password[0]);
  }

  lemma BadByteDoesNotSurvive(password: string)
    requires password == [0xFF as char]
    ensures IsCText(password) && !Survives(password)
  {
    assert !Unit(password).1;
  }

  /** Valid configurations that do not come back: their passwords are a line break, and a byte that is no UTF-8. */
  lemma SomePasswordsAreLost(lineBreak: string, badByte: string)
    requires lineBreak == ['\n'] && badByte == [0xFF as char]
    ensures var c, d := WithPassword(lineBreak), WithPassword(badByte);
            && Valid(c) && IsText(Read(c)) && Parsed(DEFAULTS, Posted(Read(c))) != c
            && Valid(d) && IsText(Read(d)) && Parsed(DEFAULTS, Posted(Read(d))) != d
  {
    BreakDoesNotSurvive(lineBreak);
    BadByteDoesNotSurvive(badByte);
    PasswordIsLost(lineBreak);
    PasswordIsLost(badByte);
  }

  // ---- the handlers ----

  /** What one receive call brings: nothing yet, a failure, or up to `count` bytes of what is due. */
  datatype Recv = Timeout | Failure | Bytes(count: nat)

  /** Reading a body of `len` bytes: whether the reads suffice, in the order they come. */
  predicate Reads(len: nat, total: nat, recvs: seq<Recv>)
    requires total <= len
    decreases |recvs|
  {
    if total == len then true
    else if recvs == [] then false
    else
      match recvs[0]
      case Timeout => Reads(len, total, recvs[1..])
      case Failure => false
      case Bytes(n) => n > 0 && Reads(len, if n < len - total then total + n else len, recvs[1..])
  }

  /** How many bytes these calls bring. */
  function Brought(recvs: seq<Recv>): nat {
    if recvs == [] then 0 else (if recvs[0].Bytes? then recvs[0].count else 0) + Brought(recvs[1..])
  }

  /** Calls that bring bytes or only time out. */
  predicate Sound(recvs: seq<Recv>) {
    forall i :: 0 <= i < |recvs| ==> recvs[i] != Failure && recvs[i] != Bytes(0)
  }

  lemma SoundUnfolds(recvs: seq<Recv>, k: nat)
    requires 1 <= k <= |recvs|
    ensures var rest := recvs[1..][..k - 1];
            && recvs[..k][1..] == rest
            && (Sound(recvs[..k]) <==> recvs[0] != Failure && recvs[0] != Bytes(0) && Sound(rest))
  {
    var some, rest := recvs[..k], recvs[1..][..k - 1];
    assert forall i :: 0 < i < k ==> some[i] == rest[i - 1];
  }

  lemma {:induction false} ReadsIsEnough(len: nat, total: nat, recvs: seq<Recv>) returns (k: nat)
    requires total <= len && Reads(len, total, recvs)
    ensures k <= |recvs| && Sound(recvs[..k]) && total + Brought(recvs[..k]) >= len
    decreases |recvs|
  {
    k := 0;
    if total < len {
      var n := if recvs[0].Bytes? then recvs[0].count else 0;
      k := ReadsIsEnough(len, if n < len - total then total + n else len, recvs[1..]);
      k := k + 1;
      SoundUnfolds(recvs, k);
    }
  }

  lemma {:induction false} EnoughIsReads(len: nat, total: nat, recvs: seq<Recv>, k: nat)
    requires total <= len && k <= |recvs| && Sound(recvs[..k]) && total + Brought(recvs[..k]) >= len
    ensures Reads(len, total, recvs)
    decreases |recvs|
  {
    if total < len {
      assert k > 0;
      SoundUnfolds(recvs, k);
      var n := if recvs[0].Bytes? then recvs[0].count else 0;
      EnoughIsReads(len, if n < len - total then total + n else len, recvs[1..], k - 1);
    }
  }

  /** A body is read exactly if the calls bring its bytes before one of them fails or finds the connection closed;
      timeouts among them are retried and change nothing. */
  lemma ReadsExactly(len: nat, recvs: seq<Recv>)
    ensures Reads(len, 0, recvs) <==>
            exists k :: 0 <= k <= |recvs| && Sound(recvs[..k]) && Brought(recvs[..k]) >= len
  {
    if Reads(len, 0, recvs) { var k := ReadsIsEnough(len, 0, recvs); }
    if k :| 0 <= k <= |recvs| && Sound(recvs[..k]) && Brought(recvs[..k]) >= len { EnoughIsReads(len, 0, recvs, k); }
  }

  /** The read loop of the save handler: a body over the limit is refused unread; else, however it is cut up and
      delayed, what is read is the body. */
  method ReadBody(sent: string, recvs: seq<Recv>) returns (ok: bool, body: string)
    ensures ok <==> |sent| <= 2048 && Reads(|sent|, 0, recvs)
    ensures ok ==> body == sent
  {
    body := "";
    if |sent| > MAX_FORM_BODY {
      return false, body;
    }
    var total, i := 0, 0;
    assert recvs[0..] == recvs;
    while total < |sent|
      invariant 0 <= total <= |sent| && i <= |recvs| && body == sent[..total]
      invariant Reads(|sent|, 0, recvs) == Reads(|sent|, total, recvs[i..])
      decreases |recvs| - i
    {
      if i == |recvs| {
        return false, body; // the connection never delivers the rest
      }
      assert recvs[i..][1..] == recvs[i + 1..];
      match recvs[i] {
        case Timeout =>
          i := i + 1;
          continue;
        case Failure => return false, body;
        case Bytes(n) =>
          if n == 0 {
            return false, body;
          }
          var got := if n < |sent| - total then n else |sent| - total;
          body := body + sent[total..total + got];
          total, i := total + got, i + 1;
      }
    }
    ok := true;
  }

  class Portal {
    const parser: Parser
    const store: Store

    ghost predicate Ready() {
      parser.Valid()
    }

    constructor (store: Store)
      ensures Ready() && this.store == store && fresh(parser)
    {
      parser := new Parser();
      this.store := store;
    }

    /** POST /save: an invalid submission, or a store that cannot be written, changes nothing. */
    method Save(body: string, writes: bool) returns (saved: bool)
      requires Ready()
      modifies store, parser.buf, parser.keyDec, parser.valDec
      ensures saved <==> Valid(Parsed(DEFAULTS, body)) && writes
      ensures !saved ==> store.cell == old(store.cell)
      ensures saved ==> Loaded(store.cell) == (Ok, Parsed(DEFAULTS, body).(reserved := ZEROS))
    {
      var cfg := parser.ParseForm(body, DEFAULTS);
      var ok := ConfigValidate(cfg);
      if !ok {
        return false;
      }
      var r := store.Save(cfg, writes);
      saved := r == Ok;
    }
  }

  /** Opening the portal and saving the untouched form leaves what is stored as it was, exactly if the password
      survives; otherwise the password is stored as browsers keep it. */
  method SaveUntouched(portal: Portal) returns (saved: bool)
    requires portal.Ready()
    requires var (st, c) := Loaded(portal.store.cell); st == Ok && IsCText(c.password)
    modifies portal.store, portal.parser.buf, portal.parser.keyDec, portal.parser.valDec
    ensures var c := old(Loaded(portal.store.cell)).1;
            var (st, back) := Loaded(portal.store.cell);
            && saved && st == Ok
            && back == c.(password := Clipped(Kept(c.password), PASSWORD_MAX_LEN), reserved := ZEROS)
            && (back == c.(reserved := ZEROS) <==> Survives(c.password))
  {
    var st, c := portal.store.Load();
    PortalRoundTrip(c);
    saved := portal.Save(Posted(Read(c)), true);
  }
}
