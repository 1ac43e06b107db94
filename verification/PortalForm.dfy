/** `parse_form` and what the browser posts: the whole way of a configuration through the portal. */
module PortalForm {
  import opened PortalText
  import opened ConfigStore

  const MAX_FORM_BODY: nat := 2048
  const KEY_ROOM: nat := 63

  /** The string before an embedded terminator. */
  function CString(s: string): (r: string)
    ensures |r| <= |s|
  {
    if s == "" || s[0] == '\0' then "" else [s[0]] + CString(s[1..])
  }

  /** strlcpy into a field of `max` characters. */
  function Clipped(s: string, max: nat): string {
    if |s| <= max then s else s[..max]
  }

  /** The first `c` from the front, or the length. */
  function IndexOf(s: string, c: char): (k: nat)
    ensures k <= |s| && (k < |s| ==> s[k] == c) && forall i :: 0 <= i < k ==> s[i] != c
  {
    if s == "" || s[0] == c then 0 else 1 + IndexOf(s[1..], c)
  }

  function Head(s: string): string {
    s[..IndexOf(s, '&')]
  }

  function Tail(s: string): (t: string)
    ensures s != "" ==> |t| < |s|
  {
    var k := IndexOf(s, '&');
    if k < |s| then s[k + 1..] else ""
  }

  function OneToken(t: string): seq<string> {
    if t == "" then [] else [t]
  }

  /** The nonempty pieces between ampersands. */
  function Tokens(s: string): seq<string>
    decreases |s|
  {
    if s == "" then [] else OneToken(Head(s)) + Tokens(Tail(s))
  }

  datatype Key = Ssid | Password | Host | Token | AutoFlash | Unknown

  function KeyOf(name: string): Key {
    if name == "ssid" then Ssid
    else if name == "pass" then Password
    else if name == "host" then Host
    else if name == "token" then Token
    else if name == "auto_flash" then AutoFlash
    else Unknown
  }

  function Set(c: Config, key: Key, val: string): Config {
    match key
    case Ssid => c.(ssid := Clipped(val, SSID_MAX_LEN))
    case Password => c.(password := Clipped(val, PASSWORD_MAX_LEN))
    case Host => c.(host := Clipped(val, HOST_MAX_LEN))
    case Token => c.(token := Clipped(val, TOKEN_MAX_LEN))
    case AutoFlash => c.(autoFlash := true)
    case Unknown => c
  }

  /** One `key=value`; a piece without `=` or with a malformed or oversized half is ignored. */
  function Apply(c: Config, token: string): Config {
    var k := IndexOf(token, '=');
    if k == |token| then c
    else
      match (UrlDecode(token[..k], KEY_ROOM), UrlDecode(token[k + 1..], MAX_FORM_BODY))
      case (Decoded(key), Decoded(val)) => Set(c, KeyOf(CString(key)), CString(val))
      case _ => c
  }

  function ApplyAll(c: Config, tokens: seq<string>): Config
    decreases |tokens|
  {
    if tokens == [] then c else ApplyAll(Apply(c, tokens[0]), tokens[1..])
  }

  /** What a body says up to its first terminator, over a configuration. */
  function Parsed(c: Config, body: string): Config {
    ApplyAll(c, Tokens(Clipped(CString(body), MAX_FORM_BODY)))
  }

  lemma {:induction false} ApplyAllAppends(c: Config, a: seq<string>, b: seq<string>)
    ensures ApplyAll(c, a + b) == ApplyAll(ApplyAll(c, a), b)
    decreases |a|
  {
    if a == [] {
      assert a + b == b;
    } else {
      assert (a + b)[1..] == a[1..] + b;
      ApplyAllAppends(Apply(c, a[0]), a[1..], b);
    }
  }

  lemma ApplyOne(c: Config, token: string)
    ensures ApplyAll(c, [token]) == Apply(c, token)
  {
    var rest: seq<string> := [token][1..];
    assert rest == [] && ApplyAll(c, [token]) == ApplyAll(Apply(c, token), rest);
  }

  lemma MoveToken(got: seq<string>, token: string, rest: seq<string>)
    ensures got + (OneToken(token) + rest) == (got + OneToken(token)) + rest
  {
  }

  lemma IndexIs(s: string, c: char, k: nat)
    requires k <= |s| && (k < |s| ==> s[k] == c) && forall i :: 0 <= i < k ==> s[i] != c
    ensures IndexOf(s, c) == k
  {
  }

  lemma TokensUnfold(s: string)
    requires s != ""
    ensures Tokens(s) == OneToken(Head(s)) + Tokens(Tail(s))
  {
  }

  lemma Slices(t: string, pos: nat, k: nat)
    requires pos + k <= |t|
    ensures t[pos..][..k] == t[pos..pos + k] && t[pos..][k..] == t[pos + k..]
  {
  }

  lemma TailOfSlice(t: string, pos: nat, next: nat, n: nat)
    requires pos <= next <= n <= |t|
    ensures t[pos..n][next - pos..] == t[next..n]
  {
  }

  /** Where the token after the one from `pos` on begins. */
  function NextStart(text: string, pos: nat): (next: nat)
    requires pos < |text|
    ensures pos < next <= |text|
  {
    var k := IndexOf(text[pos..], '&');
    if pos + k < |text| then pos + k + 1 else |text|
  }

  lemma NextHead(text: string, pos: nat)
    requires pos < |text|
    ensures var k := IndexOf(text[pos..], '&'); Head(text[pos..]) == text[pos..pos + k]
  {
    Slices(text, pos, IndexOf(text[pos..], '&'));
  }

  lemma NextTail(text: string, pos: nat)
    requires pos < |text|
    ensures Tail(text[pos..]) == text[NextStart(text, pos)..]
  {
    var k := IndexOf(text[pos..], '&');
    if pos + k < |text| { Slices(text, pos, k + 1); }
  }

  /** The rest of a body from `pos` on, one token further. */
  lemma NextToken(text: string, pos: nat)
    requires pos < |text|
    ensures var k := IndexOf(text[pos..], '&');
            Tokens(text[pos..]) == OneToken(text[pos..pos + k]) + Tokens(text[NextStart(text, pos)..])
  {
    TokensUnfold(text[pos..]);
    NextHead(text, pos);
    NextTail(text, pos);
  }

  // ---- the parser on its buffers ----

  class Parser {
    const buf: array<char>
    const keyDec: array<char>
    const valDec: array<char>

    ghost predicate Valid() {
      && buf.Length == valDec.Length == MAX_FORM_BODY + 1 && keyDec.Length == KEY_ROOM + 1
      && buf != keyDec && buf != valDec && keyDec != valDec
    }

    constructor ()
      ensures Valid() && fresh(buf) && fresh(keyDec) && fresh(valDec)
    {
      buf := new char[MAX_FORM_BODY + 1](_ => '\0');
      keyDec := new char[KEY_ROOM + 1](_ => '\0');
      valDec := new char[MAX_FORM_BODY + 1](_ => '\0');
    }

    /** One token, already cut out of the buffer. */
    method ApplyToken(c: Config, token: string) returns (r: Config)
      requires Valid()
      modifies keyDec, valDec
      ensures r == Apply(c, token)
    {
      r := c;
      var eq := IndexOf(token, '=');
      if eq == |token| {
        return;
      }
      var keyOk, k := UrlDecodeInto(token[..eq], keyDec);
      var valOk, v := UrlDecodeInto(token[eq + 1..], valDec);
      if !keyOk || !valOk {
        return;
      }
      r := Set(c, KeyOf(CString(keyDec[..k])), CString(valDec[..v]));
    }

    method Fill(body: string, n: nat)
      requires Valid() && n <= |body| && n <= MAX_FORM_BODY
      modifies buf
      ensures buf[..n] == body[..n] && buf[n] == '\0'
    {
      forall i | 0 <= i < buf.Length {
        buf[i] := if i < n then body[i] else '\0';
      }
    }

    /** A terminator at `at`, before what is still to be read. */
    method Terminate(at: nat, next: nat, n: nat)
      requires at < buf.Length && next <= n <= buf.Length && (at < next || at >= n)
      modifies buf
      ensures buf[next..n] == old(buf[next..n])
    {
      buf[at] := '\0';
    }

    /** The token from `pos` on, terminated in place where its ampersand stood. */
    method CutToken(pos: nat, n: nat, ghost text: string) returns (next: nat, token: string)
      requires Valid() && pos < n == |text| <= MAX_FORM_BODY && buf[pos..n] == text[pos..]
      modifies buf
      ensures pos < next <= n && buf[next..n] == text[next..]
      ensures Tokens(text[pos..]) == OneToken(token) + Tokens(text[next..])
    {
      var rest := buf[pos..n];
      var k := IndexOf(rest, '&');
      token, next := rest[..k], if pos + k < n then pos + k + 1 else n;
      NextToken(text, pos);
      Slices(text, pos, k);
      Slices(text, pos, next - pos);
      TailOfSlice(buf[..], pos, next, n);
      assert buf[pos..n] == buf[..][pos..n] && buf[next..n] == buf[..][next..n];
      Terminate(pos + k, next, n);
    }

    /** Splits the body in place and applies its tokens in order. */
    method ParseForm(body: string, c0: Config) returns (c: Config)
      requires Valid()
      modifies buf, keyDec, valDec
      ensures c == Parsed(c0, body)
    {
      var text := CString(body);
      var n := if |text| <= MAX_FORM_BODY then |text| else MAX_FORM_BODY;
      Fill(text, n);
      assert Clipped(text, MAX_FORM_BODY) == text[..n];
      c := ParseText(n, text[..n], c0);
    }

    method ParseText(n: nat, ghost text: string, c0: Config) returns (c: Config)
      requires Valid() && n == |text| <= MAX_FORM_BODY && buf[..n] == text
      modifies buf, keyDec, valDec
      ensures c == ApplyAll(c0, Tokens(text))
    {
      var pos: nat := 0;
      ghost var got: seq<string> := [];
      c := c0;
      assert text[0..] == text;
      while pos < n
        invariant pos <= n && buf[pos..n] == text[pos..]
        invariant got + Tokens(text[pos..]) == Tokens(text) && c == ApplyAll(c0, got)
      {
        var next, token := CutToken(pos, n, text);
        MoveToken(got, token, Tokens(text[next..]));
        c := ApplyNonempty(c0, got, c, token);
        got := got + OneToken(token);
        pos := next;
      }
      assert text[pos..] == "" && got + [] == got;
    }

    method ApplyNonempty(ghost c0: Config, ghost got: seq<string>, c: Config, token: string) returns (r: Config)
      requires Valid() && c == ApplyAll(c0, got)
      modifies keyDec, valDec
      ensures r == ApplyAll(c0, got + OneToken(token))
    {
      r := c;
      if token != "" {
        ApplyAllAppends(c0, got, [token]);
        ApplyOne(c, token);
        r := ApplyToken(c, token);
      } else {
        assert got + OneToken(token) == got;
      }
    }
  }
}
