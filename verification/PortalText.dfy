/** The portal's text codecs: HTML escaping into the form, and decoding of what the browser posts back.
    Characters are bytes; a C string is its characters before the terminator. */
module PortalText {

  // ---- HTML escaping ----

  function EscapeChar(c: char): (r: string)
    ensures 1 <= |r| <= 6
  {
    match c
    case '&' => "&amp;"
    case '<' => "&lt;"
    case '>' => "&gt;"
    case '"' => "&quot;"
    case '\'' => "&#39;"
    case _ => [c]
  }

  function Escape(s: string): string {
    if s == "" then "" else EscapeChar(s[0]) + Escape(s[1..])
  }

  /** How many characters are escaped before the room guard of a buffer of `cap` stops at output offset `o`. */
  function Escaped(s: string, o: nat, cap: nat): (k: nat)
    ensures k <= |s|
    decreases |s|
  {
    if s == "" || o + 6 >= cap then 0 else 1 + Escaped(s[1..], o + |EscapeChar(s[0])|, cap)
  }

  lemma {:induction false} EscapeAppends(a: string, b: string)
    ensures Escape(a + b) == Escape(a) + Escape(b)
    decreases |a|
  {
    if a == "" {
      assert a + b == b;
    } else {
      assert (a + b)[1..] == a[1..] + b;
      EscapeAppends(a[1..], b);
    }
  }

  lemma EscapeGrows(a: string, c: char)
    ensures Escape(a + [c]) == Escape(a) + EscapeChar(c)
  {
    EscapeAppends(a, [c]);
    assert [c][1..] == "" && Escape([c]) == EscapeChar(c) + Escape("");
  }

  lemma {:induction false} EscapeLength(s: string)
    ensures |s| <= |Escape(s)| <= 6 * |s|
  {
    if s != "" { EscapeLength(s[1..]); }
  }

  method EscapeOne(c: char, dst: array<char>, o: nat) returns (n: nat)
    requires o + 6 <= dst.Length
    modifies dst
    ensures n == |EscapeChar(c)| && dst[..o + n] == old(dst[..o]) + EscapeChar(c)
  {
    var repl := EscapeChar(c);
    n := |repl|;
    forall i | 0 <= i < n {
      dst[o + i] := repl[i];
    }
  }

  lemma EscapeStep(s: string, p: nat, o: nat, n: nat, cap: nat)
    requires p < |s| && o + 6 < cap && n == |EscapeChar(s[p])|
    ensures Escaped(s[p..], o, cap) == 1 + Escaped(s[p + 1..], o + n, cap)
    ensures Escape(s[..p + 1]) == Escape(s[..p]) + EscapeChar(s[p])
  {
    assert s[p..][1..] == s[p + 1..] && s[..p + 1] == s[..p] + [s[p]];
    EscapeGrows(s[..p], s[p]);
  }

  lemma EscapeEnds(s: string, p: nat, o: nat, cap: nat)
    requires p <= |s| && (p < |s| ==> o + 6 >= cap)
    ensures Escaped(s[p..], o, cap) == 0
  {
  }

  /** Escapes into `dst` while a longest replacement and the terminator still fit. */
  method HtmlEscape(src: string, dst: array<char>) returns (o: nat)
    requires dst.Length > 0
    modifies dst
    ensures o < dst.Length && dst[o] == '\0'
    ensures dst[..o] == Escape(src[..Escaped(src, 0, dst.Length)])
  {
    o := 0;
    var p := 0;
    assert src[0..] == src;
    while p < |src| && o + 6 < dst.Length
      invariant p <= |src| && o < dst.Length
      invariant dst[..o] == Escape(src[..p])
      invariant Escaped(src, 0, dst.Length) == p + Escaped(src[p..], o, dst.Length)
    {
      var n := EscapeOne(src[p], dst, o);
      EscapeStep(src, p, o, n, dst.Length);
      o, p := o + n, p + 1;
    }
    EscapeEnds(src, p, o, dst.Length);
    dst[o] := '\0';
  }

  /** With six bytes a character and one for the terminator nothing is cut off. */
  lemma {:induction false} RoomForAll(s: string, o: nat, cap: nat)
    requires o + 6 * |s| < cap
    ensures Escaped(s, o, cap) == |s|
    decreases |s|
  {
    if s != "" { RoomForAll(s[1..], o + |EscapeChar(s[0])|, cap); }
  }

  lemma {:induction false} QuotesNeedAll(n: nat, o: nat, cap: nat)
    requires cap == o + 6 * n
    ensures Escaped(seq(n, _ => '"'), o, cap) == if n == 0 then 0 else n - 1
    decreases n
  {
    if n > 0 {
      var s := seq(n, _ => '"');
      assert s[1..] == seq(n - 1, _ => '"');
      QuotesNeedAll(n - 1, o + 6, cap);
    }
  }

  /** The buffers of `6 * max + 1` bytes are exact: no field of up to `max` characters is truncated in them, and
      with one byte less a field of quotes is. */
  lemma BufferIsExact(s: string, max: nat)
    requires 0 < max
    ensures |s| <= max ==> Escaped(s, 0, 6 * max + 1) == |s|
    ensures Escaped(seq(max, _ => '"'), 0, 6 * max) == max - 1
  {
    if |s| <= max { RoomForAll(s, 0, 6 * max + 1); }
    QuotesNeedAll(max, 0, 6 * max);
  }

  // ---- what the browser reads in an attribute ----

  predicate StartsWith(s: string, p: string) {
    |p| <= |s| && s[..|p|] == p
  }

  /** The character at the front and how many characters spell it: one of the five references, or itself. */
  function ReadOne(s: string): (r: (char, nat))
    requires s != ""
    ensures 1 <= r.1 <= |s|
  {
    if s[0] != '&' then (s[0], 1)
    else if StartsWith(s, "&amp;") then ('&', 5)
    else if StartsWith(s, "&lt;") then ('<', 4)
    else if StartsWith(s, "&gt;") then ('>', 4)
    else if StartsWith(s, "&quot;") then ('"', 6)
    else if StartsWith(s, "&#39;") then ('\'', 5)
    else ('&', 1)
  }

  function Unescape(s: string): string
    decreases |s|
  {
    if s == "" then "" else [ReadOne(s).0] + Unescape(s[ReadOne(s).1..])
  }

  lemma NotPrefix(s: string, p: string, i: nat)
    requires i < |p| && (i < |s| ==> s[i] != p[i])
    ensures !StartsWith(s, p)
  {
    if |p| <= |s| { assert s[..|p|][i] == s[i]; }
  }

  lemma ReadsReference(c: char, rest: string)
    requires c in {'&', '<', '>', '"', '\''}
    ensures ReadOne(EscapeChar(c) + rest) == (c, |EscapeChar(c)|)
  {
    var e := EscapeChar(c);
    var s := e + rest;
    assert s[..|e|] == e && s[1] == e[1];
    if c != '&' { NotPrefix(s, "&amp;", 1); }
    if c != '<' { NotPrefix(s, "&lt;", 1); }
    if c != '>' { NotPrefix(s, "&gt;", 1); }
    if c != '"' { NotPrefix(s, "&quot;", 1); }
  }

  lemma UnescapeChar(c: char, rest: string)
    ensures Unescape(EscapeChar(c) + rest) == [c] + Unescape(rest)
  {
    var e := EscapeChar(c);
    if c in {'&', '<', '>', '"', '\''} { ReadsReference(c, rest); }
    assert (e + rest)[|e|..] == rest && (e + rest)[0] == e[0];
  }

  /** A browser reads back every field that was escaped, whatever it holds. */
  lemma {:induction false} UnescapeEscape(s: string)
    ensures Unescape(Escape(s)) == s
  {
    if s != "" {
      UnescapeChar(s[0], Escape(s[1..]));
      UnescapeEscape(s[1..]);
    }
  }

  // ---- form-urlencoding ----

  predicate IsByte(c: char) {
    c as int < 256
  }

  predicate AllBytes(s: string) {
    forall i :: 0 <= i < |s| ==> IsByte(s[i])
  }

  function HexVal(c: char): int {
    if '0' <= c <= '9' then c as int - '0' as int
    else if 'a' <= c <= 'f' then c as int - 'a' as int + 10
    else if 'A' <= c <= 'F' then c as int - 'A' as int + 10
    else -1
  }

  function HexDigit(n: int): (c: char)
    requires 0 <= n < 16
    ensures HexVal(c) == n && IsByte(c)
  {
    if n < 10 then (n + '0' as int) as char else (n - 10 + 'A' as int) as char
  }

  datatype Decoded = Decoded(text: string) | TooLong | Malformed

  function Push(c: char, d: Decoded): Decoded {
    match d
    case Decoded(t) => Decoded([c] + t)
    case _ => d
  }

  /** Decoding with room for `room` more characters: `+` is a blank, `%HH` a byte, and a cut or wrong triple an
      error. */
  function UrlDecode(s: string, room: nat): Decoded
    decreases |s|
  {
    if s == "" then Decoded("")
    else if room == 0 then TooLong
    else if s[0] == '+' then Push(' ', UrlDecode(s[1..], room - 1))
    else if s[0] == '%' then
      if |s| < 3 then Malformed
      else
        var hi, lo := HexVal(s[1]), HexVal(s[2]);
        if hi < 0 || lo < 0 then Malformed else Push((16 * hi + lo) as char, UrlDecode(s[3..], room - 1))
    else Push(s[0], UrlDecode(s[1..], room - 1))
  }

  /** What is decoded so far, before what is still to come. */
  function After(done: string, d: Decoded): Decoded {
    match d
    case Decoded(t) => Decoded(done + t)
    case _ => d
  }

  /** The character coded at `p` and how many characters code it; none if they are malformed. */
  function CodeAt(s: string, p: nat): (r: (char, nat))
    requires p < |s|
    ensures p + r.1 <= |s|
  {
    if s[p] == '+' then (' ', 1)
    else if s[p] != '%' then (s[p], 1)
    else if p + 2 >= |s| || HexVal(s[p + 1]) < 0 || HexVal(s[p + 2]) < 0 then (s[p], 0)
    else ((16 * HexVal(s[p + 1]) + HexVal(s[p + 2])) as char, 3)
  }

  lemma DecodeUnfolds(s: string, p: nat, room: nat)
    requires p < |s| && room > 0
    ensures var (c, n) := CodeAt(s, p);
            UrlDecode(s[p..], room) == if n == 0 then Malformed else Push(c, UrlDecode(s[p + n..], room - 1))
  {
    var rest, n := s[p..], CodeAt(s, p).1;
    assert rest[0] == s[p] && rest[n..] == s[p + n..];
    if p + 2 < |s| { assert rest[1] == s[p + 1] && rest[2] == s[p + 2]; }
  }

  method ReadCode(src: string, p: nat) returns (ok: bool, c: char, n: nat)
    requires p < |src|
    ensures (c, if ok then n else 0) == CodeAt(src, p) && (ok ==> n > 0)
  {
    c, n := src[p], 1;
    if src[p] == '+' {
      c := ' ';
    } else if src[p] == '%' {
      if p + 2 >= |src| {
        return false, c, n;
      }
      var hi, lo := HexVal(src[p + 1]), HexVal(src[p + 2]);
      if hi < 0 || lo < 0 {
        return false, c, n;
      }
      c, n := (16 * hi + lo) as char, 3;
    }
    ok := true;
  }

  /** One turn of the decoder's loop: a character is written, or the rest cannot be decoded into the room left. */
  method DecodeNext(src: string, p: nat, dst: array<char>, o: nat) returns (ok: bool, n: nat)
    requires p < |src| && o < dst.Length
    modifies dst
    ensures p + n <= |src|
    ensures !ok ==> !UrlDecode(src[p..], dst.Length - 1 - o).Decoded?
    ensures ok ==> n > 0 && o + 1 < dst.Length
    ensures ok ==> After(old(dst[..o]), UrlDecode(src[p..], dst.Length - 1 - o)) ==
                   After(dst[..o + 1], UrlDecode(src[p + n..], dst.Length - 2 - o))
  {
    if o >= dst.Length - 1 {
      return false, 0;
    }
    DecodeUnfolds(src, p, dst.Length - 1 - o);
    var good, c, len := ReadCode(src, p);
    if !good {
      return false, 0;
    }
    AfterPush(dst[..o], c, UrlDecode(src[p + len..], dst.Length - 2 - o));
    ghost var done := dst[..o];
    dst[o] := c;
    assert dst[..o + 1] == done + [c];
    ok, n := true, len;
  }

  /** The decoder on its buffer: it writes nothing past it and leaves a terminated string when it succeeds. */
  method UrlDecodeInto(src: string, dst: array<char>) returns (ok: bool, o: nat)
    requires dst.Length > 0
    modifies dst
    ensures ok <==> UrlDecode(src, dst.Length - 1).Decoded?
    ensures ok ==> o < dst.Length && dst[o] == '\0' && UrlDecode(src, dst.Length - 1) == Decoded(dst[..o])
  {
    o := 0;
    var p := 0;
    ghost var goal := UrlDecode(src, dst.Length - 1);
    AfterNothing(src, dst.Length - 1);
    while p < |src|
      invariant p <= |src| && o < dst.Length
      invariant After(dst[..o], UrlDecode(src[p..], dst.Length - 1 - o)) == goal
    {
      var more, n := DecodeNext(src, p, dst, o);
      if !more {
        return false, o;
      }
      o, p := o + 1, p + n;
    }
    DecodeAtEnd(src, dst.Length - 1 - o, dst[..o]);
    dst[o] := '\0';
    ok := true;
  }

  lemma DecodeAtEnd(src: string, room: nat, done: string)
    ensures After(done, UrlDecode(src[|src|..], room)) == Decoded(done)
  {
    assert src[|src|..] == "" && done + "" == done;
    DecodeNothing(room);
  }

  lemma AfterNothing(src: string, room: nat)
    ensures src[0..] == src && After("", UrlDecode(src, room)) == UrlDecode(src, room)
  {
    var d := UrlDecode(src, room);
    if d.Decoded? { assert "" + d.text == d.text; }
  }

  lemma AfterPush(done: string, c: char, d: Decoded)
    ensures After(done, Push(c, d)) == After(done + [c], d)
  {
    if d.Decoded? { assert done + ([c] + d.text) == (done + [c]) + d.text; }
  }

  /** Left as they are by the form-urlencoded serializer of section 5 of the WHATWG URL Standard. */
  predicate Plain(c: char) {
    '0' <= c <= '9' || 'A' <= c <= 'Z' || 'a' <= c <= 'z' || c == '*' || c == '-' || c == '.' || c == '_'
  }

  /** A blank becomes `+`, every other byte a percent triple of section 2.1 of RFC 3986. */
  function EncodeChar(c: char): string
    requires IsByte(c)
  {
    if Plain(c) then [c]
    else if c == ' ' then "+"
    else ['%', HexDigit(c as int / 16), HexDigit(c as int % 16)]
  }

  function UrlEncode(s: string): string
    requires AllBytes(s)
  {
    if s == "" then "" else EncodeChar(s[0]) + UrlEncode(s[1..])
  }

  lemma HexPair(c: char)
    requires IsByte(c)
    ensures (16 * HexVal(HexDigit(c as int / 16)) + HexVal(HexDigit(c as int % 16))) as char == c
  {
  }

  function UpTo(s: string, room: nat): Decoded {
    if |s| <= room then Decoded(s) else TooLong
  }

  lemma DecodeOne(c: char, rest: string, tail: string, room: nat)
    requires IsByte(c) && room > 0 && UrlDecode(rest, room - 1) == UpTo(tail, room - 1)
    ensures UrlDecode(EncodeChar(c) + rest, room) == UpTo([c] + tail, room)
  {
    var e := EncodeChar(c);
    var s := e + rest;
    assert s[0] == e[0] && s[|e|..] == rest;
    if |e| == 3 {
      assert s[1] == e[1] && s[2] == e[2];
      HexPair(c);
    }
  }

  lemma EncodeUnfolds(s: string)
    requires AllBytes(s) && s != ""
    ensures AllBytes(s[1..]) && UrlEncode(s) == EncodeChar(s[0]) + UrlEncode(s[1..])
  {
  }

  lemma DecodeNothing(room: nat)
    ensures UrlDecode("", room) == Decoded("")
  {
  }

  lemma DecodeWithoutRoom(s: string)
    requires s != ""
    ensures UrlDecode(s, 0) == TooLong
  {
  }

  /** Decoding undoes encoding, up to the room there is. */
  lemma {:induction false} DecodeEncode(s: string, room: nat)
    requires AllBytes(s)
    ensures UrlDecode(UrlEncode(s), room) == UpTo(s, room)
    decreases |s|
  {
    if s == "" {
      assert UrlEncode(s) == "";
      DecodeNothing(room);
    } else {
      EncodeUnfolds(s);
      if room == 0 {
        DecodeWithoutRoom(UrlEncode(s));
      } else {
        DecodeEncode(s[1..], room - 1);
        DecodeOne(s[0], UrlEncode(s[1..]), s[1..], room);
        assert [s[0]] + s[1..] == s;
      }
    }
  }

  /** Encoded text is at most three times as long and holds no separator of the form. */
  lemma {:induction false} EncodedIsClean(s: string)
    requires AllBytes(s)
    ensures |s| <= |UrlEncode(s)| <= 3 * |s|
    ensures forall i :: 0 <= i < |UrlEncode(s)| ==>
              UrlEncode(s)[i] != '&' && UrlEncode(s)[i] != '=' && UrlEncode(s)[i] != '\0'
  {
    if s != "" { EncodedIsClean(s[1..]); }
  }
}
