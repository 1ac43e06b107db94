/** What the portal's codecs and parser make of any text at all, not only of what they or a browser wrote. */
module PortalSpelling {
  import opened PortalText
  import opened ConfigStore
  import opened PortalForm

  // ---- escaping ----

  predicate OpensReference(s: string) {
    StartsWith(s, "&amp;") || StartsWith(s, "&lt;") || StartsWith(s, "&gt;") || StartsWith(s, "&quot;")
    || StartsWith(s, "&#39;")
  }

  /** Text that stays text inside a quoted attribute: no markup, no quotes, and ampersands only in references. */
  predicate IsInert(s: string) {
    forall i :: 0 <= i < |s| ==>
      s[i] != '<' && s[i] != '>' && s[i] != '"' && s[i] != '\'' && (s[i] == '&' ==> OpensReference(s[i..]))
  }

  lemma CharIsInert(c: char, rest: string)
    ensures var e := EscapeChar(c);
            forall i :: 0 <= i < |e| ==>
              e[i] != '<' && e[i] != '>' && e[i] != '"' && e[i] != '\''
              && (e[i] == '&' ==> i == 0 && OpensReference(e + rest))
  {
    var e := EscapeChar(c);
    assert (e + rest)[..|e|] == e;
  }

  /** Nothing that is escaped can leave its attribute. */
  lemma {:induction false} EscapedIsInert(s: string)
    ensures IsInert(Escape(s))
  {
    if s != "" {
      var e, rest := EscapeChar(s[0]), Escape(s[1..]);
      var all := e + rest;
      CharIsInert(s[0], rest);
      EscapedIsInert(s[1..]);
      forall i | 0 <= i < |all|
        ensures all[i] != '<' && all[i] != '>' && all[i] != '"' && all[i] != '\''
        ensures all[i] == '&' ==> OpensReference(all[i..])
      {
        if i < |e| {
          assert all[i] == e[i];
          if i == 0 { assert all[0..] == all; }
        } else {
          assert all[i] == rest[i - |e|] && all[i..] == rest[i - |e|..];
        }
      }
    }
  }

  lemma {:induction false} EscapedFrom(s: string, o: nat, cap: nat, j: nat)
    requires j <= Escaped(s, o, cap)
    ensures j < Escaped(s, o, cap) ==> o + |Escape(s[..j])| + 6 < cap
    ensures j == Escaped(s, o, cap) < |s| ==> o + |Escape(s[..j])| + 6 >= cap
    decreases |s|
  {
    if j > 0 {
      EscapedFrom(s[1..], o + |EscapeChar(s[0])|, cap, j - 1);
      assert s[..j][1..] == s[1..][..j - 1] && s[..j][0] == s[0];
    }
  }

  /** The escaper stops exactly where what is written leaves no room for a longest replacement and the terminator. */
  lemma EscapedExactly(s: string, cap: nat)
    ensures var k := Escaped(s, 0, cap);
            && (forall j :: 0 <= j < k ==> |Escape(s[..j])| + 6 < cap)
            && (k < |s| ==> |Escape(s[..k])| + 6 >= cap)
  {
    var k := Escaped(s, 0, cap);
    forall j | 0 <= j < k
      ensures |Escape(s[..j])| + 6 < cap
    {
      EscapedFrom(s, 0, cap, j);
    }
    EscapedFrom(s, 0, cap, k);
  }

  // ---- form-urlencoding ----

  /** The ASCII codes of a digit, and of a letter in either case. */
  predicate IsHexOf(c: char, n: int) {
    (0 <= n < 10 && c as int == 48 + n) || (10 <= n < 16 && (c as int == 87 + n || c as int == 55 + n))
  }

  /** The codes of a character: itself, unless it is `+` or `%`; `+` for a blank; or its triple, in digits of either
      case. */
  predicate IsCodeOf(code: string, c: char) {
    || (code == [c] && c != '+' && c != '%')
    || (code == "+" && c == ' ')
    || (&& |code| == 3 && code[0] == '%' && IsByte(c)
        && IsHexOf(code[1], c as int / 16) && IsHexOf(code[2], c as int % 16))
  }

  /** The text is a row of codes of these characters. */
  ghost predicate Spells(s: string, t: string)
    decreases |t|
  {
    if t == "" then s == ""
    else exists n :: 1 <= n <= |s| && IsCodeOf(s[..n], t[0]) && Spells(s[n..], t[1..])
  }

  lemma HexExactly(c: char, n: int)
    ensures IsHexOf(c, n) <==> HexVal(c) == n && n >= 0
  {
  }

  lemma CodeIsRead(s: string, n: nat, c: char)
    requires 1 <= n <= |s| && IsCodeOf(s[..n], c)
    ensures CodeAt(s, 0) == (c, n)
  {
    assert s[0] == s[..n][0];
    if n == 3 {
      assert s[1] == s[..n][1] && s[2] == s[..n][2];
      HexExactly(s[1], c as int / 16);
      HexExactly(s[2], c as int % 16);
    }
  }

  lemma ReadIsCode(s: string)
    requires s != "" && CodeAt(s, 0).1 > 0
    ensures IsCodeOf(s[..CodeAt(s, 0).1], CodeAt(s, 0).0)
  {
    var (c, n) := CodeAt(s, 0);
    if n == 3 {
      HexExactly(s[1], c as int / 16);
      HexExactly(s[2], c as int % 16);
    } else {
      assert s[..1] == [s[0]];
    }
  }

  lemma DecodesFirst(s: string, room: nat)
    requires s != "" && room > 0
    ensures var (c, n) := CodeAt(s, 0);
            UrlDecode(s, room) == if n == 0 then Malformed else Push(c, UrlDecode(s[n..], room - 1))
  {
    DecodeUnfolds(s, 0, room);
    assert s[0..] == s;
  }

  lemma {:induction false} DecodedIsSpelled(s: string, room: nat, t: string)
    requires UrlDecode(s, room) == Decoded(t)
    ensures Spells(s, t) && |t| <= room
    decreases |s|
  {
    if s != "" {
      DecodesFirst(s, room);
      var n := CodeAt(s, 0).1;
      ReadIsCode(s);
      DecodedIsSpelled(s[n..], room - 1, t[1..]);
      assert 1 <= n <= |s| && IsCodeOf(s[..n], t[0]) && Spells(s[n..], t[1..]);
    }
  }

  lemma DecodesCode(s: string, n: nat, c: char, room: nat, t: string)
    requires 1 <= n <= |s| && IsCodeOf(s[..n], c) && room > 0 && UrlDecode(s[n..], room - 1) == Decoded(t)
    ensures UrlDecode(s, room) == Decoded([c] + t)
  {
    CodeIsRead(s, n, c);
    DecodesFirst(s, room);
  }

  lemma FirstCode(s: string, t: string) returns (n: nat)
    requires Spells(s, t) && t != ""
    ensures 1 <= n <= |s| && IsCodeOf(s[..n], t[0]) && Spells(s[n..], t[1..])
  {
    n :| 1 <= n <= |s| && IsCodeOf(s[..n], t[0]) && Spells(s[n..], t[1..]);
  }

  lemma {:induction false} SpelledIsDecoded(s: string, room: nat, t: string)
    requires Spells(s, t) && |t| <= room
    ensures UrlDecode(s, room) == Decoded(t)
    decreases |t|
  {
    if t != "" {
      var n := FirstCode(s, t);
      SpelledIsDecoded(s[n..], room - 1, t[1..]);
      DecodesCode(s, n, t[0], room, t[1..]);
      assert t == [t[0]] + t[1..];
    }
  }

  /** The decoder gives a text exactly if it fits and what is decoded spells it. */
  lemma DecodedExactly(s: string, room: nat, t: string)
    ensures UrlDecode(s, room) == Decoded(t) <==> Spells(s, t) && |t| <= room
  {
    if UrlDecode(s, room) == Decoded(t) { DecodedIsSpelled(s, room, t); }
    if Spells(s, t) && |t| <= room { SpelledIsDecoded(s, room, t); }
  }

  // ---- the parser ----

  predicate Lacks(s: string, c: char) {
    forall i :: 0 <= i < |s| ==> s[i] != c
  }

  lemma IndexBefore(a: string, c: char, b: string)
    requires Lacks(a, c)
    ensures var s := a + [c] + b; IndexOf(s, c) == |a| < |s| && s[..|a|] == a && s[|a| + 1..] == b
  {
    var s := a + [c] + b;
    assert forall i :: 0 <= i < |a| ==> s[i] == a[i];
    assert s[|a|] == c;
  }

  /** A C string ends at its first terminator. */
  lemma {:induction false} CStringExactly(a: string, b: string)
    requires Lacks(a, '\0')
    ensures CString(a) == a && CString(a + ['\0'] + b) == a
    decreases |a|
  {
    if a != "" {
      CStringExactly(a[1..], b);
      assert (a + ['\0'] + b)[1..] == a[1..] + ['\0'] + b && a == [a[0]] + a[1..];
    }
  }

  lemma HeadOfPlain(a: string, b: string)
    requires Lacks(a, '&')
    ensures var s := a + ['&'] + b; Head(s) == a && Tail(s) == b && Head(a) == a && Tail(a) == ""
  {
    IndexBefore(a, '&', b);
    IndexIs(a, '&', |a|);
  }

  lemma HeadOfOther(a: string, b: string)
    requires !Lacks(a, '&')
    ensures a != "" && var s := a + ['&'] + b; Head(s) == Head(a) && Tail(s) == Tail(a) + ['&'] + b
  {
    var s, k := a + ['&'] + b, IndexOf(a, '&');
    assert k < |a|;
    assert forall i :: 0 <= i < |a| ==> s[i] == a[i];
    IndexIs(s, '&', k);
    assert s[..k] == a[..k] && s[k + 1..] == a[k + 1..] + ['&'] + b;
  }

  lemma PlainIsOneToken(a: string)
    requires Lacks(a, '&')
    ensures Tokens(a) == OneToken(a)
  {
    if a != "" {
      HeadOfPlain(a, "");
      TokensUnfold(a);
    }
  }

  lemma Regroup<T>(x: seq<T>, y: seq<T>, z: seq<T>)
    ensures x + (y + z) == (x + y) + z
  {
  }

  lemma {:induction false} TokensSplit(a: string, b: string)
    ensures Tokens(a + ['&'] + b) == Tokens(a) + Tokens(b)
    decreases |a|
  {
    TokensUnfold(a + ['&'] + b);
    if Lacks(a, '&') {
      HeadOfPlain(a, b);
      PlainIsOneToken(a);
    } else {
      HeadOfOther(a, b);
      TokensUnfold(a);
      TokensSplit(Tail(a), b);
      Regroup(OneToken(Head(a)), Tokens(Tail(a)), Tokens(b));
    }
  }

  /** The tokens of a body are those before any of its ampersands and those after it, and a piece without ampersands is
      one token unless it is empty. */
  lemma TokensExactly(a: string, b: string)
    ensures Tokens(a + ['&'] + b) == Tokens(a) + Tokens(b)
    ensures Lacks(a, '&') ==> Tokens(a) == if a == "" then [] else [a]
  {
    TokensSplit(a, b);
    if Lacks(a, '&') { PlainIsOneToken(a); }
  }

  /** A token says that a key has a value: their codes, with `=` between them, neither of them too long. */
  ghost predicate Says(token: string, key: string, val: string) {
    exists k :: 0 <= k < |token| && token[k] == '=' && Lacks(token[..k], '=')
                && Spells(token[..k], key) && |key| <= 63 && Spells(token[k + 1..], val) && |val| <= 2048
  }

  lemma SaidIsSet(c: Config, token: string, key: string, val: string)
    requires Says(token, key, val)
    ensures Apply(c, token) == Set(c, KeyOf(CString(key)), CString(val))
  {
    var i :| 0 <= i < |token| && token[i] == '=' && Lacks(token[..i], '=')
             && Spells(token[..i], key) && |key| <= 63 && Spells(token[i + 1..], val) && |val| <= 2048;
    assert forall j :: 0 <= j < i ==> token[j] == token[..i][j];
    IndexIs(token, '=', i);
    SpelledIsDecoded(token[..i], KEY_ROOM, key);
    SpelledIsDecoded(token[i + 1..], MAX_FORM_BODY, val);
  }

  lemma OthersAreIgnored(c: Config, token: string)
    requires forall key, val :: !Says(token, key, val)
    ensures Apply(c, token) == c
  {
    var k := IndexOf(token, '=');
    if k < |token| {
      var key, val := UrlDecode(token[..k], KEY_ROOM), UrlDecode(token[k + 1..], MAX_FORM_BODY);
      if key.Decoded? && val.Decoded? {
        DecodedIsSpelled(token[..k], KEY_ROOM, key.text);
        DecodedIsSpelled(token[k + 1..], MAX_FORM_BODY, val.text);
        assert Says(token, key.text, val.text);
      }
    }
  }

  /** A token that says something sets what it says, and every other is ignored. */
  lemma ApplyExactly(c: Config, token: string)
    ensures forall key, val :: Says(token, key, val) ==> Apply(c, token) == Set(c, KeyOf(CString(key)), CString(val))
    ensures (forall key, val :: !Says(token, key, val)) ==> Apply(c, token) == c
  {
    forall key, val | Says(token, key, val)
      ensures Apply(c, token) == Set(c, KeyOf(CString(key)), CString(val))
    {
      SaidIsSet(c, token, key, val);
    }
    if forall key, val :: !Says(token, key, val) { OthersAreIgnored(c, token); }
  }

  predicate IsCut(kept: string, val: string, max: nat) {
    kept <= val && |kept| == if |val| <= max then |val| else max
  }

  /** A value sets the field of its key, cut to 32, 64, 63 or 64 bytes, and no other; the checkbox is set whatever its
      value is. */
  lemma SetExactly(c: Config, key: Key, val: string)
    ensures var d := Set(c, key, val);
            && (if key == Ssid then IsCut(d.ssid, val, 32) else d.ssid == c.ssid)
            && (if key == Password then IsCut(d.password, val, 64) else d.password == c.password)
            && (if key == Host then IsCut(d.host, val, 63) else d.host == c.host)
            && (if key == Token then IsCut(d.token, val, 64) else d.token == c.token)
            && d.autoFlash == (c.autoFlash || key == AutoFlash) && d.reserved == c.reserved
  {
  }

  lemma CStringAtLimit(a: string, b: string)
    requires Lacks(a, '\0') && Lacks(b, '\0')
    ensures CString(a + b) == a + b
  {
    var s := a + b;
    assert forall i :: 0 <= i < |s| ==> s[i] == if i < |a| then a[i] else b[i - |a|];
    CStringExactly(s, "");
  }

  lemma ParsedText(c: Config, body: string, text: string)
    requires CString(body) == text
    ensures Parsed(c, body) == ApplyAll(c, Tokens(if |text| <= 2048 then text else text[..2048]))
  {
  }

  /** What a body says is what it says up to its first terminator, of which the first 2048 bytes count. */
  lemma ParsedExactly(c: Config, a: string, b: string)
    requires Lacks(a, '\0') && |a| <= 2048
    ensures Parsed(c, a) == ApplyAll(c, Tokens(a)) && Parsed(c, a + ['\0'] + b) == Parsed(c, a)
    ensures |a| == 2048 && Lacks(b, '\0') ==> Parsed(c, a + b) == Parsed(c, a)
  {
    CStringExactly(a, b);
    ParsedText(c, a, a);
    ParsedText(c, a + ['\0'] + b, a);
    if |a| == 2048 && Lacks(b, '\0') {
      CStringAtLimit(a, b);
      ParsedText(c, a + b, a + b);
      assert (if |a + b| <= 2048 then a + b else (a + b)[..2048]) == a;
    }
  }
}
