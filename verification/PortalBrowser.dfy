/** The form as it is served, and what a browser reads from it: bytes decoded as UTF-8, the five references
    resolved, and the line breaks of a text field stripped. Text is bytes throughout. */
module PortalBrowser {
  import opened PortalText
  import opened ConfigStore
  import opened Utf8

  const PAGE_SIZE: nat := 4096
  const FORM_FIXED: nat := 748 // the form without its five values

  predicate IsBreak(c: char) {
    c == '\n' || c == '\r'
  }

  predicate NoBreaks(s: string) {
    forall i :: 0 <= i < |s| ==> !IsBreak(s[i])
  }

  /** Typed text as a text field keeps it: no terminators and no line breaks. */
  predicate IsFieldText(s: string) {
    IsCText(s) && NoBreaks(s)
  }

  /** What a text field makes of its value: the line breaks are stripped. */
  function Sanitised(s: string): (r: string)
    ensures NoBreaks(r) && |r| <= |s| && (|r| == |s| <==> NoBreaks(s)) && (IsCText(s) ==> IsCText(r))
  {
    if s == "" then "" else (if IsBreak(s[0]) then "" else [s[0]]) + Sanitised(s[1..])
  }

  lemma SanitisedUnfolds(c: char, b: string)
    ensures Sanitised([c] + b) == (if c == '\n' || c == '\r' then "" else [c]) + Sanitised(b)
  {
    assert ([c] + b)[1..] == b;
  }

  /** Breaks are taken out one by one, and all else stays in its order. */
  lemma {:induction false} SanitisedExactly(a: string, c: char, b: string)
    ensures Sanitised(a + ([c] + b)) == Sanitised(a) + ((if c == '\n' || c == '\r' then "" else [c]) + Sanitised(b))
    decreases |a|
  {
    SanitisedUnfolds(c, b);
    if a == "" {
      assert a + ([c] + b) == [c] + b;
      assert "" + Sanitised([c] + b) == Sanitised([c] + b);
    } else {
      SanitisedExactly(a[1..], c, b);
      assert a == [a[0]] + a[1..];
      Regroup([a[0]], a[1..], [c] + b);
      SanitisedUnfolds(a[0], a[1..]);
      SanitisedUnfolds(a[0], a[1..] + ([c] + b));
      Regroup(if IsBreak(a[0]) then "" else [a[0]], Sanitised(a[1..]), Sanitised([c] + b));
    }
  }

  lemma {:induction false} SanitisedIsSame(s: string)
    ensures Sanitised(s) == s <==> NoBreaks(s)
  {
    if s != "" && NoBreaks(s) {
      SanitisedIsSame(s[1..]);
      assert [s[0]] + s[1..] == s;
    }
  }

  /** A field as it stands in the form: escaped in a buffer of six bytes a character and one. */
  function FormValue(s: string, max: nat): string {
    Escape(s[..Escaped(s, 0, 6 * max + 1)])
  }

  function PageLength(c: Config): nat {
    FORM_FIXED + |FormValue(c.ssid, SSID_MAX_LEN)| + |FormValue(c.password, PASSWORD_MAX_LEN)|
    + |FormValue(c.host, HOST_MAX_LEN)| + |FormValue(c.token, TOKEN_MAX_LEN)| + (if c.autoFlash then 8 else 0)
  }

  /** The value of a field as the browser reads it from the form. */
  function FieldValue(s: string, max: nat): string {
    Sanitised(Unescape(Repair(FormValue(s, max))))
  }

  /** The values a browser reads from the form. */
  function Read(c: Config): Config {
    Config(FieldValue(c.ssid, SSID_MAX_LEN), FieldValue(c.password, PASSWORD_MAX_LEN),
           FieldValue(c.host, HOST_MAX_LEN), FieldValue(c.token, TOKEN_MAX_LEN), c.autoFlash, ZEROS)
  }

  /** What a browser makes of a field that is not truncated. */
  function Kept(s: string): string {
    Sanitised(Repair(s))
  }

  predicate IsText(c: Config) {
    IsFieldText(c.ssid) && IsFieldText(c.password) && IsFieldText(c.host) && IsFieldText(c.token)
  }

  // ---- escaping is transparent to the repair ----

  predicate AllAscii(s: string) {
    forall i :: 0 <= i < |s| ==> IsAsciiByte(s[i])
  }

  predicate NoAscii(s: string) {
    forall i :: 0 <= i < |s| ==> !IsAsciiByte(s[i])
  }

  lemma {:induction false} AsciiPasses(e: string, rest: string)
    requires AllAscii(e)
    ensures Repair(e + rest) == e + Repair(rest)
    decreases |e|
  {
    if e == "" {
      assert e + rest == rest && e + Repair(rest) == Repair(rest);
    } else {
      var u, t := e[..1], e[1..];
      CutHere(e, 1);
      Regroup(u, t, rest);
      RepairUnfolds(u, t + rest);
      AsciiPasses(t, rest);
      Regroup(u, t, Repair(rest));
    }
  }

  lemma EscapesAreAscii(c: char)
    ensures IsAsciiByte(c) ==> AllAscii(EscapeChar(c))
    ensures !IsAsciiByte(c) ==> EscapeChar(c) == [c]
  {
  }

  lemma {:induction false} OthersAreNotEscaped(s: string)
    requires NoAscii(s)
    ensures Escape(s) == s
  {
    if s != "" {
      EscapesAreAscii(s[0]);
      OthersAreNotEscaped(s[1..]);
    }
  }

  lemma EscapeStartsTheSame(s: string)
    ensures SameStart(s, Escape(s))
  {
    if s != "" {
      EscapesAreAscii(s[0]);
      assert Escape(s)[0] == EscapeChar(s[0])[0];
    }
  }

  lemma RepairedIsNotEscaped(s: string)
    requires s != "" && !IsAsciiByte(s[0])
    ensures NoAscii(s[..Unit(s).0]) && Escape(Repaired(s)) == Repaired(s)
  {
    UnitBytes(s);
    OthersAreNotEscaped(Repaired(s));
  }

  lemma RepairPastOther(s: string)
    requires s != "" && !IsAsciiByte(s[0])
    ensures Repair(Escape(s)) == Repaired(s) + Repair(Escape(s[Unit(s).0..]))
  {
    var u, t := s[..Unit(s).0], s[Unit(s).0..];
    CutHere(s, Unit(s).0);
    RepairedIsNotEscaped(s);
    OthersAreNotEscaped(u);
    EscapeAppends(u, t);
    EscapeStartsTheSame(t);
    UnitOfOther(s, Escape(t));
    RepairUnfolds(u, Escape(t));
  }

  /** Decoding the escaped field is escaping the decoded one. */
  lemma {:induction false} RepairOfEscaped(s: string)
    ensures Repair(Escape(s)) == Escape(Repair(s))
    decreases |s|
  {
    if s != "" {
      var t := s[Unit(s).0..];
      RepairOfEscaped(t);
      EscapeAppends(Repaired(s), Repair(t));
      if IsAsciiByte(s[0]) {
        EscapesAreAscii(s[0]);
        AsciiPasses(EscapeChar(s[0]), Escape(t));
        EscapeOfOne(s[0]);
        assert Repaired(s) == [s[0]];
      } else {
        RepairPastOther(s);
        RepairedIsNotEscaped(s);
      }
    }
  }

  lemma EscapeOfOne(c: char)
    ensures Escape([c]) == EscapeChar(c)
  {
    assert [c][1..] == "" && EscapeChar(c) + "" == EscapeChar(c);
  }

  // ---- what is read ----

  lemma ReadsBack(s: string, max: nat)
    requires |s| <= max && 0 < max
    ensures FieldValue(s, max) == Kept(s) && |FormValue(s, max)| <= 6 * max
  {
    BufferIsExact(s, max);
    assert s[..|s|] == s;
    RepairOfEscaped(s);
    UnescapeEscape(Repair(s));
    EscapeLength(s);
  }

  lemma {:induction false} AsciiIsWellFormed(s: string)
    requires AllAscii(s)
    ensures WellFormed(s)
  {
    if s != "" { AsciiIsWellFormed(s[1..]); }
  }

  lemma AsciiTextIsKept(s: string)
    requires IsFieldText(s) && AllAscii(s)
    ensures Kept(s) == s
  {
    AsciiIsWellFormed(s);
    RepairIsSameExactly(s);
    SanitisedIsSame(s);
  }

  lemma KeptIsText(s: string)
    requires IsCText(s)
    ensures IsFieldText(Kept(s)) && |Kept(s)| <= 3 * |s|
  {
    RepairIsCText(s);
    RepairAdds(s, 'x');
  }

  lemma {:induction false} RepairBreaksNothing(s: string)
    requires NoBreaks(s)
    ensures NoBreaks(Repair(s))
  {
    RepairAdds(s, '\n');
    RepairAdds(s, '\r');
    forall i | 0 <= i < |Repair(s)| ensures !IsBreak(Repair(s)[i]) {
      assert Repair(s)[i] in Repair(s);
    }
  }

  lemma ValidIsText(c: Config)
    requires Valid(c)
    ensures IsFieldText(c.ssid) && IsFieldText(c.host) && IsFieldText(c.token)
    ensures AllAscii(c.ssid) && AllAscii(c.host) && AllAscii(c.token)
  {
    if HostStart(c.host) == 5 { assert c.host[..5] == "ws://"; }
    if HostStart(c.host) == 7 { assert c.host[..7] == "http://"; }
    forall i | 0 <= i < |c.host|
      ensures 1 <= c.host[i] as int <= 127 && !IsBreak(c.host[i])
    {
      if i < HostStart(c.host) { assert c.host[i] == c.host[..HostStart(c.host)][i]; }
    }
  }

  /** The fields that a valid configuration restricts are read back as they are, the password as browsers keep it. */
  lemma BrowserReads(c: Config)
    requires Valid(c) && IsCText(c.password)
    ensures PageLength(c) < PAGE_SIZE
    ensures Read(c) == c.(password := Kept(c.password), reserved := ZEROS) && IsText(Read(c))
    ensures |Read(c).password| <= 3 * PASSWORD_MAX_LEN
  {
    ValidIsText(c);
    ReadsBack(c.ssid, SSID_MAX_LEN);
    ReadsBack(c.password, PASSWORD_MAX_LEN);
    ReadsBack(c.host, HOST_MAX_LEN);
    ReadsBack(c.token, TOKEN_MAX_LEN);
    AsciiTextIsKept(c.ssid);
    AsciiTextIsKept(c.host);
    AsciiTextIsKept(c.token);
    KeptIsText(c.password);
  }
}
