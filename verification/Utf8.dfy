/** What a browser makes of the bytes of a page: the UTF-8 decoder of the WHATWG Encoding Standard followed by
    the encoder, as a function on bytes. Well-formed text passes; every malformed piece becomes the replacement
    character. */
module Utf8 {
  const REPLACEMENT: string := [0xEF as char, 0xBF as char, 0xBD as char]

  predicate Within(c: char, lo: int, hi: int) {
    lo <= c as int <= hi
  }

  predicate IsAsciiByte(c: char) {
    c as int < 0x80
  }

  /** How many bytes must follow a lead byte; none for a byte that cannot lead. */
  function Need(c: char): nat {
    if Within(c, 0xC2, 0xDF) then 1
    else if Within(c, 0xE0, 0xEF) then 2
    else if Within(c, 0xF0, 0xF4) then 3
    else 0
  }

  /** The byte right after a lead byte has a narrower range for four of them. */
  predicate FollowsLead(lead: char, c: char) {
    Within(c, if lead as int == 0xE0 then 0xA0 else if lead as int == 0xF0 then 0x90 else 0x80,
           if lead as int == 0xED then 0x9F else if lead as int == 0xF4 then 0x8F else 0xBF)
  }

  predicate IsTail(c: char) {
    Within(c, 0x80, 0xBF)
  }

  /** How many of the bytes needed do follow the lead byte at the front. */
  function Found(s: string): (k: nat)
    requires s != "" && Need(s[0]) > 0
    ensures k <= Need(s[0]) && k < |s|
  {
    if |s| < 2 || !FollowsLead(s[0], s[1]) then 0
    else if Need(s[0]) == 1 || |s| < 3 || !IsTail(s[2]) then 1
    else if Need(s[0]) == 2 || |s| < 4 || !IsTail(s[3]) then 2
    else 3
  }

  /** The length of the character or malformed piece at the front, and which of the two it is. */
  function Unit(s: string): (r: (nat, bool))
    requires s != ""
    ensures 1 <= r.0 <= |s|
  {
    if IsAsciiByte(s[0]) then (1, true)
    else if Need(s[0]) == 0 then (1, false)
    else (1 + Found(s), Found(s) == Need(s[0]))
  }

  function Repaired(s: string): string
    requires s != ""
  {
    if Unit(s).1 then s[..Unit(s).0] else REPLACEMENT
  }

  function Repair(s: string): string
    decreases |s|
  {
    if s == "" then "" else Repaired(s) + Repair(s[Unit(s).0..])
  }

  predicate WellFormed(s: string)
    decreases |s|
  {
    s == "" || (Unit(s).1 && WellFormed(s[Unit(s).0..]))
  }

  // ---- one unit ----

  /** Whether a rest could go on a unit before it. */
  predicate SameStart(a: string, b: string) {
    if a != "" && !IsAsciiByte(a[0]) then b != "" && b[0] == a[0] else b == "" || IsAsciiByte(b[0])
  }

  /** A unit only looks one byte past itself. */
  lemma UnitOfOther(s: string, rest: string)
    requires s != "" && SameStart(s[Unit(s).0..], rest)
    ensures Unit(s[..Unit(s).0] + rest) == Unit(s)
  {
    var n := Unit(s).0;
    var t := s[..n] + rest;
    assert forall i :: 0 <= i < n ==> t[i] == s[i];
    if n < |s| { assert s[n..][0] == s[n]; }
    if rest != "" { assert t[n] == rest[0]; }
  }

  /** A character stands for itself whatever follows. */
  lemma GoodUnit(s: string, rest: string)
    requires s != "" && Unit(s).1
    ensures Unit(s[..Unit(s).0] + rest) == Unit(s)
  {
    var n := Unit(s).0;
    var t := s[..n] + rest;
    assert forall i :: 0 <= i < n ==> t[i] == s[i];
  }

  lemma ReplacementIsGood(rest: string)
    ensures Unit(REPLACEMENT + rest) == (3, true)
  {
    var t := REPLACEMENT + rest;
    assert t[0] == REPLACEMENT[0] && t[1] == REPLACEMENT[1] && t[2] == REPLACEMENT[2];
  }

  lemma UnitBytes(s: string)
    requires s != "" && !IsAsciiByte(s[0])
    ensures forall i :: 0 <= i < Unit(s).0 ==> !IsAsciiByte(s[i])
  {
  }

  lemma RepairUnfolds(u: string, rest: string)
    requires u != "" && Unit(u + rest).0 == |u|
    ensures Repair(u + rest) == Repaired(u + rest) + Repair(rest)
    ensures WellFormed(u + rest) <==> Unit(u + rest).1 && WellFormed(rest)
    ensures Unit(u + rest).1 ==> Repair(u + rest) == u + Repair(rest)
  {
    assert (u + rest)[|u|..] == rest && (u + rest)[..|u|] == u;
  }

  lemma Regroup(a: string, b: string, c: string)
    ensures (a + b) + c == a + (b + c)
  {
  }

  lemma CutHere(s: string, n: nat)
    requires n <= |s|
    ensures s[..n] + s[n..] == s
  {
  }

  // ---- whole texts ----

  lemma {:induction false} RepairKeepsWellFormed(s: string)
    requires WellFormed(s)
    ensures Repair(s) == s
    decreases |s|
  {
    if s != "" {
      RepairKeepsWellFormed(s[Unit(s).0..]);
      assert s[..Unit(s).0] + s[Unit(s).0..] == s;
    }
  }

  lemma {:induction false} RepairIsWellFormed(s: string)
    ensures WellFormed(Repair(s))
    decreases |s|
  {
    if s != "" {
      var n, rest := Unit(s).0, Repair(s[Unit(s).0..]);
      RepairIsWellFormed(s[n..]);
      if Unit(s).1 {
        GoodUnit(s, rest);
        RepairUnfolds(s[..n], rest);
      } else {
        ReplacementIsGood(rest);
        RepairUnfolds(REPLACEMENT, rest);
      }
    }
  }

  /** Exactly the well-formed texts come back. */
  lemma RepairIsSameExactly(s: string)
    ensures Repair(s) == s <==> WellFormed(s)
  {
    RepairIsWellFormed(s);
    if WellFormed(s) { RepairKeepsWellFormed(s); }
  }

  /** Repairing at most triples a text and brings in no ASCII. */
  lemma {:induction false} RepairAdds(s: string, c: char)
    requires IsAsciiByte(c)
    ensures |Repair(s)| <= 3 * |s| && (c in Repair(s) ==> c in s)
    decreases |s|
  {
    if s != "" {
      RepairAdds(s[Unit(s).0..], c);
      assert REPLACEMENT[0] != c && REPLACEMENT[1] != c && REPLACEMENT[2] != c;
    }
  }

  predicate IsCText(s: string) {
    forall i :: 0 <= i < |s| ==> 1 <= s[i] as int < 256
  }

  lemma {:induction false} RepairIsCText(s: string)
    requires IsCText(s)
    ensures IsCText(Repair(s))
    decreases |s|
  {
    if s != "" { RepairIsCText(s[Unit(s).0..]); }
  }

  /** A text that is malformed is so after a well-formed part, and its repair goes on with a replacement. */
  lemma {:induction false} FirstMalformed(s: string) returns (w: string, e: string)
    requires !WellFormed(s)
    ensures s == w + e && e != "" && WellFormed(w) && !Unit(e).1 && w + REPLACEMENT <= Repair(s)
    decreases |s|
  {
    if Unit(s).1 {
      var u, rest := s[..Unit(s).0], s[Unit(s).0..];
      CutHere(s, Unit(s).0);
      w, e := FirstMalformed(rest);
      GoodUnit(s, w);
      RepairUnfolds(u, w);
      GoodUnit(s, rest);
      RepairUnfolds(u, rest);
      Regroup(u, w, e);
      Regroup(u, w, REPLACEMENT);
      PrefixGrows(u, w + REPLACEMENT, Repair(rest));
      w := u + w;
    } else {
      w, e := "", s;
      assert "" + s == s && "" + REPLACEMENT == REPLACEMENT;
    }
  }

  lemma PrefixGrows(a: string, b: string, c: string)
    requires b <= c
    ensures a + b <= a + c
  {
  }

  lemma {:induction false} WellFormedThen(s: string, rest: string)
    requires WellFormed(s)
    ensures Repair(s + rest) == s + Repair(rest)
    decreases |s|
  {
    if s == "" {
      assert s + rest == rest;
      assert s + Repair(rest) == Repair(rest);
    } else {
      var u, t := s[..Unit(s).0], s[Unit(s).0..];
      CutHere(s, Unit(s).0);
      Regroup(u, t, rest);
      GoodUnit(s, t + rest);
      RepairUnfolds(u, t + rest);
      WellFormedThen(t, rest);
      Regroup(u, t, Repair(rest));
    }
  }

  // ---- a repaired text cut at a limit ----

  /** The first byte or two of a replacement character. */
  predicate IsTorn(e: string) {
    e == REPLACEMENT[..1] || e == REPLACEMENT[..2]
  }

  /** All but the end is well-formed, and the end is torn. */
  predicate EndsTorn(s: string) {
    exists i :: 0 <= i <= |s| && WellFormed(s[..i]) && IsTorn(s[i..])
  }

  lemma TornIsMalformed(e: string)
    requires IsTorn(e)
    ensures Unit(e) == (|e|, false) && Repair(e) == REPLACEMENT && e <= REPLACEMENT
  {
    assert e[0] == REPLACEMENT[0];
    if |e| == 2 { assert e[1] == REPLACEMENT[1]; }
    assert e[|e|..] == "" && REPLACEMENT + "" == REPLACEMENT;
  }

  lemma TornIsCompleted(s: string)
    requires EndsTorn(s)
    ensures s <= Repair(s) && |s| < |Repair(s)|
  {
    var i :| 0 <= i <= |s| && WellFormed(s[..i]) && IsTorn(s[i..]);
    CutHere(s, i);
    TornIsMalformed(s[i..]);
    WellFormedThen(s[..i], s[i..]);
    PrefixGrows(s[..i], s[i..], REPLACEMENT);
  }

  lemma PrefixesAgree(w: string, a: string, b: string, r: string)
    requires w + a <= r && w + b <= r
    ensures if |a| <= |b| then a <= b else b <= a
  {
    assert forall j :: 0 <= j < |a| ==> a[j] == (w + a)[|w| + j] == r[|w| + j];
    assert forall j :: 0 <= j < |b| ==> b[j] == (w + b)[|w| + j] == r[|w| + j];
  }

  lemma MalformedPrefixIsTorn(s: string)
    requires !WellFormed(s) && s <= Repair(s)
    ensures EndsTorn(s)
  {
    var w, e := FirstMalformed(s);
    PrefixesAgree(w, e, REPLACEMENT, Repair(s));
    if |e| >= 3 {
      assert e == REPLACEMENT + e[3..];
      ReplacementIsGood(e[3..]);
    } else {
      assert e == REPLACEMENT[..|e|];
      assert s[..|w|] == w && s[|w|..] == e;
    }
  }

  /** A text of at most `max` bytes survives repair and a cut at `max` exactly if it is well-formed, or fills the limit
      and ends torn. */
  lemma SurvivesExactly(s: string, max: nat)
    requires |s| <= max
    ensures (if |Repair(s)| <= max then Repair(s) else Repair(s)[..max]) == s <==>
            WellFormed(s) || (|s| == max && EndsTorn(s))
  {
    RepairIsSameExactly(s);
    if |s| == max && EndsTorn(s) { TornIsCompleted(s); }
    if !WellFormed(s) && |Repair(s)| > max && Repair(s)[..max] == s { MalformedPrefixIsTorn(s); }
  }
}
