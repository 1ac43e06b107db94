/** UTF-8 by its encoder (section 3 of RFC 3629), and the decoder of `Utf8` measured against it. */
module Unicode {
  import opened Utf8

  /** A Unicode scalar value: a code point that is no surrogate. */
  type Scalar = x: int | 0 <= x < 0xD800 || 0xE000 <= x < 0x11_0000

  function Byte(n: int): (c: char)
    requires 0 <= n < 256
    ensures c as int == n
  {
    n as char
  }

  function Encoded(x: Scalar): (s: string)
    ensures 1 <= |s| <= 4
  {
    if x < 0x80 then [Byte(x)]
    else if x < 0x800 then [Byte(0xC0 + x / 64), Byte(0x80 + x % 64)]
    else if x < 0x1_0000 then [Byte(0xE0 + x / 4096), Byte(0x80 + x / 64 % 64), Byte(0x80 + x % 64)]
    else [Byte(0xF0 + x / 0x4_0000), Byte(0x80 + x / 4096 % 64), Byte(0x80 + x / 64 % 64), Byte(0x80 + x % 64)]
  }

  function Written(xs: seq<Scalar>): string {
    if xs == [] then "" else Encoded(xs[0]) + Written(xs[1..])
  }

  lemma {:induction false} EncodedIsUnit(x: Scalar, rest: string)
    ensures Unit(Encoded(x) + rest) == (|Encoded(x)|, true)
  {
    var e := Encoded(x);
    var s := e + rest;
    assert forall i :: 0 <= i < |e| ==> s[i] == e[i];
    if 0x800 <= x < 0x1_0000 {
      assert e[0] as int == 0xE0 + x / 4096 && e[1] as int == 0x80 + x / 64 % 64;
    } else if x >= 0x1_0000 {
      assert e[0] as int == 0xF0 + x / 0x4_0000 && e[1] as int == 0x80 + x / 4096 % 64;
    }
  }

  // ---- a well-formed unit is an encoded scalar value ----

  lemma Digits(q: nat, r: nat)
    requires r < 64
    ensures (q * 64 + r) / 64 == q && (q * 64 + r) % 64 == r
  {
  }

  lemma TwoBytes(a: nat, b: nat) returns (x: Scalar)
    requires 2 <= a < 32 && b < 64
    ensures Encoded(x) == [Byte(0xC0 + a), Byte(0x80 + b)]
  {
    x := a * 64 + b;
    Digits(a, b);
  }

  lemma ThreeBytes(a: nat, b: nat, c: nat) returns (x: Scalar)
    requires a < 16 && b < 64 && c < 64 && (a == 0 ==> b >= 32) && (a == 13 ==> b < 32)
    ensures Encoded(x) == [Byte(0xE0 + a), Byte(0x80 + b), Byte(0x80 + c)]
  {
    x := (a * 64 + b) * 64 + c;
    Digits(a * 64 + b, c);
    Digits(a, b);
    assert x / 4096 == x / 64 / 64;
  }

  lemma FourBytes(a: nat, b: nat, c: nat, d: nat) returns (x: Scalar)
    requires a < 5 && b < 64 && c < 64 && d < 64 && (a == 0 ==> b >= 16) && (a == 4 ==> b < 16)
    ensures Encoded(x) == [Byte(0xF0 + a), Byte(0x80 + b), Byte(0x80 + c), Byte(0x80 + d)]
  {
    x := ((a * 64 + b) * 64 + c) * 64 + d;
    Digits((a * 64 + b) * 64 + c, d);
    Digits(a * 64 + b, c);
    Digits(a, b);
    assert x / 4096 == x / 64 / 64 && x / 0x4_0000 == x / 64 / 64 / 64;
  }

  lemma UnitIsEncoded(s: string) returns (x: Scalar)
    requires s != "" && Unit(s).1
    ensures s[..Unit(s).0] == Encoded(x)
  {
    var n := Unit(s).0;
    if n == 1 {
      x := s[0] as int;
    } else if n == 2 {
      x := TwoBytes(s[0] as int - 0xC0, s[1] as int - 0x80);
    } else if n == 3 {
      x := ThreeBytes(s[0] as int - 0xE0, s[1] as int - 0x80, s[2] as int - 0x80);
    } else {
      x := FourBytes(s[0] as int - 0xF0, s[1] as int - 0x80, s[2] as int - 0x80, s[3] as int - 0x80);
    }
  }

  // ---- a malformed one is as much of one as there is ----

  /** The beginning of some encoded scalar value, or all of it. */
  ghost predicate IsPart(p: string) {
    exists x: Scalar :: p <= Encoded(x)
  }

  /** The lowest byte that may follow a lead byte. */
  function LowestAfter(lead: char): char {
    if lead as int == 0xE0 then 0xA0 as char else if lead as int == 0xF0 then 0x90 as char else 0x80 as char
  }

  function Completed(p: string): string
    requires p != "" && |p| <= 1 + Need(p[0])
  {
    var q := if |p| == 1 && Need(p[0]) > 0 then p + [LowestAfter(p[0])] else p;
    q + seq(1 + Need(p[0]) - |q|, _ => 0x80 as char)
  }

  lemma FoundIsPart(s: string)
    requires s != "" && !IsAsciiByte(s[0]) && Need(s[0]) > 0
    ensures IsPart(s[..Unit(s).0])
  {
    var p := s[..Unit(s).0];
    var t := Completed(p);
    assert Unit(t) == (|t|, true) && t[..|t|] == t;
    var x := UnitIsEncoded(t);
    assert p <= t;
  }

  lemma PartIsFound(s: string, k: nat, x: Scalar)
    requires 1 <= k <= |s| && s[..k] <= Encoded(x)
    ensures Unit(s).0 >= k && (IsAsciiByte(s[0]) || Need(s[0]) > 0)
  {
    var p, e := s[..k], Encoded(x);
    EncodedIsUnit(x, "");
    assert e + "" == e;
    assert forall i :: 0 <= i < k ==> s[i] == p[i] && p[i] == e[i];
  }

  lemma NoMoreIsPart(s: string)
    requires s != "" && Unit(s).0 < |s|
    ensures !IsPart(s[..Unit(s).0 + 1])
  {
    if x: Scalar :| s[..Unit(s).0 + 1] <= Encoded(x) { PartIsFound(s, Unit(s).0 + 1, x); }
  }

  lemma LoneIsNoPart(s: string)
    requires s != "" && !IsAsciiByte(s[0]) && Need(s[0]) == 0
    ensures !IsPart(s[..1])
  {
    if x: Scalar :| s[..1] <= Encoded(x) { PartIsFound(s, 1, x); }
  }

  lemma BeginsWithUnit(s: string, x: Scalar)
    requires Encoded(x) <= s
    ensures s != "" && Unit(s).1
  {
    EncodedIsUnit(x, s[|Encoded(x)|..]);
    assert Encoded(x) + s[|Encoded(x)|..] == s;
  }

  lemma GoodExactly(s: string)
    requires s != ""
    ensures Unit(s).1 <==> exists x: Scalar :: Encoded(x) <= s
    ensures Unit(s).1 ==> exists x: Scalar :: Encoded(x) == s[..Unit(s).0]
  {
    if Unit(s).1 {
      var x := UnitIsEncoded(s);
      assert Encoded(x) <= s;
    }
    if x: Scalar :| Encoded(x) <= s { BeginsWithUnit(s, x); }
  }

  lemma ReplacementIsEncoded()
    ensures Encoded(0xFFFD) == REPLACEMENT
  {
  }

  lemma BadExactly(s: string)
    requires s != "" && !Unit(s).1
    ensures var n := Unit(s).0; (n == |s| || !IsPart(s[..n + 1])) && (IsPart(s[..n]) || n == 1)
  {
    if Need(s[0]) > 0 { FoundIsPart(s); } else { LoneIsNoPart(s); }
    if Unit(s).0 < |s| { NoMoreIsPart(s); }
  }

  /** The decoder takes from the front an encoded scalar value if there is one, and else the longest beginning of any,
      or one byte that begins none, for which it puts U+FFFD. */
  lemma UnitExactly(s: string)
    requires s != ""
    ensures var (n, good) := Unit(s);
            && (good <==> exists x: Scalar :: Encoded(x) <= s)
            && (good ==> exists x: Scalar :: Encoded(x) == s[..n])
            && Repaired(s) == (if good then s[..n] else Encoded(0xFFFD))
            && (n == |s| || !IsPart(s[..n + 1])) && (IsPart(s[..n]) || n == 1)
  {
    ReplacementIsEncoded();
    GoodExactly(s);
    if !Unit(s).1 { BadExactly(s); }
  }

  // ---- whole texts ----

  lemma {:induction false} WrittenIsWellFormed(xs: seq<Scalar>)
    ensures WellFormed(Written(xs))
  {
    if xs != [] {
      WrittenIsWellFormed(xs[1..]);
      EncodedIsUnit(xs[0], Written(xs[1..]));
      RepairUnfolds(Encoded(xs[0]), Written(xs[1..]));
    }
  }

  lemma {:induction false} WellFormedIsWritten(s: string) returns (xs: seq<Scalar>)
    requires WellFormed(s)
    ensures s == Written(xs)
    decreases |s|
  {
    if s == "" {
      xs := [];
    } else {
      var x := UnitIsEncoded(s);
      xs := WellFormedIsWritten(s[Unit(s).0..]);
      CutHere(s, Unit(s).0);
      xs := [x] + xs;
    }
  }

  /** Well-formed are exactly the encodings of scalar values in a row. */
  lemma WellFormedExactly(s: string)
    ensures WellFormed(s) <==> exists xs: seq<Scalar> :: s == Written(xs)
  {
    if WellFormed(s) { var xs := WellFormedIsWritten(s); }
    if xs: seq<Scalar> :| s == Written(xs) { WrittenIsWellFormed(xs); }
  }
}
