/** `feed_embedded_candidates` of esp32-firmware/main/webrtc_stream.c on a C string without its terminator. */
module CandidateScan {
  // The attribute of section 5.1 of RFC 8839.
  const PATTERN: string := "a=candidate:"
  const MSG_BUF_SIZE: nat := 8192
  const SKIP: nat := 11

  /** The pattern stands at offset `i`. */
  predicate Occurs(s: string, i: nat) {
    i + |PATTERN| <= |s| && s[i..i + |PATTERN|] == PATTERN
  }

  function EndOfLine(s: string, i: nat): (e: nat)
    requires i <= |s|
    ensures i <= e <= |s|
    ensures e < |s| ==> s[e] == '\n'
    ensures forall j :: i <= j < e ==> s[j] != '\n'
    decreases |s| - i
  {
    if i == |s| || s[i] == '\n' then i else EndOfLine(s, i + 1)
  }

  /** Without the carriage returns and line feeds at its end. */
  function Stripped(t: string): (r: string)
    ensures r <= t && (r != "" ==> r[|r| - 1] != '\r' && r[|r| - 1] != '\n')
    ensures forall j :: |r| <= j < |t| ==> t[j] == '\r' || t[j] == '\n'
  {
    if t != "" && (t[|t| - 1] == '\r' || t[|t| - 1] == '\n') then Stripped(t[..|t| - 1]) else t
  }

  /** The candidate text of the occurrence at `i`. */
  function Text(s: string, i: nat): string
    requires i <= |s|
  {
    Stripped(s[i..EndOfLine(s, i)])
  }

  predicate Fits(t: string) {
    0 < |t| < MSG_BUF_SIZE
  }

  /** The texts of all occurrences from `i` on, position by position. */
  function Feeds(s: string, i: nat): seq<string>
    requires i <= |s|
    decreases |s| - i
  {
    if i == |s| then []
    else (if Occurs(s, i) && Fits(Text(s, i)) then [Text(s, i)] else []) + Feeds(s, i + 1)
  }

  /** An occurrence is the pattern with anything before and after it. */
  lemma OccursExactly(s: string, i: nat)
    ensures Occurs(s, i) <==> exists a: string, b: string :: |a| == i && s == a + "a=candidate:" + b
  {
    if Occurs(s, i) {
      assert s == s[..i] + "a=candidate:" + s[i + |PATTERN|..];
    }
    if a: string, b: string :| |a| == i && s == a + "a=candidate:" + b {
      assert s[i..i + |PATTERN|] == PATTERN;
    }
  }

  /** The pattern does not overlap itself: its last character stands nowhere else in it. */
  lemma NoOverlap(s: string, i: nat, j: nat)
    requires Occurs(s, i) && i < j < i + |PATTERN|
    ensures !Occurs(s, j)
  {
    var k := i + |PATTERN| - 1;
    assert s[i..i + |PATTERN|][k - i] == ':';
    if j + |PATTERN| <= |s| {
      assert s[j..j + |PATTERN|][k - j] == ':' && PATTERN[k - j] != ':';
    }
  }

  lemma {:induction false} StripKeeps(t: string, n: nat)
    requires n <= |t| && forall k :: 0 <= k < n ==> t[k] != '\r' && t[k] != '\n'
    ensures |Stripped(t)| >= n
    decreases |t|
  {
    if t != "" && (t[|t| - 1] == '\r' || t[|t| - 1] == '\n') { StripKeeps(t[..|t| - 1], n); }
  }

  /** The text of an occurrence begins with the pattern, so that only its length can keep it from being fed. */
  lemma TextBeginsWithPattern(s: string, i: nat)
    requires Occurs(s, i)
    ensures PATTERN <= Text(s, i)
    ensures Fits(Text(s, i)) <==> |Text(s, i)| < 8192
  {
    var e := EndOfLine(s, i);
    assert forall k :: 0 <= k < |PATTERN| ==> PATTERN[k] != '\n' && PATTERN[k] != '\r';
    assert forall j :: i <= j < i + |PATTERN| ==> s[j] == s[i..i + |PATTERN|][j - i] == PATTERN[j - i];
    assert e >= i + |PATTERN|;
    var line := s[i..e];
    assert forall k :: 0 <= k < |PATTERN| ==> line[k] == s[i + k] == PATTERN[k];
    StripKeeps(line, |PATTERN|);
  }

  /** Positions without an occurrence feed nothing. */
  lemma {:induction false} NothingBetween(s: string, i: nat, j: nat)
    requires i <= j <= |s| && forall k :: i <= k < j ==> !Occurs(s, k)
    ensures Feeds(s, i) == Feeds(s, j)
    decreases j - i
  {
    if i < j { NothingBetween(s, i + 1, j); }
  }

  /** The text is that of an occurrence at `k`, and fits. */
  predicate IsFedAt(s: string, k: nat, t: string) {
    k <= |s| && Occurs(s, k) && t == Text(s, k) && Fits(t)
  }

  lemma FeedsUnfold(s: string, i: nat, t: string)
    requires i < |s|
    ensures t in Feeds(s, i) <==> IsFedAt(s, i, t) || t in Feeds(s, i + 1)
  {
    var first := if Occurs(s, i) && Fits(Text(s, i)) then [Text(s, i)] else [];
    assert Feeds(s, i) == first + Feeds(s, i + 1);
    assert t in first <==> IsFedAt(s, i, t);
  }

  lemma NothingAtEnd(s: string, i: nat, t: string)
    requires IsFedAt(s, i, t)
    ensures i < |s|
  {
  }

  lemma {:induction false} FedIsSomewhere(s: string, i: nat, t: string) returns (k: nat)
    requires i <= |s| && t in Feeds(s, i)
    ensures i <= k && IsFedAt(s, k, t)
    decreases |s| - i
  {
    FeedsUnfold(s, i, t);
    if IsFedAt(s, i, t) {
      k := i;
    } else {
      k := FedIsSomewhere(s, i + 1, t);
    }
  }

  lemma {:induction false} SomewhereIsFed(s: string, i: nat, k: nat, t: string)
    requires i <= k && IsFedAt(s, k, t)
    ensures t in Feeds(s, i)
    decreases k - i
  {
    NothingAtEnd(s, k, t);
    FeedsUnfold(s, i, t);
    if i < k { SomewhereIsFed(s, i + 1, k, t); }
  }

  /** What is fed are exactly the texts of occurrences. */
  lemma FedMeansOccurs(s: string, i: nat, t: string)
    requires i <= |s|
    ensures t in Feeds(s, i) <==> exists k :: i <= k <= |s| && Occurs(s, k) && t == Text(s, k) && Fits(t)
  {
    if t in Feeds(s, i) {
      var k := FedIsSomewhere(s, i, t);
      assert i <= k <= |s| && Occurs(s, k) && t == Text(s, k) && Fits(t);
    }
    if k :| i <= k <= |s| && Occurs(s, k) && t == Text(s, k) && Fits(t) {
      assert IsFedAt(s, k, t);
      SomewhereIsFed(s, i, k, t);
    }
  }

  /** The C library's search, from `from` on; the length means not found. */
  method StrStr(s: string, from: nat) returns (at: nat)
    requires from <= |s|
    ensures from <= at <= |s| && (at < |s| ==> Occurs(s, at))
    ensures forall k :: from <= k < at ==> !Occurs(s, k)
  {
    at := from;
    while at < |s| && !Occurs(s, at)
      invariant from <= at <= |s|
      invariant forall k :: from <= k < at ==> !Occurs(s, k)
    {
      at := at + 1;
    }
  }

  method StrChr(s: string, from: nat) returns (at: nat)
    requires from <= |s|
    ensures at == EndOfLine(s, from)
  {
    at := from;
    while at < |s| && s[at] != '\n'
      invariant from <= at <= |s| && EndOfLine(s, at) == EndOfLine(s, from)
    {
      at := at + 1;
    }
  }

  lemma StrippedPrefix(t: string, n: nat)
    requires 0 < n <= |t| && (t[n - 1] == '\r' || t[n - 1] == '\n')
    ensures Stripped(t[..n]) == Stripped(t[..n - 1])
  {
    assert t[..n][..n - 1] == t[..n - 1];
  }

  lemma PrefixOfSlice(s: string, from: nat, len: nat, end: nat)
    requires from + len <= end <= |s|
    ensures s[from..end][..len] == s[from..from + len]
  {
  }

  lemma NothingToStrip(t: string)
    requires t == "" || (t[|t| - 1] != '\r' && t[|t| - 1] != '\n')
    ensures Stripped(t) == t
  {
  }

  /** The length of a line without its line end. */
  method LineLength(s: string, from: nat) returns (len: nat)
    requires from <= |s|
    ensures from + len <= |s| && s[from..from + len] == Text(s, from)
  {
    var end := StrChr(s, from);
    ghost var line := s[from..end];
    len := end - from;
    assert line[..len] == line;
    while len > 0 && (s[from + len - 1] == '\r' || s[from + len - 1] == '\n')
      invariant from + len <= end && len <= |line|
      invariant Stripped(line[..len]) == Stripped(line)
    {
      StrippedPrefix(line, len);
      len := len - 1;
    }
    NothingToStrip(line[..len]);
    PrefixOfSlice(s, from, len, end);
  }

  function FedAt(s: string, i: nat): seq<string>
    requires i <= |s|
  {
    if Fits(Text(s, i)) then [Text(s, i)] else []
  }

  /** From `p` on, the first occurrence is fed and the eleven characters after it may be skipped. */
  lemma FeedsFrom(s: string, p: nat, at: nat)
    requires p <= at <= |s| && (at < |s| ==> Occurs(s, at)) && forall k :: p <= k < at ==> !Occurs(s, k)
    ensures at < |s| ==> at + SKIP <= |s|
    ensures Feeds(s, p) == if at == |s| then [] else FedAt(s, at) + Feeds(s, at + SKIP)
  {
    NothingBetween(s, p, at);
    if at < |s| {
      forall k | at + 1 <= k < at + SKIP ensures !Occurs(s, k) { NoOverlap(s, at, k); }
      NothingBetween(s, at + 1, at + SKIP);
    }
  }

  /** Copies one candidate line into the static buffer and hands it over, unless it does not fit. */
  method FeedLine(sdp: string, at: nat, cand: array<char>) returns (fed: seq<string>)
    requires cand.Length == MSG_BUF_SIZE && at <= |sdp|
    modifies cand
    ensures fed == FedAt(sdp, at)
  {
    var len := LineLength(sdp, at);
    if len == 0 || len >= MSG_BUF_SIZE {
      return [];
    }
    forall i | 0 <= i < len {
      cand[i] := sdp[at + i];
    }
    cand[len] := '\0';
    assert cand[..len] == sdp[at..at + len];
    fed := [cand[..len]];
  }

  lemma Moved(fed: seq<string>, line: seq<string>, rest: seq<string>)
    ensures fed + (line + rest) == (fed + line) + rest
  {
  }

  /** One turn of the loop: the next occurrence is fed and `p` moves past its first eleven characters. */
  method FeedNext(sdp: string, p: nat, cand: array<char>) returns (found: bool, line: seq<string>, next: nat)
    requires cand.Length == MSG_BUF_SIZE && p <= |sdp|
    modifies cand
    ensures !found ==> Feeds(sdp, p) == []
    ensures found ==> p < next <= |sdp| && Feeds(sdp, p) == line + Feeds(sdp, next)
  {
    var at := StrStr(sdp, p);
    FeedsFrom(sdp, p, at);
    if at == |sdp| {
      return false, [], p;
    }
    line := FeedLine(sdp, at, cand);
    found, next := true, at + SKIP;
  }

  /** Every candidate line of the SDP is handed to the peer once, in order, through the one static buffer. */
  method FeedEmbeddedCandidates(sdp: string, cand: array<char>) returns (fed: seq<string>)
    requires cand.Length == MSG_BUF_SIZE
    modifies cand
    ensures fed == Feeds(sdp, 0)
  {
    fed := [];
    var p := 0;
    while true
      invariant p <= |sdp| && fed + Feeds(sdp, p) == Feeds(sdp, 0)
      decreases |sdp| - p
    {
      var found, line, next := FeedNext(sdp, p, cand);
      if !found {
        break;
      }
      Moved(fed, line, Feeds(sdp, next));
      fed, p := fed + line, next;
    }
    assert fed + [] == fed;
  }
}
