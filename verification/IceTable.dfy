/** The ICE server table the firmware builds from an offer, and the normalisation of the minted servers before it. */
module IceTable {
  import opened Options
  import opened IceTypes

  const MAX_ICE_SERVERS: nat := 4
  const ICE_URL_MAX: nat := 127
  const ICE_CRED_MAX: nat := 128
  const UDP: string := "transport=udp"

  datatype Json = Str(s: string) | NotStr

  /** The `turn` member of an offer; `None` stands for a member that is not an array. */
  datatype TurnJson = NoObject | Object(urls: Option<seq<Json>>, username: Json, credential: Json)

  datatype Entry = Entry(url: string, user: Option<string>, psw: Option<string>)

  predicate StandsAt(s: string, part: string, i: nat) {
    i + |part| <= |s| && s[i..i + |part|] == part
  }

  predicate Contains(s: string, part: string) {
    exists i :: 0 <= i <= |s| && StandsAt(s, part, i)
  }

  predicate UrlFits(url: string) {
    0 < |url| <= ICE_URL_MAX
  }

  /** What a static credential buffer keeps. */
  function Clip(s: string): string {
    if |s| <= ICE_CRED_MAX then s else s[..ICE_CRED_MAX]
  }

  /** STUN entries from the items while there is room, up to the first item that is not a string. */
  function StunEntries(items: seq<Json>, room: nat): (es: seq<Entry>)
    ensures |es| <= room
    decreases |items|
  {
    if room == 0 || items == [] || items[0].NotStr? then []
    else if UrlFits(items[0].s) then [Entry(items[0].s, None, None)] + StunEntries(items[1..], room - 1)
    else StunEntries(items[1..], room)
  }

  function Stun(stun: Option<seq<Json>>): seq<Entry> {
    if stun.Some? then StunEntries(stun.value, MAX_ICE_SERVERS - 1) else []
  }

  predicate IsUdp(j: Json) {
    j.Str? && Contains(j.s, UDP)
  }

  /** The first URL offering UDP, else the first string. */
  predicate IsPick(urls: seq<Json>, pick: Option<string>) {
    if exists i :: 0 <= i < |urls| && IsUdp(urls[i]) then
      exists i :: 0 <= i < |urls| && IsUdp(urls[i]) && pick == Some(urls[i].s)
                  && forall j :: 0 <= j < i ==> !IsUdp(urls[j])
    else if exists i :: 0 <= i < |urls| && urls[i].Str? then
      exists i :: 0 <= i < |urls| && urls[i].Str? && pick == Some(urls[i].s) && forall j :: 0 <= j < i ==> !urls[j].Str?
    else pick.None?
  }

  /** What is picked from the `turn` member of an offer. */
  predicate PicksFrom(turn: TurnJson, pick: Option<string>) {
    if turn.Object? && turn.urls.Some? then IsPick(turn.urls.value, pick) else pick.None?
  }

  /** The TURN entry for a picked URL, if it can be made. */
  function TurnEntry(turn: TurnJson, pick: Option<string>): seq<Entry> {
    if turn.Object? && pick.Some? && turn.username.Str? && turn.credential.Str? && UrlFits(pick.value)
    then [Entry(pick.value, Some(Clip(turn.username.s)), Some(Clip(turn.credential.s)))]
    else []
  }

  lemma StunUnfolds(done: seq<Entry>, stun: seq<Json>, i: nat, room: nat)
    requires i < |stun| && stun[i].Str? && room > 0
    ensures var url := stun[i].s;
            var (one, left) := if UrlFits(url) then ([Entry(url, None, None)], room - 1) else ([], room);
            done + StunEntries(stun[i..], room) == (done + one) + StunEntries(stun[i + 1..], left)
  {
    assert stun[i..][0] == stun[i] && stun[i..][1..] == stun[i + 1..];
  }

  lemma StunEnds(done: seq<Entry>, stun: seq<Json>, i: nat, room: nat)
    requires i <= |stun| && (i == |stun| || room == 0 || stun[i].NotStr?)
    ensures done + StunEntries(stun[i..], room) == done
  {
    if i < |stun| { assert stun[i..][0] == stun[i]; }
  }

  class IceTable {
    const servers: array<Entry>

    constructor ()
      ensures fresh(servers) && servers.Length == MAX_ICE_SERVERS
    {
      servers := new Entry[MAX_ICE_SERVERS](_ => Entry("", None, None));
    }

    method PickUrl(urls: seq<Json>) returns (pick: Option<string>)
      ensures IsPick(urls, pick)
    {
      pick := None;
      for i := 0 to |urls|
        invariant forall j :: 0 <= j < i ==> !IsUdp(urls[j])
        invariant pick.None? ==> forall j :: 0 <= j < i ==> !urls[j].Str?
        invariant pick.Some? ==> exists k :: 0 <= k < i && urls[k].Str? && pick == Some(urls[k].s)
                                   && forall j :: 0 <= j < k ==> !urls[j].Str?
      {
        if urls[i].NotStr? {
          continue;
        }
        var udp := Contains(urls[i].s, UDP);
        if pick == None || udp { pick := Some(urls[i].s); }
        if udp {
          assert IsUdp(urls[i]);
          return;
        }
      }
    }

    /** Writes the entry of one item, if its URL fits. */
    method AddOne(url: string, n: nat) returns (m: nat)
      requires n < servers.Length
      modifies servers
      ensures m == (if UrlFits(url) then n + 1 else n)
      ensures servers[..m] == old(servers[..n]) + if UrlFits(url) then [Entry(url, None, None)] else []
    {
      m := n;
      if UrlFits(url) {
        servers[n] := Entry(url, None, None);
        m := n + 1;
      }
    }

    method AddStun(stun: seq<Json>) returns (n: nat)
      requires servers.Length == MAX_ICE_SERVERS
      modifies servers
      ensures n <= MAX_ICE_SERVERS - 1 && servers[..n] == StunEntries(stun, MAX_ICE_SERVERS - 1)
    {
      n := 0;
      var i := 0;
      assert stun[0..] == stun;
      while i < |stun|
        invariant 0 <= i <= |stun| && n <= MAX_ICE_SERVERS - 1
        invariant servers[..n] + StunEntries(stun[i..], MAX_ICE_SERVERS - 1 - n)
                  == StunEntries(stun, MAX_ICE_SERVERS - 1)
      {
        if n >= MAX_ICE_SERVERS - 1 || stun[i].NotStr? {
          StunEnds(servers[..n], stun, i, MAX_ICE_SERVERS - 1 - n);
          return;
        }
        StunUnfolds(servers[..n], stun, i, MAX_ICE_SERVERS - 1 - n);
        n := AddOne(stun[i].s, n);
        i := i + 1;
      }
      StunEnds(servers[..n], stun, i, MAX_ICE_SERVERS - 1 - n);
    }

    method BuildIceServers(stun: Option<seq<Json>>, turn: TurnJson) returns (n: nat, ghost pick: Option<string>)
      requires servers.Length == MAX_ICE_SERVERS
      modifies servers
      ensures n <= MAX_ICE_SERVERS && servers[..n] == Stun(stun) + TurnEntry(turn, pick)
      ensures PicksFrom(turn, pick)
      ensures pick.Some? && 1 <= |pick.value| <= 127 && turn.username.Str? && turn.credential.Str? ==>
                && n > 0 && servers[n - 1].url == pick.value
                && IsKept(servers[n - 1].user, turn.username.s) && IsKept(servers[n - 1].psw, turn.credential.s)
    {
      n, pick := 0, None;
      if stun.Some? { n := AddStun(stun.value); }
      if turn.Object? && turn.urls.Some? && |turn.urls.value| > 0 {
        var picked := PickUrl(turn.urls.value);
        pick := picked;
        if picked.Some? && turn.username.Str? && turn.credential.Str? && n < MAX_ICE_SERVERS {
          if UrlFits(picked.value) {
            ghost var done := servers[..n];
            servers[n] := Entry(picked.value, Some(Clip(turn.username.s)), Some(Clip(turn.credential.s)));
            assert servers[..n + 1] == done + [servers[n]];
            n := n + 1;
          }
        }
      }
    }
  }

  lemma ContainsExactly(s: string, part: string)
    ensures Contains(s, part) <==> exists a: string, b: string :: s == a + part + b
  {
    if Contains(s, part) {
      var i :| 0 <= i <= |s| && StandsAt(s, part, i);
      assert s == s[..i] + part + s[i + |part|..];
    }
    if a: string, b: string :| s == a + part + b {
      assert s[|a|..|a| + |part|] == part;
      assert StandsAt(s, part, |a|);
    }
  }

  /** A URL offers UDP exactly if the parameter stands anywhere in it. */
  lemma UdpExactly(j: Json)
    ensures IsUdp(j) <==> j.Str? && exists a: string, b: string :: j.s == a + "transport=udp" + b
  {
    if j.Str? { ContainsExactly(j.s, "transport=udp"); }
  }

  /** The strings before the first item that is none. */
  function Leading(items: seq<Json>): seq<string> {
    if items == [] || items[0].NotStr? then [] else [items[0].s] + Leading(items[1..])
  }

  /** The URLs of 1 to 127 bytes. */
  function Fitting(urls: seq<string>): seq<string> {
    if urls == [] then [] else (if 1 <= |urls[0]| <= 127 then [urls[0]] else []) + Fitting(urls[1..])
  }

  function FirstOf(urls: seq<string>, n: nat): seq<string> {
    if |urls| <= n then urls else urls[..n]
  }

  function Bare(urls: seq<string>): seq<Entry> {
    seq(|urls|, i requires 0 <= i < |urls| => Entry(urls[i], None, None))
  }

  lemma {:induction false} StunFrom(items: seq<Json>, room: nat)
    ensures StunEntries(items, room) == Bare(FirstOf(Fitting(Leading(items)), room))
    decreases |items|
  {
    if room != 0 && items != [] && items[0].Str? {
      var url, rest := items[0].s, Leading(items[1..]);
      assert Leading(items)[0] == url && Leading(items)[1..] == rest;
      if 1 <= |url| <= 127 {
        StunFrom(items[1..], room - 1);
        var more := Fitting(rest);
        assert FirstOf([url] + more, room) == [url] + FirstOf(more, room - 1);
      } else {
        StunFrom(items[1..], room);
        assert [] + Fitting(rest) == Fitting(rest);
      }
    }
  }

  /** The table's STUN entries are the first three fitting URLs of the strings before the first item that is none. */
  lemma StunExactly(stun: seq<Json>)
    ensures Stun(Some(stun)) == Bare(FirstOf(Fitting(Leading(stun)), 3))
  {
    StunFrom(stun, 3);
  }

  /** What is kept of a credential: all of it up to 128 bytes, and else its first 128. */
  predicate IsKept(kept: Option<string>, offered: string) {
    kept.Some? && kept.value <= offered && |kept.value| == if |offered| <= 128 then |offered| else 128
  }

  /** There is a TURN entry exactly for a picked URL of 1 to 127 bytes with two string credentials; it carries them,
      cut at 128 bytes. */
  lemma TurnEntryExactly(turn: TurnJson, pick: Option<string>)
    requires PicksFrom(turn, pick)
    ensures var made := TurnEntry(turn, pick);
            && |made| <= 1
            && (made != [] <==> pick.Some? && 1 <= |pick.value| <= 127 && turn.username.Str? && turn.credential.Str?)
            && (made != [] ==> made[0].url == pick.value
                               && IsKept(made[0].user, turn.username.s) && IsKept(made[0].psw, turn.credential.s))
  {
  }

  lemma PickIsUnique(urls: seq<Json>, a: Option<string>, b: Option<string>)
    requires IsPick(urls, a) && IsPick(urls, b)
    ensures a == b
  {
    if exists i :: 0 <= i < |urls| && IsUdp(urls[i]) {
      var i :| 0 <= i < |urls| && IsUdp(urls[i]) && a == Some(urls[i].s) && forall k :: 0 <= k < i ==> !IsUdp(urls[k]);
      var j :| 0 <= j < |urls| && IsUdp(urls[j]) && b == Some(urls[j].s) && forall k :: 0 <= k < j ==> !IsUdp(urls[k]);
      assert i == j;
    } else if exists i :: 0 <= i < |urls| && urls[i].Str? {
      var i :| 0 <= i < |urls| && urls[i].Str? && a == Some(urls[i].s) && forall k :: 0 <= k < i ==> !urls[k].Str?;
      var j :| 0 <= j < |urls| && urls[j].Str? && b == Some(urls[j].s) && forall k :: 0 <= k < j ==> !urls[k].Str?;
      assert i == j;
    }
  }

  lemma FirstUdpIsPicked(urls: seq<Json>, i: nat, pick: Option<string>)
    requires IsPick(urls, pick) && i < |urls| && IsUdp(urls[i]) && forall j :: 0 <= j < i ==> !IsUdp(urls[j])
    ensures pick == Some(urls[i].s)
  {
    PickIsUnique(urls, pick, Some(urls[i].s));
  }

  lemma FirstStringIsPicked(urls: seq<Json>, i: nat, pick: Option<string>)
    requires IsPick(urls, pick) && forall j :: 0 <= j < |urls| ==> !IsUdp(urls[j])
    requires i < |urls| && urls[i].Str? && forall j :: 0 <= j < i ==> urls[j].NotStr?
    ensures pick == Some(urls[i].s)
  {
    PickIsUnique(urls, pick, Some(urls[i].s));
  }

  lemma Between<T>(before: seq<T>, x: T, after: seq<T>)
    ensures var s := before + [x] + after;
            s[|before|] == x && forall j :: 0 <= j < |before| ==> s[j] == before[j] && s[j] in before
  {
  }

  /** Whatever comes after it, the first URL that offers UDP is picked, however many others come before; without any,
      the first string. */
  lemma PickExactly(before: seq<Json>, url: Json, after: seq<Json>, pick: Option<string>)
    requires url.Str? && IsPick(before + [url] + after, pick)
    requires if IsUdp(url) then forall u :: u in before ==> !IsUdp(u)
             else (forall u :: u in before ==> u.NotStr?) && forall u :: u in before + [url] + after ==> !IsUdp(u)
    ensures pick == Some(url.s)
  {
    var urls := before + [url] + after;
    Between(before, url, after);
    if IsUdp(url) {
      FirstUdpIsPicked(urls, |before|, pick);
    } else {
      assert forall j :: 0 <= j < |urls| ==> urls[j] in urls;
      FirstStringIsPicked(urls, |before|, pick);
    }
  }

  /** STUN never takes the TURN entry's place: whatever the STUN list, a TURN entry that can be made is the
      table's last, and the table holds at most four. */
  lemma TurnIsNeverCrowdedOut(stun: Option<seq<Json>>, turn: TurnJson, pick: Option<string>)
    ensures var table := Stun(stun) + TurnEntry(turn, pick);
            && |table| <= MAX_ICE_SERVERS
            && (forall i :: 0 <= i < |table| ==> UrlFits(table[i].url))
            && (TurnEntry(turn, pick) != [] ==> table[|table| - 1] == TurnEntry(turn, pick)[0])
  {
    if stun.Some? { StunUrlsFit(stun.value, MAX_ICE_SERVERS - 1); }
  }

  lemma {:induction false} StunUrlsFit(items: seq<Json>, room: nat)
    ensures forall i :: 0 <= i < |StunEntries(items, room)| ==> UrlFits(StunEntries(items, room)[i].url)
    decreases |items|
  {
    if room != 0 && items != [] && items[0].Str? {
      StunUrlsFit(items[1..], if UrlFits(items[0].s) then room - 1 else room);
    }
  }

  // ---- cloudflare/src/turn.ts: the minted servers ----

  const CF_STUN: string := "stun:stun.cloudflare.com:3478"
  const CF_TURN_UDP: string := "turn:turn.cloudflare.com:3478?transport=udp"

  const CF_TURN_TCP: string := "turn:turn.cloudflare.com:3478?transport=tcp"
  const CF_TURNS_TCP: string := "turns:turn.cloudflare.com:5349?transport=tcp"

  /** Primary ports only, in canonical order. */
  const KEEP_TURN_URLS: seq<string> := [CF_TURN_UDP, CF_TURN_TCP, CF_TURNS_TCP]

  /** An element of the response; an absent or empty string is `None`, and so is a `urls` that is not an array. */
  datatype CfEntry = CfEntry(urls: Option<seq<string>>, username: Option<string>, credential: Option<string>)

  predicate Usable(e: CfEntry) {
    e.urls.Some? && e.username.Some? && e.credential.Some?
  }

  function Filter(keep: seq<string>, offered: seq<string>): seq<string> {
    if keep == [] then [] else (if keep[0] in offered then [keep[0]] else []) + Filter(keep[1..], offered)
  }

  function Primary(offered: seq<string>): seq<string> {
    var primary := Filter(KEEP_TURN_URLS, offered);
    if |primary| > 0 then primary else offered
  }

  /** The servers of a session from the response's entries. */
  function Normalised(entries: seq<CfEntry>): IceServers {
    if entries == [] then IceServers([CF_STUN], None)
    else if Usable(entries[0]) then
      var e := entries[0];
      IceServers([CF_STUN], Some(TurnCreds(Primary(e.urls.value), e.username.value, e.credential.value)))
    else Normalised(entries[1..])
  }

  /** The minted servers as an offer carries them. */
  function AsStrings(ss: seq<string>): seq<Json> {
    seq(|ss|, i requires 0 <= i < |ss| => Str(ss[i]))
  }

  function AsTurn(t: Option<TurnCreds>): TurnJson {
    match t
    case None => NoObject
    case Some(c) => Object(Some(AsStrings(c.urls)), Str(c.username), Str(c.credential))
  }

  lemma UdpIsUdp()
    ensures IsUdp(Str(CF_TURN_UDP)) && UrlFits(CF_TURN_UDP)
  {
    assert StandsAt(CF_TURN_UDP, UDP, 30);
  }

  lemma {:induction false} NormalisedUsesFirst(entries: seq<CfEntry>, k: nat)
    requires k < |entries| && Usable(entries[k]) && forall j :: 0 <= j < k ==> !Usable(entries[j])
    ensures var e := entries[k];
            Normalised(entries) ==
              IceServers([CF_STUN], Some(TurnCreds(Primary(e.urls.value), e.username.value, e.credential.value)))
    decreases k
  {
    if k > 0 { NormalisedUsesFirst(entries[1..], k - 1); }
  }

  /** Without an entry of URLs, a username and a credential, and only then, the session has STUN alone. */
  lemma {:induction false} StunAloneExactly(entries: seq<CfEntry>)
    ensures Normalised(entries).stun == [CF_STUN]
    ensures Normalised(entries).turn.None? <==>
            forall k :: 0 <= k < |entries| ==>
              entries[k].urls.None? || entries[k].username.None? || entries[k].credential.None?
  {
    if entries != [] && !Usable(entries[0]) {
      StunAloneExactly(entries[1..]);
      assert forall k :: 0 < k < |entries| ==> entries[k] == entries[1..][k - 1];
    }
  }

  function IfOffered(url: string, offered: seq<string>): seq<string> {
    if url in offered then [url] else []
  }

  lemma FilterUnfolds(url: string, keep: seq<string>, offered: seq<string>)
    ensures Filter([url] + keep, offered) == IfOffered(url, offered) + Filter(keep, offered)
  {
    assert ([url] + keep)[1..] == keep;
  }

  /** The URLs of a session are the primary ones that were offered, UDP before TCP before TLS whatever the offer's
      order, or else those offered. */
  lemma PrimaryExactly(offered: seq<string>)
    ensures var primary :=
              IfOffered(CF_TURN_UDP, offered) + IfOffered(CF_TURN_TCP, offered) + IfOffered(CF_TURNS_TCP, offered);
            Primary(offered) == if primary == [] then offered else primary
  {
    var u, t, s := IfOffered(CF_TURN_UDP, offered), IfOffered(CF_TURN_TCP, offered), IfOffered(CF_TURNS_TCP, offered);
    FilterUnfolds(CF_TURNS_TCP, [], offered);
    FilterUnfolds(CF_TURN_TCP, [CF_TURNS_TCP], offered);
    FilterUnfolds(CF_TURN_UDP, [CF_TURN_TCP, CF_TURNS_TCP], offered);
    assert [CF_TURNS_TCP] + [] == [CF_TURNS_TCP] && [CF_TURN_TCP] + [CF_TURNS_TCP] == [CF_TURN_TCP, CF_TURNS_TCP];
    assert [CF_TURN_UDP] + [CF_TURN_TCP, CF_TURNS_TCP] == KEEP_TURN_URLS && u + (t + (s + [])) == u + t + s;
  }

  /** From the provider's answer to the device's table: when the entry chosen there offers the canonical UDP
      relay, the device uses that very URL, wherever it stands among the others, with the minted credentials: literally
      up to 128 bytes, and their first 128 beyond. */
  lemma DeviceUsesCanonicalUdp(entries: seq<CfEntry>, k: nat, pick: Option<string>)
    requires k < |entries| && Usable(entries[k]) && forall j :: 0 <= j < k ==> !Usable(entries[j])
    requires CF_TURN_UDP in entries[k].urls.value
    requires PicksFrom(AsTurn(Normalised(entries).turn), pick)
    ensures var servers, username, credential :=
              Normalised(entries), entries[k].username.value, entries[k].credential.value;
            var table := Stun(Some(AsStrings(servers.stun))) + TurnEntry(AsTurn(servers.turn), pick);
            && |table| == 2 && table[0] == Entry(CF_STUN, None, None) && table[1].url == CF_TURN_UDP
            && IsKept(table[1].user, username) && IsKept(table[1].psw, credential)
            && (|username| <= 128 && |credential| <= 128 ==>
                  table[1] == Entry(CF_TURN_UDP, Some(username), Some(credential)))
  {
    NormalisedUsesFirst(entries, k);
    var creds := TurnCreds(Primary(entries[k].urls.value), entries[k].username.value, entries[k].credential.value);
    TableOfPicked(Normalised(entries), creds, entries[k].urls.value, pick);
    TurnEntryExactly(AsTurn(Normalised(entries).turn), pick);
  }

  lemma TableOfPicked(servers: IceServers, creds: TurnCreds, offered: seq<string>, pick: Option<string>)
    requires servers == IceServers([CF_STUN], Some(creds))
    requires creds.urls == Primary(offered) && CF_TURN_UDP in offered && PicksFrom(AsTurn(servers.turn), pick)
    ensures Stun(Some(AsStrings(servers.stun))) + TurnEntry(AsTurn(servers.turn), pick) ==
            [Entry(CF_STUN, None, None),
             Entry(CF_TURN_UDP, Some(Clip(creds.username)), Some(Clip(creds.credential)))]
  {
    CanonicalUdpIsPicked(offered, pick);
    PickedIsUsed(creds, pick);
    StunTable();
  }

  lemma PickedIsUsed(creds: TurnCreds, pick: Option<string>)
    requires pick == Some(CF_TURN_UDP)
    ensures TurnEntry(AsTurn(Some(creds)), pick) ==
            [Entry(CF_TURN_UDP, Some(Clip(creds.username)), Some(Clip(creds.credential)))]
  {
    UdpIsUdp();
  }

  lemma CanonicalUdpIsPicked(offered: seq<string>, pick: Option<string>)
    requires CF_TURN_UDP in offered && IsPick(AsStrings(Primary(offered)), pick)
    ensures pick == Some(CF_TURN_UDP)
  {
    var urls := AsStrings(Primary(offered));
    assert KEEP_TURN_URLS[0] == CF_TURN_UDP;
    assert Filter(KEEP_TURN_URLS, offered) == [CF_TURN_UDP] + Filter(KEEP_TURN_URLS[1..], offered);
    UdpIsUdp();
    assert urls[0] == Str(CF_TURN_UDP) && IsUdp(urls[0]);
    PickIsUnique(urls, pick, Some(CF_TURN_UDP));
  }

  lemma StunTable()
    ensures Stun(Some(AsStrings([CF_STUN]))) == [Entry(CF_STUN, None, None)]
  {
    var stun := AsStrings([CF_STUN]);
    assert stun == [Str(CF_STUN)] && UrlFits(CF_STUN) && stun[1..] == [];
    assert StunEntries(stun, 3) == [Entry(CF_STUN, None, None)] + StunEntries(stun[1..], 2);
  }
}
