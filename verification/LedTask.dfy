/** The pattern task of esp32-firmware/main/led.c and its command queue. */
module LedTask {
  datatype Pattern = Off | Solid | DoubleBlink | SlowBlink | FastFlash

  type Count = x: int | 0 <= x < 256 // uint8_t

  const QUEUE_LEN: nat := 4

  /** `flashes` > 0 is a transient, whose pattern is ignored. */
  datatype Command = Command(pattern: Pattern, flashes: Count)

  datatype Led = Led(current: Pattern, restore: Pattern, remaining: Count)

  const DARK: Led := Led(Off, Off, 0)

  function Take(l: Led, c: Command): Led {
    if c.flashes > 0 then l.(remaining := c.flashes, restore := l.current)
    else l.(remaining := 0, current := c.pattern)
  }

  function TakeAll(l: Led, cs: seq<Command>): Led
    decreases |cs|
  {
    if cs == [] then l else TakeAll(Take(l, cs[0]), cs[1..])
  }

  function Active(l: Led): Pattern {
    if l.remaining > 0 then FastFlash else l.current
  }

  /** One period of the active pattern has been shown. */
  function Period(l: Led): Led {
    if l.remaining > 0 then
      var left := l.remaining - 1;
      l.(remaining := left, current := if left == 0 then l.restore else l.current)
    else l
  }

  class Task {
    var queue: seq<Command>
    var current: Pattern
    var restore: Pattern
    var remaining: Count

    ghost function Value(): Led
      reads this
    {
      Led(current, restore, remaining)
    }

    constructor ()
      ensures queue == [] && Value() == DARK
    {
      queue, current, restore, remaining := [], Off, Off, 0;
    }

    /** A send to a full queue is dropped. */
    method Send(c: Command)
      modifies this`queue
      ensures Board(Value(), queue) == Do(old(Board(Value(), queue)), Asks(c))
    {
      if |queue| < QUEUE_LEN { queue := queue + [c]; }
    }

    method Drain()
      modifies this
      ensures queue == [] && Value() == TakeAll(old(Value()), old(queue))
    {
      while queue != []
        invariant TakeAll(Value(), queue) == old(TakeAll(Value(), queue))
        decreases |queue|
      {
        var c := queue[0];
        queue := queue[1..];
        if c.flashes > 0 {
          remaining := c.flashes;
          restore := current;
        } else {
          remaining := 0;
          current := c.pattern;
        }
      }
    }

    /** One turn of the task's loop. */
    method Turn() returns (active: Pattern)
      modifies this
      ensures Board(Value(), queue) == Do(old(Board(Value(), queue)), Turns)
      ensures active == Active(old(TakeAll(Value(), queue)))
    {
      Drain();
      active := if remaining > 0 then FastFlash else current;
      if active == FastFlash && remaining > 0 {
        remaining := remaining - 1;
        if remaining == 0 { current := restore; }
      }
    }
  }

  // ---- what the task shows ----

  datatype Act = Got(c: Command) | Shown

  function Run(l: Led, acts: seq<Act>): Led
    decreases |acts|
  {
    if acts == [] then l else Run(if acts[0].Got? then Take(l, acts[0].c) else Period(l), acts[1..])
  }

  /** The last persistent pattern among the commands, or `p` if there is none. */
  function LastPersistent(p: Pattern, acts: seq<Act>): Pattern
    decreases |acts|
  {
    if acts == [] then p
    else LastPersistent(if acts[0].Got? && acts[0].c.flashes == 0 then acts[0].c.pattern else p, acts[1..])
  }

  /** The flashes left over by the last command, less the periods shown since. */
  function FlashesLeft(n: Count, acts: seq<Act>): Count
    decreases |acts|
  {
    if acts == [] then n
    else FlashesLeft(if acts[0].Got? then acts[0].c.flashes else if n > 0 then n - 1 else 0, acts[1..])
  }

  predicate RestoresCurrent(l: Led) {
    l.remaining > 0 ==> l.restore == l.current
  }

  /** However transients, patterns and periods interleave, the LED flashes exactly for the flashes still due and
      otherwise shows the last persistent pattern: a restore never brings an older pattern back. */
  lemma {:induction false} ShowsLastPersistent(l: Led, acts: seq<Act>)
    requires RestoresCurrent(l)
    ensures RestoresCurrent(Run(l, acts))
    ensures Active(Run(l, acts)) ==
            if FlashesLeft(l.remaining, acts) > 0 then FastFlash else LastPersistent(l.current, acts)
    decreases |acts|
  {
    if acts != [] {
      ShowsLastPersistent(if acts[0].Got? then Take(l, acts[0].c) else Period(l), acts[1..]);
    }
  }

  // ---- what was requested ----

  datatype Board = Board(led: Led, queue: seq<Command>)

  /** A request by any task, or a turn of the pattern task. */
  datatype Step = Asks(c: Command) | Turns

  function Do(b: Board, s: Step): Board {
    match s
    case Asks(c) => if |b.queue| < QUEUE_LEN then b.(queue := b.queue + [c]) else b
    case Turns => Board(Period(TakeAll(b.led, b.queue)), [])
  }

  function DoAll(b: Board, ss: seq<Step>): Board
    decreases |ss|
  {
    if ss == [] then b else DoAll(Do(b, ss[0]), ss[1..])
  }

  /** What the task gets of the requests, with `waiting` of them queued: those that find the queue full are lost. */
  function Heard(waiting: nat, ss: seq<Step>): seq<Act>
    decreases |ss|
  {
    if ss == [] then []
    else if ss[0].Turns? then [Shown] + Heard(0, ss[1..])
    else if waiting < QUEUE_LEN then [Got(ss[0].c)] + Heard(waiting + 1, ss[1..])
    else Heard(waiting, ss[1..])
  }

  function Requested(ss: seq<Step>): seq<Act> {
    if ss == [] then [] else [if ss[0].Turns? then Shown else Got(ss[0].c)] + Requested(ss[1..])
  }

  /** No request comes when four wait. */
  predicate Roomy(waiting: nat, ss: seq<Step>)
    decreases |ss|
  {
    ss == [] ||
    (if ss[0].Turns? then Roomy(0, ss[1..]) else waiting < QUEUE_LEN && Roomy(waiting + 1, ss[1..]))
  }

  lemma {:induction false} TakeLast(l: Led, q: seq<Command>, c: Command)
    ensures TakeAll(l, q + [c]) == Take(TakeAll(l, q), c)
    decreases |q|
  {
    if q == [] {
      assert q + [c] == [c] && [c][1..] == [];
    } else {
      assert (q + [c])[1..] == q[1..] + [c];
      TakeLast(Take(l, q[0]), q[1..], c);
    }
  }

  /** The queue delays but does not reorder: once drained, the task stands where the accepted requests put it. */
  lemma {:induction false} DrainedIsHeard(b: Board, ss: seq<Step>)
    requires |b.queue| <= QUEUE_LEN
    ensures var z := DoAll(b, ss);
            |z.queue| <= QUEUE_LEN && TakeAll(z.led, z.queue) == Run(TakeAll(b.led, b.queue), Heard(|b.queue|, ss))
    decreases |ss|
  {
    if ss != [] {
      var l, rest := TakeAll(b.led, b.queue), Heard(|Do(b, ss[0]).queue|, ss[1..]);
      DrainedIsHeard(Do(b, ss[0]), ss[1..]);
      if ss[0].Turns? {
        assert Heard(|b.queue|, ss) == [Shown] + rest && ([Shown] + rest)[1..] == rest;
        assert Run(l, [Shown] + rest) == Run(Period(l), rest);
      } else if |b.queue| < QUEUE_LEN {
        TakeLast(b.led, b.queue, ss[0].c);
        assert Heard(|b.queue|, ss) == [Got(ss[0].c)] + rest && ([Got(ss[0].c)] + rest)[1..] == rest;
        assert Run(l, [Got(ss[0].c)] + rest) == Run(Take(l, ss[0].c), rest);
      }
    }
  }

  /** Every request is heard exactly if none finds the queue full. */
  lemma {:induction false} HeardIsRequestedExactly(waiting: nat, ss: seq<Step>)
    ensures |Heard(waiting, ss)| <= |Requested(ss)|
    ensures |Heard(waiting, ss)| == |Requested(ss)| <==> Roomy(waiting, ss)
    ensures Heard(waiting, ss) == Requested(ss) <==> Roomy(waiting, ss)
    decreases |ss|
  {
    if ss != [] {
      var next := if ss[0].Turns? then 0 else if waiting < QUEUE_LEN then waiting + 1 else waiting;
      HeardIsRequestedExactly(next, ss[1..]);
    }
  }

  /** What the LED is called on to show after these acts, from the dark. */
  function CalledFor(acts: seq<Act>): Pattern {
    if FlashesLeft(0, acts) > 0 then FastFlash else LastPersistent(Off, acts)
  }

  /** From the dark, through any requests and turns: a turn shows what the accepted requests call for. The requests are
      all accepted exactly if none finds four waiting, and then what is shown is what was requested. */
  lemma ShowsWhatWasRequested(ss: seq<Step>)
    ensures var z := DoAll(Board(DARK, []), ss);
            && Active(TakeAll(z.led, z.queue)) == CalledFor(Heard(0, ss))
            && (Heard(0, ss) == Requested(ss) <==> Roomy(0, ss))
            && (Roomy(0, ss) ==> Active(TakeAll(z.led, z.queue)) == CalledFor(Requested(ss)))
  {
    DrainedIsHeard(Board(DARK, []), ss);
    ShowsLastPersistent(DARK, Heard(0, ss));
    HeardIsRequestedExactly(0, ss);
  }

  /** A lost request shows: after four requests for FAST_FLASH the fifth, for SOLID, finds the queue full. */
  lemma LostRequestShows()
    ensures var f, on := Asks(Command(FastFlash, 0)), Asks(Command(Solid, 0));
            var ss := [f, f, f, f, on];
            var z := DoAll(Board(DARK, []), ss);
            Active(TakeAll(z.led, z.queue)) == FastFlash && CalledFor(Requested(ss)) == Solid
  {
    var f, on := Command(FastFlash, 0), Command(Solid, 0);
    var r1 := AsksFirst(4, on, []);
    var r2 := AsksFirst(3, f, r1);
    var r3 := AsksFirst(2, f, r2);
    var r4 := AsksFirst(1, f, r3);
    var r5 := AsksFirst(0, f, r4);
    assert r5 == [Asks(f), Asks(f), Asks(f), Asks(f), Asks(on)];
    var g := Got(f);
    assert Heard(0, r5) == [g, g, g] + [g] && Requested(r5) == [g, g, g, g] + [Got(on)];
    LastOf(Off, [g, g, g], g);
    LastOf(Off, [g, g, g, g], Got(on));
    ShowsWhatWasRequested(r5);
  }

  lemma AsksFirst(waiting: nat, c: Command, rest: seq<Step>) returns (ss: seq<Step>)
    ensures ss == [Asks(c)] + rest && Requested(ss) == [Got(c)] + Requested(rest)
    ensures Heard(waiting, ss) ==
            if waiting < QUEUE_LEN then [Got(c)] + Heard(waiting + 1, rest) else Heard(waiting, rest)
  {
    ss := [Asks(c)] + rest;
    assert ss[1..] == rest;
  }

  lemma {:induction false} LastOf(p: Pattern, acts: seq<Act>, last: Act)
    requires last.Got? && last.c.flashes == 0
    ensures LastPersistent(p, acts + [last]) == last.c.pattern
    ensures forall n :: FlashesLeft(n, acts + [last]) == 0
    decreases |acts|
  {
    if acts == [] {
      assert acts + [last] == [last] && [last][1..] == [];
    } else {
      assert (acts + [last])[1..] == acts[1..] + [last];
      LastOf(if acts[0].Got? && acts[0].c.flashes == 0 then acts[0].c.pattern else p, acts[1..], last);
    }
  }
}
