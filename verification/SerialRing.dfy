/** serial.c: the transmit ring and its busy protocol.  Each operation runs with
    interrupts off, so it is one atomic step. */
module SerialLine {

  import opened MachineWords

  const BUFF_SIZE := 1024
  // One slot stays empty to tell a full ring from an empty one.
  const CAPACITY := 1023

  // ---- What the ring stands for ------------------------------------------------

  /** Bytes waiting, whether the transmitter is believed busy, and every byte ever
      written to the transmit register. */
  datatype Line = Line(queue: seq<u8>, busy: bool, sent: seq<u8>)

  datatype Event =
    | Write(bytes: seq<u8>, lsr: u8)   // SER_write, with the line status it would read
    | Flush                            // SER_flush
    | Interrupt(iir: u8)               // ser_irq_handler, with the cause it reads

  /** How much of a write fits. */
  function Accepted(l: Line, bytes: seq<u8>): seq<u8> {
    if |bytes| <= CAPACITY - |l.queue| then bytes
    else if |l.queue| <= CAPACITY then bytes[..CAPACITY - |l.queue|] else []
  }

  /** init_hw_write once `busy` has been brought up to date. */
  function Kick(l: Line): Line {
    if l.busy || l.queue == [] then l
    else Line(l.queue[1..], true, l.sent + [l.queue[0]])
  }

  predicate TxEmpty(lsr: u8) {
    lsr / 32 % 2 == 1
  }

  predicate TxAvailable(iir: u8) {
    iir / 2 == 1
  }

  function Do(l: Line, e: Event): Line {
    match e
    case Write(bytes, lsr) =>
      Kick(l.(queue := l.queue + Accepted(l, bytes), busy := l.busy && !TxEmpty(lsr)))
    case Flush => Line([], false, l.sent + l.queue)
    case Interrupt(iir) => if TxAvailable(iir) then Kick(l.(busy := false)) else l
  }

  function Run(l: Line, events: seq<Event>): Line
    decreases |events|
  {
    if events == [] then l else Run(Do(l, events[0]), events[1..])
  }

  /** Everything that the writes of a run accepted, in order. */
  function AcceptedBy(l: Line, events: seq<Event>): seq<u8>
    decreases |events|
  {
    if events == [] then []
    else (if events[0].Write? then Accepted(l, events[0].bytes) else []) + AcceptedBy(Do(l, events[0]), events[1..])
  }

  /** A queue that is not empty has a transmission under way. */
  predicate Moving(l: Line) {
    |l.queue| <= CAPACITY && (l.queue != [] ==> l.busy)
  }

  lemma DoConserves(l: Line, e: Event)
    requires |l.queue| <= CAPACITY
    ensures var m := Do(l, e);
            m.sent + m.queue == l.sent + l.queue + (if e.Write? then Accepted(l, e.bytes) else [])
    ensures |Do(l, e).queue| <= CAPACITY
    ensures e.Write? || e.Flush? || TxAvailable(e.iir) || Moving(l) ==> Moving(Do(l, e))
    ensures e.Write? ==>
              |Accepted(l, e.bytes)| == (if |e.bytes| <= CAPACITY - |l.queue| then |e.bytes| else CAPACITY - |l.queue|)
                         && Accepted(l, e.bytes) <= e.bytes
  {
    hide TxEmpty, TxAvailable;
    var a := if e.Write? then Accepted(l, e.bytes) else [];
    var before := l.sent + l.queue + a;
    assert before == l.sent + (l.queue + a);
    var q := l.queue + a;
    if q != [] { assert q == [q[0]] + q[1..]; }
    if e.Flush? { assert before == (l.sent + l.queue) + []; }
  }

  /** Over any mix of writes, flushes and interrupts the line is a FIFO: what was
      sent, followed by what still waits, is exactly what was accepted, in order; and
      no byte is ever stranded behind an idle transmitter. */
  lemma {:induction false} RunIsFifo(l: Line, events: seq<Event>)
    requires Moving(l)
    ensures Moving(Run(l, events))
    ensures Run(l, events).sent + Run(l, events).queue == l.sent + l.queue + AcceptedBy(l, events)
    decreases |events|
  {
    if events != [] {
      var m := Do(l, events[0]);
      var a := if events[0].Write? then Accepted(l, events[0].bytes) else [];
      DoConserves(l, events[0]);
      RunIsFifo(m, events[1..]);
      assert l.sent + l.queue + a + AcceptedBy(m, events[1..]) == l.sent + l.queue + (a + AcceptedBy(m, events[1..]));
    } else {
      assert l.sent + l.queue + [] == l.sent + l.queue;
    }
  }

  lemma {:induction false} RunAppend(l: Line, first: seq<Event>, rest: seq<Event>)
    ensures Run(l, first + rest) == Run(Run(l, first), rest)
    decreases |first|
  {
    if first == [] {
      assert first + rest == rest;
    } else {
      assert (first + rest)[1..] == first[1..] + rest;
      RunAppend(Do(l, first[0]), first[1..], rest);
    }
    hide Do;
  }

  /** From any state of the line, busy or stuck. */
  lemma {:induction false} RunConserves(l: Line, events: seq<Event>)
    requires |l.queue| <= 1023
    ensures |Run(l, events).queue| <= 1023
    ensures Run(l, events).sent + Run(l, events).queue == l.sent + l.queue + AcceptedBy(l, events)
    decreases |events|
  {
    if events != [] {
      var m := Do(l, events[0]);
      var a := if events[0].Write? then Accepted(l, events[0].bytes) else [];
      DoConserves(l, events[0]);
      RunConserves(m, events[1..]);
      assert l.sent + l.queue + a + AcceptedBy(m, events[1..]) == l.sent + l.queue + (a + AcceptedBy(m, events[1..]));
    } else {
      assert l.sent + l.queue + [] == l.sent + l.queue;
    }
  }

  /** A flush at the end of any run leaves nothing behind: everything accepted was sent,
      and the line is empty and idle. */
  lemma FlushEmpties(l: Line, events: seq<Event>)
    requires |l.queue| <= 1023
    ensures var m := Run(l, events + [Flush]);
            m.queue == [] && !m.busy && m.sent == l.sent + l.queue + AcceptedBy(l, events)
  {
    RunConserves(l, events);
    RunAppend(l, events, [Flush]);
    var k := Run(l, events);
    assert [Flush][1..] == [];
    assert Run(k, [Flush]) == Run(Do(k, Flush), []) == Do(k, Flush);
    hide Run, Accepted, AcceptedBy;
  }

  /** A write adds what fits below 1023 bytes.  Then it sends one byte, the oldest, if
      the line was idle or bit 5 of the line status says that the transmitter is empty;
      otherwise it sends none. */
  lemma WriteSends(l: Line, bytes: seq<u8>, lsr: u8)
    requires |l.queue| <= 1023
    ensures var m := Do(l, Write(bytes, lsr));
            var fits := if |l.queue| + |bytes| <= 1023 then |bytes| else 1023 - |l.queue|;
            var waiting := l.queue + bytes[..fits];
            var empty := 32 <= lsr % 64;
            if (!l.busy || empty) && waiting != []
            then m == Line(waiting[1..], true, l.sent + [waiting[0]])
            else m == Line(waiting, l.busy && !empty, l.sent)
  {
    assert 32 <= lsr % 64 <==> lsr / 32 % 2 == 1;
    if |l.queue| + |bytes| <= 1023 { assert bytes[..|bytes|] == bytes; }
  }

  /** An interrupt sends one byte, the oldest, if its cause is an empty transmitter, which
      reads as 2 or 3; with nothing waiting the line falls idle.  Any other cause changes
      nothing. */
  lemma InterruptSends(l: Line, iir: u8)
    ensures var m := Do(l, Interrupt(iir));
            if iir != 2 && iir != 3 then m == l
            else if l.queue == [] then m == Line([], false, l.sent)
            else m == Line(l.queue[1..], true, l.sent + [l.queue[0]])
  {
    assert iir / 2 == 1 <==> iir == 2 || iir == 3;
  }

  function TxInterrupts(n: nat): seq<Event> {
    seq(n, _ => Interrupt(2))
  }

  /** Each transmit interrupt sends the next queued byte; n of them drain n bytes. */
  lemma {:induction false} InterruptsDrain(l: Line, n: nat)
    requires n <= |l.queue|
    ensures var m := Run(l, TxInterrupts(n));
            m.sent == l.sent + l.queue[..n] && m.queue == l.queue[n..]
    decreases n
  {
    if n > 0 {
      var m := Do(l, Interrupt(2));
      assert TxInterrupts(n)[1..] == TxInterrupts(n - 1);
      assert m == Line(l.queue[1..], true, l.sent + [l.queue[0]]);
      InterruptsDrain(m, n - 1);
      assert l.queue[..n] == [l.queue[0]] + l.queue[1..][..n - 1];
      assert l.queue[n..] == l.queue[1..][n - 1..];
    }
  }

  lemma SentOne(s: seq<u8>, q: seq<u8>, val: u8)
    requires q != [] && q[0] == val
    ensures (s + [val]) + q[1..] == s + q
  {
  }

  lemma OneMore(q: seq<u8>, bytes: seq<u8>, i: nat)
    requires i < |bytes|
    ensures q + bytes[..i] + [bytes[i]] == q + bytes[..i + 1]
  {
  }

  // ---- The ring ----------------------------------------------------------------

  class SerialPort {
    const buff: array<u8>
    var c: nat          // next to consume
    var p: nat          // next to produce
    var busy: bool
    ghost var sent: seq<u8>

    ghost predicate Valid()
      reads this, buff
    {
      buff.Length == BUFF_SIZE && c < BUFF_SIZE && p < BUFF_SIZE
    }

    ghost function Queue(): seq<u8>
      reads this, buff
      requires Valid()
    {
      if c <= p then buff[c..p] else buff[c..] + buff[..p]
    }

    ghost function State(): Line
      reads this, buff
      requires Valid()
    {
      Line(Queue(), busy, sent)
    }

    /** SER_init */
    constructor ()
      ensures Valid() && fresh(buff) && State() == Line([], false, [])
    {
      buff := new u8[1024];
      c, p, busy := 0, 0, false;
      sent := [];
    }

    /** Writes a byte to the transmit register. */
    method Transmit(val: u8)
      modifies `sent
      ensures sent == old(sent) + [val]
    {
      ghost var s := sent + [val];
      sent := s;
    }

    /** is_buff_empty */
    method IsEmpty() returns (r: bool)
      requires Valid()
      ensures r <==> Queue() == []
    {
      r := c == p;
    }

    /** is_buff_full */
    method IsFull() returns (r: bool)
      requires Valid()
      ensures r <==> |Queue()| == CAPACITY
      ensures |Queue()| <= CAPACITY
    {
      r := p == c - 1 || p == c + 1024 - 1;
    }

    method Consume() returns (ok: bool, val: u8)
      requires Valid()
      modifies `c
      ensures Valid()
      ensures ok <==> old(Queue()) != []
      ensures !ok ==> c == old(c)
      ensures ok ==> val == old(Queue())[0] && Queue() == old(Queue())[1..]
    {
      var empty := IsEmpty();
      if empty {
        return false, 0;
      }
      ghost var q := Queue();
      val := buff[c];
      c := c + 1;
      if c == 1024 {
        c := 0;
      }
      assert Queue() == q[1..];
      ok := true;
    }

    method Produce(val: u8) returns (ok: bool)
      requires Valid()
      modifies `p, buff
      ensures Valid()
      ensures ok <==> |old(Queue())| < CAPACITY
      ensures Queue() == if ok then old(Queue()) + [val] else old(Queue())
    {
      var full := IsFull();
      if full {
        return false;
      }
      ghost var q := Queue();
      buff[p] := val;
      p := p + 1;
      if p == 1024 {
        p := 0;
      }
      assert Queue() == q + [val];
      ok := true;
    }

    /** init_hw_write; `lsr` is what reading the line status register would give. */
    method InitHwWrite(lsr: u8)
      requires Valid()
      modifies `c, `busy, `sent
      ensures Valid()
      ensures State() == Kick(old(State()).(busy := old(busy) && !TxEmpty(lsr)))
    {
      if busy {
        if lsr / 32 % 2 == 1 {
          busy := false;
        }
      }
      if !busy {
        var ok, val := Consume();
        if ok {
          busy := true;
          Transmit(val);
        }
      }
    }

    /** SER_write */
    method SerWrite(bytes: seq<u8>, lsr: u8)
      requires Valid()
      modifies this, buff
      ensures Valid() && State() == Do(old(State()), Write(bytes, lsr))
    {
      ghost var l := State();
      var i := ProduceAll(bytes);
      assert bytes[..i] == Accepted(l, bytes);
      hide Kick, Accepted;
      InitHwWrite(lsr);
    }

    /** SER_write's loop: produce until the ring is full; returns how many bytes fitted. */
    method ProduceAll(bytes: seq<u8>) returns (i: nat)
      requires Valid()
      modifies `p, buff
      ensures Valid() && |old(Queue())| <= CAPACITY
      ensures i == (if |bytes| <= CAPACITY - |old(Queue())| then |bytes| else CAPACITY - |old(Queue())|)
      ensures i <= |bytes| && Queue() == old(Queue()) + bytes[..i]
    {
      ghost var q := Queue();
      var full := IsFull();
      i := 0;
      assert q + bytes[..0] == q;
      while i < |bytes|
        invariant 0 <= i <= |bytes| && Valid()
        invariant Queue() == q + bytes[..i] && |q| + i <= CAPACITY
      {
        var more := Produce(bytes[i]);
        if !more {
          return;
        }
        OneMore(q, bytes, i);
        i := i + 1;
      }
    }

    /** SER_flush; the register is written without waiting. */
    method SerFlush()
      requires Valid()
      modifies this
      ensures Valid() && State() == Do(old(State()), Flush)
    {
      ghost var all := sent + Queue();
      while true
        invariant Valid() && sent + Queue() == all
        decreases |Queue()|
      {
        ghost var q, s := Queue(), sent;
        var ok, val := Consume();
        if !ok {
          break;
        }
        Transmit(val);
        SentOne(s, q, val);
      }
      busy := false;
    }

    /** ser_irq_handler; `iir` is what the interrupt identification register gives. */
    method IrqHandler(iir: u8)
      requires Valid()
      modifies `c, `busy, `sent
      ensures Valid() && State() == Do(old(State()), Interrupt(iir))
    {
      var intState := iir / 2;
      if intState == 3 {
        // reading the line status clears the cause
      } else if intState == 1 {
        busy := false;
        InitHwWrite(0);
      }
    }
  }
}
