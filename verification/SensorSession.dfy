/** A meter's session in the older firmware (mote-sensors/mote-teleinfo/main.c): the receive
    interrupt, the processor thread and the power of the serial interface, as steps in any order. */
module SensorSession {
  import opened Text
  import opened MeterReport
  import opened Uart
  import opened MeterText
  import opened Sentinel

  /** Where processor_thread stands in its loop. */
  datatype Turn =
    | Waiting                   // in msg_receive
    | Fetched                   // has a message, before ringbuffer_get
    | Checking(line: string)    // has a line
    | Stopping                  // report sent and fields set to 0, before uart_poweroff

  datatype State = State(
    meter: nat,                 // cur_pitinfo
    fields: Fields,
    uartOn: bool,
    ring: string,
    inbox: nat,                 // newline messages queued for the thread
    turn: Turn,
    sent: seq<string>)          // what data_tx was given

  const BOOT := State(0, ZEROED, true, "", 0, Waiting, [])

  /** What happens within a session; main only ends it. */
  datatype Event = Byte(data: byte) | Thread | PowerOff

  /** Main opens the session of a meter. */
  function Open(s: State, meter: nat): State {
    s.(meter := meter, fields := UNREAD, uartOn := true)
  }

  /** rx_cb, which runs only while the interface has power. */
  function OnByte(s: State, data: byte): State {
    var c := SevenBits(data);
    if !s.uartOn then s
    else if c == '\n' then
      if s.turn.Waiting? && s.inbox == 0 then s.(turn := Fetched)
      else if s.inbox < QUEUE_SIZE then s.(inbox := s.inbox + 1)
      else s
    else if c >= ' ' then s.(ring := AddOne(s.ring, c))
    else s
  }

  /** One step of processor_thread. */
  function OnThread(s: State): State {
    match s.turn
    case Waiting => if s.inbox > 0 then s.(inbox := s.inbox - 1, turn := Fetched) else s
    case Fetched => s.(ring := "", turn := Checking(s.ring))
    case Checking(line) =>
      var (f, due) := Process(s.fields, line);
      if due.Some? then s.(fields := f, turn := Stopping, sent := s.sent + [ProcessorText(s.meter, due.value)])
      else s.(fields := f, turn := Waiting)
    case Stopping => s.(uartOn := false, turn := Waiting)
  }

  function Next(s: State, e: Event): State {
    match e
    case Byte(data) => OnByte(s, data)
    case Thread => OnThread(s)
    case PowerOff => s.(uartOn := false)
  }

  function Go(s: State, es: seq<Event>): State {
    if es == [] then s else Next(Go(s, es[..|es| - 1]), es[|es| - 1])
  }

  lemma {:induction false} GoAppend(s: State, es: seq<Event>, fs: seq<Event>)
    ensures Go(s, es + fs) == Go(Go(s, es), fs)
  {
    if fs == [] {
      assert es + fs == es;
    } else {
      assert (es + fs)[..|es + fs| - 1] == es + fs[..|fs| - 1];
      GoAppend(s, es, fs[..|fs| - 1]);
    }
  }

  lemma GoNext(s: State, es: seq<Event>, e: Event)
    ensures Go(s, es + [e]) == Next(Go(s, es), e)
  {
    assert (es + [e])[..|es|] == es;
  }

  // ---------------------------------------------------------------- without power

  /** The lines that the thread takes for so many messages when no byte comes. */
  function Drained(ring: string, messages: nat): seq<string>
    decreases messages
  {
    if messages == 0 then [] else [ring] + Drained("", messages - 1)
  }

  /** The lines that the thread has still to handle when no byte comes. */
  function Pending(s: State): seq<string> {
    match s.turn
    case Fetched => Drained(s.ring, s.inbox + 1)
    case Checking(line) => [line] + Drained(s.ring, s.inbox)
    case _ => Drained(s.ring, s.inbox)
  }

  /** What is sent for these lines. */
  function Texts(meter: nat, f: Fields, lines: seq<string>): seq<string>
    decreases |lines|
  {
    if lines == [] then []
    else
      var (f', due) := Process(f, lines[0]);
      (if due.Some? then [ProcessorText(meter, due.value)] else []) + Texts(meter, f', lines[1..])
  }

  function Owed(s: State): seq<string> { Texts(s.meter, s.fields, Pending(s)) }

  lemma LineMoves(sent: seq<string>, now: seq<string>, later: seq<string>)
    ensures (sent + now) + later == sent + (now + later)
  {
  }

  lemma OffStep(s: State, e: Event)
    requires !s.uartOn
    ensures !Next(s, e).uartOn && Next(s, e).sent + Owed(Next(s, e)) == s.sent + Owed(s)
  {
    if e.Thread? && s.turn.Checking? {
      var (f, due) := Process(s.fields, s.turn.line);
      var later := Drained(s.ring, s.inbox);
      assert ([s.turn.line] + later)[1..] == later;
      LineMoves(s.sent, if due.Some? then [ProcessorText(s.meter, due.value)] else [], Texts(s.meter, f, later));
      assert s.sent + [] == s.sent;
    }
  }

  /** Without power, what was sent and what is still owed stay the same together, whatever happens. */
  lemma {:induction false} OffRun(s: State, es: seq<Event>)
    requires !s.uartOn
    ensures !Go(s, es).uartOn && Go(s, es).sent + Owed(Go(s, es)) == s.sent + Owed(s)
  {
    if es != [] {
      OffRun(s, es[..|es| - 1]);
      OffStep(Go(s, es[..|es| - 1]), es[|es| - 1]);
    }
  }

  /** How many steps the thread has to take. */
  function Work(s: State): nat {
    4 * s.inbox + match s.turn case Waiting => 0 case Fetched => 3 case Checking(_) => 2 case Stopping => 1
  }

  /** The thread sends all that is owed. */
  lemma {:induction false} AllOwedIsSent(s: State) returns (es: seq<Event>)
    requires !s.uartOn
    ensures Go(s, es).sent == s.sent + Owed(s)
    decreases Work(s)
  {
    if Work(s) == 0 {
      es := [];
    } else {
      var rest := AllOwedIsSent(OnThread(s));
      es := [Thread] + rest;
      GoAppend(s, [Thread], rest);
      GoNext(s, [], Thread);
      assert [] + [Thread] == [Thread];
      OffStep(s, Thread);
    }
  }

  // ---------------------------------------------------------------- after a report

  /** n times the same text. */
  function Times(text: string, n: nat): (r: seq<string>)
    ensures |r| == n
  {
    if n == 0 then [] else [text] + Times(text, n - 1)
  }

  lemma {:induction false} EmptyLinesFromZero(meter: nat, n: nat)
    ensures Texts(meter, ZEROED, Drained("", n)) == Times(ProcessorText(meter, Report(0, 0, 0)), n)
  {
    if n > 0 {
      RepeatsAfterReport("");
      assert Drained("", n)[1..] == Drained("", n - 1);
      EmptyLinesFromZero(meter, n - 1);
    }
  }

  lemma {:induction false} EmptyLinesWhenNegative(meter: nat, f: Fields, n: nat)
    requires f.papp < 0 || f.iinst < 0 || f.base < 0
    ensures Texts(meter, f, Drained("", n)) == []
  {
    if n > 0 {
      assert Drained("", n)[1..] == Drained("", n - 1);
      EmptyLinesWhenNegative(meter, f, n - 1);
    }
  }

  /** What is owed when the fields are zero: one report a message, the first with the values in the
      ring's line, or none at all. */
  lemma OwedFromZero(meter: nat, ring: string, n: nat)
    ensures Texts(meter, ZEROED, Drained(ring, n))
         == if n == 0 || StoresNegative(ring) then []
            else [ProcessorText(meter, Process(ZEROED, ring).1.value)] + Times(ProcessorText(meter, Report(0, 0, 0)), n - 1)
  {
    if n > 0 {
      RepeatsAfterReport(ring);
      assert Drained(ring, n)[1..] == Drained("", n - 1);
      if StoresNegative(ring) {
        EmptyLinesWhenNegative(meter, Process(ZEROED, ring).0, n - 1);
      } else {
        EmptyLinesFromZero(meter, n - 1);
      }
    }
  }

  // ---------------------------------------------------------------- a session

  /** With these steps the thread has just switched the power off after a report. */
  ghost predicate Stopped(s: State, es: seq<Event>) {
    es != [] && es[|es| - 1].Thread? && Go(s, es[..|es| - 1]).turn.Stopping?
  }

  lemma {:induction false} StoppingLeavesZero(s: State, es: seq<Event>)
    requires !s.turn.Stopping?
    ensures Go(s, es).turn.Stopping? ==> Go(s, es).fields == ZEROED
  {
    if es != [] { StoppingLeavesZero(s, es[..|es| - 1]); }
  }

  /** Until the thread first switches the power off, nothing was sent, or one report just now. */
  lemma {:induction false} OneBeforeStop(s: State, es: seq<Event>)
    requires !s.turn.Stopping?
    requires forall n | 0 <= n <= |es| :: !Stopped(s, es[..n])
    ensures |Go(s, es).sent| == |s.sent| + if Go(s, es).turn.Stopping? then 1 else 0
  {
    if es != [] {
      var init := es[..|es| - 1];
      forall n | 0 <= n <= |init| ensures !Stopped(s, init[..n]) {
        assert init[..n] == es[..n];
      }
      OneBeforeStop(s, init);
      assert es[..|es|] == es;
    }
  }

  /** The reports still to come in a session once the thread has switched the power off after one:
      in any continuation no more than these are sent, in some continuation all of them, and there
      are any if and only if a newline message is still queued and the line in the ring stores no
      negative value. */
  lemma ReportsAfterStop(s: State, es: seq<Event>)
    requires !s.turn.Stopping? && Stopped(s, es)
    ensures var t := Go(s, es);
            && !t.uartOn
            && (forall fs :: Go(t, fs).sent <= t.sent + Owed(t))
            && (exists fs :: Go(t, fs).sent == t.sent + Owed(t))
            && |Owed(t)| == (if StoresNegative(t.ring) then 0 else t.inbox)
            && ((exists fs :: |Go(s, es + fs).sent| > |t.sent|) <==> t.inbox > 0 && !StoresNegative(t.ring))
  {
    StoppingLeavesZero(s, es[..|es| - 1]);
    var t := Go(s, es);
    OwedFromZero(t.meter, t.ring, t.inbox);
    forall fs ensures Go(t, fs).sent <= t.sent + Owed(t) && Go(s, es + fs) == Go(t, fs) {
      OffRun(t, fs);
      GoAppend(s, es, fs);
    }
    var all := AllOwedIsSent(t);
  }

  /** The session's first report was just sent, the power is off, and more is to come. */
  ghost predicate MoreToCome(s: State, es: seq<Event>) {
    && Stopped(s, es) && |Go(s, es).sent| == |s.sent| + 1
    && Go(s, es).inbox > 0 && !StoresNegative(Go(s, es).ring)
  }

  /** A session with two reports passed through such a moment. */
  lemma {:induction false} SecondReport(s: State, es: seq<Event>)
    requires !s.turn.Stopping? && |Go(s, es).sent| >= |s.sent| + 2
    ensures exists n :: 0 <= n <= |es| && MoreToCome(s, es[..n])
  {
    if forall n | 0 <= n <= |es| :: !Stopped(s, es[..n]) {
      OneBeforeStop(s, es);
    } else {
      var n := FirstStop(s, es);
      FirstStopSent(s, es, n);
      SentAfterStop(s, es, n);
    }
  }

  lemma SentAfterStop(s: State, es: seq<Event>, n: nat)
    requires n <= |es| && !s.turn.Stopping? && Stopped(s, es[..n])
    requires |Go(s, es).sent| > |Go(s, es[..n]).sent|
    ensures Go(s, es[..n]).inbox > 0 && !StoresNegative(Go(s, es[..n]).ring)
  {
    var first, later := es[..n], es[n..];
    assert first + later == es;
    ReportsAfterStop(s, first);
    assert |Go(s, first + later).sent| > |Go(s, first).sent|;
  }

  lemma FirstStop(s: State, es: seq<Event>) returns (n: nat)
    requires exists n :: 0 <= n <= |es| && Stopped(s, es[..n])
    ensures n <= |es| && Stopped(s, es[..n]) && forall m | 0 <= m < n :: !Stopped(s, es[..m])
  {
    n := 0;
    while !Stopped(s, es[..n])
      invariant n <= |es| && forall m | 0 <= m < n :: !Stopped(s, es[..m])
      decreases |es| - n
    {
      n := n + 1;
    }
  }

  lemma FirstStopSent(s: State, es: seq<Event>, n: nat)
    requires n <= |es| && !s.turn.Stopping? && Stopped(s, es[..n])
    requires forall m | 0 <= m < n :: !Stopped(s, es[..m])
    ensures |Go(s, es[..n]).sent| == |s.sent| + 1
  {
    var init := es[..n - 1];
    assert es[..n][..n - 1] == init;
    forall m | 0 <= m <= |init| ensures !Stopped(s, init[..m]) {
      assert init[..m] == es[..m];
    }
    OneBeforeStop(s, init);
  }

  // ---------------------------------------------------------------- it happens

  /** The bytes of a line and its newline, one after the other. */
  function Bytes(line: string): (es: seq<Event>)
    requires MeterLine(line)
    ensures |es| == |line|
  {
    seq(|line|, i requires 0 <= i < |line| => Byte(line[i] as int))
  }

  lemma {:induction false} RingFills(s: State, line: string)
    requires s.uartOn && MeterLine(line) && |s.ring| + |line| <= UART_BUFSIZE
    ensures Go(s, Bytes(line)) == s.(ring := s.ring + line)
  {
    if line == "" {
      assert s.ring + "" == s.ring;
    } else {
      var init, c := line[..|line| - 1], line[|line| - 1];
      RingFills(s, init);
      assert Bytes(line)[..|line| - 1] == Bytes(init);
      CodeKept(c);
      assert s.ring + init + [c] == s.ring + line;
    }
  }

  lemma LineTaken(s: State, line: string) returns (es: seq<Event>)
    requires s.uartOn && s.inbox == 0 && s.turn.Waiting? && MeterLine(line) && |s.ring| + |line| <= UART_BUFSIZE
    ensures Go(s, es) == s.(ring := "", turn := Checking(s.ring + line))
  {
    RingFills(s, line);
    GoNext(s, Bytes(line), Byte(10));
    GoNext(s, Bytes(line) + [Byte(10)], Thread);
    es := Bytes(line) + [Byte(10)] + [Thread];
  }

  lemma LineStored(s: State, line: string) returns (es: seq<Event>)
    requires s.uartOn && s.ring == "" && s.inbox == 0 && s.turn.Waiting? && MeterLine(line)
    requires Process(s.fields, line).1.None?
    ensures Go(s, es) == s.(fields := Process(s.fields, line).0)
  {
    var most := LineTaken(s, line);
    assert "" + line == line;
    GoNext(s, most, Thread);
    es := most + [Thread];
  }

  /** A line that completes a report, with one more newline before the power is off. */
  lemma NewlineInTime(s: State, line: string) returns (es: seq<Event>)
    requires s.uartOn && s.ring == "" && s.inbox == 0 && s.turn.Waiting? && MeterLine(line)
    requires Process(s.fields, line).1.Some?
    ensures Go(s, es).sent == s.sent + [ProcessorText(s.meter, Process(s.fields, line).1.value)]
                                     + [ProcessorText(s.meter, Report(0, 0, 0))]
  {
    var most := LineTaken(s, line);
    assert "" + line == line;
    GoNext(s, most, Thread);
    GoNext(s, most + [Thread], Byte(10));
    GoNext(s, most + [Thread] + [Byte(10)], Thread);
    var begun := most + [Thread] + [Byte(10)] + [Thread];
    var t := Go(s, begun);
    assert t.inbox == 1 && t.ring == "" && !t.uartOn && t.fields == ZEROED && t.turn.Waiting?;
    EmptyLinesFromZero(t.meter, 1);
    assert Owed(t) == [ProcessorText(t.meter, Report(0, 0, 0))] + Times(ProcessorText(t.meter, Report(0, 0, 0)), 0);
    var rest := AllOwedIsSent(t);
    GoAppend(s, begun, rest);
    es := begun + rest;
  }

  /** A session in which a newline comes between the report and the power-off: a second report, of
      zeros, follows the first. */
  lemma SecondReportHappens(meter: nat, b: nat, p: nat, i: nat) returns (es: seq<Event>)
    requires b < 1_000_000_000 && p <= 32767 && i < 1000
    ensures Go(Open(BOOT, meter), es).sent == [ProcessorText(meter, Report(p, b, i)), ProcessorText(meter, Report(0, 0, 0))]
  {
    var base, papp, iinst := Lines(b, p, i);
    var s := Open(BOOT, meter);
    var one := LineStored(s, base);
    var s1 := Go(s, one);
    var two := LineStored(s1, papp);
    var s2 := Go(s1, two);
    var three := NewlineInTime(s2, iinst);
    GoAppend(s1, two, three);
    GoAppend(s, one, two + three);
    es := one + (two + three);
  }

  // ---------------------------------------------------------------- what a session begins and ends

  /** Two lines of a meter, and the third one in the thread's hands. */
  lemma ThreeLinesCome(s: State, b: nat, p: nat, i: nat) returns (es: seq<Event>, iinst: string)
    requires s.uartOn && s.fields == UNREAD && s.turn.Waiting? && s.ring == "" && s.inbox == 0
    requires b < 1_000_000_000 && p <= 32767 && i < 1000
    ensures Go(s, es) == s.(fields := Fields(p, -1, b), turn := Checking(iinst))
    ensures Parse(iinst) == Some(Reading(Iinst, i))
  {
    var base, papp, line := Lines(b, p, i);
    iinst := line;
    assert "" + iinst == iinst;
    var one := LineStored(s, base);
    var s1 := Go(s, one);
    var two := LineStored(s1, papp);
    var s2 := Go(s1, two);
    var three := LineTaken(s2, iinst);
    GoAppend(s1, two, three);
    GoAppend(s, one, two + three);
    es := one + (two + three);
  }

  /** Every session can report, whatever the power was and the fields held before it: main powers the
      interface and clears the fields. */
  lemma EverySessionReports(t: State, meter: nat, b: nat, p: nat, i: nat) returns (es: seq<Event>)
    requires t.turn.Waiting? && t.ring == "" && t.inbox == 0
    requires b < 1_000_000_000 && p <= 32767 && i < 1000
    ensures Go(Open(t, meter), es).sent == t.sent + [ProcessorText(meter, Report(p, b, i))]
  {
    var most, iinst := ThreeLinesCome(Open(t, meter), b, p, i);
    GoNext(Open(t, meter), most, Thread);
    es := most + [Thread];
  }

  /** Whatever the thread is at, a session that main opens receives, with the fields unread. */
  lemma OpeningHears(t: State, meter: nat, data: nat)
    requires 32 <= data < 128
    ensures var u := OnByte(Open(t, meter), data);
            && u.ring == (if |t.ring| < 128 then t.ring else t.ring[1..]) + [data as char]
            && u.fields == Fields(-1, -1, -1) && u.meter == meter
            && u.inbox == t.inbox && u.turn == t.turn && u.sent == t.sent
  {
    ByteMeaning(Open(t, meter), data);
  }

  /** Before the first session the interface has power and the fields are zero, so that a newline alone
      sends a report of zeros under index 0. */
  lemma ReportBeforeSessions()
    ensures Go(BOOT, [Byte(10)] + [Thread] + [Thread]).sent == [ProcessorText(0, Report(0, 0, 0))]
  {
    GoNext(BOOT, [], Byte(10));
    GoNext(BOOT, [Byte(10)], Thread);
    GoNext(BOOT, [Byte(10)] + [Thread], Thread);
    assert [] + [Byte(10)] == [Byte(10)];
    RepeatsAfterReport("");
  }

  /** It clears nothing else: what the ring held comes before the first line. */
  lemma LeftoverComesFirst(t: State, meter: nat, line: string) returns (es: seq<Event>)
    requires t.turn.Waiting? && t.inbox == 0 && MeterLine(line) && |t.ring| + |line| <= UART_BUFSIZE
    ensures Go(Open(t, meter), es) == Open(t, meter).(ring := "", turn := Checking(t.ring + line))
  {
    es := LineTaken(Open(t, meter), line);
  }

  /** Nor does it clear the queue: a newline message from before makes the thread take the ring as it is. */
  lemma LeftoverMessageTaken(t: State, meter: nat)
    requires t.turn.Waiting? && t.inbox > 0
    ensures Go(Open(t, meter), [Thread] + [Thread])
         == Open(t, meter).(inbox := t.inbox - 1, ring := "", turn := Checking(t.ring))
  {
    GoNext(Open(t, meter), [], Thread);
    GoNext(Open(t, meter), [Thread], Thread);
    assert [] + [Thread] == [Thread];
  }

  /** When main ends a session, nothing that comes afterwards is received: what is sent from then on is
      what was owed already. */
  lemma NothingAfterEnd(s: State, es: seq<Event>)
    ensures var off := Next(s, PowerOff);
            && off == s.(uartOn := false)
            && (forall data: byte :: Next(off, Byte(data)) == off)
            && Go(off, es).sent <= s.sent + Owed(s)
  {
    OffRun(Next(s, PowerOff), es);
  }

  /** While the interface has power, the eighth bit of a byte does not matter; a newline wakes a waiting
      thread, or is queued while fewer than 8 messages are; printable text goes to the end of the ring;
      anything else is ignored. */
  lemma ByteMeaning(s: State, data: nat)
    requires data < 128 && s.uartOn
    ensures OnByte(s, data + 128) == OnByte(s, data)
    ensures var t := OnByte(s, data);
            if data == 10 then
              if s.turn.Waiting? && s.inbox == 0 then t == s.(turn := Fetched)
              else t == s.(inbox := if s.inbox < 8 then s.inbox + 1 else s.inbox)
            else if data < 32 then t == s
            else t == s.(ring := if |s.ring| < 128 then s.ring + [data as char] else s.ring[1..] + [data as char])
  {
    ParityDropped(data);
  }

  // ---------------------------------------------------------------- the variables in place

  class Processor {
    var papp: int
    var iinst: int
    var base: int
    var curPitinfo: nat
    var uartOn: bool
    var ring: string
    var inbox: nat
    var turn: Turn
    var sent: seq<string>

    ghost function Snapshot(): State
      reads this
    {
      State(curPitinfo, Fields(papp, iinst, base), uartOn, ring, inbox, turn, sent)
    }

    /** The interface is on from its initialisation. */
    constructor ()
      ensures Snapshot() == BOOT
    {
      papp, iinst, base, curPitinfo := 0, 0, 0, 0;
      uartOn, ring, inbox, turn, sent := true, "", 0, Waiting, [];
    }

    /** main, up to the sleep of READ_DELAY */
    method StartSession(meter: nat)
      modifies this
      ensures Snapshot() == Open(old(Snapshot()), meter)
    {
      curPitinfo := meter;
      base := -1;
      iinst := -1;
      papp := -1;
      uartOn := true;
    }

    /** main, after the sleep */
    method EndSession()
      modifies `uartOn
      ensures Snapshot() == Next(old(Snapshot()), PowerOff)
    {
      uartOn := false;
    }

    /** rx_cb, when the interface has received a byte */
    method RxCb(data: byte)
      modifies `ring, `inbox, `turn
      ensures Snapshot() == Next(old(Snapshot()), Byte(data))
    {
      if uartOn {
        var c := SevenBits(data);
        if c == '\n' {
          if turn.Waiting? && inbox == 0 {
            turn := Fetched;
          } else if inbox < QUEUE_SIZE {
            inbox := inbox + 1;
          }
        } else if c >= ' ' {
          ring := AddOne(ring, c);
        }
      }
    }

    /** One step of processor_thread. */
    method ThreadStep()
      modifies this
      ensures Snapshot() == Next(old(Snapshot()), Thread)
    {
      match turn
      case Waiting =>
        if inbox > 0 { inbox, turn := inbox - 1, Fetched; }
      case Fetched =>
        turn := Checking(ring);
        ring := "";
      case Checking(line) =>
        CheckLine(line);
      case Stopping =>
        uartOn := false;
        turn := Waiting;
    }

    /** The branches that read a line. */
    method ReadLine(line: string)
      modifies `papp, `iinst, `base
      ensures Fields(papp, iinst, base) == Store(old(Fields(papp, iinst, base)), line)
    {
      if "BASE" <= line && |line| >= 14 {
        base := Atoi(line[5..14]);
      } else if "PAPP" <= line && |line| >= 10 {
        papp := Int16(Atoi(line[5..10]));
      } else if "IINST" <= line && |line| >= 9 {
        iinst := Int16(Atoi(line[6..9]));
      }
    }

    /** The line is read, and a report is sent when no field is negative. */
    method CheckLine(line: string)
      requires turn == Checking(line)
      modifies `papp, `iinst, `base, `turn, `sent
      ensures Snapshot() == OnThread(old(Snapshot()))
    {
      ReadLine(line);
      turn := Waiting;
      if papp >= 0 && iinst >= 0 && base >= 0 {
        sent := sent + ["PAPP" + Dec(curPitinfo) + ":" + Dec(papp) + ";BASE" + Dec(curPitinfo) + ":" + Dec(base) +
                        ";IINST" + Dec(curPitinfo) + ":" + Dec(iinst)];
        papp, base, iinst := 0, 0, 0;
        turn := Stopping;
      }
    }
  }
}
