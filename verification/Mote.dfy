/** The three parties of the meter node (mote-devboard/apps/node-teleinfo): the receive interrupt,
    the teleinfo thread (teleinfo.c) and the main thread (main.c), as steps taken in any order. */
module Mote {
  import opened Text
  import opened MeterReport
  import opened Uart

  /** What snprintf was given: the meter's index and the values. */
  datatype Made = Made(index: nat, report: Report)

  /** A message to the main thread: an allocated buffer, named by the order of allocation, and
      what was printed into it. */
  datatype Message = Message(id: nat, made: Made)

  /** The bytes in the buffer. */
  function BufferText(m: Message): string { ReportText(m.made.index, m.made.report) }

  /** Where the teleinfo thread stands in its loop. */
  datatype ThreadPc =
    | Receiving                 // in msg_receive
    | Fetching                  // has a message, before ringbuffer_get
    | Parsing(line: string)     // has a line
    | Building                  // all three bits set, before malloc
    | Sending(msg: Message)     // in msg_send to main
    | Clearing                  // sent, before reception is switched off
    | Parking                   // before thread_sleep
    | Asleep                    // in thread_sleep

  /** Where the main thread stands in its cycle. */
  datatype MainPc =
    | Enabling(meter: nat)      // before teleinfo_enable_rx sets the meter
    | Waking(meter: nat)        // inside teleinfo_enable_rx, before thread_wakeup
    | Listening(meter: nat)     // in xtimer_sleep, before teleinfo_disable_rx
    | Draining                  // before msg_try_receive
    | Transmitting(msg: Message)
    | Freeing(msg: Message)

  datatype State = State(
    rx: nat,                    // rx_teleinfo
    ring: string,
    inbox: nat,                 // newline messages queued for the teleinfo thread
    results: Results,
    thread: ThreadPc,
    main: MainPc,
    queue: seq<Message>,        // messages queued for main
    log: Log)

  /** An account of the run that no step looks at. */
  datatype Log = Log(
    enabled: nat,               // sessions opened
    reported: nat,              // reports sent to main
    earlier: nat,               // reports sent before the last session was opened
    made: seq<Made>,            // reports built, in order of allocation
    transmitted: seq<Message>,
    freed: seq<Message>,
    accepted: string,           // bytes put into the ring
    drained: seq<string>,       // lines taken from the ring
    lost: nat)                  // bytes overwritten in the ring

  const BOOT := State(0, "", 0, CLEARED, Receiving, Enabling(1), [], Log(0, 0, 0, [], [], [], "", [], 0))

  // ---------------------------------------------------------------- steps

  datatype Event = Byte(data: byte) | Thread | Main

  /** teleinfo_rx_cb. A message to a waiting thread is handed over at once; one to a full queue is
      dropped, as for every message sent from an interrupt. */
  function OnByte(s: State, data: byte): State {
    var c := SevenBits(data);
    if s.rx == 0 then s
    else if c == '\n' then
      if s.thread.Receiving? && s.inbox == 0 then s.(thread := Fetching)
      else if s.inbox < QUEUE_SIZE then s.(inbox := s.inbox + 1)
      else s
    else if c >= ' ' then
      s.(ring := AddOne(s.ring, c),
         log := s.log.(accepted := s.log.accepted + [c],
                       lost := s.log.lost + if |s.ring| < UART_BUFSIZE then 0 else 1))
    else s
  }

  /** One step of teleinfo_run. A step of a blocked thread does nothing. */
  function OnThread(s: State): State {
    match s.thread
    case Receiving => if s.inbox > 0 then s.(inbox := s.inbox - 1, thread := Fetching) else s
    case Fetching =>
      s.(ring := "", thread := Parsing(s.ring), log := s.log.(drained := s.log.drained + [s.ring]))
    case Parsing(line) =>
      var r := Accept(s.results, line);
      s.(results := r, thread := if Full(r) then Building else Receiving)
    case Building =>
      var made := Made(s.rx, Report(s.results.papp, s.results.base, s.results.iinst));
      s.(results := CLEARED,
         thread := Sending(Message(|s.log.made|, made)),
         log := s.log.(made := s.log.made + [made]))
    case Sending(msg) =>
      if |s.queue| < QUEUE_SIZE
      then s.(queue := s.queue + [msg], thread := Clearing, log := s.log.(reported := s.log.reported + 1))
      else s
    case Clearing => s.(rx := 0, thread := Parking)
    case Parking => s.(thread := Asleep)
    case Asleep => s
  }

  /** One step of main. */
  function OnMain(s: State): State {
    match s.main
    case Enabling(c) =>
      s.(rx := c, main := Waking(c), log := s.log.(enabled := s.log.enabled + 1, earlier := s.log.reported))
    case Waking(c) => s.(thread := if s.thread.Asleep? then Receiving else s.thread, main := Listening(c))
    case Listening(c) => s.(rx := 0, main := if c < 2 then Enabling(c + 1) else Draining)
    case Draining =>
      if s.queue == [] then s.(main := Enabling(1)) else s.(main := Transmitting(s.queue[0]), queue := s.queue[1..])
    case Transmitting(m) => s.(main := Freeing(m), log := s.log.(transmitted := s.log.transmitted + [m]))
    case Freeing(m) => s.(main := Draining, log := s.log.(freed := s.log.freed + [m]))
  }

  function Next(s: State, e: Event): State {
    match e
    case Byte(data) => OnByte(s, data)
    case Thread => OnThread(s)
    case Main => OnMain(s)
  }

  function Run(es: seq<Event>): State {
    if es == [] then BOOT else Next(Run(es[..|es| - 1]), es[|es| - 1])
  }

  lemma RunSnoc(es: seq<Event>, e: Event)
    ensures Run(es + [e]) == Next(Run(es), e)
  {
    assert (es + [e])[..|es|] == es;
  }

  // ---------------------------------------------------------------- what a byte does

  /** With reception on, a byte and the same byte with its eighth bit set do the same: a newline wakes
      a waiting thread, or is queued while fewer than 8 messages are; printable text goes to the end of
      the ring, whose oldest byte makes room for it when 128 are there; anything else is ignored. */
  lemma ByteMeaning(s: State, data: nat)
    requires data < 128
    ensures OnByte(s, data + 128) == OnByte(s, data)
    ensures var t := OnByte(s, data);
            if s.rx == 0 then t == s
            else if data == 10 then
              && t == s.(thread := t.thread, inbox := t.inbox)
              && (s.thread.Receiving? && s.inbox == 0 ==> t.thread.Fetching? && t.inbox == 0)
              && (!(s.thread.Receiving? && s.inbox == 0) ==>
                    t.thread == s.thread && t.inbox == if s.inbox < 8 then s.inbox + 1 else s.inbox)
            else if data < 32 then t == s
            else
              && t == s.(ring := t.ring, log := t.log)
              && t.ring == if |s.ring| < 128 then s.ring + [data as char] else s.ring[1..] + [data as char]
  {
    ParityDropped(data);
  }

  /** Whatever the thread and the interrupt are at, a session that main opens receives: between the two
      halves of the opening and after them a printable byte goes into the ring, and a thread asleep is
      woken. Nothing that was left over is cleared. */
  lemma OpeningHears(s: State, data: nat)
    requires s.main.Enabling? && s.main.meter > 0 && 32 <= data < 128
    ensures var a, b := OnMain(s), OnMain(OnMain(s));
            && OnByte(a, data).ring == OnByte(b, data).ring
            && OnByte(a, data).ring == (if |s.ring| < 128 then s.ring else s.ring[1..]) + [data as char]
            && b.rx == s.main.meter && b.main == Listening(s.main.meter)
            && (s.thread.Asleep? ==> b.thread.Receiving?) && (!s.thread.Asleep? ==> b.thread == s.thread)
            && b.inbox == s.inbox && b.results == s.results && b.queue == s.queue
  {
    ByteMeaning(OnMain(s), data);
    ByteMeaning(OnMain(OnMain(s)), data);
  }

  /** The event without the eighth bit. */
  function Masked(e: Event): Event {
    match e case Byte(data) => Byte((data % 128) as byte) case _ => e
  }

  function AllMasked(es: seq<Event>): (ms: seq<Event>)
    ensures |ms| == |es| && forall i | 0 <= i < |es| :: ms[i] == Masked(es[i])
  {
    seq(|es|, i requires 0 <= i < |es| => Masked(es[i]))
  }

  lemma MaskedStep(s: State, e: Event)
    ensures Next(s, Masked(e)) == Next(s, e)
  {
    if e.Byte? {
      ByteMeaning(s, e.data % 128);
    }
  }

  /** No run depends on the eighth bits of the bytes received. */
  lemma {:induction false} RunIgnoresParity(es: seq<Event>)
    ensures Run(AllMasked(es)) == Run(es)
  {
    if es != [] {
      RunIgnoresParity(es[..|es| - 1]);
      MaskedStep(Run(es[..|es| - 1]), es[|es| - 1]);
      assert AllMasked(es)[..|es| - 1] == AllMasked(es[..|es| - 1]);
    }
  }

  // ---------------------------------------------------------------- what every step keeps

  ghost predicate InRange(s: State) {
    && |s.ring| <= UART_BUFSIZE && '\n' !in s.ring
    && s.inbox <= QUEUE_SIZE
    && s.results.state < 8
    && (s.main.Enabling? || s.main.Waking? || s.main.Listening? ==> 1 <= s.main.meter <= 2)
    && (s.rx != 0 ==> s.main == Waking(s.rx) || s.main == Listening(s.rx))
    && (s.thread.Building? <==> Full(s.results))
    && (s.thread.Sending? || s.thread.Clearing? || s.thread.Parking? || s.thread.Asleep? ==> s.results.state == 0)
  }

  lemma InRangeAfterParsing(s: State)
    requires InRange(s) && s.thread.Parsing?
    ensures InRange(OnThread(s))
  {
    if Parse(s.thread.line).Some? {
      var x := Parse(s.thread.line).value;
      BitSet(s.results.state, x.tag, x.tag);
      assert Accept(s.results, s.thread.line).state == s.results.state | Mask(x.tag);
    }
  }

  lemma InRangeKept(s: State, e: Event)
    requires InRange(s)
    ensures InRange(Next(s, e))
  {
    match e {
      case Byte(data) => assert '\n' !in OnByte(s, data).ring;
      case Thread => if s.thread.Parsing? { InRangeAfterParsing(s); }
      case Main =>
    }
  }

  // ---- buffers

  function Held(main: MainPc): seq<Message> {
    if main.Transmitting? || main.Freeing? then [main.msg] else []
  }

  function InHand(thread: ThreadPc): seq<Message> {
    if thread.Sending? then [thread.msg] else []
  }

  /** The buffers allocated and not freed, oldest first. */
  function Live(s: State): seq<Message> {
    Held(s.main) + s.queue + InHand(s.thread)
  }

  /** The messages that the reports built so far call for. */
  function Due(made: seq<Made>): (due: seq<Message>)
    ensures |due| == |made|
    ensures forall i | 0 <= i < |made| :: due[i] == Message(i, made[i])
  {
    seq(|made|, i requires 0 <= i < |made| => Message(i, made[i]))
  }

  /** Every buffer ever allocated is, in order of allocation, freed, held by main, queued or in the
      hands of the thread, and it is transmitted before it is freed. */
  ghost predicate Owned(s: State) {
    && s.log.freed + Live(s) == Due(s.log.made)
    && s.log.transmitted == s.log.freed + if s.main.Freeing? then Held(s.main) else []
  }

  /** The moves of a buffer, as equalities of lists. */
  lemma BuildMoves(freed: seq<Message>, held: seq<Message>, queue: seq<Message>, m: Message)
    ensures freed + (held + queue + [m]) == freed + (held + queue + []) + [m]
  {
  }

  lemma SendMoves(held: seq<Message>, queue: seq<Message>, m: Message)
    ensures held + (queue + [m]) + [] == held + queue + [m]
  {
  }

  lemma TakeMoves(queue: seq<Message>, inHand: seq<Message>)
    requires queue != []
    ensures [queue[0]] + queue[1..] + inHand == [] + queue + inHand
  {
  }

  lemma FreeMoves(freed: seq<Message>, m: Message, queue: seq<Message>, inHand: seq<Message>)
    ensures (freed + [m]) + ([] + queue + inHand) == freed + ([m] + queue + inHand)
  {
  }

  lemma DueGrows(made: seq<Made>, m: Made)
    ensures Due(made + [m]) == Due(made) + [Message(|made|, m)]
  {
  }

  lemma OwnedByThread(s: State)
    requires Owned(s)
    ensures Owned(OnThread(s))
  {
    var t := OnThread(s);
    match s.thread {
      case Building =>
        BuildMoves(s.log.freed, Held(s.main), s.queue, t.thread.msg);
        DueGrows(s.log.made, t.log.made[|s.log.made|]);
      case Sending(msg) =>
        SendMoves(Held(s.main), s.queue, msg);
      case _ =>
    }
  }

  lemma OwnedByMain(s: State)
    requires Owned(s)
    ensures Owned(OnMain(s))
  {
    match s.main {
      case Waking(_) =>
        assert InHand(OnMain(s).thread) == InHand(s.thread);
      case Draining =>
        if s.queue != [] { TakeMoves(s.queue, InHand(s.thread)); }
        assert s.log.freed + [] == s.log.freed;
      case Transmitting(m) =>
        assert s.log.freed + [] == s.log.freed;
      case Freeing(m) =>
        FreeMoves(s.log.freed, m, s.queue, InHand(s.thread));
        assert s.log.freed + [m] + [] == s.log.freed + [m];
      case _ =>
    }
  }

  lemma OwnedKept(s: State, e: Event)
    requires Owned(s)
    ensures Owned(Next(s, e))
  {
    match e {
      case Byte(data) => assert InHand(OnByte(s, data).thread) == InHand(s.thread);
      case Thread => OwnedByThread(s);
      case Main => OwnedByMain(s);
    }
  }

  // ---- the length of the queue

  /** 1 while the thread can still send a report before it sleeps. */
  function Able(thread: ThreadPc): nat {
    if thread.Clearing? || thread.Parking? || thread.Asleep? then 0 else 1
  }

  /** How often main woke the thread since it last emptied its queue. */
  function Wakes(main: MainPc): nat {
    match main
    case Enabling(c) => if c == 1 then 0 else 1
    case Waking(c) => if c == 1 then 0 else 1
    case Listening(c) => if c == 1 then 1 else 2
    case _ => 2
  }

  ghost predicate QueueShort(s: State) {
    |Held(s.main)| + |s.queue| + Able(s.thread) <= 1 + Wakes(s.main)
  }

  lemma QueueShortKept(s: State, e: Event)
    requires QueueShort(s) && InRange(s)
    ensures QueueShort(Next(s, e))
  {
  }

  // ---- reports and sessions

  function Ones(state: bv8): nat {
    (if Bit(state, Base) then 1 else 0) + (if Bit(state, Papp) then 1 else 0) + (if Bit(state, Iinst) then 1 else 0)
  }

  /** How many bits could be set with what was received so far. */
  function Reach(s: State): nat {
    Ones(s.results.state) + (if s.thread.Parsing? && Parse(s.thread.line).Some? then 1 else 0) + (if s.ring != "" then 1 else 0)
  }

  /** Reports never outnumber sessions, and when they are equal the thread cannot send another one
      before a session is opened: it is on its way to sleep or asleep, or reception is off and what
      was received is not enough for three bits. */
  ghost predicate SessionsCover(s: State) {
    && s.log.earlier <= s.log.reported <= s.log.enabled
    && (s.log.reported == s.log.enabled ==>
         if Able(s.thread) == 1
         then s.rx == 0 && Reach(s) <= 1 && !s.thread.Building? && !s.thread.Sending?
         else s.main.Waking? ==> s.thread.Clearing? || s.rx == 0)
  }

  lemma OnesAfterAccept(r: Results, line: string)
    requires r.state < 8
    ensures Ones(Accept(r, line).state) <= Ones(r.state) + 1
    ensures Full(r) <==> Ones(r.state) == 3
  {
    FullMeansAllBits(r);
    if Parse(line).Some? {
      var x := Parse(line).value;
      assert Accept(r, line).state == r.state | Mask(x.tag);
      BitSet(r.state, x.tag, Base);
      BitSet(r.state, x.tag, Papp);
      BitSet(r.state, x.tag, Iinst);
    }
  }

  lemma SessionsCoverKept(s: State, e: Event)
    requires SessionsCover(s) && InRange(s)
    ensures SessionsCover(Next(s, e))
  {
    if e.Thread? && s.thread.Parsing? {
      OnesAfterAccept(s.results, s.thread.line);
      OnesAfterAccept(Accept(s.results, s.thread.line), "");
    }
    assert s.results.state == 0 ==> Ones(s.results.state) == 0;
  }

  // ---- reception switched off within a session

  predicate InSession(s: State) { s.main.Waking? || s.main.Listening? }

  /** When reception is off although a session is open, the session's report was sent, and what was
      received is not enough for another. */
  ghost predicate Spent(s: State) {
    InSession(s) && s.rx == 0 && Able(s.thread) == 1 ==>
      Reach(s) <= 1 && !s.thread.Building? && !s.thread.Sending?
  }

  lemma SpentKept(s: State, e: Event)
    requires Spent(s) && InRange(s)
    ensures Spent(Next(s, e))
  {
    if e.Thread? && s.thread.Parsing? {
      OnesAfterAccept(s.results, s.thread.line);
      OnesAfterAccept(Accept(s.results, s.thread.line), "");
    }
    assert s.results.state == 0 ==> Ones(s.results.state) == 0;
  }

  // ---- bytes

  function Flatten(lines: seq<string>): string {
    if lines == [] then "" else Flatten(lines[..|lines| - 1]) + lines[|lines| - 1]
  }

  /** Bytes leave the ring in the order they came, each once, except those overwritten. */
  ghost predicate Accounted(s: State) {
    && |s.log.accepted| == |Flatten(s.log.drained)| + |s.ring| + s.log.lost
    && (s.log.lost == 0 ==> Flatten(s.log.drained) + s.ring == s.log.accepted)
  }

  lemma AccountedKept(s: State, e: Event)
    requires Accounted(s) && InRange(s)
    ensures Accounted(Next(s, e))
  {
    var t := Next(s, e);
    if e.Thread? && s.thread.Fetching? {
      assert t.log.drained[..|s.log.drained|] == s.log.drained;
      assert Flatten(t.log.drained) + "" == Flatten(t.log.drained);
    } else if e.Byte? && t.log.accepted != s.log.accepted && t.log.lost == 0 {
      assert Flatten(s.log.drained) + (s.ring + [SevenBits(e.data)]) == s.log.accepted + [SevenBits(e.data)];
    }
  }

  // ---------------------------------------------------------------- safety of every run

  ghost predicate Inv(s: State) {
    InRange(s) && Owned(s) && QueueShort(s) && SessionsCover(s) && Spent(s) && Accounted(s)
  }

  lemma StepKeepsInv(s: State, e: Event)
    requires Inv(s)
    ensures Inv(Next(s, e))
  {
    InRangeKept(s, e);
    OwnedKept(s, e);
    QueueShortKept(s, e);
    SessionsCoverKept(s, e);
    SpentKept(s, e);
    AccountedKept(s, e);
  }

  lemma {:induction false} EveryRun(es: seq<Event>)
    ensures Inv(Run(es))
  {
    if es != [] {
      EveryRun(es[..|es| - 1]);
      StepKeepsInv(Run(es[..|es| - 1]), es[|es| - 1]);
    } else {
      assert Due([]) == [];
    }
  }

  /** At every moment of every run: there are no more reports than sessions; at most three report
      buffers exist, so main's queue never fills and the thread never blocks on it. */
  lemma ProtocolSafety(es: seq<Event>)
    ensures var s := Run(es);
            && s.log.reported <= s.log.enabled
            && |Live(s)| <= 3
            && (s.thread.Sending? ==> |s.queue| < QUEUE_SIZE)
  {
    EveryRun(es);
  }

  /** Only meters 1 and 2 are ever read, and reception is off outside their sessions. */
  lemma {:induction false} MetersInRange(es: seq<Event>)
    ensures var s := Run(es);
            && s.rx <= 2
            && (s.main.Enabling? ==> 1 <= s.main.meter <= 2)
            && (s.rx != 0 ==> s.main == Waking(s.rx) || s.main == Listening(s.rx))
  {
    EveryRun(es);
  }

  lemma NumberedInOrder(freed: seq<Message>, live: seq<Message>, made: seq<Made>)
    requires freed + live == Due(made)
    ensures |made| == |freed| + |live|
    ensures forall i | 0 <= i < |freed| :: freed[i].id == i
    ensures forall i | 0 <= i < |live| :: live[i].id == |freed| + i
  {
    var due := Due(made);
    forall i | 0 <= i < |freed| ensures freed[i].id == i {
      assert due[i] == freed[i];
    }
    forall i | 0 <= i < |live| ensures live[i].id == |freed| + i {
      assert due[|freed| + i] == live[i];
    }
  }

  /** Buffers are numbered by allocation. Those freed are 0 up to some number, each freed once and
      after it was sent; those alive are the others, each in one place; and main sends the reports
      unchanged, in the order in which they were built. */
  lemma BufferOwnership(es: seq<Event>)
    ensures var s := Run(es);
            && |s.log.made| == |s.log.freed| + |Live(s)|
            && (forall i | 0 <= i < |s.log.freed| :: s.log.freed[i].id == i)
            && (forall i | 0 <= i < |Live(s)| :: Live(s)[i].id == |s.log.freed| + i)
            && s.log.freed <= s.log.transmitted
  {
    EveryRun(es);
    NumberedInOrder(Run(es).log.freed, Live(Run(es)), Run(es).log.made);
  }

  lemma SentInOrder(es: seq<Event>)
    ensures Run(es).log.transmitted <= Due(Run(es).log.made)
  {
    EveryRun(es);
    var s := Run(es);
    if s.main.Freeing? {
      FreeMoves(s.log.freed, s.main.msg, s.queue, InHand(s.thread));
    } else {
      assert s.log.freed + [] == s.log.freed;
    }
  }

  /** As long as the ring never overflowed, the lines taken and the ring are the bytes accepted. */
  lemma {:induction false} NoByteLost(es: seq<Event>)
    requires Run(es).log.lost == 0
    ensures Flatten(Run(es).log.drained) + Run(es).ring == Run(es).log.accepted
  {
    EveryRun(es);
  }

  // ---- messages

  /** A newline that comes while reception is on and the queue has room. */
  predicate Notifies(s: State, e: Event) {
    e.Byte? && e.data % 128 == 10 && s.rx != 0 && s.inbox < 8
  }

  /** How many of these came. */
  function Notified(es: seq<Event>): nat {
    if es == [] then 0
    else
      var init := es[..|es| - 1];
      Notified(init) + if Notifies(Run(init), es[|es| - 1]) then 1 else 0
  }

  /** The messages that have not led to a line yet. */
  function Outstanding(s: State): nat {
    s.inbox + if s.thread.Fetching? then 1 else 0
  }

  lemma OneLineStep(s: State, e: Event)
    ensures |Next(s, e).log.drained| + Outstanding(Next(s, e))
         == |s.log.drained| + Outstanding(s) + if Notifies(s, e) then 1 else 0
  {
  }

  /** After every interleaving: each newline that found room made the thread take one line, or still
      waits to do so. */
  lemma {:induction false} OneLinePerMessage(es: seq<Event>)
    ensures |Run(es).log.drained| + Outstanding(Run(es)) == Notified(es)
  {
    if es != [] {
      OneLinePerMessage(es[..|es| - 1]);
      OneLineStep(Run(es[..|es| - 1]), es[|es| - 1]);
    }
  }

  // ---- the index

  /** The meter whose session is open, and 0 when none is. */
  function OpenMeter(s: State): nat {
    if InSession(s) then s.main.meter else 0
  }

  /** While the thread is printing a report, the index it reads is the meter whose session is open. */
  lemma IndexWhileBuilding(es: seq<Event>)
    requires Run(es).thread.Building?
    ensures Run(es).rx == OpenMeter(Run(es))
  {
    EveryRun(es);
    OnesAfterAccept(Run(es).results, "");
  }

  ghost predicate NoThread(es: seq<Event>) {
    forall i | 0 <= i < |es| :: !es[i].Thread?
  }

  lemma BuildingKept(s: State, e: Event)
    requires s.thread.Building? && !e.Thread?
    ensures Next(s, e).thread.Building?
  {
  }

  /** The thread stays where it is while it takes no step. */
  lemma {:induction false} StaysBuilding(es: seq<Event>, gs: seq<Event>)
    requires Run(es).thread.Building? && NoThread(gs)
    ensures Run(es + gs).thread.Building?
  {
    if gs == [] {
      assert es + gs == es;
    } else {
      var init, e := gs[..|gs| - 1], gs[|gs| - 1];
      assert es + gs == (es + init) + [e];
      StaysBuilding(es, init);
      RunSnoc(es + init, e);
      BuildingKept(Run(es + init), e);
    }
  }

  /** A report is printed with three reads of the index. Whatever interrupt and main do between them,
      each read gives the meter whose session is open at that moment, and 0 when none is. */
  lemma EachIndex(es: seq<Event>, gs: seq<Event>, hs: seq<Event>)
    requires Run(es).thread.Building? && NoThread(gs) && NoThread(hs)
    ensures Run(es).rx == OpenMeter(Run(es))
    ensures Run(es + gs).rx == OpenMeter(Run(es + gs))
    ensures Run(es + gs + hs).rx == OpenMeter(Run(es + gs + hs))
  {
    StaysBuilding(es, gs);
    StaysBuilding(es + gs, hs);
    IndexWhileBuilding(es);
    IndexWhileBuilding(es + gs);
    IndexWhileBuilding(es + gs + hs);
  }

  /** When the three reads fall together, the report carries the index of the meter whose session is
      open when it is built, and 0 when none is. Its readings may be older than the session. */
  lemma IndexOfReport(es: seq<Event>, e: Event)
    requires |Next(Run(es), e).log.made| > |Run(es).log.made|
    ensures var made := Next(Run(es), e).log.made;
            made[|made| - 1].index == OpenMeter(Run(es))
  {
    IndexWhileBuilding(es);
  }

  /** So main can end a session between the third reading and the printing of the report. */
  lemma IndexRace(s: State)
    requires s.thread.Building? && s.main.Listening?
    ensures var t := Next(Next(s, Main), Thread);
            |t.log.made| == |s.log.made| + 1 && t.log.made[|s.log.made|].index == 0
            && Next(s, Thread).log.made[|s.log.made|].index == s.rx
  {
  }

  // ---------------------------------------------------------------- types of the values

  ghost predicate TypedResults(r: Results) {
    -0x8000 <= r.papp <= 0x7FFF && -0x8000 <= r.iinst <= 0x7FFF && -0x8000_0000 <= r.base <= 0x7FFF_FFFF
  }

  /** The results and every report built fit the types of their fields. */
  ghost predicate WellTyped(s: State) {
    TypedResults(s.results) && forall i | 0 <= i < |s.log.made| :: Typed(s.log.made[i].report) && s.log.made[i].index <= 2
  }

  lemma AcceptTyped(r: Results, line: string)
    requires TypedResults(r)
    ensures TypedResults(Accept(r, line))
  {
    if Parse(line).Some? {
      ReadingRange(line);
      TenThousands();
      assert Pow10(9) == 10 * Pow10(8);
    }
  }

  lemma {:induction false} ReportsTyped(es: seq<Event>)
    ensures WellTyped(Run(es))
  {
    if es != [] {
      var s, e := Run(es[..|es| - 1]), es[|es| - 1];
      ReportsTyped(es[..|es| - 1]);
      MetersInRange(es[..|es| - 1]);
      if s.thread.Parsing? { AcceptTyped(s.results, s.thread.line); }
    }
  }

  // ---------------------------------------------------------------- a session in which the thread keeps up

  /** The thread takes its two steps after every byte, so that it is done before the next one. */
  function Fed(s: State, bytes: seq<byte>): State {
    if bytes == [] then s
    else OnThread(OnThread(OnByte(Fed(s, bytes[..|bytes| - 1]), bytes[|bytes| - 1])))
  }

  /** Reception is on and the thread waits for a line. */
  predicate Waiting(s: State) {
    s.rx != 0 && s.thread == Receiving && s.inbox == 0
  }

  ghost predicate NoReport(r: Results, lines: seq<string>) {
    forall k | 0 <= k < |lines| :: Output(r, lines, k).None?
  }

  lemma FeedByte(s: State, data: byte)
    requires Waiting(s)
    ensures var t := OnThread(OnThread(OnByte(s, data)));
            var a := Receive(Assembly([], s.ring), data);
            && t.ring == a.ring && t.rx == s.rx && t.queue == s.queue && t.main == s.main
            && t.log.made == s.log.made && t.log.drained == s.log.drained + a.lines
            && if a.lines == [] then Waiting(t) && t.results == s.results
               else a.lines == [s.ring] && t.results == Accept(s.results, s.ring)
                    && if Full(t.results) then t.thread == Building else Waiting(t)
  {
  }

  lemma AfterSnoc(r: Results, lines: seq<string>, line: string)
    ensures After(r, lines + [line]) == Step(After(r, lines), line).0
    ensures Output(r, lines + [line], |lines|) == Step(After(r, lines), line).1
    ensures NoReport(r, lines + [line]) ==> NoReport(r, lines)
  {
    var more := lines + [line];
    assert more[..|lines|] == lines;
    if NoReport(r, more) {
      forall k | 0 <= k < |lines| ensures Output(r, lines, k).None? {
        assert more[..k] == lines[..k];
        assert Output(r, more, k).None?;
      }
    }
  }

  /** Until a report is due, the node holds exactly what line assembly and the report machine say. */
  lemma {:induction false} KeepsUp(s: State, bytes: seq<byte>)
    requires Waiting(s)
    requires NoReport(s.results, Assemble(s.ring, bytes).lines)
    ensures var t := Fed(s, bytes);
            var a := Assemble(s.ring, bytes);
            && Waiting(t) && t.rx == s.rx && t.queue == s.queue && t.main == s.main
            && t.ring == a.ring && t.results == After(s.results, a.lines)
            && t.log.made == s.log.made && t.log.drained == s.log.drained + a.lines
  {
    if bytes != [] {
      var init, data := bytes[..|bytes| - 1], bytes[|bytes| - 1];
      var a := Assemble(s.ring, init);
      AfterSnoc(s.results, a.lines, a.ring);
      assert Receive(a, data).lines == a.lines || Receive(a, data).lines == a.lines + [a.ring];
      KeepsUp(s, init);
      FeedByte(Fed(s, init), data);
      if Receive(a, data).lines == a.lines + [a.ring] {
        assert Output(s.results, a.lines + [a.ring], |a.lines|).None?;
      }
    }
  }

  lemma SendSteps(s: State)
    requires s.thread.Building? && |s.queue| < QUEUE_SIZE
    ensures var t := OnThread(OnThread(OnThread(OnThread(s))));
            var rep := Report(s.results.papp, s.results.base, s.results.iinst);
            && t.thread.Asleep? && t.rx == 0 && t.main == s.main
            && t.queue == s.queue + [Message(|s.log.made|, Made(s.rx, rep))]
  {
    var built := OnThread(s);
    assert built.thread.Sending? && built.queue == s.queue;
    var sent := OnThread(built);
    assert sent.thread.Clearing?;
  }

  /** The newline that ends the line completing a report makes the thread build and send it, with
      the values that the machine gives and the meter's index, and then go to sleep. */
  lemma ReportsOnTime(s: State, bytes: seq<byte>, data: byte)
    requires Waiting(s) && |s.queue| < QUEUE_SIZE
    requires NoReport(s.results, Assemble(s.ring, bytes).lines)
    requires SevenBits(data) == '\n'
    requires Output(s.results, Assemble(s.ring, bytes + [data]).lines, |Assemble(s.ring, bytes).lines|).Some?
    ensures var rep := Output(s.results, Assemble(s.ring, bytes + [data]).lines, |Assemble(s.ring, bytes).lines|).value;
            var t := OnThread(OnThread(OnThread(OnThread(Fed(s, bytes + [data])))));
            && t.thread.Asleep? && t.rx == 0 && t.main == s.main
            && exists id :: t.queue == s.queue + [Message(id, Made(s.rx, rep))]
  {
    var a := Assemble(s.ring, bytes);
    assert (bytes + [data])[..|bytes|] == bytes;
    KeepsUp(s, bytes);
    AfterSnoc(s.results, a.lines, a.ring);
    FeedByte(Fed(s, bytes), data);
    SendSteps(Fed(s, bytes + [data]));
  }
}
