/** Sessions in which the thread keeps up: it is at rest again before the next byte comes, and before
    the first one. Then the session's report is the one that the bytes received in it call for, exactly
    when nothing is left over from before. */
module Sessions {
  import opened Text
  import opened MeterReport
  import opened Uart
  import opened MeterText
  import opened Mote
  import opened Priority
  import opened Reports
  import opened OwnReadings

  // ---------------------------------------------------------------- a thread that keeps up

  /** How many steps the thread can take. */
  function Steps(s: State): nat {
    7 * s.inbox + match s.thread
                  case Receiving => 0
                  case Fetching => 6
                  case Parsing(_) => 5
                  case Building => 4
                  case Sending(_) => 3
                  case Clearing => 2
                  case Parking => 1
                  case Asleep => 0
  }

  /** The thread runs until it blocks. */
  function Settle(s: State): State
    decreases Steps(s)
  {
    if Blocked(s) then s else Settle(OnThread(s))
  }

  /** Bytes that come one by one, each when the thread is at rest. */
  function Served(s: State, bytes: seq<byte>): State {
    if bytes == [] then s else Settle(OnByte(Served(s, bytes[..|bytes| - 1]), bytes[|bytes| - 1]))
  }

  /** Main opens the session, and the thread comes to rest. */
  function Opened(s: State): State { Settle(OnMain(OnMain(s))) }

  /** A session has one report. */
  function FirstOf(reports: seq<Report>): seq<Report> {
    if reports == [] then [] else [reports[0]]
  }

  /** The session reports what its own bytes call for. */
  ghost predicate ReportsOwn(s: State, bytes: seq<byte>) {
    var t := Served(Opened(s), bytes);
    && s.log.made <= t.log.made
    && Values(t.log.made[|s.log.made|..]) == FirstOf(Demanded([], Assemble("", bytes).lines))
  }

  // ---------------------------------------------------------------- up to the report

  lemma SettleSends(s: State)
    requires s.thread.Building? && |s.queue| < QUEUE_SIZE
    ensures var t := Settle(s);
            && t.thread.Asleep? && t.rx == 0
            && t.log.made == s.log.made + [Made(s.rx, Report(s.results.papp, s.results.base, s.results.iinst))]
  {
    var a := OnThread(s);
    var b := OnThread(a);
    var c := OnThread(b);
    assert Settle(s) == Settle(a) == Settle(b) == Settle(c) == Settle(OnThread(c));
  }

  /** A byte while the thread waits. */
  lemma ByteServed(s: State, data: byte)
    requires Waiting(s) && |s.queue| < QUEUE_SIZE
    ensures var t := Settle(OnByte(s, data));
            var a := Receive(Assembly([], s.ring), data);
            var (r, due) := Step(s.results, s.ring);
            if a.lines == [] then
              t == s.(ring := a.ring, log := t.log) && t.log.made == s.log.made
            else if due.None? then
              t == s.(ring := "", results := r, log := t.log) && t.log.made == s.log.made
            else
              t.thread.Asleep? && t.rx == 0 && t.log.made == s.log.made + [Made(s.rx, due.value)]
  {
    var t := OnByte(s, data);
    if SevenBits(data) == '\n' {
      var u := OnThread(t);
      var v := OnThread(u);
      assert Settle(t) == Settle(u) == Settle(v);
      if v.thread.Building? { SettleSends(v); }
    }
  }

  /** A byte after the report. */
  lemma ByteIgnored(s: State, data: byte)
    requires s.thread.Asleep? && s.rx == 0
    ensures Settle(OnByte(s, data)) == s
  {
  }

  /** What the session has come to: no report yet, or the first one that the lines complete. */
  ghost predicate UpTo(s: State, t: State, a: Assembly) {
    var done := Completed(s.results, a.lines);
    if done == [] then
      t == s.(ring := a.ring, results := After(s.results, a.lines), log := t.log) && t.log.made == s.log.made
    else
      t.thread.Asleep? && t.rx == 0 && t.log.made == s.log.made + [Made(s.rx, done[0])]
  }

  lemma UpToNext(s: State, t: State, a: Assembly, data: byte)
    requires Waiting(s) && |s.queue| < QUEUE_SIZE && UpTo(s, t, a)
    ensures UpTo(s, Settle(OnByte(t, data)), Receive(a, data))
  {
    LineAdded(s.results, a.lines, a.ring);
    if Completed(s.results, a.lines) == [] {
      ByteServed(t, data);
    } else {
      ByteIgnored(t, data);
    }
  }

  /** While the thread keeps up, the session's one report is the first that line assembly and the
      line machine complete. */
  lemma {:induction false} Serves(s: State, bytes: seq<byte>)
    requires Waiting(s) && |s.queue| < QUEUE_SIZE
    ensures UpTo(s, Served(s, bytes), Assemble(s.ring, bytes))
  {
    if bytes != [] {
      Serves(s, bytes[..|bytes| - 1]);
      UpToNext(s, Served(s, bytes[..|bytes| - 1]), Assemble(s.ring, bytes[..|bytes| - 1]), bytes[|bytes| - 1]);
    }
  }

  // ---------------------------------------------------------------- the opening

  /** Messages without bytes: the thread takes empty lines. */
  lemma {:induction false} EmptyMessages(s: State)
    requires s.thread.Receiving? && s.ring == "" && !Full(s.results)
    ensures Settle(s) == s.(inbox := 0, log := Settle(s).log) && Settle(s).log.made == s.log.made
    decreases s.inbox
  {
    if s.inbox > 0 {
      var a := OnThread(s);
      var b := OnThread(a);
      var c := OnThread(b);
      assert Settle(s) == Settle(a) == Settle(b) == Settle(c);
      EmptyMessages(c);
    }
  }

  lemma OldMessages(s: State)
    requires s.thread.Receiving? && s.inbox > 0 && s.results.state == 0
    ensures var t := Settle(s);
            t == s.(inbox := 0, ring := "", results := Accept(s.results, s.ring), log := t.log)
            && t.log.made == s.log.made
  {
    var a := OnThread(s);
    var b := OnThread(a);
    assert b.thread == Parsing(s.ring);
    assert !Full(Accept(s.results, s.ring)) by { OnesAfterAccept(s.results, s.ring); OnesAfterAccept(Accept(s.results, s.ring), ""); }
    var c := OnThread(b);
    assert Settle(s) == Settle(a) == Settle(b) == Settle(c);
    EmptyMessages(c);
  }

  /** Where the session stands when its first byte comes. */
  lemma OpenedIs(es: seq<Event>)
    requires Run(es).main.Enabling? && (Run(es).thread.Asleep? || Idle(Run(es)))
    ensures var s := Run(es);
            var t := Opened(s);
            && Waiting(t) && t.rx == s.main.meter && |t.queue| < QUEUE_SIZE && t.log.made == s.log.made
            && t.results.state < 8 && |t.ring| <= UART_BUFSIZE && '\n' !in t.ring
            && (t.results.state == 0 && t.ring == ""
                <==> s.results.state == 0 && if s.inbox == 0 then s.ring == "" else Parse(s.ring).None?)
  {
    EveryRun(es);
    var s := Run(es);
    var u := OnMain(OnMain(s));
    if s.inbox > 0 {
      OldMessages(u);
      if Parse(s.ring).Some? { BitsAfter(s.results, s.ring, Parse(s.ring).value.tag); }
    }
  }

  // ---------------------------------------------------------------- three lines from a ring

  lemma OtherFirst(x: string, l0: string, l1: string, l2: string)
    ensures [x] + [l0, l1, l2][1..] == [x, l1, l2]
  {
  }

  /** The bytes of three lines, taken from a ring and from an empty one. */
  lemma ThreeLines(ring: string, l0: string, l1: string, l2: string) returns (bytes: seq<byte>)
    requires |ring| <= UART_BUFSIZE && '\n' !in ring
    requires MeterLine(l0) && MeterLine(l1) && MeterLine(l2)
    ensures Assemble(ring, bytes).lines == [LastBytes(ring + l0), l1, l2]
    ensures Assemble("", bytes).lines == [l0, l1, l2]
  {
    var lines := [l0, l1, l2];
    AssembleText(ring, lines, "");
    WholeText(lines, "");
    OtherFirst(LastBytes(ring + l0), l0, l1, l2);
    bytes := Codes(TextOf(lines, ""));
  }

  /** On lines: the first report completed is the first one that the session's own bytes call for. */
  ghost predicate FirstOwn(r: Results, ring: string, bytes: seq<byte>) {
    FirstOf(Completed(r, Assemble(ring, bytes).lines)) == FirstOf(Demanded([], Assemble("", bytes).lines))
  }

  // ---------------------------------------------------------------- a bit left over

  lemma SilentBits(r: Results, line: string, tag: Tag)
    requires r.state < 8 && Step(r, line).1.None?
    ensures Step(r, line).0 == Accept(r, line) && Accept(r, line).state < 8
    ensures Bit(r.state, tag) || Reads(line, tag) ==> Bit(Accept(r, line).state, tag)
  {
    if Parse(line).Some? { BitsAfter(r, line, tag); }
  }

  /** When a bit is set, lines of the other two tags complete a report, whatever comes first. */
  lemma ReportAfterThree(r: Results, tag: Tag, x: string, l1: string, l2: string)
    requires r.state < 8 && Bit(r.state, tag) && Reads(l1, Others(tag).0) && Reads(l2, Others(tag).1)
    ensures Completed(r, [x, l1, l2]) != []
  {
    LineAdded(r, [], x);
    LineAdded(r, [x], l1);
    LineAdded(r, [x, l1], l2);
    assert [] + [x] == [x] && [x] + [l1] == [x, l1] && [x, l1] + [l2] == [x, l1, l2];
    if Completed(r, [x, l1, l2]) == [] {
      SilentBits(r, x, tag);
      var r0 := Accept(r, x);
      SilentBits(r0, l1, tag);
      SilentBits(r0, l1, Others(tag).0);
      var r1 := Accept(r0, l1);
      SilentBits(r1, l2, tag);
      SilentBits(r1, l2, Others(tag).0);
      SilentBits(r1, l2, Others(tag).1);
      AllBits(Accept(r1, l2), tag);
    }
  }

  /** A newline and two lines show a bit left over, whatever the ring holds. */
  lemma BitShows(r: Results, ring: string) returns (bytes: seq<byte>)
    requires 0 < r.state < 8 && |ring| <= UART_BUFSIZE && '\n' !in ring
    ensures !FirstOwn(r, ring, bytes)
  {
    var tag := SomeBit(r.state);
    var l1 := MeterLineOf(Others(tag).0);
    var l2 := MeterLineOf(Others(tag).1);
    bytes := ThreeLines(ring, "", l1, l2);
    ReportAfterThree(r, tag, LastBytes(ring + ""), l1, l2);
    NeverDue(["", l1, l2], tag);
  }

  // ---------------------------------------------------------------- bytes left over

  /** What a line says depends on its first 14 characters and its length. */
  lemma ParseIsLocal(a: string, b: string)
    requires |a| == |b| >= 14 && a[..14] == b[..14]
    ensures Parse(a) == Parse(b)
  {
    assert a[..4] == a[..14][..4] == b[..4];
    assert a[..5] == a[..14][..5] == b[..5];
    assert a[5..14] == a[..14][5..14] == b[5..14];
    assert a[5..10] == a[..14][5..10] == b[5..10];
    assert a[6..9] == a[..14][6..9] == b[6..9];
    SamePrefix(a, b, "BASE");
    SamePrefix(a, b, "PAPP");
    SamePrefix(a, b, "IINST");
  }

  lemma SamePrefix(a: string, b: string, name: string)
    requires |name| <= 14 <= |a| == |b| && a[..14] == b[..14]
    ensures name <= a <==> name <= b
  {
    assert a[..|name|] == a[..14][..|name|] == b[..|name|];
  }

  lemma LastDigitLost(ring: string, head: string, c: char, d: char)
    requires ring != "" && |head| == 13
    ensures Parse(LastBytes(ring + (head + [c]))) == Parse(LastBytes(ring + (head + [d])))
  {
    var a, b := LastBytes(ring + (head + [c])), LastBytes(ring + (head + [d]));
    assert ring + (head + [c]) == (ring + head) + [c];
    assert ring + (head + [d]) == (ring + head) + [d];
    assert a[..|a| - 1] == b[..|b| - 1];
    assert a[..14] == a[..|a| - 1][..14] && b[..14] == b[..|b| - 1][..14];
    ParseIsLocal(a, b);
  }

  lemma OneDigit(n: nat, w: nat)
    requires n < 10 && w > 0
    ensures Padded(n, w) == Padded(0, w - 1) + [DigitChar(n)]
  {
  }

  lemma LastDigitApart(name: string, digits: string, last: string)
    ensures name + digits + last == name + (digits + last) + ""
  {
  }

  /** BASE lines of numbers below ten differ in their last character only. */
  lemma BaseWith(n: nat, zeros: string)
    requires n < 10 && zeros == Padded(0, 8)
    ensures |zeros| == 8
    ensures MeterLine("BASE " + zeros + [DigitChar(n)])
    ensures Parse("BASE " + zeros + [DigitChar(n)]) == Some(Reading(Base, n))
  {
    OneDigit(n, 9);
    LastDigitApart("BASE ", zeros, [DigitChar(n)]);
    BaseLineOf(n, zeros + [DigitChar(n)]);
  }

  lemma BaseLineOf(n: nat, digits: string)
    requires n < 10 && digits == Padded(n, 9)
    ensures MeterLine("BASE " + digits + "") && Parse("BASE " + digits + "") == Some(Reading(Base, n))
  {
    TenThousands();
    BaseLine(n, "");
    PaddedDenotes(n, 9);
    ShortLine("BASE ", digits);
  }

  /** Some BASE line is misread after any leftover. */
  lemma SomeBaseMisread(ring: string) returns (line: string)
    requires ring != ""
    ensures MeterLine(line) && Parse(line).Some? && Parse(line).value.tag == Base
    ensures Parse(LastBytes(ring + line)) != Parse(line)
  {
    var zeros := Padded(0, 8);
    BaseWith(0, zeros);
    BaseWith(1, zeros);
    var head, c, d := "BASE " + zeros, DigitChar(0), DigitChar(1);
    LastDigitLost(ring, head, c, d);
    line := if Parse(LastBytes(ring + (head + [c]))) != Parse(head + [c]) then head + [c] else head + [d];
  }

  /** A line of each kind shows bytes left over, when no bit is. */
  lemma RingShows(r: Results, ring: string) returns (bytes: seq<byte>)
    requires r.state == 0 && ring != "" && |ring| <= UART_BUFSIZE && '\n' !in ring
    ensures !FirstOwn(r, ring, bytes)
  {
    var first := SomeBaseMisread(ring);
    var papp := MeterLineOf(Papp);
    var iinst := MeterLineOf(Iinst);
    bytes := ThreeLines(ring, first, papp, iinst);
    var x := LastBytes(ring + first);
    ClearedAbstractsNothing(r);
    CompletedIsDemanded(r, [], [x, papp, iinst]);
    ThreeDemanded(x, papp, iinst);
    ThreeDemanded(first, papp, iinst);
  }

  // ---------------------------------------------------------------- the exact condition

  /** On lines: whatever a meter sends, the first report completed is the first one called for, if and
      only if no bit is set and the ring is empty. */
  lemma FirstOwnExactly(r: Results, ring: string)
    requires r.state < 8 && |ring| <= UART_BUFSIZE && '\n' !in ring
    ensures (forall bytes: seq<byte> :: FirstOwn(r, ring, bytes)) <==> r.state == 0 && ring == ""
  {
    if r.state != 0 {
      var bytes := BitShows(r, ring);
    } else if ring != "" {
      var bytes := RingShows(r, ring);
    } else {
      ClearedAbstractsNothing(r);
      forall bytes: seq<byte> ensures FirstOwn(r, ring, bytes) {
        CompletedIsDemanded(r, [], Assemble(ring, bytes).lines);
      }
    }
  }

  lemma FirstIsReported(es: seq<Event>, bytes: seq<byte>)
    requires Run(es).main.Enabling? && (Run(es).thread.Asleep? || Idle(Run(es)))
    ensures var s := Run(es);
            ReportsOwn(s, bytes) <==> FirstOwn(Opened(s).results, Opened(s).ring, bytes)
  {
    var s := Run(es);
    OpenedIs(es);
    Serves(Opened(s), bytes);
    var done := Completed(Opened(s).results, Assemble(Opened(s).ring, bytes).lines);
    var made := Served(Opened(s), bytes).log.made;
    assert done != [] ==> made[|s.log.made|..] == [Made(Opened(s).rx, done[0])];
    assert done == [] ==> made[|s.log.made|..] == [];
    assert Values(made[|s.log.made|..]) == FirstOf(done);
  }

  /** The session that main is about to open while the thread is at rest, as it always is when it has
      its priority. If the thread keeps up from the opening on, the session reports exactly what its
      own bytes call for, whatever they are, if and only if no bit is set and nothing of the ring is
      left: it is empty, or a message is queued that makes the thread take it as a line, and the line
      holds no reading. */
  lemma CleanStart(es: seq<Event>)
    requires Run(es).main.Enabling? && (Run(es).thread.Asleep? || Idle(Run(es)))
    ensures var s := Run(es);
            ((forall bytes: seq<byte> :: ReportsOwn(s, bytes))
             <==> s.results.state == 0 && if s.inbox == 0 then s.ring == "" else Parse(s.ring).None?)
  {
    var s := Run(es);
    OpenedIs(es);
    FirstOwnExactly(Opened(s).results, Opened(s).ring);
    forall bytes: seq<byte> ensures ReportsOwn(s, bytes) <==> FirstOwn(Opened(s).results, Opened(s).ring, bytes) {
      FirstIsReported(es, bytes);
    }
  }
}
