/** Runs that respect the thread's priority and in which a session does not report its own readings:
    a report of the second meter carries a value of the first, because the bits are not cleared
    between sessions; and a report is missing, because a message was left over. */
module MixedReport {
  import opened Text
  import opened MeterReport
  import opened Uart
  import opened MeterText
  import opened Mote
  import opened Priority
  import opened Runs
  import opened OwnReadings

  lemma FirstOpening() returns (all: seq<Event>, s: State)
    ensures Leads([], all, s) && s.main == Listening(1) && s.rx == 1 && Waiting(s) && s.ring == ""
    ensures s.results == CLEARED && s.queue == [] && s.log.drained == [] && s.log.made == []
  {
    LeadsNext([], [], BOOT, Main);
    LeadsNext([], [] + [Main], OnMain(BOOT), Main);
    all, s := [] + [Main] + [Main], OnMain(OnMain(BOOT));
  }

  /** Main ends the session of meter 1 and opens that of meter 2. */
  lemma NextMeter(all: seq<Event>, s: State) returns (more: seq<Event>, t: State)
    requires Leads([], all, s) && s.main == Listening(1) && Waiting(s)
    ensures all <= more && Leads([], more, t)
    ensures t == s.(rx := 2, main := Listening(2), log := t.log)
    ensures t.log.drained == s.log.drained && t.log.made == s.log.made
  {
    LeadsNext([], all, s, Main);
    LeadsNext([], all + [Main], OnMain(s), Main);
    LeadsNext([], all + [Main] + [Main], OnMain(OnMain(s)), Main);
    more, t := all + [Main] + [Main] + [Main], OnMain(OnMain(OnMain(s)));
  }

  /** Meter 1 sends a BASE line, and then main turns to meter 2. */
  lemma FirstSession(base: string, b: int) returns (first: seq<Event>, all: seq<Event>, s: State)
    requires MeterLine(base) && Parse(base) == Some(Reading(Base, b))
    ensures first <= all && Run(first).main == Listening(1) && Run(first).log.drained == [base]
    ensures Leads([], all, s) && s.main == Listening(2) && s.rx == 2 && Waiting(s) && s.ring == ""
    ensures s.log.drained == [base] && s.log.made == [] && s.results == Results(0, 0, b, BASE_DONE)
  {
    var open, o := FirstOpening();
    first := LeadsLine([], open, o, base);
    assert Accept(CLEARED, base) == Results(0, 0, b, BASE_DONE);
    assert [] + [base] == [base];
    all, s := NextMeter(first, Run(first));
  }

  /** Meter 2 sends a PAPP line and an IINST line. */
  lemma SecondSession(all: seq<Event>, s: State, papp: string, iinst: string, p: int, i: int)
    returns (more: seq<Event>, u: State)
    requires Leads([], all, s) && s.rx == 2 && Waiting(s) && s.ring == "" && s.results.state == BASE_DONE
    requires MeterLine(papp) && Parse(papp) == Some(Reading(Papp, p))
    requires MeterLine(iinst) && Parse(iinst) == Some(Reading(Iinst, i))
    ensures all <= more && Leads([], more, u) && u.main == s.main
    ensures u.log.drained == s.log.drained + [papp] + [iinst]
    ensures u.log.made == s.log.made + [Made(2, Report(p, s.results.base, i))]
  {
    assert Accept(s.results, papp).state == 3;
    var most := LeadsLine([], all, s, papp);
    var t := Run(most);
    assert Accept(t.results, iinst).state == 7;
    most := LeadsLine([], most, t, iinst);
    LeadsNext([], most, Run(most), Thread);
    more, u := most + [Thread], OnThread(Run(most));
  }

  /** For any readings: meter 1 sends only its BASE line, meter 2 only the other two; the report
      carries index 2, and meter 1's BASE. The first n steps end within the session of meter 1. */
  lemma {:induction false} ReportMixesMeters(b: nat, p: nat, i: nat)
    returns (es: seq<Event>, n: nat, base: string, papp: string, iinst: string)
    requires b < 1_000_000_000 && p <= 32767 && i < 1000
    ensures Scheduled(es) && n <= |es|
    ensures Parse(base) == Some(Reading(Base, b))
    ensures Parse(papp) == Some(Reading(Papp, p)) && Parse(iinst) == Some(Reading(Iinst, i))
    ensures Run(es[..n]).main == Listening(1) && Run(es[..n]).log.drained == [base]
    ensures Run(es).main == Listening(2) && Run(es).log.drained == [base, papp, iinst]
    ensures Run(es).log.made == [Made(2, Report(p, b, i))]
  {
    base, papp, iinst := Lines(b, p, i);
    var first, all, s := FirstSession(base, b);
    var more, u := SecondSession(all, s, papp, iinst, p, i);
    es, n := more, |first|;
    assert es[..n] == first;
    assert [base] + [papp] + [iinst] == [base, papp, iinst];
  }

  /** The beginning of a line stays in the ring when the session ends, whatever the line. */
  lemma BytesLeftOver(line: string) returns (es: seq<Event>)
    requires MeterLine(line)
    ensures Scheduled(es) && Run(es).main == Enabling(2) && Run(es).ring == line
  {
    var all, s := FirstOpening();
    all := LeadsFilled([], all, s, line);
    LeadsNext([], all, Run(all), Main);
    es := all + [Main];
  }

  // ---------------------------------------------------------------- a message left over

  /** The report is built, a newline comes, and the thread sends the report and goes to sleep. */
  lemma NewlineWhileBuilding(all: seq<Event>, s: State) returns (more: seq<Event>, t: State)
    requires Leads([], all, s) && s.thread.Building? && s.rx != 0 && s.inbox == 0 && s.queue == [] && s.main == Listening(1)
    ensures Leads([], more, t) && t.thread.Asleep? && t.main == Enabling(2)
    ensures t.results == CLEARED && t.ring == s.ring && t.inbox == 1
  {
    var a := OnByte(s, 10);
    var b := OnThread(OnThread(OnThread(OnThread(a))));
    LeadsNext([], all, s, Byte(10));
    LeadsNext([], all + [Byte(10)], a, Thread);
    LeadsNext([], all + [Byte(10)] + [Thread], OnThread(a), Thread);
    LeadsNext([], all + [Byte(10)] + [Thread] + [Thread], OnThread(OnThread(a)), Thread);
    LeadsNext([], all + [Byte(10)] + [Thread] + [Thread] + [Thread], OnThread(OnThread(OnThread(a))), Thread);
    LeadsNext([], all + [Byte(10)] + [Thread] + [Thread] + [Thread] + [Thread], b, Main);
    more, t := all + [Byte(10)] + [Thread] + [Thread] + [Thread] + [Thread] + [Main], OnMain(b);
  }

  /** A line of each kind makes the thread build a report. */
  lemma LinesBuild(all: seq<Event>, s: State, base: string, papp: string, iinst: string)
    returns (more: seq<Event>, t: State)
    requires Leads([], all, s) && Waiting(s) && s.ring == "" && s.results.state == 0
    requires MeterLine(base) && Reads(base, Base) && MeterLine(papp) && Reads(papp, Papp)
    requires MeterLine(iinst) && Reads(iinst, Iinst)
    ensures Leads([], more, t) && t.thread.Building?
    ensures t == s.(thread := Building, results := t.results, log := t.log)
  {
    var r1 := Accept(s.results, base);
    var r2 := Accept(r1, papp);
    assert r1.state == 1 && r2.state == 3 && Accept(r2, iinst).state == 7;
    more := LeadsLine([], all, s, base);
    more := LeadsLine([], more, Run(more), papp);
    more := LeadsLine([], more, Run(more), iinst);
    t := Run(more);
  }

  /** So main can come to open a session with no bit set, an empty ring, and a message queued. */
  lemma MessageLeftOver() returns (es: seq<Event>)
    ensures Scheduled(es)
    ensures var s := Run(es);
            s.main == Enabling(2) && s.thread.Asleep? && s.results.state == 0 && s.ring == "" && s.inbox == 1
  {
    var base, papp, iinst := Lines(1, 1, 1);
    var all, s := FirstOpening();
    all, s := LinesBuild(all, s, base, papp, iinst);
    es, s := NewlineWhileBuilding(all, s);
  }

  /** Two bytes before the wake-up: the thread takes them as a line of their own. */
  lemma EarlyBytes(es: seq<Event>, s: State, two: string) returns (all: seq<Event>, t: State)
    requires Run(es) == s && s.main.Enabling? && 0 < s.main.meter && s.thread.Asleep? && s.results.state == 0
    requires s.ring == "" && s.inbox == 1 && MeterLine(two) && Parse(two).None?
    ensures Leads(es, all, t) && Waiting(t) && t.ring == "" && t.results == s.results && t.log.made == s.log.made
    ensures t.log.drained == s.log.drained + [two] && t.log.accepted == s.log.accepted + two
    ensures t.main == Listening(s.main.meter)
  {
    var open := OnMain(s);
    LeadsNext(es, es, s, Main);
    all := LeadsFilled(es, es + [Main], open, two);
    var filled := open.(ring := two, log := open.log.(accepted := open.log.accepted + two));
    LeadsNext(es, all, filled, Main);
    all, t := all + [Main], OnMain(filled);
    LeadsNext(es, all, t, Thread);
    all, t := all + [Thread], OnThread(t);
    LeadsNext(es, all, t, Thread);
    all, t := all + [Thread], OnThread(t);
    LeadsNext(es, all, t, Thread);
    all, t := all + [Thread], OnThread(t);
  }

  lemma Beheaded(base: string)
    requires MeterLine(base) && Reads(base, Base)
    ensures |base| >= 14 && base[..2] == "BA"
    ensures MeterLine(base[..2]) && MeterLine(base[2..])
    ensures Parse(base[..2]).None? && Parse(base[2..]).None?
  {
    assert base[..4] == "BASE";
    assert base[2..][0] == 'S';
  }

  /** That the thread is at rest before the first byte comes is needed: when a message is left over,
      the beginning of a BASE line that comes before the wake-up is taken as a line, and although the
      session receives a line of each kind, and ends at rest, it has no report. */
  lemma ReportMissed(es: seq<Event>, base: string, papp: string, iinst: string) returns (all: seq<Event>)
    requires var s := Run(es);
             s.main.Enabling? && 0 < s.main.meter && s.thread.Asleep? && s.results.state == 0 && s.ring == "" && s.inbox == 1
    requires MeterLine(base) && Reads(base, Base) && MeterLine(papp) && Reads(papp, Papp)
    requires MeterLine(iinst) && Reads(iinst, Iinst)
    ensures es <= all && (Scheduled(es) ==> Scheduled(all))
    ensures var s, t := Run(es), Run(all);
            && Idle(t) && t.main == Listening(s.main.meter)
            && t.log.accepted == s.log.accepted + base + papp + iinst
            && t.log.drained == s.log.drained + [base[..2]] + [base[2..]] + [papp] + [iinst]
            && t.log.made == s.log.made
    ensures Demanded([], [base, papp, iinst]) != []
  {
    ThreeDemanded(base, papp, iinst);
    Beheaded(base);
    all := HeadTakenEarly(es, Run(es), base[..2], base[2..], papp, iinst);
    TwoParts(Run(es).log.accepted, base);
  }

  lemma TwoParts(before: string, line: string)
    requires |line| >= 2
    ensures before + line[..2] + line[2..] == before + line
  {
  }

  lemma HeadTakenEarly(es: seq<Event>, s: State, head: string, tail: string, papp: string, iinst: string)
    returns (all: seq<Event>)
    requires Run(es) == s && s.main.Enabling? && 0 < s.main.meter && s.thread.Asleep? && s.results.state == 0
    requires s.ring == "" && s.inbox == 1
    requires MeterLine(head) && Parse(head).None? && MeterLine(tail) && Parse(tail).None?
    requires MeterLine(papp) && Reads(papp, Papp) && MeterLine(iinst) && Reads(iinst, Iinst)
    ensures es <= all && (Scheduled(es) ==> Scheduled(all))
    ensures var t := Run(all);
            && Idle(t) && t.main == Listening(s.main.meter)
            && t.log.accepted == s.log.accepted + head + tail + papp + iinst
            && t.log.drained == s.log.drained + [head] + [tail] + [papp] + [iinst]
            && t.log.made == s.log.made
  {
    var t;
    all, t := EarlyBytes(es, s, head);
    all, t := LinesMissed(es, all, t, tail, papp, iinst);
  }

  /** A line without a reading, a PAPP and an IINST make no report. */
  lemma LinesMissed(es: seq<Event>, all: seq<Event>, s: State, junk: string, papp: string, iinst: string)
    returns (more: seq<Event>, t: State)
    requires Leads(es, all, s) && Waiting(s) && s.ring == "" && s.results.state == 0
    requires MeterLine(junk) && Parse(junk).None? && MeterLine(papp) && Reads(papp, Papp)
    requires MeterLine(iinst) && Reads(iinst, Iinst)
    ensures Leads(es, more, t) && Idle(t) && t.main == s.main && t.log.made == s.log.made
    ensures t.log.accepted == s.log.accepted + junk + papp + iinst
    ensures t.log.drained == s.log.drained + [junk] + [papp] + [iinst]
  {
    var r1 := Accept(s.results, papp);
    assert r1.state == 2 && Accept(r1, iinst).state == 6;
    more := LeadsLine(es, all, s, junk);
    more := LeadsLine(es, more, Run(more), papp);
    more := LeadsLine(es, more, Run(more), iinst);
    t := Run(more);
  }
}
