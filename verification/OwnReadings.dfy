/** Exactly when the reports of a session hold that session's readings and no others, for every
    interleaving of interrupt, thread and main, and for those that respect the thread's priority. */
module OwnReadings {
  import opened Text
  import opened MeterReport
  import opened Uart
  import opened MeterText
  import opened Mote
  import opened Priority
  import opened Reports
  import opened Runs

  // ---------------------------------------------------------------- what a session owns

  /** x is y with some characters left out. */
  ghost predicate Picked(x: string, y: string, from: seq<nat>) {
    && |from| == |x|
    && (forall i | 0 <= i < |x| :: from[i] < |y| && x[i] == y[from[i]])
    && (forall i, j | 0 <= i < j < |x| :: from[i] < from[j])
  }

  /** The accounts of t go on from those of s. */
  ghost predicate Grown(s: State, t: State) {
    s.log.drained <= t.log.drained && s.log.made <= t.log.made && s.log.accepted <= t.log.accepted
  }

  /** The lines taken since s. */
  function LinesSince(s: State, t: State): seq<string>
    requires Grown(s, t)
  {
    t.log.drained[|s.log.drained|..]
  }

  /** Those of them that the thread is done with. */
  function HandledSince(s: State, t: State): seq<string> {
    var n := |s.log.drained|;
    if |Handled(t)| <= n then [] else Handled(t)[n..]
  }

  /** The lines taken since s, and the ring, are made of bytes received since s, in order, save those
      that were overwritten. */
  ghost predicate MadeOfSince(s: State, t: State, from: seq<nat>) {
    Grown(s, t) && Picked(Flatten(LinesSince(s, t)) + t.ring, t.log.accepted[|s.log.accepted|..], from)
  }

  /** The reports built since s are those that the lines taken since s call for, and these lines are
      made of bytes received since s, in order, save those that were overwritten. */
  ghost predicate Own(s: State, t: State) {
    && Grown(s, t)
    && Values(t.log.made[|s.log.made|..]) == Demanded([], HandledSince(s, t))
    && exists from :: MadeOfSince(s, t, from)
  }

  /** A run that goes on from es through one session, with a report. */
  ghost predicate SessionWithReport(es: seq<Event>, all: seq<Event>) {
    && es <= all
    && Run(all).log.enabled == Run(es).log.enabled + 1
    && |Run(all).log.made| > |Run(es).log.made|
  }

  /** Nothing is left over: no bit, no byte, no reading in the thread's hands. */
  ghost predicate Clean(s: State) {
    && s.results.state == 0 && s.ring == "" && !s.thread.Building?
    && (s.thread.Parsing? ==> Parse(s.thread.line).None?)
  }

  // ---------------------------------------------------------------- a clean start suffices

  lemma GrowsNext(s: State, t: State, e: Event)
    requires Grown(s, t)
    ensures Grown(s, Next(t, e))
  {
  }

  lemma {:induction false} FlattenAppend(a: seq<string>, b: seq<string>)
    ensures Flatten(a + b) == Flatten(a) + Flatten(b)
  {
    if b == [] {
      assert a + b == a;
    } else {
      var init := b[..|b| - 1];
      assert (a + b)[..|a + b| - 1] == a + init;
      FlattenAppend(a, init);
      assert Flatten(a) + (Flatten(init) + b[|b| - 1]) == Flatten(a) + Flatten(init) + b[|b| - 1];
    }
  }

  lemma PickedSnoc(x: string, y: string, from: seq<nat>, c: char)
    requires Picked(x, y, from)
    ensures Picked(x + [c], y + [c], from + [|y|])
  {
  }

  lemma PickedDrop(x: string, k: nat, y: string, from: seq<nat>)
    requires k < |x| && Picked(x, y, from)
    ensures Picked(x[..k] + x[k + 1..], y, from[..k] + from[k + 1..])
  {
  }

  /** A byte that comes to the ring, of which the lines before are f. */
  lemma PickedByte(f: string, ring: string, y: string, from: seq<nat>, c: char) returns (more: seq<nat>)
    requires Picked(f + ring, y, from)
    ensures Picked(f + AddOne(ring, c), y + [c], more)
  {
    if |ring| < UART_BUFSIZE {
      more := from + [|y|];
      PickedSnoc(f + ring, y, from, c);
      assert f + ring + [c] == f + AddOne(ring, c);
    } else {
      var k, x := |f|, f + ring;
      PickedDrop(x, k, y, from);
      PickedSnoc(x[..k] + x[k + 1..], y, from[..k] + from[k + 1..], c);
      more := from[..k] + from[k + 1..] + [|y|];
      assert x[..k] + x[k + 1..] + [c] == f + AddOne(ring, c);
    }
  }

  lemma PickedReceived(s: State, t: State, data: byte, from: seq<nat>) returns (more: seq<nat>)
    requires MadeOfSince(s, t, from)
    ensures MadeOfSince(s, OnByte(t, data), more)
  {
    var u := OnByte(t, data);
    var a := |s.log.accepted|;
    more := from;
    if u.log.accepted != t.log.accepted {
      more := PickedByte(Flatten(LinesSince(s, t)), t.ring, t.log.accepted[a..], from, SevenBits(data));
      assert u.log.accepted[a..] == t.log.accepted[a..] + [SevenBits(data)];
    }
  }

  lemma PickedTaken(s: State, t: State, from: seq<nat>)
    requires MadeOfSince(s, t, from) && t.thread.Fetching?
    ensures MadeOfSince(s, OnThread(t), from)
  {
    LineTaken(LinesSince(s, t), t.ring);
    assert LinesSince(s, OnThread(t)) == LinesSince(s, t) + [t.ring];
  }

  lemma PickedStays(s: State, t: State, u: State, from: seq<nat>)
    requires MadeOfSince(s, t, from) && Grown(s, u)
    requires u.ring == t.ring && u.log.drained == t.log.drained && u.log.accepted == t.log.accepted
    ensures MadeOfSince(s, u, from)
  {
  }

  /** One step keeps the lines since s made of bytes since s. */
  lemma PickedNext(s: State, t: State, e: Event, from: seq<nat>) returns (more: seq<nat>)
    requires MadeOfSince(s, t, from)
    ensures MadeOfSince(s, Next(t, e), more)
  {
    more := from;
    GrowsNext(s, t, e);
    if e.Byte? {
      more := PickedReceived(s, t, e.data, from);
    } else if e.Thread? && t.thread.Fetching? {
      PickedTaken(s, t, from);
    } else {
      PickedStays(s, t, Next(t, e), from);
    }
  }

  lemma LineTaken(lines: seq<string>, ring: string)
    ensures Flatten(lines + [ring]) + "" == Flatten(lines) + ring
  {
    assert (lines + [ring])[..|lines|] == lines;
  }

  lemma {:induction false} BytesSince(es: seq<Event>, fs: seq<Event>) returns (from: seq<nat>)
    requires Run(es).ring == ""
    ensures MadeOfSince(Run(es), Run(es + fs), from)
  {
    var s := Run(es);
    if fs == [] {
      from := [];
      assert es + fs == es;
      assert LinesSince(s, s) == [] && Flatten([]) + "" == "";
    } else {
      var init := fs[..|fs| - 1];
      var before := BytesSince(es, init);
      assert es + fs == (es + init) + [fs[|fs| - 1]];
      RunSnoc(es + init, fs[|fs| - 1]);
      from := PickedNext(s, Run(es + init), fs[|fs| - 1], before);
    }
  }

  /** A line that holds no reading changes nothing when no bit is set. */
  lemma SilentLine(r: Results, line: string)
    requires r.state == 0 && Parse(line).None?
    ensures Step(r, line) == (r, None)
  {
  }

  /** With nothing left over, the lines handled so far stand for nothing. */
  lemma NothingLeft(s: State)
    requires Follows(s) && Clean(s)
    ensures After(CLEARED, s.log.drained).state == 0
    ensures Values(s.log.made) == Completed(CLEARED, s.log.drained)
  {
    if s.thread.Parsing? {
      SilentLine(s.results, s.thread.line);
      LineAdded(CLEARED, Handled(s), s.thread.line);
      assert Completed(CLEARED, Handled(s)) + [] == Completed(CLEARED, Handled(s));
    }
  }

  lemma ValuesSplit(made: seq<Made>, m: nat)
    requires m <= |made|
    ensures Values(made) == Values(made[..m]) + Values(made[m..])
  {
  }

  lemma SameHead(a: seq<Report>, b: seq<Report>, c: seq<Report>)
    requires a + b == a + c
    ensures b == c
  {
    assert b == (a + b)[|a|..] && c == (a + c)[|a|..];
  }

  lemma LaterReports(r: Results, before: seq<string>, since: seq<string>, reports: seq<Report>)
    requires After(r, before).state == 0
    requires Completed(r, before) + reports == Completed(r, before + since)
    ensures reports == Demanded([], since)
  {
    var r' := After(r, before);
    ClearedAbstractsNothing(r');
    CompletedIsDemanded(r', [], since);
    CompletedAdded(r, before, since);
    SameHead(Completed(r, before), reports, Completed(r', since));
  }

  lemma NoLaterReports(r: Results, before: seq<string>, a: seq<Made>, b: seq<Made>)
    requires a <= b && before != []
    requires Values(a) == Completed(r, before) && Values(b) == Completed(r, before[..|before| - 1])
    ensures a == b && Values(b[|a|..]) == []
  {
    assert |Values(a)| >= |Values(b)|;
  }

  lemma HandledSplits(s: State, t: State)
    requires Grown(s, t)
    ensures var before := s.log.drained;
            if |Handled(t)| >= |before| then Handled(t) == before + HandledSince(s, t)
            else before != [] && Handled(t) == before[..|before| - 1] && HandledSince(s, t) == []
  {
  }

  lemma ValuesLater(r: Results, before: seq<string>, since: seq<string>, a: seq<Made>, b: seq<Made>)
    requires a <= b && After(r, before).state == 0
    requires Values(a) == Completed(r, before) && Values(b) == Completed(r, before + since)
    ensures Values(b[|a|..]) == Demanded([], since)
  {
    ValuesSplit(b, |a|);
    assert b[..|a|] == a;
    LaterReports(r, before, since, Values(b[|a|..]));
  }

  lemma ReportsSince(s: State, t: State)
    requires Follows(s) && Follows(t) && Clean(s) && Grown(s, t)
    ensures Values(t.log.made[|s.log.made|..]) == Demanded([], HandledSince(s, t))
  {
    NothingLeft(s);
    HandledSplits(s, t);
    if |Handled(t)| >= |s.log.drained| {
      ValuesLater(CLEARED, s.log.drained, HandledSince(s, t), s.log.made, t.log.made);
    } else {
      NoLaterReports(CLEARED, s.log.drained, s.log.made, t.log.made);
    }
  }

  lemma CleanOwns(es: seq<Event>, all: seq<Event>)
    requires es <= all && Clean(Run(es))
    ensures Own(Run(es), Run(all))
  {
    var fs := all[|es|..];
    assert es + fs == all;
    var from := BytesSince(es, fs);
    RunFollows(es);
    RunFollows(all);
    ReportsSince(Run(es), Run(all));
  }

  // ---------------------------------------------------------------- anything left over shows

  ghost predicate NoTag(lines: seq<string>, tag: Tag) {
    forall i | 0 <= i < |lines| :: !Reads(lines[i], tag)
  }

  lemma {:induction false} NeverDue(lines: seq<string>, tag: Tag)
    requires NoTag(lines, tag)
    ensures !Has(Since([], lines), tag) && Demanded([], lines) == []
  {
    if lines != [] {
      var init, last := lines[..|lines| - 1], lines[|lines| - 1];
      assert NoTag(init, tag) by {
        forall i | 0 <= i < |init| ensures !Reads(init[i], tag) {
          assert init[i] == lines[i];
        }
      }
      NeverDue(init, tag);
      LatestAppend(Since([], init), ReadingsOf(last), tag);
      assert !Has(ReadingsOf(last), tag) by {
        if Parse(last).Some? { LatestSingle(Parse(last).value, tag); }
      }
    }
  }

  /** A value for the tag from before s is in the results, or in the line in the thread's hands, and
      none has been read since. */
  ghost predicate Stale(s: State, t: State, tag: Tag)
    requires Grown(s, t)
  {
    && NoTag(LinesSince(s, t), tag) && !Reads(t.ring, tag)
    && (Bit(t.results.state, tag) || (t.thread.Parsing? && Reads(t.thread.line, tag)))
  }

  /** In the session after s, with reception on, no report yet and no byte overwritten. */
  ghost predicate Going(s: State, t: State) {
    && InRange(t) && Grown(s, t)
    && t.main.Listening? && t.rx != 0 && t.log.enabled == s.log.enabled + 1
    && t.log.made == s.log.made && t.log.lost == s.log.lost
    && (t.thread.Receiving? || t.thread.Fetching? || t.thread.Parsing? || t.thread.Building?)
  }

  /** The report has just been built. */
  ghost predicate JustBuilt(s: State, t: State) {
    && Grown(s, t) && t.main.Listening? && t.log.enabled == s.log.enabled + 1
    && |t.log.made| > |s.log.made| && t.log.lost == s.log.lost
  }

  lemma ThreadGoes(s: State, t: State)
    requires Going(s, t)
    ensures t.thread.Building? ==> JustBuilt(s, OnThread(t))
    ensures !t.thread.Building? ==> Going(s, OnThread(t))
  {
    InRangeKept(t, Thread);
    GrowsNext(s, t, Thread);
  }

  lemma StaleKept(s: State, t: State, tag: Tag)
    requires Going(s, t) && Stale(s, t, tag)
    ensures Grown(s, OnThread(t)) && NoTag(LinesSince(s, OnThread(t)), tag)
    ensures !t.thread.Building? ==> Stale(s, OnThread(t), tag)
  {
    var u := OnThread(t);
    GrowsNext(s, t, Thread);
    if t.thread.Fetching? {
      assert LinesSince(s, u) == LinesSince(s, t) + [t.ring];
    } else if t.thread.Parsing? && Parse(t.thread.line).Some? {
      BitsAfter(t.results, t.thread.line, tag);
    }
  }

  /** A run on the way to a report; when something stale is at hand, it stays at hand. */
  ghost predicate Way(es: seq<Event>, all: seq<Event>, s: State, t: State, stale: bool, tag: Tag) {
    Leads(es, all, t) && Going(s, t) && (stale ==> Stale(s, t, tag))
  }

  /** A run that has just built a report; the stale tag was not read since s. */
  ghost predicate Shown(es: seq<Event>, all: seq<Event>, s: State, t: State, stale: bool, tag: Tag) {
    Leads(es, all, t) && JustBuilt(s, t) && (stale ==> NoTag(LinesSince(s, t), tag))
  }

  predicate Idle(t: State) { t.thread.Receiving? && t.inbox == 0 }

  lemma ThreadOn(es: seq<Event>, all: seq<Event>, s: State, t: State, stale: bool, tag: Tag)
    requires Way(es, all, s, t, stale, tag)
    ensures t.thread.Building? ==> Shown(es, all + [Thread], s, OnThread(t), stale, tag)
    ensures !t.thread.Building? ==> Way(es, all + [Thread], s, OnThread(t), stale, tag)
  {
    LeadsNext(es, all, t, Thread);
    ThreadGoes(s, t);
    if stale { StaleKept(s, t, tag); }
  }

  /** How many steps the thread has to take. */
  function Work(t: State): nat {
    4 * t.inbox + match t.thread case Fetching => 3 case Parsing(_) => 2 case Building => 1 case _ => 0
  }

  /** The thread runs until it waits, or has built a report. */
  lemma {:induction false} ThreadRuns(es: seq<Event>, all: seq<Event>, s: State, t: State, stale: bool, tag: Tag)
    returns (more: seq<Event>, u: State)
    requires Way(es, all, s, t, stale, tag)
    ensures Shown(es, more, s, u, stale, tag) || (Way(es, more, s, u, stale, tag) && Idle(u) && (t.ring == "" ==> u.ring == ""))
    decreases Work(t)
  {
    if Idle(t) {
      more, u := all, t;
    } else {
      ThreadOn(es, all, s, t, stale, tag);
      more, u := all + [Thread], OnThread(t);
      if !t.thread.Building? { more, u := ThreadRuns(es, more, s, u, stale, tag); }
    }
  }

  /** A newline: the thread takes what the ring holds. */
  lemma LineEnds(es: seq<Event>, all: seq<Event>, s: State, t: State, stale: bool, tag: Tag)
    returns (more: seq<Event>, u: State)
    requires Way(es, all, s, t, stale, tag) && Idle(t)
    ensures Shown(es, more, s, u, stale, tag)
            || (Way(es, more, s, u, stale, tag) && Idle(u) && u.ring == "" && u.results == Accept(t.results, t.ring))
  {
    var a := OnByte(t, 10);
    LeadsNext(es, all, t, Byte(10));
    InRangeKept(t, Byte(10));
    ThreadOn(es, all + [Byte(10)], s, a, stale, tag);
    var b := OnThread(a);
    ThreadOn(es, all + [Byte(10)] + [Thread], s, b, stale, tag);
    var c := OnThread(b);
    more, u := all + [Byte(10)] + [Thread] + [Thread], c;
    if c.thread.Building? {
      ThreadOn(es, more, s, c, stale, tag);
      more, u := more + [Thread], OnThread(c);
    }
  }

  /** A line of a meter comes while the thread waits and the ring is empty. */
  lemma LineComes(es: seq<Event>, all: seq<Event>, s: State, t: State, line: string, stale: bool, tag: Tag)
    returns (more: seq<Event>, u: State)
    requires Way(es, all, s, t, stale, tag) && Idle(t) && t.ring == ""
    requires MeterLine(line) && (stale ==> !Reads(line, tag))
    ensures Shown(es, more, s, u, stale, tag)
            || (Way(es, more, s, u, stale, tag) && Idle(u) && u.ring == "" && u.results == Accept(t.results, line))
  {
    var filled := t.(ring := line, log := t.log.(accepted := t.log.accepted + line));
    var most := LeadsFilled(es, all, t, line);
    more, u := LineEnds(es, most, s, filled, stale, tag);
  }

  // ---------------------------------------------------------------- the session opens

  /** Main opens a session while the thread sleeps or is at work on lines. */
  lemma SessionOpens(es: seq<Event>, all: seq<Event>, s: State, t: State) returns (more: seq<Event>, u: State)
    requires Leads(es, all, t) && InRange(t) && Grown(s, t) && t.main.Enabling?
    requires Scheduled(es) ==> Blocked(t)
    requires t.log.enabled == s.log.enabled && t.log.made == s.log.made && t.log.lost == s.log.lost
    requires t.thread.Asleep? || t.thread.Receiving? || t.thread.Fetching? || t.thread.Parsing? || t.thread.Building?
    ensures Leads(es, more, u) && Going(s, u)
    ensures u.log.drained == t.log.drained && u.log.accepted == t.log.accepted
    ensures u.ring == t.ring && u.results == t.results && u.inbox == t.inbox
    ensures t.thread.Asleep? ==> u.thread.Receiving?
    ensures !t.thread.Asleep? ==> u.thread == t.thread
  {
    LeadsNext(es, all, t, Main);
    LeadsNext(es, all + [Main], OnMain(t), Main);
    InRangeKept(t, Main);
    InRangeKept(OnMain(t), Main);
    more, u := all + [Main] + [Main], OnMain(OnMain(t));
  }

  /** A thread that has a report in hand, or has just sent it, goes to sleep. */
  lemma ThreadSleeps(es: seq<Event>, all: seq<Event>, s: State, t: State) returns (more: seq<Event>, u: State)
    requires Leads(es, all, t) && InRange(t) && QueueShort(t)
    requires t.main.Enabling? && (t.thread.Sending? || t.thread.Clearing? || t.thread.Parking?)
    ensures Leads(es, more, u) && InRange(u) && u.thread.Asleep? && u.main == t.main
    ensures u.ring == t.ring && u.results == t.results && u.inbox == t.inbox
    ensures u.log == t.log.(reported := u.log.reported)
    decreases match t.thread case Sending(_) => 2 case Clearing => 1 case _ => 0
  {
    LeadsNext(es, all, t, Thread);
    InRangeKept(t, Thread);
    QueueShortKept(t, Thread);
    more, u := all + [Thread], OnThread(t);
    if !t.thread.Parking? { more, u := ThreadSleeps(es, more, s, u); }
  }

  lemma ScheduledIsQuiet(es: seq<Event>)
    requires Scheduled(es) && Run(es).main.Enabling?
    ensures Run(es).thread.Asleep? || Idle(Run(es))
  {
    EveryScheduledRun(es);
  }

  // ---------------------------------------------------------------- bytes left over

  lemma AllThreeRead(r: Results, x: string, base: string, papp: string, iinst: string)
    requires r.state < 8 && Reads(base, Base) && Reads(papp, Papp) && Reads(iinst, Iinst)
    ensures Full(Accept(Accept(Accept(Accept(r, x), base), papp), iinst))
  {
    var r0 := Accept(r, x);
    if Parse(x).Some? { BitsAfter(r, x, Base); }
    var r1 := Accept(r0, base);
    BitsAfter(r0, base, Base);
    var r2 := Accept(r1, papp);
    BitsAfter(r1, papp, Base);
    BitsAfter(r1, papp, Papp);
    var r3 := Accept(r2, iinst);
    BitsAfter(r2, iinst, Base);
    BitsAfter(r2, iinst, Papp);
    BitsAfter(r2, iinst, Iinst);
    FullMeansAllBits(r3);
  }

  /** Whatever is in the ring: a newline and a line of each kind make a report. */
  lemma FourLines(es: seq<Event>, all: seq<Event>, s: State, t: State) returns (more: seq<Event>, u: State)
    requires Way(es, all, s, t, false, Base) && Idle(t)
    ensures Leads(es, more, u) && JustBuilt(s, u)
  {
    var base, papp, iinst := Lines(1, 1, 1);
    AllThreeRead(t.results, t.ring, base, papp, iinst);
    more, u := LineEnds(es, all, s, t, false, Base);
    if !JustBuilt(s, u) {
      more, u := LineComes(es, more, s, u, base, false, Base);
      if !JustBuilt(s, u) {
        more, u := LineComes(es, more, s, u, papp, false, Base);
        if !JustBuilt(s, u) { more, u := LineComes(es, more, s, u, iinst, false, Base); }
      }
    }
  }

  lemma {:induction false} PickedFits(x: string, y: string, from: seq<nat>)
    requires Picked(x, y, from)
    ensures |x| <= |y|
  {
    if x != "" {
      var k := |x| - 1;
      PickedFits(x[..k], y[..from[k]], from[..k]);
    }
  }

  /** Too many characters to have come since s. */
  lemma BytesShow(s: State, u: State)
    requires Accounted(s) && Accounted(u) && JustBuilt(s, u) && s.ring != ""
    ensures !Own(s, u)
  {
    FlattenAppend(s.log.drained, LinesSince(s, u));
    assert s.log.drained + LinesSince(s, u) == u.log.drained;
    var x, y := Flatten(LinesSince(s, u)) + u.ring, u.log.accepted[|s.log.accepted|..];
    assert |x| > |y|;
    if from :| MadeOfSince(s, u, from) { PickedFits(x, y, from); }
  }

  lemma BytesLeft(es: seq<Event>) returns (all: seq<Event>)
    requires Run(es).main.Enabling? && Run(es).ring != ""
    ensures SessionWithReport(es, all) && (Scheduled(es) ==> Scheduled(all)) && !Own(Run(es), Run(all))
  {
    var s := Run(es);
    EveryRun(es);
    if Scheduled(es) { ScheduledIsQuiet(es); }
    var t := s;
    all := es;
    if s.thread.Sending? || s.thread.Clearing? || s.thread.Parking? { all, t := ThreadSleeps(es, es, s, s); }
    all, t := SessionOpens(es, all, s, t);
    all, t := ThreadRuns(es, all, s, t, false, Base);
    if !JustBuilt(s, t) { all, t := FourLines(es, all, s, t); }
    EveryRun(all);
    BytesShow(s, t);
  }

  // ---------------------------------------------------------------- a bit left over

  /** The thread waits with a stale bit: the other two tags make a report. */
  lemma TwoLines(es: seq<Event>, all: seq<Event>, s: State, t: State, tag: Tag) returns (more: seq<Event>, u: State)
    requires Way(es, all, s, t, true, tag) && Idle(t) && t.ring == ""
    ensures Shown(es, more, s, u, true, tag)
  {
    var l1 := MeterLineOf(Others(tag).0);
    var l2 := MeterLineOf(Others(tag).1);
    more, u := LineComes(es, all, s, t, l1, true, tag);
    if !Shown(es, more, s, u, true, tag) {
      BitsAfter(t.results, l1, tag);
      BitsAfter(t.results, l1, Others(tag).0);
      more, u := LineComes(es, more, s, u, l2, true, tag);
      BitsAfter(Accept(t.results, l1), l2, tag);
      BitsAfter(Accept(t.results, l1), l2, Others(tag).0);
      BitsAfter(Accept(t.results, l1), l2, Others(tag).1);
      AllBits(Accept(Accept(t.results, l1), l2), tag);
    }
  }

  lemma MeterLineOf(tag: Tag) returns (line: string)
    ensures MeterLine(line) && Reads(line, tag)
  {
    var base, papp, iinst := Lines(1, 1, 1);
    line := match tag case Base => base case Papp => papp case Iinst => iinst;
  }

  /** A report although its stale tag was not read. */
  lemma ValueShows(s: State, u: State, tag: Tag)
    requires JustBuilt(s, u) && NoTag(LinesSince(s, u), tag)
    ensures !Own(s, u)
  {
    var since := HandledSince(s, u);
    assert NoTag(since, tag) by {
      forall i | 0 <= i < |since| ensures !Reads(since[i], tag) {
        assert since[i] == LinesSince(s, u)[i];
      }
    }
    NeverDue(since, tag);
    assert |Values(u.log.made[|s.log.made|..])| > 0;
  }

  lemma ValueLeft(es: seq<Event>) returns (all: seq<Event>)
    requires Run(es).main.Enabling? && Run(es).ring == "" && !Clean(Run(es))
    ensures SessionWithReport(es, all) && (Scheduled(es) ==> Scheduled(all)) && !Own(Run(es), Run(all))
  {
    var s := Run(es);
    EveryRun(es);
    if Scheduled(es) { ScheduledIsQuiet(es); }
    var tag := if s.thread.Parsing? && Parse(s.thread.line).Some? then Parse(s.thread.line).value.tag
               else SomeBitOf(s.results.state);
    var t;
    all, t := SessionOpens(es, es, s, s);
    assert LinesSince(s, t) == [];
    all, t := ThreadRuns(es, all, s, t, true, tag);
    if !Shown(es, all, s, t, true, tag) { all, t := TwoLines(es, all, s, t, tag); }
    ValueShows(s, t, tag);
  }

  function SomeBitOf(state: bv8): (tag: Tag)
    ensures 0 < state < 8 ==> Bit(state, tag)
  {
    if Bit(state, Base) then Base else if Bit(state, Papp) then Papp else Iinst
  }

  // ---------------------------------------------------------------- the exact condition

  /** For every interleaving: whatever happens from here on, the reports of the session that main is
      about to open are those that the lines taken since call for, made of bytes received since, if
      and only if nothing is left over. When the thread has its priority, that is to say: no bit is
      set and the ring is empty. */
  lemma {:induction false} OwnExactly(es: seq<Event>)
    requires Run(es).main.Enabling?
    ensures (forall all | SessionWithReport(es, all) :: Own(Run(es), Run(all))) <==> Clean(Run(es))
    ensures Scheduled(es) ==>
              ((forall all | SessionWithReport(es, all) && Scheduled(all) :: Own(Run(es), Run(all)))
               <==> Run(es).results.state == 0 && Run(es).ring == "")
  {
    if Clean(Run(es)) {
      forall all | SessionWithReport(es, all) ensures Own(Run(es), Run(all)) {
        CleanOwns(es, all);
      }
    } else if Run(es).ring != "" {
      var all := BytesLeft(es);
    } else {
      var all := ValueLeft(es);
    }
    if Scheduled(es) { ScheduledIsQuiet(es); }
  }
}
