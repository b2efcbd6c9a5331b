/** Runs that reach the limits: a session in which a meter's three lines become a report, and a run
    in which three report buffers exist at once; and what can go wrong without priorities. */
module Attained {
  import opened Text
  import opened MeterReport
  import opened Uart
  import opened MeterText
  import opened Mote

  function Continue(s: State, es: seq<Event>): State {
    if es == [] then s else Next(Continue(s, es[..|es| - 1]), es[|es| - 1])
  }

  lemma {:induction false} ContinueAppend(s: State, a: seq<Event>, b: seq<Event>)
    ensures Continue(s, a + b) == Continue(Continue(s, a), b)
  {
    if b == [] {
      assert a + b == a;
    } else {
      assert (a + b)[..|a + b| - 1] == a + b[..|b| - 1];
      ContinueAppend(s, a, b[..|b| - 1]);
    }
  }

  lemma {:induction false} RunIsContinue(es: seq<Event>)
    ensures Run(es) == Continue(BOOT, es)
  {
    if es != [] { RunIsContinue(es[..|es| - 1]); }
  }

  lemma OneStep(s: State, e: Event)
    ensures Continue(s, [e]) == Next(s, e)
  {
    assert [e][..0] == [];
  }

  /** t can be reached from s. */
  ghost predicate Reaches(s: State, t: State) {
    exists es :: Continue(s, es) == t
  }

  lemma ReachesSelf(s: State)
    ensures Reaches(s, s)
  {
    assert Continue(s, []) == s;
  }

  lemma ReachesNext(s: State, t: State, e: Event)
    requires Reaches(s, t)
    ensures Reaches(s, Next(t, e))
  {
    var es :| Continue(s, es) == t;
    OneStep(t, e);
    ContinueAppend(s, es, [e]);
  }

  lemma ReachesTrans(s: State, t: State, u: State)
    requires Reaches(s, t) && Reaches(t, u)
    ensures Reaches(s, u)
  {
    var es :| Continue(s, es) == t;
    var fs :| Continue(t, fs) == u;
    ContinueAppend(s, es, fs);
  }

  lemma {:induction false} ReachesFed(s: State, bytes: seq<byte>)
    ensures Reaches(s, Fed(s, bytes))
  {
    if bytes == [] {
      ReachesSelf(s);
    } else {
      var t := Fed(s, bytes[..|bytes| - 1]);
      ReachesFed(s, bytes[..|bytes| - 1]);
      ReachesNext(s, t, Byte(bytes[|bytes| - 1]));
      ReachesNext(s, OnByte(t, bytes[|bytes| - 1]), Thread);
      ReachesNext(s, OnThread(OnByte(t, bytes[|bytes| - 1])), Thread);
    }
  }

  // ---------------------------------------------------------------- a meter's lines arrive

  /** After two lines, the thread waits with two bits set and the third line in the ring. */
  lemma AlmostThere(s: State, base: string, papp: string, iinst: string)
    requires Waiting(s) && s.ring == "" && s.results.state == 0
    requires MeterLine(base) && Parse(base).Some? && Parse(base).value.tag == Base
    requires MeterLine(papp) && Parse(papp).Some? && Parse(papp).value.tag == Papp
    requires MeterLine(iinst) && Parse(iinst).Some? && Parse(iinst).value.tag == Iinst
    ensures Plain(TextOf([base, papp], iinst))
    ensures var t := Fed(s, Codes(TextOf([base, papp], iinst)));
            && Waiting(t) && t.rx == s.rx && t.queue == s.queue && t.main == s.main && t.ring == iinst
            && Full(Accept(t.results, iinst))
  {
    var lines := [base, papp];
    WholeText(lines, iinst);
    assert lines[..0] == [] && lines[..1] == [base] && [base][..0] == [];
    assert After(s.results, []) == s.results;
    var r1 := Accept(s.results, base);
    assert r1.state == 1;
    assert After(s.results, [base]) == r1;
    var r2 := Accept(r1, papp);
    assert r2.state == 3;
    assert After(s.results, lines) == r2;
    KeepsUp(s, Codes(TextOf([base, papp], iinst)));
  }

  // ---------------------------------------------------------------- three buffers at once

  /** t is a state after s in which one more report is queued and the thread sleeps. */
  ghost predicate OneMore(s: State, t: State) {
    && t.thread.Asleep? && t.rx == 0 && t.main == s.main && t.inbox == s.inbox
    && |t.queue| == |s.queue| + 1 && t.ring == "" && t.results.state == 0
  }

  lemma FourMore(origin: State, s: State)
    requires Reaches(origin, s)
    ensures Reaches(origin, OnThread(OnThread(OnThread(OnThread(s)))))
  {
    ReachesNext(origin, s, Thread);
    ReachesNext(origin, OnThread(s), Thread);
    ReachesNext(origin, OnThread(OnThread(s)), Thread);
    ReachesNext(origin, OnThread(OnThread(OnThread(s))), Thread);
  }

  lemma BuiltToSent(s: State)
    requires s.thread.Building? && |s.queue| < QUEUE_SIZE && s.ring == ""
    ensures OneMore(s, OnThread(OnThread(OnThread(OnThread(s)))))
  {
    SendSteps(s);
  }

  /** From the newline of the third line on, the thread sends a report, whatever main did to
      reception in between. */
  lemma ThreadFinishes(origin: State, s: State) returns (t: State)
    requires Reaches(origin, s)
    requires s.thread.Fetching? && Full(Accept(s.results, s.ring)) && |s.queue| < QUEUE_SIZE
    ensures Reaches(origin, t) && OneMore(s, t)
  {
    var built := OnThread(OnThread(s));
    ReachesNext(origin, s, Thread);
    ReachesNext(origin, OnThread(s), Thread);
    BuiltToSent(built);
    FourMore(origin, built);
    t := OnThread(OnThread(OnThread(OnThread(built))));
  }

  /** The lines of a meter arrive; the newline of the third is the last byte. */
  lemma LinesArrive(origin: State, s: State) returns (t: State)
    requires Reaches(origin, s)
    requires Waiting(s) && s.ring == "" && s.results.state == 0
    ensures Reaches(origin, t)
    ensures t.thread.Fetching? && Full(Accept(t.results, t.ring))
    ensures t.main == s.main && t.queue == s.queue && t.inbox == 0
  {
    var base, papp, iinst := Lines(14036028, 2340, 10);
    AlmostThere(s, base, papp, iinst);
    var bytes := Codes(TextOf([base, papp], iinst));
    ReachesFed(s, bytes);
    ReachesTrans(origin, s, Fed(s, bytes));
    ReachesNext(origin, Fed(s, bytes), Byte(10));
    t := OnByte(Fed(s, bytes), 10);
  }

  /** A session that starts with the thread asleep and nothing left over sends its report. */
  lemma SessionReports(origin: State, s: State) returns (t: State)
    requires Reaches(origin, s)
    requires s.thread.Asleep? && s.main.Enabling? && 0 < s.main.meter
    requires s.ring == "" && s.results.state == 0 && s.inbox == 0 && |s.queue| < QUEUE_SIZE
    ensures Reaches(origin, t) && OneMore(s.(main := Listening(s.main.meter)), t)
  {
    ReachesNext(origin, s, Main);
    ReachesNext(origin, OnMain(s), Main);
    var u := LinesArrive(origin, OnMain(OnMain(s)));
    t := ThreadFinishes(origin, u);
  }

  /** The thread waits from the start: the first newline reaches it even before main's first wake-up. */
  lemma FirstNewlineHeard()
    ensures Run([Main] + [Byte(10)]).thread.Fetching?
  {
    RunSnoc([], Main);
    RunSnoc([Main], Byte(10));
    assert [] + [Main] == [Main];
  }

  lemma FirstCycle() returns (s: State)
    ensures Reaches(BOOT, s) && Waiting(s)
    ensures s.main == Listening(2) && s.ring == "" && s.results.state == 0 && s.queue == []
  {
    ReachesSelf(BOOT);
    var a := OnMain(BOOT);
    ReachesNext(BOOT, BOOT, Main);
    var b := OnMain(a);
    ReachesNext(BOOT, a, Main);
    var c := OnMain(b);
    ReachesNext(BOOT, b, Main);
    var d := OnMain(c);
    ReachesNext(BOOT, c, Main);
    s := OnMain(d);
    ReachesNext(BOOT, d, Main);
  }

  /** The bound of three buffers is reached: a report whose last newline came just before the end of
      a cycle is sent at the start of the next one, and both sessions of that cycle send theirs. */
  lemma ThreeBuffers()
    ensures exists es :: |Live(Run(es))| == 3
  {
    var s := FirstCycle();
    var late := LinesArrive(BOOT, s);
    ReachesNext(BOOT, late, Main);
    ReachesNext(BOOT, OnMain(late), Main);
    var one := ThreadFinishes(BOOT, OnMain(OnMain(late)));
    var two := SessionReports(BOOT, one);
    ReachesNext(BOOT, two, Main);
    var three := SessionReports(BOOT, OnMain(two));
    var es :| Continue(BOOT, es) == three;
    RunIsContinue(es);
    assert |Live(three)| == |three.queue| == 3;
  }

  // ---------------------------------------------------------------- what can go wrong without priorities

  /** The thread is about to build a report in a session that is still open. */
  lemma AboutToBuild() returns (s: State)
    ensures Reaches(BOOT, s) && s.thread.Building? && s.main == Listening(2) && s.queue == []
  {
    var w := FirstCycle();
    var late := LinesArrive(BOOT, w);
    ReachesNext(BOOT, late, Thread);
    ReachesNext(BOOT, OnThread(late), Thread);
    s := OnThread(OnThread(late));
  }

  /** A report can carry index 0, which is no meter's. */
  lemma IndexZeroHappens()
    ensures exists es :: Run(es).log.made != [] && Run(es).log.made[|Run(es).log.made| - 1].index == 0
  {
    var s := AboutToBuild();
    ReachesNext(BOOT, s, Main);
    ReachesNext(BOOT, OnMain(s), Thread);
    IndexRace(s);
    var es :| Continue(BOOT, es) == OnThread(OnMain(s));
    RunIsContinue(es);
  }

  /** A report whose last reading was taken from meter 2 can carry the index of meter 1. */
  lemma NextIndexHappens()
    ensures exists es, fs :: var s := Run(es);
              && s.thread.Building? && s.main == Listening(2)
              && Run(es + fs).log.made
                 == s.log.made + [Made(1, Report(s.results.papp, s.results.base, s.results.iinst))]
  {
    var s := AboutToBuild();
    var es :| Continue(BOOT, es) == s;
    var fs := [Main] + [Main] + [Main] + [Thread];
    RunIsContinue(es);
    RunSnoc(es, Main);
    RunSnoc(es + [Main], Main);
    RunSnoc(es + [Main] + [Main], Main);
    RunSnoc(es + [Main] + [Main] + [Main], Thread);
    assert es + fs == es + [Main] + [Main] + [Main] + [Thread];
    assert Run(es).thread.Building? && Run(es).main == Listening(2);
  }

  /** The three reads of the index for one report can give 2, 0 and 1. */
  lemma IndexesDiffer()
    ensures exists es, gs, hs :: Run(es).thread.Building? && NoThread(gs) && NoThread(hs)
                                 && Run(es).rx == 2 && Run(es + gs).rx == 0 && Run(es + gs + hs).rx == 1
  {
    var s := AboutToBuild();
    var es :| Continue(BOOT, es) == s;
    RunIsContinue(es);
    IndexWhileBuilding(es);
    var gs, hs := [Main], [Main] + [Main];
    RunSnoc(es, Main);
    RunSnoc(es + gs, Main);
    RunSnoc(es + gs + [Main], Main);
    assert es + gs + hs == es + gs + [Main] + [Main];
    assert NoThread(gs) && NoThread(hs);
  }

  lemma FourMain(origin: State, s: State)
    requires Reaches(origin, s)
    ensures Reaches(origin, OnMain(OnMain(OnMain(OnMain(s)))))
  {
    ReachesNext(origin, s, Main);
    ReachesNext(origin, OnMain(s), Main);
    ReachesNext(origin, OnMain(OnMain(s)), Main);
    ReachesNext(origin, OnMain(OnMain(OnMain(s))), Main);
  }

  /** Main sends and frees the report and opens the next session, and the thread does nothing. */
  lemma SlowThread(s: State) returns (t: State)
    requires Reaches(BOOT, s) && s.thread.Parking? && s.main == Listening(2) && |s.queue| == 1
    ensures Reaches(BOOT, t) && t.thread.Parking? && t.main == Listening(1) && t.log.reported == t.log.earlier
  {
    var freed := OnMain(OnMain(OnMain(OnMain(s))));
    FourMain(BOOT, s);
    assert freed.main == Draining && freed.queue == [] && freed.thread == s.thread;
    ReachesNext(BOOT, freed, Main);
    ReachesNext(BOOT, OnMain(freed), Main);
    ReachesNext(BOOT, OnMain(OnMain(freed)), Main);
    t := OnMain(OnMain(OnMain(freed)));
  }

  lemma SentAndParking(s: State)
    requires Reaches(BOOT, s) && s.thread.Building? && s.main == Listening(2) && s.queue == []
    ensures var t := OnThread(OnThread(OnThread(s)));
            Reaches(BOOT, t) && t.thread.Parking? && t.main == Listening(2) && |t.queue| == 1
  {
    ReachesNext(BOOT, s, Thread);
    ReachesNext(BOOT, OnThread(s), Thread);
    ReachesNext(BOOT, OnThread(OnThread(s)), Thread);
  }

  /** A wake-up can be lost: main opens a session while the thread is still on its way to sleep, and
      the thread then sleeps through the session without a report. */
  lemma WakeupLost()
    ensures exists es :: var s := Run(es);
      s.main.Listening? && s.thread.Asleep? && s.log.reported == s.log.earlier
  {
    var s := AboutToBuild();
    SentAndParking(s);
    var open := SlowThread(OnThread(OnThread(OnThread(s))));
    ReachesNext(BOOT, open, Thread);
    var es :| Continue(BOOT, es) == OnThread(open);
    RunIsContinue(es);
  }

  ghost predicate NoMain(es: seq<Event>) {
    forall i | 0 <= i < |es| :: !es[i].Main?
  }

  /** While main does nothing, the thread can only come to rest by sending a report, unless it was on
      its way to rest already. */
  lemma {:induction false} RestNeedsReport(t: State, fs: seq<Event>)
    requires NoMain(fs)
    ensures var u := Continue(t, fs);
            && u.log.earlier == t.log.earlier && u.log.reported >= t.log.reported
            && (Able(t.thread) == 0 ==> Able(u.thread) == 0 && u.log.reported == t.log.reported)
            && (Able(t.thread) == 1 && Able(u.thread) == 0 ==> u.log.reported > t.log.reported)
  {
    if fs != [] {
      assert NoMain(fs[..|fs| - 1]) && !fs[|fs| - 1].Main?;
      RestNeedsReport(t, fs[..|fs| - 1]);
    }
  }

  lemma RestReached(t: State)
    requires t.thread.Clearing? || t.thread.Parking?
    ensures exists fs :: NoMain(fs) && Continue(t, fs).thread.Asleep? && Continue(t, fs).log.reported == t.log.reported
  {
    var two := [Thread, Thread];
    assert two[..1] == [Thread] && [Thread][..0] == [];
    assert NoMain([Thread]) && NoMain(two);
    if t.thread.Parking? {
      OneStep(t, Thread);
    } else {
      OneStep(t, Thread);
      assert Continue(t, two) == OnThread(OnThread(t));
    }
  }

  /** Exactly when a wake-up is lost: after it, the thread can come to sleep through the session
      without a report if and only if it was between sending and sleeping when main called, and
      had sent before the session was opened. */
  lemma WakeupLostExactly(es: seq<Event>)
    requires Run(es).main.Waking?
    ensures var s := Run(es);
            ((exists fs :: NoMain(fs) && Continue(OnMain(s), fs).thread.Asleep?
                           && Continue(OnMain(s), fs).log.reported == s.log.earlier)
             <==> (s.thread.Clearing? || s.thread.Parking?) && s.log.reported == s.log.earlier)
  {
    var s := Run(es);
    var t := OnMain(s);
    EveryRun(es);
    if fs :| NoMain(fs) && Continue(t, fs).thread.Asleep? && Continue(t, fs).log.reported == s.log.earlier {
      RestNeedsReport(t, fs);
    }
    if s.thread.Clearing? || s.thread.Parking? {
      RestReached(t);
    }
  }
}
