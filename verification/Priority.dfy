/** The same node when the teleinfo thread has priority over main, as its configuration says
    (TELEINFO_PRIO in teleinfo.h): main takes a step only while the thread is blocked. Interrupts
    still come at any time. */
module Priority {
  import opened Text
  import opened MeterReport
  import opened Uart
  import opened Mote

  /** The thread has nothing to do. */
  predicate Blocked(s: State) {
    || s.thread.Asleep?
    || (s.thread.Receiving? && s.inbox == 0)
    || (s.thread.Sending? && |s.queue| >= QUEUE_SIZE)
  }

  lemma BlockedMeansStuck(s: State)
    ensures Blocked(s) <==> OnThread(s) == s
  {
  }

  ghost predicate Scheduled(es: seq<Event>) {
    forall k | 0 <= k < |es| :: es[k].Main? ==> Blocked(Run(es[..k]))
  }

  /** Between sessions reception is off and the thread is blocked. */
  ghost predicate Quiet(s: State) {
    !InSession(s) ==> s.rx == 0 && (s.thread.Asleep? || (s.thread.Receiving? && s.inbox == 0))
  }

  /** In a session: reception is on until the session's one report is sent; after that the thread
      cannot build another. A thread asleep while main listens has sent its report. */
  ghost predicate OneReport(s: State) {
    InSession(s) ==>
      && s.log.reported == s.log.earlier + (if s.rx == 0 || s.thread.Clearing? then 1 else 0)
      && (s.thread.Clearing? ==> s.rx != 0)
      && (s.thread.Parking? ==> s.rx == 0)
      && (s.main.Listening? && s.thread.Asleep? ==> s.rx == 0)
  }

  /** The queue holds no more than one report per session of the cycle. */
  ghost predicate FewQueued(s: State) {
    match s.main
    case Enabling(c) => |s.queue| <= c - 1
    case Waking(c) => |s.queue| <= c - 1 + s.log.reported - s.log.earlier
    case Listening(c) => |s.queue| <= c - 1 + s.log.reported - s.log.earlier
    case _ => |Held(s.main)| + |s.queue| <= 2
  }

  /** Every report carries the index of a meter. */
  ghost predicate Indexed(s: State) {
    forall i | 0 <= i < |s.log.made| :: 1 <= s.log.made[i].index <= 2
  }

  ghost predicate PriorityInv(s: State) {
    Inv(s) && Quiet(s) && OneReport(s) && FewQueued(s) && Indexed(s)
  }

  lemma QuietKept(s: State, e: Event)
    requires PriorityInv(s) && (e.Main? ==> Blocked(s))
    ensures Quiet(Next(s, e))
  {
  }

  lemma OneReportKept(s: State, e: Event)
    requires PriorityInv(s) && (e.Main? ==> Blocked(s))
    ensures OneReport(Next(s, e))
  {
  }

  lemma FewQueuedKept(s: State, e: Event)
    requires PriorityInv(s) && (e.Main? ==> Blocked(s))
    ensures FewQueued(Next(s, e))
  {
  }

  lemma IndexedKept(s: State, e: Event)
    requires PriorityInv(s)
    ensures Indexed(Next(s, e))
  {
  }

  lemma {:induction false} EveryScheduledRun(es: seq<Event>)
    requires Scheduled(es)
    ensures PriorityInv(Run(es))
  {
    EveryRun(es);
    if es != [] {
      var init, e := es[..|es| - 1], es[|es| - 1];
      forall k | 0 <= k < |init| && init[k].Main? ensures Blocked(Run(init[..k])) {
        assert init[..k] == es[..k] && init[k] == es[k];
      }
      EveryScheduledRun(init);
      assert e.Main? ==> Blocked(Run(init));
      QuietKept(Run(init), e);
      OneReportKept(Run(init), e);
      FewQueuedKept(Run(init), e);
      IndexedKept(Run(init), e);
    }
  }

  /** Each session sends at most one report; a session that main finds the thread asleep in has sent
      exactly one, so no wake-up is lost; and at most two report buffers exist at once. */
  lemma {:induction false} OnePerSession(es: seq<Event>)
    requires Scheduled(es)
    ensures var s := Run(es);
            && (InSession(s) ==> s.log.earlier <= s.log.reported <= s.log.earlier + 1)
            && (s.main.Listening? && s.thread.Asleep? ==> s.log.reported == s.log.earlier + 1)
            && |Live(s)| <= 2
  {
    EveryScheduledRun(es);
  }

  /** A report is built only while the session of some meter is open, and carries that meter's index. */
  lemma {:induction false} IndexOfOpenMeter(es: seq<Event>, e: Event)
    requires Scheduled(es)
    requires |Next(Run(es), e).log.made| > |Run(es).log.made|
    ensures var s := Run(es);
            var made := Next(s, e).log.made;
            InSession(s) && made[|made| - 1].index == s.main.meter
  {
    EveryScheduledRun(es);
  }

  /** Main does nothing while the thread prints a report, so the three reads of the index agree. */
  lemma {:induction false} IndexesAgree(es: seq<Event>, gs: seq<Event>)
    requires Scheduled(es + gs) && Run(es).thread.Building? && NoThread(gs)
    ensures Run(es + gs).rx == Run(es).rx
  {
    if gs == [] {
      assert es + gs == es;
    } else {
      var init, e := gs[..|gs| - 1], gs[|gs| - 1];
      var before := es + init;
      assert es + gs == before + [e];
      RunSnoc(before, e);
      assert (es + gs)[..|before|] == before && (es + gs)[|before|] == e;
      assert Scheduled(before) by {
        forall k | 0 <= k < |before| && before[k].Main? ensures Blocked(Run(before[..k])) {
          assert before[..k] == (es + gs)[..k] && before[k] == (es + gs)[k];
        }
      }
      StaysBuilding(es, init);
      IndexesAgree(es, init);
    }
  }
}
