/** What the reports of a run say: the lines that the teleinfo thread took from the ring determine
    every report that it built, whoever ran when. */
module Reports {
  import opened Text
  import opened MeterReport
  import opened Uart
  import opened Mote

  /** The places of the thread in which it has a line in its hands. */
  predicate HoldsLine(thread: ThreadPc) { thread.Parsing? || thread.Building? }

  /** The lines that the thread is done with: all that it took, save the one in its hands. */
  function Handled(s: State): seq<string> {
    var lines := s.log.drained;
    if HoldsLine(s.thread) && lines != [] then lines[..|lines| - 1] else lines
  }

  /** The values in the reports built. */
  function Values(made: seq<Made>): (rs: seq<Report>)
    ensures |rs| == |made|
    ensures forall i | 0 <= i < |made| :: rs[i] == made[i].report
  {
    seq(|made|, i requires 0 <= i < |made| => made[i].report)
  }

  /** The results, and the reports so far, are those of the line machine on the lines handled. */
  ghost predicate Follows(s: State) {
    var done := Handled(s);
    && (s.thread.Parsing? ==> s.log.drained == done + [s.thread.line])
    && (s.thread.Building? ==> exists line :: s.log.drained == done + [line]
                                              && s.results == Accept(After(CLEARED, done), line))
    && (!s.thread.Building? ==> s.results == After(CLEARED, done))
    && Values(s.log.made) == Completed(CLEARED, done)
  }

  lemma FollowsParsing(s: State)
    requires Follows(s) && s.thread.Parsing?
    ensures Follows(OnThread(s))
  {
    var t, done := OnThread(s), Handled(s);
    LineAdded(CLEARED, done, s.thread.line);
    assert (done + [s.thread.line])[..|done|] == done;
    assert Completed(CLEARED, done) + [] == Completed(CLEARED, done);
  }

  lemma FollowsBuilding(s: State)
    requires Follows(s) && s.thread.Building? && Full(s.results)
    ensures Follows(OnThread(s))
  {
    var t, done := OnThread(s), Handled(s);
    var line :| s.log.drained == done + [line] && s.results == Accept(After(CLEARED, done), line);
    LineAdded(CLEARED, done, line);
    assert Handled(t) == done + [line];
    assert Values(t.log.made) == Values(s.log.made) + [t.log.made[|s.log.made|].report];
  }

  lemma FollowsFetching(s: State)
    requires Follows(s) && s.thread.Fetching?
    ensures Follows(OnThread(s))
  {
    assert (s.log.drained + [s.ring])[..|s.log.drained|] == s.log.drained;
  }

  lemma FollowsOther(s: State, t: State)
    requires Follows(s) && t.results == s.results
    requires t.log.drained == s.log.drained && t.log.made == s.log.made
    requires t.thread == s.thread || !(HoldsLine(s.thread) || HoldsLine(t.thread))
    ensures Follows(t)
  {
  }

  /** Every other step leaves results and reports as they are. */
  lemma OtherSteps(s: State, e: Event)
    requires !(e.Thread? && (HoldsLine(s.thread) || s.thread.Fetching?))
    ensures var t := Next(s, e);
            && t.results == s.results && t.log.drained == s.log.drained && t.log.made == s.log.made
            && (t.thread == s.thread || !(HoldsLine(s.thread) || HoldsLine(t.thread)))
  {
  }

  lemma FollowsKept(s: State, e: Event)
    requires Follows(s) && InRange(s)
    ensures Follows(Next(s, e))
  {
    if e.Thread? && s.thread.Parsing? {
      FollowsParsing(s);
    } else if e.Thread? && s.thread.Building? {
      FollowsBuilding(s);
    } else if e.Thread? && s.thread.Fetching? {
      FollowsFetching(s);
    } else {
      OtherSteps(s, e);
      FollowsOther(s, Next(s, e));
    }
  }

  lemma {:induction false} RunFollows(es: seq<Event>)
    ensures Follows(Run(es))
  {
    if es != [] {
      RunFollows(es[..|es| - 1]);
      EveryRun(es[..|es| - 1]);
      FollowsKept(Run(es[..|es| - 1]), es[|es| - 1]);
    }
  }

  /** After every interleaving: the reports built so far are, in order and in number, those that the
      readings in the lines handled call for. */
  lemma {:induction false} ReportsOfRun(es: seq<Event>)
    ensures Values(Run(es).log.made) == Demanded([], Handled(Run(es)))
  {
    RunFollows(es);
    ClearedAbstractsNothing(CLEARED);
    CompletedIsDemanded(CLEARED, [], Handled(Run(es)));
  }
}
