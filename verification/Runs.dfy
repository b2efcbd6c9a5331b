/** Runs built step by step: longer and longer event sequences that go on from a given one, and
    respect the priority of the thread if that one does. */
module Runs {
  import opened MeterReport
  import opened Uart
  import opened MeterText
  import opened Mote
  import opened Priority

  /** The run goes on from es and leads to this state. */
  ghost predicate Leads(es: seq<Event>, all: seq<Event>, s: State) {
    es <= all && Run(all) == s && (Scheduled(es) ==> Scheduled(all))
  }

  lemma LeadsNext(es: seq<Event>, all: seq<Event>, s: State, e: Event)
    requires Leads(es, all, s) && (Scheduled(es) && e.Main? ==> Blocked(s))
    ensures Leads(es, all + [e], Next(s, e))
  {
    var more := all + [e];
    RunSnoc(all, e);
    if Scheduled(es) {
      forall k | 0 <= k < |more| && more[k].Main? ensures Blocked(Run(more[..k])) {
        if k < |all| {
          assert more[..k] == all[..k] && more[k] == all[k];
        } else {
          assert more[..k] == all;
        }
      }
    }
  }

  /** A line is received while the ring is empty. */
  lemma {:induction false} LeadsFilled(es: seq<Event>, all: seq<Event>, s: State, line: string) returns (more: seq<Event>)
    requires Leads(es, all, s) && s.rx != 0 && s.ring == "" && MeterLine(line)
    ensures all <= more && Leads(es, more, s.(ring := line, log := s.log.(accepted := s.log.accepted + line)))
  {
    if line == "" {
      more := all;
      assert s.log.accepted + "" == s.log.accepted;
    } else {
      var init, c := line[..|line| - 1], line[|line| - 1];
      var most := LeadsFilled(es, all, s, init);
      CodeKept(c);
      LeadsNext(es, most, s.(ring := init, log := s.log.(accepted := s.log.accepted + init)), Byte(c as int));
      more := most + [Byte(c as int)];
      assert init + [c] == line && s.log.accepted + init + [c] == s.log.accepted + line;
    }
  }

  /** The thread waits, and a whole line comes. */
  lemma LeadsLine(es: seq<Event>, all: seq<Event>, s: State, line: string) returns (more: seq<Event>)
    requires Leads(es, all, s) && Waiting(s) && s.ring == "" && MeterLine(line)
    ensures var r := Accept(s.results, line);
            var log := s.log.(accepted := s.log.accepted + line, drained := s.log.drained + [line]);
            all <= more && Leads(es, more, s.(results := r, thread := if Full(r) then Building else Receiving, log := log))
  {
    var filled := s.(ring := line, log := s.log.(accepted := s.log.accepted + line));
    var most := LeadsFilled(es, all, s, line);
    LeadsNext(es, most, filled, Byte(10));
    LeadsNext(es, most + [Byte(10)], OnByte(filled, 10), Thread);
    LeadsNext(es, most + [Byte(10)] + [Thread], OnThread(OnByte(filled, 10)), Thread);
    more := most + [Byte(10)] + [Thread] + [Thread];
  }
}
