/** The store-and-forward queue of the gateway (mote-gateway/soft/mote-gateway.go, push_influx and
    the receive loop of main): packets wait in a list, the oldest is written to the server, and it
    is removed only when the write is confirmed. */
module StoreForward {
  import opened Decoder

  /** What becomes of one attempt to write the oldest packet. */
  datatype Outcome =
    | Confirmed   // stored, and the client learns of it
    | Unknown     // stored, but the client sees an error
    | Failed      // not stored: the point or the write failed
    | NoBatch     // not tried: the batch could not be created

  /** The fields of a packet that the server gets to see. */
  datatype View = View(smac: string, lqi: int, rssi: int, datamap: DataMap, timestamp: int)

  /** A point as the client builds it. */
  datatype Point = Point(id: string, fields: DataMap, timestamp: int)

  /** Every attempt with a batch first stores the RSSI and the LQI among the metrics. */
  function Tagged(v: View): View {
    v.(datamap := v.datamap["RSSI" := Int(v.rssi)]["LQI" := Int(v.lqi)])
  }

  function PointOf(v: View): Point {
    var t := Tagged(v);
    Point(t.smac, t.datamap, t.timestamp)
  }

  /** A retry writes the same point. */
  lemma RetryWritesSamePoint(v: View)
    ensures Tagged(Tagged(v)) == Tagged(v)
    ensures PointOf(Tagged(v)) == PointOf(v)
  {
  }

  /** The fields of a point: those of the packet's metrics, with the RSSI and the LQI put in or in
      place of what the payload said of them, even when there are no metrics. */
  ghost predicate ShowsView(point: Point, v: View) {
    && point.id == v.smac && point.timestamp == v.timestamp
    && point.fields.Keys == v.datamap.Keys + {"RSSI", "LQI"}
    && point.fields["RSSI"] == Int(v.rssi) && point.fields["LQI"] == Int(v.lqi)
    && forall key | key in v.datamap && key != "RSSI" && key != "LQI" :: point.fields[key] == v.datamap[key]
  }

  lemma PointFields(v: View)
    ensures ShowsView(PointOf(v), v)
  {
    assert "RSSI" != "LQI";
  }

  /** A point that reached the server, with the number of the packet it was made from. */
  datatype Entry = Entry(packet: nat, point: Point)

  /** The queue, how many packets were confirmed, and what the server has stored, in order. */
  datatype Store = Store(queue: seq<View>, confirmed: nat, log: seq<Entry>)

  const EMPTY := Store([], 0, [])

  function HeadEntry(s: Store): Entry
    requires s.queue != []
  {
    Entry(s.confirmed, PointOf(s.queue[0]))
  }

  /** One attempt to write the oldest packet. */
  function Attempt(s: Store, outcome: Outcome): Store
    requires s.queue != []
  {
    match outcome
    case Confirmed => Store(s.queue[1..], s.confirmed + 1, s.log + [HeadEntry(s)])
    case Unknown => s.(queue := s.queue[0 := Tagged(s.queue[0])], log := s.log + [HeadEntry(s)])
    case Failed => s.(queue := s.queue[0 := Tagged(s.queue[0])])
    case NoBatch => s
  }

  /** push_influx: it stops at the first attempt that is not confirmed. The k-th attempt of the call
      has outcome writes(k). */
  function Push(s: Store, writes: nat -> Outcome, k: nat): Store
    decreases |s.queue|
  {
    if s.queue == [] then s
    else if writes(k) == Confirmed then Push(Attempt(s, Confirmed), writes, k + 1)
    else Attempt(s, writes(k))
  }

  datatype Arrival = Arrival(packet: View, writes: nat -> Outcome)

  /** One turn of the receive loop. */
  function Receive(s: Store, a: Arrival): Store {
    Push(s.(queue := s.queue + [a.packet]), a.writes, 0)
  }

  function Run(arrivals: seq<Arrival>): Store {
    if arrivals == [] then EMPTY else Receive(Run(arrivals[..|arrivals| - 1]), arrivals[|arrivals| - 1])
  }

  // ---------------------------------------------------------------- at least once, in order

  /** 0, 1, ..., n - 1 */
  function Iota(n: nat): (r: seq<nat>)
    ensures |r| == n && forall i | 0 <= i < n :: r[i] == i
  {
    seq(n, i requires 0 <= i < n => i)
  }

  /** The packets in the log, adjacent repeats written once. */
  function Collapse(log: seq<Entry>): seq<nat> {
    if log == [] then []
    else
      var init, last := log[..|log| - 1], log[|log| - 1].packet;
      if init != [] && init[|init| - 1].packet == last then Collapse(init) else Collapse(init) + [last]
  }

  /** How many different packets the server has seen of a log that respects the queue. */
  ghost predicate Seen(log: seq<Entry>, m: nat) {
    && Collapse(log) == Iota(m)
    && (m > 0 ==> log != [] && log[|log| - 1].packet == m - 1)
    && (m == 0 ==> log == [])
  }

  /** The packets queued are the last ones that arrived. */
  ghost predicate Queued(s: Store, arrived: seq<View>) {
    && s.confirmed + |s.queue| == |arrived|
    && forall i | 0 <= i < |s.queue| :: PointOf(s.queue[i]) == PointOf(arrived[s.confirmed + i])
  }

  /** Every point in the server's log is the one of its packet. */
  ghost predicate Logged(log: seq<Entry>, arrived: seq<View>) {
    forall i | 0 <= i < |log| :: log[i].packet < |arrived| && log[i].point == PointOf(arrived[log[i].packet])
  }

  /** The server has seen the confirmed packets, in order, and possibly the head of the queue. */
  ghost predicate InOrder(s: Store) {
    Seen(s.log, s.confirmed) || (s.queue != [] && Seen(s.log, s.confirmed + 1))
  }

  /** The account of a run. */
  ghost predicate Account(s: Store, arrived: seq<View>) {
    Queued(s, arrived) && Logged(s.log, arrived) && InOrder(s)
  }

  lemma IotaSnoc(n: nat)
    ensures Iota(n) + [n] == Iota(n + 1)
  {
  }

  /** Storing the head: the server has now seen it, whether or not it had before. */
  lemma StoreHead(log: seq<Entry>, e: Entry)
    requires Seen(log, e.packet) || Seen(log, e.packet + 1)
    ensures Seen(log + [e], e.packet + 1)
  {
    assert (log + [e])[..|log|] == log;
    IotaSnoc(e.packet);
  }

  lemma AttemptKeepsQueued(s: Store, outcome: Outcome, arrived: seq<View>)
    requires Queued(s, arrived) && s.queue != []
    ensures Queued(Attempt(s, outcome), arrived)
  {
    var t := Attempt(s, outcome);
    RetryWritesSamePoint(s.queue[0]);
    if outcome == Confirmed {
      forall i | 0 <= i < |t.queue| ensures PointOf(t.queue[i]) == PointOf(arrived[t.confirmed + i]) {
        assert t.queue[i] == s.queue[i + 1];
      }
    }
  }

  lemma AttemptKeepsLogged(s: Store, outcome: Outcome, arrived: seq<View>)
    requires Queued(s, arrived) && Logged(s.log, arrived) && s.queue != []
    ensures Logged(Attempt(s, outcome).log, arrived)
  {
    assert HeadEntry(s).point == PointOf(arrived[s.confirmed + 0]);
  }

  lemma AttemptKeepsAccount(s: Store, outcome: Outcome, arrived: seq<View>)
    requires Account(s, arrived) && s.queue != []
    ensures Account(Attempt(s, outcome), arrived)
  {
    AttemptKeepsQueued(s, outcome, arrived);
    AttemptKeepsLogged(s, outcome, arrived);
    StoreHead(s.log, HeadEntry(s));
  }

  lemma {:induction false} PushKeepsAccount(s: Store, writes: nat -> Outcome, k: nat, arrived: seq<View>)
    requires Account(s, arrived)
    ensures Account(Push(s, writes, k), arrived)
    decreases |s.queue|
  {
    if s.queue != [] {
      AttemptKeepsAccount(s, writes(k), arrived);
      if writes(k) == Confirmed { PushKeepsAccount(Attempt(s, Confirmed), writes, k + 1, arrived); }
    }
  }

  lemma ArrivalKeepsAccount(s: Store, arrived: seq<View>, v: View)
    requires Account(s, arrived)
    ensures Account(s.(queue := s.queue + [v]), arrived + [v])
  {
  }

  function Packets(arrivals: seq<Arrival>): (vs: seq<View>)
    ensures |vs| == |arrivals|
    ensures forall i | 0 <= i < |arrivals| :: vs[i] == arrivals[i].packet
  {
    seq(|arrivals|, i requires 0 <= i < |arrivals| => arrivals[i].packet)
  }

  /** At least once, in order: for any arrivals and any outcomes of the writes, the account holds. */
  lemma {:induction false} AtLeastOnceInOrder(arrivals: seq<Arrival>)
    ensures Account(Run(arrivals), Packets(arrivals))
  {
    if arrivals != [] {
      var init, a := arrivals[..|arrivals| - 1], arrivals[|arrivals| - 1];
      AtLeastOnceInOrder(init);
      ArrivalKeepsAccount(Run(init), Packets(init), a.packet);
      assert Packets(arrivals) == Packets(init) + [a.packet];
      PushKeepsAccount(Run(init).(queue := Run(init).queue + [a.packet]), a.writes, 0, Packets(arrivals));
    } else {
      assert Collapse([]) == Iota(0);
    }
  }

  /** Read off the account: the log without adjacent repeats is a prefix of the arrivals that holds
      at least every confirmed packet; whatever was confirmed was stored; a packet is repeated only
      while it is the oldest one not confirmed. */
  lemma {:induction false} ServerSeesPrefix(arrivals: seq<Arrival>)
    ensures var s := Run(arrivals);
            && Collapse(s.log) <= Iota(|arrivals|)
            && s.confirmed <= |Collapse(s.log)| <= s.confirmed + 1
            && s.confirmed + |s.queue| == |arrivals|
  {
    AtLeastOnceInOrder(arrivals);
  }

  /** How many of the next writes are confirmed before the first that is not. */
  function Confirmations(writes: nat -> Outcome, k: nat, limit: nat): (n: nat)
    ensures n <= limit
    decreases limit
  {
    if limit > 0 && writes(k) == Confirmed then 1 + Confirmations(writes, k + 1, limit - 1) else 0
  }

  /** The entries of the first n packets of a queue. */
  function FirstEntries(s: Store, n: nat): (es: seq<Entry>)
    requires n <= |s.queue|
    ensures |es| == n && forall i | 0 <= i < n :: es[i] == Entry(s.confirmed + i, PointOf(s.queue[i]))
  {
    seq(n, i requires 0 <= i < n => Entry(s.confirmed + i, PointOf(s.queue[i])))
  }

  /** What the first write that is not confirmed leaves of the queue. */
  function Stopped(rest: seq<View>, outcome: Outcome): seq<View>
    requires rest != []
  {
    if outcome == NoBatch then rest else [Tagged(rest[0])] + rest[1..]
  }

  /** What was stored last without the client's learning of it. */
  function Unconfirmed(s: Store, n: nat, outcome: Outcome): seq<Entry>
    requires n <= |s.queue|
  {
    if n < |s.queue| && outcome == Unknown then [Entry(s.confirmed + n, PointOf(s.queue[n]))] else []
  }

  lemma FirstConfirmed(s: Store, m: nat)
    requires m < |s.queue|
    ensures FirstEntries(s, m + 1) == [HeadEntry(s)] + FirstEntries(Attempt(s, Confirmed), m)
  {
  }

  lemma LogRegroups(log: seq<Entry>, head: Entry, later: seq<Entry>, last: seq<Entry>)
    ensures (log + [head]) + later + last == log + ([head] + later) + last
  {
  }

  /** The call stops at once. */
  lemma PushStops(s: Store, writes: nat -> Outcome, k: nat)
    requires s.queue == [] || writes(k) != Confirmed
    ensures Confirmations(writes, k, |s.queue|) == 0
    ensures Push(s, writes, k).confirmed == s.confirmed
    ensures Push(s, writes, k).queue == if s.queue == [] then [] else Stopped(s.queue[0..], writes(k))
    ensures Push(s, writes, k).log == s.log + FirstEntries(s, 0) + Unconfirmed(s, 0, writes(k))
  {
    assert s.queue[0..] == s.queue;
    assert s.log + FirstEntries(s, 0) == s.log;
    assert s.log + [] == s.log;
  }

  /** The call goes on after a confirmed write. */
  lemma PushGoesOn(s: Store, writes: nat -> Outcome, k: nat)
    requires s.queue != [] && writes(k) == Confirmed
    ensures Push(s, writes, k) == Push(Attempt(s, Confirmed), writes, k + 1)
    ensures Confirmations(writes, k, |s.queue|) == 1 + Confirmations(writes, k + 1, |s.queue| - 1)
  {
  }

  lemma UnconfirmedMoves(s: Store, m: nat, outcome: Outcome)
    requires m < |s.queue|
    ensures Unconfirmed(Attempt(s, Confirmed), m, outcome) == Unconfirmed(s, m + 1, outcome)
  {
  }

  /** The log when n packets are confirmed and then a write has this outcome. */
  function LogAfter(s: Store, n: nat, outcome: Outcome): seq<Entry>
    requires n <= |s.queue|
  {
    s.log + FirstEntries(s, n) + Unconfirmed(s, n, outcome)
  }

  lemma LogStep(s: Store, m: nat, outcome: Outcome)
    requires m < |s.queue|
    ensures LogAfter(Attempt(s, Confirmed), m, outcome) == LogAfter(s, m + 1, outcome)
  {
    var u := Attempt(s, Confirmed);
    FirstConfirmed(s, m);
    UnconfirmedMoves(s, m, outcome);
    LogRegroups(s.log, HeadEntry(s), FirstEntries(u, m), Unconfirmed(u, m, outcome));
  }

  lemma {:induction false} PushLogs(s: Store, writes: nat -> Outcome, k: nat)
    ensures var n := Confirmations(writes, k, |s.queue|);
            Push(s, writes, k).log == LogAfter(s, n, writes(k + n))
    decreases |s.queue|
  {
    if s.queue != [] && writes(k) == Confirmed {
      var u := Attempt(s, Confirmed);
      var m := Confirmations(writes, k + 1, |u.queue|);
      PushGoesOn(s, writes, k);
      PushLogs(u, writes, k + 1);
      LogStep(s, m, writes(k + 1 + m));
    } else {
      PushStops(s, writes, k);
    }
  }

  function QueueAfter(s: Store, n: nat, outcome: Outcome): seq<View>
    requires n <= |s.queue|
  {
    if n == |s.queue| then [] else Stopped(s.queue[n..], outcome)
  }

  lemma RestMoves(s: Store, m: nat)
    requires m < |s.queue|
    ensures forall outcome :: QueueAfter(Attempt(s, Confirmed), m, outcome) == QueueAfter(s, m + 1, outcome)
  {
    assert s.queue[m + 1..] == s.queue[1..][m..];
  }

  lemma {:induction false} PushQueues(s: Store, writes: nat -> Outcome, k: nat)
    ensures var n := Confirmations(writes, k, |s.queue|);
            var t := Push(s, writes, k);
            t.confirmed == s.confirmed + n && t.queue == QueueAfter(s, n, writes(k + n))
    decreases |s.queue|
  {
    if s.queue != [] && writes(k) == Confirmed {
      var u := Attempt(s, Confirmed);
      var m := Confirmations(writes, k + 1, |u.queue|);
      PushGoesOn(s, writes, k);
      PushQueues(u, writes, k + 1);
      RestMoves(s, m);
    } else {
      PushStops(s, writes, k);
    }
  }

  /** Exactly what a call does: the packets confirmed before the first write that is not are stored once
      each and removed; the one it stops at is stored too when the client only did not learn of it, and
      stays first in the queue. */
  lemma PushExact(s: Store, writes: nat -> Outcome, k: nat)
    ensures var n := Confirmations(writes, k, |s.queue|);
            var t := Push(s, writes, k);
            && t.confirmed == s.confirmed + n
            && t.queue == (if n == |s.queue| then [] else Stopped(s.queue[n..], writes(k + n)))
            && t.log == s.log + FirstEntries(s, n) + Unconfirmed(s, n, writes(k + n))
  {
    PushQueues(s, writes, k);
    PushLogs(s, writes, k);
  }

  /** Without failures every call empties the queue and stores each packet once. */
  lemma {:induction false} PushDrains(s: Store, writes: nat -> Outcome, k: nat)
    requires forall i: nat | k <= i < k + |s.queue| :: writes(i) == Confirmed
    ensures Push(s, writes, k).queue == []
    ensures Push(s, writes, k).confirmed == s.confirmed + |s.queue|
    ensures |Push(s, writes, k).log| == |s.log| + |s.queue|
    decreases |s.queue|
  {
    if s.queue != [] {
      assert writes(k) == Confirmed;
      PushDrains(Attempt(s, Confirmed), writes, k + 1);
    }
  }

  // ---------------------------------------------------------------- the list of packets

  function DecodedView(d: Decoded, timestamp: int): View {
    View(d.header.smac, d.header.lqi, d.header.rssi, d.datamap, timestamp)
  }

  function ViewOf(p: Packet): View
    reads p
  {
    View(p.smac, p.lqi, p.rssi, p.datamap, p.timestamp)
  }

  function Views(ps: seq<Packet>): (vs: seq<View>)
    reads ps
    ensures |vs| == |ps|
    ensures forall i | 0 <= i < |ps| :: vs[i] == ViewOf(ps[i])
  {
    seq(|ps|, i requires 0 <= i < |ps| reads ps => ViewOf(ps[i]))
  }

  class Forwarder {
    var ps: seq<Packet>
    ghost var confirmed: nat
    ghost var log: seq<Entry>

    /** The list holds each packet once. */
    ghost predicate Valid()
      reads this
    {
      forall i, j | 0 <= i < j < |ps| :: ps[i] != ps[j]
    }

    ghost function State(): Store
      reads this, ps
    {
      Store(Views(ps), confirmed, log)
    }

    constructor ()
      ensures Valid() && State() == EMPTY && ps == []
    {
      ps, confirmed, log := [], 0, [];
    }

    /** The metrics of the oldest packet, with RSSI and LQI added. */
    method TagHead()
      requires Valid() && ps != []
      modifies ps[0]
      ensures Views(ps) == old(Views(ps))[0 := Tagged(old(Views(ps))[0])]
    {
      var p := ps[0];
      p.datamap := p.datamap["RSSI" := Int(p.rssi)];
      p.datamap := p.datamap["LQI" := Int(p.lqi)];
    }

    method WriteHead(outcome: Outcome)
      requires Valid() && ps != []
      modifies this, ps[0]
      ensures Valid() && State() == Attempt(old(State()), outcome)
      ensures ps == if outcome == Confirmed then old(ps)[1..] else old(ps)
    {
      if outcome == NoBatch { return; }
      ghost var entry := HeadEntry(State());
      TagHead();
      match outcome {
        case Failed =>
        case Unknown =>
          log := log + [entry];
        case Confirmed =>
          log := log + [entry];
          confirmed := confirmed + 1;
          ps := ps[1..];
      }
    }

    /** push_influx */
    method PushInflux(writes: nat -> Outcome)
      requires Valid()
      modifies this, ps
      ensures Valid() && State() == Push(old(State()), writes, 0)
      ensures exists n :: 0 <= n <= |old(ps)| && ps == old(ps)[n..]
    {
      var k := 0;
      while |ps| > 0
        invariant Valid() && k <= |old(ps)| && ps == old(ps)[k..]
        invariant Push(State(), writes, k) == Push(old(State()), writes, 0)
        decreases |ps|
      {
        var outcome := writes(k);
        WriteHead(outcome);
        if outcome != Confirmed { return; }
        k := k + 1;
      }
    }

    /** One turn of the receive loop of main: decode, append, push. */
    method OnPacket(p: Packet, writes: nat -> Outcome)
      requires Valid() && p !in ps
      modifies this, ps, p
      ensures Valid()
      ensures var packet := DecodedView(DecodeFrom(old(p.Seen()), old(p.raw)), old(p.timestamp));
              State() == Receive(old(State()), Arrival(packet, writes))
    {
      p.DecodePacket();
      assert ViewOf(p) == DecodedView(DecodeFrom(old(p.Seen()), p.raw), p.timestamp);
      assert Views(ps) == old(Views(ps));
      ps := ps + [p];
      assert Views(ps) == old(Views(ps)) + [ViewOf(p)];
      PushInflux(writes);
    }
  }
}
