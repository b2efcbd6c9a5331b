/** From a meter's bytes to the points on the server: reports as payloads of frames, through the
    scanner, the decoder and the store-and-forward queue. */
module EndToEnd {
  import opened Text
  import opened Scanner
  import opened Decoder
  import opened Frames
  import opened Gateway
  import M = MeterReport
  import U = Uart
  import S = Sentinel
  import SF = StoreForward
  import N = Mote
  import O = OwnReadings
  import R = Reports
  import L = Sessions

  /** The metrics in a report. */
  function Metrics(index: nat, rep: M.Report): seq<Metric> {
    [Metric("PAPP" + Dec(index), rep.papp), Metric("BASE" + Dec(index), rep.base), Metric("IINST" + Dec(index), rep.iinst)]
  }

  function ReportMap(index: nat, rep: M.Report): DataMap {
    map["PAPP" + Dec(index) := Int(rep.papp), "BASE" + Dec(index) := Int(rep.base), "IINST" + Dec(index) := Int(rep.iinst)]
  }

  lemma KeySound(name: string, index: nat, value: int)
    requires ':' !in name && ';' !in name && name != "" && name[0] != 'T' && name[0] != 'H'
    requires MIN_INT64 <= value <= MAX_INT64
    ensures SoundMetric(Metric(name + Dec(index), value))
  {
    DecChars(index, ':');
    DecChars(index, ';');
    var key := name + Dec(index);
    assert key[0] == name[0];
    assert "TEMP"[0] == 'T' && "HUMI"[0] == 'H';
  }

  lemma MetricsSound(index: nat, rep: M.Report)
    requires M.Typed(rep)
    ensures Sound(Metrics(index, rep))
  {
    KeySound("PAPP", index, rep.papp);
    KeySound("BASE", index, rep.base);
    KeySound("IINST", index, rep.iinst);
  }

  lemma MetricsMap(index: nat, rep: M.Report)
    ensures MapOf(Metrics(index, rep)) == ReportMap(index, rep)
  {
    var ms := Metrics(index, rep);
    assert ms[..2] == [ms[0], ms[1]] && ms[..2][..1] == [ms[0]] && [ms[0]][..0] == [];
    assert MapOf([]) == map[];
    assert MapOf([ms[0]]) == map[ms[0].key := Int(ms[0].value)];
    assert MapOf(ms[..2]) == MapOf([ms[0]])[ms[1].key := Int(ms[1].value)];
    assert MapOf(ms) == MapOf(ms[..2])[ms[2].key := Int(ms[2].value)];
  }

  lemma JoinThree(a: string, b: string, c: string)
    ensures Join([a, b, c], ';') == a + ";" + b + ";" + c
    ensures Join([a, b, c, ""], ';') == a + ";" + b + ";" + c + ";"
  {
    assert [a, b, c][1..] == [b, c] && [b, c][1..] == [c];
    assert Join([b, c], ';') == b + ";" + c;
    assert [a, b, c, ""][1..] == [b, c, ""] && [b, c, ""][1..] == [c, ""] && [c, ""][1..] == [""];
    assert Join([c, ""], ';') == c + ";" + "";
    assert Join([b, c, ""], ';') == b + ";" + (c + ";");
  }

  lemma PairsOfReport(index: nat, rep: M.Report)
    ensures PairTexts(Metrics(index, rep))
         == ["PAPP" + Dec(index) + ":" + Dec(rep.papp), "BASE" + Dec(index) + ":" + Dec(rep.base),
             "IINST" + Dec(index) + ":" + Dec(rep.iinst)]
  {
  }

  lemma TextsAreJoined(i: string, a: string, b: string, c: string)
    ensures "PAPP" + i + ":" + a + ";BASE" + i + ":" + b + ";IINST" + i + ":" + c
         == ("PAPP" + i + ":" + a) + ";" + ("BASE" + i + ":" + b) + ";" + ("IINST" + i + ":" + c)
  {
    assert ";BASE" == ";" + "BASE";
    assert ";IINST" == ";" + "IINST";
  }

  /** A report says, in this order: apparent power, total and current, each under its meter's index. */
  lemma ReportSplits(index: nat, rep: M.Report)
    requires index < 256 && M.Typed(rep)
    ensures var parts := ["PAPP" + Dec(index) + ":" + Dec(rep.papp), "BASE" + Dec(index) + ":" + Dec(rep.base),
                          "IINST" + Dec(index) + ":" + Dec(rep.iinst)];
            && Split(M.ReportText(index, rep), ';') == parts + [""]
            && Split(S.ProcessorText(index, rep), ';') == parts
  {
    var ps := PairTexts(Metrics(index, rep));
    M.ReportBound(index, rep);
    PairsOfReport(index, rep);
    TextsAreJoined(Dec(index), Dec(rep.papp), Dec(rep.base), Dec(rep.iinst));
    JoinThree(ps[0], ps[1], ps[2]);
    assert ps == [ps[0], ps[1], ps[2]] && ps + [""] == [ps[0], ps[1], ps[2], ""];
    NoSemicolons(index, rep);
    SplitUnique(ps, ';');
    SplitUnique(ps + [""], ';');
  }

  lemma PairHasNoSemicolon(name: string, index: nat, value: int)
    requires ';' !in name
    ensures ';' !in PairText(Metric(name + Dec(index), value))
  {
    DecChars(index, ';');
    DecChars(value, ';');
  }

  lemma NoSemicolons(index: nat, rep: M.Report)
    ensures Without(PairTexts(Metrics(index, rep)), ';')
  {
    PairHasNoSemicolon("PAPP", index, rep.papp);
    PairHasNoSemicolon("BASE", index, rep.base);
    PairHasNoSemicolon("IINST", index, rep.iinst);
  }

  /** The decoder reads a report of either firmware as exactly its three metrics, with the values
      that were printed. */
  lemma ReportDecodes(index: nat, rep: M.Report)
    requires index < 256 && M.Typed(rep)
    ensures Entries(map[], Split(M.ReportText(index, rep), ';')) == ReportMap(index, rep)
    ensures Entries(map[], Split(S.ProcessorText(index, rep), ';')) == ReportMap(index, rep)
  {
    var ps := PairTexts(Metrics(index, rep));
    M.ReportBound(index, rep);
    MetricsSound(index, rep);
    MetricsMap(index, rep);
    PairsOfReport(index, rep);
    TextsAreJoined(Dec(index), Dec(rep.papp), Dec(rep.base), Dec(rep.iinst));
    JoinThree(ps[0], ps[1], ps[2]);
    DecodeOfPairs(Metrics(index, rep), true);
    DecodeOfPairs(Metrics(index, rep), false);
    assert ps + [""] == [ps[0], ps[1], ps[2], ""];
    assert ps + [] == [ps[0], ps[1], ps[2]];
  }

  lemma ReportBytes(index: nat, rep: M.Report)
    requires index < 256 && M.Typed(rep)
    ensures |M.ReportText(index, rep)| <= 255 && Bytes(M.ReportText(index, rep))
  {
    M.ReportBound(index, rep);
    DecBytes(index);
    DecBytes(rep.papp);
    DecBytes(rep.base);
    DecBytes(rep.iinst);
  }

  lemma DecBytes(n: int)
    ensures Bytes(Dec(n))
  {
    DigitsDenote(if n < 0 then -n else n);
  }

  // ---------------------------------------------------------------- reports to packets

  /** The frame carries a report. */
  ghost predicate Carries(f: Frame, index: nat, rep: M.Report) {
    index < 256 && M.Typed(rep) && f.payload == M.ReportText(index, rep)
  }

  /** Every report can stand in a frame. */
  lemma CarrierValid(f: Frame, index: nat, rep: M.Report)
    requires Carries(f, index, rep)
    requires f.lqi < 256 && -0x8000 <= f.rssi <= 0x7FFF
    requires '>' !in f.source && ';' !in f.source && '=' !in f.source && '<' !in f.source
    ensures Valid(f)
  {
    ReportBytes(index, rep);
  }

  /** The packet that a report must become. */
  function PacketOf(f: Frame, index: nat, rep: M.Report): Decoded {
    Decoded(Header(M.ReportText(index, rep), f.source, f.lqi, f.rssi), ReportMap(index, rep))
  }

  lemma ReportContent(f: Frame, index: nat, rep: M.Report)
    requires Carries(f, index, rep)
    ensures Content(f) == PacketOf(f, index, rep)
  {
    ReportDecodes(index, rep);
  }

  /** In any stream of frames, of this node or of others: whatever part of the line was read and
      however it was cut into reads, the decoded packets are the first frames in order, and those of
      reports have exactly their three metrics. */
  lemma ReportsArrive(lead: string, ss: seq<Sent>, chunks: seq<string>, more: string)
    requires Barren(lead) && ValidStream(ss)
    requires Concat(chunks) + more == lead + Stream(ss)
    ensures |Run(chunks).sent| <= |ss|
    ensures forall i, index, rep | 0 <= i < |Run(chunks).sent| && Carries(ss[i].frame, index, rep) ::
              Decode(Run(chunks).sent[i].raw) == PacketOf(ss[i].frame, index, rep)
  {
    MultiFrameRoundTrip(lead, ss, chunks, more);
    assert |Raws(Run(chunks).sent)| <= |RawsOf(ss)|;
    forall i, index, rep | 0 <= i < |Run(chunks).sent| && Carries(ss[i].frame, index, rep)
      ensures Decode(Run(chunks).sent[i].raw) == PacketOf(ss[i].frame, index, rep)
    {
      ReportContent(ss[i].frame, index, rep);
    }
  }

  /** When the whole line was read, as many further reads as there are frames, whatever they hold,
      hand over all of them, and every report with exactly its three metrics. */
  lemma AllReportsArrive(lead: string, ss: seq<Sent>, chunks: seq<string>, extra: seq<string>)
    requires Barren(lead) && ValidStream(ss)
    requires Concat(chunks) == lead + Stream(ss)
    requires AllNonEmpty(chunks) && AllNonEmpty(extra) && |extra| >= |ss|
    ensures |Run(chunks + extra).sent| >= |ss|
    ensures forall i, index, rep | 0 <= i < |ss| && Carries(ss[i].frame, index, rep) ::
              Decode(Run(chunks + extra).sent[i].raw) == PacketOf(ss[i].frame, index, rep)
  {
    AllFramesArrive(lead, ss, chunks, extra);
    forall i, index, rep | 0 <= i < |ss| && Carries(ss[i].frame, index, rep)
      ensures Decode(Run(chunks + extra).sent[i].raw) == PacketOf(ss[i].frame, index, rep)
    {
      ReportContent(ss[i].frame, index, rep);
    }
  }

  // ---------------------------------------------------------------- packets to points

  /** The packets handed over by the reader, each with the time of its read and the outcomes of the
      writes that follow its arrival. */
  function Arrivals(sent: seq<Piece>, times: nat -> int, writes: nat -> (nat -> SF.Outcome)): (r: seq<SF.Arrival>)
    ensures |r| == |sent|
    ensures forall i | 0 <= i < |sent| :: r[i] == SF.Arrival(SF.DecodedView(Decode(sent[i].raw), times(i)), writes(i))
  {
    seq(|sent|, i requires 0 <= i < |sent| => SF.Arrival(SF.DecodedView(Decode(sent[i].raw), times(i)), writes(i)))
  }

  /** The point that a frame must become. */
  function PointOfFrame(f: Frame, time: int): SF.Point {
    SF.PointOf(SF.DecodedView(Content(f), time))
  }

  /** The point that a report must become: its three metrics, the RSSI and the LQI, under the
      address of the sender. */
  function PointOfReport(f: Frame, index: nat, rep: M.Report, time: int): SF.Point {
    SF.Point(f.source, ReportMap(index, rep)["RSSI" := Int(f.rssi)]["LQI" := Int(f.lqi)], time)
  }

  lemma ReportPoint(f: Frame, index: nat, rep: M.Report, time: int)
    requires Carries(f, index, rep)
    ensures PointOfFrame(f, time) == PointOfReport(f, index, rep, time)
  {
    ReportContent(f, index, rep);
  }

  /** A point has the address of its packet's sender, the time of its read, the metrics of its payload,
      and the RSSI and LQI of its frame. */
  ghost predicate ShowsPacket(point: SF.Point, d: Decoded, time: int) {
    && point.id == d.header.smac && point.timestamp == time
    && point.fields.Keys == d.datamap.Keys + {"RSSI", "LQI"}
    && point.fields["RSSI"] == Int(d.header.rssi) && point.fields["LQI"] == Int(d.header.lqi)
    && forall key | key in d.datamap && key != "RSSI" && key != "LQI" :: point.fields[key] == d.datamap[key]
  }

  /** Every entry of the server's log is the point of a frame that was handed over. */
  ghost predicate PointsOfFrames(log: seq<SF.Entry>, ss: seq<Sent>, handed: nat, times: nat -> int) {
    forall i | 0 <= i < |log| ::
      && log[i].packet < handed <= |ss|
      && log[i].point == PointOfFrame(ss[log[i].packet].frame, times(log[i].packet))
      && ShowsPacket(log[i].point, Content(ss[log[i].packet].frame), times(log[i].packet))
  }

  /** For any bytes at all, merged and broken records included: every point on the server shows the
      packet that its record decodes to. */
  lemma AnyPointShowsPacket(chunks: seq<string>, times: nat -> int, writes: nat -> (nat -> SF.Outcome))
    ensures var sent := Run(chunks).sent;
            var log := SF.Run(Arrivals(sent, times, writes)).log;
            forall i | 0 <= i < |log| ::
              && log[i].packet < |sent|
              && log[i].point == SF.PointOf(SF.DecodedView(Decode(sent[log[i].packet].raw), times(log[i].packet)))
              && ShowsPacket(log[i].point, Decode(sent[log[i].packet].raw), times(log[i].packet))
  {
    var sent := Run(chunks).sent;
    var arrivals := Arrivals(sent, times, writes);
    var log := SF.Run(arrivals).log;
    SF.AtLeastOnceInOrder(arrivals);
    forall i | 0 <= i < |log|
      ensures log[i].packet < |sent|
      ensures log[i].point == SF.PointOf(SF.DecodedView(Decode(sent[log[i].packet].raw), times(log[i].packet)))
      ensures ShowsPacket(log[i].point, Decode(sent[log[i].packet].raw), times(log[i].packet))
    {
      var n := log[i].packet;
      assert SF.Packets(arrivals)[n] == arrivals[n].packet;
      SF.PointFields(SF.DecodedView(Decode(sent[n].raw), times(n)));
    }
  }

  /** The whole gateway, for any stream of frames: every point on the server is the one of a frame,
      with the number of the frame; without adjacent repeats they are the first frames in order; and
      every frame that was handed over and is not waiting in the queue is among them. */
  lemma PointsOnServer(lead: string, ss: seq<Sent>, chunks: seq<string>, more: string,
                       times: nat -> int, writes: nat -> (nat -> SF.Outcome))
    requires Barren(lead) && ValidStream(ss)
    requires Concat(chunks) + more == lead + Stream(ss)
    ensures var sent := Run(chunks).sent;
            var store := SF.Run(Arrivals(sent, times, writes));
            && |sent| <= |ss|
            && PointsOfFrames(store.log, ss, |sent|, times)
            && SF.Collapse(store.log) <= SF.Iota(|sent|)
            && |SF.Collapse(store.log)| >= store.confirmed == |sent| - |store.queue|
  {
    MultiFrameRoundTrip(lead, ss, chunks, more);
    var sent := Run(chunks).sent;
    assert |Raws(sent)| <= |RawsOf(ss)|;
    var arrivals := Arrivals(sent, times, writes);
    var store := SF.Run(arrivals);
    AnyPointShowsPacket(chunks, times, writes);
    SF.ServerSeesPrefix(arrivals);
    forall i | 0 <= i < |store.log|
      ensures var e := store.log[i];
              && e.packet < |sent| && e.point == PointOfFrame(ss[e.packet].frame, times(e.packet))
              && ShowsPacket(e.point, Content(ss[e.packet].frame), times(e.packet))
    {
      assert Decode(sent[store.log[i].packet].raw) == Content(ss[store.log[i].packet].frame);
    }
  }

  // ---------------------------------------------------------------- a node's run to points

  /** Whatever a node transmits in any run is the report built in that place, fit to be sent, and it
      is the one that the lines taken by the node's thread call for in that place. */
  lemma TransmittedIsMade(es: seq<N.Event>, n: nat)
    requires n < |N.Run(es).log.transmitted|
    ensures n < |N.Run(es).log.made| && N.Run(es).log.transmitted[n].made == N.Run(es).log.made[n]
    ensures var made := N.Run(es).log.made[n]; made.index <= 2 && M.Typed(made.report)
    ensures var due := M.Demanded([], R.Handled(N.Run(es))); n < |due| && N.Run(es).log.made[n].report == due[n]
  {
    N.SentInOrder(es);
    N.ReportsTyped(es);
    R.ReportsOfRun(es);
    assert N.Due(N.Run(es).log.made)[n] == N.Message(n, N.Run(es).log.made[n]);
    assert R.Values(N.Run(es).log.made)[n] == N.Run(es).log.made[n].report;
  }

  /** Which frames of a stream carry which of the messages that a node transmitted: any of them, in
      any order, with other frames in between. */
  ghost predicate Heard(es: seq<N.Event>, ss: seq<Sent>, heard: map<nat, nat>) {
    forall j | j in heard ::
      && j < |ss| && heard[j] < |N.Run(es).log.transmitted|
      && ss[j].frame.payload == N.BufferText(N.Run(es).log.transmitted[heard[j]])
  }

  lemma HeardCarries(es: seq<N.Event>, ss: seq<Sent>, heard: map<nat, nat>, j: nat)
    requires Heard(es, ss, heard) && j in heard
    ensures var k := heard[j];
            && k < |N.Run(es).log.made| && k < |M.Demanded([], R.Handled(N.Run(es)))|
            && Carries(ss[j].frame, N.Run(es).log.made[k].index, M.Demanded([], R.Handled(N.Run(es)))[k])
  {
    TransmittedIsMade(es, heard[j]);
  }

  /** From the lines of the meters to the server: for every run of the node, whatever the radio loses
      and whatever other frames stand between, however the line is read and whichever writes fail:
      each point stored for a frame of the node holds the report that the readings in the lines taken
      by its thread call for, in that place. */
  lemma NodeToServer(es: seq<N.Event>, ss: seq<Sent>, heard: map<nat, nat>, lead: string,
                     chunks: seq<string>, more: string, times: nat -> int, writes: nat -> (nat -> SF.Outcome))
    requires Barren(lead) && ValidStream(ss) && Heard(es, ss, heard)
    requires Concat(chunks) + more == lead + Stream(ss)
    ensures var due := M.Demanded([], R.Handled(N.Run(es)));
            var made := N.Run(es).log.made;
            var log := SF.Run(Arrivals(Run(chunks).sent, times, writes)).log;
            forall i | 0 <= i < |log| && log[i].packet in heard ::
              var j, k := log[i].packet, heard[log[i].packet];
              && j < |ss| && k < |due| == |made|
              && log[i].point == PointOfReport(ss[j].frame, made[k].index, due[k], times(j))
  {
    PointsOnServer(lead, ss, chunks, more, times, writes);
    R.ReportsOfRun(es);
    var due := M.Demanded([], R.Handled(N.Run(es)));
    var made := N.Run(es).log.made;
    var log := SF.Run(Arrivals(Run(chunks).sent, times, writes)).log;
    forall i | 0 <= i < |log| && log[i].packet in heard
      ensures var j, k := log[i].packet, heard[log[i].packet];
              && j < |ss| && k < |due| == |made|
              && log[i].point == PointOfReport(ss[j].frame, made[k].index, due[k], times(j))
    {
      var j, k := log[i].packet, heard[log[i].packet];
      HeardCarries(es, ss, heard, j);
      ReportPoint(ss[j].frame, made[k].index, due[k], times(j));
    }
  }

  // ---------------------------------------------------------------- the frame of every cycle

  /** What main transmits in every cycle before the reports. */
  function CommonText(battery: int, loops: nat): string {
    "FWRV:01;BATL:" + Dec(battery) + ";LOOP:" + Dec(loops)
  }

  lemma CommonParts(battery: string, loops: string)
    ensures "FWRV:01;BATL:" + battery + ";LOOP:" + loops
         == ("FWRV" + [':'] + "01") + ";" + ("BATL" + ":" + battery) + ";" + ("LOOP" + ":" + loops)
  {
    assert "FWRV:01;BATL:" == ("FWRV" + [':'] + "01") + ";" + ("BATL" + ":");
    assert ";LOOP:" == ";" + ("LOOP" + ":");
  }

  lemma VersionRead()
    ensures Entry(map[], "FWRV" + [':'] + "01") == map["FWRV" := Int(1)]
    ensures ';' !in "FWRV" + [':'] + "01"
  {
    PairSplit("FWRV", ':', "01");
    assert "01"[1..] == "1" && "1"[1..] == "";
    assert ScanDigits("01", 0) == ScanDigits("1", 0) == ScanDigits("", 1) == Number(1);
    assert ParseInt("01") == 1;
  }

  lemma CommonEntries(version: string, b: Metric, l: Metric)
    requires SoundMetric(b) && SoundMetric(l)
    ensures Entries(map[], [version, PairText(b), PairText(l)])
         == Entry(map[], version)[b.key := Int(b.value)][l.key := Int(l.value)]
  {
    var pairs := [version, PairText(b), PairText(l)];
    assert pairs[..2] == [version, PairText(b)] && pairs[..2][..1] == [version] && [version][..0] == [];
    assert Entries(map[], [version]) == Entry(map[], version);
    EntryOfPair(Entry(map[], version), b);
    EntryOfPair(Entry(map[], version)[b.key := Int(b.value)], l);
  }

  /** The frame of every cycle is a frame like any other, so it may stand between the reports, and it
      decodes to its three metrics. */
  lemma CommonFrame(battery: int, loops: nat)
    requires -0x8000_0000 <= battery <= 0x7FFF_FFFF && loops < 0x1_0000
    ensures |CommonText(battery, loops)| <= 255 && Bytes(CommonText(battery, loops))
    ensures Entries(map[], Split(CommonText(battery, loops), ';'))
         == map["FWRV" := Int(1), "BATL" := Int(battery), "LOOP" := Int(loops)]
  {
    CommonBytes(battery, loops);
    var version, b, l := "FWRV" + [':'] + "01", Metric("BATL", battery), Metric("LOOP", loops);
    VersionRead();
    CommonParts(Dec(battery), Dec(loops));
    JoinThree(version, PairText(b), PairText(l));
    DecChars(battery, ';');
    DecChars(loops, ';');
    SplitUnique([version, PairText(b), PairText(l)], ';');
    CommonEntries(version, b, l);
  }

  lemma CommonBytes(battery: int, loops: nat)
    requires -0x8000_0000 <= battery <= 0x7FFF_FFFF && loops < 0x1_0000
    ensures |CommonText(battery, loops)| <= 255 && Bytes(CommonText(battery, loops))
  {
    DecBytes(battery);
    DecBytes(loops);
    M.TenThousands();
    M.MorePowers();
    M.DecLength(battery, 11);
    M.DecLength(loops, 6);
  }

  // ---------------------------------------------------------------- a meter's bytes to metrics

  /** The session that main is about to open while the thread is at rest, with nothing left over, and
      in which the thread keeps up: by the line with which all three tags were read, the node has
      built the report of the last values read in the session up to it, under the meter's index, and
      any frame with that report decodes to these metrics. */
  lemma MeterToMetrics(es: seq<N.Event>, bytes: seq<U.byte>, n: nat)
    requires var s := N.Run(es);
             && s.main.Enabling? && (s.thread.Asleep? || O.Idle(s)) && s.results.state == 0
             && if s.inbox == 0 then s.ring == "" else M.Parse(s.ring).None?
    requires S.FirstComplete(U.Assemble("", bytes).lines, n)
    ensures var s := N.Run(es);
            var rep := M.ReportOf(M.Readings(U.Assemble("", bytes).lines[..n + 1]));
            && L.Served(L.Opened(s), bytes).log.made == s.log.made + [N.Made(s.main.meter, rep)]
            && forall f: Frame | Valid(f) && f.payload == M.ReportText(s.main.meter, rep) ::
                 Decode(RawOf(f)).datamap == ReportMap(s.main.meter, rep)
  {
    var s := N.Run(es);
    var r, lines := L.Opened(s).results, U.Assemble("", bytes).lines;
    var rep := M.ReportOf(M.Readings(lines[..n + 1]));
    L.OpenedIs(es);
    L.Serves(L.Opened(s), bytes);
    S.FirstIsComplete(lines, n);
    M.FirstCompleted(M.CLEARED, lines, n);
    M.ClearedAbstractsNothing(r);
    M.ClearedAbstractsNothing(M.CLEARED);
    M.CompletedIsDemanded(r, [], lines);
    M.CompletedIsDemanded(M.CLEARED, [], lines);
    N.EveryRun(es);
    LatestInRange(lines[..n + 1], M.Base);
    LatestInRange(lines[..n + 1], M.Papp);
    LatestInRange(lines[..n + 1], M.Iinst);
    forall f: Frame | Valid(f) && f.payload == M.ReportText(s.main.meter, rep)
      ensures Decode(RawOf(f)).datamap == ReportMap(s.main.meter, rep)
    {
      DecodeOfPrinted(f);
      ReportDecodes(s.main.meter, rep);
    }
  }

  lemma {:induction false} LatestInRange(lines: seq<string>, tag: M.Tag)
    requires M.Has(M.Readings(lines), tag)
    ensures var v := M.Latest(M.Readings(lines), tag).value;
            match tag
            case Base => -0x8000_0000 <= v <= 0x7FFF_FFFF
            case _ => -0x8000 <= v <= 0x7FFF
  {
    var n := |lines| - 1;
    var x := M.ReadingsOf(lines[n]);
    M.LatestAppend(M.Readings(lines[..n]), x, tag);
    if x != [] {
      M.LatestSingle(x[0], tag);
      M.ReadingRange(lines[n]);
      M.TenThousands();
      assert Pow10(9) == 10 * Pow10(8);
    }
    if !M.Has(x, tag) { LatestInRange(lines[..n], tag); }
  }
}
