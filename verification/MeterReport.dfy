/** The report state machine of the meter reader (mote-devboard/apps/node-teleinfo/teleinfo.c,
    teleinfo_run): lines are parsed into readings, a bit is set for each kind of reading, and a
    report is built once all three bits are set. */
module MeterReport {
  import opened Text

  datatype Tag = Base | Papp | Iinst

  datatype Reading = Reading(tag: Tag, value: int)

  /** Assignment of an `int` to an `int16_t`. */
  function Int16(x: int): (v: int)
    ensures -0x8000 <= v <= 0x7FFF
    ensures -0x8000 <= x <= 0x7FFF ==> v == x
  {
    var low := x % 0x1_0000;
    if low < 0x8000 then low else low - 0x1_0000
  }

  /** The reading in a line, with the value as the field of its type holds it. */
  function Parse(line: string): Option<Reading> {
    if "BASE" <= line && |line| >= 14 then Some(Reading(Base, Atoi(line[5..14])))
    else if "PAPP" <= line && |line| >= 10 then Some(Reading(Papp, Int16(Atoi(line[5..10]))))
    else if "IINST" <= line && |line| >= 9 then Some(Reading(Iinst, Int16(Atoi(line[6..9]))))
    else None
  }

  predicate Reads(line: string, tag: Tag) { Parse(line).Some? && Parse(line).value.tag == tag }

  // ---------------------------------------------------------------- the machine

  const BASE_DONE: bv8 := 1
  const PAPP_DONE: bv8 := 2
  const IINST_DONE: bv8 := 4

  datatype Results = Results(papp: int, iinst: int, base: int, state: bv8)

  datatype Report = Report(papp: int, base: int, iinst: int)

  function Accept(r: Results, line: string): Results {
    match Parse(line)
    case Some(Reading(Base, v)) => r.(base := v, state := r.state | BASE_DONE)
    case Some(Reading(Papp, v)) => r.(papp := v, state := r.state | PAPP_DONE)
    case Some(Reading(Iinst, v)) => r.(iinst := v, state := r.state | IINST_DONE)
    case None => r
  }

  predicate Full(r: Results) { r.state == BASE_DONE | PAPP_DONE | IINST_DONE }

  const CLEARED := Results(0, 0, 0, 0)

  /** What one line makes of the results, and the report it completes. */
  function Step(r: Results, line: string): (Results, Option<Report>) {
    var r' := Accept(r, line);
    if Full(r') then (CLEARED, Some(Report(r'.papp, r'.base, r'.iinst))) else (r', None)
  }

  /** The results after a run of lines. */
  function After(r: Results, lines: seq<string>): Results {
    if lines == [] then r else Step(After(r, lines[..|lines| - 1]), lines[|lines| - 1]).0
  }

  /** What line k of a run completes. */
  function Output(r: Results, lines: seq<string>, k: nat): Option<Report>
    requires k < |lines|
  {
    Step(After(r, lines[..k]), lines[k]).1
  }

  // ---------------------------------------------------------------- the history it stands for

  /** The last value read for a tag. */
  function Latest(h: seq<Reading>, tag: Tag): Option<int> {
    if h == [] then None
    else if h[|h| - 1].tag == tag then Some(h[|h| - 1].value)
    else Latest(h[..|h| - 1], tag)
  }

  predicate Has(h: seq<Reading>, tag: Tag) { Latest(h, tag).Some? }

  predicate Complete(h: seq<Reading>) { Has(h, Base) && Has(h, Papp) && Has(h, Iinst) }

  function ReportOf(h: seq<Reading>): Report
    requires Complete(h)
  {
    Report(Latest(h, Papp).value, Latest(h, Base).value, Latest(h, Iinst).value)
  }

  function ReadingsOf(line: string): seq<Reading> {
    match Parse(line) case Some(x) => [x] case None => []
  }

  /** The readings in a run of lines. */
  function Readings(lines: seq<string>): seq<Reading> {
    if lines == [] then [] else Readings(lines[..|lines| - 1]) + ReadingsOf(lines[|lines| - 1])
  }

  /** The readings accepted since the last report. */
  function Since(h: seq<Reading>, lines: seq<string>): seq<Reading> {
    if lines == [] then h
    else
      var h' := Since(h, lines[..|lines| - 1]) + ReadingsOf(lines[|lines| - 1]);
      if Complete(h') then [] else h'
  }

  /** The report that line k must complete, from the readings alone. */
  function Expected(h: seq<Reading>, lines: seq<string>, k: nat): Option<Report>
    requires k < |lines|
  {
    var h' := Since(h, lines[..k]) + ReadingsOf(lines[k]);
    if Complete(h') then Some(ReportOf(h')) else None
  }

  function Mask(tag: Tag): bv8 {
    match tag case Base => BASE_DONE case Papp => PAPP_DONE case Iinst => IINST_DONE
  }

  predicate Bit(state: bv8, tag: Tag) { state & Mask(tag) != 0 }

  function Stored(r: Results, tag: Tag): int {
    match tag case Base => r.base case Papp => r.papp case Iinst => r.iinst
  }

  /** The bits are the tags of the history, and a set bit's field is the last value read. */
  ghost predicate Abstracts(r: Results, h: seq<Reading>) {
    && r.state < 8
    && forall tag :: Bit(r.state, tag) == Has(h, tag)
                     && (Has(h, tag) ==> Latest(h, tag) == Some(Stored(r, tag)))
  }

  lemma BitSet(state: bv8, tag: Tag, t: Tag)
    requires state < 8
    ensures (state | Mask(tag)) < 8
    ensures Bit(state | Mask(tag), t) == (t == tag || Bit(state, t))
  {
    match tag {
      case Base => assert (state | 1) < 8;
      case Papp => assert (state | 2) < 8;
      case Iinst => assert (state | 4) < 8;
    }
  }

  lemma FullMeansAllBits(r: Results)
    requires r.state < 8
    ensures Full(r) <==> Bit(r.state, Base) && Bit(r.state, Papp) && Bit(r.state, Iinst)
  {
  }

  lemma AcceptAbstracts(r: Results, h: seq<Reading>, line: string)
    requires Abstracts(r, h)
    ensures Abstracts(Accept(r, line), h + ReadingsOf(line))
  {
    match Parse(line) {
      case None =>
        assert h + [] == h;
      case Some(x) =>
        assert (h + [x])[..|h|] == h;
        assert Accept(r, line).state == r.state | Mask(x.tag);
        forall tag
          ensures Latest(h + [x], tag) == if tag == x.tag then Some(x.value) else Latest(h, tag)
          ensures Bit(r.state | Mask(x.tag), tag) == (tag == x.tag || Bit(r.state, tag))
          ensures (r.state | Mask(x.tag)) < 8
        {
          BitSet(r.state, x.tag, tag);
        }
    }
  }

  lemma ClearedAbstractsNothing(r: Results)
    requires r.state == 0
    ensures Abstracts(r, [])
  {
  }

  lemma StepAbstracts(r: Results, h: seq<Reading>, line: string)
    requires Abstracts(r, h)
    ensures var h' := h + ReadingsOf(line);
            && Step(r, line).1 == (if Complete(h') then Some(ReportOf(h')) else None)
            && Abstracts(Step(r, line).0, if Complete(h') then [] else h')
  {
    AcceptAbstracts(r, h, line);
    FullMeansAllBits(Accept(r, line));
    ClearedAbstractsNothing(CLEARED);
  }

  lemma {:induction false} AbstractionKept(r: Results, h: seq<Reading>, lines: seq<string>)
    requires Abstracts(r, h)
    ensures Abstracts(After(r, lines), Since(h, lines))
  {
    if lines != [] {
      var init := lines[..|lines| - 1];
      AbstractionKept(r, h, init);
      StepAbstracts(After(r, init), Since(h, init), lines[|lines| - 1]);
    }
  }

  /** The machine refines its history: on every run, from any start that stands for some history,
      each line completes exactly the report that the readings since the last report call for. */
  lemma MachineRefinesHistory(r: Results, h: seq<Reading>, lines: seq<string>)
    requires Abstracts(r, h)
    ensures Abstracts(After(r, lines), Since(h, lines))
    ensures forall k | 0 <= k < |lines| :: Output(r, lines, k) == Expected(h, lines, k)
  {
    AbstractionKept(r, h, lines);
    forall k | 0 <= k < |lines| ensures Output(r, lines, k) == Expected(h, lines, k) {
      AbstractionKept(r, h, lines[..k]);
      StepAbstracts(After(r, lines[..k]), Since(h, lines[..k]), lines[k]);
    }
  }

  // ---------------------------------------------------------------- all reports of a run of lines

  /** The reports that a run of lines completes, in order. */
  function Completed(r: Results, lines: seq<string>): seq<Report> {
    if lines == [] then []
    else
      var init := lines[..|lines| - 1];
      Completed(r, init) + Optional(Step(After(r, init), lines[|lines| - 1]).1)
  }

  /** The reports that the readings call for. */
  function Demanded(h: seq<Reading>, lines: seq<string>): seq<Report> {
    if lines == [] then []
    else
      var init := lines[..|lines| - 1];
      var h' := Since(h, init) + ReadingsOf(lines[|lines| - 1]);
      Demanded(h, init) + Optional(if Complete(h') then Some(ReportOf(h')) else None)
  }

  function Optional(due: Option<Report>): seq<Report> {
    match due case Some(rep) => [rep] case None => []
  }

  lemma {:induction false} CompletedIsDemanded(r: Results, h: seq<Reading>, lines: seq<string>)
    requires Abstracts(r, h)
    ensures Completed(r, lines) == Demanded(h, lines)
  {
    if lines != [] {
      var init := lines[..|lines| - 1];
      CompletedIsDemanded(r, h, init);
      AbstractionKept(r, h, init);
      StepAbstracts(After(r, init), Since(h, init), lines[|lines| - 1]);
    }
  }

  lemma LineAdded(r: Results, lines: seq<string>, line: string)
    ensures After(r, lines + [line]) == Step(After(r, lines), line).0
    ensures Completed(r, lines + [line]) == Completed(r, lines) + Optional(Step(After(r, lines), line).1)
  {
    assert (lines + [line])[..|lines|] == lines;
  }

  lemma {:induction false} AfterAdded(r: Results, a: seq<string>, b: seq<string>)
    ensures After(r, a + b) == After(After(r, a), b)
  {
    if b == [] {
      assert a + b == a;
    } else {
      var init := b[..|b| - 1];
      assert (a + b)[..|a + b| - 1] == a + init;
      AfterAdded(r, a, init);
    }
  }

  lemma LaterReports(a: seq<Report>, b: seq<Report>, c: seq<Report>)
    ensures a + b + c == a + (b + c)
  {
  }

  lemma {:induction false} CompletedAdded(r: Results, a: seq<string>, b: seq<string>)
    ensures Completed(r, a + b) == Completed(r, a) + Completed(After(r, a), b)
  {
    if b == [] {
      assert a + b == a;
      assert Completed(r, a) + [] == Completed(r, a);
    } else {
      var init, last := b[..|b| - 1], b[|b| - 1];
      assert (a + b)[..|a + b| - 1] == a + init;
      CompletedAdded(r, a, init);
      AfterAdded(r, a, init);
      LaterReports(Completed(r, a), Completed(After(r, a), init), Optional(Step(After(r, a + init), last).1));
    }
  }

  // ---------------------------------------------------------------- where a session's values come from

  /** A history that any results with no stray bits stand for. */
  function Leftover(r: Results): seq<Reading> {
      (if Bit(r.state, Base) then [Reading(Base, r.base)] else [])
    + (if Bit(r.state, Papp) then [Reading(Papp, r.papp)] else [])
    + (if Bit(r.state, Iinst) then [Reading(Iinst, r.iinst)] else [])
  }

  lemma {:induction false} LatestAppend(h: seq<Reading>, g: seq<Reading>, tag: Tag)
    ensures Latest(h + g, tag) == if Has(g, tag) then Latest(g, tag) else Latest(h, tag)
  {
    if g == [] {
      assert h + g == h;
    } else {
      assert (h + g)[..|h + g| - 1] == h + g[..|g| - 1];
      LatestAppend(h, g[..|g| - 1], tag);
    }
  }

  lemma LatestSingle(x: Reading, tag: Tag)
    ensures Latest([x], tag) == if x.tag == tag then Some(x.value) else None
  {
    assert [x][..0] == [];
  }

  lemma LatestOfThree(x: Reading, y: Reading, z: Reading, tag: Tag)
    ensures Latest([x, y, z], tag)
         == if z.tag == tag then Some(z.value) else if y.tag == tag then Some(y.value)
            else if x.tag == tag then Some(x.value) else None
  {
    assert [x, y, z][..2] == [x, y] && [x, y][..1] == [x];
    LatestSingle(x, tag);
  }

  lemma LeftoverAbstracted(r: Results)
    requires r.state < 8
    ensures Abstracts(r, Leftover(r))
  {
    var b := if Bit(r.state, Base) then [Reading(Base, r.base)] else [];
    var p := if Bit(r.state, Papp) then [Reading(Papp, r.papp)] else [];
    var i := if Bit(r.state, Iinst) then [Reading(Iinst, r.iinst)] else [];
    forall tag ensures Latest(Leftover(r), tag) == if Bit(r.state, tag) then Some(Stored(r, tag)) else None {
      LatestAppend(b + p, i, tag);
      LatestAppend(b, p, tag);
      LatestSingle(Reading(Base, r.base), tag);
      LatestSingle(Reading(Papp, r.papp), tag);
      LatestSingle(Reading(Iinst, r.iinst), tag);
    }
  }

  /** Before the first report nothing is forgotten. */
  lemma {:induction false} SinceBeforeReport(h: seq<Reading>, lines: seq<string>)
    requires forall k | 0 <= k < |lines| :: Expected(h, lines, k).None?
    ensures Since(h, lines) == h + Readings(lines)
  {
    if lines == [] {
      assert h + [] == h;
    } else {
      var n := |lines| - 1;
      forall k | 0 <= k < n ensures Expected(h, lines[..n], k).None? {
        assert lines[..n][..k] == lines[..k];
        assert Expected(h, lines, k).None?;
      }
      SinceBeforeReport(h, lines[..n]);
      assert Expected(h, lines, n).None?;
      assert h + Readings(lines) == (h + Readings(lines[..n])) + ReadingsOf(lines[n]);
    }
  }

  /** Line n completes the first report of a session. */
  ghost predicate FirstAt(r: Results, lines: seq<string>, n: nat) {
    && n < |lines|
    && (forall k | 0 <= k < n :: Output(r, lines, k).None?)
    && Output(r, lines, n).Some?
  }

  lemma {:induction false} NoneCompleted(r: Results, lines: seq<string>)
    requires forall k | 0 <= k < |lines| :: Output(r, lines, k).None?
    ensures Completed(r, lines) == []
  {
    if lines != [] {
      var n := |lines| - 1;
      forall k | 0 <= k < n ensures Output(r, lines[..n], k).None? {
        assert lines[..n][..k] == lines[..k];
        assert Output(r, lines, k).None?;
      }
      NoneCompleted(r, lines[..n]);
      assert Output(r, lines, n).None?;
    }
  }

  lemma {:induction false} FirstCompleted(r: Results, lines: seq<string>, n: nat)
    requires FirstAt(r, lines, n)
    ensures Completed(r, lines) != [] && Completed(r, lines)[0] == Output(r, lines, n).value
  {
    var init := lines[..|lines| - 1];
    forall k | 0 <= k < |init| ensures Output(r, init, k) == Output(r, lines, k) {
      assert init[..k] == lines[..k];
    }
    if n == |init| {
      NoneCompleted(r, init);
      assert lines[..n] == init;
    } else {
      FirstCompleted(r, init, n);
    }
  }

  lemma ReadingsGrow(lines: seq<string>, n: nat)
    requires n < |lines|
    ensures Readings(lines[..n + 1]) == Readings(lines[..n]) + ReadingsOf(lines[n])
  {
    assert lines[..n + 1][..n] == lines[..n];
  }

  lemma SilentPrefix(h: seq<Reading>, lines: seq<string>, n: nat)
    requires n <= |lines|
    requires forall k | 0 <= k < n :: Expected(h, lines, k).None?
    ensures Since(h, lines[..n]) == h + Readings(lines[..n])
  {
    var before := lines[..n];
    forall k | 0 <= k < n ensures Expected(h, before, k).None? {
      assert before[..k] == lines[..k];
      assert Expected(h, lines, k).None?;
    }
    SinceBeforeReport(h, before);
  }

  lemma FirstExpected(h: seq<Reading>, lines: seq<string>, n: nat)
    requires n < |lines|
    requires forall k | 0 <= k < n :: Expected(h, lines, k).None?
    requires Expected(h, lines, n).Some?
    ensures Complete(h + Readings(lines[..n + 1]))
    ensures Expected(h, lines, n) == Some(ReportOf(h + Readings(lines[..n + 1])))
  {
    SilentPrefix(h, lines, n);
    ReadingsGrow(lines, n);
    assert (h + Readings(lines[..n])) + ReadingsOf(lines[n]) == h + (Readings(lines[..n]) + ReadingsOf(lines[n]));
  }

  /** The first report is built from what was left and what was read since. */
  lemma FirstReportHistory(r: Results, lines: seq<string>, n: nat)
    requires r.state < 8 && FirstAt(r, lines, n)
    ensures var h := Leftover(r) + Readings(lines[..n + 1]);
            Complete(h) && Output(r, lines, n) == Some(ReportOf(h))
  {
    var h := Leftover(r);
    LeftoverAbstracted(r);
    MachineRefinesHistory(r, h, lines);
    forall k | 0 <= k < n ensures Expected(h, lines, k).None? {
      assert Output(r, lines, k) == Expected(h, lines, k);
    }
    FirstExpected(h, lines, n);
  }

  function Sent(rep: Report, tag: Tag): int {
    match tag case Base => rep.base case Papp => rep.papp case Iinst => rep.iinst
  }

  /** The first report of a session takes each value from the session's own lines if the tag was
      read in it; otherwise the value is the one left in the results when the session began, whose
      bit was then still set. */
  lemma FirstReportOrigin(r: Results, lines: seq<string>, n: nat, tag: Tag)
    requires r.state < 8 && FirstAt(r, lines, n)
    ensures var own := Readings(lines[..n + 1]);
            var sent := Sent(Output(r, lines, n).value, tag);
            if Has(own, tag) then Latest(own, tag) == Some(sent)
            else Bit(r.state, tag) && sent == Stored(r, tag)
  {
    var own := Readings(lines[..n + 1]);
    FirstReportHistory(r, lines, n);
    LeftoverAbstracted(r);
    LatestAppend(Leftover(r), own, tag);
    assert Has(Leftover(r) + own, tag);
  }

  /** With the bits clear at its start, a session's reports depend on its own lines only. */
  lemma CleanSession(r: Results, stale: Results, lines: seq<string>)
    requires r.state == 0 && stale.state == 0
    ensures forall k | 0 <= k < |lines| :: Output(r, lines, k) == Output(stale, lines, k) == Expected([], lines, k)
  {
    MachineRefinesHistory(r, [], lines);
    MachineRefinesHistory(stale, [], lines);
  }

  /** The other two tags. */
  function Others(tag: Tag): (Tag, Tag) {
    match tag
    case Base => (Papp, Iinst)
    case Papp => (Base, Iinst)
    case Iinst => (Base, Papp)
  }

  /** A history in which a tag was not read is not complete. */
  lemma TwoTagsIncomplete(x: Reading, y: Reading, tag: Tag)
    requires x.tag != tag && y.tag != tag
    ensures !Complete([]) && !Complete([x]) && !Complete([x, y])
  {
    LatestSingle(x, tag);
    assert [x, y][..1] == [x];
  }

  lemma NotDue(tag: Tag, l1: string, l2: string)
    requires Parse(l1).Some? && Parse(l1).value.tag != tag
    requires Parse(l2).Some? && Parse(l2).value.tag != tag
    ensures Expected([], [l1, l2], 0).None? && Expected([], [l1, l2], 1).None?
  {
    var x, y := Parse(l1).value, Parse(l2).value;
    TwoTagsIncomplete(x, y, tag);
    assert [l1, l2][..0] == [] && [l1, l2][..1] == [l1] && [l1][..0] == [];
    assert Since([], [l1]) == [x] by { assert [] + ReadingsOf(l1) == [x]; }
    assert [x] + ReadingsOf(l2) == [x, y];
  }

  lemma BitsAfter(r: Results, line: string, t: Tag)
    requires r.state < 8 && Parse(line).Some?
    ensures Accept(r, line).state < 8
    ensures Bit(Accept(r, line).state, t) == (t == Parse(line).value.tag || Bit(r.state, t))
    ensures t != Parse(line).value.tag ==> Stored(Accept(r, line), t) == Stored(r, t)
  {
    BitSet(r.state, Parse(line).value.tag, t);
    assert Accept(r, line).state == r.state | Mask(Parse(line).value.tag);
  }

  lemma AllBits(r: Results, tag: Tag)
    requires r.state < 8
    ensures Full(r) <==> Bit(r.state, tag) && Bit(r.state, Others(tag).0) && Bit(r.state, Others(tag).1)
  {
    FullMeansAllBits(r);
  }

  /** When a bit is not clear, readings of the other two tags are enough for a report; it holds the
      value left by an earlier session, and is not due. */
  lemma DirtySession(left: Results, tag: Tag, l1: string, l2: string) returns (k: nat)
    requires left.state < 8 && Bit(left.state, tag)
    requires Parse(l1).Some? && Parse(l1).value.tag == Others(tag).0
    requires Parse(l2).Some? && Parse(l2).value.tag == Others(tag).1
    ensures k < 2 && FirstAt(left, [l1, l2], k)
    ensures Sent(Output(left, [l1, l2], k).value, tag) == Stored(left, tag)
    ensures Expected([], [l1, l2], k).None?
  {
    var lines := [l1, l2];
    var r1 := Accept(left, l1);
    var r2 := Accept(r1, l2);
    NotDue(tag, l1, l2);
    assert lines[..0] == [] && lines[..1] == [l1] && [l1][..0] == [];
    BitsAfter(left, l1, tag);
    BitsAfter(left, l1, Others(tag).0);
    BitsAfter(r1, l2, tag);
    BitsAfter(r1, l2, Others(tag).0);
    BitsAfter(r1, l2, Others(tag).1);
    AllBits(r1, tag);
    AllBits(r2, tag);
    k := if Full(r1) then 0 else 1;
    assert !Full(r1) ==> After(left, lines[..1]) == r1;
  }

  /** Meters send lines of every tag. */
  lemma LineFor(tag: Tag) returns (line: string)
    ensures Parse(line).Some? && Parse(line).value.tag == tag
  {
    TenThousands();
    match tag {
      case Base => line := "BASE " + Padded(1, 9) + ""; BaseLine(1, "");
      case Papp => line := "PAPP " + Padded(1, 5) + ""; PappLine(1, "");
      case Iinst => line := "IINST " + Padded(1, 3) + ""; IinstLine(1, "");
    }
  }

  lemma SomeBit(state: bv8) returns (tag: Tag)
    requires 0 < state < 8
    ensures Bit(state, tag)
  {
    tag := if Bit(state, Base) then Base else if Bit(state, Papp) then Papp else Iinst;
  }

  /** Whatever bits are left, some two meter lines make a report that is not due. */
  lemma DirtySessionHappens(left: Results)
    requires 0 < left.state < 8
    ensures exists lines: seq<string>, k :: 0 <= k < |lines| && Output(left, lines, k) != Expected([], lines, k)
  {
    var tag := SomeBit(left.state);
    var l1 := LineFor(Others(tag).0);
    var l2 := LineFor(Others(tag).1);
    var k := DirtySession(left, tag, l1, l2);
    assert Output(left, [l1, l2], k) != Expected([], [l1, l2], k);
  }

  /** A session reports exactly what its own lines call for, whatever they are, if and only if no bit
      is set when it begins. */
  lemma CleanExactly(r: Results)
    requires r.state < 8
    ensures (forall lines: seq<string>, k | 0 <= k < |lines| :: Output(r, lines, k) == Expected([], lines, k))
       <==> r.state == 0
  {
    if r.state == 0 {
      forall lines: seq<string>, k | 0 <= k < |lines| ensures Output(r, lines, k) == Expected([], lines, k) {
        CleanSession(r, r, lines);
      }
    } else {
      DirtySessionHappens(r);
    }
  }

  // ---------------------------------------------------------------- what three lines call for

  lemma DemandedAdded(h: seq<Reading>, lines: seq<string>, line: string)
    ensures var h' := Since(h, lines) + ReadingsOf(line);
            && Since(h, lines + [line]) == (if Complete(h') then [] else h')
            && Demanded(h, lines + [line])
               == Demanded(h, lines) + Optional(if Complete(h') then Some(ReportOf(h')) else None)
  {
    assert (lines + [line])[..|lines|] == lines;
  }

  /** One reading and a PAPP are not enough. */
  lemma NoReportOfTwo(x: seq<Reading>, p: Reading)
    requires |x| <= 1 && p.tag == Papp
    ensures !Complete(x) && !Complete(x + [p])
  {
    if x == [] {
      TwoTagsIncomplete(p, p, Base);
      assert x + [p] == [p];
    } else {
      var t := if x[0].tag == Base then Iinst else Base;
      TwoTagsIncomplete(x[0], p, t);
      assert x == [x[0]] && x + [p] == [x[0], p];
    }
  }

  lemma TwoDemanded(first: string, papp: string)
    requires Reads(papp, Papp)
    ensures Since([], [first] + [papp]) == ReadingsOf(first) + [Parse(papp).value]
    ensures Demanded([], [first] + [papp]) == []
  {
    NoReportOfTwo(ReadingsOf(first), Parse(papp).value);
    DemandedAdded([], [], first);
    assert [] + [first] == [first] && [] + ReadingsOf(first) == ReadingsOf(first);
    DemandedAdded([], [first], papp);
  }

  lemma ThirdReading(x: seq<Reading>, p: Reading, i: Reading)
    requires |x| <= 1 && p.tag == Papp && i.tag == Iinst
    ensures var h := x + [p] + [i];
            Optional(if Complete(h) then Some(ReportOf(h)) else None)
            == if x != [] && x[0].tag == Base then [Report(p.value, x[0].value, i.value)] else []
  {
    if x == [] {
      assert x + [p] + [i] == [p, i];
      TwoTagsIncomplete(p, i, Base);
    } else {
      assert x + [p] + [i] == [x[0], p, i];
      LatestOfThree(x[0], p, i, Base);
      LatestOfThree(x[0], p, i, Papp);
      LatestOfThree(x[0], p, i, Iinst);
    }
  }

  lemma ThirdDemanded(two: seq<string>, x: seq<Reading>, p: Reading, iinst: string)
    requires |x| <= 1 && p.tag == Papp && Reads(iinst, Iinst)
    requires Since([], two) == x + [p] && Demanded([], two) == []
    ensures Demanded([], two + [iinst])
         == if x != [] && x[0].tag == Base then [Report(p.value, x[0].value, Parse(iinst).value.value)] else []
  {
    DemandedAdded([], two, iinst);
    ThirdReading(x, p, Parse(iinst).value);
  }

  /** A first line, a PAPP and an IINST: a report is due if the first one is a BASE. */
  lemma ThreeDemanded(first: string, papp: string, iinst: string)
    requires Reads(papp, Papp) && Reads(iinst, Iinst)
    ensures Demanded([], [first, papp, iinst])
         == match Parse(first)
            case Some(Reading(Base, v)) => [Report(Parse(papp).value.value, v, Parse(iinst).value.value)]
            case _ => []
  {
    TwoDemanded(first, papp);
    ThirdDemanded([first] + [papp], ReadingsOf(first), Parse(papp).value, iinst);
    assert [first, papp, iinst] == [first] + [papp] + [iinst];
  }

  // ---------------------------------------------------------------- fields of a line

  /** A BASE line stores the number printed in it. */
  lemma BaseLine(n: nat, tail: string)
    requires n < Pow10(9)
    ensures Parse("BASE " + Padded(n, 9) + tail) == Some(Reading(Base, n))
  {
    var line := "BASE " + Padded(n, 9) + tail;
    assert line[..4] == "BASE";
    assert line[5..14] == Padded(n, 9);
    PaddedDenotes(n, 9);
    AtoiOfDigits(Padded(n, 9));
  }

  lemma TenThousands()
    ensures Pow10(2) == 100 && Pow10(3) == 1000 && Pow10(5) == 100_000 && Pow10(9) == 1_000_000_000
  {
    assert Pow10(0) == 1;
    assert Pow10(1) == 10;
    assert Pow10(2) == 100;
    assert Pow10(3) == 1000;
    assert Pow10(4) == 10_000;
    assert Pow10(5) == 100_000;
    assert Pow10(6) == 1_000_000;
    assert Pow10(7) == 10_000_000;
    assert Pow10(8) == 100_000_000;
  }

  /** A PAPP line stores the number printed in it if and only if it fits 15 bits. */
  lemma PappLine(n: nat, tail: string)
    requires n < Pow10(5)
    ensures Parse("PAPP " + Padded(n, 5) + tail) == Some(Reading(Papp, Int16(n)))
    ensures Int16(n) == n <==> n <= 32767
  {
    var line := "PAPP " + Padded(n, 5) + tail;
    assert line[..4] == "PAPP";
    assert line[0] != 'B';
    assert line[5..10] == Padded(n, 5);
    PaddedDenotes(n, 5);
    AtoiOfDigits(Padded(n, 5));
  }

  /** An IINST line stores the number printed in it. */
  lemma IinstLine(n: nat, tail: string)
    requires n < Pow10(3)
    ensures Parse("IINST " + Padded(n, 3) + tail) == Some(Reading(Iinst, n))
  {
    TenThousands();
    var line := "IINST " + Padded(n, 3) + tail;
    assert line[..5] == "IINST";
    assert line[0] != 'B' && line[0] != 'P';
    assert line[6..9] == Padded(n, 3);
    PaddedDenotes(n, 3);
    AtoiOfDigits(Padded(n, 3));
  }

  // ---------------------------------------------------------------- the text of a report

  const MSG_SIZE := 64

  /** `snprintf`: at most size - 1 bytes. */
  function Snprintf(size: nat, text: string): string
    requires size > 0
  {
    if |text| < size then text else text[..size - 1]
  }

  /** It keeps all of a text that leaves room for the terminator, and as much as does of a longer one. */
  lemma SnprintfExact(size: nat, text: string)
    requires size > 0
    ensures |Snprintf(size, text)| == (if |text| + 1 <= size then |text| else size - 1) && Snprintf(size, text) <= text
  {
  }

  function FullText(index: nat, rep: Report): string {
    "PAPP" + Dec(index) + ":" + Dec(rep.papp) + ";BASE" + Dec(index) + ":" + Dec(rep.base) +
    ";IINST" + Dec(index) + ":" + Dec(rep.iinst) + ";"
  }

  /** The text written into the message buffer. */
  function ReportText(index: nat, rep: Report): string {
    Snprintf(MSG_SIZE, FullText(index, rep))
  }

  ghost predicate Typed(rep: Report) {
    -0x8000 <= rep.papp <= 0x7FFF && -0x8000 <= rep.iinst <= 0x7FFF && -0x8000_0000 <= rep.base <= 0x7FFF_FFFF
  }

  lemma DecLength(n: int, k: nat)
    requires k > 1
    ensures |Dec(n)| <= k <==> 0 - Pow10(k - 1) < n < Pow10(k)
  {
    if n < 0 {
      DigitsLength(-n, k - 1);
    } else {
      DigitsLength(n, k);
    }
  }

  lemma MorePowers()
    ensures Pow10(4) == 10_000 && Pow10(6) == 1_000_000
    ensures Pow10(10) == 10_000_000_000 && Pow10(11) == 100_000_000_000
  {
    TenThousands();
    assert Pow10(4) == 10 * Pow10(3);
    assert Pow10(6) == 10 * Pow10(5);
    assert Pow10(10) == 10 * Pow10(9);
    assert Pow10(11) == 10 * Pow10(10);
  }

  lemma IndexLength(index: nat)
    requires index < 256
    ensures |Dec(index)| <= 3 && (|Dec(index)| <= 1 <==> index < 10)
  {
    TenThousands();
    DecLength(index, 3);
    DigitsLength(index, 1);
    assert Pow10(1) == 10 * Pow10(0);
  }

  /** Whatever the fields hold, a report is at most 45 bytes with a one-digit index and 51 with
      any other, so it is never truncated, and a one-digit index never draws the size warning. */
  lemma ReportBound(index: nat, rep: Report)
    requires index < 256 && Typed(rep)
    ensures |FullText(index, rep)| <= 51
    ensures index < 10 ==> |FullText(index, rep)| <= 45
    ensures ReportText(index, rep) == FullText(index, rep)
  {
    TenThousands();
    MorePowers();
    IndexLength(index);
    DecLength(rep.papp, 6);
    DecLength(rep.iinst, 6);
    DecLength(rep.base, 11);
  }

  /** Both bounds are reached. */
  lemma ReportBoundTight()
    ensures var widest := Report(-0x8000, -0x8000_0000, -0x8000);
            |FullText(1, widest)| == 45 && |FullText(255, widest)| == 51
  {
    TenThousands();
    MorePowers();
    DecLength(-0x8000, 5);
    DecLength(-0x8000, 6);
    DecLength(-0x8000_0000, 10);
    DecLength(-0x8000_0000, 11);
    DigitsLength(1, 1);
    DigitsLength(255, 2);
    DigitsLength(255, 3);
    assert Pow10(2) == 10 * Pow10(1) == 100;
  }

  /** The readings of a line have the width of the field they were cut from. */
  lemma ReadingRange(line: string)
    requires Parse(line).Some?
    ensures var x := Parse(line).value;
            match x.tag
            case Base => 0 - Pow10(8) < x.value < Pow10(9)
            case Papp => -0x8000 <= x.value <= 0x7FFF
            case Iinst => 0 - Pow10(2) < x.value < Pow10(3)
  {
    TenThousands();
    match Parse(line).value.tag {
      case Base => AtoiBound(line[5..14]);
      case Papp =>
      case Iinst => AtoiBound(line[6..9]);
    }
  }
}
