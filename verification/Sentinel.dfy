/** The older form of the report machine (mote-sensors/mote-teleinfo/main.c, processor_thread and
    the session resets of main): instead of bits, -1 marks a value that was not read yet. */
module Sentinel {
  import opened Text
  import opened MeterReport

  datatype Fields = Fields(papp: int, iinst: int, base: int)

  /** What main stores before each session, and what a report leaves behind. */
  const UNREAD := Fields(-1, -1, -1)
  const ZEROED := Fields(0, 0, 0)

  function FieldOf(f: Fields, tag: Tag): int {
    match tag case Base => f.base case Papp => f.papp case Iinst => f.iinst
  }

  function Store(f: Fields, line: string): Fields {
    match Parse(line)
    case Some(Reading(Base, v)) => f.(base := v)
    case Some(Reading(Papp, v)) => f.(papp := v)
    case Some(Reading(Iinst, v)) => f.(iinst := v)
    case None => f
  }

  function Process(f: Fields, line: string): (Fields, Option<Report>) {
    var f' := Store(f, line);
    if f'.papp >= 0 && f'.iinst >= 0 && f'.base >= 0 then (ZEROED, Some(Report(f'.papp, f'.base, f'.iinst)))
    else (f', None)
  }

  function Processed(f: Fields, lines: seq<string>): Fields {
    if lines == [] then f else Process(Processed(f, lines[..|lines| - 1]), lines[|lines| - 1]).0
  }

  function Produces(f: Fields, lines: seq<string>, k: nat): Option<Report>
    requires k < |lines|
  {
    Process(Processed(f, lines[..k]), lines[k]).1
  }

  // ---------------------------------------------------------------- agreement with the bits

  predicate NonNegative(rep: Report) { rep.papp >= 0 && rep.base >= 0 && rep.iinst >= 0 }

  /** As long as no report was due, -1 stands exactly where a bit is clear. */
  ghost predicate InStep(r: Results, f: Fields) {
    && r.state < 8
    && forall tag :: FieldOf(f, tag) == if Bit(r.state, tag) then Stored(r, tag) else -1
  }

  lemma StoreInStep(r: Results, f: Fields, line: string)
    requires InStep(r, f)
    ensures InStep(Accept(r, line), Store(f, line))
  {
    if Parse(line).Some? {
      var x := Parse(line).value;
      assert Accept(r, line).state == r.state | Mask(x.tag);
      forall tag
        ensures Bit(r.state | Mask(x.tag), tag) == (tag == x.tag || Bit(r.state, tag))
        ensures (r.state | Mask(x.tag)) < 8
        ensures Stored(Accept(r, line), tag) == if tag == x.tag then x.value else Stored(r, tag)
        ensures FieldOf(Store(f, line), tag) == if tag == x.tag then x.value else FieldOf(f, tag)
      {
        BitSet(r.state, x.tag, tag);
      }
    }
  }

  /** One line: the -1 machine reports when the bit machine does and no value is negative. */
  lemma ProcessInStep(r: Results, f: Fields, line: string)
    requires InStep(r, f)
    ensures var due := Step(r, line).1;
            && Process(f, line).1 == (if due.Some? && NonNegative(due.value) then due else None)
            && (due.None? ==> InStep(Step(r, line).0, Process(f, line).0))
  {
    StoreInStep(r, f, line);
    var r', f' := Accept(r, line), Store(f, line);
    FullMeansAllBits(r');
    assert FieldOf(f', Base) == f'.base && FieldOf(f', Papp) == f'.papp && FieldOf(f', Iinst) == f'.iinst;
  }

  lemma StartInStep()
    ensures InStep(CLEARED, UNREAD)
  {
  }

  lemma {:induction false} StaysInStep(lines: seq<string>)
    requires forall k | 0 <= k < |lines| :: Output(CLEARED, lines, k).None?
    ensures InStep(After(CLEARED, lines), Processed(UNREAD, lines))
    ensures forall k | 0 <= k < |lines| :: Produces(UNREAD, lines, k).None?
  {
    if lines == [] {
      StartInStep();
    } else {
      var n := |lines| - 1;
      var init := lines[..n];
      forall k | 0 <= k < n ensures Output(CLEARED, init, k).None? {
        assert init[..k] == lines[..k];
        assert Output(CLEARED, lines, k).None?;
      }
      StaysInStep(init);
      assert Output(CLEARED, lines, n).None?;
      ProcessInStep(After(CLEARED, init), Processed(UNREAD, init), lines[n]);
      forall k | 0 <= k < n ensures Produces(UNREAD, lines, k).None? {
        assert init[..k] == lines[..k];
        assert Produces(UNREAD, init, k).None?;
      }
    }
  }

  /** Up to the line on which the bit machine first reports, the -1 machine is silent; on that line
      it sends the same report if no value is negative, and nothing otherwise. */
  lemma FirstReportCompared(lines: seq<string>, n: nat)
    requires FirstAt(CLEARED, lines, n)
    ensures forall k | 0 <= k < n :: Produces(UNREAD, lines, k).None?
    ensures Produces(UNREAD, lines, n)
         == if NonNegative(Output(CLEARED, lines, n).value) then Output(CLEARED, lines, n) else None
  {
    var before := lines[..n];
    forall k | 0 <= k < n ensures Output(CLEARED, before, k).None? {
      assert before[..k] == lines[..k];
      assert Output(CLEARED, lines, k).None?;
    }
    StaysInStep(before);
    ProcessInStep(After(CLEARED, before), Processed(UNREAD, before), lines[n]);
    forall k | 0 <= k < n ensures Produces(UNREAD, lines, k).None? {
      assert before[..k] == lines[..k];
      assert Produces(UNREAD, before, k).None?;
    }
  }

  /** Line n makes the -1 machine send its first report of a session. */
  ghost predicate FirstSentAt(lines: seq<string>, n: nat) {
    && n < |lines|
    && (forall k | 0 <= k < n :: Produces(UNREAD, lines, k).None?)
    && Produces(UNREAD, lines, n).Some?
  }

  ghost predicate SameFirst(lines: seq<string>) {
    forall n: nat :: (FirstAt(CLEARED, lines, n) <==> FirstSentAt(lines, n))
                     && (FirstSentAt(lines, n) ==> Produces(UNREAD, lines, n) == Output(CLEARED, lines, n))
  }

  /** Line n is the one by which all three tags were first read. */
  ghost predicate FirstComplete(lines: seq<string>, n: nat) {
    && n < |lines|
    && (forall k | 0 <= k <= n :: !Complete(Readings(lines[..k])))
    && Complete(Readings(lines[..n + 1]))
  }

  /** While nothing was due, a report is due exactly when the readings so far are complete. */
  lemma DueWhenComplete(lines: seq<string>, n: nat)
    requires n < |lines|
    requires forall k | 0 <= k < n :: Output(CLEARED, lines, k).None?
    ensures var own := Readings(lines[..n + 1]);
            Output(CLEARED, lines, n) == if Complete(own) then Some(ReportOf(own)) else None
  {
    CleanSession(CLEARED, CLEARED, lines);
    forall k | 0 <= k < n ensures Expected([], lines, k).None? {
      assert Output(CLEARED, lines, k).None?;
    }
    SilentPrefix([], lines, n);
    ReadingsGrow(lines, n);
    assert [] + Readings(lines[..n]) == Readings(lines[..n]);
  }

  lemma {:induction false} FirstExists(lines: seq<string>, k: nat) returns (n: nat)
    requires k < |lines| && Output(CLEARED, lines, k).Some?
    ensures n <= k && FirstAt(CLEARED, lines, n)
  {
    if j: nat :| j < k && Output(CLEARED, lines, j).Some? {
      n := FirstExists(lines, j);
    } else {
      n := k;
    }
  }

  lemma SilentWhileIncomplete(lines: seq<string>, n: nat)
    requires n <= |lines|
    requires forall k | 0 <= k <= n :: !Complete(Readings(lines[..k]))
    ensures forall k | 0 <= k < n :: Output(CLEARED, lines, k).None?
  {
    if k: nat :| k < n && Output(CLEARED, lines, k).Some? {
      var m := FirstExists(lines, k);
      DueWhenComplete(lines, m);
    }
  }

  lemma IncompleteWhileSilent(lines: seq<string>, n: nat)
    requires n <= |lines|
    requires forall k | 0 <= k < n :: Output(CLEARED, lines, k).None?
    ensures forall k | 0 <= k <= n :: !Complete(Readings(lines[..k]))
  {
    forall k | 0 <= k <= n ensures !Complete(Readings(lines[..k])) {
      if k > 0 {
        DueWhenComplete(lines, k - 1);
        assert Output(CLEARED, lines, k - 1).None?;
      }
    }
  }

  /** The bit machine's first report of a clean session, told from the lines alone. */
  lemma FirstIsComplete(lines: seq<string>, n: nat)
    ensures FirstAt(CLEARED, lines, n) <==> FirstComplete(lines, n)
    ensures FirstAt(CLEARED, lines, n) ==> Output(CLEARED, lines, n) == Some(ReportOf(Readings(lines[..n + 1])))
  {
    if FirstAt(CLEARED, lines, n) {
      IncompleteWhileSilent(lines, n);
      DueWhenComplete(lines, n);
    }
    if FirstComplete(lines, n) {
      SilentWhileIncomplete(lines, n);
      DueWhenComplete(lines, n);
    }
  }

  /** The last value of each tag that was read is not negative. */
  ghost predicate LatestSound(h: seq<Reading>) {
    forall tag | Has(h, tag) :: Latest(h, tag).value >= 0
  }

  lemma FirstReportSound(lines: seq<string>, n: nat)
    requires FirstAt(CLEARED, lines, n)
    ensures FirstComplete(lines, n)
    ensures NonNegative(Output(CLEARED, lines, n).value) <==> LatestSound(Readings(lines[..n + 1]))
  {
    FirstIsComplete(lines, n);
    var own := Readings(lines[..n + 1]);
    assert NonNegative(ReportOf(own)) <==>
      Latest(own, Base).value >= 0 && Latest(own, Papp).value >= 0 && Latest(own, Iinst).value >= 0;
  }

  /** The two forms send the same first report on the same line, or neither sends one, if and only
      if, by the line with which all three tags have been read, the last value of none is negative. */
  lemma SentinelAgrees(lines: seq<string>)
    ensures SameFirst(lines)
       <==> forall n: nat | FirstComplete(lines, n) :: LatestSound(Readings(lines[..n + 1]))
  {
    AgreesWhenSent(lines);
    forall n: nat ensures FirstAt(CLEARED, lines, n) <==> FirstComplete(lines, n) {
      FirstIsComplete(lines, n);
    }
    forall n: nat | FirstAt(CLEARED, lines, n)
      ensures NonNegative(Output(CLEARED, lines, n).value) <==> LatestSound(Readings(lines[..n + 1]))
    {
      FirstReportSound(lines, n);
    }
  }

  lemma AgreesWhenSent(lines: seq<string>)
    ensures SameFirst(lines)
       <==> forall n: nat | FirstAt(CLEARED, lines, n) :: NonNegative(Output(CLEARED, lines, n).value)
  {
    forall n: nat | FirstAt(CLEARED, lines, n)
      ensures FirstSentAt(lines, n) <==> NonNegative(Output(CLEARED, lines, n).value)
      ensures FirstSentAt(lines, n) ==> Produces(UNREAD, lines, n) == Output(CLEARED, lines, n)
    {
      FirstReportCompared(lines, n);
    }
    if forall n: nat | FirstAt(CLEARED, lines, n) :: NonNegative(Output(CLEARED, lines, n).value) {
      forall n: nat | FirstSentAt(lines, n) ensures FirstAt(CLEARED, lines, n) {
        SentHasCause(lines, n);
      }
    }
  }

  lemma SentHasCause(lines: seq<string>, n: nat)
    requires FirstSentAt(lines, n)
    requires forall m: nat | FirstAt(CLEARED, lines, m) :: NonNegative(Output(CLEARED, lines, m).value)
    ensures FirstAt(CLEARED, lines, n)
  {
    if forall k | 0 <= k <= n :: Output(CLEARED, lines, k).None? {
      SilentUpTo(lines, n);
    } else {
      var k: nat :| k <= n && Output(CLEARED, lines, k).Some?;
      var m := FirstExists(lines, k);
      FirstReportCompared(lines, m);
      assert Produces(UNREAD, lines, m).Some?;
    }
  }

  lemma SilentUpTo(lines: seq<string>, n: nat)
    requires n < |lines|
    requires forall k | 0 <= k <= n :: Output(CLEARED, lines, k).None?
    ensures Produces(UNREAD, lines, n).None?
  {
    var upTo := lines[..n + 1];
    forall k | 0 <= k < |upTo| ensures Output(CLEARED, upTo, k).None? {
      assert upTo[..k] == lines[..k];
      assert Output(CLEARED, lines, k).None?;
    }
    StaysInStep(upTo);
    assert upTo[..n] == lines[..n];
    assert Produces(UNREAD, upTo, n).None?;
  }

  /** No line of the session stores a negative value. */
  ghost predicate NoNegativeReading(lines: seq<string>) {
    forall i | 0 <= i < |lines| :: Parse(lines[i]).Some? ==> Parse(lines[i]).value.value >= 0
  }

  lemma {:induction false} LatestOfLines(lines: seq<string>, tag: Tag)
    requires NoNegativeReading(lines) && Has(Readings(lines), tag)
    ensures Latest(Readings(lines), tag).value >= 0
  {
    var n := |lines| - 1;
    var x := ReadingsOf(lines[n]);
    LatestAppend(Readings(lines[..n]), x, tag);
    if x != [] { LatestSingle(x[0], tag); }
    if !Has(x, tag) { LatestOfLines(lines[..n], tag); }
  }

  /** In particular they agree on every session whose lines store no negative value. */
  lemma SentinelAgreesOnMeters(lines: seq<string>)
    requires NoNegativeReading(lines)
    ensures SameFirst(lines)
  {
    SentinelAgrees(lines);
    forall n: nat | FirstComplete(lines, n) ensures LatestSound(Readings(lines[..n + 1])) {
      var own := Readings(lines[..n + 1]);
      forall tag | Has(own, tag) ensures Latest(own, tag).value >= 0 {
        LatestOfLines(lines[..n + 1], tag);
      }
    }
  }

  // ---------------------------------------------------------------- an apparent power too large for its field

  /** The powers of five digits that a signed field of 16 bits holds as negative numbers. */
  predicate WrapsNegative(p: nat) { 32768 <= p <= 65535 || 98304 <= p }

  lemma Int16Sign(p: nat)
    requires p < 100_000
    ensures Int16(p) < 0 <==> WrapsNegative(p)
  {
  }

  lemma ThreeReadings(lines: seq<string>, b: int, p: int, i: int)
    requires |lines| == 3
    requires Parse(lines[0]) == Some(Reading(Base, b)) && Parse(lines[1]) == Some(Reading(Papp, p))
    requires Parse(lines[2]) == Some(Reading(Iinst, i))
    ensures Readings(lines[..0]) == [] && Readings(lines[..1]) == [Reading(Base, b)]
    ensures Readings(lines[..2]) == [Reading(Base, b), Reading(Papp, p)]
    ensures Readings(lines[..3]) == [Reading(Base, b), Reading(Papp, p), Reading(Iinst, i)]
  {
    ReadingsGrow(lines, 0);
    ReadingsGrow(lines, 1);
    ReadingsGrow(lines, 2);
  }

  lemma ThirdCompletes(b: int, p: int, i: int)
    ensures var h := [Reading(Base, b), Reading(Papp, p), Reading(Iinst, i)];
            && Complete(h) && !Complete([]) && !Complete(h[..1]) && !Complete(h[..2])
            && Latest(h, Base) == Some(b) && Latest(h, Papp) == Some(p) && Latest(h, Iinst) == Some(i)
  {
    var base, papp, iinst := Reading(Base, b), Reading(Papp, p), Reading(Iinst, i);
    var h := [base, papp, iinst];
    LatestOfThree(base, papp, iinst, Base);
    LatestOfThree(base, papp, iinst, Papp);
    LatestOfThree(base, papp, iinst, Iinst);
    TwoTagsIncomplete(base, papp, Iinst);
    assert h[..2] == [base, papp] && h[..1] == [base];
  }

  lemma ThreeLinesAgree(lines: seq<string>, b: nat, p: int, i: nat)
    requires |lines| == 3
    requires Parse(lines[0]) == Some(Reading(Base, b)) && Parse(lines[1]) == Some(Reading(Papp, p))
    requires Parse(lines[2]) == Some(Reading(Iinst, i))
    ensures SameFirst(lines) <==> p >= 0
  {
    ThreeReadings(lines, b, p, i);
    ThirdCompletes(b, p, i);
    var h := Readings(lines[..3]);
    assert h[..1] == Readings(lines[..1]) && h[..2] == Readings(lines[..2]);
    SentinelAgrees(lines);
    assert FirstComplete(lines, 2);
    forall n: nat | FirstComplete(lines, n) ensures n == 2 {
    }
    assert LatestSound(Readings(lines[..2 + 1])) <==> Latest(h, Papp).value >= 0;
  }

  /** On the three lines of a meter the two forms agree exactly when the power does not wrap to a
      negative number; when it does, the -1 form waits for another PAPP line. */
  lemma PappWraps(b: nat, p: nat, i: nat)
    requires b < 1_000_000_000 && p < 100_000 && i < 1000
    ensures SameFirst(["BASE " + Padded(b, 9) + "", "PAPP " + Padded(p, 5) + "", "IINST " + Padded(i, 3) + ""])
       <==> !WrapsNegative(p)
  {
    TenThousands();
    BaseLine(b, "");
    PappLine(p, "");
    IinstLine(i, "");
    Int16Sign(p);
    ThreeLinesAgree(["BASE " + Padded(b, 9) + "", "PAPP " + Padded(p, 5) + "", "IINST " + Padded(i, 3) + ""],
                    b, Int16(p), i);
  }

  // ---------------------------------------------------------------- lines after a report

  predicate StoresNegative(line: string) {
    Parse(line).Some? && Parse(line).value.value < 0
  }

  /** A line handled while the fields are zero, as a report leaves them, makes the -1 machine report
      again unless it stores a negative value; the bit machine never does. */
  lemma RepeatsAfterReport(line: string)
    ensures Process(ZEROED, line).1.Some? <==> !StoresNegative(line)
    ensures Process(ZEROED, line).1.Some? ==> Process(ZEROED, line).0 == ZEROED
    ensures Parse(line).None? ==> Process(ZEROED, line) == (ZEROED, Some(Report(0, 0, 0)))
    ensures Step(CLEARED, line).1.None?
  {
    if Parse(line).Some? {
      var x := Parse(line).value;
      assert Accept(CLEARED, line).state == Mask(x.tag) by { assert CLEARED.state | Mask(x.tag) == Mask(x.tag); }
    }
  }

  // ---------------------------------------------------------------- what is sent

  function ProcessorText(index: nat, rep: Report): string {
    "PAPP" + Dec(index) + ":" + Dec(rep.papp) + ";BASE" + Dec(index) + ":" + Dec(rep.base) +
    ";IINST" + Dec(index) + ":" + Dec(rep.iinst)
  }
}
