/** What the report machine reads of a meter's frame: the lines of three labels, and nothing of the
    other lines that every frame holds. */
module MeterFrames {
  import opened Text
  import opened MeterReport

  // ---------------------------------------------------------------- which lines hold a reading

  /** A line of another label, or too short for its own, is no reading, and no other line is passed
      over. */
  lemma ReadExactly(line: string)
    ensures Parse(line).None? <==>
              && !("BASE" <= line && |line| >= 14)
              && !("PAPP" <= line && |line| >= 10)
              && !("IINST" <= line && |line| >= 9)
    ensures Parse(line).Some? && Parse(line).value.tag == Base ==> "BASE" <= line
    ensures Parse(line).Some? && Parse(line).value.tag == Papp ==> "PAPP" <= line
    ensures Parse(line).Some? && Parse(line).value.tag == Iinst ==> "IINST" <= line
  {
  }

  /** The columns that are read, whatever they and the byte before them hold. */
  lemma ColumnsRead(sep: char, nine: string, five: string, three: string, tail: string)
    requires |nine| == 9 && |five| == 5 && |three| == 3
    ensures Parse("BASE" + [sep] + nine + tail) == Some(Reading(Base, Atoi(nine)))
    ensures Parse("PAPP" + [sep] + five + tail) == Some(Reading(Papp, Int16(Atoi(five))))
    ensures Parse("IINST" + [sep] + three + tail) == Some(Reading(Iinst, Int16(Atoi(three))))
  {
    Columns("BASE", sep, nine, tail);
    Columns("PAPP", sep, five, tail);
    Columns("IINST", sep, three, tail);
  }

  lemma Columns(name: string, sep: char, field: string, tail: string)
    ensures var line := name + [sep] + field + tail;
            && name <= line && |line| >= |name| + 1 + |field|
            && line[|name| + 1..|name| + 1 + |field|] == field
            && (name != "" ==> line[0] == name[0])
  {
  }

  /** A value that does not fit 16 bits loses multiples of 65536 and nothing else. */
  lemma Int16Wraps(x: int)
    ensures (x - Int16(x)) % 0x1_0000 == 0
  {
  }

  /** The other lines of a meter. */
  lemma OtherMeterLines()
    ensures Parse("MOTDETAT 000000 B").None? && Parse("ADCO 031028256512 :").None?
    ensures Parse("OPTARIF BASE 0").None? && Parse("ISOUSC 30 9").None?
    ensures Parse("PTEC TH.. $").None? && Parse("IMAX 037 I").None?
  {
    assert "MOTDETAT 000000 B"[0] == 'M' && "ADCO 031028256512 :"[0] == 'A' && "OPTARIF BASE 0"[0] == 'O';
    assert "ISOUSC 30 9"[1] == 'S' && "PTEC TH.. $"[1] == 'T' && "IMAX 037 I"[1] == 'M';
    assert "BASE"[0] == 'B' && "PAPP"[0] == 'P' && "PAPP"[1] == 'A' && "IINST"[0] == 'I' && "IINST"[1] == 'I';
  }

  // ---------------------------------------------------------------- frames

  /** A line of a frame: one of the three labels with a printed number, or any line without a reading. */
  datatype FrameLine =
    | Total(base: nat, tail: string)
    | Power(papp: nat, tail: string)
    | Current(iinst: nat, tail: string)
    | Unread(text: string)

  ghost predicate ValidLine(x: FrameLine) {
    match x
    case Total(n, _) => n < 1_000_000_000
    case Power(n, _) => n < 100_000
    case Current(n, _) => n < 1000
    case Unread(text) => !("BASE" <= text) && !("PAPP" <= text) && !("IINST" <= text)
  }

  function LineText(x: FrameLine): string {
    match x
    case Total(n, tail) => "BASE " + Padded(n, 9) + tail
    case Power(n, tail) => "PAPP " + Padded(n, 5) + tail
    case Current(n, tail) => "IINST " + Padded(n, 3) + tail
    case Unread(text) => text
  }

  /** The number printed in a line, as the field of its type holds it. */
  function Printed(x: FrameLine): seq<Reading> {
    match x
    case Total(n, _) => [Reading(Base, n)]
    case Power(n, _) => [Reading(Papp, Int16(n))]
    case Current(n, _) => [Reading(Iinst, n)]
    case Unread(_) => []
  }

  function Lines(xs: seq<FrameLine>): (lines: seq<string>)
    ensures |lines| == |xs| && forall i | 0 <= i < |xs| :: lines[i] == LineText(xs[i])
  {
    seq(|xs|, i requires 0 <= i < |xs| => LineText(xs[i]))
  }

  function AllPrinted(xs: seq<FrameLine>): seq<Reading> {
    if xs == [] then [] else AllPrinted(xs[..|xs| - 1]) + Printed(xs[|xs| - 1])
  }

  lemma LineReading(x: FrameLine)
    requires ValidLine(x)
    ensures ReadingsOf(LineText(x)) == Printed(x)
  {
    TenThousands();
    match x {
      case Total(n, tail) => BaseLine(n, tail);
      case Power(n, tail) => PappLine(n, tail);
      case Current(n, tail) => IinstLine(n, tail);
      case Unread(text) => ReadExactly(text);
    }
  }

  /** A frame holds the readings printed in it, in order, and no others. */
  lemma {:induction false} FrameReadings(xs: seq<FrameLine>)
    requires forall i | 0 <= i < |xs| :: ValidLine(xs[i])
    ensures Readings(Lines(xs)) == AllPrinted(xs)
  {
    if xs != [] {
      var init := xs[..|xs| - 1];
      FrameReadings(init);
      LineReading(xs[|xs| - 1]);
      assert Lines(xs)[..|xs| - 1] == Lines(init);
    }
  }

  // ---------------------------------------------------------------- the report of a frame

  lemma FewIncomplete(h: seq<Reading>)
    requires |h| < 3
    ensures !Complete(h)
  {
    if |h| == 1 {
      assert h == [h[0]];
      LatestSingle(h[0], Base);
      LatestSingle(h[0], Papp);
    } else if |h| == 2 {
      assert h == [h[0], h[1]];
      TwoTagsIncomplete(h[0], h[1], if h[0].tag != Base && h[1].tag != Base then Base
                                    else if h[0].tag != Papp && h[1].tag != Papp then Papp else Iinst);
    }
  }

  lemma ThreeComplete(h: seq<Reading>)
    requires |h| == 3 && Complete(h)
    ensures forall i | 0 <= i < 3 :: Sent(ReportOf(h), h[i].tag) == h[i].value
  {
    assert h == [h[0], h[1], h[2]];
    LatestOfThree(h[0], h[1], h[2], Base);
    LatestOfThree(h[0], h[1], h[2], Papp);
    LatestOfThree(h[0], h[1], h[2], Iinst);
  }

  /** Lines with one reading of each kind call for one report, wherever the readings stand. */
  lemma {:induction false} OneReport(lines: seq<string>)
    requires |Readings(lines)| < 3 || (|Readings(lines)| == 3 && Complete(Readings(lines)))
    ensures |Readings(lines)| < 3 ==> Since([], lines) == Readings(lines) && Demanded([], lines) == []
    ensures |Readings(lines)| == 3 ==> Since([], lines) == [] && Demanded([], lines) == [ReportOf(Readings(lines))]
  {
    if lines != [] {
      var init, x := lines[..|lines| - 1], ReadingsOf(lines[|lines| - 1]);
      if x == [] { assert Readings(init) + x == Readings(init); }
      OneReport(init);
      FewIncomplete([]);
      if |Readings(lines)| < 3 { FewIncomplete(Readings(lines)); }
    }
  }

  /** A meter's frame, with one line of each of the three labels and any other lines before, between
      and after them, in any order: from a clean start it makes exactly one report, with the three
      numbers printed. */
  lemma FrameReport(xs: seq<FrameLine>)
    requires forall i | 0 <= i < |xs| :: ValidLine(xs[i])
    requires |AllPrinted(xs)| == 3 && Complete(AllPrinted(xs))
    ensures Completed(CLEARED, Lines(xs)) == [ReportOf(AllPrinted(xs))]
    ensures forall i | 0 <= i < 3 :: Sent(ReportOf(AllPrinted(xs)), AllPrinted(xs)[i].tag) == AllPrinted(xs)[i].value
  {
    FrameReadings(xs);
    OneReport(Lines(xs));
    ThreeComplete(AllPrinted(xs));
    ClearedAbstractsNothing(CLEARED);
    CompletedIsDemanded(CLEARED, [], Lines(xs));
  }
}
