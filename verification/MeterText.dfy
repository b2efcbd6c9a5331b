/** The text that a meter sends, as bytes on the serial line. */
module MeterText {
  import opened Text
  import opened MeterReport
  import opened Uart

  ghost predicate Plain(text: string) {
    forall i | 0 <= i < |text| :: text[i] == '\n' || ' ' <= text[i] <= '~'
  }

  function Codes(text: string): (bytes: seq<byte>)
    requires Plain(text)
    ensures |bytes| == |text| && forall i | 0 <= i < |text| :: bytes[i] == text[i] as int
  {
    seq(|text|, i requires 0 <= i < |text| => text[i] as int)
  }

  lemma CodeKept(c: char)
    requires c == '\n' || ' ' <= c <= '~'
    ensures Kept(c as int) && SevenBits(c as int) == c
  {
  }

  lemma KeptTextSnoc(bytes: seq<byte>, data: byte)
    requires Kept(data)
    ensures KeptText(bytes + [data]) == KeptText(bytes) + [SevenBits(data)]
  {
    assert (bytes + [data])[..|bytes|] == bytes;
  }

  lemma {:induction false} CodesKept(text: string)
    requires Plain(text)
    ensures KeptText(Codes(text)) == text
  {
    if text != "" {
      var init, c := text[..|text| - 1], text[|text| - 1];
      CodesKept(init);
      CodeKept(c);
      KeptTextSnoc(Codes(init), c as int);
      assert Codes(text) == Codes(init) + [c as int];
      assert init + [c] == text;
    }
  }

  /** A line of a meter. */
  ghost predicate MeterLine(line: string) {
    Plain(line) && '\n' !in line && |line| <= UART_BUFSIZE
  }

  lemma ShortLine(name: string, digits: string)
    requires Plain(name) && '\n' !in name && AllDigits(digits) && |name| + |digits| <= UART_BUFSIZE
    ensures MeterLine(name + digits + "")
  {
  }

  lemma Lines(b: nat, p: nat, i: nat) returns (base: string, papp: string, iinst: string)
    requires b < 1_000_000_000 && p <= 32767 && i < 1000
    ensures MeterLine(base) && Parse(base) == Some(Reading(Base, b))
    ensures MeterLine(papp) && Parse(papp) == Some(Reading(Papp, p))
    ensures MeterLine(iinst) && Parse(iinst) == Some(Reading(Iinst, i))
  {
    TenThousands();
    PaddedDenotes(b, 9);
    PaddedDenotes(p, 5);
    PaddedDenotes(i, 3);
    base, papp, iinst := "BASE " + Padded(b, 9) + "", "PAPP " + Padded(p, 5) + "", "IINST " + Padded(i, 3) + "";
    ShortLine("BASE ", Padded(b, 9));
    ShortLine("PAPP ", Padded(p, 5));
    ShortLine("IINST ", Padded(i, 3));
    BaseLine(b, "");
    PappLine(p, "");
    IinstLine(i, "");
  }

  ghost predicate MeterLines(lines: seq<string>) {
    forall i | 0 <= i < |lines| :: MeterLine(lines[i])
  }

  /** Some whole lines, and the beginning of one more. */
  function TextOf(lines: seq<string>, open: string): string {
    if lines == [] then open else lines[0] + "\n" + TextOf(lines[1..], open)
  }

  lemma {:induction false} TextPlain(lines: seq<string>, open: string)
    requires MeterLines(lines) && Plain(open)
    ensures Plain(TextOf(lines, open))
  {
    if lines != [] {
      TextPlain(lines[1..], open);
      PlainAppend(lines[0], TextOf(lines[1..], open));
    }
  }

  lemma PlainAppend(a: string, b: string)
    requires Plain(a) && Plain(b)
    ensures Plain(a + "\n" + b)
  {
  }

  lemma {:induction false} SplitText(lines: seq<string>, open: string)
    requires MeterLines(lines) && '\n' !in open
    ensures Split(TextOf(lines, open), '\n') == lines + [open]
  {
    if lines == [] {
      SplitWhole(open, '\n');
      assert lines + [open] == [open];
    } else {
      assert MeterLine(lines[0]);
      SplitText(lines[1..], open);
      SplitFirst(lines[0], '\n', TextOf(lines[1..], open));
      assert [lines[0]] + (lines[1..] + [open]) == lines + [open];
    }
  }

  lemma LinesFit(lines: seq<string>)
    requires MeterLines(lines)
    ensures LastOfEach(lines) == lines
  {
    forall i | 0 <= i < |lines| ensures LastOfEach(lines)[i] == lines[i] {
      assert MeterLine(lines[i]);
    }
  }

  /** The lines taken from a ring that held something: it is put in front of the first one. */
  lemma AssembleText(ring: string, lines: seq<string>, open: string)
    requires |ring| <= UART_BUFSIZE && '\n' !in ring
    requires lines != [] && MeterLines(lines) && MeterLine(open)
    ensures Plain(TextOf(lines, open))
    ensures Assemble(ring, Codes(TextOf(lines, open))) == Assembly([LastBytes(ring + lines[0])] + lines[1..], open)
  {
    var text := TextOf(lines, open);
    TextPlain(lines, open);
    CodesKept(text);
    AssemblyIsSplit(ring, Codes(text));
    SplitText(lines, open);
    SplitPrefix(ring, '\n', text);
    RestFits(ring + lines[0], lines, open);
  }

  lemma RestFits(first: string, lines: seq<string>, open: string)
    requires lines != [] && MeterLines(lines) && MeterLine(open)
    ensures Assembled([first] + (lines + [open])[1..]) == Assembly([LastBytes(first)] + lines[1..], open)
  {
    var parts := [first] + (lines + [open])[1..];
    assert parts == ([first] + lines[1..]) + [open];
    assert parts[..|parts| - 1] == [first] + lines[1..];
    LinesFit(lines[1..]);
    assert LastOfEach([first] + lines[1..]) == [LastBytes(first)] + LastOfEach(lines[1..]);
  }

  /** The lines taken from an empty ring are the lines sent. */
  lemma WholeText(lines: seq<string>, open: string)
    requires lines != [] && MeterLines(lines) && MeterLine(open)
    ensures Plain(TextOf(lines, open))
    ensures Assemble("", Codes(TextOf(lines, open))) == Assembly(lines, open)
  {
    AssembleText("", lines, open);
    assert MeterLine(lines[0]);
    assert "" + lines[0] == lines[0];
    assert [lines[0]] + lines[1..] == lines;
  }

  /** The same when the line adds a parity bit to any of the bytes: whole lines are taken from an empty
      ring as they were sent. */
  lemma LinesWithParity(lines: seq<string>, open: string, bits: seq<bool>)
    requires lines != [] && MeterLines(lines) && MeterLine(open)
    requires |bits| == |TextOf(lines, open)|
    ensures Plain(TextOf(lines, open))
    ensures Assemble("", WithParity(Codes(TextOf(lines, open)), bits)) == Assembly(lines, open)
    ensures KeptText(WithParity(Codes(TextOf(lines, open)), bits)) == TextOf(lines, open)
  {
    WholeText(lines, open);
    var text := TextOf(lines, open);
    CodesKept(text);
    SameLines("", Codes(text), bits);
    SameText(Codes(text), bits);
  }
}
