/** Line assembly (mote-devboard/apps/node-teleinfo/teleinfo.c, teleinfo_rx_cb and the drain of
    teleinfo_run): received bytes go into a ring buffer, and a newline makes the thread take all of it. */
module Uart {
  import opened Text
  import opened MeterReport

  const UART_BUFSIZE := 128

  /** Messages that the queue of a thread holds: `msg_queue[8]` of each one. */
  const QUEUE_SIZE := 8

  /** `ringbuffer_add_one`: when the ring is full the oldest byte is lost. */
  function AddOne(ring: string, c: char): (r: string)
    ensures |ring| <= UART_BUFSIZE ==> |r| <= UART_BUFSIZE
  {
    if |ring| < UART_BUFSIZE then ring + [c] else ring[1..] + [c]
  }

  /** `data & 0x7F`. */
  function SevenBits(data: nat): char
    requires data < 256
  {
    (data % 128) as char
  }

  /** The bytes that mean something: printable text and newlines. */
  predicate Kept(data: nat)
    requires data < 256
  {
    SevenBits(data) == '\n' || SevenBits(data) >= ' '
  }

  type byte = b: nat | b < 256

  function KeptText(bytes: seq<byte>): string {
    if bytes == [] then ""
    else
      var last := bytes[|bytes| - 1];
      KeptText(bytes[..|bytes| - 1]) + (if Kept(last) then [SevenBits(last)] else "")
  }

  // ---------------------------------------------------------------- the eighth bit

  /** The eighth bit, which carries parity on the line, is dropped, and the others are kept. */
  lemma ParityDropped(data: nat)
    requires data < 128
    ensures SevenBits(data) == SevenBits(data + 128) == data as char
    ensures Kept(data) == Kept(data + 128) == (data == 10 || data >= 32)
  {
  }

  /** Bytes of seven bits, with an eighth bit on some of them. */
  function WithParity(bytes: seq<byte>, bits: seq<bool>): (sent: seq<byte>)
    requires |bits| == |bytes| && forall i | 0 <= i < |bytes| :: bytes[i] < 128
    ensures |sent| == |bytes|
    ensures forall i | 0 <= i < |bytes| :: sent[i] == if bits[i] then bytes[i] + 128 else bytes[i]
  {
    seq(|bytes|, i requires 0 <= i < |bytes| => if bits[i] then bytes[i] + 128 else bytes[i])
  }

  lemma ParityOfLast(bytes: seq<byte>, bits: seq<bool>)
    requires |bits| == |bytes| > 0 && forall i | 0 <= i < |bytes| :: bytes[i] < 128
    ensures var n := |bytes| - 1;
            && WithParity(bytes, bits)[..n] == WithParity(bytes[..n], bits[..n])
            && SevenBits(WithParity(bytes, bits)[n]) == SevenBits(bytes[n])
            && Kept(WithParity(bytes, bits)[n]) == Kept(bytes[n])
  {
    ParityDropped(bytes[|bytes| - 1]);
  }

  /** Whatever eighth bits are sent, the same text is received. */
  lemma {:induction false} SameText(bytes: seq<byte>, bits: seq<bool>)
    requires |bits| == |bytes| && forall i | 0 <= i < |bytes| :: bytes[i] < 128
    ensures KeptText(WithParity(bytes, bits)) == KeptText(bytes)
  {
    if bytes != [] {
      ParityOfLast(bytes, bits);
      SameText(bytes[..|bytes| - 1], bits[..|bytes| - 1]);
    }
  }

  // ---------------------------------------------------------------- with the thread keeping up

  /** The lines taken by the thread and the contents of the ring. */
  datatype Assembly = Assembly(lines: seq<string>, ring: string)

  /** One byte, with reception on and the thread draining the ring before the next one. */
  function Receive(a: Assembly, data: byte): Assembly {
    var c := SevenBits(data);
    if c == '\n' then Assembly(a.lines + [a.ring], "")
    else if c >= ' ' then a.(ring := AddOne(a.ring, c))
    else a
  }

  function Assemble(ring: string, bytes: seq<byte>): Assembly {
    if bytes == [] then Assembly([], ring)
    else Receive(Assemble(ring, bytes[..|bytes| - 1]), bytes[|bytes| - 1])
  }

  /** Whatever eighth bits are sent, the same lines are taken. */
  lemma {:induction false} SameLines(ring: string, bytes: seq<byte>, bits: seq<bool>)
    requires |bits| == |bytes| && forall i | 0 <= i < |bytes| :: bytes[i] < 128
    ensures Assemble(ring, WithParity(bytes, bits)) == Assemble(ring, bytes)
  {
    if bytes != [] {
      ParityOfLast(bytes, bits);
      SameLines(ring, bytes[..|bytes| - 1], bits[..|bytes| - 1]);
    }
  }

  /** What a ring can hold of a text. */
  function LastBytes(s: string): string {
    if |s| <= UART_BUFSIZE then s else s[|s| - UART_BUFSIZE..]
  }

  /** The last 128 bytes, or all of a shorter text. */
  lemma LastBytesExact(s: string)
    ensures |LastBytes(s)| == if |s| <= 128 then |s| else 128
    ensures forall i | 0 <= i < |LastBytes(s)| :: LastBytes(s)[i] == s[|s| - |LastBytes(s)| + i]
  {
  }

  function LastOfEach(parts: seq<string>): (r: seq<string>)
    ensures |r| == |parts|
    ensures forall i | 0 <= i < |parts| :: r[i] == LastBytes(parts[i])
  {
    seq(|parts|, i requires 0 <= i < |parts| => LastBytes(parts[i]))
  }

  lemma AddOneKeepsLast(s: string, c: char)
    ensures AddOne(LastBytes(s), c) == LastBytes(s + [c])
  {
  }

  /** The parts of a text as finished lines and one that is not. */
  function Assembled(parts: seq<string>): Assembly
    requires parts != []
  {
    Assembly(LastOfEach(parts[..|parts| - 1]), LastBytes(parts[|parts| - 1]))
  }

  lemma FinishLine(parts: seq<string>)
    requires parts != []
    ensures Assembled(parts + [""]) == Assembly(Assembled(parts).lines + [Assembled(parts).ring], "")
  {
    assert (parts + [""])[..|parts|] == parts;
  }

  lemma ExtendLine(parts: seq<string>, last: string)
    requires parts != []
    ensures Assembled(parts[..|parts| - 1] + [last]) == Assembled(parts).(ring := LastBytes(last))
  {
    assert (parts[..|parts| - 1] + [last])[..|parts| - 1] == parts[..|parts| - 1];
  }

  lemma ReceiveSplits(text: string, data: byte)
    requires Kept(data)
    ensures Receive(Assembled(Split(text, '\n')), data) == Assembled(Split(text + [SevenBits(data)], '\n'))
  {
    var c := SevenBits(data);
    var parts := Split(text, '\n');
    SplitSnoc(text, '\n', c);
    if c == '\n' {
      FinishLine(parts);
    } else {
      AddOneKeepsLast(parts[|parts| - 1], c);
      ExtendLine(parts, parts[|parts| - 1] + [c]);
    }
  }

  /** Line assembly is splitting: the lines taken are the text between newlines, and the ring holds
      the line that is not finished, each cut to the size of the ring. */
  lemma {:induction false} AssemblyIsSplit(ring: string, bytes: seq<byte>)
    requires |ring| <= UART_BUFSIZE && '\n' !in ring
    ensures Assemble(ring, bytes) == Assembled(Split(ring + KeptText(bytes), '\n'))
  {
    if bytes == [] {
      SplitWhole(ring, '\n');
      assert ring + "" == ring;
    } else {
      var init, last := bytes[..|bytes| - 1], bytes[|bytes| - 1];
      AssemblyIsSplit(ring, init);
      if Kept(last) {
        ReceiveSplits(ring + KeptText(init), last);
        assert ring + KeptText(bytes) == ring + KeptText(init) + [SevenBits(last)];
      } else {
        assert KeptText(bytes) == KeptText(init) + "" == KeptText(init);
      }
    }
  }

  /** What the ring held before a session reaches its first line only; every later line is exactly
      the text received between two newlines. */
  lemma LaterLinesAreOwn(ring: string, bytes: seq<byte>)
    requires |ring| <= UART_BUFSIZE && '\n' !in ring
    ensures var own := Split(KeptText(bytes), '\n');
            var lines := Assemble(ring, bytes).lines;
            |lines| == |own| - 1 && forall i | 0 < i < |lines| :: lines[i] == LastBytes(own[i])
  {
    AssemblyIsSplit(ring, bytes);
    SplitPrefix(ring, '\n', KeptText(bytes));
  }

  /** A session that begins with an empty ring and no bit set reports nothing but what its own bytes
      say: line k of the received text completes the report that the readings since the last report
      call for. */
  lemma {:induction false} OwnSession(r: Results, bytes: seq<byte>)
    requires r.state == 0
    ensures var own := Split(KeptText(bytes), '\n');
            var lines := LastOfEach(own[..|own| - 1]);
            && Assemble("", bytes).lines == lines
            && forall k | 0 <= k < |lines| :: Output(r, lines, k) == Expected([], lines, k)
  {
    AssemblyIsSplit("", bytes);
    assert "" + KeptText(bytes) == KeptText(bytes);
    var own := Split(KeptText(bytes), '\n');
    CleanSession(r, r, LastOfEach(own[..|own| - 1]));
  }
}
