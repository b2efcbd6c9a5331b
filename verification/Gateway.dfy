/** From printed frames to decoded packets: the printer of the gateway board, the scanner and the
    decoder together. */
module Gateway {
  import opened Text
  import opened Scanner
  import opened Decoder
  import opened Frames
  import Hex
  import Pktdump

  /** A packet as the radio delivers it: the payload snip, then the interface header. */
  datatype Frame = Frame(payload: string, source: string, lqi: nat, rssi: int)

  /** Payloads of any bytes that the printer can count, header fields of their C types, and a source
      address in hex and colons. */
  ghost predicate Valid(f: Frame) {
    && Bytes(f.payload) && |f.payload| <= 255
    && f.lqi < 256 && -0x8000 <= f.rssi <= 0x7FFF
    && '>' !in f.source && ';' !in f.source && '=' !in f.source && '<' !in f.source
  }

  function Snips(f: Frame): Pktdump.Snip {
    Pktdump.Undef(f.payload, Pktdump.Netif(f.source, f.lqi, f.rssi, Pktdump.End))
  }

  function Printed(f: Frame): string
    requires Valid(f)
  {
    Pktdump.FrameText(Snips(f))
  }

  function HeadField(f: Frame): string
    requires Valid(f)
  {
    "PAYLOAD=" + Hex.Encode(f.payload)
  }

  function HeaderFields(f: Frame): seq<string> {
    ["SMAC=" + f.source, "LQI=" + Dec(f.lqi), "RSSI=" + Dec(f.rssi)]
  }

  function HeaderText(f: Frame): string {
    Pktdump.HeaderText(f.source, f.lqi, f.rssi)
  }

  /** What stands between the tags of a printed frame. */
  function RawOf(f: Frame): string
    requires Valid(f)
  {
    HeadField(f) + ";" + HeaderText(f)
  }

  lemma PrintedIsTagged(f: Frame)
    requires Valid(f)
    ensures Printed(f) == "<" + (RawOf(f) + ">\n")
  {
    var netif := Snips(f).next;
    assert Pktdump.SnipsText(netif.next) == "";
    assert Pktdump.SnipsText(netif) == HeaderText(f);
    TagOpens(Hex.Encode(f.payload), HeaderText(f));
  }

  lemma TagOpens(hex: string, header: string)
    ensures "<PAYLOAD=" + (hex + ";" + header) + ">\n" == "<" + (("PAYLOAD=" + hex) + ";" + header + ">\n")
  {
    assert "<PAYLOAD=" == "<" + "PAYLOAD=";
  }

  lemma EncodeHasNo(bytes: string, c: char)
    requires Bytes(bytes)
    requires !('0' <= c <= '9') && !('A' <= c <= 'F')
    ensures c !in Hex.Encode(bytes)
  {
  }

  lemma HeadFieldHasNo(f: Frame, c: char)
    requires Valid(f) && (c == '>' || c == ';' || c == '<')
    ensures c !in HeadField(f)
  {
    EncodeHasNo(f.payload, c);
  }

  lemma HeaderFieldsHaveNo(f: Frame, c: char)
    requires Valid(f) && (c == '>' || c == ';' || c == '<')
    ensures Without(HeaderFields(f), c)
  {
    DecChars(f.lqi, c);
    DecChars(f.rssi, c);
  }

  lemma HeaderTextIsJoined(f: Frame)
    ensures HeaderText(f) == Join(HeaderFields(f), ';')
  {
    var fs := HeaderFields(f);
    assert Join(fs[2..], ';') == fs[2];
    assert fs[1..][1..] == fs[2..];
    assert Join(fs[1..], ';') == fs[1] + ";" + fs[2];
    assert Join(fs, ';') == fs[0] + ";" + (fs[1] + ";" + fs[2]);
  }

  lemma RawWellFormed(f: Frame)
    requires Valid(f)
    ensures WellFormed(RawOf(f)) && '<' !in RawOf(f)
  {
    HeadFieldHasNo(f, '>');
    HeadFieldHasNo(f, '<');
    HeaderFieldsHaveNo(f, '>');
    HeaderFieldsHaveNo(f, '<');
    JoinHasNo(HeaderFields(f), ';', '>');
    JoinHasNo(HeaderFields(f), ';', '<');
    HeaderTextIsJoined(f);
    TagKept(Hex.Encode(f.payload), ";" + HeaderText(f));
    assert RawOf(f) == HeadField(f) + (";" + HeaderText(f));
  }

  lemma TagKept(hex: string, rest: string)
    ensures ("PAYLOAD=" + hex + rest)[..|HEAD| - 1] == HEAD[1..]
  {
    assert ("PAYLOAD=" + hex + rest)[..8] == "PAYLOAD=" == HEAD[1..];
  }

  // ---------------------------------------------------------------- one frame

  lemma SplitHeader(f: Frame)
    requires Valid(f)
    ensures Split(HeaderText(f), ';') == HeaderFields(f)
  {
    HeaderFieldsHaveNo(f, ';');
    HeaderTextIsJoined(f);
    SplitUnique(HeaderFields(f), ';');
  }

  lemma HeadFieldRead(h: Header, f: Frame)
    requires Valid(f)
    ensures Field(h, HeadField(f)) == h.(payload := Hex.Encode(f.payload))
  {
    EncodeHasNo(f.payload, '=');
    PairSplit("PAYLOAD", '=', Hex.Encode(f.payload));
    assert HeadField(f) == "PAYLOAD" + ['='] + Hex.Encode(f.payload);
  }

  lemma NamedFieldsRead(h: Header, f: Frame)
    requires Valid(f)
    ensures Field(h, "SMAC=" + f.source) == h.(smac := f.source)
    ensures Field(h, "LQI=" + Dec(f.lqi)) == h.(lqi := f.lqi)
    ensures Field(h, "RSSI=" + Dec(f.rssi)) == h.(rssi := f.rssi)
  {
    DecChars(f.lqi, '=');
    DecChars(f.rssi, '=');
    ParseIntOfDec(f.lqi);
    ParseIntOfDec(f.rssi);
    PairSplit("SMAC", '=', f.source);
    PairSplit("LQI", '=', Dec(f.lqi));
    PairSplit("RSSI", '=', Dec(f.rssi));
    assert "SMAC=" + f.source == "SMAC" + ['='] + f.source;
    assert "LQI=" + Dec(f.lqi) == "LQI" + ['='] + Dec(f.lqi);
    assert "RSSI=" + Dec(f.rssi) == "RSSI" + ['='] + Dec(f.rssi);
  }

  lemma FieldsOne(h: Header, a: string)
    ensures Fields(h, [a]) == Field(h, a)
  {
    assert [a][..0] == [];
  }

  /** The three fields after the payload set the address, the LQI and the RSSI, whatever they were. */
  lemma HeaderRead(h: Header, f: Frame)
    requires Valid(f)
    ensures Fields(h, HeaderFields(f)) == Header(h.payload, f.source, f.lqi, f.rssi)
  {
    var fs := HeaderFields(f);
    var h1 := Field(h, fs[0]);
    var h2 := Field(h1, fs[1]);
    NamedFieldsRead(h, f);
    NamedFieldsRead(h1, f);
    NamedFieldsRead(h2, f);
    FieldsOne(h, fs[0]);
    assert fs[..1] == [fs[0]] && fs[..2][..1] == fs[..1] && fs[..2][1] == fs[1];
    assert Fields(h, fs[..2]) == h2;
    assert fs[..3] == fs;
  }

  /** What the decoder must return for a frame. */
  function Content(f: Frame): Decoded {
    Decoded(Header(f.payload, f.source, f.lqi, f.rssi), Entries(map[], Split(f.payload, ';')))
  }

  /** Hex transparency: for every payload, whatever its bytes, decoding a printed frame gives back
      the payload, the address, the LQI and the RSSI. */
  lemma DecodeOfPrinted(f: Frame)
    requires Valid(f)
    ensures Decode(RawOf(f)) == Content(f)
  {
    HeadFieldHasNo(f, ';');
    SplitFirst(HeadField(f), ';', HeaderText(f));
    SplitHeader(f);
    FieldsAppend(NO_HEADER, [HeadField(f)], HeaderFields(f));
    FieldsOne(NO_HEADER, HeadField(f));
    HeadFieldRead(NO_HEADER, f);
    HeaderRead(Field(NO_HEADER, HeadField(f)), f);
    Hex.DecodeEncode(f.payload);
  }

  /** A record whose payload is no hex text: the decoder keeps the text, reads the header, and makes no
      metrics. */
  lemma DecodeOfBadHex(bad: string, f: Frame)
    requires Valid(f) && ';' !in bad && '=' !in bad
    requires |bad| % 2 == 1 || exists i :: 0 <= i < |bad| && Hex.NibbleVal(bad[i]).None?
    ensures Decode("PAYLOAD=" + bad + ";" + HeaderText(f)) == Decoded(Header(bad, f.source, f.lqi, f.rssi), map[])
  {
    var field := "PAYLOAD=" + bad;
    SplitFirst(field, ';', HeaderText(f));
    SplitHeader(f);
    FieldsAppend(NO_HEADER, [field], HeaderFields(f));
    FieldsOne(NO_HEADER, field);
    PairSplit("PAYLOAD", '=', bad);
    assert field == "PAYLOAD" + ['='] + bad;
    HeaderRead(Field(NO_HEADER, field), f);
    Hex.DecodeAccepts(bad);
  }

  // ---------------------------------------------------------------- a stream of frames

  /** A frame on the serial line and the bytes after it. */
  datatype Sent = Sent(frame: Frame, after: string)

  ghost predicate ValidStream(ss: seq<Sent>) {
    forall i | 0 <= i < |ss| :: Valid(ss[i].frame) && Barren(ss[i].after)
  }

  function Stream(ss: seq<Sent>): string
    requires ValidStream(ss)
  {
    if ss == [] then "" else Printed(ss[0].frame) + ss[0].after + Stream(ss[1..])
  }

  function RawsOf(ss: seq<Sent>): (rs: seq<string>)
    requires ValidStream(ss)
    ensures |rs| == |ss|
    ensures forall i | 0 <= i < |ss| :: rs[i] == RawOf(ss[i].frame)
  {
    seq(|ss|, i requires 0 <= i < |ss| => RawOf(ss[i].frame))
  }

  lemma StreamHead(lead: string, ss: seq<Sent>)
    requires ValidStream(ss) && ss != []
    ensures var f := ss[0].frame;
            lead + Stream(ss) == lead + "<" + (RawOf(f) + ">\n" + (ss[0].after + Stream(ss[1..])))
  {
    PrintedIsTagged(ss[0].frame);
    Rebracket(lead, RawOf(ss[0].frame) + ">\n", ss[0].after, Stream(ss[1..]));
  }

  lemma Rebracket(lead: string, body: string, after: string, rest: string)
    ensures lead + (("<" + body) + after + rest) == lead + "<" + (body + (after + rest))
  {
  }

  lemma RawsFirst(p: Piece, ps: seq<Piece>)
    ensures Raws([p] + ps) == [p.raw] + Raws(ps)
  {
  }

  lemma RawsOfFirst(ss: seq<Sent>)
    requires ValidStream(ss) && ss != []
    ensures RawsOf(ss) == [RawOf(ss[0].frame)] + RawsOf(ss[1..])
  {
    var all, later := RawsOf(ss), RawsOf(ss[1..]);
    forall i | 0 <= i < |later| ensures all[i + 1] == later[i] {
      assert ss[1..][i] == ss[i + 1];
    }
    FirstAndRest(all, later);
  }

  lemma FirstAndRest(all: seq<string>, later: seq<string>)
    requires |all| == |later| + 1
    requires forall i | 0 <= i < |later| :: all[i + 1] == later[i]
    ensures all == [all[0]] + later
  {
  }

  lemma StreamPieces(lead: string, ss: seq<Sent>)
    requires Barren(lead) && ValidStream(ss) && ss != []
    ensures Pieces(lead + Stream(ss)) == [Piece(lead, RawOf(ss[0].frame))] + Pieces(ss[0].after + Stream(ss[1..]))
  {
    StreamHead(lead, ss);
    RawWellFormed(ss[0].frame);
    FirstPiece(lead, RawOf(ss[0].frame), ss[0].after + Stream(ss[1..]));
  }

  /** Every frame of a stream is found, in order, and nothing else. */
  lemma {:induction false} PiecesOfStream(lead: string, ss: seq<Sent>)
    requires Barren(lead) && ValidStream(ss)
    ensures Raws(Pieces(lead + Stream(ss))) == RawsOf(ss)
    decreases |ss|
  {
    if ss == [] {
      assert lead + Stream(ss) == lead;
      NothingInNoise(lead);
    } else {
      var after, later := ss[0].after, ss[1..];
      StreamPieces(lead, ss);
      PiecesOfStream(after, later);
      RawsFirst(Piece(lead, RawOf(ss[0].frame)), Pieces(after + Stream(later)));
      RawsOfFirst(ss);
    }
  }

  /** The buffer's first byte does not disturb. */
  lemma NulLead(lead: string)
    requires Barren(lead)
    ensures Barren("\0" + lead)
  {
    var s := "\0" + lead;
    forall i: nat | HeadAt(s, i) ensures exists g: nat :: FailsAt(s, i, g) {
      assert s[0] != '<' && s[i] == s[i..i + |HEAD|][0];
      var k: nat := i - 1;
      assert lead[k..k + |HEAD|] == s[i..i + |HEAD|];
      assert HeadAt(lead, k);
      var g: nat :| FailsAt(lead, k, g);
      FailsMoves("\0", lead, k, g);
    }
  }

  /** The frames in the whole input of a gateway that is sent a stream. */
  lemma PiecesOfInput(lead: string, ss: seq<Sent>)
    requires Barren(lead) && ValidStream(ss)
    ensures Raws(Pieces("\0" + (lead + Stream(ss)))) == RawsOf(ss)
  {
    NulLead(lead);
    PiecesOfStream("\0" + lead, ss);
    Regroup("\0", lead, Stream(ss));
  }

  /** Whatever part of a stream has been read, and however it was cut into reads, the packets handed
      over are the first ones of the stream, and each decodes to what was printed. */
  lemma MultiFrameRoundTrip(lead: string, ss: seq<Sent>, chunks: seq<string>, more: string)
    requires Barren(lead) && ValidStream(ss)
    requires Concat(chunks) + more == lead + Stream(ss)
    ensures Raws(Run(chunks).sent) <= RawsOf(ss)
    ensures forall i | 0 <= i < |Run(chunks).sent| :: Decode(Run(chunks).sent[i].raw) == Content(ss[i].frame)
  {
    SentIsPrefix(chunks, more);
    Regroup("\0", Concat(chunks), more);
    PiecesOfInput(lead, ss);
    PrefixDecodes(Run(chunks).sent, Pieces("\0" + (lead + Stream(ss))), ss);
  }

  lemma PrefixDecodes(sent: seq<Piece>, all: seq<Piece>, ss: seq<Sent>)
    requires ValidStream(ss) && sent <= all && Raws(all) == RawsOf(ss)
    ensures Raws(sent) <= RawsOf(ss)
    ensures forall i | 0 <= i < |sent| :: Decode(sent[i].raw) == Content(ss[i].frame)
  {
    forall i | 0 <= i < |sent| ensures sent[i].raw == RawOf(ss[i].frame) {
      assert sent[i] == all[i];
      assert Raws(all)[i] == RawsOf(ss)[i];
    }
    forall i | 0 <= i < |sent| ensures Decode(sent[i].raw) == Content(ss[i].frame) {
      DecodeOfPrinted(ss[i].frame);
    }
  }

  lemma FramesInInput(lead: string, ss: seq<Sent>)
    requires Barren(lead) && ValidStream(ss)
    ensures |Pieces("\0" + (lead + Stream(ss)))| == |ss|
  {
    PiecesOfInput(lead, ss);
    assert |Raws(Pieces("\0" + (lead + Stream(ss))))| == |RawsOf(ss)|;
  }

  lemma CompleteOfStream(lead: string, ss: seq<Sent>, chunks: seq<string>)
    requires Barren(lead) && ValidStream(ss)
    requires Concat(chunks) == lead + Stream(ss)
    ensures Complete(chunks, |chunks|) == |ss|
  {
    FramesInInput(lead, ss);
    CompleteAfterAll(chunks);
  }

  /** Once the whole stream was read, as many further non-empty reads as there are frames, whatever
      they hold, hand over every frame of it, in order, and each decodes to what was printed. */
  lemma {:induction false} AllFramesArrive(lead: string, ss: seq<Sent>, chunks: seq<string>, extra: seq<string>)
    requires Barren(lead) && ValidStream(ss)
    requires Concat(chunks) == lead + Stream(ss)
    requires AllNonEmpty(chunks) && AllNonEmpty(extra) && |extra| >= |ss|
    ensures Complete(chunks, |chunks|) == |ss|
    ensures |Run(chunks + extra).sent| >= |ss|
    ensures forall i | 0 <= i < |ss| ::
              var raw := Run(chunks + extra).sent[i].raw;
              raw == RawOf(ss[i].frame) && Decode(raw) == Content(ss[i].frame)
  {
    CompleteOfStream(lead, ss, chunks);
    EnoughReads(chunks, extra);
    assert (chunks + extra)[..|chunks + extra|] == chunks + extra;
    FramesInInput(lead, ss);
    HandedOverFirst(chunks, extra);
    PiecesOfInput(lead, ss);
    PrefixFrames(Pieces(Input(chunks)), Run(chunks + extra).sent, ss);
  }

  lemma PrefixFrames(first: seq<Piece>, sent: seq<Piece>, ss: seq<Sent>)
    requires ValidStream(ss) && first <= sent && Raws(first) == RawsOf(ss)
    ensures |ss| <= |sent|
    ensures forall i | 0 <= i < |ss| ::
              sent[i].raw == RawOf(ss[i].frame) && Decode(sent[i].raw) == Content(ss[i].frame)
  {
    assert |first| == |Raws(first)| == |ss|;
    PrefixDecodes(first, first, ss);
    forall i | 0 <= i < |ss|
      ensures sent[i].raw == RawOf(ss[i].frame) && Decode(sent[i].raw) == Content(ss[i].frame)
    {
      assert sent[i] == first[i] && Raws(first)[i] == RawsOf(ss)[i];
    }
  }
}
