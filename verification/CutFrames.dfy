/** A frame that was cut off on the serial line and is followed by good frames: what is still read,
    and what the decoder makes of a record that two frames were merged into. */
module CutFrames {
  import opened Text
  import opened Scanner
  import opened Decoder
  import opened Frames
  import opened Gateway
  import Hex

  /** The first t bytes of a printed frame. */
  function Cut(f: Frame, t: nat): string
    requires Valid(f) && t <= |Printed(f)|
  {
    Printed(f)[..t]
  }

  lemma CutShape(f: Frame, t: nat)
    requires Valid(f) && t <= |Printed(f)|
    ensures |Printed(f)| == |RawOf(f)| + 3
    ensures Cut(f, t) == "" || Cut(f, t)[0] == '<'
    ensures 0 < t < |Printed(f)| - 1 ==> Cut(f, t) == "<" + RawOf(f)[..t - 1]
    ensures t == |Printed(f)| - 1 ==> Cut(f, t) == "<" + RawOf(f) + ">"
  {
    PrintedIsTagged(f);
  }

  lemma NoTagInside(raw: string, s: string, i: nat)
    requires '<' !in raw && 0 < i
    requires s == "<" + raw || s == "<" + raw + ">"
    ensures !HeadAt(s, i)
  {
    if i + |HEAD| <= |s| {
      assert s[i] == s[i..i + |HEAD|][0];
      assert s[i] == '>' || s[i] == raw[i - 1];
      assert HEAD[0] == '<';
    }
  }

  /** What is left of the frame is harmless noise if and only if the cut falls before the end of
      its tag or takes only the final newline. */
  lemma CutIsNoise(f: Frame, t: nat)
    requires Valid(f) && t < |Printed(f)|
    ensures Barren(Cut(f, t)) <==> t < |HEAD| || t == |Printed(f)| - 1
  {
    var raw, s := RawOf(f), Cut(f, t);
    CutShape(f, t);
    RawWellFormed(f);
    if t == |Printed(f)| - 1 {
      EndlessTag(raw, s);
    } else if t >= |HEAD| {
      OpenTag(raw, s, t);
    }
  }

  /** A tag whose end has no newline after it is noise. */
  lemma EndlessTag(raw: string, s: string)
    requires WellFormed(raw) && '<' !in raw && s == "<" + raw + ">"
    ensures Barren(s)
  {
    assert FailsAt(s, 0, |raw| + 1) by {
      assert forall k | 0 < k <= |raw| :: s[k] == raw[k - 1];
    }
    forall i: nat | HeadAt(s, i) ensures exists g: nat :: FailsAt(s, i, g) {
      if i > 0 { NoTagInside(raw, s, i); }
    }
  }

  /** A tag that nothing closes is no noise. */
  lemma OpenTag(raw: string, s: string, t: nat)
    requires WellFormed(raw) && |HEAD| <= t <= |raw| + 1 && s == "<" + raw[..t - 1]
    ensures !Barren(s)
  {
    assert s[..|HEAD|] == "<" + raw[..|HEAD| - 1];
    assert s[0..|HEAD|] == HEAD;
    assert HeadAt(s, 0);
    forall g: nat ensures !FailsAt(s, 0, g) {
      if 0 < g < |s| { assert s[g] == raw[g - 1]; }
    }
  }

  /** After a harmless cut every good frame is read exactly. */
  lemma HarmlessCut(lead: string, f: Frame, t: nat, ss: seq<Sent>)
    requires Barren(lead) && Valid(f) && ValidStream(ss)
    requires t < |HEAD| || t == |Printed(f)| - 1
    requires t < |Printed(f)|
    ensures Raws(Pieces(lead + Cut(f, t) + Stream(ss))) == RawsOf(ss)
  {
    CutIsNoise(f, t);
    CutShape(f, t);
    BarrenAppend(lead, Cut(f, t));
    PiecesOfStream(lead + Cut(f, t), ss);
  }

  // ---------------------------------------------------------------- merged records

  /** The record made of the first u bytes of one frame and the whole of the next. */
  function Merged(f: Frame, u: nat, g: Frame): string
    requires Valid(f) && Valid(g) && u <= |RawOf(f)|
  {
    RawOf(f)[..u] + ("<" + RawOf(g))
  }

  lemma MergedWellFormed(f: Frame, u: nat, g: Frame)
    requires Valid(f) && Valid(g) && |HEAD| - 1 <= u <= |RawOf(f)|
    ensures WellFormed(Merged(f, u, g))
  {
    RawWellFormed(f);
    RawWellFormed(g);
    assert Merged(f, u, g)[..|HEAD| - 1] == RawOf(f)[..|HEAD| - 1];
  }

  lemma MergedText(lead: string, cut: string, raw: string, after: string, rest: string)
    ensures lead + ("<" + cut) + (("<" + (raw + ">\n")) + after + rest)
         == lead + "<" + ((cut + ("<" + raw)) + ">\n" + (after + rest))
  {
  }

  lemma FrameThenStream(lead: string, raw: string, after: string, later: seq<Sent>)
    requires Barren(lead) && Barren(after) && WellFormed(raw) && ValidStream(later)
    ensures Raws(Pieces(lead + "<" + (raw + ">\n" + (after + Stream(later))))) == [raw] + RawsOf(later)
  {
    FirstPiece(lead, raw, after + Stream(later));
    PiecesOfStream(after, later);
    RawsFirst(Piece(lead, raw), Pieces(after + Stream(later)));
  }

  lemma MergingText(lead: string, f: Frame, t: nat, ss: seq<Sent>)
    requires Valid(f) && ValidStream(ss) && ss != []
    requires |HEAD| <= t < |Printed(f)| - 1
    ensures t - 1 <= |RawOf(f)|
    ensures lead + Cut(f, t) + Stream(ss)
         == lead + "<" + (Merged(f, t - 1, ss[0].frame) + ">\n" + (ss[0].after + Stream(ss[1..])))
  {
    CutShape(f, t);
    PrintedIsTagged(ss[0].frame);
    MergedText(lead, RawOf(f)[..t - 1], RawOf(ss[0].frame), ss[0].after, Stream(ss[1..]));
  }

  /** After any other cut the first good frame is merged into one record with what is left of the
      cut one, and every later frame is read exactly. */
  lemma MergingCut(lead: string, f: Frame, t: nat, ss: seq<Sent>)
    requires Barren(lead) && Valid(f) && ValidStream(ss) && ss != []
    requires |HEAD| <= t < |Printed(f)| - 1
    ensures t - 1 <= |RawOf(f)|
    ensures Raws(Pieces(lead + Cut(f, t) + Stream(ss)))
         == [Merged(f, t - 1, ss[0].frame)] + RawsOf(ss[1..])
  {
    CutShape(f, t);
    MergingText(lead, f, t, ss);
    MergedWellFormed(f, t - 1, ss[0].frame);
    FrameThenStream(lead, Merged(f, t - 1, ss[0].frame), ss[0].after, ss[1..]);
  }

  // ---------------------------------------------------------------- any bytes before good frames

  lemma MergeEnd(r: string, raw: string, rest: string, i: nat, j: nat)
    requires WellFormed(raw) && Find(r).None? && i < |r|
    requires MatchAt(r + "<" + (raw + ">\n" + rest), i, j)
    ensures j == |r| + |raw| + 3
  {
    var s := r + "<" + (raw + ">\n" + rest);
    HeadInside(r, raw + ">\n" + rest, i);
    assert forall k | 0 <= k < |r| :: s[k] == r[k];
    assert forall k | |r| < k <= |r| + |raw| :: s[k] == raw[k - |r| - 1] != '>';
    assert s[|r|] == '<' && s[|r| + 1 + |raw|] == '>';
    FindIsLeftmost(r);
    assert !MatchAt(r, i, j);
  }

  lemma SwallowedText(r: string, raw: string, rest: string, i: nat)
    requires i < |r|
    ensures var s := r + "<" + (raw + ">\n" + rest);
            s[..i] == r[..i] && s[i + 1..|r| + |raw| + 1] == r[i + 1..] + "<" + raw && s[|r| + |raw| + 3..] == rest
  {
  }

  lemma FirstMatchInside(r: string, raw: string, rest: string) returns (i: nat)
    requires WellFormed(raw) && Find(r).None? && !Barren(r)
    ensures i < |r| && HeadAt(r, i)
    ensures Find(r + "<" + (raw + ">\n" + rest)) == Some(Span(i, |r| + |raw| + 3))
  {
    var s := r + "<" + (raw + ">\n" + rest);
    EarlierMatch(r, raw, rest);
    FindIsLeftmost(s);
    i := Find(s).value.start;
    MergeEnd(r, raw, rest, i, Find(s).value.end);
    HeadInside(r, raw + ">\n" + rest, i);
  }

  lemma PieceAt(s: string, m: Span, skipped: string, raw: string, rest: string)
    requires Find(s) == Some(m)
    requires s[..m.start] == skipped && s[m.start + 1..m.end - 2] == raw && s[m.end..] == rest
    ensures Pieces(s) == [Piece(skipped, raw)] + Pieces(rest)
  {
    Unfold(s);
  }

  /** Bytes that hold no match, but a tag that can still be closed, swallow the frame after them. */
  lemma FrameSwallowed(r: string, raw: string, rest: string) returns (i: nat)
    requires WellFormed(raw) && Find(r).None? && !Barren(r)
    ensures i < |r| && HeadAt(r, i)
    ensures Pieces(r + "<" + (raw + ">\n" + rest)) == [Piece(r[..i], r[i + 1..] + "<" + raw)] + Pieces(rest)
  {
    i := FirstMatchInside(r, raw, rest);
    SwallowedText(r, raw, rest, i);
    PieceAt(r + "<" + (raw + ">\n" + rest), Span(i, |r| + |raw| + 3), r[..i], r[i + 1..] + "<" + raw, rest);
  }

  /** What the frames of a stream become after a rest in which nothing was found: exactly themselves
      if and only if the rest is barren, and otherwise all but the first, which is merged with what
      follows a tag of the rest. */
  ghost predicate OneLostAtMost(rest: string, raws: seq<string>, ss: seq<Sent>)
    requires ValidStream(ss)
  {
    if Barren(rest) then raws == RawsOf(ss)
    else if ss == [] then raws == []
    else exists i: nat :: i < |rest| && HeadAt(rest, i)
                          && raws == [rest[i + 1..] + "<" + RawOf(ss[0].frame)] + RawsOf(ss[1..])
  }

  lemma RestThenStream(r: string, ss: seq<Sent>)
    requires Find(r).None? && ValidStream(ss)
    ensures OneLostAtMost(r, Raws(Pieces(r + Stream(ss))), ss)
  {
    if Barren(r) {
      PiecesOfStream(r, ss);
    } else if ss == [] {
      assert r + Stream(ss) == r;
      Unfold(r);
    } else {
      var raw, after, later := RawOf(ss[0].frame), ss[0].after, ss[1..];
      StreamHead(r, ss);
      RawWellFormed(ss[0].frame);
      var i := FrameSwallowed(r, raw, after + Stream(later));
      PiecesOfStream(after, later);
      RawsFirst(Piece(r[..i], r[i + 1..] + "<" + raw), Pieces(after + Stream(later)));
    }
  }

  lemma RawsAppend(ps: seq<Piece>, qs: seq<Piece>)
    ensures Raws(ps + qs) == Raws(ps) + Raws(qs)
  {
  }

  /** After any bytes at all, the frames of a stream are found behind those of the bytes, and at most
      the first one is lost. */
  lemma AnyBytesThenStream(lead: string, ss: seq<Sent>)
    requires ValidStream(ss)
    ensures exists raws :: Raws(Pieces(lead + Stream(ss))) == Raws(Pieces(lead)) + raws
                           && OneLostAtMost(Rest(lead), raws, ss)
  {
    PiecesAppend(lead, Stream(ss));
    RawsAppend(Pieces(lead), Pieces(Rest(lead) + Stream(ss)));
    RestThenStream(Rest(lead), ss);
  }

  // ---------------------------------------------------------------- what a merged record says

  /** No part of the text, split at semicolons, begins with P. */
  ghost predicate NoPStart(s: string) {
    && (s != "" ==> s[0] != 'P')
    && forall i | 0 <= i < |s| - 1 :: s[i] == ';' ==> s[i + 1] != 'P'
  }

  lemma {:induction false} PartsDoNotStartWithP(s: string)
    requires NoPStart(s)
    ensures forall i | 0 <= i < |Split(s, ';')| :: Split(s, ';')[i] != "" ==> Split(s, ';')[i][0] != 'P'
    decreases |s|
  {
    if s != "" {
      var c, rest := s[0], s[1..];
      assert s == [c] + rest;
      SplitCons(c, rest, ';');
      if c == ';' {
        assert NoPStart(rest);
        PartsDoNotStartWithP(rest);
      } else {
        LaterParts(rest);
      }
    }
  }

  lemma {:induction false} LaterParts(s: string)
    requires forall i | 0 <= i < |s| - 1 :: s[i] == ';' ==> s[i + 1] != 'P'
    ensures forall i | 0 < i < |Split(s, ';')| :: Split(s, ';')[i] != "" ==> Split(s, ';')[i][0] != 'P'
    decreases |s|
  {
    if s != "" {
      var c, rest := s[0], s[1..];
      assert s == [c] + rest;
      SplitCons(c, rest, ';');
      LaterParts(rest);
      if c == ';' {
        assert NoPStart(rest);
        PartsDoNotStartWithP(rest);
      }
    }
  }

  lemma PayloadOnlyFromP(h: Header, pair: string)
    requires pair != "" ==> pair[0] != 'P'
    ensures Field(h, pair).payload == h.payload
  {
    var z := Split(pair, '=');
    if |z| == 2 {
      assert Join(z, '=') == z[0] + ['='] + Join(z[1..], '=');
      assert z[0] != "" ==> pair[0] == z[0][0];
    }
  }

  lemma {:induction false} PayloadKept(h: Header, pairs: seq<string>)
    requires forall i | 0 <= i < |pairs| :: pairs[i] != "" ==> pairs[i][0] != 'P'
    ensures Fields(h, pairs).payload == h.payload
  {
    if pairs != [] {
      PayloadKept(h, pairs[..|pairs| - 1]);
      PayloadOnlyFromP(Fields(h, pairs[..|pairs| - 1]), pairs[|pairs| - 1]);
    }
  }

  lemma HeaderTextNoPStart(f: Frame)
    requires Valid(f)
    ensures NoPStart(HeaderText(f))
  {
    HeaderFieldsHaveNo(f, ';');
    var fs := HeaderFields(f);
    HeaderTextIsJoined(f);
    assert ';' !in fs[0] && ';' !in fs[1] && ';' !in fs[2];
    assert Join(fs[2..], ';') == fs[2];
    assert fs[1..][1..] == fs[2..];
    JoinNoPStart(fs[1], fs[2]);
    JoinNoPStart(fs[0], Join(fs[1..], ';'));
  }

  lemma JoinNoPStart(part: string, rest: string)
    requires ';' !in part && part != "" && part[0] != 'P'
    requires NoPStart(rest) || ';' !in rest
    requires rest != "" && rest[0] != 'P'
    ensures NoPStart(part + [';'] + rest)
  {
  }

  /** The three fields at the end of a record set all but the payload. */
  lemma RecordTail(text: string, g: Frame)
    requires Valid(g)
    ensures var h := Fields(NO_HEADER, Split(text, ';'));
            Fields(NO_HEADER, Split(text + ";" + HeaderText(g), ';')) == Header(h.payload, g.source, g.lqi, g.rssi)
  {
    SplitConcat(text, ';', HeaderText(g));
    SplitHeader(g);
    FieldsAppend(NO_HEADER, Split(text, ';'), HeaderFields(g));
    HeaderRead(Fields(NO_HEADER, Split(text, ';')), g);
  }

  lemma ThreeParts(a: string, b: string, c: string)
    ensures |Split(a + "=" + b + "=" + c, '=')| >= 3
  {
    SplitConcat(a + "=" + b, '=', c);
    SplitConcat(a, '=', b);
  }

  /** A field with two payload tags has two equal signs, so the decoder ignores it. */
  lemma TwoTagsIgnored(h: Header, left: string, hex: string)
    ensures Field(h, "PAYLOAD=" + left + "<" + ("PAYLOAD=" + hex)) == h
  {
    var pair := "PAYLOAD=" + left + "<" + ("PAYLOAD=" + hex);
    assert pair == "PAYLOAD" + "=" + (left + "<PAYLOAD") + "=" + hex by {
      assert "PAYLOAD=" == "PAYLOAD" + "=";
      assert "<" + "PAYLOAD" == "<PAYLOAD";
    }
    ThreeParts("PAYLOAD", left + "<PAYLOAD", hex);
  }

  lemma EmptyPayload()
    ensures Entries(map[], Split("", ';')) == map[]
  {
    assert [""][..0] == [];
    assert Split("", ';') == [""];
    assert Split("", ':') == [""];
  }

  lemma PayloadTag(f: Frame, u: nat)
    requires Valid(f) && |HEAD| - 1 <= u <= |HeadField(f)|
    ensures HeadField(f)[..u] == "PAYLOAD=" + Hex.Encode(f.payload)[..u - (|HEAD| - 1)]
  {
  }

  lemma MergedInPayload(left: string, header: string, field: string, text: string, u: nat)
    requires u <= |left|
    ensures (left + ";" + header)[..u] + ("<" + (field + ";" + text)) == (left[..u] + "<" + field) + ";" + text
  {
  }

  /** If the cut fell within the hex payload, the merged record has no payload: the header is the
      second frame's, and the metrics are empty. */
  lemma CutInPayload(f: Frame, u: nat, g: Frame)
    requires Valid(f) && Valid(g)
    requires |HEAD| - 1 <= u <= |HeadField(f)|
    ensures u <= |RawOf(f)|
    ensures Decode(Merged(f, u, g)) == Decoded(Header("", g.source, g.lqi, g.rssi), map[])
  {
    var first := HeadField(f)[..u] + "<" + HeadField(g);
    MergedInPayload(HeadField(f), HeaderText(f), HeadField(g), HeaderText(g), u);
    HeadFieldHasNo(f, ';');
    HeadFieldHasNo(g, ';');
    SplitWhole(first, ';');
    FieldsOne(NO_HEADER, first);
    PayloadTag(f, u);
    TwoTagsIgnored(NO_HEADER, Hex.Encode(f.payload)[..u - (|HEAD| - 1)], Hex.Encode(g.payload));
    RecordTail(first, g);
    EmptyPayload();
  }

  /** A record made of a whole payload field, part of a header run into another payload tag, and the
      fields of a text: the payload is the first one, and the rest is what the text sets. */
  lemma RunInFields(head: string, header: string, x: nat, field: string, text: string) returns (h1: Header)
    requires ';' !in head && ';' !in field
    requires x <= |header| && NoPStart(header)
    ensures h1.payload == Field(NO_HEADER, head).payload
    ensures Fields(NO_HEADER, Split((head + ";" + header)[..|head| + 1 + x] + ("<" + (field + ";" + text)), ';'))
         == Fields(h1, Split(text, ';'))
  {
    var middle := header[..x] + "<" + field;
    MergedInHeader(head, header, x, field, text);
    MiddleNoPStart(header, x, field);
    PartsDoNotStartWithP(middle);
    SplitConcat(head + ";" + middle, ';', text);
    SplitFirst(head, ';', middle);
    FieldsAppend(NO_HEADER, Split(head + ";" + middle, ';'), Split(text, ';'));
    FieldsAppend(NO_HEADER, [head], Split(middle, ';'));
    FieldsOne(NO_HEADER, head);
    PayloadKept(Field(NO_HEADER, head), Split(middle, ';'));
    h1 := Fields(Field(NO_HEADER, head), Split(middle, ';'));
  }

  lemma FieldsOfMerged(f: Frame, u: nat, g: Frame) returns (h1: Header)
    requires Valid(f) && Valid(g)
    requires |HeadField(f)| < u <= |RawOf(f)|
    ensures h1.payload == Hex.Encode(f.payload)
    ensures Fields(NO_HEADER, Split(Merged(f, u, g), ';')) == Fields(h1, HeaderFields(g))
  {
    HeadFieldHasNo(f, ';');
    HeadFieldHasNo(g, ';');
    HeaderTextNoPStart(f);
    h1 := RunInFields(HeadField(f), HeaderText(f), u - |HeadField(f)| - 1, HeadField(g), HeaderText(g));
    HeadFieldRead(NO_HEADER, f);
    SplitHeader(g);
  }

  /** If it fell after the semicolon that follows the payload, the merged record joins the first
      frame's payload and metrics to the second frame's address, LQI and RSSI. */
  lemma CutInHeader(f: Frame, u: nat, g: Frame)
    requires Valid(f) && Valid(g)
    requires |HeadField(f)| < u <= |RawOf(f)|
    ensures Decode(Merged(f, u, g)) == Content(Frame(f.payload, g.source, g.lqi, g.rssi))
  {
    var h1 := FieldsOfMerged(f, u, g);
    HeaderRead(h1, g);
    Hex.DecodeEncode(f.payload);
  }

  lemma MergedInHeader(head: string, header: string, x: nat, field: string, text: string)
    requires x <= |header|
    ensures (head + ";" + header)[..|head| + 1 + x] + ("<" + (field + ";" + text))
         == (head + ";" + (header[..x] + "<" + field)) + ";" + text
  {
    assert (head + ";" + header)[..|head| + 1 + x] == head + ";" + header[..x];
  }

  lemma MiddleNoPStart(header: string, x: nat, field: string)
    requires x <= |header| && NoPStart(header) && ';' !in field
    ensures NoPStart(header[..x] + "<" + field)
  {
  }
}
