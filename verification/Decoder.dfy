/** The packet decoder of the gateway (mote-gateway/soft/mote-gateway.go, decode_packet). */
module Decoder {
  import opened Text
  import Hex

  /** A metric. The text of TEMP and HUMI is kept: reading it as a float is not modelled. */
  datatype Value = Int(i: int) | Float(text: string)

  type DataMap = map<string, Value>

  /** The fields read from the outer level of a frame. */
  datatype Header = Header(payload: string, smac: string, lqi: int, rssi: int)

  const NO_HEADER := Header("", "", 0, 0)

  function Field(h: Header, pair: string): Header {
    var z := Split(pair, '=');
    if |z| != 2 then h
    else if z[0] == "PAYLOAD" then h.(payload := z[1])
    else if z[0] == "SMAC" then h.(smac := z[1])
    else if z[0] == "LQI" then h.(lqi := ParseInt(z[1]))
    else if z[0] == "RSSI" then h.(rssi := ParseInt(z[1]))
    else h
  }

  function Fields(h: Header, pairs: seq<string>): Header {
    if pairs == [] then h else Field(Fields(h, pairs[..|pairs| - 1]), pairs[|pairs| - 1])
  }

  function ValueOf(key: string, text: string): Value {
    if key == "TEMP" || key == "HUMI" then Float(text) else Int(ParseInt(text))
  }

  function Entry(m: DataMap, pair: string): DataMap {
    var z := Split(pair, ':');
    if |z| == 2 then m[z[0] := ValueOf(z[0], z[1])] else m
  }

  function Entries(m: DataMap, pairs: seq<string>): DataMap {
    if pairs == [] then m else Entry(Entries(m, pairs[..|pairs| - 1]), pairs[|pairs| - 1])
  }

  datatype Decoded = Decoded(header: Header, datamap: DataMap)

  /** The whole decoding, from the fields that the packet held before. */
  function DecodeFrom(before: Header, raw: string): Decoded {
    var h := Fields(before, Split(raw, ';'));
    match Hex.Decode(h.payload)
    case None => Decoded(h, map[])
    case Some(bytes) => Decoded(h.(payload := bytes), Entries(map[], Split(bytes, ';')))
  }

  function Decode(raw: string): Decoded { DecodeFrom(NO_HEADER, raw) }

  class Packet {
    var raw: string
    var smac: string
    var payload: string
    var lqi: int
    var rssi: int
    var datamap: DataMap
    var timestamp: int

    constructor (raw: string, timestamp: int)
      ensures this.raw == raw && this.timestamp == timestamp
      ensures Seen() == NO_HEADER
    {
      this.raw := raw;
      this.timestamp := timestamp;
      smac, payload, lqi, rssi, datamap := "", "", 0, 0, map[];
    }

    ghost function Seen(): Header
      reads this
    {
      Header(payload, smac, lqi, rssi)
    }

    /** The first loop: the fields of the frame. */
    method ReadFields()
      modifies `payload, `smac, `lqi, `rssi
      ensures Seen() == Fields(old(Seen()), Split(raw, ';'))
    {
      var ss := Split(raw, ';');
      for i := 0 to |ss|
        invariant Seen() == Fields(old(Seen()), ss[..i])
      {
        assert ss[..i + 1][..i] == ss[..i];
        var z := Split(ss[i], '=');
        if |z| == 2 {
          if z[0] == "PAYLOAD" { payload := z[1]; }
          if z[0] == "SMAC" { smac := z[1]; }
          if z[0] == "LQI" { lqi := ParseInt(z[1]); }
          if z[0] == "RSSI" { rssi := ParseInt(z[1]); }
        }
      }
      assert ss[..|ss|] == ss;
    }

    /** The second loop: the metrics of the payload. */
    method ReadEntries()
      modifies `datamap
      ensures datamap == Entries(old(datamap), Split(payload, ';'))
    {
      var ss := Split(payload, ';');
      for i := 0 to |ss|
        invariant datamap == Entries(old(datamap), ss[..i])
      {
        assert ss[..i + 1][..i] == ss[..i];
        var z := Split(ss[i], ':');
        if |z| == 2 {
          if z[0] == "TEMP" || z[0] == "HUMI" {
            datamap := datamap[z[0] := Float(z[1])];
          } else {
            datamap := datamap[z[0] := Int(ParseInt(z[1]))];
          }
        }
      }
      assert ss[..|ss|] == ss;
    }

    method DecodePacket()
      modifies `payload, `smac, `lqi, `rssi, `datamap
      ensures Decoded(Seen(), datamap) == DecodeFrom(old(Seen()), raw)
    {
      datamap := map[];
      ReadFields();
      var k := Hex.Decode(payload);
      if k.Some? {
        payload := k.value;
        ReadEntries();
      }
    }
  }

  lemma {:induction false} FieldsAppend(h: Header, a: seq<string>, b: seq<string>)
    ensures Fields(h, a + b) == Fields(Fields(h, a), b)
  {
    if b == [] {
      assert a + b == a;
    } else {
      assert (a + b)[..|a + b| - 1] == a + b[..|b| - 1];
      FieldsAppend(h, a, b[..|b| - 1]);
    }
  }

  // ---------------------------------------------------------------- what the inner level means

  /** A pair is an entry for a key when it has exactly one colon and the key comes before it. */
  predicate IsEntry(pair: string, key: string) {
    key + ":" <= pair && ':' !in key && ':' !in pair[|key| + 1..]
  }

  lemma PairSplit(key: string, sep: char, value: string)
    requires sep !in key && sep !in value
    ensures Split(key + [sep] + value, sep) == [key, value]
  {
    SplitFirst(key, sep, value);
    SplitWhole(value, sep);
  }

  lemma EntryMeaning(pair: string, key: string)
    ensures IsEntry(pair, key) <==> |Split(pair, ':')| == 2 && Split(pair, ':')[0] == key
    ensures IsEntry(pair, key) ==> Split(pair, ':')[1] == pair[|key| + 1..]
  {
    var z := Split(pair, ':');
    if |z| == 2 {
      assert ':' !in z[0] && ':' !in z[1];
      assert pair == z[0] + [':'] + Join(z[1..], ':');
      assert pair[|z[0]| + 1..] == z[1];
    }
    if IsEntry(pair, key) {
      PairSplit(key, ':', pair[|key| + 1..]);
      assert pair == key + ":" + pair[|key| + 1..];
    }
  }

  /** A part is a field for a key when it has exactly one equal sign and the key comes before it. */
  predicate IsField(pair: string, key: string) {
    key + "=" <= pair && '=' !in key && '=' !in pair[|key| + 1..]
  }

  lemma FieldSplit(pair: string, key: string)
    ensures IsField(pair, key) <==> |Split(pair, '=')| == 2 && Split(pair, '=')[0] == key
    ensures IsField(pair, key) ==> Split(pair, '=')[1] == pair[|key| + 1..]
  {
    var z := Split(pair, '=');
    if |z| == 2 {
      assert '=' !in z[0] && '=' !in z[1];
      assert pair == z[0] + ['='] + Join(z[1..], '=');
      assert pair[|z[0]| + 1..] == z[1];
    }
    if IsField(pair, key) {
      PairSplit(key, '=', pair[|key| + 1..]);
      assert pair == key + "=" + pair[|key| + 1..];
    }
  }

  /** A part sets the field that it names, and nothing else; any other part sets nothing. */
  lemma FieldExact(h: Header, pair: string)
    ensures var h' := Field(h, pair);
            && h'.payload == (if IsField(pair, "PAYLOAD") then pair[8..] else h.payload)
            && h'.smac == (if IsField(pair, "SMAC") then pair[5..] else h.smac)
            && h'.lqi == (if IsField(pair, "LQI") then ParseInt(pair[4..]) else h.lqi)
            && h'.rssi == (if IsField(pair, "RSSI") then ParseInt(pair[5..]) else h.rssi)
  {
    FieldSplit(pair, "PAYLOAD");
    FieldSplit(pair, "SMAC");
    FieldSplit(pair, "LQI");
    FieldSplit(pair, "RSSI");
  }

  ghost predicate LastFieldAt(pairs: seq<string>, key: string, i: nat) {
    i < |pairs| && IsField(pairs[i], key) && forall j | i < j < |pairs| :: !IsField(pairs[j], key)
  }

  ghost predicate NoField(pairs: seq<string>, key: string) {
    forall i | 0 <= i < |pairs| :: !IsField(pairs[i], key)
  }

  lemma LastFieldMoves(init: seq<string>, pair: string, key: string)
    ensures forall i: nat :: LastFieldAt(init + [pair], key, i)
                             <==> if IsField(pair, key) then i == |init| else LastFieldAt(init, key, i)
    ensures NoField(init + [pair], key) <==> NoField(init, key) && !IsField(pair, key)
  {
    var pairs := init + [pair];
    assert pairs[|init|] == pair && forall j | 0 <= j < |init| :: pairs[j] == init[j];
    forall i: nat
      ensures LastFieldAt(pairs, key, i) <==> if IsField(pair, key) then i == |init| else LastFieldAt(init, key, i)
    {
    }
  }

  /** The text that a key has after some parts: that of its last field, or what it had before. */
  ghost predicate LastText(text: string, before: string, pairs: seq<string>, key: string) {
    && (forall i: nat | LastFieldAt(pairs, key, i) :: text == pairs[i][|key| + 1..])
    && (NoField(pairs, key) ==> text == before)
  }

  ghost predicate LastNumber(n: int, before: int, pairs: seq<string>, key: string) {
    && (forall i: nat | LastFieldAt(pairs, key, i) :: n == ParseInt(pairs[i][|key| + 1..]))
    && (NoField(pairs, key) ==> n == before)
  }

  lemma LastTextStep(text: string, before: string, init: seq<string>, pair: string, key: string)
    requires LastText(text, before, init, key)
    ensures LastText(if IsField(pair, key) then pair[|key| + 1..] else text, before, init + [pair], key)
  {
    LastFieldMoves(init, pair, key);
  }

  lemma LastNumberStep(n: int, before: int, init: seq<string>, pair: string, key: string)
    requires LastNumber(n, before, init, key)
    ensures LastNumber(if IsField(pair, key) then ParseInt(pair[|key| + 1..]) else n, before, init + [pair], key)
  {
    LastFieldMoves(init, pair, key);
  }

  lemma PayloadSet(h: Header, pair: string, key: string)
    requires key == "PAYLOAD"
    ensures Field(h, pair).payload == if IsField(pair, key) then pair[|key| + 1..] else h.payload
  {
    FieldExact(h, pair);
  }

  lemma {:induction false} PayloadLastWins(h: Header, pairs: seq<string>, key: string)
    requires key == "PAYLOAD"
    ensures LastText(Fields(h, pairs).payload, h.payload, pairs, key)
  {
    if pairs != [] {
      var init, pair := pairs[..|pairs| - 1], pairs[|pairs| - 1];
      PayloadLastWins(h, init, key);
      PayloadSet(Fields(h, init), pair, key);
      LastTextStep(Fields(h, init).payload, h.payload, init, pair, key);
      assert init + [pair] == pairs;
    }
  }

  lemma SmacSet(h: Header, pair: string, key: string)
    requires key == "SMAC"
    ensures Field(h, pair).smac == if IsField(pair, key) then pair[|key| + 1..] else h.smac
  {
    FieldExact(h, pair);
  }

  lemma {:induction false} SmacLastWins(h: Header, pairs: seq<string>, key: string)
    requires key == "SMAC"
    ensures LastText(Fields(h, pairs).smac, h.smac, pairs, key)
  {
    if pairs != [] {
      var init, pair := pairs[..|pairs| - 1], pairs[|pairs| - 1];
      SmacLastWins(h, init, key);
      SmacSet(Fields(h, init), pair, key);
      LastTextStep(Fields(h, init).smac, h.smac, init, pair, key);
      assert init + [pair] == pairs;
    }
  }

  lemma LqiSet(h: Header, pair: string, key: string)
    requires key == "LQI"
    ensures Field(h, pair).lqi == if IsField(pair, key) then ParseInt(pair[|key| + 1..]) else h.lqi
  {
    FieldExact(h, pair);
  }

  lemma {:induction false} LqiLastWins(h: Header, pairs: seq<string>, key: string)
    requires key == "LQI"
    ensures LastNumber(Fields(h, pairs).lqi, h.lqi, pairs, key)
  {
    if pairs != [] {
      var init, pair := pairs[..|pairs| - 1], pairs[|pairs| - 1];
      LqiLastWins(h, init, key);
      LqiSet(Fields(h, init), pair, key);
      LastNumberStep(Fields(h, init).lqi, h.lqi, init, pair, key);
      assert init + [pair] == pairs;
    }
  }

  lemma RssiSet(h: Header, pair: string, key: string)
    requires key == "RSSI"
    ensures Field(h, pair).rssi == if IsField(pair, key) then ParseInt(pair[|key| + 1..]) else h.rssi
  {
    FieldExact(h, pair);
  }

  lemma {:induction false} RssiLastWins(h: Header, pairs: seq<string>, key: string)
    requires key == "RSSI"
    ensures LastNumber(Fields(h, pairs).rssi, h.rssi, pairs, key)
  {
    if pairs != [] {
      var init, pair := pairs[..|pairs| - 1], pairs[|pairs| - 1];
      RssiLastWins(h, init, key);
      RssiSet(Fields(h, init), pair, key);
      LastNumberStep(Fields(h, init).rssi, h.rssi, init, pair, key);
      assert init + [pair] == pairs;
    }
  }

  /** Each field of the header is that of its last part, and without one what the packet held before. */
  lemma FieldsLastWin(h: Header, pairs: seq<string>)
    ensures var h' := Fields(h, pairs);
            && LastText(h'.payload, h.payload, pairs, "PAYLOAD") && LastText(h'.smac, h.smac, pairs, "SMAC")
            && LastNumber(h'.lqi, h.lqi, pairs, "LQI") && LastNumber(h'.rssi, h.rssi, pairs, "RSSI")
  {
    PayloadLastWins(h, pairs, "PAYLOAD");
    SmacLastWins(h, pairs, "SMAC");
    LqiLastWins(h, pairs, "LQI");
    RssiLastWins(h, pairs, "RSSI");
  }

  /** So it is after the whole decoding of any record. */
  lemma DecodedHeader(before: Header, raw: string)
    ensures var h := DecodeFrom(before, raw).header;
            && LastText(h.smac, before.smac, Split(raw, ';'), "SMAC")
            && LastNumber(h.lqi, before.lqi, Split(raw, ';'), "LQI")
            && LastNumber(h.rssi, before.rssi, Split(raw, ';'), "RSSI")
  {
    FieldsLastWin(before, Split(raw, ';'));
  }

  /** Exactly two keys keep their text; every other value is read as an integer. */
  lemma ValueKinds(key: string, text: string)
    ensures key in {"TEMP", "HUMI"} ==> ValueOf(key, text) == Float(text)
    ensures key !in {"TEMP", "HUMI"} ==> ValueOf(key, text) == Int(ParseInt(text))
  {
  }

  lemma EntryStep(m: DataMap, pair: string, key: string)
    ensures key in Entry(m, pair) <==> key in m || IsEntry(pair, key)
    ensures IsEntry(pair, key) ==> Entry(m, pair)[key] == ValueOf(key, pair[|key| + 1..])
    ensures !IsEntry(pair, key) && key in m ==> Entry(m, pair)[key] == m[key]
  {
    EntryMeaning(pair, key);
  }

  ghost predicate LastEntryAt(pairs: seq<string>, key: string, i: nat) {
    i < |pairs| && IsEntry(pairs[i], key) && forall j | i < j < |pairs| :: !IsEntry(pairs[j], key)
  }

  lemma LastEntryMoves(init: seq<string>, pair: string, key: string)
    ensures forall i: nat :: LastEntryAt(init + [pair], key, i)
                             <==> if IsEntry(pair, key) then i == |init| else LastEntryAt(init, key, i)
  {
    var pairs := init + [pair];
    forall i: nat
      ensures LastEntryAt(pairs, key, i) <==> if IsEntry(pair, key) then i == |init| else LastEntryAt(init, key, i)
    {
      assert pairs[|init|] == pair && forall j | 0 <= j < |init| :: pairs[j] == init[j];
    }
  }

  /** A key is in the map if and only if some pair is an entry for it, with the value of the last one. */
  ghost predicate LastWins(m: DataMap, pairs: seq<string>, key: string) {
    && (key in m <==> exists i: nat :: LastEntryAt(pairs, key, i))
    && forall i: nat | LastEntryAt(pairs, key, i) :: key in m && m[key] == ValueOf(key, pairs[i][|key| + 1..])
  }

  lemma LastEntryStep(m: DataMap, init: seq<string>, pair: string, key: string)
    requires LastWins(m, init, key)
    ensures LastWins(Entry(m, pair), init + [pair], key)
  {
    EntryStep(m, pair, key);
    LastEntryMoves(init, pair, key);
    if IsEntry(pair, key) { assert LastEntryAt(init + [pair], key, |init|); }
  }

  /** Last wins: a key is in the map if and only if some pair is an entry for it, and then its
      value comes from the last such pair. Every other pair changes nothing. */
  lemma {:induction false} LastEntryWins(pairs: seq<string>, key: string)
    ensures LastWins(Entries(map[], pairs), pairs, key)
  {
    if pairs != [] {
      var n := |pairs| - 1;
      var init := pairs[..n];
      LastEntryWins(init, key);
      LastEntryStep(Entries(map[], init), init, pairs[n], key);
      assert init + [pairs[n]] == pairs;
    }
  }

  // ---------------------------------------------------------------- left inverse of key:value text

  /** A metric as a node writes it: a key, and a number in any spelling, with or without a sign and
      with any zeros in front. */
  datatype Written = Written(key: string, sign: string, digits: string)

  ghost predicate SoundWritten(x: Written) {
    && ':' !in x.key && ';' !in x.key && x.key != "TEMP" && x.key != "HUMI"
    && (x.sign == "" || x.sign == "+" || x.sign == "-")
    && AllDigits(x.digits) && x.digits != ""
  }

  ghost predicate AllSound(xs: seq<Written>) {
    forall i | 0 <= i < |xs| :: SoundWritten(xs[i])
  }

  function WrittenText(x: Written): string { x.key + ":" + (x.sign + x.digits) }

  function WrittenTexts(xs: seq<Written>): (pairs: seq<string>)
    ensures |pairs| == |xs|
    ensures forall i | 0 <= i < |xs| :: pairs[i] == WrittenText(xs[i])
  {
    seq(|xs|, i requires 0 <= i < |xs| => WrittenText(xs[i]))
  }

  /** The numbers written, the last one for each key. */
  function Numbers(xs: seq<Written>): DataMap
    requires AllSound(xs)
  {
    if xs == [] then map[]
    else
      var last := xs[|xs| - 1];
      Numbers(xs[..|xs| - 1])[last.key := Int(Saturated(SignedNat(last.sign, last.digits)))]
  }

  lemma WrittenHasNo(x: Written, c: char)
    requires SoundWritten(x) && (c == ':' || c == ';')
    ensures c !in x.sign + x.digits
  {
  }

  lemma EntryOfWritten(m: DataMap, x: Written)
    requires SoundWritten(x)
    ensures Entry(m, WrittenText(x)) == m[x.key := Int(Saturated(SignedNat(x.sign, x.digits)))]
  {
    WrittenHasNo(x, ':');
    PairSplit(x.key, ':', x.sign + x.digits);
    ParseIntOfDigits(x.sign, x.digits);
  }

  lemma {:induction false} EntriesOfWritten(xs: seq<Written>)
    requires AllSound(xs)
    ensures Entries(map[], WrittenTexts(xs)) == Numbers(xs)
  {
    if xs != [] {
      var init, last := xs[..|xs| - 1], xs[|xs| - 1];
      EntriesOfWritten(init);
      assert WrittenTexts(xs)[..|xs| - 1] == WrittenTexts(init);
      EntryOfWritten(Numbers(init), last);
    }
  }

  /** Decoding key:number text gives the numbers written, whatever their spelling, the last one for each
      key, with or without a trailing semicolon. */
  lemma DecodeOfWritten(xs: seq<Written>, trailing: bool)
    requires AllSound(xs)
    ensures var text := Join(WrittenTexts(xs) + (if trailing then [""] else []), ';');
            Entries(map[], Split(text, ';')) == Numbers(xs)
  {
    var pairs := WrittenTexts(xs);
    forall i | 0 <= i < |pairs| ensures ';' !in pairs[i] {
      assert SoundWritten(xs[i]);
      WrittenHasNo(xs[i], ';');
    }
    EntriesOfWritten(xs);
    SplitOfJoined(pairs, trailing);
  }

  lemma SplitOfJoined(pairs: seq<string>, trailing: bool)
    requires Without(pairs, ';')
    ensures var text := Join(pairs + (if trailing then [""] else []), ';');
            Entries(map[], Split(text, ';')) == Entries(map[], pairs)
  {
    var parts := pairs + (if trailing then [""] else []);
    if parts == [] {
      assert Split("", ';') == [""];
      assert Entries(map[], [""]) == Entry(Entries(map[], []), "") by { assert [""][..0] == []; }
    } else {
      SplitUnique(parts, ';');
      if trailing {
        assert parts[..|parts| - 1] == pairs;
      } else {
        assert parts == pairs;
      }
    }
  }

  datatype Metric = Metric(key: string, value: int)

  /** Keys that survive the two separators and are read as integers, with 64-bit values. */
  ghost predicate SoundMetric(x: Metric) {
    && ':' !in x.key && ';' !in x.key && x.key != "TEMP" && x.key != "HUMI"
    && MIN_INT64 <= x.value <= MAX_INT64
  }

  ghost predicate Sound(ms: seq<Metric>) {
    forall i | 0 <= i < |ms| :: SoundMetric(ms[i])
  }

  function PairText(m: Metric): string { m.key + ":" + Dec(m.value) }

  function PairTexts(ms: seq<Metric>): (pairs: seq<string>)
    ensures |pairs| == |ms|
    ensures forall i | 0 <= i < |ms| :: pairs[i] == PairText(ms[i])
  {
    seq(|ms|, i requires 0 <= i < |ms| => PairText(ms[i]))
  }

  function MapOf(ms: seq<Metric>): DataMap {
    if ms == [] then map[] else MapOf(ms[..|ms| - 1])[ms[|ms| - 1].key := Int(ms[|ms| - 1].value)]
  }

  lemma EntryOfPair(m: DataMap, x: Metric)
    requires SoundMetric(x)
    ensures Entry(m, PairText(x)) == m[x.key := Int(x.value)]
  {
    DecChars(x.value, ':');
    PairSplit(x.key, ':', Dec(x.value));
    ParseIntOfDec(x.value);
  }

  lemma {:induction false} EntriesOfPairs(ms: seq<Metric>)
    requires Sound(ms)
    ensures Entries(map[], PairTexts(ms)) == MapOf(ms)
  {
    if ms != [] {
      var init, last := ms[..|ms| - 1], ms[|ms| - 1];
      EntriesOfPairs(init);
      assert PairTexts(ms)[..|ms| - 1] == PairTexts(init);
      EntryOfPair(MapOf(init), last);
    }
  }

  /** Decoding key:value text as the C programs print it gives back the metrics, the last one for each
      key, with or without a trailing semicolon. */
  lemma DecodeOfPairs(ms: seq<Metric>, trailing: bool)
    requires Sound(ms)
    ensures var text := Join(PairTexts(ms) + (if trailing then [""] else []), ';');
            Entries(map[], Split(text, ';')) == MapOf(ms)
  {
    var pairs := PairTexts(ms);
    forall i | 0 <= i < |pairs| ensures ';' !in pairs[i] {
      assert SoundMetric(ms[i]);
      DecChars(ms[i].value, ';');
    }
    EntriesOfPairs(ms);
    SplitOfJoined(pairs, trailing);
  }

  /** With distinct keys the map holds each metric and nothing else. */
  lemma {:induction false} MapOfDistinct(ms: seq<Metric>)
    requires forall i, j | 0 <= i < j < |ms| :: ms[i].key != ms[j].key
    ensures forall i | 0 <= i < |ms| :: ms[i].key in MapOf(ms) && MapOf(ms)[ms[i].key] == Int(ms[i].value)
    ensures forall k :: k in MapOf(ms) ==> exists i | 0 <= i < |ms| :: ms[i].key == k
  {
    if ms != [] {
      var init := ms[..|ms| - 1];
      MapOfDistinct(init);
      forall k | k in MapOf(ms) ensures exists i | 0 <= i < |ms| :: ms[i].key == k {
        if k in MapOf(init) {
          var i :| 0 <= i < |init| && init[i].key == k;
          assert ms[i].key == k;
        } else {
          assert ms[|ms| - 1].key == k;
        }
      }
    }
  }
}
