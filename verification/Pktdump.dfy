/** The frame printer of the gateway board (mote-gateway/hard/pktdump.c). */
module Pktdump {
  import opened Text
  import Hex

  /** A packet: a linked list of snips, each with its type and contents. */
  datatype Snip =
    | End
    | Undef(data: string, next: Snip)
    | Netif(source: string, lqi: nat, rssi: int, next: Snip)
    | Other(next: Snip)

  /** The source demands sizes that its 8-bit loop counter can reach. */
  ghost predicate Printable(pkt: Snip) {
    match pkt
    case End => true
    case Undef(data, next) => Bytes(data) && |data| <= 255 && Printable(next)
    case Netif(_, _, _, next) => Printable(next)
    case Other(next) => Printable(next)
  }

  function HeaderText(source: string, lqi: nat, rssi: int): string {
    "SMAC=" + source + ";LQI=" + Dec(lqi) + ";RSSI=" + Dec(rssi)
  }

  /** What the snips print between the opening tag and the closing `>`. */
  function SnipsText(pkt: Snip): string
    requires Printable(pkt)
  {
    match pkt
    case End => ""
    case Undef(data, next) => Hex.Encode(data) + ";" + SnipsText(next)
    case Netif(source, lqi, rssi, next) => HeaderText(source, lqi, rssi) + SnipsText(next)
    case Other(next) => SnipsText(next)
  }

  /** The list without the snips of other types. */
  function Known(pkt: Snip): Snip {
    match pkt
    case End => End
    case Undef(data, next) => Undef(data, Known(next))
    case Netif(source, lqi, rssi, next) => Netif(source, lqi, rssi, Known(next))
    case Other(next) => Known(next)
  }

  /** Snips of other types, anywhere in the list, print nothing. */
  lemma {:induction false} OthersPrintNothing(pkt: Snip)
    requires Printable(pkt)
    ensures Printable(Known(pkt)) && SnipsText(Known(pkt)) == SnipsText(pkt)
  {
    if pkt != End { OthersPrintNothing(pkt.next); }
  }

  function FrameText(pkt: Snip): string
    requires Printable(pkt)
  {
    "<PAYLOAD=" + SnipsText(pkt) + ">\n"
  }

  lemma SampleNumbers()
    ensures Dec(120) == "120" && Dec(-61) == "-61"
  {
    assert Digits(120) == Digits(12) + "0" && Digits(12) == Digits(1) + "2" && Digits(1) == "1";
    assert Digits(61) == Digits(6) + "1" && Digits(6) == "6";
  }

  lemma HeaderParts(source: string, lqi: nat, rssi: int, a: string, b: string)
    requires Dec(lqi) == a && Dec(rssi) == b
    ensures HeaderText(source, lqi, rssi) == "SMAC=" + source + ";LQI=" + a + ";RSSI=" + b
  {
  }

  /** The header of a frame, byte by byte. */
  lemma SampleHeader()
    ensures HeaderText("00:25", 120, -61) == "SMAC=00:25;LQI=120;RSSI=-61"
  {
    SampleNumbers();
    HeaderParts("00:25", 120, -61, "120", "-61");
  }

  method DumpData(data: string) returns (out: string)
    requires Bytes(data) && |data| <= 255
    ensures out == Hex.Encode(data)
  {
    out := "";
    var p: nat := 0;
    while p < |data|
      invariant 0 <= p <= |data|
      invariant out == Hex.Encode(data[..p])
    {
      out := out + Hex.Upper(data[p]);
      assert data[..p + 1][..p] == data[..p];
      p := Increment(p);
    }
    assert data[..p] == data;
  }

  method Dump(pkt: Snip) returns (out: string)
    requires Printable(pkt)
    ensures out == FrameText(pkt)
  {
    out := "<PAYLOAD=";
    var snip := pkt;
    while snip != End
      invariant Printable(snip)
      invariant out + SnipsText(snip) == "<PAYLOAD=" + SnipsText(pkt)
      decreases snip
    {
      ghost var before := out;
      match snip {
        case Undef(data, _) =>
          var hex := DumpData(data);
          out := out + hex + ";";
          assert out + SnipsText(snip.next) == before + SnipsText(snip);
        case Netif(source, lqi, rssi, _) =>
          out := out + HeaderText(source, lqi, rssi);
          assert out + SnipsText(snip.next) == before + SnipsText(snip);
        case Other(_) =>
      }
      snip := snip.next;
    }
    assert out + "" == out;
    out := out + ">\n";
  }
}
