/** The hex layer of a frame: Base 16 as in section 8 of RFC 4648. */
module Hex {
  import opened Text

  function UpperNibble(d: nat): (c: char)
    requires d < 16
    ensures '0' <= c <= '9' || 'A' <= c <= 'F'
  {
    if d < 10 then ('0' as int + d) as char else ('A' as int + d - 10) as char
  }

  function LowerNibble(d: nat): (c: char)
    requires d < 16
    ensures '0' <= c <= '9' || 'a' <= c <= 'f'
  {
    if d < 10 then ('0' as int + d) as char else ('a' as int + d - 10) as char
  }

  /** The value of a hex digit of either case. */
  function NibbleVal(c: char): (v: Option<nat>)
    ensures v.Some? ==> v.value < 16
  {
    if '0' <= c <= '9' then Some(c as int - '0' as int)
    else if 'a' <= c <= 'f' then Some(c as int - 'a' as int + 10)
    else if 'A' <= c <= 'F' then Some(c as int - 'A' as int + 10)
    else None
  }

  lemma NibbleValExact(c: char, d: nat)
    requires d < 16
    ensures NibbleVal(c) == Some(d) <==> c == UpperNibble(d) || c == LowerNibble(d)
  {
  }

  /** `%02X` of one byte. */
  function Upper(b: char): (h: string)
    requires IsByte(b)
    ensures |h| == 2
  {
    [UpperNibble(b as int / 16), UpperNibble(b as int % 16)]
  }

  /** `%02x` of one byte. */
  function Lower(b: char): (h: string)
    requires IsByte(b)
    ensures |h| == 2
  {
    [LowerNibble(b as int / 16), LowerNibble(b as int % 16)]
  }

  function Encode(bytes: string): (h: string)
    requires Bytes(bytes)
    ensures |h| == 2 * |bytes|
    ensures forall i | 0 <= i < |h| :: '0' <= h[i] <= '9' || 'A' <= h[i] <= 'F'
  {
    if bytes == "" then "" else Encode(bytes[..|bytes| - 1]) + Upper(bytes[|bytes| - 1])
  }

  /** `hex.DecodeString`: None on an odd length or a byte that is no hex digit. */
  function Decode(h: string): Option<string> {
    if h == "" then Some("")
    else if |h| == 1 then None
    else match (NibbleVal(h[0]), NibbleVal(h[1]))
      case (Some(hi), Some(lo)) =>
        (match Decode(h[2..])
         case Some(rest) => Some([(hi * 16 + lo) as char] + rest)
         case None => None)
      case _ => None
  }

  lemma NibblesOfUpper(b: char)
    requires IsByte(b)
    ensures NibbleVal(Upper(b)[0]) == Some(b as int / 16)
    ensures NibbleVal(Upper(b)[1]) == Some(b as int % 16)
  {
  }

  lemma DecodeByte(b: char, h: string, rest: string)
    requires IsByte(b)
    requires Decode(h) == Some(rest)
    ensures Decode(Upper(b) + h) == Some([b] + rest)
  {
    NibblesOfUpper(b);
    var whole := Upper(b) + h;
    assert whole[0] == Upper(b)[0] && whole[1] == Upper(b)[1] && whole[2..] == h;
    assert ((b as int / 16) * 16 + b as int % 16) as char == b;
  }

  lemma {:induction false} EncodeFirst(bytes: string)
    requires Bytes(bytes) && bytes != ""
    ensures Encode(bytes) == Upper(bytes[0]) + Encode(bytes[1..])
  {
    if |bytes| == 1 {
      assert bytes[..0] == "" == bytes[1..];
    } else {
      var init := bytes[..|bytes| - 1];
      EncodeFirst(init);
      assert bytes[1..][..|bytes| - 2] == init[1..];
    }
  }

  /** Decoding undoes encoding, whatever the bytes are. */
  lemma {:induction false} DecodeEncode(bytes: string)
    requires Bytes(bytes)
    ensures Decode(Encode(bytes)) == Some(bytes)
  {
    if bytes != "" {
      DecodeEncode(bytes[1..]);
      EncodeFirst(bytes);
      DecodeByte(bytes[0], Encode(bytes[1..]), bytes[1..]);
      assert [bytes[0]] + bytes[1..] == bytes;
    }
  }

  /** Exactly which texts the decoder accepts: pairs of hex digits. */
  lemma {:induction false} DecodeAccepts(h: string)
    ensures Decode(h).Some? <==> |h| % 2 == 0 && forall i | 0 <= i < |h| :: NibbleVal(h[i]).Some?
  {
    if |h| >= 2 {
      DecodeAccepts(h[2..]);
      assert forall i | 2 <= i < |h| :: h[i] == h[2..][i - 2];
    }
  }
}
