/** Hex and byte-order conversions between display order and protocol (wire) order. */
module Encoding {
  import opened Base

  function HexDigit(n: nat): char
    requires n < 16
  {
    if n < 10 then '0' + n as char else 'a' + (n - 10) as char
  }

  function HexValue(c: char): Option<nat> {
    if '0' <= c <= '9' then Some((c - '0') as nat)
    else if 'a' <= c <= 'f' then Some((c - 'a') as nat + 10)
    else if 'A' <= c <= 'F' then Some((c - 'A') as nat + 10)
    else None
  }

  lemma HexDigitValue(n: nat)
    requires n < 16
    ensures HexValue(HexDigit(n)) == Some(n)
  {
  }

  /** `hex::encode`: lower case, two characters a byte. */
  function HexEncode(bytes: Bytes): string {
    if bytes == [] then ""
    else [HexDigit(bytes[0] / 16), HexDigit(bytes[0] % 16)] + HexEncode(bytes[1..])
  }

  /** `hex::decode`: either case, refusing an odd length or any other character. */
  function HexDecode(text: string): Option<Bytes> {
    if text == "" then Some([])
    else if |text| == 1 then None
    else
      var hi, lo, rest := HexValue(text[0]), HexValue(text[1]), HexDecode(text[2..]);
      if hi.Some? && lo.Some? && rest.Some? && hi.value < 16 && lo.value < 16
      then Some([16 * hi.value + lo.value] + rest.value)
      else None
  }

  lemma {:induction false} HexRoundTrip(bytes: Bytes)
    ensures HexDecode(HexEncode(bytes)) == Some(bytes)
  {
    if bytes != [] {
      var text := HexEncode(bytes);
      HexDigitValue(bytes[0] / 16);
      HexDigitValue(bytes[0] % 16);
      HexRoundTrip(bytes[1..]);
      assert text[2..] == HexEncode(bytes[1..]);
      assert bytes == [bytes[0]] + bytes[1..];
    }
  }

  function LowerDigit(c: char): char {
    if 'A' <= c <= 'F' then 'a' + (c - 'A') else c
  }

  predicate IsHexDigit(c: char) {
    '0' <= c <= '9' || 'a' <= c <= 'f' || 'A' <= c <= 'F'
  }

  predicate AllHex(text: string) {
    forall i :: 0 <= i < |text| ==> IsHexDigit(text[i])
  }

  function Lower(text: string): (r: string)
    ensures |r| == |text| && forall i :: 0 <= i < |r| ==> r[i] == LowerDigit(text[i])
  {
    seq(|text|, i requires 0 <= i < |text| => LowerDigit(text[i]))
  }

  lemma FirstPair(text: string)
    requires |text| > 1
    ensures AllHex(text) <==> IsHexDigit(text[0]) && IsHexDigit(text[1]) && AllHex(text[2..])
    ensures Lower(text) == [LowerDigit(text[0]), LowerDigit(text[1])] + Lower(text[2..])
  {
    assert text == [text[0], text[1]] + text[2..];
  }

  /** Exactly the texts of an even number of hex digits decode, in either case, and encoding gives them back in
      lower case. */
  lemma {:induction false} HexDecodeExactly(text: string)
    ensures HexDecode(text).Some? <==> |text| % 2 == 0 && AllHex(text)
    ensures HexDecode(text).Some? ==> HexEncode(HexDecode(text).value) == Lower(text)
    decreases |text|
  {
    if |text| > 1 {
      HexDecodeExactly(text[2..]);
      FirstPair(text);
      HexCharacters(text[0]);
      HexCharacters(text[1]);
      if HexDecode(text).Some? {
        HexPair(text[0], text[1], HexDecode(text[2..]).value);
      }
    }
  }

  lemma HexCharacters(c: char)
    ensures HexValue(c).Some? <==> IsHexDigit(c)
    ensures HexValue(c).Some? ==> HexValue(c).value < 16 && HexDigit(HexValue(c).value) == LowerDigit(c)
  {
  }

  lemma HexPair(hi: char, lo: char, rest: Bytes)
    requires HexValue(hi).Some? && HexValue(lo).Some? && HexValue(hi).value < 16 && HexValue(lo).value < 16
    ensures var b: byte := 16 * HexValue(hi).value + HexValue(lo).value;
            HexEncode([b] + rest) == [HexDigit(HexValue(hi).value), HexDigit(HexValue(lo).value)] + HexEncode(rest)
  {
    var b: byte := 16 * HexValue(hi).value + HexValue(lo).value;
    assert ([b] + rest)[1..] == rest;
    assert b / 16 == HexValue(hi).value && b % 16 == HexValue(lo).value;
  }

  function Reversed(bytes: Bytes): (r: Bytes)
    ensures |r| == |bytes|
    ensures forall i :: 0 <= i < |bytes| ==> r[i] == bytes[|bytes| - 1 - i]
  {
    if bytes == [] then [] else Reversed(bytes[1..]) + [bytes[0]]
  }

  /** `display_hex_to_wire`: `None` is the hex error. */
  function DisplayHexToWire(text: string): Option<Bytes> {
    match HexDecode(text)
    case Some(bytes) => Some(Reversed(bytes))
    case None => None
  }

  function WireToDisplayHex(wire: Bytes): string {
    HexEncode(Reversed(wire))
  }

  lemma DisplayRoundTrip(wire: Bytes)
    ensures DisplayHexToWire(WireToDisplayHex(wire)) == Some(wire)
  {
    HexRoundTrip(Reversed(wire));
    assert Reversed(Reversed(wire)) == wire;
  }
}
