/**
 * The configured mouse profiles and the decoding of their USB ids, which the
 * configuration and udev both give as four hexadecimal digits.
 */
module Config {
  import opened Wrappers
  import opened Ints

  /** One configured mouse: driver name, USB product and vendor id, HID interface number. */
  datatype MouseProfile = MouseProfile(model: string, product: u16, vendor: u16, endpoint: i32)

  /** The configuration table in file order, as (name, profile) pairs. */
  type ProfileTable = seq<(string, MouseProfile)>

  /** The value of one ASCII hexadecimal digit, in either case. */
  function HexDigitValue(c: u8): (r: Option<nat>)
    ensures r.Some? ==> r.value < 16
    ensures r.Some? ==> c < 0x80
  {
    if 0x30 <= c <= 0x39 then Some(c - 0x30)
    else if 0x61 <= c <= 0x66 then Some(c - 0x61 + 10)
    else if 0x41 <= c <= 0x46 then Some(c - 0x41 + 10)
    else None
  }

  /** The lower-case ASCII digit for a value below 16. */
  function HexDigit(n: nat): (c: u8)
    requires n < 16
  {
    if n < 10 then 0x30 + n else 0x61 + n - 10
  }

  /** ASCII lower-casing of one byte. */
  function AsciiLower(c: u8): u8
  {
    if 0x41 <= c <= 0x5A then c + 0x20 else c
  }

  /** Decoding a digit and writing it back gives the digit in lower case. */
  lemma HexDigitOfValue(c: u8)
    requires HexDigitValue(c).Some?
    ensures HexDigit(HexDigitValue(c).value) == AsciiLower(c)
  {
  }

  /**
   * Hex decoding into a two-byte array: the text must be exactly four digits,
   * and each pair of digits is one byte, high nibble first.
   */
  function FromHexPair(text: seq<u8>): (r: Option<seq<u8>>)
    ensures r.Some? <==> |text| == 4 && forall i :: 0 <= i < 4 ==> HexDigitValue(text[i]).Some?
    ensures r.Some? ==>
      (|r.value| == 2 &&
       r.value[0] == HexDigitValue(text[0]).value * 16 + HexDigitValue(text[1]).value &&
       r.value[1] == HexDigitValue(text[2]).value * 16 + HexDigitValue(text[3]).value)
  {
    if |text| != 4 || exists i :: 0 <= i < 4 && HexDigitValue(text[i]).None? then None
    else
      var hi := HexDigitValue(text[0]).value * 16 + HexDigitValue(text[1]).value;
      var lo := HexDigitValue(text[2]).value * 16 + HexDigitValue(text[3]).value;
      Some([hi, lo])
  }

  /** Two bytes spelled as four lower-case hex digits, high nibble first. */
  function HexPair(bytes: seq<u8>): (text: seq<u8>)
    requires |bytes| == 2
    ensures |text| == 4
  {
    [HexDigit(bytes[0] / 16), HexDigit(bytes[0] % 16), HexDigit(bytes[1] / 16), HexDigit(bytes[1] % 16)]
  }

  /** Spelling two bytes in hex and decoding the text gives the bytes back. */
  lemma FromHexPairOfHexPair(bytes: seq<u8>)
    requires |bytes| == 2
    ensures FromHexPair(HexPair(bytes)) == Some(bytes)
  {
    var text := HexPair(bytes);
    HexDigitRoundTrip(bytes[0] / 16);
    HexDigitRoundTrip(bytes[0] % 16);
    HexDigitRoundTrip(bytes[1] / 16);
    HexDigitRoundTrip(bytes[1] % 16);
    assert forall i :: 0 <= i < 4 ==> HexDigitValue(text[i]).Some?;
    assert bytes[0] / 16 * 16 + bytes[0] % 16 == bytes[0];
    assert bytes[1] / 16 * 16 + bytes[1] % 16 == bytes[1];
    assert FromHexPair(text).value == [bytes[0], bytes[1]] == bytes;
  }

  /** A text that decodes is the hex spelling of its bytes, up to letter case. */
  lemma HexPairOfFromHexPair(text: seq<u8>)
    requires FromHexPair(text).Some?
    ensures HexPair(FromHexPair(text).value) ==
      [AsciiLower(text[0]), AsciiLower(text[1]), AsciiLower(text[2]), AsciiLower(text[3])]
  {
    var bytes := FromHexPair(text).value;
    var d0, d1 := HexDigitValue(text[0]).value, HexDigitValue(text[1]).value;
    var d2, d3 := HexDigitValue(text[2]).value, HexDigitValue(text[3]).value;
    Split16(d0, d1);
    Split16(d2, d3);
    HexDigitOfValue(text[0]);
    HexDigitOfValue(text[1]);
    HexDigitOfValue(text[2]);
    HexDigitOfValue(text[3]);
  }

  /** `u16::from_be_bytes`. */
  function FromBeBytes(bytes: seq<u8>): u16
    requires |bytes| == 2
  {
    bytes[0] as int * 256 + bytes[1] as int
  }

  /** `u16::to_be_bytes`. */
  function ToBeBytes(v: u16): (bytes: seq<u8>)
    ensures |bytes| == 2
  {
    [v / 256, v % 256]
  }

  /** Big-endian conversion is a bijection between two bytes and a u16. */
  lemma BeBytesRoundTrip(v: u16, bytes: seq<u8>)
    requires |bytes| == 2
    ensures FromBeBytes(ToBeBytes(v)) == v
    ensures ToBeBytes(FromBeBytes(bytes)) == bytes
  {
  }

  /**
   * `deserialize_id`: a USB id given as four hex digits (the bytes of the
   * text), decoded as two big-endian bytes. The udev attribute parsing takes
   * the same steps.
   */
  function DecodeId(text: seq<u8>): (r: Option<u16>)
    ensures r.Some? <==> |text| == 4 && forall i :: 0 <= i < 4 ==> HexDigitValue(text[i]).Some?
    ensures r.Some? ==> r.value == HexDigitValue(text[0]).value * 4096 + HexDigitValue(text[1]).value * 256
                                  + HexDigitValue(text[2]).value * 16 + HexDigitValue(text[3]).value
  {
    match FromHexPair(text)
    case None => None
    case Some(bytes) => Some(FromBeBytes(bytes))
  }

  /** The four lower-case hex digits of a u16, most significant first. */
  function HexId(v: u16): (text: seq<u8>)
    ensures |text| == 4
  {
    [HexDigit(v / 4096), HexDigit(v / 256 % 16), HexDigit(v / 16 % 16), HexDigit(v % 16)]
  }

  /** Division by 16 splits off the last digit. */
  lemma Split16(q: int, r: int)
    requires 0 <= r < 16
    ensures (q * 16 + r) / 16 == q && (q * 16 + r) % 16 == r
  {
  }

  /** A u16 is the sum of its four hex digits times their place values. */
  lemma PlaceValues(v: int)
    requires 0 <= v < 0x1_0000
    ensures v == v / 4096 * 4096 + v / 256 % 16 * 256 + v / 16 % 16 * 16 + v % 16
  {
    assert v == v / 16 * 16 + v % 16;
    assert v / 16 / 16 == v / 256;
    assert v / 256 / 16 == v / 4096;
  }

  /** Four hex digits are recovered from the value they spell. */
  lemma DigitsOfPlaceValues(d0: int, d1: int, d2: int, d3: int)
    requires 0 <= d0 < 16 && 0 <= d1 < 16 && 0 <= d2 < 16 && 0 <= d3 < 16
    ensures var v := d0 * 4096 + d1 * 256 + d2 * 16 + d3;
      v / 4096 == d0 && v / 256 % 16 == d1 && v / 16 % 16 == d2 && v % 16 == d3
  {
    var v := d0 * 4096 + d1 * 256 + d2 * 16 + d3;
    var a, b := d0 * 256 + d1 * 16 + d2, d0 * 16 + d1;
    assert v == a * 16 + d3;
    Split16(a, d3);
    assert a == b * 16 + d2;
    Split16(b, d2);
    Split16(d0, d1);
    assert v / 256 == v / 16 / 16;
    assert v / 4096 == v / 256 / 16;
  }

  /** Every digit written by `HexDigit` reads back as its value. */
  lemma HexDigitRoundTrip(n: nat)
    requires n < 16
    ensures HexDigitValue(HexDigit(n)) == Some(n)
  {
  }

  /** Four digits written by `HexDigit` decode to the value they spell. */
  lemma DecodeDigits(d0: nat, d1: nat, d2: nat, d3: nat)
    requires d0 < 16 && d1 < 16 && d2 < 16 && d3 < 16
    ensures DecodeId([HexDigit(d0), HexDigit(d1), HexDigit(d2), HexDigit(d3)]) == Some(d0 * 4096 + d1 * 256 + d2 * 16 + d3)
  {
  }

  /** Writing an id as four hex digits and decoding it gives the id back. */
  lemma DecodeHexId(v: u16)
    ensures DecodeId(HexId(v)) == Some(v)
  {
    DecodeDigits(v / 4096, v / 256 % 16, v / 16 % 16, v % 16);
    PlaceValues(v);
  }

  /** The hex spelling of a value given by its four digits is those digits. */
  lemma HexIdOfDigits(d0: nat, d1: nat, d2: nat, d3: nat)
    requires d0 < 16 && d1 < 16 && d2 < 16 && d3 < 16
    ensures HexId(d0 * 4096 + d1 * 256 + d2 * 16 + d3) == [HexDigit(d0), HexDigit(d1), HexDigit(d2), HexDigit(d3)]
  {
    DigitsOfPlaceValues(d0, d1, d2, d3);
  }

  /** Every text that decodes is the lower- or mixed-case spelling of the id it decodes to. */
  lemma HexIdOfDecodeId(text: seq<u8>)
    requires DecodeId(text).Some?
    ensures forall i :: 0 <= i < 4 ==> HexId(DecodeId(text).value)[i] == AsciiLower(text[i])
  {
    var d0, d1, d2, d3 := HexDigitValue(text[0]).value, HexDigitValue(text[1]).value,
                          HexDigitValue(text[2]).value, HexDigitValue(text[3]).value;
    HexIdOfDigits(d0, d1, d2, d3);
    HexDigitOfValue(text[0]);
    HexDigitOfValue(text[1]);
    HexDigitOfValue(text[2]);
    HexDigitOfValue(text[3]);
  }
}
