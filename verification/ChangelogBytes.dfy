/** Byte counts of text: what the encoding of RFC 3629, section 3, writes, which can be read back. */
module ChangelogBytes {
  import opened ChangelogLines

  /** The bytes of one Unicode scalar value. */
  function EncodeChar(c: char): (bytes: seq<nat>)
    ensures forall i :: 0 <= i < |bytes| ==> bytes[i] < 256
  {
    var n := c as int;
    if n < 0x80 then [n]
    else if n < 0x800 then [0xC0 + n / 64, 0x80 + n % 64]
    else if n < 0x1_0000 then [0xE0 + n / 64 / 64, 0x80 + n / 64 % 64, 0x80 + n % 64]
    else [0xF0 + n / 64 / 64 / 64, 0x80 + n / 64 / 64 % 64, 0x80 + n / 64 % 64, 0x80 + n % 64]
  }

  function Encode(s: string): seq<nat> {
    if s == [] then [] else EncodeChar(s[0]) + Encode(s[1..])
  }

  /** How many bytes the sequence that begins with this byte has. */
  function Announced(lead: nat): nat {
    if lead < 0x80 then 1 else if lead < 0xE0 then 2 else if lead < 0xF0 then 3 else 4
  }

  /** The value that the first bytes stand for. */
  function FirstValue(bytes: seq<nat>): int
    requires bytes != [] && Announced(bytes[0]) <= |bytes|
  {
    match Announced(bytes[0])
    case 1 => bytes[0] as int
    case 2 => (bytes[0] as int - 0xC0) * 64 + (bytes[1] as int - 0x80)
    case 3 => ((bytes[0] as int - 0xE0) * 64 + (bytes[1] as int - 0x80)) * 64 + (bytes[2] as int - 0x80)
    case _ => (((bytes[0] as int - 0xF0) * 64 + (bytes[1] as int - 0x80)) * 64 + (bytes[2] as int - 0x80)) * 64 + (bytes[3] as int - 0x80)
  }

  /** Reads bytes as values, as long as they are complete. */
  function Decode(bytes: seq<nat>): seq<int>
    decreases |bytes|
  {
    if bytes == [] || Announced(bytes[0]) > |bytes| then []
    else [FirstValue(bytes)] + Decode(bytes[Announced(bytes[0])..])
  }

  function Values(s: string): (values: seq<int>)
    ensures |values| == |s| && forall i :: 0 <= i < |s| ==> values[i] == s[i] as int
  {
    seq(|s|, i requires 0 <= i < |s| => s[i] as int)
  }

  lemma {:induction false} EncodedChar(c: char)
    ensures EncodeChar(c) != [] && |EncodeChar(c)| == Utf8(c) == Announced(EncodeChar(c)[0])
    ensures FirstValue(EncodeChar(c)) == c as int
  {
  }

  /** More bytes behind it do not change the first value. */
  lemma {:induction false} FirstOfMore(c: char, more: seq<nat>)
    ensures EncodeChar(c) != [] && Announced((EncodeChar(c) + more)[0]) == |EncodeChar(c)|
    ensures FirstValue(EncodeChar(c) + more) == c as int
  {
    EncodedChar(c);
    var bytes, all := EncodeChar(c), EncodeChar(c) + more;
    assert forall i :: 0 <= i < |bytes| ==> all[i] == bytes[i];
  }

  /** Every text is read back from its bytes. */
  lemma {:induction false} DecodeEncoded(s: string)
    ensures Decode(Encode(s)) == Values(s)
  {
    if s != [] {
      DecodeEncoded(s[1..]);
      FirstOfMore(s[0], Encode(s[1..]));
      var bytes := Encode(s);
      assert bytes[|EncodeChar(s[0])|..] == Encode(s[1..]);
      assert Values(s) == [s[0] as int] + Values(s[1..]);
    }
  }

  /** The byte length that the budget is compared with is the number of bytes of the encoded text. */
  lemma {:induction false} ByteLengthIsEncoded(s: string)
    ensures ByteLength(s) == |Encode(s)|
  {
    if s == [] {
    } else {
      ByteLengthIsEncoded(s[1..]);
      EncodedChar(s[0]);
      ByteConcat([s[0]], s[1..]);
      assert [s[0]][..0] == [] && ByteLength([s[0]]) == ByteLength([s[0]][..0]) + Utf8(s[0]);
      assert s == [s[0]] + s[1..];
    }
  }
}
