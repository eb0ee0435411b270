/**
 * Store identifiers: the 12-byte object ids of the document store and their
 * 24-character hexadecimal text form. `ParseId` is the conversion every
 * handler applies to an identifier taken from the path or the request body;
 * it accepts exactly 24 hexadecimal digits, in either case.
 */
module ObjectIds {
  import opened Wrappers

  newtype Byte = x: int | 0 <= x < 256

  /** An object id: twelve bytes. */
  type ObjectId = s: seq<Byte> | |s| == 12 witness [0, 0, 0, 0, 0, 0, 0, 0, 0, 0, 0, 0]

  const ID_TEXT_LENGTH := 24

  predicate IsHexDigit(c: char) {
    ('0' <= c <= '9') || ('a' <= c <= 'f') || ('A' <= c <= 'F')
  }

  predicate IsHexText(s: string) {
    forall i :: 0 <= i < |s| ==> IsHexDigit(s[i])
  }

  function DigitValue(c: char): (v: int)
    requires IsHexDigit(c)
    ensures 0 <= v < 16
  {
    if '0' <= c <= '9' then c as int - '0' as int
    else if 'a' <= c <= 'f' then c as int - 'a' as int + 10
    else c as int - 'A' as int + 10
  }

  /** The lower-case digit for a nibble, as the id's hexadecimal form writes it. */
  function HexDigit(v: int): (c: char)
    requires 0 <= v < 16
    ensures IsHexDigit(c) && DigitValue(c) == v
    ensures !('A' <= c <= 'F')
  {
    if v < 10 then ('0' as int + v) as char else ('a' as int + v - 10) as char
  }

  function LowerDigit(c: char): char {
    if 'A' <= c <= 'F' then (c as int - 'A' as int + 'a' as int) as char else c
  }

  function LowerText(s: string): (r: string)
    ensures |r| == |s|
  {
    if s == [] then [] else [LowerDigit(s[0])] + LowerText(s[1..])
  }

  /** Hexadecimal decoding: two digits per byte, the first the high nibble. */
  function DecodeHex(s: string): (r: Option<seq<Byte>>)
    ensures r.Some? <==> |s| % 2 == 0 && IsHexText(s)
    ensures r.Some? ==> 2 * |r.value| == |s|
  {
    if |s| == 0 then Some([])
    else if |s| == 1 || !IsHexDigit(s[0]) || !IsHexDigit(s[1]) then None
    else
      match DecodeHex(s[2..])
      case None => None
      case Some(rest) => Some([(16 * DigitValue(s[0]) + DigitValue(s[1])) as Byte] + rest)
  }

  /** Hexadecimal encoding, lower case. */
  function EncodeHex(b: seq<Byte>): (s: string)
    ensures |s| == 2 * |b| && IsHexText(s)
    ensures forall i :: 0 <= i < |s| ==> !('A' <= s[i] <= 'F')
  {
    if b == [] then ""
    else [HexDigit(b[0] as int / 16), HexDigit(b[0] as int % 16)] + EncodeHex(b[1..])
  }

  /** The text form of an id. */
  function Hex(id: ObjectId): (s: string)
    ensures |s| == ID_TEXT_LENGTH
  {
    EncodeHex(id)
  }

  /** Parse an id: exactly 24 hexadecimal digits, else no id. */
  function ParseId(s: string): (r: Option<ObjectId>)
    ensures r.Some? <==> |s| == ID_TEXT_LENGTH && IsHexText(s)
  {
    if |s| != ID_TEXT_LENGTH then None
    else
      match DecodeHex(s)
      case None => None
      case Some(b) => Some(b)
  }

  lemma {:induction false} DecodeEncode(b: seq<Byte>)
    ensures DecodeHex(EncodeHex(b)) == Some(b)
  {
    if b != [] {
      var s := EncodeHex(b);
      var hi, lo := b[0] as int / 16, b[0] as int % 16;
      assert s[2..] == EncodeHex(b[1..]);
      DecodeEncode(b[1..]);
      assert DigitValue(s[0]) == hi && DigitValue(s[1]) == lo;
      assert (16 * hi + lo) as Byte == b[0];
      assert b == [b[0]] + b[1..];
    }
  }

  lemma {:induction false} EncodeDecode(s: string)
    requires DecodeHex(s).Some?
    ensures EncodeHex(DecodeHex(s).value) == LowerText(s)
  {
    if |s| > 0 {
      var hi, lo := DigitValue(s[0]), DigitValue(s[1]);
      var rest := DecodeHex(s[2..]).value;
      EncodeDecode(s[2..]);
      var v := 16 * hi + lo;
      assert v / 16 == hi && v % 16 == lo;
      assert HexDigit(hi) == LowerDigit(s[0]);
      assert HexDigit(lo) == LowerDigit(s[1]);
      assert DecodeHex(s).value == [v as Byte] + rest;
      assert ([v as Byte] + rest)[1..] == rest;
      calc {
        LowerText(s);
        [LowerDigit(s[0])] + LowerText(s[1..]);
        { assert s[1..][1..] == s[2..]; }
        [LowerDigit(s[0])] + ([LowerDigit(s[1])] + LowerText(s[2..]));
      }
    }
  }

  /** Parsing the text form of an id gives that id back. */
  lemma ParseHex(id: ObjectId)
    ensures ParseId(Hex(id)) == Some(id)
  {
    DecodeEncode(id);
  }

  /** An accepted text is the id's text form up to the case of its letters. */
  lemma HexOfParsed(s: string)
    requires ParseId(s).Some?
    ensures Hex(ParseId(s).value) == LowerText(s)
  {
    EncodeDecode(s);
  }
}
