/**
 * Document identifiers (the store's ObjectID): twelve bytes, written at the HTTP boundary as
 * 24 hexadecimal digits. `Hex` is the identifier's `Hex()` method (always lower case) and
 * `FromHex` is the driver's `ObjectIDFromHex` (exactly 24 characters, hex digits of either case).
 */
module ObjectIds {
  import opened Wrappers

  newtype byte = x: int | 0 <= x < 256

  type ObjectId = s: seq<byte> | |s| == 12 witness [0, 0, 0, 0, 0, 0, 0, 0, 0, 0, 0, 0]

  /** The lower-case hex digit for a nibble. */
  function HexDigit(n: int): (c: char)
    requires 0 <= n < 16
  {
    if n < 10 then ('0' as int + n) as char else ('a' as int + n - 10) as char
  }

  /** The value of a hex digit of either case; `None` for any other character. */
  function DigitValue(c: char): (v: Option<int>)
    ensures v.Some? ==> 0 <= v.value < 16
  {
    if '0' <= c <= '9' then Some(c as int - '0' as int)
    else if 'a' <= c <= 'f' then Some(c as int - 'a' as int + 10)
    else if 'A' <= c <= 'F' then Some(c as int - 'A' as int + 10)
    else None
  }

  /** Hex digits are mapped to lower case; every other character is left alone. */
  function LowerDigit(c: char): char {
    if 'A' <= c <= 'F' then (c as int - 'A' as int + 'a' as int) as char else c
  }

  function Lower(s: string): (r: string)
    ensures |r| == |s|
  {
    if |s| == 0 then [] else [LowerDigit(s[0])] + Lower(s[1..])
  }

  /** Two lower-case digits per byte, high nibble first. */
  function EncodeHex(b: seq<byte>): (s: string)
    ensures |s| == 2 * |b|
    ensures forall i :: 0 <= i < |s| ==> DigitValue(s[i]).Some? && LowerDigit(s[i]) == s[i]
  {
    if |b| == 0 then []
    else [HexDigit(b[0] as int / 16), HexDigit(b[0] as int % 16)] + EncodeHex(b[1..])
  }

  /** Decodes pairs of hex digits; fails on an odd length or on any non-hex character. */
  function DecodeHex(s: string): (r: Option<seq<byte>>)
    ensures r.Some? ==> 2 * |r.value| == |s|
  {
    if |s| == 0 then Some([])
    else if |s| == 1 then None
    else
      match (DigitValue(s[0]), DigitValue(s[1]), DecodeHex(s[2..]))
      case (Some(hi), Some(lo), Some(rest)) => Some([(hi * 16 + lo) as byte] + rest)
      case _ => None
  }

  function Hex(id: ObjectId): (s: string)
    ensures |s| == 24
  {
    EncodeHex(id)
  }

  /** `ObjectIDFromHex`: anything but 24 hex digits is rejected. */
  function FromHex(s: string): (r: Option<ObjectId>)
    ensures r.Some? ==> |s| == 24
  {
    if |s| != 24 then None
    else match DecodeHex(s)
      case None => None
      case Some(b) => var id: ObjectId := b; Some(id)
  }

  /** A string the handlers accept as an identifier. */
  predicate ValidHex(s: string) {
    FromHex(s).Some?
  }

  lemma DigitRoundTrip(n: int)
    requires 0 <= n < 16
    ensures DigitValue(HexDigit(n)) == Some(n)
  {
  }

  lemma {:induction false} DecodeEncode(b: seq<byte>)
    ensures DecodeHex(EncodeHex(b)) == Some(b)
  {
    if |b| > 0 {
      var s := EncodeHex(b);
      var hi, lo := b[0] as int / 16, b[0] as int % 16;
      DigitRoundTrip(hi);
      DigitRoundTrip(lo);
      assert s[2..] == EncodeHex(b[1..]);
      DecodeEncode(b[1..]);
      assert [(hi * 16 + lo) as byte] + b[1..] == b;
    }
  }

  /** Parsing the hex form of an identifier gives back that identifier. */
  lemma HexRoundTrip(id: ObjectId)
    ensures FromHex(Hex(id)) == Some(id)
  {
    DecodeEncode(id);
  }

  /** Two identifiers with the same hex form are the same identifier. */
  lemma HexInjective(x: ObjectId, y: ObjectId)
    ensures Hex(x) == Hex(y) <==> x == y
  {
    HexRoundTrip(x);
    HexRoundTrip(y);
  }

  /** Printing a parsed digit gives the digit back, in lower case. */
  lemma DigitLower(c: char)
    requires DigitValue(c).Some?
    ensures HexDigit(DigitValue(c).value) == LowerDigit(c)
  {
  }

  lemma {:induction false} EncodeDecode(s: string)
    requires DecodeHex(s).Some?
    ensures EncodeHex(DecodeHex(s).value) == Lower(s)
  {
    if |s| > 0 {
      var hi, lo := DigitValue(s[0]).value, DigitValue(s[1]).value;
      var v := hi * 16 + lo;
      assert v / 16 == hi && v % 16 == lo;
      DigitLower(s[0]);
      DigitLower(s[1]);
      EncodeDecode(s[2..]);
      var b := DecodeHex(s).value;
      assert b[0] as int == v && b[1..] == DecodeHex(s[2..]).value;
      assert Lower(s) == [LowerDigit(s[0])] + ([LowerDigit(s[1])] + Lower(s[2..]));
    }
  }

  /** Decoding succeeds exactly on an even number of hex digits, of either case. */
  lemma {:induction false} DecodeAccepts(s: string)
    ensures DecodeHex(s).Some? <==> |s| % 2 == 0 && forall i :: 0 <= i < |s| ==> DigitValue(s[i]).Some?
  {
    if |s| >= 2 {
      DecodeAccepts(s[2..]);
      assert forall i :: 2 <= i < |s| ==> s[i] == s[2..][i - 2];
    }
  }

  /** `ObjectIDFromHex` accepts exactly the strings of 24 hex digits, upper or lower case. */
  lemma FromHexAccepts(s: string)
    ensures ValidHex(s) <==> |s| == 24 && forall i :: 0 <= i < |s| ==> DigitValue(s[i]).Some?
  {
    DecodeAccepts(s);
  }

  /** Printing a parsed identifier gives back the input, in lower case. */
  lemma FromHexRoundTrip(s: string)
    requires ValidHex(s)
    ensures Hex(FromHex(s).value) == Lower(s)
  {
    EncodeDecode(s);
  }
}
