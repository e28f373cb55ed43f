/** Well-formed UTF-8, as `std::str::from_utf8` accepts it: the byte
    sequences of table 3-7 of the Unicode Standard (chapter 3, "Conformance"),
    decoded to Unicode scalar values. */
module Utf8 {
  import opened Wrappers
  import opened BigEndian

  /** One decoded scalar value and the number of bytes it took. */
  datatype Scalar = Scalar(point: int, width: nat)

  predicate IsScalarValue(p: int) {
    0 <= p < 0xD800 || 0xE000 <= p < 0x11_0000
  }

  predicate IsContinuation(b: Byte) {
    0x80 <= b <= 0xBF
  }

  /** The second byte of a three-byte sequence, which depends on the lead byte. */
  predicate SecondOfThree(lead: int, b: Byte) {
    if lead == 0xE0 then 0xA0 <= b <= 0xBF
    else if lead == 0xED then 0x80 <= b <= 0x9F
    else IsContinuation(b)
  }

  /** The second byte of a four-byte sequence, which depends on the lead byte. */
  predicate SecondOfFour(lead: int, b: Byte) {
    if lead == 0xF0 then 0x90 <= b <= 0xBF
    else if lead == 0xF4 then 0x80 <= b <= 0x8F
    else IsContinuation(b)
  }

  /** The scalar value that the well-formed sequence at the front of `bs`
      encodes, or None when the front of `bs` is not one. */
  function LeadScalar(bs: seq<Byte>): (r: Option<Scalar>)
    requires |bs| > 0
    ensures r.Some? ==> 1 <= r.value.width <= 4 && r.value.width <= |bs|
    ensures r.Some? ==> IsScalarValue(r.value.point)
    ensures r.Some? ==> (r.value.width == 1 <==> r.value.point < 0x80)
    ensures r.Some? && r.value.width == 1 ==> r.value.point == bs[0]
    ensures bs[0] < 0x80 ==> r == Some(Scalar(bs[0], 1))
  {
    var lead: int := bs[0];
    if lead < 0x80 then Some(Scalar(lead, 1))
    else if 0xC2 <= lead <= 0xDF then
      if |bs| >= 2 && IsContinuation(bs[1])
      then Some(Scalar((lead - 0xC0) * 0x40 + (bs[1] as int - 0x80), 2))
      else None
    else if 0xE0 <= lead <= 0xEF then
      if |bs| >= 3 && SecondOfThree(lead, bs[1]) && IsContinuation(bs[2])
      then Some(Scalar((lead - 0xE0) * 0x1000 + (bs[1] as int - 0x80) * 0x40 + (bs[2] as int - 0x80), 3))
      else None
    else if 0xF0 <= lead <= 0xF4 then
      if |bs| >= 4 && SecondOfFour(lead, bs[1]) && IsContinuation(bs[2]) && IsContinuation(bs[3])
      then Some(Scalar((lead - 0xF0) * 0x40000 + (bs[1] as int - 0x80) * 0x1000 + (bs[2] as int - 0x80) * 0x40 + (bs[3] as int - 0x80), 4))
      else None
    else None
  }

  /** `std::str::from_utf8`: the text the bytes spell, or None when they are
      not well-formed UTF-8. */
  function Decode(bs: seq<Byte>): (r: Option<string>)
    ensures r.Some? ==> |r.value| <= |bs|
    ensures r.Some? && bs != [] ==> r.value != []
    ensures r.Some? ==> Encode(r.value) == bs
    decreases |bs|
  {
    if bs == [] then Some([])
    else
      match LeadScalar(bs)
      case None => None
      case Some(sc) =>
        match Decode(bs[sc.width..])
        case None => None
        case Some(rest) =>
          EncodingOfLeadScalar(bs);
          assert ([sc.point as char] + rest)[1..] == rest;
          assert bs == bs[..sc.width] + bs[sc.width..];
          Some([sc.point as char] + rest)
  }

  /** The UTF-8 encoding of one scalar value, written independently of the
      decoder: one byte below 0x80, two below 0x800, three below 0x10000,
      four above. */
  function EncodeScalar(p: int): (bs: seq<Byte>)
    requires IsScalarValue(p)
    ensures 1 <= |bs| <= 4
  {
    if p < 0x80 then [p]
    else if p < 0x800 then [0xC0 + p / 0x40, 0x80 + p % 0x40]
    else if p < 0x1_0000 then [0xE0 + p / 0x1000, 0x80 + (p / 0x40) % 0x40, 0x80 + p % 0x40]
    else [0xF0 + p / 0x4_0000, 0x80 + (p / 0x1000) % 0x40, 0x80 + (p / 0x40) % 0x40, 0x80 + p % 0x40]
  }

  /** The UTF-8 encoding of a text, character by character. */
  function Encode(s: string): seq<Byte> {
    if s == [] then [] else EncodeScalar(s[0] as int) + Encode(s[1..])
  }

  /** Division by one of the encoder's radices, 2^6, 2^12 or 2^18. */
  lemma DivMod(p: int, q: int, r: int, d: int)
    requires d == 0x40 || d == 0x1000 || d == 0x4_0000
    requires 0 <= r < d && p == q * d + r
    ensures p / d == q && p % d == r
  {
    if d == 0x40 {
      assert p == q * 0x40 + r;
    } else if d == 0x1000 {
      assert p == q * 0x1000 + r;
    } else {
      assert p == q * 0x4_0000 + r;
    }
  }

  /** The decoder reads an encoded scalar value back, whatever follows it. */
  lemma LeadScalarOfEncoding(p: int, rest: seq<Byte>)
    requires IsScalarValue(p)
    ensures LeadScalar(EncodeScalar(p) + rest) == Some(Scalar(p, |EncodeScalar(p)|))
  {
    var bs := EncodeScalar(p) + rest;
    if p < 0x80 {
    } else if p < 0x800 {
      var a, c := p / 0x40, p % 0x40;
      assert 2 <= a < 32;
      assert bs[0] == 0xC0 + a && bs[1] == 0x80 + c;
    } else if p < 0x1_0000 {
      var a, m := p / 0x1000, p % 0x1000;
      var b, c := m / 0x40, m % 0x40;
      assert p / 0x40 == a * 0x40 + b;
      DivMod(p / 0x40, a, b, 0x40);
      assert a < 16;
      assert a == 0 ==> b >= 0x20;
      assert a == 0xD ==> b < 0x20;
      assert bs[0] == 0xE0 + a && bs[1] == 0x80 + b && bs[2] == 0x80 + c;
      assert p == a * 0x1000 + b * 0x40 + c;
    } else {
      var a, m := p / 0x4_0000, p % 0x4_0000;
      var b, n := m / 0x1000, m % 0x1000;
      var c, e := n / 0x40, n % 0x40;
      assert p / 0x1000 == a * 0x40 + b;
      DivMod(p / 0x1000, a, b, 0x40);
      assert p / 0x40 == (a * 0x40 + b) * 0x40 + c;
      DivMod(p / 0x40, a * 0x40 + b, c, 0x40);
      assert a <= 4;
      assert a == 0 ==> b >= 0x10;
      assert a == 4 ==> b < 0x10;
      assert bs[0] == 0xF0 + a && bs[1] == 0x80 + b && bs[2] == 0x80 + c && bs[3] == 0x80 + e;
      assert p == a * 0x4_0000 + b * 0x1000 + c * 0x40 + e;
    }
  }

  /** A sequence the decoder accepts at the front of `bs` is the encoding of
      the value it yields. */
  lemma EncodingOfLeadScalar(bs: seq<Byte>)
    requires |bs| > 0 && LeadScalar(bs).Some?
    ensures EncodeScalar(LeadScalar(bs).value.point) == bs[..LeadScalar(bs).value.width]
  {
    var sc := LeadScalar(bs).value;
    var p := sc.point;
    var lead: int := bs[0];
    if sc.width == 2 {
      DivMod(p, lead - 0xC0, bs[1] as int - 0x80, 0x40);
    } else if sc.width == 3 {
      var b, c := bs[1] as int - 0x80, bs[2] as int - 0x80;
      DivMod(p, lead - 0xE0, b * 0x40 + c, 0x1000);
      DivMod(p, (lead - 0xE0) * 0x40 + b, c, 0x40);
      DivMod(p / 0x40, lead - 0xE0, b, 0x40);
    } else if sc.width == 4 {
      var b, c, e := bs[1] as int - 0x80, bs[2] as int - 0x80, bs[3] as int - 0x80;
      DivMod(p, lead - 0xF0, b * 0x1000 + c * 0x40 + e, 0x4_0000);
      DivMod(p, ((lead - 0xF0) * 0x40 + b) * 0x40 + c, e, 0x40);
      DivMod(p / 0x40, (lead - 0xF0) * 0x40 + b, c, 0x40);
      DivMod(p, (lead - 0xF0) * 0x40 + b, c * 0x40 + e, 0x1000);
      DivMod(p / 0x1000, lead - 0xF0, b, 0x40);
    }
  }

  /** Every text survives encoding and decoding. */
  lemma {:induction false} DecodeEncode(s: string)
    ensures Decode(Encode(s)) == Some(s)
  {
    if s != [] {
      var head, tail := EncodeScalar(s[0] as int), Encode(s[1..]);
      LeadScalarOfEncoding(s[0] as int, tail);
      assert (head + tail)[|head|..] == tail;
      DecodeEncode(s[1..]);
      assert [(s[0] as int) as char] + s[1..] == s;
    }
  }

  /** `from_utf8` accepts exactly the encodings of texts, and reads each as
      the text it encodes. */
  lemma DecodeExactlyEncodings(bs: seq<Byte>, s: string)
    ensures Decode(bs) == Some(s) <==> bs == Encode(s)
  {
    DecodeEncode(s);
  }

  /** Bytes the decoder refuses encode no text at all. */
  lemma RefusedIsNoEncoding(bs: seq<Byte>)
    requires Decode(bs).None?
    ensures forall s :: Encode(s) != bs
  {
    forall s ensures Encode(s) != bs {
      DecodeEncode(s);
    }
  }

  predicate IsAscii(s: string) {
    forall i :: 0 <= i < |s| ==> s[i] < 128 as char
  }

  /** The one-byte-per-character encoding of an ASCII string. */
  function AsciiBytes(s: string): (bs: seq<Byte>)
    requires IsAscii(s)
    ensures |bs| == |s|
    ensures forall i :: 0 <= i < |s| ==> bs[i] == s[i] as int
  {
    seq(|s|, i requires 0 <= i < |s| => s[i] as int)
  }

  /** A byte string decodes to a given ASCII text exactly when it is that
      text's one-byte-per-character encoding. */
  lemma {:induction false} DecodeAscii(bs: seq<Byte>, s: string)
    requires IsAscii(s)
    ensures Decode(bs) == Some(s) <==> bs == AsciiBytes(s)
    decreases |bs|
  {
    if bs == AsciiBytes(s) && s != [] {
      assert LeadScalar(bs) == Some(Scalar(s[0] as int, 1));
      assert bs[1..] == AsciiBytes(s[1..]);
      DecodeAscii(bs[1..], s[1..]);
      assert [(s[0] as int) as char] + s[1..] == s;
    }
    if Decode(bs) == Some(s) && bs != [] {
      var sc := LeadScalar(bs).value;
      var rest := Decode(bs[sc.width..]).value;
      assert s == [sc.point as char] + rest;
      assert sc.point < 0x80 by { assert s[0] < 128 as char; }
      assert IsAscii(rest) by {
        forall i | 0 <= i < |rest| ensures rest[i] < 128 as char { assert rest[i] == s[i + 1]; }
      }
      DecodeAscii(bs[1..], rest);
      assert bs == [bs[0]] + bs[1..];
    }
  }
}
