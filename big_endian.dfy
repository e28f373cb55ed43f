/** The big-endian byte form of an arbitrary-precision integer, as the
    second half of `BigInt::to_bytes_be` returns it: the bytes of the
    magnitude (the sign is returned apart and dropped by the handler), most
    significant first, with no leading zero byte, and `[0]` for zero. */
module BigEndian {

  type Byte = b: int | 0 <= b < 256

  function Magnitude(v: int): nat {
    if v < 0 then -v else v
  }

  /** The value that a big-endian byte string denotes. */
  function FromBytesBe(bs: seq<Byte>): nat {
    if bs == [] then 0 else FromBytesBe(bs[..|bs| - 1]) * 256 + bs[|bs| - 1]
  }

  /** Bytes of a positive number with no leading zero; empty for zero. */
  function MinimalBytes(m: nat): (bs: seq<Byte>)
    ensures FromBytesBe(bs) == m
    ensures bs == [] <==> m == 0
    ensures bs != [] ==> bs[0] != 0
  {
    if m == 0 then []
    else
      var bs := MinimalBytes(m / 256) + [m % 256];
      assert bs[..|bs| - 1] == MinimalBytes(m / 256);
      bs
  }

  /** `to_bytes_be().1`: the magnitude's bytes, at least one of them. */
  function ToBytesBe(v: int): (bs: seq<Byte>)
    ensures |bs| > 0
    ensures FromBytesBe(bs) == Magnitude(v)
    ensures bs[0] == 0 <==> v == 0
    ensures v == 0 ==> bs == [0]
  {
    if v == 0 then [0] else MinimalBytes(Magnitude(v))
  }

  /** Every byte string without a leading zero is the form of exactly one
      magnitude: encoding the value it denotes gives it back. */
  lemma {:induction false} CanonicalBytes(bs: seq<Byte>)
    requires |bs| > 0 && bs[0] != 0
    ensures ToBytesBe(FromBytesBe(bs)) == bs
  {
    var init, last := bs[..|bs| - 1], bs[|bs| - 1];
    var m := FromBytesBe(bs);
    assert m == FromBytesBe(init) * 256 + last;
    assert m / 256 == FromBytesBe(init) && m % 256 == last;
    if init == [] {
      assert last != 0;
      assert MinimalBytes(m) == MinimalBytes(0) + [last];
    } else {
      assert init[0] == bs[0];
      CanonicalBytes(init);
      assert FromBytesBe(init) != 0;
      assert MinimalBytes(m) == MinimalBytes(FromBytesBe(init)) + [last];
      assert init + [last] == bs;
    }
  }

  /** Two integers have the same byte form exactly when their magnitudes agree. */
  lemma BytesDetermineMagnitude(v: int, w: int)
    ensures ToBytesBe(v) == ToBytesBe(w) <==> Magnitude(v) == Magnitude(w)
  {
  }
}
