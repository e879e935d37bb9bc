/**
 Unsigned varints: seven bits to a byte, least significant first, with the high
 bit set on every byte but the last.
 */
module Varint {
  import opened Basics

  function Encode(x: nat): (b: seq<Byte>)
    ensures |b| > 0
  {
    if x < 128 then [x] else [x % 128 + 128] + Encode(x / 128)
  }

  datatype Decoded = Decoded(x: nat, n: nat)

  function Decode(b: seq<Byte>): (r: Option<Decoded>)
    ensures r.Some? ==> 0 < r.value.n <= |b|
  {
    if b == [] then None
    else if b[0] < 128 then Some(Decoded(b[0], 1))
    else
      match Decode(b[1..])
      case None => None
      case Some(d) => Some(Decoded(b[0] - 128 + 128 * d.x, d.n + 1))
  }

  /** Decoding undoes encoding, whatever follows. */
  lemma {:induction false} DecodeEncode(x: nat, rest: seq<Byte>)
    ensures Decode(Encode(x) + rest) == Some(Decoded(x, |Encode(x)|))
  {
    if x >= 128 {
      DecodeEncode(x / 128, rest);
      assert (Encode(x) + rest)[1..] == Encode(x / 128) + rest;
    } else {
      assert (Encode(x) + rest)[0] == x;
    }
  }

  /** Only the minimal form is an encoding: a final zero byte is redundant. */
  lemma {:induction false} EncodeDecode(b: seq<Byte>)
    requires Decode(b).Some?
    ensures var d := Decode(b).value;
            Encode(d.x) == b[..d.n] <==> (d.n == 1 || b[d.n - 1] != 0)
    ensures Decode(b).value.x < 128 ==> Decode(b).value.n == 1 || b[Decode(b).value.n - 1] == 0
    ensures Decode(b).value.x == 0 && Decode(b).value.n > 1 ==> b[Decode(b).value.n - 1] == 0
  {
    var d := Decode(b).value;
    if b[0] < 128 {
      assert b[..1] == [b[0]];
    } else {
      var e := Decode(b[1..]).value;
      EncodeDecode(b[1..]);
      assert b[..d.n] == [b[0]] + b[1..][..e.n];
      if e.x == 0 {
        assert Encode(d.x) == [d.x];
        assert b[d.n - 1] == b[1..][e.n - 1];
        if e.n == 1 {
          assert b[1] == 0;
        }
      } else {
        assert d.x / 128 == e.x && d.x % 128 == b[0] - 128;
        assert b[d.n - 1] == b[1..][e.n - 1];
        assert Encode(d.x)[1..] == Encode(e.x);
        assert ([b[0]] + b[1..][..e.n])[1..] == b[1..][..e.n];
      }
    }
  }

  function Power128(k: nat): nat {
    if k == 0 then 1 else 128 * Power128(k - 1)
  }

  lemma {:induction false} EncodeLength(x: nat, k: nat)
    requires k > 0 && x < Power128(k)
    ensures |Encode(x)| <= k
  {
    if x >= 128 {
      EncodeLength(x / 128, k - 1);
    }
  }
}
