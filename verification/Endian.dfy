/** Fixed-width integers in memory: byte order, byteswap, two's complement and zigzag. */
module Endian {
  import opened Bytes

  // The n low bytes of v, least significant first.
  function LittleBytes(v: nat, n: nat): (s: seq<byte>)
    ensures |s| == n
  {
    if n == 0 then [] else [v % 256] + LittleBytes(v / 256, n - 1)
  }

  function FromLittle(s: seq<byte>): (v: nat)
    ensures v < Pow256(|s|)
  {
    if |s| == 0 then 0 else s[0] + 256 * FromLittle(s[1..])
  }

  lemma {:induction false} LittleRoundTrip(v: nat, n: nat)
    requires v < Pow256(n)
    ensures FromLittle(LittleBytes(v, n)) == v
  {
    if n > 0 {
      LittleRoundTrip(v / 256, n - 1);
      assert LittleBytes(v, n)[1..] == LittleBytes(v / 256, n - 1);
    }
  }

  lemma {:induction false} LittleOnto(s: seq<byte>)
    ensures LittleBytes(FromLittle(s), |s|) == s
  {
    if |s| > 0 {
      LittleOnto(s[1..]);
      var v := FromLittle(s);
      assert v % 256 == s[0] && v / 256 == FromLittle(s[1..]);
    }
  }

  // The memory image of an n-byte word on a machine of the given byte order.
  function Image(v: nat, n: nat, little: bool): (s: seq<byte>)
    ensures |s| == n
  {
    if little then LittleBytes(v, n) else Reverse(LittleBytes(v, n))
  }

  function FromImage(s: seq<byte>, little: bool): (v: nat)
    ensures v < Pow256(|s|)
  {
    FromLittle(if little then s else Reverse(s))
  }

  // bswap_16, bswap_32 and bswap_64 on an n-byte word.
  function Byteswap(v: nat, n: nat): (r: nat)
    ensures r < Pow256(n)
  {
    FromLittle(Reverse(LittleBytes(v, n)))
  }

  lemma {:induction false} LittleAt(v: nat, n: nat, i: nat)
    requires i < n
    ensures LittleBytes(v, n)[i] == v / Pow256(i) % 256
  {
    if i > 0 {
      LittleAt(v / 256, n - 1, i - 1);
      DivideTwice(v, 256, Pow256(i - 1));
    }
  }

  lemma {:induction false} ReverseAt(s: seq<byte>, i: nat)
    requires i < |s|
    ensures Reverse(s)[i] == s[|s| - 1 - i]
  {
    if i < |s| - 1 { ReverseAt(s[1..], i); }
  }

  // A little-endian word starts with its least significant byte, a big-endian one ends with it.
  lemma ImageAt(v: nat, n: nat, i: nat)
    requires i < n
    ensures Image(v, n, true)[i] == v / Pow256(i) % 256
    ensures Image(v, n, false)[i] == v / Pow256(n - 1 - i) % 256
  {
    LittleAt(v, n, i);
    LittleAt(v, n, n - 1 - i);
    ReverseAt(LittleBytes(v, n), i);
  }

  // The first k bytes, byte i weighted with 256^i, or with 256^(|s| - 1 - i).
  function WeightedSum(s: seq<byte>, little: bool, k: nat): nat
    requires k <= |s|
  {
    if k == 0 then 0
    else WeightedSum(s, little, k - 1) + s[k - 1] * Pow256(if little then k - 1 else |s| - k)
  }

  // What bytes stand for: the last byte of a little-endian word weighs most, the first of a big-endian.
  lemma FromImageSum(s: seq<byte>, little: bool)
    ensures FromImage(s, little) == WeightedSum(s, little, |s|)
  {
    if little {
      LittleSum(s, |s|);
      assert s[..|s|] == s;
    } else {
      var r := Reverse(s);
      LittleSum(r, |r|);
      assert r[..|r|] == r;
      ReversedSum(s, |s|);
    }
  }

  lemma {:induction false} LittleSum(s: seq<byte>, k: nat)
    requires k <= |s|
    ensures FromLittle(s[..k]) == WeightedSum(s, true, k)
  {
    if k > 0 {
      LittleSum(s, k - 1);
      LastWeighsMost(s[..k - 1], s[k - 1]);
      assert s[..k - 1] + [s[k - 1]] == s[..k];
    }
  }

  lemma {:induction false} LastWeighsMost(s: seq<byte>, b: byte)
    ensures FromLittle(s + [b]) == FromLittle(s) + b * Pow256(|s|)
  {
    if |s| == 0 {
      assert (s + [b])[1..] == [];
    } else {
      assert (s + [b])[1..] == s[1..] + [b];
      LastWeighsMost(s[1..], b);
      assert 256 * (b * Pow256(|s| - 1)) == b * Pow256(|s|);
    }
  }

  // The sum from the back of the reversed bytes.
  lemma {:induction false} ReversedSum(s: seq<byte>, k: nat)
    requires k <= |s|
    ensures WeightedSum(Reverse(s), true, |s|) - WeightedSum(Reverse(s), true, |s| - k) == WeightedSum(s, false, k)
  {
    if k > 0 {
      ReversedSum(s, k - 1);
      ReverseAt(s, |s| - k);
    }
  }

  lemma ImageRoundTrip(v: nat, n: nat, little: bool)
    requires v < Pow256(n)
    ensures FromImage(Image(v, n, little), little) == v
  {
    LittleRoundTrip(v, n);
    ReverseTwice(LittleBytes(v, n));
  }

  // A swapped word stored in one byte order is the word stored in the other.
  lemma SwapFlipsOrder(v: nat, n: nat, little: bool)
    ensures Image(Byteswap(v, n), n, little) == Image(v, n, !little)
  {
    LittleOnto(Reverse(LittleBytes(v, n)));
    ReverseTwice(LittleBytes(v, n));
  }

  lemma LoadSwapFlipsOrder(s: seq<byte>, little: bool)
    ensures Byteswap(FromImage(s, little), |s|) == FromImage(s, !little)
  {
    var t := if little then s else Reverse(s);
    LittleOnto(t);
    ReverseTwice(s);
  }

  // Byteswap exchanges the bytes of a word, first with last.
  lemma ByteswapDigit(v: nat, n: nat, i: nat)
    requires i < n
    ensures Byteswap(v, n) / Pow256(i) % 256 == v / Pow256(n - 1 - i) % 256
  {
    SwapFlipsOrder(v, n, true);
    ImageAt(Byteswap(v, n), n, i);
    ImageAt(v, n, i);
  }

  lemma ByteswapTwice(v: nat, n: nat)
    requires v < Pow256(n)
    ensures Byteswap(Byteswap(v, n), n) == v
  {
    LittleOnto(Reverse(LittleBytes(v, n)));
    ReverseTwice(LittleBytes(v, n));
    LittleRoundTrip(v, n);
  }

  ghost predicate IsSigned(v: int, n: nat) { 0 - Pow256(n) <= 2 * v < Pow256(n) }

  // Two's complement of an n-byte word, in both directions.
  function ToUnsigned(v: int, n: nat): (u: nat)
    ensures u < Pow256(n)
  {
    v % Pow256(n)
  }

  function ToSigned(u: int, n: nat): int {
    if 2 * u < Pow256(n) then u else u - Pow256(n)
  }

  lemma SignedRoundTrip(v: int, n: nat)
    requires IsSigned(v, n)
    ensures ToSigned(ToUnsigned(v, n), n) == v
  {
    ModOnce(v, Pow256(n));
  }

  // Two's complement: a negative value is stored as that much below 2^(8n).
  lemma SignedValue(v: int, n: nat)
    requires IsSigned(v, n)
    ensures ToUnsigned(v, n) == if v < 0 then v + Pow256(n) else v
  {
    ModOnce(v, Pow256(n));
  }

  lemma ModOnce(v: int, m: int)
    requires m > 0 && -m <= v < m
    ensures v % m == if v < 0 then v + m else v
  {
    if v < 0 {
      SplitOne(v + m, m);
      assert (v + m - m) % m == (v + m) % m by { ModShift(v, m); }
    }
  }

  lemma SplitOne(v: int, m: int)
    requires 0 <= v < m
    ensures v % m == v
  {
  }

  lemma ModShift(v: int, m: int)
    requires m > 0
    ensures (v + m) % m == v % m
  {
    var q, r := v / m, v % m;
    assert v + m == (q + 1) * m + r by { MulNext(q, m); }
    ModUnique(v + m, m, q + 1, r);
  }

  lemma ModUnique(v: int, m: int, q: int, r: int)
    requires m > 0 && 0 <= r < m && v == q * m + r
    ensures v % m == r
  {
    var d := v / m - q;
    assert d * m == r - v % m;
    BelowOneMultiple(d, m);
  }

  // The zigzag code of an n-byte signed value, with the wrap-around of each C++ step written out:
  // negation in the signed type, the cast to unsigned, the doubling and the decrement.
  function EncodeZigzag(v: int, n: nat): (u: nat)
    ensures u < Pow256(n)
  {
    var w := Pow256(n);
    if v < 0 then ((-v % w) * 2 - 1) % w else v * 2 % w
  }

  // (u >> 1) ^ -(u & 1): the mask is 0 or all ones, and xor with all ones is w - 1 - x.
  function DecodeZigzag(u: nat, n: nat): int {
    var half := u / 2;
    ToSigned(if u % 2 == 0 then half else Pow256(n) - 1 - half, n)
  }

  // Zigzag interleaves the signed values 0, -1, 1, -2, 2, ... into 0, 1, 2, 3, 4, ...
  lemma ZigzagValue(v: int, n: nat)
    requires n > 0 && IsSigned(v, n)
    ensures EncodeZigzag(v, n) == if v < 0 then -2 * v - 1 else 2 * v
  {
    var w := Pow256(n);
    assert w >= 256;
    if v < 0 {
      ModOnce(-v, w);
      ModOnce(-v * 2 - 1, w);
    } else {
      ModOnce(v * 2, w);
    }
  }

  lemma ZigzagRoundTrip(v: int, n: nat)
    requires n > 0 && IsSigned(v, n)
    ensures DecodeZigzag(EncodeZigzag(v, n), n) == v
  {
    ZigzagValue(v, n);
  }

  lemma ZigzagOnto(u: nat, n: nat)
    requires n > 0 && u < Pow256(n)
    ensures IsSigned(DecodeZigzag(u, n), n)
    ensures EncodeZigzag(DecodeZigzag(u, n), n) == u
  {
    var half, w, e := u / 2, Pow256(n), 128 * Pow256(n - 1);
    assert w == 2 * e;
    var v := if u % 2 == 0 then half else -half - 1;
    assert half < e;
    assert DecodeZigzag(u, n) == v;
    ZigzagValue(v, n);
  }
}
