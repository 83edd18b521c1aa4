/** Little-endian base-128 integers: seven value bits a byte, the top bit set on all but the last. */
module Varint {
  import opened Bytes

  function VarintBytes(v: nat): (s: seq<byte>)
    ensures |s| >= 1
  {
    if v < 128 then [v] else [v % 128 + 128] + VarintBytes(v / 128)
  }

  function Pow128(n: nat): (r: nat)
    ensures r > 0
  {
    if n == 0 then 1 else 128 * Pow128(n - 1)
  }

  // The code has one byte for every started group of seven bits.
  lemma {:induction false} VarintLength(v: nat)
    ensures v < Pow128(|VarintBytes(v)|)
    ensures v > 0 ==> Pow128(|VarintBytes(v)| - 1) <= v
    ensures v == 0 ==> |VarintBytes(v)| == 1
  {
    if v >= 128 {
      VarintLength(v / 128);
      assert |VarintBytes(v)| == |VarintBytes(v / 128)| + 1;
    } else {
      assert Pow128(1) == 128 * Pow128(0);
    }
  }

  // The groups come least significant first, and all but the last have the top bit set.
  lemma {:induction false} VarintAt(v: nat, i: nat)
    requires i < |VarintBytes(v)|
    ensures VarintBytes(v)[i] % 128 == v / Pow128(i) % 128
    ensures VarintBytes(v)[i] >= 128 <==> i < |VarintBytes(v)| - 1
  {
    if v >= 128 {
      assert VarintBytes(v)[0] == v % 128 + 128;
      if i > 0 {
        VarintAt(v / 128, i - 1);
        DivideTwice(v, 128, Pow128(i - 1));
      }
    }
  }

  lemma {:induction false} Pow128Grows(m: nat, n: nat)
    requires m <= n
    ensures Pow128(m) <= Pow128(n)
    decreases n
  {
    if m < n {
      Pow128Grows(m, n - 1);
    }
  }

  lemma VarintAtMost(v: nat, n: nat)
    requires v < Pow128(n)
    ensures |VarintBytes(v)| <= n || v == 0
  {
    VarintLength(v);
    if |VarintBytes(v)| > n {
      Pow128Grows(n, |VarintBytes(v)| - 1);
    }
  }

  // The limits the interface promises: at most 5 bytes for 32 bits and 10 bytes for 64 bits.
  lemma VarintLimits(v: nat)
    ensures v < TWO_32 ==> |VarintBytes(v)| <= 5
    ensures v < TWO_64 ==> |VarintBytes(v)| <= 10
  {
    assert Pow128(2) == 128 * Pow128(1);
    assert Pow128(4) == 128 * Pow128(3);
    assert Pow128(6) == 128 * Pow128(5);
    assert Pow128(8) == 128 * Pow128(7);
    assert Pow128(10) == 128 * Pow128(9);
    if v < TWO_32 { VarintAtMost(v, 5); }
    if v < TWO_64 { VarintAtMost(v, 10); }
    VarintLength(0);
  }

  // What one run of the reading loop makes of a byte string.
  datatype Scan =
    | Value(value: nat, used: nat)  // the loop ended after `used` bytes
    | Starved                       // it asked for a byte that is not there

  // The reading loop from shift i on, for a word of `bits` bits, where shift == 2^i: bits shifted
  // out of the word are lost, and the loop ends after a byte below 0x80 or when the shift reaches
  // the width. The or-ed groups occupy disjoint bits, so their sum is their or.
  function ReadFrom(s: seq<byte>, i: nat, bits: nat, shift: nat): (r: Scan)
    ensures r.Value? ==> r.used <= |s|
    decreases bits - i
  {
    if i >= bits then Value(0, 0)
    else if |s| == 0 then Starved
    else
      var group := Group(s[0], bits, shift);
      if s[0] < 128 then Value(group, 1) else More(group, 1, ReadFrom(s[1..], i + 7, bits, shift * 128))
  }

  // (b & 0x7f) << i in a word of `bits` bits, where shift == 2^i.
  function Group(b: byte, bits: nat, shift: nat): nat { b % 128 * shift % Pow2(bits) }

  // A scan that continues after `used` bytes whose groups add up to `sofar`.
  function More(sofar: nat, used: nat, rest: Scan): Scan {
    if rest.Starved? then Starved else Value(sofar + rest.value, used + rest.used)
  }

  function ReadVarint(s: seq<byte>, bits: nat): (r: Scan)
    ensures r.Value? ==> r.used <= |s|
  {
    ReadFrom(s, 0, bits, 1)
  }

  function Pow2(n: nat): (r: nat)
    ensures r > 0
  {
    if n == 0 then 1 else 2 * Pow2(n - 1)
  }

  lemma {:induction false} Pow2Sum(m: nat, n: nat)
    ensures Pow2(m + n) == Pow2(m) * Pow2(n)
  {
    if m > 0 {
      Pow2Sum(m - 1, n);
      assert Pow2(m + n) == 2 * Pow2(m - 1 + n);
      DoubleProduct(Pow2(m - 1), Pow2(n));
    }
  }

  lemma DoubleProduct(a: nat, b: nat)
    ensures 2 * (a * b) == (2 * a) * b
  {
  }

  lemma Pow2Seven(i: nat)
    ensures Pow2(i + 7) == 128 * Pow2(i)
  {
    assert Pow2(7) == 128 by {
      assert Pow2(3) == 8;
      Pow2Sum(3, 4);
      assert Pow2(4) == 2 * Pow2(3);
    }
    Pow2Sum(7, i);
  }

  lemma Pow2Values()
    ensures Pow2(32) == TWO_32 && Pow2(64) == TWO_64
  {
    Pow2Seven(0);
    Square(8, 0x100);
    Square(16, TWO_16);
    Square(32, TWO_32);
  }

  lemma Square(n: nat, p: nat)
    requires Pow2(n) == p
    ensures Pow2(n + n) == p * p
  {
    Pow2Sum(n, n);
  }

  // Reading back a code gives the value and consumes exactly the code, whatever follows it.
  lemma {:induction false} ReadBack(v: nat, rest: seq<byte>, i: nat, bits: nat, shift: nat)
    requires shift == Pow2(i) && v * shift < Pow2(bits)
    requires v > 0 || i < bits
    ensures ReadFrom(VarintBytes(v) + rest, i, bits, shift) == Value(v * shift, |VarintBytes(v)|)
    decreases v
  {
    hide Pow2, Group;
    var s := VarintBytes(v) + rest;
    InRange(v, i, bits);
    if v < 128 {
      GroupOf(v, v, bits, shift);
      assert s[0] == v;
    } else {
      var q, d: nat := v / 128, v % 128;
      SplitGroup(v, q, d, shift);
      GroupOf(d + 128, d, bits, shift);
      assert s[0] == d + 128 && s[1..] == VarintBytes(q) + rest;
      Pow2Seven(i);
      ReadBack(q, rest, i + 7, bits, shift * 128);
    }
  }

  lemma GroupOf(b: byte, d: nat, bits: nat, shift: nat)
    requires d == b % 128 && d * shift < Pow2(bits)
    ensures Group(b, bits, shift) == d * shift
  {
    Remains(d * shift, Pow2(bits));
  }

  lemma SplitGroup(v: nat, q: nat, d: nat, shift: nat)
    requires v == 128 * q + d
    ensures v * shift == d * shift + q * (shift * 128)
    ensures d * shift <= v * shift && q * (shift * 128) <= v * shift
  {
    assert (128 * q + d) * shift == d * shift + q * (shift * 128);
    MulMonotone(0, d, shift);
    MulMonotone(0, q, shift * 128);
  }

  lemma Remains(x: nat, m: nat)
    requires x < m
    ensures x % m == x
  {
  }

  lemma InRange(v: nat, i: nat, bits: nat)
    requires v * Pow2(i) < Pow2(bits)
    requires v > 0 || i < bits
    ensures i < bits
  {
    if i >= bits {
      Pow2Sum(i - bits, bits);
      MulAtLeast(v, Pow2(i));
      MulAtLeast(Pow2(i - bits), Pow2(bits));
    }
  }

  lemma VarintRoundTrip(v: nat, bits: nat, rest: seq<byte>)
    requires v < Pow2(bits) && bits > 0
    ensures ReadVarint(VarintBytes(v) + rest, bits) == Value(v, |VarintBytes(v)|)
  {
    ReadBack(v, rest, 0, bits, 1);
  }

  // Whatever bytes are read, the result fits the word.
  lemma {:induction false} ReadFits(s: seq<byte>, i: nat, bits: nat, shift: nat)
    requires shift == Pow2(i) && i < bits
    requires ReadFrom(s, i, bits, shift).Value?
    ensures ReadFrom(s, i, bits, shift).value + shift <= Pow2(bits)
    decreases bits - i
  {
    GroupFits(s[0] % 128, i, bits);
    if i + 7 < bits && s[0] >= 128 {
      Pow2Seven(i);
      ReadFits(s[1..], i + 7, bits, shift * 128);
    }
  }

  lemma GroupFits(d: nat, i: nat, bits: nat)
    requires d < 128 && i < bits
    ensures d * Pow2(i) % Pow2(bits) + Pow2(i) <= Pow2(bits)
    ensures i + 7 < bits ==> d * Pow2(i) % Pow2(bits) + Pow2(i) <= 128 * Pow2(i)
  {
    Pow2Sum(bits - i, i);
    GroupBound(d, Pow2(bits - i), Pow2(i));
  }

  lemma GroupBound(d: nat, c: nat, shift: nat)
    requires d < 128 && c > 0 && shift > 0
    ensures c * shift > 0
    ensures d * shift % (c * shift) + shift <= c * shift
    ensures d * shift % (c * shift) + shift <= 128 * shift
  {
    ScaledRemainder(d, c, shift);
    var r := d % c;
    RemainderShrinks(d, c);
    MulNext(r, shift);
    MulMonotone(r + 1, c, shift);
    MulMonotone(r + 1, 128, shift);
  }

  lemma RemainderShrinks(d: nat, c: nat)
    requires c > 0
    ensures d % c <= d
  {
    assert d == d / c * c + d % c;
    assert d / c * c >= 0;
  }

  lemma ScaledRemainder(d: nat, c: nat, s: nat)
    requires c > 0 && s > 0
    ensures c * s > 0 && d * s % (c * s) == d % c * s
  {
    var q, r := d / c, d % c;
    assert d * s == q * (c * s) + r * s by { assert (q * c + r) * s == q * (c * s) + r * s; }
    MulMonotone(r, c - 1, s);
    assert (c - 1) * s + s == c * s;
    assert c * s > 0;
    SplitPosition(q, r * s, c * s);
  }

  // ---- what a run of the loop yields on any bytes ---------------------------------------------------

  // The first k bytes as groups of seven bits, least significant first.
  function GroupSum(s: seq<byte>, k: nat): nat
    requires k <= |s|
  {
    if k == 0 then 0 else GroupSum(s, k - 1) + s[k - 1] % 128 * Pow128(k - 1)
  }

  // The loop stops behind the first byte below 128, or after as many groups as the word needs; it asks
  // for a missing byte exactly when neither comes. What it yields is the number that the groups stand
  // for, cut to the word.
  lemma ReadVarintMeaning(s: seq<byte>, bits: nat)
    requires bits > 0
    ensures var r, most := ReadVarint(s, bits), (bits + 6) / 7;
            && (r.Starved? <==> |s| < most && forall i :: 0 <= i < |s| ==> s[i] >= 128)
            && (r.Value? ==>
                  && 0 < r.used <= most && r.used <= |s| && (r.used < most ==> s[r.used - 1] < 128)
                  && (forall i :: 0 <= i < r.used - 1 ==> s[i] >= 128)
                  && r.value == GroupSum(s, r.used) % Pow2(bits))
  {
    hide Pow2, ReadFrom, ReadVarint;
    FromStart(s, bits);
    ReadShape(s, 0, bits, 1);
    if ReadVarint(s, bits).Value? {
      ReadSum(s, 0, bits, 1);
      ReadFits(s, 0, bits, 1);
      Remains(ReadVarint(s, bits).value, Pow2(bits));
    }
  }

  lemma FromStart(s: seq<byte>, bits: nat)
    ensures ReadVarint(s, bits) == ReadFrom(s, 0, bits, 1) == ReadFrom(s[0..], 7 * 0, bits, 1)
    ensures Pow2(0) == Pow2(7 * 0) == 1 && GroupSum(s, 0) == 0
  {
    assert s[0..] == s;
  }

  // Where the loop stops, from the n-th byte on.
  lemma {:induction false} ReadShape(s: seq<byte>, n: nat, bits: nat, shift: nat)
    requires n <= |s| && 7 * n < bits + 7
    ensures var r, most := ReadFrom(s[n..], 7 * n, bits, shift), (bits + 6) / 7;
            && (r.Starved? <==> |s| < most && forall i :: n <= i < |s| ==> s[i] >= 128)
            && (r.Value? ==>
                  && (n < most ==> r.used > 0) && n + r.used <= most && n + r.used <= |s|
                  && (0 < r.used && n + r.used < most ==> s[n + r.used - 1] < 128)
                  && (forall i :: n <= i < n + r.used - 1 ==> s[i] >= 128))
    decreases |s| - n
  {
    hide Group;
    if 7 * n < bits && n < |s| {
      assert s[n..][1..] == s[n + 1..];
      if s[n] >= 128 { ReadShape(s, n + 1, bits, shift * 128); }
    }
  }

  // What it adds to the first n groups, up to multiples of 2^bits.
  lemma {:induction false} ReadSum(s: seq<byte>, n: nat, bits: nat, shift: nat)
    requires n <= |s| && shift == Pow2(7 * n) && ReadFrom(s[n..], 7 * n, bits, shift).Value?
    ensures var r := ReadFrom(s[n..], 7 * n, bits, shift);
            && n + r.used <= |s|
            && (GroupSum(s, n) + r.value) % Pow2(bits) == GroupSum(s, n + r.used) % Pow2(bits)
    decreases |s| - n
  {
    hide Pow2;
    if 7 * n < bits {
      var all := s[n] % 128 * shift;
      GroupWeight(n);
      assert GroupSum(s, n + 1) == GroupSum(s, n) + all;
      assert s[n..][1..] == s[n + 1..];
      if s[n] >= 128 {
        Pow2Seven(7 * n);
        ReadSum(s, n + 1, bits, shift * 128);
        var rest := ReadFrom(s[n + 1..], 7 * n + 7, bits, shift * 128);
        SameRemainder(GroupSum(s, n) + rest.value, all, Pow2(bits));
      } else {
        SameRemainder(GroupSum(s, n), all, Pow2(bits));
      }
    }
  }

  lemma {:induction false} GroupWeight(n: nat)
    ensures Pow2(7 * n) == Pow128(n)
  {
    if n > 0 {
      GroupWeight(n - 1);
      Pow2Seven(7 * (n - 1));
    }
  }

  // Cutting a summand does not change the cut sum.
  lemma SameRemainder(a: nat, x: nat, m: nat)
    requires m > 0
    ensures (a + x % m) % m == (a + x) % m
  {
    var q, k := x / m, (a + x % m) / m;
    assert a + x == (q + k) * m + (a + x % m) % m by { assert (q + k) * m == q * m + k * m; }
    SplitPosition(q + k, (a + x % m) % m, m);
  }
}
