/** Bytes, machine words and the small arithmetic facts every module shares. */
module Bytes {

  type byte = x: int | 0 <= x < 256

  const TWO_16 := 0x1_0000
  const TWO_31 := 0x8000_0000
  const TWO_32 := 0x1_0000_0000
  const TWO_63 := 0x8000_0000_0000_0000
  const TWO_64 := 0x1_0000_0000_0000_0000

  // C++ arithmetic on uint64_t and size_t: reduction modulo 2^64.
  function U64(x: int): (r: nat)
    ensures r < TWO_64 && (0 <= x < TWO_64 ==> r == x)
  {
    x % TWO_64
  }

  function Min(a: nat, b: nat): nat { if a < b then a else b }

  function Max(a: nat, b: nat): nat { if a < b then b else a }

  // 256^n, the number of values of an n-byte word.
  function Pow256(n: nat): (r: nat)
    ensures r > 0
  {
    if n == 0 then 1 else 256 * Pow256(n - 1)
  }

  lemma Pow256Values()
    ensures Pow256(1) == 256 && Pow256(2) == TWO_16 && Pow256(4) == TWO_32 && Pow256(8) == TWO_64
  {
  }

  function Reverse(s: seq<byte>): (r: seq<byte>)
    ensures |r| == |s|
  {
    if |s| == 0 then [] else Reverse(s[1..]) + [s[0]]
  }

  lemma {:induction false} ReverseAppend(s: seq<byte>, b: byte)
    ensures Reverse(s + [b]) == [b] + Reverse(s)
  {
    if |s| > 0 {
      assert (s + [b])[1..] == s[1..] + [b];
      ReverseAppend(s[1..], b);
    }
  }

  lemma {:induction false} ReverseTwice(s: seq<byte>)
    ensures Reverse(Reverse(s)) == s
  {
    if |s| > 0 {
      ReverseAppend(Reverse(s[1..]), s[0]);
      ReverseTwice(s[1..]);
    }
  }

  // A position written as block k, offset o is split by division and remainder in exactly this way.
  lemma SplitPosition(k: nat, o: nat, b: nat)
    requires o < b
    ensures (k * b + o) / b == k && (k * b + o) % b == o
  {
    var q := (k * b + o) / b;
    var r := (k * b + o) % b;
    assert q * b + r == k * b + o;
    assert (q - k) * b == o - r;
    BelowOneMultiple(q - k, b);
  }

  lemma DivideTwice(v: nat, a: nat, b: nat)
    requires a > 0 && b > 0
    ensures a * b > 0 && v / a / b == v / (a * b)
  {
    var q, r := v / a, v % a;
    assert q == q / b * b + q % b;
    assert v == q / b * (a * b) + (q % b * a + r) by { assert (q / b * b + q % b) * a == q / b * (a * b) + q % b * a; }
    MulMonotone(q % b, b - 1, a);
    assert (b - 1) * a + a == a * b;
    SplitPosition(q / b, q % b * a + r, a * b);
  }

  lemma BelowOneMultiple(n: int, b: int)
    requires 0 - b < n * b < b
    ensures n == 0
  {
    MulAtLeast(n, b);
  }

  lemma MulAtLeast(n: int, b: int)
    requires b >= 0
    ensures n >= 1 ==> n * b >= b
    ensures n <= -1 ==> n * b <= -b
  {
    if n >= 1 {
      assert n * b == (n - 1) * b + b;
      assert (n - 1) * b >= 0;
    } else if n <= -1 {
      assert n * b == (n + 1) * b - b;
      assert (n + 1) * b <= 0;
    }
  }

  lemma MulMonotone(m: nat, n: nat, b: nat)
    requires m <= n
    ensures m * b <= n * b
  {
    assert n * b == m * b + (n - m) * b;
    assert (n - m) * b >= 0;
  }

  lemma MulNext(k: int, b: int)
    ensures (k + 1) * b == k * b + b
  {
  }

  // Division of positions into blocks of b bytes, by repeated addition and subtraction: cheap to
  // reason about step by step, and equal to *, / and % (BlockArithmetic).
  function Times(k: nat, b: nat): nat {
    if k == 0 then 0 else Times(k - 1, b) + b
  }

  lemma TimesNext(k: nat, b: nat)
    ensures Times(k + 1, b) == Times(k, b) + b && Times(0, b) == 0
  {
  }

  function BlockOf(p: nat, b: nat): nat
    requires b > 0
  {
    if p < b then 0 else 1 + BlockOf(p - b, b)
  }

  function OffsetIn(p: nat, b: nat): (o: nat)
    requires b > 0
    ensures o < b
  {
    if p < b then p else OffsetIn(p - b, b)
  }

  lemma {:induction false} TimesIsProduct(k: nat, b: nat)
    ensures Times(k, b) == k * b
  {
    if k > 0 {
      TimesIsProduct(k - 1, b);
      MulNext(k - 1, b);
    }
  }

  lemma {:induction false} TimesMonotone(m: nat, n: nat, b: nat)
    requires m <= n
    ensures Times(m, b) <= Times(n, b)
    ensures m < n ==> Times(m, b) + b <= Times(n, b)
    decreases n
  {
    if m < n {
      TimesMonotone(m, n - 1, b);
    }
  }

  lemma {:induction false} TimesAdd(m: nat, n: nat, b: nat)
    ensures Times(m + n, b) == Times(m, b) + Times(n, b)
  {
    if n > 0 {
      TimesAdd(m, n - 1, b);
    }
  }

  // Every position is a block and an offset in it.
  lemma {:induction false} Split(p: nat, b: nat)
    requires b > 0
    ensures p == Times(BlockOf(p, b), b) + OffsetIn(p, b)
  {
    if p >= b {
      Split(p - b, b);
    }
  }

  // ... in one way only.
  lemma {:induction false} SplitUnique(k: nat, o: nat, b: nat)
    requires o < b
    ensures BlockOf(Times(k, b) + o, b) == k && OffsetIn(Times(k, b) + o, b) == o
  {
    if k > 0 {
      SplitUnique(k - 1, o, b);
      assert Times(k, b) + o - b == Times(k - 1, b) + o;
    }
  }

  lemma BlockArithmetic(p: nat, b: nat)
    requires b > 0
    ensures BlockOf(p, b) == p / b && OffsetIn(p, b) == p % b
  {
    Split(p, b);
    TimesIsProduct(BlockOf(p, b), b);
    SplitPosition(BlockOf(p, b), OffsetIn(p, b), b);
  }
}
