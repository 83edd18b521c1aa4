/** The flat byte string behind a list of equally sized blocks. */
module FlatView {
  import opened Bytes

  ghost predicate Uniform(blocks: seq<seq<byte>>, b: nat) {
    forall k :: 0 <= k < |blocks| ==> |blocks[k]| == b
  }

  function Join(blocks: seq<seq<byte>>): seq<byte> {
    if |blocks| == 0 then [] else blocks[0] + Join(blocks[1..])
  }

  // s with d written over it at position p.
  function Splice(s: seq<byte>, p: nat, d: seq<byte>): (r: seq<byte>)
    requires p + |d| <= |s|
    ensures |r| == |s|
  {
    s[..p] + d + s[p + |d|..]
  }

  lemma SpliceNothing(s: seq<byte>, p: nat, d: seq<byte>)
    requires p <= |s|
    ensures Splice(s, p, d[..0]) == s
  {
  }

  lemma SliceNext(s: seq<byte>, p: nat, i: nat, j: nat)
    requires i <= j && p + j <= |s|
    ensures s[p..p + i] + s[p + i..p + j] == s[p..p + j]
  {
  }

  // Copying d piece by piece is copying d.
  lemma SpliceNext(s: seq<byte>, p: nat, d: seq<byte>, i: nat, j: nat)
    requires i <= j <= |d| && p + |d| <= |s|
    ensures Splice(Splice(s, p, d[..i]), p + i, d[i..j]) == Splice(s, p, d[..j])
  {
    assert d[..i] + d[i..j] == d[..j];
  }

  lemma {:induction false} JoinLength(blocks: seq<seq<byte>>, b: nat)
    requires Uniform(blocks, b)
    ensures |Join(blocks)| == Times(|blocks|, b)
  {
    if |blocks| > 0 {
      JoinLength(blocks[1..], b);
    }
  }

  lemma {:induction false} JoinAppend(xs: seq<seq<byte>>, ys: seq<seq<byte>>)
    ensures Join(xs + ys) == Join(xs) + Join(ys)
  {
    if |xs| == 0 {
      assert xs + ys == ys;
    } else {
      assert (xs + ys)[1..] == xs[1..] + ys;
      JoinAppend(xs[1..], ys);
      assert (xs[0] + Join(xs[1..])) + Join(ys) == xs[0] + (Join(xs[1..]) + Join(ys));
    }
  }

  lemma JoinApart(xs: seq<seq<byte>>, m: seq<byte>, ys: seq<seq<byte>>)
    ensures Join(xs + ([m] + ys)) == Join(xs) + m + Join(ys)
  {
    JoinAppend(xs, [m] + ys);
    assert ([m] + ys)[1..] == ys;
    assert Join(xs) + (m + Join(ys)) == Join(xs) + m + Join(ys);
  }

  // Block k occupies exactly the bytes [k*b, (k+1)*b).
  lemma JoinAround(blocks: seq<seq<byte>>, b: nat, k: nat)
    requires Uniform(blocks, b) && k < |blocks|
    ensures Join(blocks) == Join(blocks[..k]) + blocks[k] + Join(blocks[k + 1..])
    ensures |Join(blocks[..k])| == Times(k, b)
    ensures Times(k, b) + b <= Times(|blocks|, b) == |Join(blocks)|
  {
    hide Join, Times;
    assert blocks == blocks[..k] + ([blocks[k]] + blocks[k + 1..]);
    JoinApart(blocks[..k], blocks[k], blocks[k + 1..]);
    JoinLength(blocks[..k], b);
    JoinLength(blocks, b);
    TimesMonotone(k, |blocks|, b);
  }

  lemma SpliceMiddle(a: seq<byte>, m: seq<byte>, c: seq<byte>, o: nat, d: seq<byte>)
    requires o + |d| <= |m|
    ensures Splice(a + m + c, |a| + o, d) == a + Splice(m, o, d) + c
  {
  }

  lemma SliceMiddle(a: seq<byte>, m: seq<byte>, c: seq<byte>, o: nat, n: nat)
    requires o + n <= |m|
    ensures (a + m + c)[|a| + o..|a| + o + n] == m[o..o + n]
  {
  }

  lemma JoinSet(blocks: seq<seq<byte>>, b: nat, k: nat, block: seq<byte>)
    requires Uniform(blocks, b) && k < |blocks| && |block| == b
    ensures Join(blocks[k := block]) == Join(blocks[..k]) + block + Join(blocks[k + 1..])
  {
    var after := blocks[k := block];
    assert after[..k] == blocks[..k] && after[k + 1..] == blocks[k + 1..];
    JoinAround(after, b, k);
  }

  // Writing into one block is writing into the flat string.
  lemma JoinWrite(blocks: seq<seq<byte>>, b: nat, k: nat, o: nat, d: seq<byte>)
    requires Uniform(blocks, b) && k < |blocks| && o + |d| <= b
    ensures Times(k, b) + o + |d| <= |Join(blocks)|
    ensures Join(blocks[k := Splice(blocks[k], o, d)]) == Splice(Join(blocks), Times(k, b) + o, d)
  {
    hide Splice, Join;
    JoinAround(blocks, b, k);
    JoinSet(blocks, b, k, Splice(blocks[k], o, d));
    SpliceMiddle(Join(blocks[..k]), blocks[k], Join(blocks[k + 1..]), o, d);
  }

  // Reading from one block is reading from the flat string.
  lemma JoinRead(blocks: seq<seq<byte>>, b: nat, k: nat, o: nat, n: nat)
    requires Uniform(blocks, b) && k < |blocks| && o + n <= b
    ensures Times(k, b) + o + n <= |Join(blocks)|
    ensures blocks[k][o..o + n] == Join(blocks)[Times(k, b) + o..Times(k, b) + o + n]
  {
    JoinAround(blocks, b, k);
    SliceMiddle(Join(blocks[..k]), blocks[k], Join(blocks[k + 1..]), o, n);
  }
}
