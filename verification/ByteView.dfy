/** What a ByteArray is worth as a value, and what each of its operations does to that value. */
module ByteView {
  import opened Bytes
  import opened FlatView

  // The ways a call can end: normally, with std::out_of_range, or by dereferencing a null node.
  datatype Outcome<+T> = Ok(value: T) | OutOfRange | NullDeref

  // The cursor, the two limits, the settings and all bytes of all nodes.
  datatype View = View(base: nat, position: nat, size: nat, capacity: nat, flat: seq<byte>, little: bool)
  {
    ghost predicate Valid() {
      base >= 1 && position <= size <= capacity == |flat|
    }

    // The bytes the caller has written or seeked over.
    function Contents(): seq<byte>
      requires Valid()
    {
      flat[..size]
    }
  }

  function CeilDiv(n: nat, b: nat): nat
    requires b > 0
  {
    (n + b - 1) / b
  }

  // The capacity after room for `need` bytes was asked for: nodes are added while they are needed.
  function Grown(capacity: nat, need: nat, b: nat): (r: nat)
    requires b > 0
    ensures capacity <= r && need <= r
    ensures r == capacity || r < need + b
    decreases need - capacity
  {
    if need <= capacity then capacity else Grown(capacity + b, need, b)
  }

  // The code computes the number of nodes to add in one division.
  lemma {:induction false} GrownByDivision(capacity: nat, need: nat, b: nat)
    requires b > 0 && capacity < need
    ensures Grown(capacity, need, b) == capacity + Times(CeilDiv(need - capacity, b), b)
    ensures CeilDiv(need - capacity, b) > 0
    decreases need - capacity
  {
    var n := need - capacity;
    CeilDivSteps(n, b);
    if capacity + b < need {
      GrownByDivision(capacity + b, need, b);
    }
  }

  lemma CeilDivSteps(n: nat, b: nat)
    requires b > 0 && n > 0
    ensures CeilDiv(n, b) == if n <= b then 1 else 1 + CeilDiv(n - b, b)
  {
    BlockArithmetic(n + b - 1, b);
    if n > b {
      BlockArithmetic(n - b + b - 1, b);
    }
  }

  lemma {:induction false} GrownTwice(capacity: nat, p: nat, q: nat, b: nat)
    requires b > 0 && p <= q
    ensures Grown(Grown(capacity, p, b), q, b) == Grown(capacity, q, b)
    decreases p - capacity
  {
    if p > capacity {
      GrownTwice(capacity + b, p, q, b);
    }
  }

  // Growth stops at the first whole number of nodes that is enough.
  lemma {:induction false} GrownLeast(nodes: nat, need: nat, b: nat, other: nat)
    requires b > 0 && nodes <= other && need <= Times(other, b)
    ensures Grown(Times(nodes, b), need, b) <= Times(other, b)
    decreases other - nodes
  {
    TimesMonotone(nodes, other, b);
    if need > Times(nodes, b) {
      GrownLeast(nodes + 1, need, b, other);
    }
  }

  // t is s after room was made for n bytes behind the cursor: nothing else changed.
  ghost predicate Room(s: View, t: View, n: nat) {
    && s.Valid() && t.Valid()
    && t.base == s.base && t.little == s.little && t.position == s.position && t.size == s.size
    && t.capacity == Grown(s.capacity, s.position + n, s.base)
    && s.flat <= t.flat
  }

  lemma RoomEnough(s: View, n: nat)
    requires s.Valid() && s.position + n <= s.capacity
    ensures Room(s, s, n)
  {
  }

  lemma RoomGrown(s: View, t: View, n: nat)
    requires s.Valid() && s.flat <= t.flat && |t.flat| == Grown(s.capacity, s.position + n, s.base)
    requires t == s.(capacity := |t.flat|, flat := t.flat)
    ensures Room(s, t, n)
  {
  }

  // t is s after writing d: exactly the bytes [position, position + |d|) are replaced, the size
  // rises to the new position, and the capacity grows only when it has to.
  ghost predicate Written(s: View, t: View, d: seq<byte>) {
    && s.Valid() && t.Valid()
    && t.base == s.base && t.little == s.little
    && t.position == s.position + |d|
    && t.size == Max(s.size, t.position)
    && t.capacity == Grown(s.capacity, t.position, s.base)
    && t.flat[..t.position] == s.flat[..s.position] + d
    && (t.position <= s.capacity ==> t.flat[t.position..] == s.flat[t.position..])
  }

  // Making room, copying over the bytes behind the cursor and moving the cursor is writing.
  lemma WrittenBySplice(s: View, m: View, t: View, d: seq<byte>)
    requires Room(s, m, |d|)
    requires m.position + |d| <= |m.flat|
    requires t == m.(position := m.position + |d|, size := Max(m.size, m.position + |d|),
                     flat := Splice(m.flat, m.position, d))
    ensures Written(s, t, d)
  {
    assert s.flat[..s.position] == m.flat[..s.position];
  }

  lemma WrittenNothing(s: View)
    requires s.Valid()
    ensures Written(s, s, [])
  {
  }

  lemma WrittenTwice(s: View, t: View, u: View, d: seq<byte>, e: seq<byte>)
    requires Written(s, t, d) && Written(t, u, e)
    ensures Written(s, u, d + e)
  {
    GrownTwice(s.capacity, t.position, u.position, s.base);
    assert s.flat[..s.position] + d + e == s.flat[..s.position] + (d + e);
    if u.position <= s.capacity {
      assert t.flat[t.position..][|e|..] == t.flat[u.position..];
      assert s.flat[t.position..][|e|..] == s.flat[u.position..];
    }
  }

  // In terms of the bytes the caller can read: d replaces what it covers and nothing else.
  lemma WrittenContents(s: View, t: View, d: seq<byte>)
    requires Written(s, t, d)
    ensures t.Contents() == s.Contents()[..s.position] + d
                            + (if t.position < s.size then s.Contents()[t.position..] else [])
  {
    assert t.flat == t.flat[..t.position] + t.flat[t.position..];
    if t.position < s.size {
      assert t.Contents() == t.flat[..t.position] + t.flat[t.position..][..s.size - t.position];
      assert s.Contents()[t.position..] == s.flat[t.position..][..s.size - t.position];
    }
  }

  // What reading n bytes at the cursor yields. A read of no bytes still loads the current node,
  // which is null when the cursor is at the end of the last node.
  function Fetch(v: View, n: nat): Outcome<seq<byte>>
    requires v.Valid()
  {
    if n > v.size - v.position then OutOfRange
    else if v.position == v.capacity then NullDeref
    else Ok(v.flat[v.position..v.position + n])
  }

  // A read yields what was written there and no more: it throws exactly when fewer than n bytes have
  // been written behind the cursor.
  lemma FetchMeaning(v: View, n: nat)
    requires v.Valid()
    ensures Fetch(v, n) == OutOfRange <==> v.position + n > |v.Contents()|
    ensures Fetch(v, n) == NullDeref <==> n == 0 && v.position == |v.Contents()| == |v.flat|
    ensures Fetch(v, n).Ok? ==> Fetch(v, n).value == v.Contents()[v.position..v.position + n]
  {
    if v.position + n <= v.size {
      assert v.flat[..v.size][v.position..v.position + n] == v.flat[v.position..v.position + n];
    }
  }

  // What the positional read yields: it starts in the node of the cursor, at the offset of
  // `position`, and its length check wraps when `position` is beyond the size.
  function FetchAt(v: View, n: nat, position: nat): Outcome<seq<byte>>
    requires v.Valid()
  {
    var start := Times(BlockOf(v.position, v.base), v.base) + OffsetIn(position, v.base);
    if n > U64(v.size - position) then OutOfRange
    else if v.position == v.capacity || start + n > v.capacity then NullDeref
    else Ok(v.flat[start..start + n])
  }

  // The positional read delivers the bytes at `position`, whatever they are, exactly when
  // `position` lies in the node of the cursor.
  lemma FetchAtMeaning(v: View, n: nat, position: nat)
    requires v.Valid() && v.capacity < TWO_64
    requires 0 < n && position + n <= v.size
    ensures (forall bytes: seq<byte> :: |bytes| == v.capacity ==>
               FetchAt(v.(flat := bytes), n, position) == Ok(bytes[position..position + n]))
            <==> v.position < v.capacity && position / v.base == v.position / v.base
  {
    if v.position == v.capacity {
      assert FetchAt(v.(flat := v.flat), n, position) == NullDeref;
      return;
    }
    BlockArithmetic(position, v.base);
    BlockArithmetic(v.position, v.base);
    Split(position, v.base);
    var k := BlockOf(v.position, v.base);
    var start := Times(k, v.base) + OffsetIn(position, v.base);
    SplitUnique(k, OffsetIn(position, v.base), v.base);
    if k != BlockOf(position, v.base) {
      ReadsElsewhere(v, n, position, start);
    }
  }

  // It is promised to throw exactly when fewer than n bytes lie behind `position`. It does, for a
  // position up to the size; beyond it, only for lengths that no array has.
  lemma FetchAtThrows(v: View, n: nat, position: nat)
    requires v.Valid() && v.capacity < TWO_64 && position < TWO_64
    ensures FetchAt(v, n, position) == OutOfRange <==> n > v.size - position + if position > v.size then TWO_64 else 0
    ensures (FetchAt(v, n, position) == OutOfRange <==> n > v.size - position)
            <==> position <= v.size || n > v.size - position + TWO_64
  {
    if position > v.size {
      assert (v.size - position) % TWO_64 == v.size - position + TWO_64;
    }
  }

  // Bytes that tell the place read from the place asked for.
  lemma ReadsElsewhere(v: View, n: nat, position: nat, start: nat)
    requires v.Valid() && 0 < n && position + n <= v.size && start != position
    requires start == Times(BlockOf(v.position, v.base), v.base) + OffsetIn(position, v.base)
    ensures exists bytes: seq<byte> :: |bytes| == v.capacity
              && FetchAt(v.(flat := bytes), n, position) != Ok(bytes[position..position + n])
  {
    hide Times, BlockOf, OffsetIn;
    var bytes := seq(v.capacity, i requires 0 <= i < v.capacity => if i == start then 1 as byte else 0);
    assert bytes[position..position + n][0] == 0;
    if start + n <= v.capacity {
      assert bytes[start..start + n][0] == 1;
    }
    assert FetchAt(v.(flat := bytes), n, position) != Ok(bytes[position..position + n]);
  }

  // What getReadBuffers with a position gathers: the length is clamped by what is left at the
  // cursor, and the walk dereferences null when that does not fit behind `position`.
  function ReadableAt(v: View, len: nat, position: nat): Outcome<seq<byte>>
    requires v.Valid()
  {
    var n := Min(len, v.size - v.position);
    if n == 0 then Ok([]) else if position + n > v.capacity then NullDeref else Ok(v.flat[position..position + n])
  }

  function Left(v: View, position: nat): nat
    requires v.Valid()
  {
    if position < v.size then v.size - position else 0
  }

  // It gathers exactly the first min(len, size - position) readable bytes at `position` if and only
  // if as many are left there as at the cursor, or len is no more than either.
  lemma ReadableAtMeaning(v: View, len: nat, position: nat)
    requires v.Valid()
    ensures var k := Min(len, Left(v, position));
            ReadableAt(v, len, position) == Ok(if k == 0 then [] else v.flat[position..position + k])
            <==> Left(v, position) == Left(v, v.position) || (len <= Left(v, position) && len <= Left(v, v.position))
  {
    var k, n := Min(len, Left(v, position)), Min(len, v.size - v.position);
    if k > 0 { assert |v.flat[position..position + k]| == k; }
    if 0 < n && position + n <= v.capacity { assert |v.flat[position..position + n]| == n; }
  }

  // On one node of 8 bytes, all written: from the start the read at 6 runs off the last node, and
  // with the cursor at 6 the read at 0 stops after two bytes. In nodes of 4 bytes a positional read at
  // 6 of a cursor at 0 delivers the bytes at 2.
  lemma PositionalMisses(flat: seq<byte>)
    requires |flat| == 8
    ensures ReadableAt(View(8, 0, 8, 8, flat, false), 8, 6) == NullDeref
    ensures ReadableAt(View(8, 6, 8, 8, flat, false), 8, 0) == Ok(flat[0..2])
    ensures FetchAt(View(4, 0, 8, 8, flat, false), 1, 6) == Ok(flat[2..3])
    ensures FetchAt(View(4, 0, 8, 8, flat, false), 1, 9) == Ok(flat[1..2])
  {
    BlockArithmetic(6, 4);
    BlockArithmetic(9, 4);
    BlockArithmetic(0, 4);
  }
}
