/** ByteArray: a growable chain of equally sized nodes with a cursor, used as one flat byte string. */
module ByteArrays {
  import opened Bytes
  import opened FlatView
  import opened ByteView
  import opened Endian
  import opened Varint
  import opened TypedCodec

  class Node {
    const ptr: array<byte>
    const size: nat
    var next: Node?

    constructor (s: nat)
      ensures next == null && size == s && ptr.Length == s && fresh(ptr)
    {
      ptr := new byte[s];
      size := s;
      next := null;
    }
  }

  // ---- the chain of nodes -----------------------------------------------------------------------

  // Node i points to the next node of the chain.
  ghost predicate Linked(ns: seq<Node>, i: nat)
    requires i < |ns|
    reads ns[i]
  {
    ns[i].next == if i + 1 < |ns| then ns[i + 1] else null
  }

  ghost predicate Distinct(ns: seq<Node>) {
    forall i, j :: 0 <= i < j < |ns| ==> ns[i] != ns[j] && ns[i].ptr != ns[j].ptr
  }

  ghost predicate Owned(ns: seq<Node>, b: nat, repr: set<object>) {
    forall i :: 0 <= i < |ns| ==> ns[i] in repr && ns[i].ptr in repr && ns[i].size == b == ns[i].ptr.Length
  }

  // A null-terminated chain of distinct nodes of b bytes each, all in repr.
  ghost predicate Chain(ns: seq<Node>, b: nat, repr: set<object>)
    reads ns
  {
    && b >= 1 && |ns| >= 1
    && Owned(ns, b, repr) && Distinct(ns)
    && (forall i: nat :: i < |ns| ==> Linked(ns, i))
  }

  // The node that holds position p, or null behind the last node.
  ghost function NodeAt(ns: seq<Node>, b: nat, p: nat): Node?
    requires b >= 1
  {
    if BlockOf(p, b) < |ns| then ns[BlockOf(p, b)] else null
  }

  ghost function BlocksOf(ns: seq<Node>): (r: seq<seq<byte>>)
    reads set n | n in ns :: n.ptr
    ensures |r| == |ns| && forall i :: 0 <= i < |ns| ==> r[i] == ns[i].ptr[..]
  {
    if |ns| == 0 then [] else BlocksOf(ns[..|ns| - 1]) + [ns[|ns| - 1].ptr[..]]
  }

  // All bytes of all nodes.
  ghost function FlatOf(ns: seq<Node>): seq<byte>
    reads set n | n in ns :: n.ptr
  {
    Join(BlocksOf(ns))
  }

  lemma FlatLength(ns: seq<Node>, b: nat, repr: set<object>)
    requires Chain(ns, b, repr)
    ensures |FlatOf(ns)| == Times(|ns|, b)
    ensures Uniform(BlocksOf(ns), b)
  {
    JoinLength(BlocksOf(ns), b);
  }

  // A position before the end of the first n nodes lies in one of them.
  lemma NodeInside(n: nat, p: nat, b: nat)
    requires b >= 1 && p < Times(n, b)
    ensures BlockOf(p, b) < n && p == Times(BlockOf(p, b), b) + OffsetIn(p, b)
    ensures Times(BlockOf(p, b), b) + b <= Times(n, b)
  {
    Split(p, b);
    if n <= BlockOf(p, b) {
      TimesMonotone(n, BlockOf(p, b), b);
    } else {
      TimesMonotone(BlockOf(p, b), n, b);
    }
  }

  lemma NodeAtEnd(ns: seq<Node>, b: nat, p: nat)
    requires b >= 1 && p <= Times(|ns|, b)
    ensures BlockOf(p, b) <= |ns|
    ensures NodeAt(ns, b, p) == null <==> p == Times(|ns|, b)
  {
    if p == Times(|ns|, b) {
      SplitUnique(|ns|, 0, b);
    } else {
      NodeInside(|ns|, p, b);
    }
  }

  // A position before the end is in a node, and the rest of that node is part of the chain.
  lemma Within(ns: seq<Node>, b: nat, repr: set<object>, p: nat)
    requires Chain(ns, b, repr) && p < Times(|ns|, b)
    ensures NodeAt(ns, b, p) != null && NodeAt(ns, b, p) in ns
    ensures NodeAt(ns, b, p).size == b == NodeAt(ns, b, p).ptr.Length && NodeAt(ns, b, p).ptr in repr
    ensures p + (b - OffsetIn(p, b)) <= Times(|ns|, b)
  {
    NodeInside(|ns|, p, b);
  }

  lemma ArraysOwned(ns: seq<Node>, b: nat, repr: set<object>)
    requires Chain(ns, b, repr)
    ensures b >= 1 && |ns| >= 1
    ensures forall n :: n in ns ==> n in repr && n.ptr in repr
  {
  }

  // Moving j bytes on, at most to the end of the node.
  lemma Advance(ns: seq<Node>, b: nat, repr: set<object>, p: nat, j: nat)
    requires Chain(ns, b, repr) && p < Times(|ns|, b) && j <= b - OffsetIn(p, b)
    ensures NodeAt(ns, b, p) != null
    ensures j < b - OffsetIn(p, b) ==>
              NodeAt(ns, b, p + j) == NodeAt(ns, b, p) && OffsetIn(p + j, b) == OffsetIn(p, b) + j
    ensures j == b - OffsetIn(p, b) ==>
              NodeAt(ns, b, p + j) == NodeAt(ns, b, p).next && OffsetIn(p + j, b) == 0
  {
    var k, o := BlockOf(p, b), OffsetIn(p, b);
    NodeInside(|ns|, p, b);
    assert Linked(ns, k);
    if j < b - o {
      SplitUnique(k, o + j, b);
    } else {
      SplitUnique(k + 1, 0, b);
    }
  }

  // The bytes of a node, seen in the flat string.
  lemma Load(ns: seq<Node>, b: nat, repr: set<object>, p: nat, n: nat)
    requires Chain(ns, b, repr) && p < Times(|ns|, b) && n <= b - OffsetIn(p, b)
    ensures NodeAt(ns, b, p) != null && NodeAt(ns, b, p) in ns && NodeAt(ns, b, p).ptr.Length == b
    ensures p + n <= |FlatOf(ns)|
    ensures NodeAt(ns, b, p).ptr[OffsetIn(p, b)..OffsetIn(p, b) + n] == FlatOf(ns)[p..p + n]
  {
    FlatLength(ns, b, repr);
    NodeInside(|ns|, p, b);
    JoinRead(BlocksOf(ns), b, BlockOf(p, b), OffsetIn(p, b), n);
  }

  lemma FollowNext(ns: seq<Node>, b: nat, repr: set<object>, k: nat)
    requires Chain(ns, b, repr) && k < |ns|
    ensures ns[k].next == if k + 1 < |ns| then ns[k + 1] else null
    ensures ns[k] in repr && ns[k].size == b >= 1
  {
    assert Linked(ns, k);
  }

  // What is left when every node but the first is dropped.
  lemma FirstNode(ns: seq<Node>, b: nat, repr: set<object>)
    requires Chain(ns, b, repr)
    ensures |ns| >= 1 && b >= 1
    ensures ns[0] in repr && ns[0].ptr in repr && ns[0].size == b == ns[0].ptr.Length
    ensures b <= |FlatOf(ns)| && FlatOf([ns[0]]) == FlatOf(ns)[..b]
    ensures NodeAt([ns[0]], b, 0) == ns[0]
    ensures Times(1, b) == b
  {
    assert BlocksOf(ns) == [ns[0].ptr[..]] + BlocksOf(ns)[1..];
    assert BlocksOf([ns[0]]) == [ns[0].ptr[..]];
    assert Join([ns[0].ptr[..]]) == ns[0].ptr[..] + [];
    assert Times(1, b) == Times(0, b) + b;
  }

  lemma SingleChain(n: Node, b: nat, repr: set<object>)
    requires b >= 1 && n.next == null && n in repr && n.ptr in repr && n.size == b == n.ptr.Length
    ensures Chain([n], b, repr)
  {
    assert Linked([n], 0);
  }

  // The next piece of a copy that has reached position start + |buf|.
  lemma LoadNext(ns: seq<Node>, b: nat, repr: set<object>, start: nat, buf: seq<byte>, n: nat)
    requires Chain(ns, b, repr) && start + |buf| < Times(|ns|, b) == |FlatOf(ns)|
    requires n <= b - OffsetIn(start + |buf|, b)
    requires buf == FlatOf(ns)[start..start + |buf|]
    ensures var p, off := start + |buf|, OffsetIn(start + |buf|, b);
            && NodeAt(ns, b, p) != null && NodeAt(ns, b, p).size == b == NodeAt(ns, b, p).ptr.Length
            && p + (b - off) <= Times(|ns|, b)
            && buf + NodeAt(ns, b, p).ptr[off..off + n] == FlatOf(ns)[start..p + n]
            && (n < b - off ==> NodeAt(ns, b, p + n) == NodeAt(ns, b, p))
            && (n == b - off ==> NodeAt(ns, b, p + n) == NodeAt(ns, b, p).next && OffsetIn(p + n, b) == 0)
  {
    hide FlatOf, Chain, NodeAt, OffsetIn, BlockOf, Times;
    var p := start + |buf|;
    Within(ns, b, repr, p);
    Load(ns, b, repr, p, n);
    Advance(ns, b, repr, p, n);
    SliceNext(FlatOf(ns), start, |buf|, |buf| + n);
  }

  // ---- memory operations ------------------------------------------------------------------------

  method CopyIn(dst: array<byte>, off: nat, src: seq<byte>)
    requires off + |src| <= dst.Length
    modifies dst
    ensures dst[..] == Splice(old(dst[..]), off, src)
  {
    forall i | 0 <= i < |src| {
      dst[off + i] := src[i];
    }
  }

  // memcpy of data to position p of the chain, within one node.
  method Store(dst: array<byte>, off: nat, data: seq<byte>,
               ghost ns: seq<Node>, ghost b: nat, ghost repr: set<object>, ghost p: nat)
    requires Chain(ns, b, repr) && p < Times(|ns|, b)
    requires NodeAt(ns, b, p) != null && dst == NodeAt(ns, b, p).ptr && off == OffsetIn(p, b)
    requires |data| <= b - off
    modifies dst
    ensures p + |data| <= |old(FlatOf(ns))|
    ensures FlatOf(ns) == Splice(old(FlatOf(ns)), p, data)
  {
    FlatLength(ns, b, repr);
    NodeInside(|ns|, p, b);
    ghost var before, k := BlocksOf(ns), BlockOf(p, b);
    CopyIn(dst, off, data);
    assert BlocksOf(ns) == before[k := Splice(before[k], off, data)];
    JoinWrite(before, b, k, off, data);
  }

  // The varint writers' buffer: seven bits a byte until less than 0x80 is left.
  method VarintBuffer(value: nat, limit: nat) returns (tmp: array<byte>, i: nat)
    requires |VarintBytes(value)| <= limit
    ensures fresh(tmp) && i <= tmp.Length == limit && tmp[..i] == VarintBytes(value)
  {
    tmp := new byte[limit];
    var v := value;
    i := 0;
    while v >= 0x80
      invariant 0 <= v && i + |VarintBytes(v)| == |VarintBytes(value)|
      invariant tmp[..i] + VarintBytes(v) == VarintBytes(value)
      decreases v
    {
      tmp[i] := v % 0x80 + 0x80;
      assert tmp[..i + 1] + VarintBytes(v / 0x80) == tmp[..i] + ([v % 0x80 + 0x80] + VarintBytes(v / 0x80));
      i := i + 1;
      v := v / 0x80;
    }
    tmp[i] := v;
    i := i + 1;
  }

  // One entry of the iovec arrays handed to readv and writev.
  datatype Iovec = Iovec(base: array<byte>, off: nat, len: nat)

  class ByteArray {
    var m_baseSize: nat
    var m_position: nat
    var m_capacity: nat
    var m_size: nat
    var m_littleEndian: bool
    var m_root: Node
    var m_cur: Node?
    // The byte order of the machine.
    const hostLittle: bool
    // The chain from m_root, in order, and everything the object owns.
    ghost var nodes: seq<Node>
    ghost var Repr: set<object>

    ghost predicate Valid()
      reads this, nodes
    {
      && this in Repr
      && Chain(nodes, m_baseSize, Repr) && nodes[0] == m_root
      && m_capacity == Times(|nodes|, m_baseSize)
      && m_position <= m_size <= m_capacity
      && m_cur == NodeAt(nodes, m_baseSize, m_position)
    }

    ghost function Abs(): View
      reads this, set n | n in nodes :: n.ptr
    {
      View(m_baseSize, m_position, m_size, m_capacity, FlatOf(nodes), m_littleEndian)
    }

    constructor (base_size: nat, hostLittle: bool)
      requires base_size >= 1
      ensures Valid() && fresh(Repr) && this.hostLittle == hostLittle
      ensures Abs().Valid() && Abs() == View(base_size, 0, 0, base_size, Abs().flat, false)
    {
      m_baseSize, m_position, m_capacity, m_size := base_size, 0, base_size, 0;
      m_littleEndian := false;
      this.hostLittle := hostLittle;
      var root := new Node(base_size);
      m_root, m_cur := root, root;
      nodes := [root];
      Repr := {this, root, root.ptr};
      new;
      assert Linked(nodes, 0);
      FlatLength(nodes, m_baseSize, Repr);
    }

    lemma AbsValid()
      requires Valid()
      ensures Abs().Valid()
    {
      FlatLength(nodes, m_baseSize, Repr);
    }

    method SetIsLittleEndian(val: bool)
      requires Valid()
      modifies this`m_littleEndian
      ensures Valid() && Abs() == old(Abs()).(little := val)
    {
      m_littleEndian := val;
    }

    // All nodes but the first are deleted; the bytes of the first stay where they are.
    method Clear()
      requires Valid()
      modifies Repr
      ensures Valid() && Repr == old(Repr)
      ensures m_baseSize <= old(|FlatOf(nodes)|)
      ensures Abs() == old(Abs()).(position := 0, size := 0, capacity := m_baseSize,
                                   flat := old(FlatOf(nodes))[..m_baseSize])
    {
      hide Chain, FlatOf, BlockOf, Times;
      ghost var k, ns := 1, nodes;
      FirstNode(ns, m_baseSize, Repr);
      m_position, m_size := 0, 0;
      m_capacity := m_baseSize;
      FollowNext(ns, m_baseSize, Repr, 0);
      var tmp := m_root.next;
      while tmp != null
        invariant 1 <= k <= |ns| && tmp == if k < |ns| then ns[k] else null
        decreases |ns| - k
        modifies this`m_cur
      {
        FollowNext(ns, m_baseSize, Repr, k);
        m_cur := tmp;
        tmp := tmp.next;
        k := k + 1;
      }
      m_cur := m_root;
      m_root.next := null;
      nodes := [m_root];
      SingleChain(m_root, m_baseSize, Repr);
    }

    // ---- growth -------------------------------------------------------------------------------

    // Walks to the last node.
    method LastNode() returns (tmp: Node)
      requires Valid()
      ensures tmp == nodes[|nodes| - 1]
    {
      tmp := m_root;
      ghost var k := 0;
      assert Linked(nodes, 0);
      while tmp.next != null
        invariant k < |nodes| && tmp == nodes[k] && Linked(nodes, k)
        decreases |nodes| - k
      {
        tmp := tmp.next;
        k := k + 1;
        assert Linked(nodes, k);
      }
    }

    // Hangs count fresh nodes behind the last one.
    method AppendNodes(last: Node, count: nat) returns (first: Node?)
      requires Chain(nodes, m_baseSize, Repr) && last == nodes[|nodes| - 1] && this in Repr
      requires m_capacity == Times(|nodes|, m_baseSize)
      modifies last`next, this`nodes, this`Repr, this`m_capacity
      ensures Chain(nodes, m_baseSize, Repr) && fresh(Repr - old(Repr)) && old(Repr) <= Repr
      ensures m_capacity == Times(|nodes|, m_baseSize)
      ensures old(nodes) <= nodes && |nodes| == |old(nodes)| + count
      ensures count > 0 ==> first == nodes[|old(nodes)|]
      ensures old(FlatOf(nodes)) <= FlatOf(nodes)
    {
      hide FlatOf, Chain;
      ArraysOwned(nodes, m_baseSize, Repr);
      var tmp := last;
      first := null;
      var i := 0;
      while i < count
        invariant i <= count && this in Repr
        invariant Chain(nodes, m_baseSize, Repr) && fresh(Repr - old(Repr)) && old(Repr) <= Repr
        invariant old(nodes) <= nodes && |nodes| == |old(nodes)| + i && |nodes| >= 1
        invariant tmp == nodes[|nodes| - 1] && (tmp == last || fresh(tmp))
        invariant if i > 0 then first == nodes[|old(nodes)|] else first == null
        invariant m_capacity == Times(|nodes|, m_baseSize)
        invariant old(FlatOf(nodes)) <= FlatOf(nodes)
      {
        var n := AppendNode(tmp, m_baseSize, nodes, Repr);
        tmp := n;
        nodes, Repr := nodes + [n], Repr + {n, n.ptr};
        if first == null {
          first := n;
        }
        m_capacity := m_capacity + m_baseSize;
        i := i + 1;
      }
    }

    // Makes room for size more bytes behind the cursor, with as few new nodes as possible.
    method AddCapacity(size: nat)
      requires Valid()
      modifies Repr
      ensures Valid() && fresh(Repr - old(Repr)) && old(Repr) <= Repr && old(nodes) <= nodes
      ensures Room(old(Abs()), Abs(), size)
      ensures m_position == old(m_position) && m_position + size <= m_capacity
    {
      hide FlatOf, Chain, NodeAt, CeilDiv, Times, Grown, Room;
      ArraysOwned(nodes, m_baseSize, Repr);
      AbsValid();
      if size == 0 {
        RoomEnough(Abs(), size);
        return;
      }
      var old_cap := m_capacity - m_position;
      if old_cap >= size {
        RoomEnough(Abs(), size);
        return;
      }
      Grow(size, old_cap);
      RoomGrown(old(Abs()), Abs(), size);
    }

    method Grow(size: nat, old_cap: nat)
      requires Valid() && old_cap == m_capacity - m_position < size
      modifies Repr
      ensures Valid() && fresh(Repr - old(Repr)) && old(Repr) <= Repr && old(nodes) <= nodes
      ensures unchanged(this`m_position, this`m_size, this`m_baseSize, this`m_littleEndian)
      ensures m_capacity == Grown(old(m_capacity), m_position + size, m_baseSize) == |FlatOf(nodes)|
      ensures old(FlatOf(nodes)) <= FlatOf(nodes)
    {
      hide FlatOf, Chain, NodeAt, CeilDiv, Times, Grown, BlockOf, OffsetIn, BlocksOf, Join;
      ArraysOwned(nodes, m_baseSize, Repr);
      var lack := size - old_cap;
      var count := CeilDiv(lack, m_baseSize);
      GrownByDivision(m_capacity, m_position + size, m_baseSize);
      ghost var ns := nodes;
      NodeAtEnd(ns, m_baseSize, m_position);
      TimesAdd(|ns|, count, m_baseSize);
      var tmp := LastNode();
      var first := AppendNodes(tmp, count);
      FlatLength(nodes, m_baseSize, Repr);
      NodeStays(ns, nodes, m_baseSize, m_position);
      if old_cap == 0 {
        m_cur := first;
      }
    }

    // ---- writing and reading bytes ------------------------------------------------------------

    method Write(buf: seq<byte>)
      requires Valid()
      modifies Repr
      ensures Valid() && fresh(Repr - old(Repr)) && old(Repr) <= Repr
      ensures Written(old(Abs()), Abs(), buf)
    {
      hide Splice, FlatOf, Chain, NodeAt, Times, Grown, Room, Written;
      AbsValid();
      if |buf| == 0 {
        WrittenNothing(Abs());
        return;
      }
      AddCapacity(|buf|);
      ghost var room := Abs();
      AbsValid();
      CopyAll(buf);
      if m_position > m_size {
        m_size := m_position;
      }
      WrittenBySplice(old(Abs()), room, Abs(), buf);
    }

    // The copying loop of write: node by node from the cursor on.
    method CopyAll(buf: seq<byte>)
      requires Valid() && 0 < |buf| && m_position + |buf| <= m_capacity
      modifies Repr
      ensures Chain(nodes, m_baseSize, Repr)
      ensures unchanged(this`m_baseSize, this`m_capacity, this`m_size, this`m_littleEndian, this`m_root)
      ensures unchanged(this`nodes, this`Repr)
      ensures m_position == old(m_position) + |buf| && m_cur == NodeAt(nodes, m_baseSize, m_position)
      ensures old(m_position) + |buf| <= |old(FlatOf(nodes))|
      ensures FlatOf(nodes) == Splice(old(FlatOf(nodes)), old(m_position), buf)
    {
      hide Splice, FlatOf, Chain, NodeAt, OffsetIn, BlockOf, Times;
      ghost var flat, ns, b, repr, start := FlatOf(nodes), nodes, m_baseSize, Repr, m_position;
      AbsValid();
      ArraysOwned(ns, b, repr);
      SpliceNothing(flat, start, buf);
      Within(ns, b, repr, start);
      var npos := OffsetIn(m_position, m_baseSize);
      var ncap := m_cur.size - npos;
      var bpos: nat, size: nat := 0, |buf|;
      while size > 0
        invariant bpos + size == |buf| && m_position == start + bpos
        invariant m_cur == NodeAt(ns, b, m_position)
        invariant size > 0 ==> npos == OffsetIn(m_position, b) && ncap == b - npos
        invariant FlatOf(ns) == Splice(flat, start, buf[..bpos])
        modifies this`m_position, this`m_cur, set n | n in ns :: n.ptr
      {
        Within(ns, b, repr, m_position);
        ghost var n := Min(ncap, size);
        Advance(ns, b, repr, m_position, n);
        SpliceNext(flat, start, buf, bpos, bpos + n);
        Store(m_cur.ptr, npos, buf[bpos..bpos + Min(ncap, size)], ns, b, repr, m_position);
        if ncap >= size {
          if m_cur.size == npos + size {
            m_cur := m_cur.next;
          }
          m_position := m_position + size;
          bpos := bpos + size;
          size := 0;
        } else {
          m_position := m_position + ncap;
          bpos := bpos + ncap;
          size := size - ncap;
          m_cur := m_cur.next;
          Within(ns, b, repr, m_position);
          ncap := m_cur.size;
          npos := 0;
        }
      }
      assert buf[..bpos] == buf;
    }

    method Read(size: nat) returns (r: Outcome<seq<byte>>)
      requires Valid()
      modifies this`m_position, this`m_cur
      ensures Valid() && old(Abs()).Valid()
      ensures r == Fetch(old(Abs()), size)
      ensures Abs() == old(Abs()).(position := old(m_position) + if r.Ok? then size else 0)
    {
      hide FlatOf, Chain, NodeAt, OffsetIn, BlockOf, Times;
      AbsValid();
      if size > m_size - m_position {
        return OutOfRange;
      }
      NodeAtEnd(nodes, m_baseSize, m_position) by { ArraysOwned(nodes, m_baseSize, Repr); }
      if m_cur == null {
        return NullDeref;
      }
      var buf := CopyOut(size);
      return Ok(buf);
    }

    // The copying loop of read: node by node from the cursor on.
    method CopyOut(size: nat) returns (buf: seq<byte>)
      requires Valid() && m_cur != null && size <= m_size - m_position
      modifies this`m_position, this`m_cur
      ensures Valid()
      ensures m_position == old(m_position) + size <= |FlatOf(nodes)|
      ensures buf == FlatOf(nodes)[old(m_position)..m_position]
    {
      hide FlatOf, Chain, NodeAt, OffsetIn, BlockOf, Times;
      AbsValid();
      NodeAtEnd(nodes, m_baseSize, m_position) by { ArraysOwned(nodes, m_baseSize, Repr); }
      ghost var flat, ns, b, repr, start := FlatOf(nodes), nodes, m_baseSize, Repr, m_position;
      Within(ns, b, repr, start);
      var npos := OffsetIn(m_position, m_baseSize);
      var ncap := m_cur.size - npos;
      var left := size;
      buf := [];
      while left > 0
        invariant 0 <= left && |buf| + left == size && m_position == start + |buf|
        invariant m_cur == NodeAt(ns, b, m_position)
        invariant left > 0 ==> npos == OffsetIn(m_position, b) && ncap == b - npos
        invariant start + |buf| <= |flat| && buf == flat[start..start + |buf|]
        modifies this`m_position, this`m_cur
      {
        LoadNext(ns, b, repr, start, buf, Min(ncap, left));
        buf := buf + m_cur.ptr[npos..npos + Min(ncap, left)];
        if ncap >= left {
          if m_cur.size == npos + left {
            m_cur := m_cur.next;
          }
          m_position := m_position + left;
          left := 0;
        } else {
          m_position := m_position + ncap;
          left := left - ncap;
          m_cur := m_cur.next;
          Within(ns, b, repr, m_position);
          ncap := m_cur.size;
          npos := 0;
        }
      }
    }

    // The positional read: it does not move the cursor, but starts in the cursor's node.
    method ReadAt(size: nat, position: nat) returns (r: Outcome<seq<byte>>)
      requires Valid()
      ensures Abs().Valid()
      ensures r == FetchAt(Abs(), size, position)
    {
      hide FlatOf, Chain, NodeAt, OffsetIn, BlockOf, Times;
      AbsValid();
      if size > U64(m_size - position) {
        return OutOfRange;
      }
      NodeAtEnd(nodes, m_baseSize, m_position) by { ArraysOwned(nodes, m_baseSize, Repr); }
      if m_cur == null {
        return NullDeref;
      }
      ghost var flat, ns, b, repr := FlatOf(nodes), nodes, m_baseSize, Repr;
      ghost var start := Times(BlockOf(m_position, b), b) + OffsetIn(position, b);
      SameNode(ns, b, m_position, OffsetIn(position, b));
      Within(ns, b, repr, start);
      var npos := OffsetIn(position, m_baseSize);
      var ncap := m_cur.size - npos;
      var cur, buf: seq<byte>, left := m_cur, [], size;
      while left > 0
        invariant 0 <= left && |buf| + left == size && start + |buf| <= m_capacity
        invariant cur == NodeAt(ns, b, start + |buf|)
        invariant left > 0 ==> cur != null && start + |buf| < m_capacity
        invariant left > 0 ==> npos == OffsetIn(start + |buf|, b) && ncap == b - npos
        invariant buf == flat[start..start + |buf|]
      {
        LoadNext(ns, b, repr, start, buf, Min(ncap, left));
        buf := buf + cur.ptr[npos..npos + Min(ncap, left)];
        if ncap >= left {
          if cur.size == npos + left {
            cur := cur.next;
          }
          left := 0;
        } else {
          left := left - ncap;
          cur := cur.next;
          NodeAtEnd(ns, b, start + |buf|);
          if cur == null {
            return NullDeref;
          }
          Within(ns, b, repr, start + |buf|);
          ncap := cur.size;
          npos := 0;
        }
      }
      return Ok(buf);
    }

    // toString: the unread bytes. The positional read it uses is safe because it asks for the cursor.
    method ToString() returns (str: seq<byte>)
      requires Valid() && m_capacity < TWO_64
      ensures Abs().Valid() && str == Abs().Contents()[m_position..]
    {
      AbsValid();
      if m_size - m_position == 0 {
        return [];
      }
      var r := ReadAt(m_size - m_position, m_position);
      Split(m_position, m_baseSize);
      assert r == Ok(FlatOf(nodes)[m_position..m_size]);
      str := r.value;
    }

    method SetPosition(v: nat) returns (r: Outcome<()>)
      requires Valid()
      modifies this`m_position, this`m_size, this`m_cur
      ensures Valid()
      ensures v > m_capacity ==> r == OutOfRange && Abs() == old(Abs())
      ensures v <= m_capacity ==> r == Ok(()) && Abs() == old(Abs()).(position := v, size := Max(old(m_size), v))
    {
      hide FlatOf, Chain, Times, BlockOf;
      if v > m_capacity {
        return OutOfRange;
      }
      m_position := v;
      if m_position > m_size {
        m_size := m_position;
      }
      m_cur := m_root;
      ghost var k, ns, b := 0, nodes, m_baseSize;
      var w := v;
      ArraysOwned(ns, b, Repr);
      FollowNext(ns, b, Repr, 0);
      TimesNext(0, b);
      while w > m_cur.size
        invariant 0 <= k < |ns| && m_cur == ns[k] && m_cur.size == b
        invariant 0 <= w && v == Times(k, b) + w
        decreases w
        modifies this`m_cur
      {
        TimesNext(k, b);
        FollowNext(ns, b, Repr, k);
        BeforeEnd(k + 1, |ns|, b);
        w := w - m_cur.size;
        m_cur := m_cur.next;
        k := k + 1;
        FollowNext(ns, b, Repr, k);
      }
      FollowNext(ns, b, Repr, k);
      if w == m_cur.size {
        m_cur := m_cur.next;
        TimesNext(k, b);
        SplitUnique(k + 1, 0, b);
      } else {
        SplitUnique(k, w, b);
      }
      return Ok(());
    }

    // ---- scatter and gather -------------------------------------------------------------------

    method GetReadBuffers(buffers: seq<Iovec>, len: nat) returns (out: seq<Iovec>, n: nat)
      requires Valid()
      ensures n == Min(len, m_size - m_position)
      ensures out == buffers + IovecsOf(nodes, m_baseSize, m_position, n)
    {
      n := Min(len, m_size - m_position);
      if n == 0 {
        return buffers, 0;
      }
      var slices := Slices(buffers, m_cur, n, m_position);
      out := slices.value;
    }

    // The variant that starts at a given position finds the node from the root. Its length is
    // clamped by what is left at the cursor, not at that position.
    method GetReadBuffersAt(buffers: seq<Iovec>, len: nat, position: nat) returns (r: Outcome<(seq<Iovec>, nat)>)
      requires Valid()
      ensures Abs().Valid()
      ensures match ReadableAt(Abs(), len, position)
              case Ok(d) => r == Ok((buffers + IovecsOf(nodes, m_baseSize, position, |d|), |d|))
              case NullDeref => r == NullDeref
              case OutOfRange => false
    {
      AbsValid();
      var n := Min(len, m_size - m_position);
      if n == 0 {
        assert buffers + IovecsOf(nodes, m_baseSize, position, 0) == buffers;
        return Ok((buffers, 0));
      }
      var cur := FromRoot(position);
      if cur == null {
        Outside(nodes, m_baseSize, position);
        return NullDeref;
      }
      var slices := Slices(buffers, cur, n, position);
      match slices
      case Ok(out) => r := Ok((out, n));
      case NullDeref => r := NullDeref;
      case OutOfRange => assert false;
    }

    // The walk to the node of a position; null also where the walk would dereference null.
    method FromRoot(position: nat) returns (cur: Node?)
      requires Valid()
      ensures cur == NodeAt(nodes, m_baseSize, position)
    {
      hide FlatOf, Chain, NodeAt, OffsetIn, Times;
      ghost var ns, b := nodes, m_baseSize;
      FollowNext(ns, b, Repr, 0) by { ArraysOwned(ns, b, Repr); }
      ArraysOwned(ns, b, Repr);
      BlockArithmetic(position, b);
      var count := position / m_baseSize;
      cur := m_root;
      ghost var k := 0;
      while count > 0
        invariant 0 <= count && k + count == BlockOf(position, b)
        invariant cur == if k < |ns| then ns[k] else null
      {
        if cur == null {
          NodeAtBlock(ns, b, position);
          return null;
        }
        FollowNext(ns, b, Repr, k);
        cur := cur.next;
        count := count - 1;
        k := k + 1;
      }
      NodeAtBlock(ns, b, position);
    }

    // The loop the buffer functions share: one iovec for every node touched, until a node is missing.
    method Slices(buffers: seq<Iovec>, from: Node?, size: nat, position: nat) returns (r: Outcome<seq<Iovec>>)
      requires Valid() && 0 < size && from == NodeAt(nodes, m_baseSize, position)
      ensures r == if position + size <= m_capacity then Ok(buffers + IovecsOf(nodes, m_baseSize, position, size))
                   else NullDeref
    {
      hide FlatOf, Chain, NodeAt, OffsetIn, BlockOf, Times;
      ghost var ns, b, repr := nodes, m_baseSize, Repr;
      if from == null {
        Inside(ns, b, repr, position);
        return NullDeref;
      }
      Inside(ns, b, repr, position);
      Within(ns, b, repr, position);
      ghost var p := position;
      var cur := from;
      var npos := OffsetIn(position, m_baseSize);
      var ncap := cur.size - npos;
      var len := size;
      var out := buffers;
      while len > 0
        invariant 0 <= len && p + len == position + size
        invariant len > 0 ==> p < m_capacity && cur == NodeAt(ns, b, p) && npos == OffsetIn(p, b) && ncap == b - npos
        invariant len == 0 ==> position + size <= m_capacity
        invariant buffers + IovecsOf(ns, b, position, size) == out + IovecsOf(ns, b, p, len)
      {
        Within(ns, b, repr, p);
        Advance(ns, b, repr, p, Min(ncap, len));
        if ncap >= len {
          out := out + [Iovec(cur.ptr, npos, len)];
          p := p + len;
          len := 0;
        } else {
          out := out + [Iovec(cur.ptr, npos, ncap)];
          len := len - ncap;
          p := p + ncap;
          var next := cur.next;
          Inside(ns, b, repr, p);
          if next == null {
            return NullDeref;
          }
          cur := next;
          Within(ns, b, repr, p);
          ncap := cur.size;
          npos := 0;
        }
      }
      assert out + IovecsOf(ns, b, p, 0) == out;
      r := Ok(out);
    }

    method GetWriteBuffers(buffers: seq<Iovec>, len: nat) returns (out: seq<Iovec>, n: nat)
      requires Valid()
      modifies Repr
      ensures Valid() && fresh(Repr - old(Repr)) && old(Repr) <= Repr
      ensures Room(old(Abs()), Abs(), len) && m_position + len <= m_capacity
      ensures n == len && out == buffers + IovecsOf(nodes, m_baseSize, m_position, len)
    {
      AddCapacity(len);
      n := len;
      if len == 0 {
        return buffers, 0;
      }
      var slices := Slices(buffers, m_cur, len, m_position);
      out := slices.value;
    }

    // What a caller does with write buffers: let readv fill them, then move the cursor over them.
    // The outcome is that of write.
    method WriteScattered(data: seq<byte>)
      requires Valid()
      modifies Repr
      ensures Valid() && fresh(Repr - old(Repr)) && old(Repr) <= Repr
      ensures Written(old(Abs()), Abs(), data)
    {
      hide FlatOf, Chain, NodeAt, OffsetIn, BlockOf, Times, Splice, Written, IovecsOf;
      AbsValid();
      var iovs, n := GetWriteBuffers([], |data|);
      ghost var room := Abs();
      ArraysOwned(nodes, m_baseSize, Repr);
      FlatLength(nodes, m_baseSize, Repr);
      assert iovs == IovecsOf(nodes, m_baseSize, m_position, |data|);
      Readv(iovs, data, nodes, m_baseSize, Repr, m_position);
      var r := SetPosition(m_position + n);
      WrittenBySplice(old(Abs()), room, Abs(), data);
    }

    // ---- typed writers ------------------------------------------------------------------------

    // writeFuint8, 16, 32 and 64: the word is swapped when the chosen byte order is not the
    // machine's, then its memory image is written. The 8-bit writer has nothing to swap.
    method WriteFuint(width: nat, value: nat)
      requires Valid() && value < Pow256(width)
      modifies Repr
      ensures Valid() && fresh(Repr - old(Repr)) && old(Repr) <= Repr
      ensures Written(old(Abs()), Abs(), Image(value, width, old(m_littleEndian)))
    {
      hide FlatOf, Chain, NodeAt, Times, Written;
      var v := value;
      if m_littleEndian != hostLittle {
        v := Byteswap(v, width);
        SwapFlipsOrder(value, width, hostLittle);
      }
      Write(Image(v, width, hostLittle));
    }

    // writeFint8, 16, 32 and 64.
    method WriteFint(width: nat, value: int)
      requires Valid() && IsSigned(value, width)
      modifies Repr
      ensures Valid() && fresh(Repr - old(Repr)) && old(Repr) <= Repr
      ensures Written(old(Abs()), Abs(), Image(ToUnsigned(value, width), width, old(m_littleEndian)))
    {
      WriteFuint(width, ToUnsigned(value, width));
    }

    // writeUint32 and writeUint64: a buffer of 5 or 10 bytes is filled and written at once.
    method WriteUint(width: nat, value: nat)
      requires Valid() && (width == 4 || width == 8) && value < Pow256(width)
      modifies Repr
      ensures Valid() && fresh(Repr - old(Repr)) && old(Repr) <= Repr
      ensures Written(old(Abs()), Abs(), VarintBytes(value))
    {
      Pow256Values();
      VarintLimits(value);
      var tmp, i := VarintBuffer(value, if width == 4 then 5 else 10);
      Write(tmp[..i]);
    }

    // writeInt32 and writeInt64.
    method WriteInt(width: nat, value: int)
      requires Valid() && (width == 4 || width == 8) && IsSigned(value, width)
      modifies Repr
      ensures Valid() && fresh(Repr - old(Repr)) && old(Repr) <= Repr
      ensures Written(old(Abs()), Abs(), VarintBytes(EncodeZigzag(value, width)))
    {
      WriteUint(width, EncodeZigzag(value, width));
    }

    // writeStringF16, 32 and 64: the length is cut to the width of its prefix, the bytes are not.
    method WriteStringF(width: nat, value: seq<byte>)
      requires Valid()
      modifies Repr
      ensures Valid() && fresh(Repr - old(Repr)) && old(Repr) <= Repr
      ensures Written(old(Abs()), Abs(), Image(|value| % Pow256(width), width, old(m_littleEndian)) + value)
    {
      hide FlatOf, Chain, NodeAt, Times, Written, Image;
      var n := |value| % Pow256(width);
      ghost var before := Abs();
      WriteFuint(width, n);
      ghost var middle := Abs();
      Write(value);
      WrittenTwice(before, middle, Abs(), Image(n, width, before.little), value);
    }

    method WriteStringVint(value: seq<byte>)
      requires Valid() && |value| < TWO_64
      modifies Repr
      ensures Valid() && fresh(Repr - old(Repr)) && old(Repr) <= Repr
      ensures Written(old(Abs()), Abs(), VarintBytes(|value|) + value)
    {
      hide FlatOf, Chain, NodeAt, Times, Written, VarintBytes;
      Pow256Values();
      ghost var before := Abs();
      WriteUint(8, |value|);
      ghost var middle := Abs();
      Write(value);
      WrittenTwice(before, middle, Abs(), VarintBytes(|value|), value);
    }

    // ---- typed readers ------------------------------------------------------------------------

    // readFuint8, 16, 32 and 64.
    method ReadFuint(width: nat) returns (r: Outcome<nat>)
      requires Valid() && width > 0
      modifies this`m_position, this`m_cur
      ensures Valid() && old(Abs()).Valid()
      ensures var s := TakeWord(old(Abs()), width);
              r == s.out && Abs() == old(Abs()).(position := s.position)
    {
      hide FlatOf, Chain, NodeAt, Times, FromImage, Byteswap;
      var b := Read(width);
      match b
      case Ok(s) =>
        var v := FromImage(s, hostLittle);
        if m_littleEndian != hostLittle {
          LoadSwapFlipsOrder(s, hostLittle);
          v := Byteswap(v, width);
        }
        return Ok(v);
      case OutOfRange => return OutOfRange;
      case NullDeref => return NullDeref;
    }

    // readUint32 and readUint64: at most one byte for every seven bits of the width.
    method ReadUint(width: nat) returns (r: Outcome<nat>)
      requires Valid() && (width == 4 || width == 8)
      modifies this`m_position, this`m_cur
      ensures Valid() && old(Abs()).Valid()
      ensures var s := TakeVarint(old(Abs()), width);
              r == s.out && Abs() == old(Abs()).(position := s.position)
    {
      hide FlatOf, Chain, NodeAt, Times, ReadFrom, Pow2, Group, FromImage, BlockOf;
      AbsValid();
      ghost var v0 := Abs();
      ghost var s := v0.flat[v0.position..v0.size];
      var result, i, shift := 0, 0, 1;
      var bits := 8 * width;
      ghost var used := 0;
      while i < bits
        invariant Valid() && 0 <= i && 0 <= result && 0 < shift && 0 <= used <= |s|
        invariant Abs() == v0.(position := v0.position + used)
        invariant ReadVarint(s, bits) == More(result, used, ReadFrom(s[used..], i, bits, shift))
        decreases bits - i
      {
        ReadFromStep(s, used, i, bits, shift);
        if used < |s| {
          ByteWord(v0.flat, v0.position + used, v0.little);
        }
        var one := ReadFuint(1);
        if !one.Ok? {
          return one;
        }
        var b: byte := one.value;
        used := used + 1;
        if b < 0x80 {
          return Ok(result + Group(b, bits, shift));
        } else {
          result := result + Group(b, bits, shift);
        }
        i := i + 7;
        shift := shift * 128;
      }
      ReadFromStep(s, used, i, bits, shift);
      return Ok(result);
    }

    method ReadText(len: Outcome<nat>) returns (r: Outcome<seq<byte>>)
      requires Valid()
      modifies this`m_position, this`m_cur
      ensures Valid() && old(Abs()).Valid()
      ensures len.Ok? ==> r == Fetch(old(Abs()), len.value)
      ensures !len.Ok? ==> r == if len.OutOfRange? then OutOfRange else NullDeref
      ensures Abs() == old(Abs()).(position := old(m_position) + if r.Ok? then len.value else 0)
    {
      AbsValid();
      match len
      case Ok(n) => r := Read(n);
      case OutOfRange => return OutOfRange;
      case NullDeref => return NullDeref;
    }

    // readFint, readInt, readStringF and readStringVint on top of the two word readers.
    method ReadDatum(k: Kind) returns (r: Outcome<Datum>)
      requires Valid() && k.Known()
      modifies this`m_position, this`m_cur
      ensures Valid() && old(Abs()).Valid()
      ensures var s := Take(old(Abs()), k);
              r == s.out && Abs() == old(Abs()).(position := s.position)
    {
      hide FlatOf, Chain, NodeAt, Times, TakeWord, TakeVarint, DecodeZigzag, ToSigned;
      AbsValid();
      ghost var v0 := Abs();
      var word: Outcome<nat>;
      match k {
        case Fint(w) => word := ReadFuint(w);
        case Fuint(w) => word := ReadFuint(w);
        case StringF(w) => word := ReadFuint(w);
        case Int(w) => word := ReadUint(w);
        case Uint(w) => word := ReadUint(w);
        case StringVint => word := ReadUint(8);
      }
      AbsValid();
      if k.IsString() {
        var text := ReadText(word);
        match text
        case Ok(s) => return Ok(Text(s));
        case OutOfRange => return OutOfRange;
        case NullDeref => return NullDeref;
      }
      match word
      case Ok(u) => return Ok(Number(Meaning(k, u)));
      case OutOfRange => return OutOfRange;
      case NullDeref => return NullDeref;
    }

    method WriteDatum(k: Kind, d: Datum)
      requires Valid() && k.Known() && Fits(k, d)
      modifies Repr
      ensures Valid() && fresh(Repr - old(Repr)) && old(Repr) <= Repr
      ensures Written(old(Abs()), Abs(), Encoding(k, d, old(m_littleEndian)))
    {
      match k
      case Fint(w) => WriteFint(w, d.n);
      case Fuint(w) => WriteFuint(w, d.n);
      case Int(w) => WriteInt(w, d.n);
      case Uint(w) => WriteUint(w, d.n);
      case StringF(w) => WriteStringF(w, d.s);
      case StringVint => WriteStringVint(d.s);
    }

    // ---- the round trip -----------------------------------------------------------------------

    method WriteAll(items: seq<Item>)
      requires Valid() && Writable(items)
      modifies Repr
      ensures Valid() && fresh(Repr - old(Repr)) && old(Repr) <= Repr
      ensures Written(old(Abs()), Abs(), EncodeAll(items, old(m_littleEndian)))
    {
      hide FlatOf, Chain, NodeAt, Times, Written, Encoding, Fits;
      AbsValid();
      ghost var v0 := Abs();
      WrittenNothing(v0);
      var i := 0;
      while i < |items|
        invariant 0 <= i <= |items| && Valid() && fresh(Repr - old(Repr)) && old(Repr) <= Repr
        invariant Written(v0, Abs(), EncodeAll(items[..i], v0.little)) && m_littleEndian == v0.little
      {
        ghost var v := Abs();
        WriteDatum(items[i].kind, items[i].datum);
        WrittenTwice(v0, v, Abs(), EncodeAll(items[..i], v0.little),
                     Encoding(items[i].kind, items[i].datum, v0.little));
        KeepsOrder(v, Abs(), Encoding(items[i].kind, items[i].datum, v0.little));
        EncodeAllNext(items, i, v0.little);
        i := i + 1;
      }
      assert items[..i] == items;
    }

    method ReadAll(kinds: seq<Kind>) returns (r: Outcome<seq<Datum>>)
      requires Valid() && forall k :: k in kinds ==> k.Known()
      modifies this`m_position, this`m_cur
      ensures Valid() && old(Abs()).Valid()
      ensures var s := TakeAll(old(Abs()), kinds);
              r == s.out && Abs() == old(Abs()).(position := s.position)
      decreases |kinds|
    {
      hide FlatOf, Chain, NodeAt, Times, Take;
      AbsValid();
      if |kinds| == 0 {
        return Ok([]);
      }
      ghost var v0 := Abs();
      var first := ReadDatum(kinds[0]);
      assert Abs() == v0.(position := m_position);
      match first
      case OutOfRange => return OutOfRange;
      case NullDeref => return NullDeref;
      case Ok(d) =>
        var rest := ReadAll(kinds[1..]);
        match rest
        case Ok(ds) => return Ok([d] + ds);
        case OutOfRange => return OutOfRange;
        case NullDeref => return NullDeref;
    }

    // Write a list of typed values, seek back, read them: the same values come back, and the cursor
    // ends where the writing ended, exactly when the list survives. For every node size, both byte
    // orders, any machine and any straddling of nodes.
    method RoundTrip(items: seq<Item>) returns (r: Outcome<seq<Datum>>)
      requires Valid() && Writable(items)
      modifies Repr
      ensures Valid() && fresh(Repr - old(Repr))
      ensures var end := old(m_position) + |EncodeAll(items, old(m_littleEndian))|;
              r == Ok(Data(items)) && m_position == end <==> Survives(items, end, m_capacity)
    {
      hide FlatOf, Chain, NodeAt, Times, TakeAll, EncodeAll, Survives, BlockOf;
      AbsValid();
      var start := m_position;
      ghost var v0 := Abs();
      WriteAll(items);
      ghost var e := EncodeAll(items, v0.little);
      ghost var v1 := Abs();
      WrittenAt(v0, v1, e);
      var seek := SetPosition(start);
      assert Abs() == v1.(position := start);
      TakeAllBack(Abs(), items);
      r := ReadAll(Kinds(items));
    }
  }

  // One turn of the varint reading loop, after `used` bytes.
  lemma ReadFromStep(s: seq<byte>, used: nat, i: nat, bits: nat, shift: nat)
    requires used <= |s|
    ensures i >= bits ==> ReadFrom(s[used..], i, bits, shift) == Value(0, 0)
    ensures i < bits && used == |s| ==> ReadFrom(s[used..], i, bits, shift) == Starved
    ensures i < bits && used < |s| && s[used] < 128 ==>
              ReadFrom(s[used..], i, bits, shift) == Value(Group(s[used], bits, shift), 1)
    ensures i < bits && used < |s| && s[used] >= 128 ==>
              ReadFrom(s[used..], i, bits, shift) ==
              More(Group(s[used], bits, shift), 1, ReadFrom(s[used + 1..], i + 7, bits, shift * 128))
  {
    if used < |s| {
      assert s[used..][1..] == s[used + 1..];
    }
  }

  lemma ByteWord(s: seq<byte>, p: nat, little: bool)
    requires p < |s|
    ensures FromImage(s[p..p + 1], little) == s[p]
  {
    var one := s[p..p + 1];
    assert one == [s[p]] && Reverse([s[p]]) == [s[p]];
    assert FromLittle([s[p]]) == s[p] + 256 * FromLittle([]);
  }

  lemma KeepsOrder(s: View, t: View, d: seq<byte>)
    requires Written(s, t, d)
    ensures t.little == s.little
  {
  }

  lemma {:induction false} EncodeAllNext(items: seq<Item>, i: nat, little: bool)
    requires Writable(items) && i < |items|
    ensures EncodeAll(items[..i + 1], little) ==
            EncodeAll(items[..i], little) + Encoding(items[i].kind, items[i].datum, little)
  {
    EncodeAllAppend(items[..i], items[i], little);
    assert items[..i + 1] == items[..i] + [items[i]];
  }

  lemma {:induction false} EncodeAllAppend(items: seq<Item>, last: Item, little: bool)
    requires Writable(items + [last])
    ensures Writable(items) && Writable([last])
    ensures EncodeAll(items + [last], little) == EncodeAll(items, little) + Encoding(last.kind, last.datum, little)
  {
    forall i | i in items ensures i.kind.Known() && Fits(i.kind, i.datum) { assert i in items + [last]; }
    assert last in items + [last];
    if |items| > 0 {
      assert (items + [last])[1..] == items[1..] + [last];
      EncodeAllAppend(items[1..], last, little);
    }
  }

  // What was written is found where it was written.
  lemma WrittenAt(s: View, t: View, d: seq<byte>)
    requires Written(s, t, d)
    ensures At(t.(position := s.position), d) && s.position <= t.capacity && t.little == s.little
    ensures t.position == s.position + |d| <= t.size
  {
    assert t.flat[..t.position][s.position..] == d;
  }

  // Appending nodes moves no position to another node, except the end itself.
  lemma NodeStays(ns: seq<Node>, more: seq<Node>, b: nat, p: nat)
    requires b >= 1 && p <= Times(|ns|, b) && ns < more
    ensures NodeAt(more, b, p) == if p == Times(|ns|, b) then more[|ns|] else NodeAt(ns, b, p)
  {
    if p == Times(|ns|, b) {
      SplitUnique(|ns|, 0, b);
    } else {
      NodeInside(|ns|, p, b);
    }
  }

  // Hangs one fresh node behind the last one.
  method AppendNode(tmp: Node, b: nat, ghost ns: seq<Node>, ghost repr: set<object>) returns (n: Node)
    requires Chain(ns, b, repr) && tmp == ns[|ns| - 1]
    modifies tmp`next
    ensures fresh(n) && fresh(n.ptr)
    ensures Chain(ns + [n], b, repr + {n, n.ptr})
    ensures old(FlatOf(ns)) <= FlatOf(ns + [n])
  {
    n := new Node(b);
    tmp.next := n;
    forall i: nat | i < |ns + [n]| ensures Linked(ns + [n], i) {
      if i < |ns| - 1 { assert old(Linked(ns, i)); }
    }
    assert (ns + [n])[..|ns|] == ns;
    JoinAppend(BlocksOf(ns), [n.ptr[..]]);
  }

  // ---- iovecs -----------------------------------------------------------------------------------

  // The slices that cover bytes [p, p + len) of the chain, one for every node touched.
  ghost function IovecsOf(ns: seq<Node>, b: nat, p: nat, len: nat): seq<Iovec>
    requires b >= 1
    decreases len
  {
    var node, off := NodeAt(ns, b, p), OffsetIn(p, b);
    if len == 0 || node == null then []
    else if b - off >= len then [Iovec(node.ptr, off, len)]
    else [Iovec(node.ptr, off, b - off)] + IovecsOf(ns, b, p + (b - off), len - (b - off))
  }

  // What writev sends.
  ghost function Gather(iovs: seq<Iovec>): seq<byte>
    requires forall v :: v in iovs ==> v.off + v.len <= v.base.Length
    reads set v | v in iovs :: v.base
  {
    if |iovs| == 0 then [] else iovs[0].base[iovs[0].off..iovs[0].off + iovs[0].len] + Gather(iovs[1..])
  }

  // The slices are in bounds, none is empty, and together they are the flat bytes they stand for.
  lemma {:induction false} GatherIsFlat(ns: seq<Node>, b: nat, repr: set<object>, p: nat, len: nat)
    requires Chain(ns, b, repr) && p + len <= Times(|ns|, b)
    ensures forall v :: v in IovecsOf(ns, b, p, len) ==> 0 < v.len && v.off + v.len <= v.base.Length
    ensures p + len <= |FlatOf(ns)| && Gather(IovecsOf(ns, b, p, len)) == FlatOf(ns)[p..p + len]
    decreases len
  {
    hide FlatOf, Chain, NodeAt, OffsetIn, BlockOf, Times, Gather;
    FlatLength(ns, b, repr);
    GatherNothing();
    if len > 0 {
      Within(ns, b, repr, p);
      var n := Min(b - OffsetIn(p, b), len);
      Load(ns, b, repr, p, n);
      Advance(ns, b, repr, p, n);
      var first, rest := Iovec(NodeAt(ns, b, p).ptr, OffsetIn(p, b), n), IovecsOf(ns, b, p + n, len - n);
      assert IovecsOf(ns, b, p, len) == [first] + rest;
      GatherIsFlat(ns, b, repr, p + n, len - n);
      GatherJoins(first, rest, FlatOf(ns), p, p + len);
    }
  }

  lemma GatherNothing()
    ensures Gather([]) == []
  {
  }

  // One more slice in front.
  lemma GatherJoins(v: Iovec, rest: seq<Iovec>, flat: seq<byte>, p: nat, end: nat)
    requires 0 < v.len && v.off + v.len <= v.base.Length && p + v.len <= end <= |flat|
    requires forall w :: w in rest ==> 0 < w.len && w.off + w.len <= w.base.Length
    requires v.base[v.off..v.off + v.len] == flat[p..p + v.len] && Gather(rest) == flat[p + v.len..end]
    ensures forall w :: w in [v] + rest ==> 0 < w.len && w.off + w.len <= w.base.Length
    ensures Gather([v] + rest) == flat[p..end]
  {
    hide Gather;
    GatherCons(v, rest);
    assert flat[p..p + v.len] + flat[p + v.len..end] == flat[p..end];
  }

  lemma GatherCons(v: Iovec, rest: seq<Iovec>)
    requires v.off + v.len <= v.base.Length
    requires forall w :: w in rest ==> w.off + w.len <= w.base.Length
    ensures Gather([v] + rest) == v.base[v.off..v.off + v.len] + Gather(rest)
  {
    assert ([v] + rest)[1..] == rest;
  }

  // readv: fills the slices in order.
  method Readv(iovs: seq<Iovec>, data: seq<byte>,
               ghost ns: seq<Node>, ghost b: nat, ghost repr: set<object>, ghost p: nat)
    requires Chain(ns, b, repr) && p + |data| <= Times(|ns|, b)
    requires iovs == IovecsOf(ns, b, p, |data|)
    modifies set n | n in ns :: n.ptr
    ensures p + |data| <= |old(FlatOf(ns))|
    ensures FlatOf(ns) == Splice(old(FlatOf(ns)), p, data)
    decreases |data|
  {
    hide FlatOf, Chain, NodeAt, OffsetIn, BlockOf, Times, Splice;
    FlatLength(ns, b, repr);
    if |data| == 0 {
      assert data == data[..0];
      SpliceNothing(FlatOf(ns), p, data);
      return;
    }
    ghost var flat := FlatOf(ns);
    Within(ns, b, repr, p);
    Advance(ns, b, repr, p, Min(b - OffsetIn(p, b), |data|));
    var n := iovs[0].len;
    SpliceNext(flat, p, data, n, |data|);
    assert data[..|data|] == data;
    Store(iovs[0].base, iovs[0].off, data[..n], ns, b, repr, p);
    Readv(iovs[1..], data[n..], ns, b, repr, p + n);
  }

  // All offsets up to b of the node of p lie in that node.
  lemma SameNode(ns: seq<Node>, b: nat, p: nat, o: nat)
    requires b >= 1 && o < b && p < Times(|ns|, b)
    ensures Times(BlockOf(p, b), b) + o < Times(|ns|, b)
    ensures NodeAt(ns, b, Times(BlockOf(p, b), b) + o) == NodeAt(ns, b, p)
    ensures OffsetIn(Times(BlockOf(p, b), b) + o, b) == o
  {
    NodeInside(|ns|, p, b);
    SplitUnique(BlockOf(p, b), o, b);
  }

  lemma NodeAtBlock(ns: seq<Node>, b: nat, p: nat)
    requires b >= 1
    ensures NodeAt(ns, b, p) == if BlockOf(p, b) < |ns| then ns[BlockOf(p, b)] else null
  {
  }

  // There is a node exactly for the positions below the capacity.
  lemma Inside(ns: seq<Node>, b: nat, repr: set<object>, p: nat)
    requires Chain(ns, b, repr)
    ensures NodeAt(ns, b, p) != null <==> p < Times(|ns|, b)
  {
    if p < Times(|ns|, b) {
      Within(ns, b, repr, p);
    } else {
      Outside(ns, b, p);
    }
  }

  lemma Outside(ns: seq<Node>, b: nat, p: nat)
    requires b >= 1
    ensures NodeAt(ns, b, p) == null ==> p >= Times(|ns|, b)
    ensures p >= Times(|ns|, b) ==> NodeAt(ns, b, p) == null
  {
    Split(p, b);
    if p < Times(|ns|, b) {
      NodeInside(|ns|, p, b);
    } else if BlockOf(p, b) < |ns| {
      TimesMonotone(BlockOf(p, b), |ns|, b);
    }
  }

  lemma BeforeEnd(k: nat, n: nat, b: nat)
    requires Times(k, b) < Times(n, b)
    ensures k < n
  {
    if n <= k {
      TimesMonotone(n, k, b);
    }
  }
}
