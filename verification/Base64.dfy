/** base64encode and base64decode over byte strings, in the alphabet of section 4 of RFC 4648. */
module Base64 {
  import opened Bytes
  import opened Options

  const PAD: byte := 61  // '='

  function Char64(v: nat): (c: byte)
    requires v < 64
    ensures c != PAD
  {
    if v < 26 then 65 + v else if v < 52 then 97 + (v - 26) else if v < 62 then 48 + (v - 52)
    else if v == 62 then 43 else 47
  }

  function Value64(c: byte): (v: Option<nat>)
    ensures v.Some? ==> v.value < 64
  {
    if 65 <= c <= 90 then Some(c - 65)
    else if 97 <= c <= 122 then Some(c - 97 + 26)
    else if 48 <= c <= 57 then Some(c - 48 + 52)
    else if c == 43 then Some(62)
    else if c == 47 then Some(63)
    else None
  }

  lemma AlphabetInverse(v: nat, c: byte)
    ensures v < 64 ==> Value64(Char64(v)) == Some(v)
    ensures Value64(c).Some? ==> Char64(Value64(c).value) == c
  {
  }

  const ALPHABET := "ABCDEFGHIJKLMNOPQRSTUVWXYZ" + "abcdefghijklmnopqrstuvwxyz" + "0123456789+/"

  // The characters are those of the alphabet in its order, and each stands for its place there.
  lemma Alphabet(v: nat, c: byte)
    ensures |ALPHABET| == 64 && (v < 64 ==> Char64(v) == ALPHABET[v] as int)
    ensures Value64(c) == Some(v) <==> v < 64 && ALPHABET[v] as int == c
    ensures PAD == '=' as int
  {
    hide Value64;
    if v < 64 { AlphabetAt(v); }
    AlphabetInverse(v, c);
  }

  lemma AlphabetAt(v: nat)
    requires v < 64
    ensures |ALPHABET| == 64 && Char64(v) == ALPHABET[v] as int
  {
  }

  // ---- encoding ---------------------------------------------------------------------------------

  // Up to three bytes, shifted to the top of 24 bits.
  function Packed(g: seq<byte>): (p: nat)
    requires 1 <= |g| <= 3
    ensures p < 0x100_0000
  {
    var a: nat, b: nat, c: nat := g[0], if |g| > 1 then g[1] else 0, if |g| > 2 then g[2] else 0;
    a * 0x1_0000 + b * 0x100 + c
  }

  // The four characters for 24 bits, the last `padding` of them '='.
  function Quad(p: nat, padding: nat): (q: seq<byte>)
    requires p < 0x100_0000 && padding <= 2
    ensures |q| == 4
  {
    [Char64(p / 0x4_0000), Char64(p / 0x1000 % 64)]
    + (if padding == 2 then [] else [Char64(p / 64 % 64)])
    + (if padding == 0 then [Char64(p % 64)] else [])
    + seq(padding, i => PAD)
  }

  function Encode(s: seq<byte>): seq<byte> {
    if |s| == 0 then []
    else if |s| < 3 then Quad(Packed(s), 3 - |s|)
    else Quad(Packed(s[..3]), 0) + Encode(s[3..])
  }

  // The two inner loops: up to three bytes are packed, then shifted up to 24 bits.
  method Pack(data: seq<byte>, start: nat) returns (packed: nat, n: nat)
    requires start < |data|
    ensures n == Min(3, |data| - start) && packed == Packed(data[start..start + n])
  {
    packed, n := 0, 0;
    var ptr: nat := start;
    while n < 3 && ptr < |data|
      invariant 0 <= n <= 3 && ptr == start + n && ptr <= |data|
      invariant n == 0 ==> packed == 0
      invariant n > 0 ==> packed * Shift(3 - n) == Packed(data[start..ptr])
    {
      packed := packed * 256 + data[ptr];
      n := n + 1;
      ptr := ptr + 1;
    }
    var i := n;
    while i < 3
      invariant n <= i <= 3 && packed * Shift(3 - i) == Packed(data[start..ptr])
    {
      packed := packed * 256;
      i := i + 1;
    }
  }

  method Base64Encode(data: seq<byte>) returns (ret: seq<byte>)
    ensures ret == Encode(data)
  {
    hide Encode, Packed, Quad;
    ret := [];
    var ptr := 0;
    assert data[0..] == data;
    Associate([], [], Encode(data));
    while ptr < |data|
      invariant 0 <= ptr <= |data|
      invariant ret + Encode(data[ptr..]) == Encode(data)
    {
      EncodeStep(data, ptr, Min(3, |data| - ptr));
      var packed, i := Pack(data, ptr);
      var padding := 0;
      if i == 2 {
        padding := 1;
      } else if i == 1 {
        padding := 2;
      }
      Associate(ret, Quad(packed, padding), Encode(data[ptr + i..]));
      ret := AppendQuad(ret, packed, padding);
      ptr := ptr + i;
    }
    assert data[ptr..] == [];
    EncodeNothing();
    Associate(ret, [], []);
  }

  lemma EncodeNothing()
    ensures Encode([]) == []
  {
  }

  lemma Associate(a: seq<byte>, b: seq<byte>, c: seq<byte>)
    ensures a + (b + c) == a + b + c && [] + c == c && a + [] == a
  {
  }

  method AppendQuad(before: seq<byte>, packed: nat, padding: nat) returns (ret: seq<byte>)
    requires packed < 0x100_0000 && padding <= 2
    ensures ret == before + Quad(packed, padding)
  {
    ret := before + [Char64(packed / 0x4_0000)];
    ret := ret + [Char64(packed / 0x1000 % 64)];
    if padding != 2 {
      ret := ret + [Char64(packed / 64 % 64)];
    }
    if padding == 0 {
      ret := ret + [Char64(packed % 64)];
    }
    ret := ret + seq(padding, _ => PAD);
  }

  function Shift(n: nat): nat { if n == 0 then 1 else if n == 1 then 0x100 else 0x1_0000 }

  lemma EncodeStep(data: seq<byte>, start: nat, n: nat)
    requires start < |data| && n == Min(3, |data| - start)
    ensures Encode(data[start..]) == Quad(Packed(data[start..start + n]), 3 - n) + Encode(data[start + n..])
  {
    var s := data[start..];
    assert s[..n] == data[start..start + n] && s[n..] == data[start + n..];
    if n < 3 { assert s[..n] == s; }
  }

  lemma {:induction false} EncodeLength(s: seq<byte>)
    ensures |Encode(s)| == 4 * ((|s| + 2) / 3)
  {
    hide Quad, Packed;
    if |s| >= 3 { EncodeLength(s[3..]); }
  }

  // ---- decoding ---------------------------------------------------------------------------------

  // Four characters to 24 bits and the number of '='; '=' only at the end.
  function Unquad(q: seq<byte>, packed: nat, padding: nat): Option<(nat, nat)> {
    if |q| == 0 then Some((packed, padding))
    else if q[0] == PAD then Unquad(q[1..], packed * 64, padding + 1)
    else if padding > 0 then None
    else
      match Value64(q[0])
      case None => None
      case Some(v) => Unquad(q[1..], packed * 64 + v, 0)
  }

  function Unpacked(p: nat, padding: nat): seq<byte> {
    [p / 0x1_0000 % 256] + (if padding == 2 then [] else [p / 256 % 256]) + (if padding == 0 then [p % 256] else [])
  }

  // None where the code gives up and returns the empty string.
  function Decode(s: seq<byte>): Option<seq<byte>> {
    if |s| == 0 then Some([])
    else if |s| < 4 then None
    else
      match Unquad(s[..4], 0, 0)
      case None => None
      case Some((p, padding)) =>
        if (padding > 0 && |s| > 4) || padding > 2 then None
        else
          match Decode(s[4..])
          case None => None
          case Some(rest) => Some(Unpacked(p, padding) + rest)
  }

  // The inner loop: four characters to 24 bits, or None where the code returns the empty string.
  method ReadQuad(src: seq<byte>, start: nat) returns (r: Option<(nat, nat)>)
    requires start < |src|
    ensures r == if start + 4 <= |src| then Unquad(src[start..start + 4], 0, 0) else None
  {
    var ptr := start;
    var i, padding, packed := 0, 0, 0;
    ghost var end := start + 4;
    while i < 4 && ptr < |src|
      invariant 0 <= i <= 4 && ptr == start + i && ptr <= |src| && 0 <= padding <= i && 0 <= packed
      invariant end <= |src| ==> Unquad(src[start..end], 0, 0) == Unquad(src[ptr..end], packed, padding)
    {
      if end <= |src| {
        assert src[ptr..end][0] == src[ptr] && src[ptr..end][1..] == src[ptr + 1..end];
      }
      if src[ptr] == PAD {
        padding := padding + 1;
        packed := packed * 64;
        i, ptr := i + 1, ptr + 1;
        continue;
      }
      if padding > 0 {
        return None;
      }
      var v := Value64(src[ptr]);
      if v.None? {
        return None;
      }
      packed := packed * 64 + v.value;
      i, ptr := i + 1, ptr + 1;
    }
    if i != 4 {
      return None;
    }
    assert src[ptr..end] == [];
    return Some((packed, padding));
  }

  method Base64Decode(src: seq<byte>) returns (result: seq<byte>)
    ensures result == match Decode(src) case Some(x) => x case None => []
  {
    hide Value64, Char64;
    var buffer := new byte[|src| * 3 / 4];
    var writeBuf: nat, ptr: nat := 0, 0;
    assert src[0..] == src;
    AfterNothing(buffer[..0], Decode(src));
    while ptr < |src|
      invariant ptr <= |src| && 4 * writeBuf <= 3 * ptr && writeBuf <= buffer.Length
      invariant Decode(src) == After(buffer[..writeBuf], Decode(src[ptr..]))
    {
      hide Unquad, Decode;
      DecodeStep(src, ptr);
      var quad := ReadQuad(src, ptr);
      if quad.None? {
        return [];
      }
      var (packed, padding) := quad.value;
      ptr := ptr + 4;
      if padding > 0 && ptr != |src| {
        return [];
      }
      if padding > 2 {
        return [];
      }
      ghost var done := buffer[..writeBuf];
      buffer[writeBuf] := packed / 0x1_0000 % 256;
      writeBuf := writeBuf + 1;
      if padding != 2 {
        buffer[writeBuf] := packed / 256 % 256;
        writeBuf := writeBuf + 1;
      }
      if padding == 0 {
        buffer[writeBuf] := packed % 256;
        writeBuf := writeBuf + 1;
      }
      assert buffer[..writeBuf] == done + Unpacked(packed, padding);
      AfterTwice(done, Unpacked(packed, padding), Decode(src[ptr..]));
    }
    assert src[ptr..] == [];
    result := buffer[..writeBuf];
  }

  // Bytes before the outcome of the rest.
  function After(done: seq<byte>, rest: Option<seq<byte>>): Option<seq<byte>> {
    match rest
    case None => None
    case Some(x) => Some(done + x)
  }

  lemma AfterNothing(a: seq<byte>, rest: Option<seq<byte>>)
    requires a == []
    ensures After(a, rest) == rest
  {
    if rest.Some? { assert [] + rest.value == rest.value; }
  }

  lemma AfterTwice(a: seq<byte>, b: seq<byte>, rest: Option<seq<byte>>)
    ensures After(a, After(b, rest)) == After(a + b, rest)
  {
    if rest.Some? { assert a + (b + rest.value) == a + b + rest.value; }
  }

  lemma DecodeStep(src: seq<byte>, p: nat)
    requires p < |src|
    ensures p + 4 > |src| ==> Decode(src[p..]) == None
    ensures p + 4 <= |src| ==>
              Decode(src[p..]) == match Unquad(src[p..p + 4], 0, 0)
                                  case None => None
                                  case Some((packed, padding)) =>
                                    if (padding > 0 && p + 4 != |src|) || padding > 2 then None
                                    else After(Unpacked(packed, padding), Decode(src[p + 4..]))
  {
    if p + 4 <= |src| {
      assert src[p..][..4] == src[p..p + 4] && src[p..][4..] == src[p + 4..];
    }
  }

  // ---- the inverses -----------------------------------------------------------------------------

  // 24 bits are four 6-bit digits and three 8-bit ones.
  lemma SixBits(p: nat)
    requires p < 0x100_0000
    ensures ((p / 0x4_0000 * 64 + p / 0x1000 % 64) * 64 + p / 64 % 64) * 64 + p % 64 == p
  {
  }

  lemma EightBits(a: nat, b: nat, c: nat, p: nat)
    requires a < 256 && b < 256 && c < 256 && p == a * 0x1_0000 + b * 0x100 + c
    ensures p / 0x1_0000 == a && p / 256 % 256 == b && p % 256 == c
  {
    assert p / 256 == a * 256 + b;
  }

  lemma OneChar(c: byte, rest: seq<byte>, packed: nat, padding: nat)
    ensures c == PAD ==> Unquad([c] + rest, packed, padding) == Unquad(rest, packed * 64, padding + 1)
    ensures c != PAD && padding == 0 && Value64(c).Some? ==>
              Unquad([c] + rest, packed, 0) == Unquad(rest, packed * 64 + Value64(c).value, 0)
    ensures c != PAD && (padding > 0 || Value64(c).None?) ==> Unquad([c] + rest, packed, padding) == None
  {
    assert ([c] + rest)[1..] == rest;
  }

  // Four characters at once.
  lemma FourChars(a: byte, b: byte, c: byte, d: byte)
    ensures var r := Unquad([a, b, c, d], 0, 0);
            var va, vb, vc, vd := Value64(a), Value64(b), Value64(c), Value64(d);
            && (va.Some? && vb.Some? && vc.Some? && vd.Some? ==>
                  r == Some((((va.value * 64 + vb.value) * 64 + vc.value) * 64 + vd.value, 0)))
            && (va.Some? && vb.Some? && vc.Some? && d == PAD ==>
                  r == Some((((va.value * 64 + vb.value) * 64 + vc.value) * 64, 1)))
            && (va.Some? && vb.Some? && c == PAD && d == PAD ==>
                  r == Some(((va.value * 64 + vb.value) * 4096, 2)))
            && (r.Some? && r.value.1 <= 2 ==>
                  va.Some? && vb.Some? && (if c == PAD then d == PAD else vc.Some? && (vd.Some? || d == PAD)))
  {
    hide Unquad, Value64;
    var va, vb, vc := Value64(a), Value64(b), Value64(c);
    PadHasNoValue();
    assert [a, b, c, d] == [a] + [b, c, d] && [b, c, d] == [b] + [c, d] && [c, d] == [c] + [d] && [d] == [d] + [];
    OneChar(a, [b, c, d], 0, 0);
    if a == PAD {
      OnlyPads([b, c, d], 0, 1);
    } else if va.Some? {
      var p := va.value;
      OneChar(b, [c, d], p, 0);
      if b == PAD {
        OnlyPads([c, d], p * 64, 1);
      } else if vb.Some? {
        p := p * 64 + vb.value;
        OneChar(c, [d], p, 0);
        if c == PAD {
          OnlyPads([d], p * 64, 1);
          OneChar(d, [], p * 64, 1);
          NoChars(p * 4096, 2);
        } else if vc.Some? {
          p := p * 64 + vc.value;
          OneChar(d, [], p, 0);
          NoChars(p * 64, 1);
          if Value64(d).Some? { NoChars(p * 64 + Value64(d).value, 0); }
        }
      }
    }
  }

  lemma NoChars(packed: nat, padding: nat)
    ensures Unquad([], packed, padding) == Some((packed, padding))
  {
  }

  // After the first '=' only '=' is accepted.
  lemma {:induction false} OnlyPads(q: seq<byte>, packed: nat, padding: nat)
    requires padding > 0
    ensures Unquad(q, packed, padding).Some? ==>
              Unquad(q, packed, padding).value.1 == padding + |q| && forall c :: c in q ==> c == PAD
  {
    if |q| > 0 && q[0] == PAD {
      OnlyPads(q[1..], packed * 64, padding + 1);
      assert q == [q[0]] + q[1..];
    }
  }

  lemma PadHasNoValue()
    ensures Value64(PAD).None?
  {
  }

  // The bits of the packed word that no output byte shows are zero.
  predicate Unused(p: nat, padding: nat) {
    p % (if padding == 0 then 1 else if padding == 1 then 256 else 0x1_0000) == 0
  }

  lemma QuadValue(p: nat, padding: nat, v0: nat, v1: nat, v2: nat, v3: nat)
    requires p < 0x100_0000 && padding <= 2 && Unused(p, padding)
    requires v0 == p / 0x4_0000 && v1 == p / 0x1000 % 64 && v2 == p / 64 % 64 && v3 == p % 64
    ensures v0 < 64 && v1 < 64 && v2 < 64 && v3 < 64
    ensures ((v0 * 64 + v1) * 64 + v2) * 64 + v3 == p
    ensures padding > 0 ==> v3 == 0
    ensures padding == 2 ==> v2 == 0
  {
    SixBits(p);
  }

  // A quad is read back as it was packed ...
  lemma QuadBack(p: nat, padding: nat)
    requires p < 0x100_0000 && padding <= 2 && Unused(p, padding)
    ensures Unquad(Quad(p, padding), 0, 0) == Some((p, padding))
  {
    var v0, v1, v2, v3 := p / 0x4_0000, p / 0x1000 % 64, p / 64 % 64, p % 64;
    QuadValue(p, padding, v0, v1, v2, v3);
    AlphabetInverse(v0, 0);
    AlphabetInverse(v1, 0);
    AlphabetInverse(v2, 0);
    AlphabetInverse(v3, 0);
    hide Value64, Char64, Unquad, Unused;
    PadHasNoValue();
    var c2 := if padding == 2 then PAD else Char64(v2);
    var c3 := if padding == 0 then Char64(v3) else PAD;
    FourChars(Char64(v0), Char64(v1), c2, c3);
    assert Quad(p, padding) == [Char64(v0), Char64(v1), c2, c3];
  }

  // ... and four characters are written again as they were read.
  lemma UnquadBack(q: seq<byte>, p: nat, padding: nat)
    requires |q| == 4 && Unquad(q, 0, 0) == Some((p, padding)) && padding <= 2
    ensures p < 0x100_0000 && Quad(p, padding) == q
  {
    assert q == [q[0], q[1], q[2], q[3]];
    FourChars(q[0], q[1], q[2], q[3]);
    AlphabetInverse(0, q[0]);
    AlphabetInverse(0, q[1]);
    AlphabetInverse(0, q[2]);
    AlphabetInverse(0, q[3]);
    PadHasNoValue();
    hide Unquad, Value64, Char64;
    var a, b := Value64(q[0]).value, Value64(q[1]).value;
    var c := if q[2] == PAD then 0 else Value64(q[2]).value;
    var d := if q[3] == PAD then 0 else Value64(q[3]).value;
    assert p == ((a * 64 + b) * 64 + c) * 64 + d;
    SixBitsBack(a, b, c, d, p);
    assert Quad(p, padding) == [q[0], q[1], q[2], q[3]];
  }

  lemma SixBitsBack(a: nat, b: nat, c: nat, d: nat, p: nat)
    requires a < 64 && b < 64 && c < 64 && d < 64 && p == ((a * 64 + b) * 64 + c) * 64 + d
    ensures p < 0x100_0000
    ensures p / 0x4_0000 == a && p / 0x1000 % 64 == b && p / 64 % 64 == c && p % 64 == d
  {
    assert p / 64 == (a * 64 + b) * 64 + c;
    assert p / 0x1000 == a * 64 + b;
  }

  // Packing and unpacking: the bytes come back, the word up to its unused bits.
  lemma PackBack(g: seq<byte>)
    requires 1 <= |g| <= 3
    ensures Unpacked(Packed(g), 3 - |g|) == g && Unused(Packed(g), 3 - |g|)
  {
    EightBits(g[0], if |g| > 1 then g[1] else 0, if |g| > 2 then g[2] else 0, Packed(g));
  }

  lemma UnpackBack(p: nat, padding: nat)
    requires p < 0x100_0000 && padding <= 2
    ensures |Unpacked(p, padding)| == 3 - padding
    ensures Packed(Unpacked(p, padding)) == p <==> Unused(p, padding)
  {
    assert p == p / 0x1_0000 * 0x1_0000 + p / 256 % 256 * 256 + p % 256;
    assert p / 0x1_0000 < 256;
  }

  // base64decode undoes base64encode on every byte string.
  lemma {:induction false} DecodeEncode(x: seq<byte>)
    ensures Decode(Encode(x)) == Some(x)
  {
    hide Quad, Unquad, Packed, Unpacked;
    if |x| > 0 {
      var n := Min(3, |x|);
      var g := x[..n];
      var p := Packed(g);
      PackBack(g);
      QuadBack(p, 3 - n);
      DecodeEncode(x[n..]);
      var q, rest := Quad(p, 3 - n), Encode(x[n..]);
      assert x == g + x[n..];
      if n < 3 { assert g == x; }
      assert Encode(x) == q + rest;
      assert (q + rest)[..4] == q && (q + rest)[4..] == rest;
      EncodeLength(x[n..]);
    }
  }

  // Four characters, and then the rest.
  lemma DecodeQuad(s: seq<byte>)
    requires |s| >= 4 && Decode(s).Some?
    ensures var u := Unquad(s[..4], 0, 0);
            && u.Some? && u.value.1 <= 2 && (u.value.1 > 0 ==> |s| == 4)
            && u.value.0 < 0x100_0000 && Quad(u.value.0, u.value.1) == s[..4]
            && Decode(s[4..]).Some? && Decode(s).value == Unpacked(u.value.0, u.value.1) + Decode(s[4..]).value
  {
    var u := Unquad(s[..4], 0, 0);
    UnquadBack(s[..4], u.value.0, u.value.1);
  }

  // The last four characters carry no set bits that the decoder drops.
  predicate Canonical(s: seq<byte>) {
    |s| >= 4 ==>
      match Unquad(s[|s| - 4..], 0, 0)
      case None => true
      case Some((p, padding)) => Unused(p, padding)
  }

  // Encoding what was decoded gives the text back exactly when it was canonical.
  lemma {:induction false} EncodeDecode(s: seq<byte>)
    requires Decode(s).Some?
    ensures Encode(Decode(s).value) == s <==> Canonical(s)
  {
    if |s| >= 4 {
      DecodeQuad(s);
      var (p, padding) := Unquad(s[..4], 0, 0).value;
      var g, x := Unpacked(p, padding), Decode(s[4..]).value;
      UnpackBack(p, padding);
      if |s| == 4 {
        assert s[..4] == s && s[0..] == s && g + x == g;
        LastQuad(s, p, padding);
      } else {
        EncodeDecode(s[4..]);
        assert |g| == 3 && (g + x)[..3] == g && (g + x)[3..] == x;
        assert Encode(g + x) == Quad(p, 0) + Encode(x);
        assert s == s[..4] + s[4..];
        SuffixQuad(s);
        if Encode(g + x) == s { assert (Quad(p, 0) + Encode(x))[4..] == Encode(x); }
      }
    }
  }

  lemma SuffixQuad(s: seq<byte>)
    requires |s| > 4 && Decode(s).Some?
    ensures Canonical(s) <==> Canonical(s[4..])
  {
    DecodeQuad(s);
    assert |s[4..]| >= 4;
    assert s[4..][|s[4..]| - 4..] == s[|s| - 4..];
  }

  lemma LastQuad(s: seq<byte>, p: nat, padding: nat)
    requires |s| == 4 && Unquad(s, 0, 0) == Some((p, padding)) && padding <= 2 && p < 0x100_0000
    requires Quad(p, padding) == s
    ensures Encode(Unpacked(p, padding)) == s <==> Unused(p, padding)
  {
    var g := Unpacked(p, padding);
    UnpackBack(p, padding);
    PackBack(g);
    QuadBack(Packed(g), padding);
    if padding == 0 {
      assert g[..3] == g && g[3..] == [];
      assert Encode(g) == Quad(Packed(g), 0) + [];
    }
  }

  // What the decoder accepts: whole quads of the alphabet, the last one or two characters '='.
  ghost predicate Shape(s: seq<byte>, pads: nat) {
    && |s| % 4 == 0 && pads <= 2 && pads <= |s|
    && (forall i :: 0 <= i < |s| - pads ==> Value64(s[i]).Some?)
    && (forall i :: |s| - pads <= i < |s| ==> s[i] == PAD)
  }

  lemma Accepts(s: seq<byte>)
    ensures Decode(s).Some? <==> exists pads :: Shape(s, pads)
  {
    if Decode(s).Some? {
      var pads := AcceptedShape(s);
    }
    if pads :| Shape(s, pads) {
      ShapeAccepted(s, pads);
    }
  }

  lemma {:induction false} AcceptedShape(s: seq<byte>) returns (pads: nat)
    requires Decode(s).Some?
    ensures Shape(s, pads)
  {
    if |s| == 0 {
      return 0;
    }
    DecodeQuad(s);
    var (p, padding) := Unquad(s[..4], 0, 0).value;
    FourChars(s[0], s[1], s[2], s[3]);
    PadHasNoValue();
    assert s[..4] == [s[0], s[1], s[2], s[3]];
    hide Unquad, Value64, Decode, Quad;
    if padding > 0 {
      pads := padding;
    } else {
      pads := AcceptedShape(s[4..]);
      ShapeLonger(s, pads);
    }
  }

  lemma ShapeLonger(s: seq<byte>, pads: nat)
    requires |s| >= 4 && Shape(s[4..], pads) && forall i :: 0 <= i < 4 ==> Value64(s[i]).Some?
    ensures Shape(s, pads)
  {
    hide Value64;
    forall i | 4 <= i < |s| ensures s[i] == s[4..][i - 4] {}
  }

  lemma {:induction false} ShapeAccepted(s: seq<byte>, pads: nat)
    requires Shape(s, pads)
    ensures Decode(s).Some?
  {
    if |s| > 0 {
      FourChars(s[0], s[1], s[2], s[3]);
      PadHasNoValue();
      assert s[..4] == [s[0], s[1], s[2], s[3]];
      if |s| == 4 {
        assert Decode(s[4..]) == Some([]);
      } else {
        ShapeAccepted(s[4..], pads);
      }
    }
  }

  // ---- the text as a number -------------------------------------------------------------------------

  // Bytes as digits to the base 256, and characters as digits to the base 64, the first most significant.
  function ByteNumber(s: seq<byte>): nat {
    if |s| == 0 then 0 else ByteNumber(s[..|s| - 1]) * 256 + s[|s| - 1]
  }

  function TextNumber(t: seq<byte>): nat {
    if |t| == 0 then 0
    else TextNumber(t[..|t| - 1]) * 64 + (match Value64(t[|t| - 1]) case Some(v) => v case None => 0)
  }

  function Pow64(n: nat): nat { if n == 0 then 1 else 64 * Pow64(n - 1) }

  lemma {:induction false} ByteNumberJoin(a: seq<byte>, b: seq<byte>)
    ensures ByteNumber(a + b) == ByteNumber(a) * Pow256(|b|) + ByteNumber(b)
    decreases |b|
  {
    if |b| == 0 {
      assert a + b == a;
    } else {
      var c, n := b[..|b| - 1], |b| - 1;
      assert (a + b)[..|a + b| - 1] == a + c;
      ByteNumberJoin(a, c);
      Regroup(ByteNumber(a), Pow256(n), ByteNumber(c), 256, b[n]);
    }
  }

  lemma {:induction false} TextNumberJoin(a: seq<byte>, b: seq<byte>)
    ensures TextNumber(a + b) == TextNumber(a) * Pow64(|b|) + TextNumber(b)
    decreases |b|
  {
    hide Value64;
    if |b| == 0 {
      assert a + b == a;
    } else {
      var c, n := b[..|b| - 1], |b| - 1;
      assert (a + b)[..|a + b| - 1] == a + c;
      TextNumberJoin(a, c);
      var d := match Value64(b[n]) case Some(v) => v case None => 0;
      Regroup(TextNumber(a), Pow64(n), TextNumber(c), 64, d);
    }
  }

  lemma Regroup(a: nat, p: nat, c: nat, base: nat, d: nat)
    ensures (a * p + c) * base + d == a * (base * p) + (c * base + d)
  {
  }

  // How far the bits of n bytes are shifted to fill whole characters, as a factor.
  function Shifted(pads: nat): nat { if pads == 0 then 1 else if pads == 1 then 4 else 16 }

  function Pads(n: nat): nat { if n % 3 == 0 then 0 else 3 - n % 3 }

  // n bytes and the characters for them have room for the same numbers but for the shift.
  lemma {:induction false} SameRoom(n: nat)
    ensures 4 * ((n + 2) / 3) >= Pads(n)
    ensures Pow64(4 * ((n + 2) / 3) - Pads(n)) == Pow256(n) * Shifted(Pads(n))
  {
    if n >= 3 {
      SameRoom(n - 3);
      var m := 4 * ((n - 1) / 3) - Pads(n);
      assert Pow64(m + 4) == 64 * Pow64(m + 3) && Pow64(m + 3) == 64 * Pow64(m + 2);
      assert Pow64(m + 2) == 64 * Pow64(m + 1) && Pow64(m + 1) == 64 * Pow64(m);
      assert Pow256(n) == 256 * Pow256(n - 1) && Pow256(n - 1) == 256 * Pow256(n - 2);
      assert Pow256(n - 2) == 256 * Pow256(n - 3);
    } else if n == 1 {
      assert Pow64(2) == 64 * Pow64(1) && Pow256(1) == 256;
    } else if n == 2 {
      assert Pow64(3) == 64 * Pow64(2) && Pow64(2) == 64 * Pow64(1) && Pow256(2) == 256 * Pow256(1);
    }
  }

  // The characters of an encoding spell, to the base 64, the number that the bytes spell to the base
  // 256, shifted by the bits that are missing to whole characters; '=' stands for what is missing to
  // whole quads. With the alphabet this fixes every character.
  lemma {:induction false} EncodeNumber(s: seq<byte>)
    ensures var pads, e := Pads(|s|), Encode(s);
            && |e| == 4 * ((|s| + 2) / 3) >= pads && Shape(e, pads)
            && TextNumber(e[..|e| - pads]) == ByteNumber(s) * Shifted(pads)
  {
    hide Value64, Packed, Quad, TextNumber, ByteNumber, Shape;
    EncodeLength(s);
    if |s| == 0 {
      NoNumber();
    } else if |s| < 3 {
      QuadNumber(s);
    } else {
      var g, rest := s[..3], s[3..];
      var q, e, pads := Quad(Packed(g), 0), Encode(rest), Pads(|rest|);
      QuadNumber(g);
      EncodeNumber(rest);
      assert Encode(s) == q + e && s == g + rest && q[..4] == q;
      assert (q + e)[..4 + |e| - pads] == q + e[..|e| - pads];
      ShapeFront(q, e, pads);
      SameRoom(|rest|);
      NumbersJoin(q, e[..|e| - pads], g, rest, Shifted(pads));
    }
  }

  lemma NoNumber()
    ensures Shape([], 0) && TextNumber([]) == 0 && ByteNumber([]) == 0
  {
  }

  lemma ShapeFront(q: seq<byte>, e: seq<byte>, pads: nat)
    requires |q| == 4 && Shape(q, 0) && Shape(e, pads)
    ensures Shape(q + e, pads)
  {
    assert (q + e)[4..] == e && forall i :: 0 <= i < 4 ==> (q + e)[i] == q[i];
    ShapeLonger(q + e, pads);
  }

  lemma NumbersJoin(q: seq<byte>, t: seq<byte>, g: seq<byte>, rest: seq<byte>, k: nat)
    requires TextNumber(q) == ByteNumber(g) && TextNumber(t) == ByteNumber(rest) * k
    requires Pow64(|t|) == Pow256(|rest|) * k
    ensures TextNumber(q + t) == ByteNumber(g + rest) * k
  {
    hide TextNumber, ByteNumber, Pow64, Pow256;
    TextNumberJoin(q, t);
    ByteNumberJoin(g, rest);
    Scale(ByteNumber(g), Pow256(|rest|), k, ByteNumber(rest));
  }

  lemma Scale(a: nat, p: nat, k: nat, b: nat)
    ensures a * (p * k) + b * k == (a * p + b) * k
  {
  }

  lemma QuadNumber(g: seq<byte>)
    requires 1 <= |g| <= 3
    ensures var pads, q := 3 - |g|, Quad(Packed(g), 3 - |g|);
            && Pads(|g|) == pads && Shape(q, pads) && TextNumber(q[..4 - pads]) == ByteNumber(g) * Shifted(pads)
  {
    QuadDigits(Packed(g), 3 - |g|);
    hide Value64, Packed, Quad, TextNumber, ByteNumber, Shape;
    GroupNumber(g);
    var n := ByteNumber(g);
    if |g| == 1 {
      SplitPosition(n * 16, 0, 4096);
    } else if |g| == 2 {
      SplitPosition(n * 4, 0, 64);
    }
  }

  // The characters of a quad spell its 24 bits, without those that '=' stands for.
  lemma QuadDigits(p: nat, pads: nat)
    requires p < 0x100_0000 && pads <= 2
    ensures var q := Quad(p, pads);
            Shape(q, pads) && TextNumber(q[..4 - pads]) == p / (if pads == 0 then 1 else if pads == 1 then 64 else 4096)
  {
    var q := Quad(p, pads);
    var v0, v1, v2, v3 := p / 0x4_0000, p / 0x1000 % 64, p / 64 % 64, p % 64;
    SixBits(p);
    AlphabetInverse(v0, 0);
    AlphabetInverse(v1, 0);
    AlphabetInverse(v2, 0);
    AlphabetInverse(v3, 0);
    hide Value64, Char64;
    TextNumberNext([], q[0]);
    TextNumberNext([q[0]], q[1]);
    assert [] + [q[0]] == [q[0]] && [q[0]] + [q[1]] == q[..2];
    if pads < 2 {
      TextNumberNext(q[..2], q[2]);
      assert q[..2] + [q[2]] == q[..3];
    }
    if pads == 0 {
      TextNumberNext(q[..3], q[3]);
      assert q[..3] + [q[3]] == q[..4];
    }
  }

  lemma TextNumberNext(t: seq<byte>, c: byte)
    requires Value64(c).Some?
    ensures TextNumber(t + [c]) == TextNumber(t) * 64 + Value64(c).value && TextNumber([]) == 0
  {
    hide Value64;
    assert (t + [c])[..|t|] == t;
  }

  lemma GroupNumber(g: seq<byte>)
    requires 1 <= |g| <= 3
    ensures ByteNumber(g) * (if |g| == 3 then 1 else if |g| == 2 then 256 else 0x1_0000) == Packed(g)
  {
    assert ByteNumber(g[..1]) == g[0] by { assert g[..1][..0] == []; }
    if |g| == 1 {
      assert g[..1] == g;
    } else {
      assert g[..2][..1] == g[..1];
      if |g| == 2 { assert g[..2] == g; } else { assert g[..3] == g && g[..3][..2] == g[..2]; }
    }
  }

  // What an accepted text decodes to is the number that its characters spell, without the bits that
  // do not make up whole bytes.
  lemma {:induction false} DecodeNumber(s: seq<byte>, pads: nat)
    requires Shape(s, pads)
    ensures Decode(s).Some?
    ensures var x := Decode(s).value;
            |x| == |s| / 4 * 3 - pads && ByteNumber(x) == TextNumber(s[..|s| - pads]) / Shifted(pads)
  {
    hide Value64, Unquad, Unpacked, TextNumber, ByteNumber, Shape, Quad, Pow64, Pow256;
    ShapeAccepted(s, pads);
    ShapeLength(s, pads);
    if |s| == 0 {
      NoNumber();
    } else {
      DecodeQuad(s);
      var q, rest := s[..4], s[4..];
      var (p, padding) := Unquad(q, 0, 0).value;
      var u, x := Unpacked(p, padding), Decode(rest).value;
      hide Decode;
      QuadBytes(q, p, padding);
      if |s| == 4 {
        assert q == s && u + x == u by { NothingDecoded(rest); }
        PadsAre(s, pads);
        PadsAre(s, padding);
      } else {
        ShapeTail(s, pads);
        DecodeNumber(rest, pads);
        var t := rest[..|rest| - pads];
        assert s[..|s| - pads] == q + t && q[..4] == q;
        SameRoomText(|x|, |t|, |rest| / 4, pads);
        NumbersSplit(q, t, u, x, Shifted(pads));
      }
    }
  }

  lemma NothingDecoded(s: seq<byte>)
    ensures s == [] ==> Decode(s) == Some([])
  {
  }

  lemma SameRoomText(n: nat, m: nat, quads: nat, pads: nat)
    requires quads > 0 && pads <= 2 && n == 3 * quads - pads && m == 4 * quads - pads
    ensures Pow64(m) == Pow256(n) * Shifted(pads)
  {
    SameRoom(n);
    assert (n + 2) / 3 == quads && Pads(n) == pads;
  }

  lemma QuadBytes(q: seq<byte>, p: nat, pads: nat)
    requires |q| == 4 && p < 0x100_0000 && pads <= 2 && Quad(p, pads) == q
    ensures Shape(q, pads) && |Unpacked(p, pads)| == 3 - pads
    ensures ByteNumber(Unpacked(p, pads)) == TextNumber(q[..4 - pads]) / Shifted(pads)
  {
    QuadDigits(p, pads);
    hide Quad, TextNumber, ByteNumber, Unpacked, Shape;
    UnpackBack(p, pads);
    UnpackedNumber(p, pads);
    if pads == 1 { DivideTwice(p, 64, 4); }
    if pads == 2 { DivideTwice(p, 4096, 16); }
  }

  lemma ShapeLength(s: seq<byte>, pads: nat)
    requires Shape(s, pads)
    ensures |s| % 4 == 0 && pads <= 2 && pads <= |s| && (|s| == 0 ==> pads == 0)
  {
  }

  lemma ShapeTail(s: seq<byte>, pads: nat)
    requires Shape(s, pads) && |s| > 4
    ensures Shape(s[4..], pads)
  {
    hide Value64;
  }

  // How many characters of a quad are '='.
  lemma PadsAre(q: seq<byte>, pads: nat)
    requires |q| == 4 && Shape(q, pads)
    ensures pads == if q[3] != PAD then 0 else if q[2] != PAD then 1 else 2
  {
    PadHasNoValue();
    hide Value64;
  }

  lemma UnpackedNumber(p: nat, pads: nat)
    requires p < 0x100_0000 && pads <= 2
    ensures ByteNumber(Unpacked(p, pads)) == p / (if pads == 0 then 1 else if pads == 1 then 256 else 0x1_0000)
  {
    var g := Unpacked(p, pads);
    UnpackBack(p, pads);
    hide ByteNumber;
    GroupNumber(g);
    if pads == 0 { PackBack(g); }
    EightBits(g[0], p / 256 % 256, p % 256, p);
  }

  lemma NumbersSplit(q: seq<byte>, t: seq<byte>, u: seq<byte>, x: seq<byte>, k: nat)
    requires k > 0 && TextNumber(q) == ByteNumber(u) && ByteNumber(x) == TextNumber(t) / k
    requires Pow64(|t|) == Pow256(|x|) * k
    ensures ByteNumber(u + x) == TextNumber(q + t) / k
  {
    hide TextNumber, ByteNumber, Pow64, Pow256;
    TextNumberJoin(q, t);
    ByteNumberJoin(u, x);
    Divided(ByteNumber(u), Pow256(|x|), k, TextNumber(t));
  }

  lemma Divided(a: nat, p: nat, k: nat, t: nat)
    requires k > 0
    ensures (a * (p * k) + t) / k == a * p + t / k
  {
    Scale(a, p, k, t / k);
    SplitPosition(a * p + t / k, t % k, k);
  }
}
