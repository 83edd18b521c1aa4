/** StringUtil::UrlEncode and UrlDecode: percent-encoding (section 2.1 of RFC 3986) with '+' for a
    space on request, except that the table also leaves '=' as it is. */
module UrlCodec {
  import opened Bytes

  const SPACE: byte := 32
  const PERCENT: byte := 37
  const PLUS: byte := 43

  // uri_chars: "-." and digits and '=', letters, '_' and '~'.
  predicate Unreserved(c: byte) {
    c == 45 || c == 46 || 48 <= c <= 57 || c == 61 || 65 <= c <= 90 || c == 95 || 97 <= c <= 122 || c == 126
  }

  function HexDigit(v: nat): (c: byte)
    requires v < 16
    ensures 48 <= c <= 57 || 65 <= c <= 70
  {
    if v < 10 then 48 + v else 65 + (v - 10)
  }

  // isxdigit and xdigit_chars
  predicate IsHex(c: byte) { 48 <= c <= 57 || 65 <= c <= 70 || 97 <= c <= 102 }

  function HexValue(c: byte): (v: nat)
    requires IsHex(c)
    ensures v < 16
  {
    if c <= 57 then c - 48 else if c <= 70 then c - 65 + 10 else c - 97 + 10
  }

  // ---- the tables, by their characters ------------------------------------------------------------

  const UPPER := "ABCDEFGHIJKLMNOPQRSTUVWXYZ"
  const LOWER := "abcdefghijklmnopqrstuvwxyz"
  const MARKS := "-.0123456789="
  const UNRESERVED := MARKS + UPPER + "_" + LOWER + "~"
  const UPPER_DIGITS := "0123456789ABCDEF"
  const LOWER_DIGITS := "0123456789abcdef"

  lemma UnreservedTable(c: byte)
    ensures Unreserved(c) <==> exists i :: 0 <= i < |UNRESERVED| && UNRESERVED[i] as int == c
    ensures SPACE == ' ' as int && PERCENT == '%' as int && PLUS == '+' as int
  {
    if Unreserved(c) { var i := PlaceOf(c); }
    forall i | 0 <= i < |UNRESERVED| ensures UNRESERVED[i] as int < 256 && Unreserved(UNRESERVED[i] as int) {
      InTable(i);
    }
  }

  lemma Letters(k: nat)
    ensures |UPPER| == |LOWER| == 26 && (k < 26 ==> UPPER[k] as int == 65 + k && LOWER[k] as int == 97 + k)
  {
  }

  lemma Marks(k: nat)
    ensures |MARKS| == 13 && (k < 13 ==> MARKS[k] as int == if k < 2 then 45 + k else if k < 12 then 46 + k else 61)
  {
  }

  // The table, place by place.
  lemma TableAt(i: nat)
    ensures |UNRESERVED| == 67
    ensures i < 13 ==> UNRESERVED[i] as int == if i < 2 then 45 + i else if i < 12 then 46 + i else 61
    ensures 13 <= i < 39 ==> UNRESERVED[i] as int == 65 + (i - 13)
    ensures i == 39 ==> UNRESERVED[i] as int == 95
    ensures 40 <= i < 66 ==> UNRESERVED[i] as int == 97 + (i - 40)
    ensures i == 66 ==> UNRESERVED[i] as int == 126
  {
    Letters(0);
    Marks(i);
    if 13 <= i < 39 { Letters(i - 13); }
    if 40 <= i < 66 { Letters(i - 40); }
    hide UPPER, LOWER, MARKS;
  }

  lemma InTable(i: nat)
    requires i < |UNRESERVED|
    ensures UNRESERVED[i] as int < 256 && Unreserved(UNRESERVED[i] as int)
  {
    TableAt(i);
    hide UNRESERVED;
  }

  lemma PlaceOf(c: byte) returns (i: nat)
    requires Unreserved(c)
    ensures i < |UNRESERVED| && UNRESERVED[i] as int == c
  {
    hide UNRESERVED;
    i := if c <= 46 then c - 45 else if c <= 57 then c - 46 else if c == 61 then 12 else if c <= 90 then c - 52
         else if c == 95 then 39 else if c <= 122 then c - 57 else 66;
    TableAt(i);
  }

  // Escapes are written in upper case and read in either.
  lemma HexTable(v: nat, c: byte)
    ensures |UPPER_DIGITS| == |LOWER_DIGITS| == 16 && (v < 16 ==> HexDigit(v) == UPPER_DIGITS[v] as int)
    ensures IsHex(c) && HexValue(c) == v <==>
              v < 16 && (UPPER_DIGITS[v] as int == c || LOWER_DIGITS[v] as int == c)
  {
  }

  function EncodeChar(c: byte, plus: bool): seq<byte> {
    if Unreserved(c) then [c]
    else if c == SPACE && plus then [PLUS]
    else [PERCENT, HexDigit(c / 16), HexDigit(c % 16)]
  }

  function Encode(s: seq<byte>, plus: bool): seq<byte> {
    if |s| == 0 then [] else EncodeChar(s[0], plus) + Encode(s[1..], plus)
  }

  predicate Escape(s: seq<byte>) { |s| >= 3 && s[0] == PERCENT && IsHex(s[1]) && IsHex(s[2]) }

  function Decode(s: seq<byte>, plus: bool): seq<byte>
    decreases |s|
  {
    if |s| == 0 then []
    else if s[0] == PLUS && plus then [SPACE] + Decode(s[1..], plus)
    else if Escape(s) then [HexValue(s[1]) * 16 + HexValue(s[2])] + Decode(s[3..], plus)
    else [s[0]] + Decode(s[1..], plus)
  }

  // The string allocated at the first character that changes; None stands for the null pointer.
  datatype Buffer = Null | Allocated(text: seq<byte>)

  // What has been produced for the first n characters of s.
  function Produced(b: Buffer, s: seq<byte>, n: nat): seq<byte>
    requires n <= |s|
  {
    if b.Null? then s[..n] else b.text
  }

  method UrlEncode(str: seq<byte>, space_as_plus: bool) returns (r: seq<byte>)
    ensures r == Encode(str, space_as_plus)
  {
    hide Encode, EncodeChar;
    var ss := Null;
    var c := 0;
    EncodeAll(str, space_as_plus);
    while c < |str|
      invariant 0 <= c <= |str|
      invariant Produced(ss, str, c) + Encode(str[c..], space_as_plus) == Encode(str, space_as_plus)
    {
      EncodeStep(Produced(ss, str, c), str, c, space_as_plus);
      ghost var before := Produced(ss, str, c);
      if !Unreserved(str[c]) {
        if ss.Null? {
          ss := Allocated(str[..c]);
        }
        if str[c] == SPACE && space_as_plus {
          ss := Allocated(ss.text + [PLUS]);
        } else {
          ss := Allocated(ss.text + [PERCENT]);
          ss := Allocated(ss.text + [HexDigit(str[c] / 16)]);
          ss := Allocated(ss.text + [HexDigit(str[c] % 16)]);
          assert ss.text == before + [PERCENT, HexDigit(str[c] / 16), HexDigit(str[c] % 16)];
        }
      } else if ss.Allocated? {
        ss := Allocated(ss.text + [str[c]]);
      }
      assert str[..c + 1] == str[..c] + [str[c]];
      assert Produced(ss, str, c + 1) == before + EncodeChar(str[c], space_as_plus) by {
        CharForm(str[c], space_as_plus);
      }
      c := c + 1;
    }
    EncodeAll(str[c..], space_as_plus);
    if ss.Null? {
      return str;
    } else {
      return ss.text;
    }
  }

  lemma CharForm(c: byte, plus: bool)
    ensures EncodeChar(c, plus) == if Unreserved(c) then [c] else if c == SPACE && plus then [PLUS]
                                   else [PERCENT, HexDigit(c / 16), HexDigit(c % 16)]
  {
  }

  lemma EncodeAll(s: seq<byte>, plus: bool)
    ensures s[..0] + Encode(s[0..], plus) == Encode(s, plus)
    ensures |s| == 0 ==> Encode(s, plus) == []
  {
    assert s[0..] == s;
  }

  lemma EncodeStep(done: seq<byte>, s: seq<byte>, c: nat, plus: bool)
    requires c < |s|
    ensures done + Encode(s[c..], plus) == done + EncodeChar(s[c], plus) + Encode(s[c + 1..], plus)
  {
    assert s[c..][1..] == s[c + 1..];
  }

  method UrlDecode(str: seq<byte>, space_as_plus: bool) returns (r: seq<byte>)
    ensures r == Decode(str, space_as_plus)
  {
    hide Decode;
    var ss := Null;
    var c := 0;
    DecodeAll(str, space_as_plus);
    while c < |str|
      invariant 0 <= c <= |str|
      invariant Produced(ss, str, c) + Decode(str[c..], space_as_plus) == Decode(str, space_as_plus)
    {
      DecodeStep(Produced(ss, str, c), str, c, space_as_plus);
      if str[c] == PLUS && space_as_plus {
        if ss.Null? {
          ss := Allocated(str[..c]);
        }
        ss := Allocated(ss.text + [SPACE]);
      } else if str[c] == PERCENT && c + 2 < |str| && IsHex(str[c + 1]) && IsHex(str[c + 2]) {
        if ss.Null? {
          ss := Allocated(str[..c]);
        }
        ss := Allocated(ss.text + [HexValue(str[c + 1]) * 16 + HexValue(str[c + 2])]);
        c := c + 2;
      } else if ss.Allocated? {
        ss := Allocated(ss.text + [str[c]]);
      } else {
        assert str[..c + 1] == str[..c] + [str[c]];
      }
      c := c + 1;
    }
    DecodeAll(str[c..], space_as_plus);
    if ss.Null? {
      return str;
    } else {
      return ss.text;
    }
  }

  lemma DecodeAll(s: seq<byte>, plus: bool)
    ensures s[..0] + Decode(s[0..], plus) == Decode(s, plus)
    ensures |s| == 0 ==> Decode(s, plus) == []
  {
    assert s[0..] == s;
  }

  lemma DecodeStep(done: seq<byte>, s: seq<byte>, c: nat, plus: bool)
    requires c < |s|
    ensures s[c] == PLUS && plus ==> done + Decode(s[c..], plus) == done + [SPACE] + Decode(s[c + 1..], plus)
    ensures !(s[c] == PLUS && plus) ==>
              if s[c] == PERCENT && c + 2 < |s| && IsHex(s[c + 1]) && IsHex(s[c + 2])
              then done + Decode(s[c..], plus) ==
                   done + [HexValue(s[c + 1]) * 16 + HexValue(s[c + 2])] + Decode(s[c + 3..], plus)
              else done + Decode(s[c..], plus) == done + [s[c]] + Decode(s[c + 1..], plus)
  {
    assert s[c..][1..] == s[c + 1..];
    if c + 2 < |s| { assert s[c..][3..] == s[c + 3..]; }
  }

  // ---- the round trip ---------------------------------------------------------------------------

  lemma HexInverse(c: byte)
    ensures HexValue(HexDigit(c / 16)) * 16 + HexValue(HexDigit(c % 16)) == c
  {
  }

  // One encoded character comes back, except that a '+' is read as itself by a decoder that was not
  // told about it.
  lemma CharBack(c: byte, rest: seq<byte>, p: bool, q: bool)
    ensures Decode(EncodeChar(c, p) + rest, q) == [if c == SPACE && p && !q then PLUS else c] + Decode(rest, q)
  {
    var e := EncodeChar(c, p);
    var s := e + rest;
    HexInverse(c);
    if |e| == 1 {
      assert s[0] == e[0] && s[1..] == rest;
    } else {
      assert s[0] == PERCENT && s[1] == HexDigit(c / 16) && s[2] == HexDigit(c % 16) && s[3..] == rest;
    }
  }

  // Decoding undoes encoding on every byte string exactly when the decoder was told of '+' if the
  // encoder was, or there was no space; so always under equal settings.
  lemma {:induction false} DecodeEncode(s: seq<byte>, p: bool, q: bool)
    ensures Decode(Encode(s, p), q) == s <==> (p ==> q) || SPACE !in s
    ensures |Decode(Encode(s, p), q)| == |s|
  {
    if |s| > 0 {
      CharBack(s[0], Encode(s[1..], p), p, q);
      DecodeEncode(s[1..], p, q);
      assert s == [s[0]] + s[1..];
      var d := Decode(Encode(s, p), q);
      assert d == [d[0]] + d[1..] && d[1..] == Decode(Encode(s[1..], p), q);
    }
  }

  // What the encoder emits: unreserved characters, '%' and '+' only.
  lemma {:induction false} EncodedChars(s: seq<byte>, plus: bool)
    ensures forall c :: c in Encode(s, plus) ==> Unreserved(c) || c == PERCENT || c == PLUS
  {
    if |s| > 0 {
      EncodedChars(s[1..], plus);
    }
  }

  // ---- what the decoder makes of any text -----------------------------------------------------------

  // A text as it is read: single characters, and escapes of two hexadecimal digits.
  datatype Token = Single(c: byte) | Escaped(high: byte, low: byte)

  function Written(ts: seq<Token>): seq<byte> {
    if |ts| == 0 then []
    else (match ts[0] case Single(c) => [c] case Escaped(h, l) => [PERCENT, h, l]) + Written(ts[1..])
  }

  // A percent sign stands for itself exactly where two digits do not follow it.
  predicate Readable(ts: seq<Token>) {
    |ts| > 0 ==>
      && Readable(ts[1..])
      && match ts[0]
         case Single(c) =>
           var rest := Written(ts[1..]);
           c == PERCENT ==> !(|rest| >= 2 && IsHex(rest[0]) && IsHex(rest[1]))
         case Escaped(h, l) => IsHex(h) && IsHex(l)
  }

  function Meaning(t: Token, plus: bool): byte
    requires t.Escaped? ==> IsHex(t.high) && IsHex(t.low)
  {
    match t
    case Single(c) => if c == PLUS && plus then SPACE else c
    case Escaped(h, l) => 16 * HexValue(h) + HexValue(l)
  }

  // Every text is the writing of one readable list of tokens, and decodes to what they mean.
  lemma DecodeExactly(s: seq<byte>, plus: bool, d: seq<byte>)
    ensures Decode(s, plus) == d <==> exists ts :: Readable(ts) && Written(ts) == s && Means(ts, plus, d)
  {
    var ts := Tokens(s);
    ReadableDecodes(ts, plus);
    if Decode(s, plus) == d { assert Means(ts, plus, d); }
    if ts :| Readable(ts) && Written(ts) == s && Means(ts, plus, d) {
      ReadableDecodes(ts, plus);
      assert d == Decode(s, plus);
    }
  }

  // The bytes that the tokens mean, one by one.
  ghost predicate Means(ts: seq<Token>, plus: bool, d: seq<byte>)
    requires Readable(ts)
  {
    && |d| == |ts|
    && forall i :: 0 <= i < |ts| ==>
         (ts[i].Escaped? ==> IsHex(ts[i].high) && IsHex(ts[i].low)) && d[i] == Meaning(ts[i], plus)
  }

  lemma {:induction false} Tokens(s: seq<byte>) returns (ts: seq<Token>)
    ensures Readable(ts) && Written(ts) == s
    decreases |s|
  {
    if |s| == 0 {
      ts := [];
    } else if Escape(s) {
      var rest := Tokens(s[3..]);
      ts := [Escaped(s[1], s[2])] + rest;
      assert ts[1..] == rest && s == [PERCENT, s[1], s[2]] + s[3..];
    } else {
      var rest := Tokens(s[1..]);
      ts := [Single(s[0])] + rest;
      assert ts[1..] == rest && s == [s[0]] + s[1..];
    }
  }

  lemma {:induction false} ReadableDecodes(ts: seq<Token>, plus: bool)
    requires Readable(ts)
    ensures Means(ts, plus, Decode(Written(ts), plus))
    decreases |ts|
  {
    if |ts| > 0 {
      var s, tail := Written(ts), Written(ts[1..]);
      ReadableDecodes(ts[1..], plus);
      if ts[0].Escaped? {
        assert s[0] == PERCENT && s[1] == ts[0].high && s[2] == ts[0].low && s[3..] == tail;
      } else {
        assert s[0] == ts[0].c && s[1..] == tail;
        assert |tail| >= 2 ==> tail[0] == s[1] && tail[1] == s[2];
      }
      assert Decode(s, plus) == [Meaning(ts[0], plus)] + Decode(tail, plus);
      forall i | 0 <= i < |ts| ensures (ts[i].Escaped? ==> IsHex(ts[i].high) && IsHex(ts[i].low)) {
        if i > 0 { assert ts[i] == ts[1..][i - 1]; }
      }
    }
  }

  // How a byte is encoded, by the characters of the tables.
  ghost predicate EncodedAs(c: byte, plus: bool, t: Token) {
    if exists i :: 0 <= i < |UNRESERVED| && UNRESERVED[i] as int == c then t == Single(c)
    else if c == ' ' as int && plus then t == Single('+' as int)
    else t.Escaped? && t.high == UPPER_DIGITS[c / 16] as int && t.low == UPPER_DIGITS[c % 16] as int
  }

  // The encoding is every byte in its place, encoded in this way.
  lemma {:induction false} EncodeExactly(s: seq<byte>, plus: bool, e: seq<byte>)
    ensures Encode(s, plus) == e <==>
              exists ts: seq<Token> ::
                |ts| == |s| && Written(ts) == e && forall i :: 0 <= i < |s| ==> EncodedAs(s[i], plus, ts[i])
  {
    hide EncodedAs, Encode, Written;
    var ts := Encoded(s, plus);
    forall us: seq<Token> | |us| == |s| && forall i :: 0 <= i < |s| ==> EncodedAs(s[i], plus, us[i]) ensures us == ts {
      forall i | 0 <= i < |s| ensures us[i] == ts[i] { OneToken(s[i], plus, us[i], ts[i]); }
    }
  }

  lemma OneToken(c: byte, plus: bool, t: Token, u: Token)
    requires EncodedAs(c, plus, t) && EncodedAs(c, plus, u)
    ensures t == u
  {
    hide UNRESERVED, UPPER_DIGITS;
  }

  lemma {:induction false} Encoded(s: seq<byte>, plus: bool) returns (ts: seq<Token>)
    ensures |ts| == |s| && Written(ts) == Encode(s, plus) && forall i :: 0 <= i < |s| ==> EncodedAs(s[i], plus, ts[i])
  {
    ts := [];
    if |s| > 0 {
      hide UNRESERVED, UPPER_DIGITS;
      var rest := Encoded(s[1..], plus);
      var t := TokenOf(s[0], plus);
      ts := [t] + rest;
      assert ts[1..] == rest;
    }
  }

  lemma TokenOf(c: byte, plus: bool) returns (t: Token)
    ensures EncodedAs(c, plus, t)
    ensures EncodeChar(c, plus) == match t case Single(x) => [x] case Escaped(h, l) => [PERCENT, h, l]
  {
    UnreservedTable(c);
    HexTable(c / 16, 0);
    HexTable(c % 16, 0);
    hide UNRESERVED, UPPER_DIGITS, LOWER_DIGITS;
    t := if Unreserved(c) then Single(c) else if c == SPACE && plus then Single(PLUS)
         else Escaped(HexDigit(c / 16), HexDigit(c % 16));
  }
}
