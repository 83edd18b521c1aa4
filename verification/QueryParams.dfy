/** HttpRequest's parameter parsing: PARSE_PARAM over the query, a form body and the cookie header. */
module QueryParams {
  import opened Bytes
  import opened Options
  import UrlCodec

  const EQUALS: byte := 61
  const AMPERSAND: byte := 38
  const SEMICOLON: byte := 59

  datatype Pair = Pair(key: seq<byte>, value: seq<byte>)

  // std::map with CaseInsensitiveLess: strcasecmp compares up to the first NUL without regard to
  // case, so an entry is found under the folded key. The entry keeps the key as it was inserted.
  type Params = map<seq<byte>, Pair>

  function Lower(c: byte): byte { if 65 <= c <= 90 then c + 32 else c }

  function Fold(key: seq<byte>): seq<byte> {
    if |key| == 0 || key[0] == 0 then [] else [Lower(key[0])] + Fold(key[1..])
  }

  // The same character but for case, by their codes.
  predicate SameLetter(a: byte, b: byte) {
    || a == b
    || ('A' as int <= a <= 'Z' as int && b - 'a' as int == a - 'A' as int)
    || ('A' as int <= b <= 'Z' as int && a - 'a' as int == b - 'A' as int)
  }

  // What strcasecmp takes for equal: up to the first NUL, the same characters but for case.
  ghost predicate SameKey(a: seq<byte>, b: seq<byte>) {
    Find(a, 0) == Find(b, 0) && forall i :: 0 <= i < Find(a, 0) ==> SameLetter(a[i], b[i])
  }

  lemma FoldMeaning(a: seq<byte>, b: seq<byte>)
    ensures Fold(a) == Fold(b) <==> SameKey(a, b)
  {
    FoldAt(a);
    FoldAt(b);
    hide Fold, Find;
    forall i | 0 <= i < |Fold(a)| && i < |Fold(b)| ensures Fold(a)[i] == Fold(b)[i] <==> SameLetter(a[i], b[i]) {}
  }

  lemma {:induction false} FoldAt(key: seq<byte>)
    ensures |Fold(key)| == Find(key, 0) && forall i :: 0 <= i < Find(key, 0) ==> Fold(key)[i] == Lower(key[i])
  {
    if |key| > 0 && key[0] != 0 { FoldAt(key[1..]); }
  }

  // map::insert does not replace.
  function Insert(m: Params, p: Pair): Params {
    if Fold(p.key) in m then m else m[Fold(p.key) := p]
  }

  function InsertAll(m: Params, ps: seq<Pair>): Params
    decreases |ps|
  {
    if |ps| == 0 then m else InsertAll(Insert(m, ps[0]), ps[1..])
  }

  // string::find of one character; |s| stands for npos.
  function Find(s: seq<byte>, c: byte): (k: nat)
    ensures k <= |s| && (k < |s| ==> s[k] == c) && forall i :: 0 <= i < k ==> s[i] != c
  {
    if |s| == 0 || s[0] == c then 0
    else
      var k := Find(s[1..], c);
      assert forall i :: 1 <= i < |s| ==> s[i] == s[1..][i - 1];
      k + 1
  }

  lemma FindIs(s: seq<byte>, c: byte, k: nat)
    requires k <= |s| && (k < |s| ==> s[k] == c) && forall i :: 0 <= i < k ==> s[i] != c
    ensures Find(s, c) == k
  {
  }

  method FindFrom(s: seq<byte>, c: byte, pos: nat) returns (k: nat)
    requires pos <= |s|
    ensures pos <= k <= |s| && k == pos + Find(s[pos..], c)
  {
    k := pos;
    while k < |s| && s[k] != c
      invariant pos <= k <= |s|
      invariant forall i :: pos <= i < k ==> s[i] != c
    {
      k := k + 1;
    }
    FindIs(s[pos..], c, k - pos);
  }

  // StringUtil::Trim of blanks, tabs and line ends.
  predicate Blank(c: byte) { c == 32 || c == 9 || c == 13 || c == 10 }

  function TrimLeft(s: seq<byte>): (r: seq<byte>)
    ensures |r| <= |s|
  {
    if |s| > 0 && Blank(s[0]) then TrimLeft(s[1..]) else s
  }

  function TrimRight(s: seq<byte>): (r: seq<byte>)
    ensures |r| <= |s|
  {
    if |s| > 0 && Blank(s[|s| - 1]) then TrimRight(s[..|s| - 1]) else s
  }

  function Trim(s: seq<byte>, trim: bool): (r: seq<byte>)
    ensures |r| <= |s|
  {
    if trim then TrimRight(TrimLeft(s)) else s
  }

  const BLANKS := " \t\r\n"

  predicate InBlanks(c: byte) { c as char in BLANKS }

  // Everything before i and from j on is blank, and what is between begins and ends with something else.
  ghost predicate Cut(s: seq<byte>, i: nat, j: nat) {
    && i <= j <= |s| && (forall k :: 0 <= k < i || j <= k < |s| ==> InBlanks(s[k]))
    && (i < j ==> !InBlanks(s[i]) && !InBlanks(s[j - 1]))
  }

  // Trimming leaves what is between the blanks at both ends, nothing of a text of blanks.
  lemma TrimExactly(s: seq<byte>, r: seq<byte>)
    ensures Trim(s, true) == r <==> exists i: nat, j: nat :: Cut(s, i, j) && r == s[i..j]
    ensures Trim(s, false) == s
  {
    var i, j := TrimCuts(s);
    forall k: nat, m: nat | Cut(s, k, m) ensures s[k..m] == s[i..j] {
      hide InBlanks;
      assert k < m <==> i < j;
      if k < m { assert k == i && m == j; }
    }
  }

  lemma BlankIs(c: byte)
    ensures Blank(c) <==> InBlanks(c)
  {
  }

  lemma TrimCuts(s: seq<byte>) returns (i: nat, j: nat)
    ensures Cut(s, i, j) && Trim(s, true) == s[i..j]
  {
    i := LeftCut(s);
    var m := RightCut(s[i..]);
    j := i + m;
    forall k | 0 <= k < |s| ensures Blank(s[k]) <==> InBlanks(s[k]) { BlankIs(s[k]); }
    hide Blank, InBlanks;
    forall k | j <= k < |s| ensures Blank(s[k]) { assert s[i..][k - i] == s[k]; }
    assert s[i..][..m] == s[i..j];
  }

  lemma {:induction false} LeftCut(s: seq<byte>) returns (i: nat)
    ensures i <= |s| && TrimLeft(s) == s[i..] && (i < |s| ==> !Blank(s[i])) && forall k :: 0 <= k < i ==> Blank(s[k])
  {
    i := 0;
    if |s| > 0 && Blank(s[0]) {
      i := LeftCut(s[1..]);
      i := i + 1;
    }
  }

  lemma {:induction false} RightCut(t: seq<byte>) returns (j: nat)
    ensures j <= |t| && TrimRight(t) == t[..j] && (j > 0 ==> !Blank(t[j - 1]))
    ensures forall k :: j <= k < |t| ==> Blank(t[k])
  {
    j := |t|;
    if |t| > 0 && Blank(t[|t| - 1]) {
      j := RightCut(t[..|t| - 1]);
      assert t[..|t| - 1][..j] == t[..j];
    }
  }

  // The pairs the macro inserts, in order: a key up to '=', a value up to the next separator.
  function Pairs(s: seq<byte>, flag: byte, trim: bool): seq<Pair>
    requires flag != EQUALS
    decreases |s|
  {
    var k := Find(s, EQUALS);
    if k == |s| then []
    else
      var rest := s[k..];
      var f := Find(rest, flag);
      var p := Pair(Trim(s[..k], trim), UrlCodec.Decode(rest[1..f], true));
      if f == |rest| then [p] else [p] + Pairs(rest[f + 1..], flag, trim)
  }

  method ParseParam(str: seq<byte>, m: Params, flag: byte, trim: bool) returns (r: Params)
    requires flag != EQUALS
    ensures r == InsertAll(m, Pairs(str, flag, trim))
  {
    hide Pairs, InsertAll, Insert, Trim, UrlCodec.Decode, Find;
    r := m;
    var pos := 0;
    assert str[0..] == str;
    while true
      invariant 0 <= pos <= |str|
      invariant InsertAll(r, Pairs(str[pos..], flag, trim)) == InsertAll(m, Pairs(str, flag, trim))
      decreases |str| - pos
    {
      PairsStep(r, str[pos..], flag, trim);
      var last := pos;
      pos := FindFrom(str, EQUALS, pos);
      if pos == |str| {
        break;
      }
      var key := pos;
      pos := FindFrom(str, flag, pos);
      assert str[last..][..key - last] == str[last..key];
      assert str[last..][key - last..] == str[key..] && str[key..][1..pos - key] == str[key + 1..pos];
      var value := UrlCodec.UrlDecode(str[key + 1..pos], true);
      r := Insert(r, Pair(Trim(str[last..key], trim), value));
      if pos == |str| {
        break;
      }
      assert str[key..][pos - key + 1..] == str[pos + 1..];
      pos := pos + 1;
    }
  }

  lemma InsertSteps(m: Params, p: Pair, rest: seq<Pair>)
    ensures InsertAll(m, []) == m
    ensures InsertAll(m, [p]) == Insert(m, p)
    ensures InsertAll(m, [p] + rest) == InsertAll(Insert(m, p), rest)
  {
    hide Insert;
    assert [p][1..] == [] && ([p] + rest)[1..] == rest;
  }

  lemma PairsStep(m: Params, s: seq<byte>, flag: byte, trim: bool)
    requires flag != EQUALS
    ensures var k := Find(s, EQUALS);
            if k == |s| then InsertAll(m, Pairs(s, flag, trim)) == m
            else
              var rest := s[k..];
              var f := Find(rest, flag);
              var p := Pair(Trim(s[..k], trim), UrlCodec.Decode(rest[1..f], true));
              InsertAll(m, Pairs(s, flag, trim)) ==
                if f == |rest| then Insert(m, p)
                else InsertAll(Insert(m, p), Pairs(rest[f + 1..], flag, trim))
  {
    hide Insert, InsertAll, Trim, UrlCodec.Decode, Find;
    var k := Find(s, EQUALS);
    if k < |s| {
      var rest := s[k..];
      var f := Find(rest, flag);
      var p := Pair(Trim(s[..k], trim), UrlCodec.Decode(rest[1..f], true));
      InsertSteps(m, p, if f == |rest| then [] else Pairs(rest[f + 1..], flag, trim));
    } else {
      InsertSteps(m, Pair([], []), []);
    }
  }

  // ---- the round trip ---------------------------------------------------------------------------

  // key=UrlEncode(value), joined with the separator.
  function Joined(ps: seq<Pair>, flag: byte): seq<byte> {
    if |ps| == 0 then []
    else
      var one := ps[0].key + [EQUALS] + UrlCodec.Encode(ps[0].value, true);
      if |ps| == 1 then one else one + [flag] + Joined(ps[1..], flag)
  }

  // Keys survive when they hold no '=' and nothing that is trimmed.
  predicate Plain(key: seq<byte>, trim: bool) { EQUALS !in key && Trim(key, trim) == key }

  predicate Separator(flag: byte) { flag == AMPERSAND || flag == SEMICOLON }

  // Parsing gives back exactly the joined pairs, whatever their values, if and only if every key is
  // plain.
  lemma {:induction false} PairsOfJoined(ps: seq<Pair>, flag: byte, trim: bool)
    requires Separator(flag)
    ensures Pairs(Joined(ps, flag), flag, trim) == ps <==> forall p :: p in ps ==> Plain(p.key, trim)
    decreases |ps|
  {
    hide Pairs, Trim, Find, UrlCodec.Encode;
    if |ps| == 0 {
      NoPairs([], flag, trim);
    } else {
      var s, key := Joined(ps, flag), ps[0].key;
      var v := UrlCodec.Encode(ps[0].value, true);
      var rest := if |ps| == 1 then [] else Joined(ps[1..], flag);
      var tail := if |ps| == 1 then [] else [flag] + rest;
      assert s == key + ([EQUALS] + v + tail);
      assert ps == [ps[0]] + ps[1..];
      if EQUALS in key {
        CutKey(s, key, [EQUALS] + v + tail, flag, trim);
        assert ps[0] in ps;
      } else {
        FirstPair(key, ps[0].value, tail, flag, trim);
        PairsOfJoined(ps[1..], flag, trim);
        if |ps| > 1 {
          assert tail[1..] == rest;
        }
      }
    }
  }

  lemma NoPairs(s: seq<byte>, flag: byte, trim: bool)
    requires flag != EQUALS && EQUALS !in s
    ensures Pairs(s, flag, trim) == []
  {
    hide Trim, UrlCodec.Decode;
    forall i | 0 <= i < |s| ensures s[i] != EQUALS { assert s[i] in s; }
    FindIs(s, EQUALS, |s|);
  }

  // One key and value at the front are taken off whole.
  lemma FirstPair(key: seq<byte>, value: seq<byte>, tail: seq<byte>, flag: byte, trim: bool)
    requires Separator(flag) && EQUALS !in key && (|tail| > 0 ==> tail[0] == flag)
    ensures Pairs(key + ([EQUALS] + UrlCodec.Encode(value, true) + tail), flag, trim) ==
            [Pair(Trim(key, trim), value)] + if |tail| == 0 then [] else Pairs(tail[1..], flag, trim)
  {
    hide Pairs, Trim, UrlCodec.Encode, UrlCodec.Decode, Find;
    UrlCodec.EncodedChars(value, true);
    FirstSegment(key, UrlCodec.Encode(value, true), tail, flag, trim);
    UrlCodec.DecodeEncode(value, true, true);
  }

  lemma FirstSegment(key: seq<byte>, raw: seq<byte>, tail: seq<byte>, flag: byte, trim: bool)
    requires flag != EQUALS && EQUALS !in key && flag !in raw && (|tail| > 0 ==> tail[0] == flag)
    ensures Pairs(key + ([EQUALS] + raw + tail), flag, trim) ==
            [Pair(Trim(key, trim), UrlCodec.Decode(raw, true))]
            + if |tail| == 0 then [] else Pairs(tail[1..], flag, trim)
  {
    hide Trim, UrlCodec.Decode, Find;
    var rest := [EQUALS] + raw + tail;
    var s := key + rest;
    forall i | 0 <= i < |key| ensures s[i] != EQUALS { assert s[i] == key[i] && key[i] in key; }
    FindIs(s, EQUALS, |key|);
    assert s[..|key|] == key && s[|key|..] == rest;
    forall i | 0 <= i < |raw| + 1 ensures rest[i] != flag {
      if i > 0 { assert rest[i] == raw[i - 1] && raw[i - 1] in raw; }
    }
    FindIs(rest, flag, |raw| + 1);
    assert rest[1..|raw| + 1] == raw;
    if |tail| > 0 { assert rest[|raw| + 2..] == tail[1..]; }
  }

  // A key with '=' in it is cut short.
  lemma CutKey(s: seq<byte>, key: seq<byte>, more: seq<byte>, flag: byte, trim: bool)
    requires s == key + more && EQUALS in key && flag != EQUALS
    ensures |Pairs(s, flag, trim)| > 0 && |Pairs(s, flag, trim)[0].key| < |key|
  {
    hide UrlCodec.Decode, Trim, Fold;
    var i :| 0 <= i < |key| && key[i] == EQUALS;
    var k := Find(key, EQUALS);
    assert k <= i;
    FindIs(s, EQUALS, k);
  }

  // ---- any text -----------------------------------------------------------------------------------

  // Keys and values as they stand in a text, and what follows the last separator.
  function Text(segments: seq<Pair>, tail: Option<seq<byte>>, flag: byte): seq<byte> {
    if |segments| == 0 then match tail case None => [] case Some(t) => t
    else
      segments[0].key + ([EQUALS] + segments[0].value +
        if |segments| == 1 && tail.None? then [] else [flag] + Text(segments[1..], tail, flag))
  }

  // A key ends at the first '=', a value at the first separator behind it, and without '=' there is no
  // further pair.
  ghost predicate Segmented(segments: seq<Pair>, tail: Option<seq<byte>>, flag: byte) {
    && (forall p :: p in segments ==> EQUALS !in p.key && flag !in p.value)
    && (tail.Some? ==> EQUALS !in tail.value)
  }

  ghost predicate ReadAs(segments: seq<Pair>, trim: bool, ps: seq<Pair>) {
    |ps| == |segments| && forall i :: 0 <= i < |ps| ==>
      ps[i] == Pair(Trim(segments[i].key, trim), UrlCodec.Decode(segments[i].value, true))
  }

  // What the macro makes of any text: its segments, keys trimmed on request and values decoded.
  lemma PairsExactly(s: seq<byte>, flag: byte, trim: bool, ps: seq<Pair>)
    requires flag != EQUALS
    ensures Pairs(s, flag, trim) == ps <==>
              exists segments, tail :: Segmented(segments, tail, flag) && Text(segments, tail, flag) == s
                && ReadAs(segments, trim, ps)
  {
    hide Pairs, Trim, UrlCodec.Decode, Text, Segmented;
    var segments, tail := Segments(s, flag);
    SegmentsRead(segments, tail, flag, trim);
    forall segments, tail
      | Segmented(segments, tail, flag) && Text(segments, tail, flag) == s && ReadAs(segments, trim, ps)
      ensures Pairs(s, flag, trim) == ps
    {
      SegmentsRead(segments, tail, flag, trim);
      assert Pairs(s, flag, trim) == ps;
    }
  }

  lemma {:induction false} Segments(s: seq<byte>, flag: byte) returns (segments: seq<Pair>, tail: Option<seq<byte>>)
    requires flag != EQUALS
    ensures Segmented(segments, tail, flag) && Text(segments, tail, flag) == s
    decreases |s|
  {
    hide Find;
    var k := Find(s, EQUALS);
    if k == |s| {
      segments, tail := [], Some(s);
    } else {
      var rest := s[k..];
      var f := Find(rest, flag);
      var p := Pair(s[..k], rest[1..f]);
      assert s == s[..k] + rest && rest == [EQUALS] + rest[1..f] + rest[f..];
      if f == |rest| {
        segments, tail := [p], None;
      } else {
        var more;
        more, tail := Segments(rest[f + 1..], flag);
        if more == [] && tail.None? { tail := Some([]); }
        segments := [p] + more;
        hide Segmented;
        assert rest[f..] == [flag] + rest[f + 1..];
        OneMore(p, more, tail, flag);
      }
    }
  }

  lemma OneMore(p: Pair, more: seq<Pair>, tail: Option<seq<byte>>, flag: byte)
    requires Segmented(more, tail, flag) && EQUALS !in p.key && flag !in p.value && (more != [] || tail.Some?)
    ensures Segmented([p] + more, tail, flag)
    ensures Text([p] + more, tail, flag) == p.key + ([EQUALS] + p.value + ([flag] + Text(more, tail, flag)))
  {
    assert ([p] + more)[1..] == more;
  }

  lemma {:induction false} SegmentsRead(segments: seq<Pair>, tail: Option<seq<byte>>, flag: byte, trim: bool)
    requires flag != EQUALS && Segmented(segments, tail, flag)
    ensures ReadAs(segments, trim, Pairs(Text(segments, tail, flag), flag, trim))
    decreases |segments|
  {
    hide Pairs, Trim, UrlCodec.Decode;
    if |segments| == 0 {
      NoPairs(Text(segments, tail, flag), flag, trim);
    } else {
      var p, rest := segments[0], segments[1..];
      var end := if |segments| == 1 && tail.None? then [] else [flag] + Text(rest, tail, flag);
      assert p in segments;
      assert Segmented(rest, tail, flag);
      FirstSegment(p.key, p.value, end, flag, trim);
      SegmentsRead(rest, tail, flag, trim);
      if |end| > 0 {
        assert end[1..] == Text(rest, tail, flag);
        hide Text, Segmented, ReadAs;
        ReadMore(p, rest, trim, Pairs(Text(rest, tail, flag), flag, trim));
      }
      assert segments == [p] + rest;
    }
  }

  lemma ReadMore(p: Pair, rest: seq<Pair>, trim: bool, ps: seq<Pair>)
    requires ReadAs(rest, trim, ps)
    ensures ReadAs([p] + rest, trim, [Pair(Trim(p.key, trim), UrlCodec.Decode(p.value, true))] + ps)
  {
    hide Trim, UrlCodec.Decode;
  }

  // No earlier pair has the same key but for case.
  ghost predicate IsFirst(ps: seq<Pair>, i: nat)
    requires i < |ps|
  {
    forall j :: 0 <= j < i ==> Fold(ps[j].key) != Fold(ps[i].key)
  }

  // Of pairs with one key but for case only the first is kept; entries that were there stay, and
  // nothing else is added.
  lemma {:induction false} InsertedExactly(m: Params, ps: seq<Pair>)
    ensures var r := InsertAll(m, ps);
            && (forall f :: f in m ==> f in r && r[f] == m[f])
            && (forall i :: 0 <= i < |ps| && IsFirst(ps, i) && Fold(ps[i].key) !in m ==>
                  Fold(ps[i].key) in r && r[Fold(ps[i].key)] == ps[i])
            && (forall f :: f in r ==> f in m || exists i :: 0 <= i < |ps| && Fold(ps[i].key) == f)
    decreases |ps|
  {
    if |ps| > 0 {
      hide Fold;
      var m1, tail := Insert(m, ps[0]), ps[1..];
      InsertedExactly(m1, tail);
      var r := InsertAll(m, ps);
      forall i | 0 <= i < |ps| && IsFirst(ps, i) && Fold(ps[i].key) !in m
        ensures Fold(ps[i].key) in r && r[Fold(ps[i].key)] == ps[i]
      {
        if i > 0 {
          assert ps[i] == tail[i - 1] && Fold(ps[0].key) != Fold(ps[i].key);
          assert forall j :: 0 <= j < i - 1 ==> tail[j] == ps[j + 1];
          assert IsFirst(tail, i - 1);
        } else {
          assert Fold(ps[0].key) in m1 && m1[Fold(ps[0].key)] == ps[0];
        }
      }
      forall f | f in r && f !in m ensures exists i :: 0 <= i < |ps| && Fold(ps[i].key) == f {
        if f != Fold(ps[0].key) {
          var i :| 0 <= i < |tail| && Fold(tail[i].key) == f;
          assert ps[i + 1] == tail[i];
        }
      }
    }
  }

  // ---- the request ------------------------------------------------------------------------------

  class HttpRequest {
    var m_query: seq<byte>
    var m_body: seq<byte>
    // Whether the content-type header contains application/x-www-form-urlencoded in any case.
    var m_isForm: bool
    var m_cookie: seq<byte>  // the cookie header, empty if there is none
    var m_parserParamFlag: bv8
    var m_params: Params
    var m_cookies: Params

    constructor (query: seq<byte>, body: seq<byte>, isForm: bool, cookie: seq<byte>)
      ensures m_query == query && m_body == body && m_isForm == isForm && m_cookie == cookie
      ensures m_parserParamFlag == 0 && m_params == map[] && m_cookies == map[]
    {
      m_query, m_body, m_isForm, m_cookie := query, body, isForm, cookie;
      m_parserParamFlag, m_params, m_cookies := 0, map[], map[];
    }

    // What the parameters become when the query, and then the body, are taken in if not yet done.
    function WithQuery(): Params
      reads this
    {
      if m_parserParamFlag & 1 != 0 then m_params else InsertAll(m_params, Pairs(m_query, AMPERSAND, false))
    }

    function WithBody(params: Params): Params
      reads this
    {
      if m_parserParamFlag & 2 != 0 || !m_isForm then params
      else InsertAll(params, Pairs(m_body, AMPERSAND, false))
    }

    function WithCookies(): Params
      reads this
    {
      if m_parserParamFlag & 4 != 0 || |m_cookie| == 0 then m_cookies
      else InsertAll(m_cookies, Pairs(m_cookie, SEMICOLON, true))
    }

    method InitQueryParam()
      modifies this`m_params, this`m_parserParamFlag
      ensures m_params == old(WithQuery()) && m_parserParamFlag == old(m_parserParamFlag) | 1
      ensures WithQuery() == m_params
    {
      if m_parserParamFlag & 1 != 0 {
        return;
      }
      m_params := ParseParam(m_query, m_params, AMPERSAND, false);
      m_parserParamFlag := m_parserParamFlag | 1;
    }

    method InitBodyParam()
      modifies this`m_params, this`m_parserParamFlag
      ensures m_params == old(WithBody(m_params)) && m_parserParamFlag == old(m_parserParamFlag) | 2
      ensures WithBody(m_params) == m_params
    {
      if m_parserParamFlag & 2 != 0 {
        return;
      }
      if !m_isForm {
        m_parserParamFlag := m_parserParamFlag | 2;
        return;
      }
      m_params := ParseParam(m_body, m_params, AMPERSAND, false);
      m_parserParamFlag := m_parserParamFlag | 2;
    }

    method InitCookies()
      modifies this`m_cookies, this`m_parserParamFlag
      ensures m_cookies == old(WithCookies()) && m_parserParamFlag == old(m_parserParamFlag) | 4
      ensures WithCookies() == m_cookies
    {
      if m_parserParamFlag & 4 != 0 {
        return;
      }
      if |m_cookie| == 0 {
        m_parserParamFlag := m_parserParamFlag | 4;
        return;
      }
      m_cookies := ParseParam(m_cookie, m_cookies, SEMICOLON, true);
      m_parserParamFlag := m_parserParamFlag | 4;
    }

    method GetCookie(key: seq<byte>, def: seq<byte>) returns (r: seq<byte>)
      modifies this`m_cookies, this`m_parserParamFlag
      ensures m_cookies == old(WithCookies()) && WithCookies() == m_cookies
      ensures m_parserParamFlag == old(m_parserParamFlag) | 4
      ensures r == if Fold(key) in m_cookies then m_cookies[Fold(key)].value else def
    {
      InitCookies();
      if Fold(key) in m_cookies {
        return m_cookies[Fold(key)].value;
      }
      return def;
    }

    // A second look finds the same parameters: they are parsed once.
    method GetParam(key: seq<byte>, def: seq<byte>) returns (r: seq<byte>)
      modifies this`m_params, this`m_parserParamFlag
      ensures m_params == old(WithBody(WithQuery()))
      ensures m_parserParamFlag == old(m_parserParamFlag) | 3 && WithBody(WithQuery()) == m_params
      ensures r == if Fold(key) in m_params then m_params[Fold(key)].value else def
    {
      InitQueryParam();
      InitBodyParam();
      if Fold(key) in m_params {
        return m_params[Fold(key)].value;
      }
      return def;
    }
  }

  ghost predicate FirstWith(ps: seq<Pair>, asked: seq<byte>, i: nat)
    requires i < |ps|
  {
    SameKey(asked, ps[i].key) && forall j :: 0 <= j < i ==> !SameKey(asked, ps[j].key)
  }

  // The value of the first pair with the key in any case, or the default if there is none.
  ghost predicate Answers(ps: seq<Pair>, asked: seq<byte>, def: seq<byte>, r: seq<byte>) {
    && (forall i :: 0 <= i < |ps| && FirstWith(ps, asked, i) ==> r == ps[i].value)
    && ((forall p :: p in ps ==> !SameKey(asked, p.key)) ==> r == def)
  }

  lemma AnswersInserted(ps: seq<Pair>, asked: seq<byte>, def: seq<byte>, r: seq<byte>)
    requires var m := InsertAll(map[], ps); r == if Fold(asked) in m then m[Fold(asked)].value else def
    ensures Answers(ps, asked, def, r)
  {
    InsertedExactly(map[], ps);
    forall i | 0 <= i < |ps| ensures Fold(asked) == Fold(ps[i].key) <==> SameKey(asked, ps[i].key) {
      FoldMeaning(asked, ps[i].key);
    }
    hide Fold, InsertAll, SameKey;
    forall i | 0 <= i < |ps| && FirstWith(ps, asked, i) ensures r == ps[i].value {
      assert IsFirst(ps, i);
    }
    if forall p :: p in ps ==> !SameKey(asked, p.key) {
      assert forall i :: 0 <= i < |ps| ==> ps[i] in ps;
    }
  }

  // A query and a form body are built from pairs with plain keys: asking for a key in any case gives
  // the value of the first pair with it, those of the query before those of the form.
  method RoundTrip(qs: seq<Pair>, fs: seq<Pair>, isForm: bool, asked: seq<byte>, def: seq<byte>)
    returns (r: seq<byte>, req: HttpRequest)
    requires forall p :: p in qs + fs ==> Plain(p.key, false)
    ensures Answers(if isForm then qs + fs else qs, asked, def, r)
  {
    hide Fold, Joined, Pairs, InsertAll, Answers, Plain;
    BothPlain(qs, fs);
    req := new HttpRequest(Joined(qs, AMPERSAND), Joined(fs, AMPERSAND), isForm, []);
    r := req.GetParam(asked, def);
    InsertTwice(map[], qs, fs);
    AnswersInserted(if isForm then qs + fs else qs, asked, def, r);
  }

  lemma BothPlain(qs: seq<Pair>, fs: seq<Pair>)
    requires forall p :: p in qs + fs ==> Plain(p.key, false)
    ensures Pairs(Joined(qs, AMPERSAND), AMPERSAND, false) == qs
    ensures Pairs(Joined(fs, AMPERSAND), AMPERSAND, false) == fs
  {
    hide Plain, Pairs, Joined;
    forall p | p in qs || p in fs ensures Plain(p.key, false) { assert p in qs + fs; }
    PairsOfJoined(qs, AMPERSAND, false);
    PairsOfJoined(fs, AMPERSAND, false);
  }

  lemma {:induction false} InsertTwice(m: Params, ps: seq<Pair>, qs: seq<Pair>)
    ensures InsertAll(InsertAll(m, ps), qs) == InsertAll(m, ps + qs)
    decreases |ps|
  {
    hide Insert;
    if |ps| == 0 {
      assert ps + qs == qs;
    } else {
      assert (ps + qs)[1..] == ps[1..] + qs;
      InsertTwice(Insert(m, ps[0]), ps[1..], qs);
    }
  }

  // The query "id=1" asked for "ID".
  method OtherCase() returns (r: seq<byte>)
    ensures r == ['1' as int]
  {
    var id, ID := ['i' as int, 'd' as int], ['I' as int, 'D' as int];
    var p := Pair(id, ['1' as int]);
    assert Plain(id, false) && SameKey(ID, id);
    var answer, req := RoundTrip([p], [], false, ID, []);
    assert FirstWith([p], ID, 0);
    r := answer;
  }

  // Taken in one at a time in the other order, the form comes first; and the cookies stay apart.
  method FormFirst(qs: seq<Pair>, fs: seq<Pair>, cs: seq<Pair>, asked: seq<byte>, def: seq<byte>)
    returns (param: seq<byte>, cookie: seq<byte>, req: HttpRequest)
    requires (forall p :: p in qs + fs ==> Plain(p.key, false)) && (forall p :: p in cs ==> Plain(p.key, true))
    ensures Answers(fs + qs, asked, def, param) && Answers(cs, asked, def, cookie)
  {
    hide Fold, Joined, Pairs, InsertAll, Answers, Plain;
    BothPlain(qs, fs);
    PairsOfJoined(cs, SEMICOLON, true);
    NothingJoined(cs);
    req := new HttpRequest(Joined(qs, AMPERSAND), Joined(fs, AMPERSAND), true, Joined(cs, SEMICOLON));
    req.InitBodyParam();
    cookie := req.GetCookie(asked, def);
    param := req.GetParam(asked, def);
    InsertTwice(map[], fs, qs);
    AnswersInserted(fs + qs, asked, def, param);
    AnswersInserted(cs, asked, def, cookie);
  }

  lemma NothingJoined(ps: seq<Pair>)
    ensures |Joined(ps, SEMICOLON)| == 0 <==> ps == []
    ensures InsertAll(map[], []) == map[]
  {
  }
}
