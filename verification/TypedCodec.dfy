/** The byte format of the typed values a ByteArray carries, and what reading a value back yields. */
module TypedCodec {
  import opened Bytes
  import opened ByteView
  import opened Endian
  import opened Varint

  // The typed writers and readers: fixed width, zigzag and plain varint, and strings with a fixed
  // or a varint length prefix. Widths are in bytes.
  datatype Kind =
    | Fint(width: nat)
    | Fuint(width: nat)
    | Int(width: nat)
    | Uint(width: nat)
    | StringF(width: nat)
    | StringVint
  {
    predicate Known() {
      match this
      case Fint(w) => w == 1 || w == 2 || w == 4 || w == 8
      case Fuint(w) => w == 1 || w == 2 || w == 4 || w == 8
      case Int(w) => w == 4 || w == 8
      case Uint(w) => w == 4 || w == 8
      case StringF(w) => w == 2 || w == 4 || w == 8
      case StringVint => true
    }

    predicate IsString() { StringF? || StringVint? }
  }

  datatype Datum = Number(n: int) | Text(s: seq<byte>)

  // The values the C++ parameter type of each writer can hold.
  ghost predicate Fits(k: Kind, d: Datum) {
    match k
    case Fint(w) => d.Number? && IsSigned(d.n, w)
    case Fuint(w) => d.Number? && 0 <= d.n < Pow256(w)
    case Int(w) => d.Number? && IsSigned(d.n, w)
    case Uint(w) => d.Number? && 0 <= d.n < Pow256(w)
    case StringF(_) => d.Text? && |d.s| < TWO_64
    case StringVint => d.Text? && |d.s| < TWO_64
  }

  function Encoding(k: Kind, d: Datum, little: bool): (e: seq<byte>)
    requires k.Known() && Fits(k, d)
    ensures |e| >= 1
  {
    match k
    case Fint(w) => Image(ToUnsigned(d.n, w), w, little)
    case Fuint(w) => Image(d.n, w, little)
    case Int(w) => VarintBytes(EncodeZigzag(d.n, w))
    case Uint(w) => VarintBytes(d.n)
    case StringF(w) => Image(|d.s| % Pow256(w), w, little) + d.s
    case StringVint => VarintBytes(|d.s|) + d.s
  }

  // ---- reading one value ------------------------------------------------------------------------

  // The result of a reader and where it leaves the cursor, also when it fails half way.
  datatype Step<+T> = Step(out: Outcome<T>, position: nat)

  // A failed step, for a result of another type.
  function Fail<T, U>(s: Step<T>): Step<U>
    requires !s.out.Ok?
  {
    Step(if s.out.OutOfRange? then OutOfRange else NullDeref, s.position)
  }

  function TakeWord(v: View, w: nat): (r: Step<nat>)
    requires v.Valid() && w > 0
    ensures v.position <= r.position <= v.size && !r.out.NullDeref?
  {
    match Fetch(v, w)
    case Ok(s) => Step(Ok(FromImage(s, v.little)), v.position + w)
    case _ => Step(OutOfRange, v.position)
  }

  function TakeVarint(v: View, w: nat): (r: Step<nat>)
    requires v.Valid()
    ensures v.position <= r.position <= v.size && !r.out.NullDeref?
  {
    match ReadVarint(v.flat[v.position..v.size], 8 * w)
    case Value(x, used) => Step(Ok(x), v.position + used)
    case Starved => Step(OutOfRange, v.size)
  }

  function TakeText(v: View, len: Step<nat>): (r: Step<Datum>)
    requires v.Valid() && v.position <= len.position <= v.size
    ensures v.position <= r.position <= v.size
  {
    if !len.out.Ok? then Fail(len)
    else
      match Fetch(v.(position := len.position), len.out.value)
      case Ok(s) => Step(Ok(Text(s)), len.position + len.out.value)
      case OutOfRange => Step(OutOfRange, len.position)
      case NullDeref => Step(NullDeref, len.position)
  }

  // The number a word read from the bytes stands for.
  function Meaning(k: Kind, u: nat): int {
    match k
    case Fint(w) => ToSigned(u, w)
    case Int(w) => DecodeZigzag(u, w)
    case _ => u
  }

  function TakeNumber(k: Kind, word: Step<nat>): (r: Step<Datum>)
    ensures r.position == word.position
  {
    if word.out.Ok? then Step(Ok(Number(Meaning(k, word.out.value))), word.position) else Fail(word)
  }

  function Take(v: View, k: Kind): (r: Step<Datum>)
    requires v.Valid() && k.Known()
    ensures v.position <= r.position <= v.size
  {
    match k
    case Fint(w) => TakeNumber(k, TakeWord(v, w))
    case Fuint(w) => TakeNumber(k, TakeWord(v, w))
    case Int(w) => TakeNumber(k, TakeVarint(v, w))
    case Uint(w) => TakeNumber(k, TakeVarint(v, w))
    case StringF(w) => TakeText(v, TakeWord(v, w))
    case StringVint => TakeText(v, TakeVarint(v, 8))
  }

  // A code lies at the cursor.
  ghost predicate At(v: View, e: seq<byte>) {
    v.Valid() && v.position + |e| <= v.size && v.flat[v.position..v.position + |e|] == e
  }

  lemma AtPrefix(v: View, e: seq<byte>, rest: seq<byte>)
    requires At(v, e + rest)
    ensures At(v, e)
    ensures At(v.(position := v.position + |e|), rest)
  {
    assert v.flat[v.position..v.position + |e|] == (e + rest)[..|e|];
    assert v.flat[v.position + |e|..v.position + |e| + |rest|] == (e + rest)[|e|..];
  }

  lemma TakeWordBack(v: View, w: nat, x: nat)
    requires w > 0 && x < Pow256(w) && At(v, Image(x, w, v.little))
    ensures TakeWord(v, w) == Step(Ok(x), v.position + w)
  {
    ImageRoundTrip(x, w, v.little);
  }

  lemma TakeVarintBack(v: View, w: nat, x: nat)
    requires w == 4 || w == 8
    requires x < Pow256(w) && At(v, VarintBytes(x))
    ensures TakeVarint(v, w) == Step(Ok(x), v.position + |VarintBytes(x)|)
  {
    Pow256Values();
    Pow2Values();
    var e := VarintBytes(x);
    var rest := v.flat[v.position + |e|..v.size];
    assert v.flat[v.position..v.size] == e + rest;
    VarintRoundTrip(x, 8 * w, rest);
  }

  // Whatever the bytes are, what a varint reader yields fits its type.
  lemma TakeVarintFits(v: View, w: nat)
    requires v.Valid() && (w == 4 || w == 8)
    ensures TakeVarint(v, w).out.Ok? ==> TakeVarint(v, w).out.value < Pow256(w)
  {
    Pow256Values();
    Pow2Values();
    var s := v.flat[v.position..v.size];
    if ReadVarint(s, 8 * w).Value? {
      ReadFits(s, 0, 8 * w, 1);
    }
  }

  // The length prefix of a string can hold its length.
  ghost predicate PrefixHolds(k: Kind, d: Datum) {
    k.StringF? && d.Text? ==> |d.s| < Pow256(k.width)
  }

  // An empty string whose code ends where the last node ends.
  ghost predicate EmptyAtEnd(v: View, k: Kind, d: Datum, end: nat) {
    k.IsString() && d == Text([]) && end == v.capacity
  }

  lemma TakeTextBack(v: View, len: Step<nat>, n: nat, s: seq<byte>)
    requires v.Valid() && v.position <= len.position <= v.size && len.out == Ok(n)
    requires At(v.(position := len.position), s) && n <= |s|
    ensures TakeText(v, len).out == Ok(Text(s)) ==> TakeText(v, len).position == len.position + |s|
    ensures TakeText(v, len) == Step(Ok(Text(s)), len.position + |s|)
            <==> n == |s| && !(s == [] && len.position == v.capacity)
  {
    if n == |s| && !(s == [] && len.position == v.capacity) {
    } else if n == |s| {
      assert Fetch(v.(position := len.position), n) == NullDeref;
    } else {
      assert len.position + n != len.position + |s|;
    }
  }

  lemma TakeNumberBack(v: View, k: Kind, d: Datum)
    requires k.Known() && Fits(k, d) && !k.IsString() && At(v, Encoding(k, d, v.little))
    ensures Take(v, k) == Step(Ok(d), v.position + |Encoding(k, d, v.little)|)
  {
    hide TakeWord, TakeVarint, Image, VarintBytes, At, DecodeZigzag, EncodeZigzag;
    match k
    case Fint(w) =>
      SignedRoundTrip(d.n, w);
      TakeWordBack(v, w, ToUnsigned(d.n, w));
    case Fuint(w) => TakeWordBack(v, w, d.n);
    case Int(w) =>
      ZigzagRoundTrip(d.n, w);
      TakeVarintBack(v, w, EncodeZigzag(d.n, w));
    case Uint(w) => TakeVarintBack(v, w, d.n);
  }

  lemma TakeStringBack(v: View, k: Kind, d: Datum)
    requires k.Known() && Fits(k, d) && k.IsString() && At(v, Encoding(k, d, v.little))
    ensures var end := v.position + |Encoding(k, d, v.little)|;
            && (Take(v, k).out == Ok(d) ==> Take(v, k).position == end)
            && (Take(v, k) == Step(Ok(d), end) <==> PrefixHolds(k, d) && !EmptyAtEnd(v, k, d, end))
  {
    hide TakeWord, TakeVarint, TakeText, Image, VarintBytes, At, Pow256;
    match k
    case StringF(w) =>
      var n, m := |d.s| % Pow256(w), Pow256(w);
      AtPrefix(v, Image(n, w, v.little), d.s);
      TakeWordBack(v, w, n);
      RemainderFixed(|d.s|, m);
      AtValid(v, Image(n, w, v.little));
      TakeTextBack(v, TakeWord(v, w), n, d.s);
    case StringVint =>
      Pow256Values();
      AtPrefix(v, VarintBytes(|d.s|), d.s);
      TakeVarintBack(v, 8, |d.s|);
      AtValid(v, VarintBytes(|d.s|));
      TakeTextBack(v, TakeVarint(v, 8), |d.s|, d.s);
  }

  lemma AtValid(v: View, e: seq<byte>)
    requires At(v, e)
    ensures v.Valid() && v.position + |e| <= v.size
  {
  }

  // Reading a value back yields it, and moves the cursor behind it, exactly when its length prefix
  // could hold its length and the cursor does not leave the last node before an empty read.
  lemma TakeBack(v: View, k: Kind, d: Datum)
    requires k.Known() && Fits(k, d) && At(v, Encoding(k, d, v.little))
    ensures var end := v.position + |Encoding(k, d, v.little)|;
            && (Take(v, k).out == Ok(d) ==> Take(v, k).position == end)
            && (Take(v, k) == Step(Ok(d), end) <==> PrefixHolds(k, d) && !EmptyAtEnd(v, k, d, end))
  {
    hide Take, Encoding, Fits, At;
    if k.IsString() {
      TakeStringBack(v, k, d);
    } else {
      TakeNumberBack(v, k, d);
    }
  }

  // ---- values cut short ---------------------------------------------------------------------------

  // Only the first part of a code has been written behind the cursor.
  ghost predicate CutShort(v: View, e: seq<byte>) {
    v.Valid() && v.size - v.position < |e| && v.flat[v.position..v.size] == e[..v.size - v.position]
  }

  // A value that is not all there is never misread: the reader throws. It leaves the cursor where it
  // was, at the end of the bytes of a varint, or behind the length of a string.
  lemma TakeCutShort(v: View, k: Kind, d: Datum)
    requires k.Known() && Fits(k, d) && PrefixHolds(k, d) && CutShort(v, Encoding(k, d, v.little))
    ensures Take(v, k).out == OutOfRange
    ensures var left := v.size - v.position;
            Take(v, k).position == v.position +
              match k
              case Fint(_) => 0
              case Fuint(_) => 0
              case Int(_) => left
              case Uint(_) => left
              case StringF(w) => if left < w then 0 else w
              case StringVint => Min(left, |VarintBytes(|d.s|)|)
  {
    hide TakeVarint, Image, VarintBytes, EncodeZigzag, Pow256;
    var left := v.size - v.position;
    match k
    case Fint(w) =>
    case Fuint(w) =>
    case Int(w) => VarintCutShort(v, w, EncodeZigzag(d.n, w));
    case Uint(w) => VarintCutShort(v, w, d.n);
    case StringF(w) =>
      var p := Image(|d.s|, w, v.little);
      RemainderFixed(|d.s|, Pow256(w));
      if left >= w {
        AtPart(v, p, d.s);
        TakeWordBack(v, w, |d.s|);
      }
    case StringVint =>
      Pow256Values();
      var p := VarintBytes(|d.s|);
      if left < |p| {
        assert (p + d.s)[..left] == p[..left];
        VarintCutShort(v, 8, |d.s|);
      } else {
        AtPart(v, p, d.s);
        TakeVarintBack(v, 8, |d.s|);
      }
  }

  lemma AtPart(v: View, p: seq<byte>, s: seq<byte>)
    requires CutShort(v, p + s) && v.size - v.position >= |p|
    ensures At(v, p)
  {
    assert v.flat[v.position..v.size][..|p|] == v.flat[v.position..v.position + |p|];
    assert (p + s)[..v.size - v.position][..|p|] == p;
  }

  lemma VarintCutShort(v: View, w: nat, x: nat)
    requires (w == 4 || w == 8) && x < Pow256(w) && CutShort(v, VarintBytes(x))
    ensures TakeVarint(v, w) == Step(OutOfRange, v.size)
  {
    hide VarintBytes, Pow256;
    Pow256Values();
    VarintLimits(x);
    var s, e := v.flat[v.position..v.size], VarintBytes(x);
    forall i | 0 <= i < |s| ensures s[i] >= 128 {
      VarintAt(x, i);
      assert s[i] == e[i];
    }
    ReadVarintMeaning(s, 8 * w);
  }

  lemma RemainderFixed(n: nat, m: nat)
    requires m > 0
    ensures n % m <= n && (n % m == n <==> n < m)
  {
    RemainderShrinks(n, m);
    if n < m { Remains(n, m); }
  }

  // ---- lists of values --------------------------------------------------------------------------

  datatype Item = Item(kind: Kind, datum: Datum)

  ghost predicate Writable(items: seq<Item>) {
    forall i :: i in items ==> i.kind.Known() && Fits(i.kind, i.datum)
  }

  function EncodeAll(items: seq<Item>, little: bool): seq<byte>
    requires Writable(items)
  {
    if |items| == 0 then []
    else Encoding(items[0].kind, items[0].datum, little) + EncodeAll(items[1..], little)
  }

  function Kinds(items: seq<Item>): seq<Kind> { seq(|items|, i requires 0 <= i < |items| => items[i].kind) }

  function Data(items: seq<Item>): seq<Datum> { seq(|items|, i requires 0 <= i < |items| => items[i].datum) }

  function TakeAll(v: View, kinds: seq<Kind>): (r: Step<seq<Datum>>)
    requires v.Valid() && forall k :: k in kinds ==> k.Known()
    ensures v.position <= r.position <= v.size
    decreases |kinds|
  {
    if |kinds| == 0 then Step(Ok([]), v.position)
    else
      var first := Take(v, kinds[0]);
      if !first.out.Ok? then Fail(first)
      else
        var rest := TakeAll(v.(position := first.position), kinds[1..]);
        if rest.out.Ok? then Step(Ok([first.out.value] + rest.out.value), rest.position) else rest
  }

  // The list survives: every prefix holds its length, and no empty string ends the last node.
  ghost predicate Survives(items: seq<Item>, end: nat, capacity: nat) {
    && (forall i :: i in items ==> PrefixHolds(i.kind, i.datum))
    && (|items| > 0 && items[|items| - 1].kind.IsString() && items[|items| - 1].datum == Text([]) ==>
          end != capacity)
  }

  // Reading a written list back yields the list and ends behind it exactly when it survives.
  lemma {:induction false} TakeAllBack(v: View, items: seq<Item>)
    requires Writable(items) && At(v, EncodeAll(items, v.little))
    ensures var end := v.position + |EncodeAll(items, v.little)|;
            TakeAll(v, Kinds(items)) == Step(Ok(Data(items)), end) <==> Survives(items, end, v.capacity)
    decreases |items|
  {
    hide Take, Encoding, Fits;
    if |items| > 0 {
      var k, d, tail := items[0].kind, items[0].datum, items[1..];
      var e, es := Encoding(k, d, v.little), EncodeAll(tail, v.little);
      AtPrefix(v, e, es);
      TakeBack(v, k, d);
      var w := v.(position := v.position + |e|);
      TakeAllBack(w, tail);
      assert Kinds(items)[1..] == Kinds(tail);
      assert Data(items) == [d] + Data(tail);
      EncodeAllGrows(tail, v.little);
      SurvivesStep(items, w.position, w.position + |es|, v);
      var first := Take(v, k);
      if first == Step(Ok(d), w.position) {
        assert v.(position := first.position) == w;
        var rest := TakeAll(w, Kinds(tail));
        if rest.out.Ok? {
          assert ([d] + rest.out.value)[1..] == rest.out.value;
          assert Data(items)[1..] == Data(tail);
        }
      } else if first.out.Ok? && TakeAll(v, Kinds(items)).out.Ok? {
        assert TakeAll(v, Kinds(items)).out.value[0] == first.out.value;
        assert Data(items)[0] == d;
      }
    }
  }

  lemma EncodeAllGrows(items: seq<Item>, little: bool)
    requires Writable(items)
    ensures |EncodeAll(items, little)| >= |items|
  {
  }

  // Only the last item can end at the end of the last node.
  lemma SurvivesStep(items: seq<Item>, mid: nat, end: nat, v: View)
    requires |items| > 0 && end >= mid + |items| - 1 && end <= v.capacity
    requires |items| == 1 ==> mid == end
    ensures Survives(items, end, v.capacity)
            <==> PrefixHolds(items[0].kind, items[0].datum)
                 && !EmptyAtEnd(v, items[0].kind, items[0].datum, mid)
                 && Survives(items[1..], end, v.capacity)
  {
    if |items| > 1 {
      assert items[1..][|items| - 2] == items[|items| - 1];
      assert items == [items[0]] + items[1..];
    } else {
      assert items == [items[0]];
    }
  }

  // One empty string in an array with nodes of two bytes: its prefix fills the only node, and reading
  // it back dereferences null.
  lemma EmptyTextLost()
    ensures var v, item := View(2, 0, 2, 2, [0, 0], false), Item(StringF(2), Text([]));
            && Writable([item]) && At(v, EncodeAll([item], false))
            && !Survives([item], 2, 2) && Take(v, item.kind) == Step(NullDeref, 2)
  {
    var v, item := View(2, 0, 2, 2, [0, 0], false), Item(StringF(2), Text([]));
    assert Writable([item]);
    ZeroImage();
    hide Image, FromImage, Pow256;
    assert [item][1..] == [];
    assert EncodeAll([item], false) == [0, 0] + [] + [];
    assert v.flat[0..2] == [0, 0];
  }

  lemma ZeroImage()
    ensures Pow256(2) == TWO_16 && Image(0, 2, false) == [0, 0] && FromImage([0, 0], false) == 0
  {
    Pow256Values();
  }
}
