/** LogFormatter: the parser of log patterns such as "%d{%H:%M} [%p] %m%n". */
module LogPattern {
  import opened Options

  const PATTERN_ERROR := "<<pattern_error>>"

  // A pattern as it is written: text, a bare conversion %name, or a conversion %name{fmt}.
  datatype Part = Text(text: string) | Bare(name: string) | Braced(name: string, fmt: string)

  datatype Parsed = Parsed(parts: seq<Part>, error: bool)

  predicate IsAlpha(c: char) { 'a' <= c <= 'z' || 'A' <= c <= 'Z' }

  // What the scan takes into a name: a closing brace passes there too.
  predicate InName(c: char) { IsAlpha(c) || c == '}' }

  const LOWER := "abcdefghijklmnopqrstuvwxyz"
  const UPPER := "ABCDEFGHIJKLMNOPQRSTUVWXYZ"
  const LETTERS := LOWER + UPPER

  // isalpha, by the letters.
  lemma LettersExactly(c: char)
    ensures IsAlpha(c) <==> exists i :: 0 <= i < |LETTERS| && LETTERS[i] == c
    ensures InName(c) <==> IsAlpha(c) || c in "}"
  {
    if IsAlpha(c) {
      var i: nat := if c >= 'a' then (c - 'a') as nat else 26 + (c - 'A') as nat;
      LetterAt(i);
      assert LETTERS[i] == c;
    }
    forall i | 0 <= i < |LETTERS| ensures IsAlpha(LETTERS[i]) { LetterAt(i); }
  }

  lemma LetterAt(i: nat)
    ensures |LETTERS| == 52
    ensures i < 26 ==> LETTERS[i] as int == 'a' as int + i
    ensures 26 <= i < 52 ==> LETTERS[i] as int == 'A' as int + (i - 26)
  {
    CaseAt(if i < 26 then i else i - 26);
    hide LOWER, UPPER;
  }

  lemma CaseAt(i: int)
    ensures |LOWER| == |UPPER| == 26
    ensures 0 <= i < 26 ==> LOWER[i] as int == 'a' as int + i && UPPER[i] as int == 'A' as int + i
  {
  }

  function NameLength(s: string): (k: nat)
    ensures k <= |s| && (k < |s| ==> !InName(s[k])) && forall i :: 0 <= i < k ==> InName(s[i])
  {
    if |s| == 0 || !InName(s[0]) then 0
    else
      var k := NameLength(s[1..]);
      assert forall i :: 1 <= i < |s| ==> s[i] == s[1..][i - 1];
      k + 1
  }

  lemma NameLengthIs(s: string, k: nat)
    requires k <= |s| && (k < |s| ==> !InName(s[k])) && forall i :: 0 <= i < k ==> InName(s[i])
    ensures NameLength(s) == k
  {
  }

  // The index of the first closing brace, |s| if there is none.
  function Closing(s: string): (k: nat)
    ensures k <= |s| && (k < |s| ==> s[k] == '}') && forall i :: 0 <= i < k ==> s[i] != '}'
  {
    if |s| == 0 || s[0] == '}' then 0
    else
      var k := Closing(s[1..]);
      assert forall i :: 1 <= i < |s| ==> s[i] == s[1..][i - 1];
      k + 1
  }

  lemma ClosingIs(s: string, k: nat)
    requires k <= |s| && (k < |s| ==> s[k] == '}') && forall i :: 0 <= i < k ==> s[i] != '}'
    ensures Closing(s) == k
  {
  }

  datatype Scanned = Conversion(part: Part, length: nat) | Unclosed

  // What starts at a '%': a conversion and the characters it takes, or a brace that never closes.
  function Scan(s: string): (r: Scanned)
    requires |s| > 0
    ensures r.Conversion? ==> 0 < r.length <= |s| && !r.part.Text?
  {
    var k := NameLength(s[1..]);
    if 1 + k < |s| && s[1 + k] == '{' then
      var c := Closing(s[2 + k..]);
      if 2 + k + c == |s| then Unclosed
      else Conversion(Braced(s[1..1 + k], s[2 + k..2 + k + c]), 3 + k + c)
    else Conversion(Bare(s[1..1 + k]), 1 + k)
  }

  function Flush(text: string): seq<Part> { if text == "" then [] else [Text(text)] }

  // The rest of a pattern, after text that is not yet written out. An unclosed brace puts its mark
  // before that text and goes on behind the '%'.
  function Parse(s: string, text: string): Parsed
    decreases |s|
  {
    if s == "" then Parsed(Flush(text), false)
    else if s[0] != '%' then Parse(s[1..], text + [s[0]])
    else if |s| > 1 && s[1] == '%' then Parse(s[1..], text + "%")
    else
      match Scan(s)
      case Unclosed =>
        var r := Parse(s[1..], text);
        Parsed([Text(PATTERN_ERROR)] + r.parts, true)
      case Conversion(part, length) =>
        var r := Parse(s[length..], "");
        Parsed(Flush(text) + [part] + r.parts, r.error)
  }

  // ---- printing -----------------------------------------------------------------------------------

  function PrintOne(p: Part): string {
    match p
    case Text(text) => text
    case Bare(name) => "%" + name
    case Braced(name, fmt) => "%" + name + "{" + fmt + "}"
  }

  function Print(ps: seq<Part>): string {
    if |ps| == 0 then "" else PrintOne(ps[0]) + Print(ps[1..])
  }

  // Every '%' among the first n characters is followed by another.
  predicate Paired(s: string, n: nat)
    requires n <= |s|
  {
    forall k :: 0 <= k < n && s[k] == '%' ==> k + 1 < |s| && s[k + 1] == '%'
  }

  // A part that can be told apart from what is printed after it.
  predicate Apart(p: Part, rest: string) {
    match p
    case Text(text) => text != "" && Paired(text + rest, |text|)
    case Bare(name) =>
      && (forall c :: c in name ==> InName(c))
      && (rest != "" ==> !InName(rest[0]) && rest[0] != '{' && (name == "" ==> rest[0] != '%'))
    case Braced(name, fmt) => (forall c :: c in name ==> InName(c)) && '}' !in fmt
  }

  // A list of parts in which every one stands apart and neighbouring texts are merged.
  predicate Readable(ps: seq<Part>) {
    |ps| > 0 ==>
      && Apart(ps[0], Print(ps[1..]))
      && (ps[0].Text? && |ps| > 1 ==> !ps[1].Text?)
      && Readable(ps[1..])
  }

  // Parsing gives back exactly the parts that were printed, without an error, if and only if they
  // are readable.
  lemma ParsePrint(ps: seq<Part>)
    ensures Parse(Print(ps), "") == Parsed(ps, false) <==> Readable(ps)
  {
    if Readable(ps) {
      ParseReadable(ps, "");
    } else if Parse(Print(ps), "") == Parsed(ps, false) {
      PrintParse(Print(ps), "");
    }
  }

  lemma {:induction false} ParseReadable(ps: seq<Part>, text: string)
    requires Readable(ps) && (text != "" && |ps| > 0 ==> !ps[0].Text?)
    ensures Parse(Print(ps), text) == Parsed(Flush(text) + ps, false)
    decreases |ps|
  {
    hide Parse, Scan;
    if |ps| == 0 {
      ParseEnd(text);
    } else {
      var rest := Print(ps[1..]);
      if ps[0].Text? {
        ParseText(ps[0].text, rest, "");
        ParseReadable(ps[1..], ps[0].text);
        assert "" + ps[0].text == ps[0].text;
      } else {
        ParseConversion(ps[0], rest, text);
        ParseReadable(ps[1..], "");
      }
      assert ps == [ps[0]] + ps[1..];
    }
  }

  lemma ParseEnd(text: string)
    ensures Parse("", text) == Parsed(Flush(text), false)
  {
  }

  lemma {:induction false} ParseText(t: string, rest: string, text: string)
    requires Paired(t + rest, |t|)
    ensures Parse(t + rest, text) == Parse(rest, text + t)
  {
    hide Scan;
    if t == "" {
      assert t + rest == rest && text + t == text;
    } else {
      var s := t + rest;
      assert s[1..] == t[1..] + rest;
      assert Paired(s[1..], |t[1..]|) by {
        forall k | 0 <= k < |t[1..]| && s[1..][k] == '%' ensures k + 1 < |s[1..]| && s[1..][k + 1] == '%' {
          assert s[k + 1] == '%';
        }
      }
      ParseText(t[1..], rest, text + [s[0]]);
      assert text + [s[0]] + t[1..] == text + t;
    }
  }

  lemma ParseConversion(p: Part, rest: string, text: string)
    requires !p.Text? && Apart(p, rest)
    ensures Parse(PrintOne(p) + rest, text) ==
            var r := Parse(rest, ""); Parsed(Flush(text) + [p] + r.parts, r.error)
  {
    var s := PrintOne(p) + rest;
    ScanPrinted(p, rest);
    assert s[|PrintOne(p)|..] == rest;
    assert |s| > 1 ==> s[1] != '%' by {
      if p.name != "" { assert s[1] == p.name[0] && p.name[0] in p.name; }
    }
  }

  lemma ScanPrinted(p: Part, rest: string)
    requires !p.Text? && Apart(p, rest)
    ensures Scan(PrintOne(p) + rest) == Conversion(p, |PrintOne(p)|)
  {
    hide Scan, InName;
    if p.Bare? {
      ScanPrintedBare(p.name, rest);
    } else {
      ScanPrintedBraced(p.name, p.fmt, rest);
    }
  }

  lemma ScanPrintedBare(name: string, rest: string)
    requires (forall c :: c in name ==> InName(c)) && (rest != "" ==> !InName(rest[0]) && rest[0] != '{')
    ensures Scan("%" + name + rest) == Conversion(Bare(name), 1 + |name|)
  {
    hide Scan, InName;
    var s, k := "%" + name + rest, |name|;
    forall i | 0 < i < 1 + k ensures InName(s[i]) { assert s[i] == name[i - 1] && name[i - 1] in name; }
    ScanBare(s, 0, 1 + k);
    assert s[0..] == s && s[1..1 + k] == name;
  }

  lemma ScanPrintedBraced(name: string, fmt: string, rest: string)
    requires (forall c :: c in name ==> InName(c)) && '}' !in fmt
    ensures Scan("%" + name + "{" + fmt + "}" + rest) == Conversion(Braced(name, fmt), 3 + |name| + |fmt|)
  {
    hide Scan, InName;
    var s, k := "%" + name + "{" + fmt + "}" + rest, |name|;
    BracedChars(name, fmt, rest);
    ScanBraced(s, 0, 1 + k, 2 + k + |fmt|);
    assert s[0..] == s;
  }

  lemma BracedChars(name: string, fmt: string, rest: string)
    ensures var s, k, c := "%" + name + "{" + fmt + "}" + rest, |name|, |fmt|;
            && s[1 + k] == '{' && s[2 + k + c] == '}' && s[1..1 + k] == name && s[2 + k..2 + k + c] == fmt
            && (forall i :: 0 < i <= k ==> s[i] in name) && (forall i :: 1 + k < i < 2 + k + c ==> s[i] in fmt)
  {
    var s, k, c := "%" + name + "{" + fmt + "}" + rest, |name|, |fmt|;
    forall i | 0 < i <= k ensures s[i] in name { assert s[i] == name[i - 1]; }
    forall i | 1 + k < i < 2 + k + c ensures s[i] in fmt { assert s[i] == fmt[i - 2 - k]; }
  }

  // Without an error nothing of the pattern is lost: its parts are readable and print as it stood.
  lemma {:induction false} PrintParse(s: string, text: string)
    requires Paired(text + s, |text|) && !Parse(s, text).error
    ensures Readable(Parse(s, text).parts) && Print(Parse(s, text).parts) == text + s
    decreases |s|
  {
    hide Scan, Apart, Readable, Print, PrintOne;
    if s == "" {
      OnlyText(text);
    } else if s[0] != '%' || (|s| > 1 && s[1] == '%') {
      assert text + [s[0]] + s[1..] == text + s;
      PrintParse(s[1..], text + [s[0]]);
    } else {
      var part, length := Scan(s).part, Scan(s).length;
      PrintParse(s[length..], "");
      ScanApart(s);
      assert "" + s[length..] == s[length..];
      PrependConversion(text, part, Parse(s[length..], "").parts, s);
    }
  }

  lemma PrependConversion(text: string, part: Part, r: seq<Part>, s: string)
    requires !part.Text? && Readable(r) && Apart(part, Print(r)) && PrintOne(part) + Print(r) == s
    requires Paired(text + s, |text|)
    ensures var ps := Flush(text) + [part] + r; Readable(ps) && Print(ps) == text + s
  {
    hide Apart, Paired;
    assert ([part] + r)[1..] == r;
    if text != "" {
      assert Apart(Text(text), s) by { ApartText(text, s); }
      assert Flush(text) + [part] + r == [Text(text)] + ([part] + r);
      assert ([Text(text)] + ([part] + r))[1..] == [part] + r;
    } else {
      assert Flush(text) + [part] + r == [part] + r;
      assert text + s == s;
    }
  }

  lemma OnlyText(text: string)
    requires Paired(text + "", |text|)
    ensures Readable(Flush(text)) && Print(Flush(text)) == text
  {
    if text != "" { assert Flush(text)[1..] == []; }
  }

  lemma ApartText(text: string, s: string)
    requires text != "" && Paired(text + s, |text|)
    ensures Apart(Text(text), s)
  {
  }

  lemma ScanApart(s: string)
    requires |s| > 0 && s[0] == '%' && (|s| > 1 ==> s[1] != '%') && Scan(s).Conversion?
    ensures var part, rest := Scan(s).part, s[Scan(s).length..];
            Apart(part, rest) && PrintOne(part) + rest == s
  {
    hide NameLength, Closing, InName, Apart, PrintOne;
    var k := NameLength(s[1..]);
    NameChars(s, k);
    if 1 + k < |s| && s[1 + k] == '{' {
      ApartBraced(s, 1 + k, 2 + k + Closing(s[2 + k..]));
    } else {
      ApartBare(s, k);
    }
  }

  lemma ApartBare(s: string, k: nat)
    requires k < |s| && s[0] == '%' && (|s| > 1 ==> s[1] != '%') && forall c :: c in s[1..1 + k] ==> InName(c)
    requires 1 + k < |s| ==> !InName(s[1 + k]) && s[1 + k] != '{'
    ensures Apart(Bare(s[1..1 + k]), s[1 + k..]) && PrintOne(Bare(s[1..1 + k])) + s[1 + k..] == s
  {
    hide InName;
    assert "%" + s[1..1 + k] + s[1 + k..] == s;
  }

  lemma NameChars(s: string, k: nat)
    requires |s| > 0 && k == NameLength(s[1..])
    ensures (forall c :: c in s[1..1 + k] ==> InName(c)) && (1 + k < |s| ==> !InName(s[1 + k]))
    ensures k == 0 ==> s[1..1 + k] == ""
  {
    hide NameLength, InName;
    forall c | c in s[1..1 + k] ensures InName(c) {
      var i :| 0 <= i < k && s[1..1 + k][i] == c;
      assert s[1..][i] == c;
    }
    assert 1 + k < |s| ==> s[1..][k] == s[1 + k];
  }

  lemma ApartBraced(s: string, b: nat, n: nat)
    requires 0 < b < |s| && n == b + 1 + Closing(s[b + 1..]) < |s| && s[0] == '%' && s[b] == '{'
    requires forall c :: c in s[1..b] ==> InName(c)
    ensures var p := Braced(s[1..b], s[b + 1..n]); Apart(p, s[n + 1..]) && PrintOne(p) + s[n + 1..] == s
  {
    hide Closing, InName;
    var fmt := s[b + 1..n];
    assert s[b + 1..][n - b - 1] == s[n];
    forall i | 0 <= i < |fmt| ensures fmt[i] != '}' { assert s[b + 1..][i] == fmt[i]; }
    assert "%" + s[1..b] + "{" + fmt + "}" + s[n + 1..] == s;
  }

  // ---- the doubled percent sign -------------------------------------------------------------------

  function Doubled(t: string): string {
    if t == "" then "" else (if t[0] == '%' then "%%" else [t[0]]) + Doubled(t[1..])
  }

  lemma {:induction false} DoubledLength(t: string)
    ensures |Doubled(t)| >= |t| && (|Doubled(t)| == |t| <==> '%' !in t) && ('%' !in t ==> Doubled(t) == t)
  {
    if t != "" {
      DoubledLength(t[1..]);
      assert t == [t[0]] + t[1..];
    }
  }

  // Doubling does not escape: "%%" reads as a '%' of text and then as the start of a conversion.
  // Text written that way is read back as that text if and only if it has no percent sign.
  lemma DoublingEscapesNothing(t: string)
    requires t != ""
    ensures Parse(Doubled(t), "") == Parsed([Text(t)], false) <==> '%' !in t
  {
    DoubledLength(t);
    if '%' !in t {
      assert [Text(t)][1..] == [] && Print([Text(t)]) == t;
      assert Readable([Text(t)]);
      ParsePrint([Text(t)]);
    } else if Parse(Doubled(t), "") == Parsed([Text(t)], false) {
      assert PrintOne(Text(t)) + "" == t && [Text(t)][1..] == [];
      PrintParse(Doubled(t), "");
      assert false;
    }
  }

  // What is documented to print one percent sign: it, and a conversion without a name.
  lemma DoubledReadsAs()
    ensures Parse("%%", "") == Parsed([Text("%"), Bare("")], false) && Lookup("") == None
  {
    assert "%%"[1..] == "%" && "%"[1..] == "" && "" + "%" == "%";
    assert Scan("%") == Conversion(Bare(""), 1);
    ParseEnd("");
    assert [Text("%")] + [Bare("")] + [] == [Text("%"), Bare("")];
  }

  // A brace that never closes: the mark comes first, and what was text before the '%' goes on with all
  // that follows it.
  lemma UnclosedReadsAs(text: string, name: string, rest: string)
    requires '%' !in text && '%' !in rest && '}' !in rest && forall c :: c in name ==> IsAlpha(c)
    ensures Parse(text + "%" + name + "{" + rest, "") ==
            Parsed([Text("<<pattern_error>>"), Text(text + name + "{" + rest)], true)
  {
    var tail := name + "{" + rest;
    var s := "%" + tail;
    hide Scan, Parse;
    assert text + "%" + name + "{" + rest == text + s && "" + text == text && tail + "" == tail;
    assert Paired(text + s, |text|) by { NoPercent(text, s); }
    ParseText(text, s, "");
    UnclosedScan(name, rest);
    assert s[1..] == tail && s[0..] == s && s[1..1 + 0] == "";
    assert |s| > 1 && s[1] != '%' by { if name != "" { assert s[1] == name[0] && name[0] in name; } }
    ParseStep(s, 0, text);
    assert '%' !in name && '%' !in "{" && '%' !in tail;
    assert Paired(tail + "", |tail|) by { NoPercent(tail, ""); }
    ParseText(tail, "", text);
    ParseEnd(text + tail);
    assert text + tail == text + name + "{" + rest;
  }

  lemma NoPercent(text: string, rest: string)
    requires '%' !in text
    ensures Paired(text + rest, |text|)
  {
    forall k | 0 <= k < |text| ensures (text + rest)[k] != '%' {
      assert (text + rest)[k] == text[k] && text[k] in text;
    }
  }

  lemma UnclosedScan(name: string, rest: string)
    requires '}' !in rest && forall c :: c in name ==> IsAlpha(c)
    ensures Scan("%" + (name + "{" + rest)) == Unclosed
  {
    hide Scan, IsAlpha;
    var s, b := "%" + (name + "{" + rest), 1 + |name|;
    assert s[0..] == s && s[b] == '{';
    forall k | 0 < k < b ensures InName(s[k]) { assert s[k] == name[k - 1] && name[k - 1] in name; }
    forall k | b < k < |s| ensures s[k] != '}' { assert s[k] == rest[k - b - 1] && rest[k - b - 1] in rest; }
    ScanBraced(s, 0, b, |s|);
  }

  // ---- the items ----------------------------------------------------------------------------------

  datatype Kind =
    | MessageFormatItem | LevelFormatItem | ElapseFormatItem | NameFormatItem | ThreadIdFormatItem
    | NewLineFormatItem | DateTimeFormatItem | FilenameFormatItem | LineFormatItem | TabFormatItem
    | FiberIdFormatItem | ThreadNameFormatItem

  datatype Item = StringFormatItem(text: string) | FormatItem(kind: Kind, fmt: string)

  function Lookup(key: string): Option<Kind> {
    match key
    case "m" => Some(MessageFormatItem)
    case "p" => Some(LevelFormatItem)
    case "r" => Some(ElapseFormatItem)
    case "c" => Some(NameFormatItem)
    case "t" => Some(ThreadIdFormatItem)
    case "n" => Some(NewLineFormatItem)
    case "d" => Some(DateTimeFormatItem)
    case "f" => Some(FilenameFormatItem)
    case "l" => Some(LineFormatItem)
    case "T" => Some(TabFormatItem)
    case "F" => Some(FiberIdFormatItem)
    case "N" => Some(ThreadNameFormatItem)
    case _ => None
  }

  // The conversions as they are documented.
  const TABLE := [
    ("m", MessageFormatItem), ("p", LevelFormatItem), ("r", ElapseFormatItem), ("c", NameFormatItem),
    ("t", ThreadIdFormatItem), ("n", NewLineFormatItem), ("d", DateTimeFormatItem), ("f", FilenameFormatItem),
    ("l", LineFormatItem), ("T", TabFormatItem), ("F", FiberIdFormatItem), ("N", ThreadNameFormatItem)]

  lemma LookupTable(key: string, kind: Kind)
    ensures Lookup(key) == Some(kind) <==> (key, kind) in TABLE
  {
  }

  // What a part becomes: text stays, a conversion of the table gets its item with the format, any other
  // is shown as an error.
  lemma ItemExactly(p: Part, item: Item)
    ensures ItemOf(p) == item <==>
              match p
              case Text(text) => item == StringFormatItem(text)
              case Bare(name) => ItemFor(name, "", item)
              case Braced(name, fmt) => ItemFor(name, fmt, item)
  {
    if !p.Text? {
      forall kind ensures Lookup(p.name) == Some(kind) <==> (p.name, kind) in TABLE { LookupTable(p.name, kind); }
    }
    hide Lookup, TABLE;
  }

  ghost predicate ItemFor(name: string, fmt: string, item: Item) {
    if exists kind :: (name, kind) in TABLE then item.FormatItem? && (name, item.kind) in TABLE && item.fmt == fmt
    else item == StringFormatItem("<<error_format %" + name + ">>")
  }

  predicate Known(p: Part) { p.Text? || Lookup(p.name).Some? }

  function ItemOf(p: Part): Item {
    match p
    case Text(text) => StringFormatItem(text)
    case _ =>
      if Known(p) then FormatItem(Lookup(p.name).value, if p.Braced? then p.fmt else "")
      else StringFormatItem("<<error_format %" + p.name + ">>")
  }

  function ItemsOf(ps: seq<Part>): (r: seq<Item>)
    ensures |r| == |ps| && forall i :: 0 <= i < |ps| ==> r[i] == ItemOf(ps[i])
  {
    seq(|ps|, i requires 0 <= i < |ps| => ItemOf(ps[i]))
  }

  predicate AnyUnknown(ps: seq<Part>) { exists p :: p in ps && !Known(p) }

  // ---- the formatter ------------------------------------------------------------------------------

  // The tuple of a string, its format and whether it is a conversion.
  datatype Entry = Entry(str: string, fmt: string, kind: nat)

  function EntryOf(p: Part): Entry {
    match p
    case Text(text) => Entry(text, "", 0)
    case Bare(name) => Entry(name, "", 1)
    case Braced(name, fmt) => Entry(name, fmt, 1)
  }

  function EntriesOf(ps: seq<Part>): (r: seq<Entry>)
    ensures |r| == |ps| && forall i :: 0 <= i < |ps| ==> r[i] == EntryOf(ps[i])
  {
    seq(|ps|, i requires 0 <= i < |ps| => EntryOf(ps[i]))
  }

  lemma EntriesJoin(a: seq<Part>, b: seq<Part>)
    ensures EntriesOf(a + b) == EntriesOf(a) + EntriesOf(b)
  {
  }

  function FlushEntries(text: string): seq<Entry> { if text == "" then [] else [Entry(text, "", 0)] }

  lemma EntriesEnd(text: string)
    ensures EntriesOf(Parse("", text).parts) == FlushEntries(text) && !Parse("", text).error
  {
  }

  lemma Regroup<T>(a: seq<T>, b: seq<T>, c: seq<T>, d: seq<T>)
    ensures a + (b + c + d) == a + b + c + d
    ensures b == [] ==> a + (c + d) == a + c + d
  {
  }

  // One conversion, in the entries.
  lemma EntriesStep(p: string, i: nat, text: string)
    requires i < |p| && p[i] == '%' && !(i + 1 < |p| && p[i + 1] == '%')
    ensures match Scan(p[i..])
            case Unclosed =>
              var r := Parse(p[i + 1..], text);
              && Parse(p[i..], text).error
              && EntriesOf(Parse(p[i..], text).parts) == [Entry(PATTERN_ERROR, "", 0)] + EntriesOf(r.parts)
            case Conversion(part, length) =>
              var r := Parse(p[i + length..], "");
              && Parse(p[i..], text).error == r.error
              && EntriesOf(Parse(p[i..], text).parts) == FlushEntries(text) + [EntryOf(part)] + EntriesOf(r.parts)
  {
    hide Parse, Scan, EntriesOf;
    ParseStep(p, i, text);
    match Scan(p[i..])
    case Unclosed =>
      EntriesJoin([Text(PATTERN_ERROR)], Parse(p[i + 1..], text).parts);
    case Conversion(part, length) =>
      EntriesJoin(Flush(text) + [part], Parse(p[i + length..], "").parts);
      EntriesJoin(Flush(text), [part]);
  }

  class LogFormatter {
    var m_pattern: string
    var m_items: seq<Item>
    var m_error: bool

    constructor (pattern: string)
      ensures m_pattern == pattern
      ensures m_items == ItemsOf(Parse(pattern, "").parts)
      ensures m_error == (Parse(pattern, "").error || AnyUnknown(Parse(pattern, "").parts))
    {
      m_pattern, m_items, m_error := pattern, [], false;
      new;
      Init();
    }

    method Init()
      modifies this`m_items, this`m_error
      ensures m_items == old(m_items) + ItemsOf(Parse(m_pattern, "").parts)
      ensures m_error == (old(m_error) || Parse(m_pattern, "").error || AnyUnknown(Parse(m_pattern, "").parts))
    {
      var vec := ParseEntries();
      MakeItems(vec, Parse(m_pattern, "").parts);
    }

    method ParseEntries() returns (vec: seq<Entry>)
      modifies this`m_error
      ensures vec == EntriesOf(Parse(m_pattern, "").parts)
      ensures m_error == (old(m_error) || Parse(m_pattern, "").error)
    {
      hide Parse, Scan, EntryOf, EntriesOf, Flush;
      ghost var whole := Parse(m_pattern, "");
      var nstr := "";
      vec := [];
      var i := 0;
      assert m_pattern[0..] == m_pattern;
      while i < |m_pattern|
        invariant 0 <= i <= |m_pattern|
        invariant EntriesOf(whole.parts) == vec + EntriesOf(Parse(m_pattern[i..], nstr).parts)
        invariant (old(m_error) || whole.error) == (m_error || Parse(m_pattern[i..], nstr).error)
      {
        if m_pattern[i] != '%' {
          ParseStep(m_pattern, i, nstr);
          nstr := nstr + [m_pattern[i]];
          i := i + 1;
          continue;
        }
        if i + 1 < |m_pattern| && m_pattern[i + 1] == '%' {
          ParseStep(m_pattern, i, nstr);
          nstr := nstr + "%";
          i := i + 1;
          continue;
        }
        EntriesStep(m_pattern, i, nstr);
        var fmtStatus, str, fmt, n := ScanConversion(i);
        ghost var before, head := vec, FlushEntries(nstr);
        if fmtStatus == 0 {
          assert vec + [] == vec;
          if nstr != "" {
            vec := vec + [Entry(nstr, "", 0)];
            nstr := "";
          }
          vec := vec + [Entry(str, fmt, 1)];
          Regroup(before, head, [Entry(str, fmt, 1)], EntriesOf(Parse(m_pattern[n..], "").parts));
          i := n - 1;
        } else {
          vec := vec + [Entry(PATTERN_ERROR, fmt, 0)];
          Regroup(before, [], [Entry(PATTERN_ERROR, "", 0)], EntriesOf(Parse(m_pattern[i + 1..], nstr).parts));
          m_error := true;
        }
        i := i + 1;
      }
      assert m_pattern[i..] == "";
      EntriesEnd(nstr);
      if nstr != "" {
        vec := vec + [Entry(nstr, "", 0)];
      }
    }

    // The inner loop: from the '%' at i to the end of the conversion.
    method ScanConversion(i: nat) returns (fmtStatus: nat, str: string, fmt: string, n: nat)
      requires i < |m_pattern| && m_pattern[i] == '%'
      ensures Scan(m_pattern[i..]).Unclosed? ==> fmtStatus == 1 && fmt == ""
      ensures Scan(m_pattern[i..]).Conversion? ==>
                && fmtStatus == 0 && n == i + Scan(m_pattern[i..]).length
                && Entry(str, fmt, 1) == EntryOf(Scan(m_pattern[i..]).part)
    {
      n, fmtStatus := i + 1, 0;
      var fmtBegin := 0;
      str, fmt := "", "";
      while n < |m_pattern|
        invariant i < n <= |m_pattern|
        invariant fmtStatus == 0 ==> forall k :: i < k < n ==> InName(m_pattern[k])
        invariant fmtStatus == 0 ==> str == if n == |m_pattern| then m_pattern[i + 1..] else ""
        invariant fmtStatus != 0 ==> fmtStatus == 1 && i < fmtBegin < n && m_pattern[fmtBegin] == '{'
        invariant fmtStatus == 1 ==> forall k :: i < k < fmtBegin ==> InName(m_pattern[k])
        invariant fmtStatus == 1 ==> forall k :: fmtBegin < k < n ==> m_pattern[k] != '}'
        invariant fmtStatus == 1 && n < |m_pattern| ==> str == m_pattern[i + 1..fmtBegin]
        invariant fmt == ""
      {
        if fmtStatus == 0 && !IsAlpha(m_pattern[n]) && m_pattern[n] != '{' && m_pattern[n] != '}' {
          str := m_pattern[i + 1..n];
          ScanBare(m_pattern, i, n);
          return;
        }
        if fmtStatus == 0 {
          if m_pattern[n] == '{' {
            str := m_pattern[i + 1..n];
            fmtStatus := 1;
            fmtBegin := n;
            n := n + 1;
            continue;
          }
        } else if fmtStatus == 1 {
          if m_pattern[n] == '}' {
            fmt := m_pattern[fmtBegin + 1..n];
            ScanBraced(m_pattern, i, fmtBegin, n);
            fmtStatus := 0;
            n := n + 1;
            return;
          }
        }
        n := n + 1;
        if n == |m_pattern| {
          if str == "" {
            str := m_pattern[i + 1..];
          }
        }
      }
      if fmtStatus == 0 {
        ScanBare(m_pattern, i, n);
      } else {
        ScanBraced(m_pattern, i, fmtBegin, n);
      }
    }

    method MakeItems(vec: seq<Entry>, ghost parts: seq<Part>)
      requires vec == EntriesOf(parts)
      modifies this`m_items, this`m_error
      ensures m_items == old(m_items) + ItemsOf(parts)
      ensures m_error == (old(m_error) || AnyUnknown(parts))
    {
      var i := 0;
      while i < |vec|
        invariant 0 <= i <= |vec|
        invariant m_items == old(m_items) + ItemsOf(parts[..i])
        invariant m_error == (old(m_error) || AnyUnknown(parts[..i]))
      {
        assert vec[i] == EntryOf(parts[i]);
        assert parts[..i + 1] == parts[..i] + [parts[i]];
        if vec[i].kind == 0 {
          m_items := m_items + [StringFormatItem(vec[i].str)];
        } else {
          var kind := Lookup(vec[i].str);
          if kind.None? {
            m_items := m_items + [StringFormatItem("<<error_format %" + vec[i].str + ">>")];
            m_error := true;
          } else {
            m_items := m_items + [FormatItem(kind.value, vec[i].fmt)];
          }
        }
        i := i + 1;
      }
      assert parts[..|vec|] == parts;
    }
  }

  lemma ParseStep(p: string, i: nat, text: string)
    requires i < |p|
    ensures p[i] != '%' ==> Parse(p[i..], text) == Parse(p[i + 1..], text + [p[i]])
    ensures p[i] == '%' && i + 1 < |p| && p[i + 1] == '%' ==> Parse(p[i..], text) == Parse(p[i + 1..], text + "%")
    ensures p[i] == '%' && !(i + 1 < |p| && p[i + 1] == '%') ==>
              match Scan(p[i..])
              case Unclosed =>
                var r := Parse(p[i + 1..], text);
                Parse(p[i..], text) == Parsed([Text(PATTERN_ERROR)] + r.parts, true)
              case Conversion(part, length) =>
                var r := Parse(p[i + length..], "");
                Parse(p[i..], text) == Parsed(Flush(text) + [part] + r.parts, r.error)
  {
    hide Scan;
    var s := p[i..];
    assert s[1..] == p[i + 1..];
    if Scan(s).Conversion? {
      assert s[Scan(s).length..] == p[i + Scan(s).length..];
    }
  }

  lemma ScanBare(p: string, i: nat, n: nat)
    requires i < n <= |p| && forall k :: i < k < n ==> InName(p[k])
    requires n < |p| ==> !InName(p[n]) && p[n] != '{'
    ensures Scan(p[i..]) == Conversion(Bare(p[i + 1..n]), n - i)
  {
    var s := p[i..];
    assert forall k :: 0 <= k < |s[1..]| ==> s[1..][k] == p[i + 1 + k];
    NameLengthIs(s[1..], n - i - 1);
    assert s[1..n - i] == p[i + 1..n];
  }

  // A brace at b, closed at n or, at the end of the pattern, not at all.
  lemma ScanBraced(p: string, i: nat, b: nat, n: nat)
    requires i < b < n <= |p| && p[b] == '{' && forall k :: i < k < b ==> InName(p[k])
    requires (forall k :: b < k < n ==> p[k] != '}') && (n < |p| ==> p[n] == '}')
    ensures Scan(p[i..]) ==
            if n == |p| then Unclosed else Conversion(Braced(p[i + 1..b], p[b + 1..n]), n + 1 - i)
  {
    hide NameLength, Closing;
    var s := p[i..];
    assert forall k :: 0 <= k < |s[1..]| ==> s[1..][k] == p[i + 1 + k];
    NameLengthIs(s[1..], b - i - 1);
    assert s[b - i + 1..] == p[b + 1..];
    ClosingIs(p[b + 1..], n - b - 1);
    assert s[1..b - i] == p[i + 1..b];
    assert s[b - i + 1..n - i] == p[b + 1..n];
  }

  // A formatter made from printed parts with known names has exactly their items and no error.
  method Reprint(ps: seq<Part>) returns (f: LogFormatter)
    requires Readable(ps) && !AnyUnknown(ps)
    ensures fresh(f) && f.m_items == ItemsOf(ps) && !f.m_error
  {
    ParsePrint(ps);
    f := new LogFormatter(Print(ps));
  }

  // No error means that the pattern is the print of readable parts with known names, and conversely.
  lemma ErrorFreeIff(pattern: string)
    ensures !Parse(pattern, "").error && !AnyUnknown(Parse(pattern, "").parts) <==>
            exists ps :: Readable(ps) && !AnyUnknown(ps) && Print(ps) == pattern
  {
    hide Parse, Print, Readable;
    if !Parse(pattern, "").error {
      PrintParse(pattern, "");
      assert "" + pattern == pattern;
    }
    forall ps | Readable(ps) && Print(ps) == pattern ensures Parse(pattern, "") == Parsed(ps, false) {
      ParsePrint(ps);
    }
  }
}
