/** split and replace over byte strings. */
module SplitReplace {
  import opened Bytes
  import opened Options

  // ---- split --------------------------------------------------------------------------------------

  // string::find_first_of; |s| stands for npos.
  function FindOf(s: seq<byte>, delims: set<byte>): (k: nat)
    ensures k <= |s| && (k < |s| ==> s[k] in delims) && forall i :: 0 <= i < k ==> s[i] !in delims
  {
    if |s| == 0 || s[0] in delims then 0
    else
      var k := FindOf(s[1..], delims);
      assert forall i :: 1 <= i < |s| ==> s[i] == s[1..][i - 1];
      k + 1
  }

  lemma FindOfIs(s: seq<byte>, delims: set<byte>, k: nat)
    requires k <= |s| && (k < |s| ==> s[k] in delims) && forall i :: 0 <= i < k ==> s[i] !in delims
    ensures FindOf(s, delims) == k
  {
  }

  method FindFirstOf(s: seq<byte>, delims: set<byte>, pos: nat) returns (k: nat)
    requires pos <= |s|
    ensures pos <= k <= |s| && k == pos + FindOf(s[pos..], delims)
  {
    k := pos;
    while k < |s| && s[k] !in delims
      invariant pos <= k <= |s|
      invariant forall i :: pos <= i < k ==> s[i] !in delims
    {
      k := k + 1;
    }
    FindOfIs(s[pos..], delims, k - pos);
  }

  // The bound the counter puts on the number of pieces: it stops only when the decremented word is 1,
  // so 0 and 1 let it run through all of size_t.
  function Limit(max: nat): nat { if max >= 2 then max else max + TWO_64 }

  // At most `room` pieces, the last one uncut.
  function Pieces(s: seq<byte>, delims: set<byte>, room: nat): (ps: seq<seq<byte>>)
    ensures |ps| >= 1
    decreases |s|
  {
    var k := FindOf(s, delims);
    if room <= 1 || k == |s| then [s] else [s[..k]] + Pieces(s[k + 1..], delims, room - 1)
  }

  // Splitting at a character is splitting at the set of that one character.
  method Split(str: seq<byte>, delims: set<byte>, max: nat) returns (result: seq<seq<byte>>)
    requires max < TWO_64
    ensures result == if |str| == 0 then [] else Pieces(str, delims, Limit(max))
  {
    hide FindOf, Pieces;
    result := [];
    if |str| == 0 {
      return;
    }
    ghost var whole := Pieces(str, delims, Limit(max));
    var last, left: nat := 0, max;
    assert str[0..] == str;
    var pos := FindFirstOf(str, delims, 0);
    while pos < |str|
      invariant 0 <= last <= pos <= |str| && pos == last + FindOf(str[last..], delims)
      invariant left < TWO_64
      invariant whole == result + Pieces(str[last..], delims, Limit(left))
      decreases |str| - last
    {
      PiecesStep(result, str, delims, last, pos, Limit(left));
      result := result + [str[last..pos]];
      last := pos + 1;
      left := U64(left - 1);
      if left == 1 {
        assert Pieces(str[last..], delims, 1) == [str[last..]] by { PiecesEnd(str[last..], delims, 1); }
        result := result + [str[last..]];
        return;
      }
      pos := FindFirstOf(str, delims, last);
    }
    PiecesEnd(str[last..], delims, Limit(left));
    result := result + [str[last..]];
  }

  lemma PiecesStep(done: seq<seq<byte>>, s: seq<byte>, delims: set<byte>, last: nat, pos: nat, room: nat)
    requires last <= pos < |s| && pos == last + FindOf(s[last..], delims) && room >= 2
    ensures done + Pieces(s[last..], delims, room) == done + [s[last..pos]] + Pieces(s[pos + 1..], delims, room - 1)
  {
    hide FindOf;
    assert s[last..][..pos - last] == s[last..pos] && s[last..][pos - last + 1..] == s[pos + 1..];
  }

  lemma PiecesEnd(s: seq<byte>, delims: set<byte>, room: nat)
    requires room <= 1 || FindOf(s, delims) == |s|
    ensures Pieces(s, delims, room) == [s]
  {
    hide FindOf;
  }

  // How many delimiters a string holds.
  function Delimiters(s: seq<byte>, delims: set<byte>): nat {
    if |s| == 0 then 0 else (if s[0] in delims then 1 else 0) + Delimiters(s[1..], delims)
  }

  // There is a piece more than delimiters, or as many as there is room for.
  lemma {:induction false} PieceCount(s: seq<byte>, delims: set<byte>, room: nat)
    ensures |Pieces(s, delims, room)| == Min(Max(room, 1), Delimiters(s, delims) + 1)
    decreases |s|
  {
    hide FindOf;
    var k := FindOf(s, delims);
    FirstDelimiter(s, delims, k);
    if room > 1 && k < |s| { PieceCount(s[k + 1..], delims, room - 1); }
  }

  lemma {:induction false} FirstDelimiter(s: seq<byte>, delims: set<byte>, k: nat)
    requires k <= |s| && (k < |s| ==> s[k] in delims) && forall i :: 0 <= i < k ==> s[i] !in delims
    ensures Delimiters(s, delims) == if k == |s| then 0 else 1 + Delimiters(s[k + 1..], delims)
  {
    if k > 0 {
      FirstDelimiter(s[1..], delims, k - 1);
      assert k < |s| ==> s[1..][k..] == s[k + 1..];
    }
  }

  // The pieces with the delimiters that stood between them.
  function Interleaved(ps: seq<seq<byte>>, cuts: seq<byte>): seq<byte>
    requires |ps| == |cuts| + 1
  {
    if |cuts| == 0 then ps[0] else ps[0] + [cuts[0]] + Interleaved(ps[1..], cuts[1..])
  }

  ghost predicate Free(s: seq<byte>, delims: set<byte>) { forall c :: c in s ==> c !in delims }

  // The pieces and cuts make up s, every cut is a delimiter, and no delimiter is left uncut but for
  // want of room in the last piece.
  ghost predicate CutAt(ps: seq<seq<byte>>, cuts: seq<byte>, s: seq<byte>, delims: set<byte>, room: nat) {
    && |ps| == |cuts| + 1 <= Max(room, 1)
    && Interleaved(ps, cuts) == s
    && (forall c :: c in cuts ==> c in delims)
    && (forall i :: 0 <= i < |cuts| ==> Free(ps[i], delims))
    && (|ps| < room ==> Free(ps[|cuts|], delims))
  }

  // Split gives those pieces and no others.
  lemma PiecesExactly(ps: seq<seq<byte>>, s: seq<byte>, delims: set<byte>, room: nat)
    ensures ps == Pieces(s, delims, room) <==> exists cuts :: CutAt(ps, cuts, s, delims, room)
  {
    var cuts := PiecesCut(s, delims, room);
    forall cuts | CutAt(ps, cuts, s, delims, room) ensures ps == Pieces(s, delims, room) {
      PiecesUnique(ps, cuts, s, delims, room);
    }
  }

  lemma {:induction false} PiecesCut(s: seq<byte>, delims: set<byte>, room: nat) returns (cuts: seq<byte>)
    ensures CutAt(Pieces(s, delims, room), cuts, s, delims, room)
    decreases |s|
  {
    hide FindOf;
    var k := FindOf(s, delims);
    if room <= 1 || k == |s| {
      cuts := [];
    } else {
      var rest, ps := s[k + 1..], Pieces(s, delims, room);
      var more := PiecesCut(rest, delims, room - 1);
      cuts := [s[k]] + more;
      assert cuts[1..] == more && ps[1..] == Pieces(rest, delims, room - 1);
      assert s == s[..k] + [s[k]] + rest;
      forall i | 0 <= i < |cuts| ensures Free(ps[i], delims) {
        if i > 0 { assert ps[i] == ps[1..][i - 1]; }
      }
      assert ps[|cuts|] == ps[1..][|more|];
    }
  }

  lemma {:induction false} PiecesUnique(ps: seq<seq<byte>>, cuts: seq<byte>, s: seq<byte>, delims: set<byte>,
                                        room: nat)
    requires CutAt(ps, cuts, s, delims, room)
    ensures ps == Pieces(s, delims, room)
    decreases |ps|
  {
    hide FindOf;
    if |cuts| == 0 {
      assert ps == [s];
      if room > 1 { FindOfIs(s, delims, |s|); }
    } else {
      var rest := Interleaved(ps[1..], cuts[1..]);
      forall i | 0 <= i < |ps[0]| ensures s[i] !in delims { assert s[i] == ps[0][i] && ps[0][i] in ps[0]; }
      assert s[|ps[0]|] == cuts[0] && cuts[0] in cuts;
      FindOfIs(s, delims, |ps[0]|);
      assert s[..|ps[0]|] == ps[0] && s[|ps[0]| + 1..] == rest;
      assert ps == [ps[0]] + ps[1..];
      forall c | c in cuts[1..] ensures c in delims { assert c in cuts; }
      forall i | 0 <= i < |cuts[1..]| ensures Free(ps[1..][i], delims) { assert ps[1..][i] == ps[i + 1]; }
      assert ps[1..][|cuts[1..]|] == ps[|cuts|];
      PiecesUnique(ps[1..], cuts[1..], rest, delims, room - 1);
    }
  }

  function Joined(ps: seq<seq<byte>>, glue: seq<byte>): seq<byte>
    requires |ps| >= 1
  {
    if |ps| == 1 then ps[0] else ps[0] + glue + Joined(ps[1..], glue)
  }

  lemma {:induction false} InterleavedOne(ps: seq<seq<byte>>, cuts: seq<byte>, d: byte)
    requires |ps| == |cuts| + 1 && forall c :: c in cuts ==> c == d
    ensures Interleaved(ps, cuts) == Joined(ps, [d])
  {
    if |cuts| > 0 {
      forall c | c in cuts[1..] ensures c == d { assert c in cuts; }
      assert cuts[0] in cuts;
      InterleavedOne(ps[1..], cuts[1..], d);
    }
  }

  // Joining the pieces with the delimiter gives the string back, whatever max is. The pieces keep to
  // max exactly when it is 2 or more, or 1 and there is nothing to cut; 0 and 1 cut everywhere.
  method SplitJoins(str: seq<byte>, d: byte, max: nat) returns (result: seq<seq<byte>>)
    requires max < TWO_64
    ensures str == [] ==> result == []
    ensures str != [] ==> |result| >= 1 && Joined(result, [d]) == str
    ensures str != [] ==> (|result| <= max <==> max >= 2 || (max == 1 && d !in str))
    ensures str != [] ==> |result| == Min(if max >= 2 then max else max + TWO_64, Delimiters(str, {d}) + 1)
    ensures |str| < TWO_64 - 1 && max < 2 ==> forall p :: p in result ==> d !in p
  {
    hide FindOf, Pieces;
    result := Split(str, {d}, max);
    if str != [] {
      var cuts := PiecesCut(str, {d}, Limit(max));
      InterleavedOne(result, cuts, d);
      PieceCount(str, {d}, Limit(max));
      CutsFit(result, cuts);
      if |str| < TWO_64 - 1 && max < 2 {
        forall p | p in result ensures d !in p {
          var i :| 0 <= i < |result| && result[i] == p;
          assert |str| >= |cuts|;
          assert Free(result[i], {d});
        }
      }
    }
  }

  lemma {:induction false} CutsFit(ps: seq<seq<byte>>, cuts: seq<byte>)
    requires |ps| == |cuts| + 1
    ensures |cuts| <= |Interleaved(ps, cuts)|
  {
    if |cuts| > 0 { CutsFit(ps[1..], cuts[1..]); }
  }

  // ---- replace ------------------------------------------------------------------------------------

  method ReplaceChar(str1: seq<byte>, find: byte, replaceWith: byte) returns (str: seq<byte>)
    ensures |str| == |str1|
    ensures forall i :: 0 <= i < |str| ==> str[i] == if str1[i] == find then replaceWith else str1[i]
  {
    str := str1;
    var index := FindFirstOf(str, {find}, 0);
    while index < |str|
      invariant 0 <= index <= |str| == |str1|
      invariant forall i :: 0 <= i < index ==> str[i] == if str1[i] == find then replaceWith else str1[i]
      invariant forall i :: index <= i < |str| ==> str[i] == str1[i]
      invariant index < |str| ==> str[index] == find
    {
      str := str[index := replaceWith];
      ghost var at := index;
      index := FindFirstOf(str, {find}, index + 1);
      forall i | at < i < index ensures str1[i] != find { assert str[at + 1..][i - at - 1] == str1[i]; }
      assert index < |str| ==> str[at + 1..][index - at - 1] == str[index];
    }
  }

  predicate At(s: seq<byte>, find: seq<byte>, k: nat) { k + |find| <= |s| && s[k..k + |find|] == find }

  lemma AtNext(s: seq<byte>, find: seq<byte>)
    requires |s| > 0
    ensures forall i: nat :: i > 0 ==> (At(s, find, i) <==> At(s[1..], find, i - 1))
  {
    forall i: nat | i > 0 ensures At(s, find, i) <==> At(s[1..], find, i - 1) {
      if i + |find| <= |s| {
        var a, b := s[i..i + |find|], s[1..][i - 1..i - 1 + |find|];
        assert forall j :: 0 <= j < |find| ==> a[j] == s[i + j] == s[1..][i - 1 + j] == b[j];
        assert a == b;
      }
    }
  }

  // string::find of a string: the first place it stands at, None for npos.
  function FindString(s: seq<byte>, find: seq<byte>): (p: Option<nat>)
    ensures p.None? ==> forall i: nat :: !At(s, find, i)
    ensures p.Some? ==> At(s, find, p.value) && forall i: nat :: i < p.value ==> !At(s, find, i)
  {
    if At(s, find, 0) then Some(0)
    else if |s| == 0 then None
    else
      var p := FindString(s[1..], find);
      AtNext(s, find);
      if p.None? then None else Some(p.value + 1)
  }

  lemma FindStringIs(s: seq<byte>, find: seq<byte>, k: nat)
    requires At(s, find, k) && forall i: nat :: i < k ==> !At(s, find, i)
    ensures FindString(s, find) == Some(k)
  {
  }

  method FindFrom(s: seq<byte>, find: seq<byte>, pos: nat) returns (p: Option<nat>)
    requires pos <= |s|
    ensures FindString(s[pos..], find).None? ==> p == None
    ensures FindString(s[pos..], find).Some? ==> p == Some(pos + FindString(s[pos..], find).value)
  {
    var k := pos;
    while k + |find| <= |s|
      invariant pos <= k <= |s|
      invariant forall i: nat :: i < k - pos ==> !At(s[pos..], find, i)
    {
      assert s[k..k + |find|] == s[pos..][k - pos..k - pos + |find|];
      if s[k..k + |find|] == find {
        FindStringIs(s[pos..], find, k - pos);
        return Some(k);
      }
      k := k + 1;
    }
    p := None;
  }

  // The string between its occurrences, taken from the left without overlap.
  function PiecesOn(s: seq<byte>, find: seq<byte>): (ps: seq<seq<byte>>)
    requires find != []
    ensures |ps| >= 1
    decreases |s|
  {
    var p := FindString(s, find);
    if p.None? then [s] else [s[..p.value]] + PiecesOn(s[p.value + |find|..], find)
  }

  // Every piece but the last ends where the pattern first stands; it does not stand in the last.
  ghost predicate CutOn(ps: seq<seq<byte>>, s: seq<byte>, find: seq<byte>) {
    && |ps| >= 1 && Joined(ps, find) == s
    && (forall i :: 0 <= i < |ps| - 1 ==> FindString(ps[i] + find, find) == Some(|ps[i]|))
    && FindString(ps[|ps| - 1], find) == None
  }

  lemma PiecesOnExactly(ps: seq<seq<byte>>, s: seq<byte>, find: seq<byte>)
    requires find != []
    ensures ps == PiecesOn(s, find) <==> CutOn(ps, s, find)
  {
    PiecesOnCut(s, find);
    if CutOn(ps, s, find) {
      PiecesOnUnique(ps, s, find);
    }
  }

  // Where a pattern first stands does not depend on what comes after it.
  lemma FirstStands(a: seq<byte>, find: seq<byte>, b: seq<byte>)
    ensures FindString(a + find, find) == Some(|a|) <==> FindString(a + find + b, find) == Some(|a|)
  {
    hide FindString;
    var s, t := a + find, a + find + b;
    forall i: nat | i <= |a| ensures At(s, find, i) <==> At(t, find, i) { assert s[i..i + |find|] == t[i..i + |find|]; }
    if FindString(s, find) == Some(|a|) {
      FindStringIs(t, find, |a|);
    } else if FindString(t, find) == Some(|a|) {
      FindStringIs(s, find, |a|);
    }
  }

  lemma {:induction false} PiecesOnCut(s: seq<byte>, find: seq<byte>)
    requires find != []
    ensures CutOn(PiecesOn(s, find), s, find)
    decreases |s|
  {
    hide FindString;
    var p := FindString(s, find);
    if p.Some? {
      var ps, rest := PiecesOn(s, find), s[p.value + |find|..];
      PiecesOnCut(rest, find);
      assert ps[1..] == PiecesOn(rest, find);
      assert s == s[..p.value] + find + rest;
      FirstStands(s[..p.value], find, rest);
      forall i | 0 <= i < |ps| - 1 ensures FindString(ps[i] + find, find) == Some(|ps[i]|) {
        if i > 0 { assert ps[i] == ps[1..][i - 1]; }
      }
      assert ps[|ps| - 1] == ps[1..][|ps| - 2];
    }
  }

  lemma {:induction false} PiecesOnUnique(ps: seq<seq<byte>>, s: seq<byte>, find: seq<byte>)
    requires find != [] && CutOn(ps, s, find)
    ensures ps == PiecesOn(s, find)
    decreases |ps|
  {
    hide FindString;
    if |ps| > 1 {
      var a, rest := ps[0], Joined(ps[1..], find);
      FirstStands(a, find, rest);
      assert s == a + find + rest && s[..|a|] == a && s[|a| + |find|..] == rest;
      assert forall i :: 0 <= i < |ps[1..]| ==> ps[1..][i] == ps[i + 1];
      PiecesOnUnique(ps[1..], rest, find);
      assert ps == [a] + ps[1..];
    } else {
      assert ps == [s];
    }
  }

  // Replacing by a string: the pieces are joined with the replacement, also where that holds the
  // pattern itself. The loop ends because the part not yet looked at shrinks.
  method Replace(str1: seq<byte>, find: seq<byte>, replaceWith: seq<byte>) returns (str: seq<byte>)
    requires find != []
    ensures str == Joined(PiecesOn(str1, find), replaceWith)
  {
    hide FindString, PiecesOn, Joined;
    str := str1;
    ghost var start := 0;
    assert str[0..] == str && str[..0] == [];
    var index := FindFrom(str, find, 0);
    while index.Some?
      invariant start <= |str|
      invariant index == match FindString(str[start..], find) case None => None case Some(k) => Some(start + k)
      invariant Joined(PiecesOn(str1, find), replaceWith) ==
                str[..start] + Joined(PiecesOn(str[start..], find), replaceWith)
      decreases |str| - start
    {
      var before, after := str[..index.value], str[index.value + |find|..];
      ReplaceStep(str, find, replaceWith, start, index.value);
      str := before + replaceWith + after;
      start := index.value + |replaceWith|;
      assert str[..start] == before + replaceWith && str[start..] == after;
      index := FindFrom(str, find, index.value + |replaceWith|);
    }
    ReplaceEnd(str[start..], find, replaceWith);
    assert str == str[..start] + str[start..];
  }

  lemma ReplaceStep(s: seq<byte>, find: seq<byte>, r: seq<byte>, start: nat, at: nat)
    requires find != [] && start <= at && start <= |s| && FindString(s[start..], find) == Some(at - start)
    ensures at + |find| <= |s|
    ensures s[..start] + Joined(PiecesOn(s[start..], find), r) ==
            s[..at] + r + Joined(PiecesOn(s[at + |find|..], find), r)
  {
    hide FindString, Joined, PiecesOn;
    var t, k := s[start..], at - start;
    var rest := PiecesOn(t[k + |find|..], find);
    assert t[k + |find|..] == s[at + |find|..] && s[..start] + t[..k] == s[..at];
    PiecesOnFirst(t, find, k);
    JoinedFirst(t[..k], rest, r);
    Regroup(s[..start], t[..k], r, Joined(rest, r));
  }

  lemma PiecesOnFirst(s: seq<byte>, find: seq<byte>, k: nat)
    requires find != [] && FindString(s, find) == Some(k)
    ensures k + |find| <= |s| && PiecesOn(s, find) == [s[..k]] + PiecesOn(s[k + |find|..], find)
  {
    hide FindString;
  }

  lemma JoinedFirst(a: seq<byte>, rest: seq<seq<byte>>, glue: seq<byte>)
    requires |rest| >= 1
    ensures Joined([a] + rest, glue) == a + glue + Joined(rest, glue)
  {
    assert ([a] + rest)[1..] == rest;
  }

  lemma Regroup(a: seq<byte>, b: seq<byte>, c: seq<byte>, d: seq<byte>)
    ensures a + (b + c + d) == a + b + c + d
  {
  }

  lemma ReplaceEnd(s: seq<byte>, find: seq<byte>, r: seq<byte>)
    requires find != [] && FindString(s, find) == None
    ensures Joined(PiecesOn(s, find), r) == s
  {
  }

  // One pass of the loop: the string and the place at which the pattern was found, or the result.
  datatype Loop = Done(str: seq<byte>) | At(str: seq<byte>, index: nat)

  function Found(str: seq<byte>, find: seq<byte>, start: nat): Loop
    requires start <= |str|
  {
    match FindString(str[start..], find)
    case None => Done(str)
    case Some(k) => Loop.At(str, start + k)
  }

  // The loop after n passes.
  ghost function After(s: seq<byte>, find: seq<byte>, r: seq<byte>, n: nat): (l: Loop)
    ensures l.At? ==> l.index + |find| <= |l.str|
  {
    if n == 0 then Found(s, find, 0)
    else
      match After(s, find, r, n - 1)
      case Done(str) => Done(str)
      case At(str, index) => Found(str[..index] + r + str[index + |find|..], find, index + |r|)
  }

  // Where the loop ends, it ends with the pieces joined by the replacement.
  lemma EndsWith(s: seq<byte>, find: seq<byte>, r: seq<byte>, n: nat)
    requires find != [] && After(s, find, r, n).Done?
    ensures After(s, find, r, n).str == Joined(PiecesOn(s, find), r)
  {
    LoopKeeps(s, find, r, n);
  }

  // What the loop has done and, from where it has come to, still has to do makes up the result.
  ghost predicate Makes(l: Loop, find: seq<byte>, r: seq<byte>, result: seq<byte>)
    requires find != []
  {
    match l
    case Done(str) => str == result
    case At(str, index) =>
      && index + |find| <= |str| && FindString(str[index..], find) == Some(0)
      && result == str[..index] + Joined(PiecesOn(str[index..], find), r)
  }

  lemma {:induction false} LoopKeeps(s: seq<byte>, find: seq<byte>, r: seq<byte>, n: nat)
    requires find != []
    ensures Makes(After(s, find, r, n), find, r, Joined(PiecesOn(s, find), r))
  {
    hide FindString, Joined, PiecesOn, Makes, Found;
    if n == 0 {
      FoundMakes(s, find, r, 0);
      assert s[0..] == s && s[..0] == [];
      AddNothing(Joined(PiecesOn(s, find), r));
    } else {
      LoopKeeps(s, find, r, n - 1);
      var l := After(s, find, r, n - 1);
      if l.At? { PassMakes(l.str, l.index, find, r, Joined(PiecesOn(s, find), r)); }
    }
  }

  lemma AddNothing(s: seq<byte>)
    ensures [] + s == s
  {
  }

  lemma PassMakes(str: seq<byte>, index: nat, find: seq<byte>, r: seq<byte>, result: seq<byte>)
    requires find != [] && Makes(Loop.At(str, index), find, r, result) && index + |find| <= |str|
    ensures Makes(Found(str[..index] + r + str[index + |find|..], find, index + |r|), find, r, result)
  {
    hide FindString, Joined, PiecesOn, Found;
    ReplaceStep(str, find, r, index, index);
    var a, b := str[..index], str[index + |find|..];
    assert result == a + r + Joined(PiecesOn(b, find), r);
    hide Makes;
    Parts(a, r, b);
    FoundMakes(a + r + b, find, r, index + |r|);
  }

  lemma Parts(a: seq<byte>, r: seq<byte>, b: seq<byte>)
    ensures (a + r + b)[..|a| + |r|] == a + r && (a + r + b)[|a| + |r|..] == b
  {
  }

  lemma FoundMakes(str: seq<byte>, find: seq<byte>, r: seq<byte>, start: nat)
    requires find != [] && start <= |str|
    ensures Makes(Found(str, find, start), find, r, str[..start] + Joined(PiecesOn(str[start..], find), r))
  {
    hide FindString, Joined, PiecesOn;
    var found := FindString(str[start..], find);
    if found.None? {
      ReplaceEnd(str[start..], find, r);
      assert str == str[..start] + str[start..];
    } else {
      var index := start + found.value;
      assert str[index..] == str[start..][found.value..] && At(str[start..], find, found.value);
      assert At(str[index..], find, 0);
      FindStringIs(str[index..], find, 0);
      ReplaceStep(str, find, r, start, index);
      ReplaceStep(str, find, r, index, index);
    }
  }

  // The loop ends if and only if the pattern is not empty: an empty one is found again at once, on
  // every string.
  lemma EndsIff(s: seq<byte>, find: seq<byte>, r: seq<byte>)
    ensures (exists n: nat :: After(s, find, r, n).Done?) <==> find != []
  {
    if find == [] {
      forall n: nat ensures After(s, find, r, n).At? { NeverEnds(s, r, n); }
    } else {
      var n := Ends(s, find, r, 0);
    }
  }

  lemma {:induction false} NeverEnds(s: seq<byte>, r: seq<byte>, n: nat)
    ensures After(s, [], r, n).At?
  {
    if n > 0 { NeverEnds(s, r, n - 1); }
  }

  lemma {:induction false} Ends(s: seq<byte>, find: seq<byte>, r: seq<byte>, n: nat) returns (m: nat)
    requires find != []
    ensures After(s, find, r, m).Done?
    decreases match After(s, find, r, n) case Done(_) => 0 case At(str, index) => 1 + |str| - index
  {
    hide FindString;
    if After(s, find, r, n).Done? {
      m := n;
    } else {
      m := Ends(s, find, r, n + 1);
    }
  }

  lemma AtOne(s: seq<byte>, c: byte, i: nat)
    ensures At(s, [c], i) <==> i < |s| && s[i] == c
  {
    if i < |s| { assert s[i..i + 1] == [s[i]]; }
  }

  // Replacing a character is joining the unlimited split with the replacement.
  lemma {:induction false} SplitIsPiecesOn(s: seq<byte>, c: byte, room: nat)
    requires room > |s|
    ensures Pieces(s, {c}, room) == PiecesOn(s, [c])
    decreases |s|
  {
    hide FindString, FindOf;
    var k := FindOf(s, {c});
    forall i: nat ensures At(s, [c], i) <==> i < |s| && s[i] == c { AtOne(s, c, i); }
    hide At;
    if k < |s| {
      FindStringIs(s, [c], k);
      SplitIsPiecesOn(s[k + 1..], c, room - 1);
    } else {
      assert FindString(s, [c]).None?;
    }
  }

  method ReplaceIsJoin(s: seq<byte>, c: byte, r: seq<byte>) returns (replaced: seq<byte>, pieces: seq<seq<byte>>)
    requires |s| < TWO_64 - 1  // as every string is
    ensures replaced == if pieces == [] then [] else Joined(pieces, r)
    ensures pieces == if s == [] then [] else Pieces(s, {c}, Limit(TWO_64 - 1))
  {
    replaced := Replace(s, [c], r);
    pieces := Split(s, {c}, TWO_64 - 1);
    if s != [] { SplitIsPiecesOn(s, c, TWO_64 - 1); }
  }

  // A limit of one piece still cuts.
  lemma LimitOneCuts()
    ensures Pieces([97, 44, 98], {44}, Limit(1)) == [[97], [98]]
  {
    FindOfIs([97, 44, 98], {44}, 1);
    FindOfIs([98], {44}, 1);
    assert [97, 44, 98][..1] == [97] && [97, 44, 98][2..] == [98];
  }
}
