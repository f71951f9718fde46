// Layout does not count: two files that are the same text once comments are
// spaces and runs of whitespace are one space have the same keys.

module LayoutLaws {
  import opened Chars
  import opened SqlLexer
  import opened Splitter
  import opened LexerLaws
  import opened ExecutionMode
  import opened Normalizer
  import opened Escapes
  import opened Uncommenting
  import opened Squeezing
  import opened Marks
  import opened MarkReadings
  import opened NormalizerLaws

  // ----- the same characters but for whitespace -----

  function Count(s: string): nat {
    |Inner(Code, s)|
  }

  lemma {:induction false} CountHead(s: string, k: nat)
    requires 0 < k <= |s|
    ensures Count(s[..k]) == (if IsSpace(s[0]) then 0 else 1) + Count(s[1..][..k - 1])
  {
    hide IsSpace;
    assert s[..k][1..] == s[1..][..k - 1];
  }

  lemma {:induction false} CountSkips(s: string, k: nat) returns (i: nat)
    requires k < |s| && !IsSpace(s[k])
    ensures
      var rest := SkipSpaces(s);
      && i == k - (|s| - |rest|) && rest[i] == s[k] && Count(s[..k]) == Count(rest[..i])
      && SkipSpaces(s[..k]) == rest[..i] && s[k + 1..] == rest[i + 1..]
    decreases |s|
  {
    hide IsSpace, Count, SkipSpaces, Blank;
    if IsSpace(s[0]) {
      SpaceSkipped(s);
      i := CountSkips(s[1..], k - 1);
      CountHead(s, k);
      PartOfTail(s, k);
      SpaceSkipped(s[..k]);
    } else {
      i := k;
      NoneSkipped(s);
      assert k > 0 ==> s[..k][0] == s[0];
      NoneSkipped(s[..k]);
    }
  }

  lemma {:induction false} SpaceSkipped(s: string)
    requires s != "" && IsSpace(s[0])
    ensures SkipSpaces(s) == SkipSpaces(s[1..])
  {
  }

  lemma {:induction false} PartOfTail(s: string, k: nat)
    requires 0 < k < |s|
    ensures s[..k][1..] == s[1..][..k - 1] && s[k + 1..] == s[1..][k..]
  {
  }

  // Two texts that squeeze alike, cut at the same one of their characters.
  lemma {:induction false} SqueezedParts(s: string, t: string, k: nat, n: nat)
    requires Squeeze(s) == Squeeze(t) && k < |s| && n < |t| && !IsSpace(s[k]) && !IsSpace(t[n])
    requires Count(s[..k]) == Count(t[..n])
    ensures Squeeze(s[..k]) == Squeeze(t[..n]) && Squeeze(s[k + 1..]) == Squeeze(t[n + 1..])
    decreases |s|
  {
    hide IsSpace, SkipSpaces, Squeeze, Count;
    SqueezeFollows(s);
    SqueezeFollows(t);
    SolidIsNoBlank(s);
    SolidIsNoBlank(t);
    if IsSpace(s[0]) {
      SqueezedPartsAfterSpace(s, t, k, n);
    } else {
      SqueezeHead(s);
      SqueezeHead(t);
      HeadCount(s, k);
      HeadCount(t, n);
      if k > 0 {
        CountHead(s, k);
        CountHead(t, n);
        SqueezedParts(s[1..], t[1..], k - 1, n - 1);
        HeadOfPart(s, k);
        HeadOfPart(t, n);
      }
    }
  }

  lemma {:induction false} SolidIsNoBlank(s: string)
    ensures s != "" && !IsSpace(s[0]) ==> s[0] != ' '
  {
  }

  lemma {:induction false} HeadCount(s: string, k: nat)
    requires k < |s| && !IsSpace(s[0])
    ensures k == 0 <==> Count(s[..k]) == 0
  {
    hide IsSpace;
    if k > 0 {
      CountHead(s, k);
    }
  }

  lemma {:induction false} HeadOfPart(s: string, k: nat)
    requires 0 < k <= |s| && !IsSpace(s[0])
    ensures Squeeze(s[..k]) == [s[0]] + Squeeze(s[1..][..k - 1])
  {
    hide IsSpace, SkipSpaces;
    assert s[..k][1..] == s[1..][..k - 1];
  }

  lemma {:induction false} SqueezedPartsAfterSpace(s: string, t: string, k: nat, n: nat)
    requires Squeeze(s) == Squeeze(t) && k < |s| && n < |t| && !IsSpace(s[k]) && !IsSpace(t[n])
    requires Count(s[..k]) == Count(t[..n]) && IsSpace(s[0]) && IsSpace(t[0])
    ensures Squeeze(s[..k]) == Squeeze(t[..n]) && Squeeze(s[k + 1..]) == Squeeze(t[n + 1..])
    decreases |s|, 0
  {
    hide IsSpace, SkipSpaces, Squeeze, Count, Blank;
    var r, q := SkipSpaces(s), SkipSpaces(t);
    SkipsOne(s);
    var i := CountSkips(s, k);
    var j := CountSkips(t, n);
    SqueezeOfSpaces(s);
    SqueezeOfSpaces(t);
    SqueezedParts(r, q, i, j);
    HeadCount(r, i);
    HeadCount(q, j);
    PartAfterSpace(s, k);
    PartAfterSpace(t, n);
  }

  lemma {:induction false} PartAfterSpace(s: string, k: nat)
    requires k < |s| && !IsSpace(s[k]) && IsSpace(s[0])
    ensures
      var rest := SkipSpaces(s);
      var i := k - (|s| - |rest|);
      i >= 0 && Squeeze(s[..k]) == if i == 0 then "" else " " + Squeeze(rest[..i])
  {
    hide IsSpace, SkipSpaces, Squeeze, Blank, Count;
    var i := CountSkips(s, k);
    var part := s[..k];
    SqueezeOfSpaces(part);
    NothingSqueezed();
    if SkipSpaces(part) != "" {
      assert Squeeze(part) == " " + Squeeze(SkipSpaces(part));
    }
  }

  // ----- the same key -----

  // The text on one line.
  function Line(s: string): string {
    Squeeze(SkipSpaces(s))
  }

  lemma {:induction false} LineOfSqueezed(s: string, t: string)
    requires Squeeze(s) == Squeeze(t)
    ensures Line(s) == Line(t)
  {
    LineIsSqueezed(s);
    LineIsSqueezed(t);
  }

  lemma {:induction false} LineIsSqueezed(s: string)
    ensures
      var u := Squeeze(s);
      Line(s) == if u != "" && u[0] == ' ' then u[1..] else u
  {
    hide IsSpace, SkipSpaces, Squeeze;
    SqueezeFollows(s);
    SolidIsNoBlank(s);
    NothingSqueezed();
    if s != "" && IsSpace(s[0]) {
      SqueezeOfSpaces(s);
    } else {
      NoneSkipped(s);
    }
  }

  lemma {:induction false} NoneSkipped(s: string)
    requires s == "" || !IsSpace(s[0])
    ensures SkipSpaces(s) == s
  {
  }

  // Two texts of one line, cut at the same one of their characters.
  lemma {:induction false} LineParts(s: string, t: string, k: nat, n: nat)
    requires Line(s) == Line(t) && k < |s| && n < |t| && !IsSpace(s[k]) && !IsSpace(t[n])
    requires Count(s[..k]) == Count(t[..n])
    ensures Line(s[..k]) == Line(t[..n]) && Line(s[k + 1..]) == Line(t[n + 1..])
  {
    hide IsSpace, SkipSpaces, Squeeze, Count, Blank;
    var r, q := SkipSpaces(s), SkipSpaces(t);
    var i := CountSkips(s, k);
    var j := CountSkips(t, n);
    SqueezedParts(r, q, i, j);
    LineOfSqueezed(s[k + 1..], t[n + 1..]);
  }

  // ----- the same cuts -----

  lemma {:induction false} HeadIsSolid(s: string)
    requires s != "" && FormAt(s).kind != Code
    ensures !IsSpace(s[0])
  {
    if IsComment(FormAt(s).kind) {
      CommentHead(s);
    } else {
      QuoteHeads(s);
    }
  }

  lemma {:induction false} CommentHead(s: string)
    requires s != "" && IsComment(FormAt(s).kind)
    ensures s[0] == '-' || s[0] == '/'
  {
    hide QuotedEnd, EscapeEnd, BlockEnd, DollarEnd, TagLength, LineEnd, WordRun;
  }

  // There is one mark for each character but whitespace.
  lemma {:induction false} MarkCount(s: string)
    ensures |MarksOf(s)| == Count(s)
    decreases |s|
  {
    hide FormAt, Inner;
    if s == "" {
      assert Inner(Code, "") == [] by { InnerBlank(Code, ""); }
    } else {
      var n := FormAt(s).len;
      MarkCount(s[n..]);
      InnerBoth(Code, s[..n], s[n..]);
      assert s[..n] + s[n..] == s;
      OuterCount(s);
    }
  }

  lemma {:induction false} OuterCount(s: string)
    requires s != ""
    ensures |Outer(FormAt(s), s[..FormAt(s).len])| == Count(s[..FormAt(s).len])
  {
    var f := FormAt(s);
    var text := s[..f.len];
    if f.kind != Code {
      HeadIsSolid(s);
      hide FormAt, IsSpace;
      InnerCount(f.kind, text[1..]);
    }
  }

  lemma {:induction false} InnerCount(kind: Kind, text: string)
    ensures |Inner(kind, text)| == Count(text)
  {
    hide IsSpace;
    if text != "" {
      InnerCount(kind, text[1..]);
    }
  }

  const CUT: Mark := Mark(';', Code, false, true)

  // The marks of a text are those of its first piece, the cut, and the rest's.
  lemma {:induction false} MarksCut(s: string)
    requires FirstCut(s) < |s|
    ensures
      var k := FirstCut(s);
      MarksOf(s) == MarksOf(s[..k]) + ([CUT] + MarksOf(s[k + 1..]))
    decreases |s|
  {
    hide FormAt, MarksOf, FirstCut, Outer;
    var k := FirstCut(s);
    HeadMarks(s);
    if s[0] == ';' {
      CutAtSemicolon(s);
      SemicolonIsCode(s);
      SemicolonMark(s);
      NothingMarked();
      assert [] + ([CUT] + MarksOf(s[1..])) == [CUT] + MarksOf(s[1..]);
    } else {
      HeadOfPiece(s);
      MarksCut(s[FormAt(s).len..]);
      var n := FormAt(s).len;
      Regrouped(Outer(FormAt(s), s[..n]), MarksOf(s[n..][..k - n]), [CUT] + MarksOf(s[k + 1..]));
    }
  }

  // The first piece opens with the text's own first form.
  lemma {:induction false} HeadOfPiece(s: string)
    requires s != "" && s[0] != ';' && FirstCut(s) < |s|
    ensures
      var k, n := FirstCut(s), FormAt(s).len;
      && n <= k && FirstCut(s[n..]) == k - n && s[n..][k - n + 1..] == s[k + 1..]
      && MarksOf(s[..k]) == Outer(FormAt(s), s[..n]) + MarksOf(s[n..][..k - n])
  {
    hide FormAt, MarksOf, FirstCut, Outer;
    var k, n := FirstCut(s), FormAt(s).len;
    LexOnce(s);
    FormCut(s, k);
    HeadMarks(s[..k]);
    assert s[..k][n..] == s[n..][..k - n] && s[..k][..n] == s[..n];
  }

  lemma {:induction false} SemicolonMark(s: string)
    requires s != "" && s[0] == ';'
    ensures Outer(Form(Code, 1, true), s[..1]) == [CUT]
  {
    assert s[..1] == ";" && ";"[1..] == "";
  }

  lemma {:induction false} NothingMarked()
    ensures MarksOf("") == []
  {
  }

  lemma {:induction false} FirstAt<T>(a: seq<T>, b: seq<T>, c: seq<T>, d: seq<T>, x: T)
    requires a + ([x] + b) == c + d && |a| < |c|
    ensures x in c
  {
    assert (a + ([x] + b))[|a|] == x && (c + d)[|a|] == c[|a|];
  }

  lemma {:induction false} FirstOf<T>(a: seq<T>, b: seq<T>, c: seq<T>, d: seq<T>, x: T)
    requires a + ([x] + b) == c + ([x] + d) && x !in a && x !in c
    ensures a == c && b == d
  {
    if |a| < |c| {
      FirstAt(a, b, c, [x] + d, x);
    } else if |c| < |a| {
      FirstAt(c, d, a, [x] + b, x);
    } else {
      SamePrefixes(a, [x] + b, c, [x] + d);
      SamePrefixes([x], b, [x], d);
    }
  }

  lemma {:induction false} SamePrefixes<T>(a: seq<T>, b: seq<T>, c: seq<T>, d: seq<T>)
    requires a + b == c + d && |a| == |c|
    ensures a == c && b == d
  {
    assert a == (a + b)[..|a|] && c == (c + d)[..|a|];
    assert b == (a + b)[|a|..] && d == (c + d)[|a|..];
  }

  lemma {:induction false} NoCutBefore(s: string)
    ensures CUT !in MarksOf(s[..FirstCut(s)])
  {
    hide MarksOf, FirstCut, FormAt, Lex, Shape, ShapeRead, HasCode, NoComments;
    PieceHasNoCut(s);
    MarksTell(s[..FirstCut(s)]);
  }

  // Texts that mark the same are cut at the same character.
  lemma {:induction false} SameCut(s: string, t: string)
    requires MarksOf(s) == MarksOf(t)
    ensures FirstCut(s) == |s| <==> FirstCut(t) == |t|
    ensures FirstCut(s) < |s| ==>
      var k, n := FirstCut(s), FirstCut(t);
      && MarksOf(s[..k]) == MarksOf(t[..n]) && MarksOf(s[k + 1..]) == MarksOf(t[n + 1..])
      && Count(s[..k]) == Count(t[..n])
  {
    hide MarksOf, FirstCut, FormAt, Count;
    MarksCutBoth(s, t);
    if FirstCut(s) < |s| {
      var k, n := FirstCut(s), FirstCut(t);
      MarksCut(s);
      MarksCut(t);
      NoCutBefore(s);
      NoCutBefore(t);
      FirstOf(MarksOf(s[..k]), MarksOf(s[k + 1..]), MarksOf(t[..n]), MarksOf(t[n + 1..]), CUT);
      MarkCount(s[..k]);
      MarkCount(t[..n]);
    }
  }

  lemma {:induction false} MarksCutBoth(s: string, t: string)
    requires MarksOf(s) == MarksOf(t)
    ensures FirstCut(s) == |s| <==> FirstCut(t) == |t|
    ensures HasCode(Lex(s)) <==> HasCode(Lex(t))
    ensures NoComments(Lex(s)) <==> NoComments(Lex(t))
  {
    hide MarksOf, FirstCut, FormAt, Lex, Shape, ShapeRead, HasCode, NoComments, CutRead;
    MarksTell(s);
    MarksTell(t);
  }

  // ----- the pieces of a settled text are settled -----

  lemma {:induction false} CodeEndsByCut(s: string, k: nat)
    requires 0 < k < |s| && s[k] == ';' && FormAt(s).kind == Code
    ensures FormAt(s).len <= k
  {
    CodeFormIsWord(s);
    hide FormAt;
    SemicolonInNoWord();
  }

  lemma {:induction false} StaysCodeCut(s: string, n: nat, k: nat)
    requires n <= k < |s| && s[k] == ';' && StaysCode(s, n)
    ensures StaysCode(s[..k], n)
    decreases |s|
  {
    hide FormAt;
    if n > 0 {
      var m := FormAt(s).len;
      CodeEndsByCut(s, k);
      FormCut(s, k);
      assert s[..k][m..] == s[m..][..k - m];
      StaysCodeCut(s[m..], if m <= n then n - m else 0, k - m);
    }
  }

  lemma {:induction false} SteadyHeadCut(s: string, k: nat)
    requires s != "" && FormAt(s).len <= k < |s| && s[k] == ';' && SteadyHead(s)
    ensures SteadyHead(s[..k])
  {
    FormCut(s, k);
    if FormAt(s).kind == Dollar {
      DollarForm(s);
      hide FormAt, TagLength, StaysCode, Solid;
      TagCut(s, k);
    } else if FormAt(s).kind == Code {
      hide FormAt, StaysCode, Solid;
      var n := FormAt(s).len;
      var t := Spaced(s[..n]) + s[n..];
      assert t[k] == s[k] && t[..k] == Spaced(s[..n]) + s[..k][n..] && s[..k][..n] == s[..n];
      StaysCodeCut(t, n, k);
    }
  }

  lemma {:induction false} TagCut(s: string, k: nat)
    requires s != "" && FormAt(s).kind == Dollar && TagLength(s).Some? && FormAt(s).len <= k <= |s|
    ensures TagLength(s[..k]) == TagLength(s) && TagLength(s).value <= k
    ensures s[..k][..TagLength(s).value] == s[..TagLength(s).value]
  {
    assert TagLength(s).value <= FormAt(s).len by {
      hide QuotedEnd, EscapeEnd, BlockEnd, LineEnd, DollarEnd, TagLength, WordForm;
    }
    hide FormAt, TagLength;
    TagAhead(s, s[..k]);
  }

  lemma {:induction false} SteadyCut(s: string)
    requires Steady(s)
    ensures
      var k := FirstCut(s);
      Steady(s[..k]) && (k < |s| ==> Steady(s[k + 1..]))
    decreases |s|
  {
    hide FormAt, SteadyHead, FirstCut;
    var k := FirstCut(s);
    if s == "" || k == |s| {
      assert s[..k] == s;
    } else if s[0] == ';' {
      CutAtSemicolon(s);
      SemicolonIsCode(s);
    } else {
      LexOnce(s);
      var n := FormAt(s).len;
      var tail := s[n..];
      SteadyCut(tail);
      FormCut(s, k);
      SteadyHeadCut(s, k);
      assert s[..k][n..] == tail[..k - n] && tail[k - n + 1..] == s[k + 1..];
    }
  }

  // ----- the keys of a file, piece by piece -----

  function Keys(pieces: seq<string>): seq<string> {
    if pieces == [] then []
    else OneKey(pieces[0]) + Keys(pieces[1..])
  }

  function OneKey(piece: string): seq<string> {
    if HasCode(Lex(piece)) then [Line(piece)] else []
  }

  // A text that has no comment and settles.
  ghost predicate Still(s: string) {
    NoComments(Lex(s)) && Uncontinued(s) && Steady(s)
  }

  lemma {:induction false} StillIsKept(s: string)
    requires Still(s)
    ensures MarksOf(Line(s)) == MarksOf(s)
    ensures Normalized(s) == Ok(Line(s))
  {
    hide Lex, Uncommented, Uncomment, MarksOf, Squeeze, SkipSpaces, Collapse, Strip, Uncontinued, Steady;
    hide NoComments, Shape, Normalized;
    UncommentNothing(s);
    UncommentIsUncommented(s);
    KeyIsSqueezed(s);
    QuotesStayIffSettled(s);
    StayingIsNotRefused(s);
  }

  lemma {:induction false} StillParts(s: string)
    requires Still(s) && FirstCut(s) < |s|
    ensures Still(s[..FirstCut(s)]) && Still(s[FirstCut(s) + 1..])
  {
    hide Lex, MarksOf, FirstCut, Uncontinued, Steady, NoComments, Shape, ShapeRead, HasCode;
    UncontinuedCut(s);
    SteadyCut(s);
    var k := FirstCut(s);
    MarksCut(s);
    MarksTell(s);
    MarksTell(s[..k]);
    MarksTell(s[k + 1..]);
    CommentsAmong(MarksOf(s[..k]), [CUT], MarksOf(s[k + 1..]));
  }

  lemma {:induction false} CommentsAmong(a: seq<Mark>, b: seq<Mark>, c: seq<Mark>)
    requires !CommentRead(a + (b + c))
    ensures !CommentRead(a) && !CommentRead(c)
  {
    assert forall mark :: mark in a || mark in c ==> mark in a + (b + c);
  }

  // Texts of one line have the same keys, whatever their layout.
  lemma {:induction false} SameKeys(s: string, t: string)
    requires Still(s) && Still(t) && Line(s) == Line(t)
    ensures Keys(Pieces(s)) == Keys(Pieces(t))
    decreases |s|
  {
    hide *;
    StillIsKept(s);
    StillIsKept(t);
    SameCut(s, t);
    KeysCut(s);
    KeysCut(t);
    var k, n := FirstCut(s), FirstCut(t);
    if k == |s| {
      SameKey(s, t);
    } else {
      SameParts(s, t, k, n);
      SameKey(s[..k], t[..n]);
      SameKeys(s[k + 1..], t[n + 1..]);
    }
  }

  lemma {:induction false} SameParts(s: string, t: string, k: nat, n: nat)
    requires Still(s) && Still(t) && Line(s) == Line(t)
    requires k == FirstCut(s) < |s| && n == FirstCut(t) < |t| && Count(s[..k]) == Count(t[..n])
    ensures Line(s[..k]) == Line(t[..n]) && Line(s[k + 1..]) == Line(t[n + 1..])
    ensures Still(s[k + 1..]) && Still(t[n + 1..])
  {
    StillParts(s);
    StillParts(t);
    SemicolonInNoSpace();
    hide *;
    LineParts(s, t, k, n);
  }

  lemma {:induction false} SameKey(s: string, t: string)
    requires MarksOf(s) == MarksOf(t) && Line(s) == Line(t)
    ensures OneKey(s) == OneKey(t)
  {
    hide Lex, MarksOf, HasCode, Line;
    MarksCutBoth(s, t);
  }

  // The keys of a text, its first piece cut off.
  lemma {:induction false} KeysCut(s: string)
    ensures
      var k := FirstCut(s);
      Keys(Pieces(s)) == if k == |s| then OneKey(s) else OneKey(s[..k]) + Keys(Pieces(s[k + 1..]))
  {
    hide FirstCut, OneKey;
    var k := FirstCut(s);
    if k == |s| {
      assert s[..k] == s && [s][1..] == [];
      assert OneKey(s) + [] == OneKey(s);
    } else {
      assert Pieces(s)[1..] == Pieces(s[k + 1..]);
    }
  }

  lemma {:induction false} SemicolonInNoSpace()
    ensures !IsSpace(';')
  {
  }

  lemma {:induction false} StillPieces(s: string)
    requires Still(s)
    ensures forall piece <- Pieces(s) :: Still(piece)
    decreases |s|
  {
    hide FirstCut, Still;
    if FirstCut(s) < |s| {
      StillParts(s);
      StillPieces(s[FirstCut(s) + 1..]);
    }
  }

  lemma {:induction false} KeptKeys(frags: seq<seq<Segment>>, pieces: seq<string>)
    requires LexedAlone(frags, pieces) && forall piece <- pieces :: Still(piece)
    ensures NormalizedAll(Kept(frags)) == Ok(Keys(pieces))
  {
    hide Lex, HasCode, Still, Line, Normalized, Keys, NormalizedAll;
    if frags == [] {
      NoKeys();
    } else {
      assert pieces[0] in pieces;
      LexIsPartition(pieces[0]);
      StillIsKept(pieces[0]);
      KeptKeys(frags[1..], pieces[1..]);
      OneMoreKey(pieces, Kept(frags[1..]));
    }
  }

  lemma {:induction false} NoKeys()
    ensures NormalizedAll([]) == Ok(Keys([]))
  {
  }

  lemma {:induction false} OneMoreKey(pieces: seq<string>, rest: seq<string>)
    requires pieces != [] && Normalized(pieces[0]) == Ok(Line(pieces[0]))
    requires NormalizedAll(rest) == Ok(Keys(pieces[1..]))
    ensures
      NormalizedAll((if HasCode(Lex(pieces[0])) then [pieces[0]] else []) + rest) == Ok(Keys(pieces))
  {
    hide Lex, HasCode, Line, Normalized;
    if HasCode(Lex(pieces[0])) {
      assert ([pieces[0]] + rest)[1..] == rest;
    } else {
      assert [] + rest == rest && [] + Keys(pieces[1..]) == Keys(pieces[1..]);
    }
  }

  lemma {:induction false} StillKeys(s: string)
    requires Still(s)
    ensures Normalize(s) == Ok(Keys(Pieces(s)))
  {
    hide Lex, Still, Fragments, Pieces, NormalizedAll, Keys;
    StillPieces(s);
    FragmentsArePieces(s);
    KeptKeys(Fragments(Lex(s)), Pieces(s));
  }

  lemma {:induction false} SettledText(sql: string)
    requires Settled(sql)
    ensures Still(TextOf(sql)) && NormalizedText(sql) == Line(TextOf(sql)) && Calm(sql)
  {
    hide Lex, Uncommented, Uncomment, Squeeze, SkipSpaces, Collapse, Strip, Uncontinued, Steady, NoComments;
    UncommentIsUncommented(sql);
    UncommentLeavesNone(sql);
    KeyIsSqueezed(TextOf(sql));
  }

  // Two settled files that are the same text once comments are spaces and runs of
  // whitespace are one space are not refused and have the same keys, one by one.
  lemma {:induction false} LayoutDoesNotCount(sql: string, other: string)
    requires Settled(sql) && Settled(other) && NormalizedText(sql) == NormalizedText(other)
    ensures Normalize(sql).Ok? && Normalize(sql) == Normalize(other)
  {
    hide Settled, TextOf, NormalizedText, Normalize, Still, Line, Pieces, Keys, Calm;
    SettledText(sql);
    SettledText(other);
    CommentsDoNotCountHere(sql);
    CommentsDoNotCountHere(other);
    StillKeys(TextOf(sql));
    StillKeys(TextOf(other));
    SameKeys(TextOf(sql), TextOf(other));
  }

  lemma {:induction false} CommentsDoNotCountHere(sql: string)
    requires Calm(sql)
    ensures SameOutcome(Normalize(sql), Normalize(TextOf(sql)))
  {
    hide Normalize, Calm;
    CommentsDoNotCount(sql);
  }
}
