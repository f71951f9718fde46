// Replacing every comment of a text by a space: what it does to the segments.
// A continuation reads across comments, so a comment's going can move a quote:
// nothing else can. The texts here are those that nothing is continued in once
// their comments are replaced.

module Uncommenting {
  import opened Chars
  import opened SqlLexer
  import opened Splitter
  import opened LexerLaws
  import opened ExecutionMode
  import opened Escapes

  // No escape string anywhere in `s`.
  predicate Plain(s: string) {
    forall seg <- Lex(s) :: seg.kind != EscapeString
  }

  // `Uncommented(Lex(s))`, read form by form.
  function Uncomment(s: string): string
    decreases |s|
  {
    if s == "" then ""
    else
      var f := FormAt(s);
      (if IsComment(f.kind) then " " else s[..f.len]) + Uncomment(s[f.len..])
  }

  // No escape string is carried over a line break, with spaces for comments.
  predicate Calm(s: string) {
    Uncontinued(Uncomment(s))
  }

  lemma {:induction false} UncommentedPrepend(f: Form, text: string, segs: seq<Segment>)
    requires text != ""
    ensures
      Uncommented(Prepend(f, text, segs)) ==
      (if IsComment(f.kind) then " " else text) + Uncommented(segs)
  {
    var all := Prepend(f, text, segs);
    if f.kind == Code && segs != [] && segs[0].kind == Code {
      assert all[1..] == segs[1..];
      assert text + segs[0].text + Uncommented(segs[1..]) == text + Uncommented(segs);
    } else {
      assert all[1..] == segs;
    }
  }

  lemma {:induction false} UncommentIsUncommented(s: string)
    ensures Uncomment(s) == Uncommented(Lex(s))
    decreases |s|
  {
    hide FormAt;
    if s != "" {
      var f := FormAt(s);
      UncommentIsUncommented(s[f.len..]);
      UncommentedPrepend(f, s[..f.len], Lex(s[f.len..]));
    }
  }

  lemma {:induction false} PlainStep(s: string)
    requires s != "" && Plain(s)
    ensures FormAt(s).kind != EscapeString && Plain(s[FormAt(s).len..])
  {
    hide FormAt;
    var f := FormAt(s);
    var text, rest := s[..f.len], Lex(s[f.len..]);
    var all := Prepend(f, text, rest);
    if f.kind == Code && rest != [] && rest[0].kind == Code {
      assert forall seg <- rest :: seg == rest[0] || seg in all[1..];
    } else {
      assert all[0].kind == f.kind && all[1..] == rest;
    }
  }

  // ----- swapping what follows a form -----

  lemma {:induction false} QuotedStops(s: string, quote: char)
    requires QuotedEnd(s, quote).closed
    ensures
      var n := QuotedEnd(s, quote).len;
      s[n - 1] == quote && (n < |s| ==> s[n] != quote)
    decreases |s|
  {
    if s[0] != quote {
      QuotedStops(s[1..], quote);
    } else if |s| > 1 && s[1] == quote {
      QuotedStops(s[2..], quote);
    }
  }

  lemma {:induction false} QuotedSwap(s: string, quote: char, y: string)
    requires QuotedEnd(s, quote).closed && !StartsWith(y, [quote])
    ensures QuotedEnd(s[..QuotedEnd(s, quote).len] + y, quote) == QuotedEnd(s, quote)
    decreases |s|
  {
    var e := QuotedEnd(s, quote);
    var t := s[..e.len] + y;
    if s[0] != quote {
      assert t[1..] == s[1..][..e.len - 1] + y;
      QuotedSwap(s[1..], quote, y);
    } else if |s| > 1 && s[1] == quote {
      assert t[2..] == s[2..][..e.len - 2] + y;
      QuotedSwap(s[2..], quote, y);
    }
  }

  lemma {:induction false} FindSwap(s: string, pattern: string, n: nat, y: string)
    requires n <= |s| && pattern != ""
    requires Find(s, pattern).Some? && Find(s, pattern).value + |pattern| == n
    ensures Find(s[..n] + y, pattern) == Find(s, pattern)
    decreases |s|
  {
    var t := s[..n] + y;
    if StartsWith(s, pattern) {
      assert t[..|pattern|] == s[..n];
    } else {
      assert t[1..] == s[1..][..n - 1] + y;
      FindSwap(s[1..], pattern, n - 1, y);
      assert t[..|pattern|] == s[..|pattern|];
    }
  }

  lemma {:induction false} TagRunSwap(s: string, y: string)
    requires y == "" || !IsTagChar(y[0])
    ensures TagRun(s[..TagRun(s)] + y) == TagRun(s)
    decreases |s|
  {
    var n := TagRun(s);
    if n > 0 {
      assert (s[..n] + y)[1..] == s[1..][..n - 1] + y;
      TagRunSwap(s[1..], y);
    } else {
      assert s[..0] + y == y;
    }
  }

  lemma {:induction false} WordRunSwap(s: string, y: string)
    requires y == "" || !IsWordChar(y[0])
    ensures WordRun(s[..WordRun(s)] + y) == WordRun(s)
    decreases |s|
  {
    var n := WordRun(s);
    if n > 0 {
      assert (s[..n] + y)[1..] == s[1..][..n - 1] + y;
      WordRunSwap(s[1..], y);
    } else {
      assert s[..0] + y == y;
    }
  }

  // `y` may stand where `x` stood after a form: nothing, a space, or something
  // with the same first character.
  predicate MayFollow(x: string, y: string) {
    y == "" || y[0] == ' ' || (x != "" && y[0] == x[0])
  }

  // What a code form may read ahead of itself, unchanged from `x` to `y`: one
  // character, two after an `&`, and a whole tag name after a `$`.
  predicate ReadsAlike(x: string, y: string) {
    && MayFollow(x, y)
    && (x != "" && x[0] == '&' && y != "" && y[0] == '&' ==> MayFollow(x[1..], y[1..]))
    && (TagLength("$" + x).None? ==> TagLength("$" + y).None?)
  }

  lemma {:induction false} CodeSwap(s: string, y: string)
    requires s != "" && FormAt(s).kind == Code
    requires ReadsAlike(s[FormAt(s).len..], y)
    ensures FormAt(s[..FormAt(s).len] + y) == FormAt(s)
  {
    hide QuotedEnd, EscapeEnd, BlockEnd, DollarEnd, WordRun, TagLength, LineEnd;
    var f := FormAt(s);
    var x, t := s[f.len..], s[..f.len] + y;
    assert t[0] == s[0];
    if s[0] == '$' {
      assert s[..1] == "$" && s == "$" + x;
    } else if IsWordStart(s[0]) {
      WordSwap(s, y);
    } else {
      assert |s| > 1 ==> s[1] == x[0];
      assert |t| > 1 ==> t[1] == y[0];
    }
  }

  lemma {:induction false} WordSwap(s: string, y: string)
    requires s != "" && IsWordStart(s[0]) && WordForm(s).kind == Code
    requires ReadsAlike(s[WordForm(s).len..], y)
    ensures WordForm(s[..WordForm(s).len] + y) == WordForm(s)
  {
    hide QuotedEnd, EscapeEnd, WordRun, TagLength;
    var n := WordRun(s);
    var x, t := s[n..], s[..n] + y;
    WordRunSwap(s, y);
    assert t[n..] == y && t[0] == s[0];
    if StartsWith(y, "&") && |y| > 1 && x != "" && x[0] == '&' {
      assert y[1..][0] == y[1] && (|x| > 1 ==> x[1..][0] == x[1]);
    }
  }

  lemma {:induction false} QuotedFollow(body: string, quote: char, y: string)
    requires quote != ' ' && QuotedEnd(body, quote).closed
    requires MayFollow(body[QuotedEnd(body, quote).len..], y)
    ensures QuotedEnd(body[..QuotedEnd(body, quote).len] + y, quote) == QuotedEnd(body, quote)
  {
    QuotedStops(body, quote);
    QuotedSwap(body, quote, y);
  }

  lemma {:induction false} LiteralSwap(s: string, y: string)
    requires s != "" && FormAt(s).kind in {Literal, Identifier, Dollar} && FormAt(s).closed
    requires MayFollow(s[FormAt(s).len..], y)
    ensures FormAt(s[..FormAt(s).len] + y) == FormAt(s)
  {
    hide QuotedEnd, EscapeEnd, BlockEnd, DollarEnd, WordRun, TagLength, LineEnd, WordForm;
    var n := FormAt(s).len;
    var t := s[..n] + y;
    assert t[0] == s[0];
    if s[0] == '\'' || s[0] == '"' {
      assert t[1..] == s[1..][..n - 1] + y;
      assert s[1..][n - 1..] == s[n..];
      QuotedFollow(s[1..], s[0], y);
    } else if s[0] == '$' {
      DollarSwap(s, y);
    } else {
      assert !StartsWith(s, "--") && !StartsWith(s, "/*");
      assert s[0] != '-' && s[0] != '/' && FormAt(s) == WordForm(s);
      PrefixSwap(s, y);
    }
  }

  lemma {:induction false} DollarSwap(s: string, y: string)
    requires s != "" && s[0] == '$' && FormAt(s).kind == Dollar && FormAt(s).closed
    ensures FormAt(s[..FormAt(s).len] + y) == FormAt(s)
  {
    hide TagLength, DollarEnd;
    var n, k := FormAt(s).len, TagLength(s).value;
    var t := s[..n] + y;
    DollarReach(s);
    KeptBehind(s, k, n, y);
    assert t[..k] == s[..k];
    TagAhead(s, t);
    DollarEndSwap(s, n, k, y);
    assert t[0] == s[0];
  }

  lemma {:induction false} DollarReach(s: string)
    requires s != "" && s[0] == '$' && FormAt(s).kind == Dollar && FormAt(s).closed
    ensures TagLength(s).Some?
    ensures
      var k := TagLength(s).value;
      FormAt(s) == FormOf(Dollar, k, DollarEnd(s[k..], s[..k]))
  {
    hide TagLength, DollarEnd;
  }

  lemma {:induction false} DollarEndSwap(s: string, n: nat, k: nat, y: string)
    requires 0 < k <= n <= |s|
    requires DollarEnd(s[k..], s[..k]) == End(n - k, true)
    ensures DollarEnd(s[k..][..n - k] + y, s[..k]) == End(n - k, true)
  {
    hide Find;
    FindSwap(s[k..], s[..k], n - k, y);
  }

  lemma {:induction false} TagAhead(s: string, t: string)
    requires TagLength(s).Some? && |t| >= TagLength(s).value
    requires t[..TagLength(s).value] == s[..TagLength(s).value]
    ensures TagLength(t) == TagLength(s)
  {
    hide TagRun;
    var k := TagLength(s).value;
    var m := NameLength(s[1..]);
    assert forall i :: 0 <= i < k ==> t[i] == t[..k][i] == s[..k][i];
    assert t[0] == s[0] && t[k - 1] == s[k - 1];
    if m > 0 {
      NameAhead(s[1..], t[1..], m);
    }
  }

  lemma {:induction false} NameAhead(s: string, t: string, m: nat)
    requires TagRun(s) == m && m < |t| && t[m] == '$' && forall i :: 0 <= i < m ==> t[i] == s[i]
    ensures TagRun(t) == m
  {
    hide TagRun;
    assert t == s[..m] + t[m..];
    TagRunSwap(s, t[m..]);
  }

  lemma {:induction false} OneLetterRun(s: string)
    requires |s| > 1 && IsWordStart(s[0]) && !IsWordChar(s[1])
    ensures WordRun(s) == 1
  {
  }

  // A literal or identifier with a prefix letter: where its body starts.
  lemma {:induction false} PrefixedBody(s: string)
    requires |s| > 1 && IsWordStart(s[0]) && !IsWordChar(s[1])
    ensures WordForm(s).kind in {Literal, Identifier} ==> s[1] == '\'' || (|s| > 2 && s[1] == '&')
    ensures s[1] == '\'' && s[0] in "BbXxNn" ==>
      WordForm(s) == FormOf(Literal, 2, QuotedEnd(s[2..], '\''))
    ensures s[1] == '\'' && WordForm(s).kind in {Literal, Identifier} ==> s[0] in "BbXxNn"
    ensures |s| > 2 && s[1] == '&' && s[2] == '\'' && s[0] in "Uu" ==>
      WordForm(s) == FormOf(Literal, 3, QuotedEnd(s[3..], '\''))
    ensures |s| > 2 && s[1] == '&' && s[2] == '"' && s[0] in "Uu" ==>
      WordForm(s) == FormOf(Identifier, 3, QuotedEnd(s[3..], '"'))
    ensures s[1] == '&' && WordForm(s).kind in {Literal, Identifier} ==>
      s[0] in "Uu" && |s| > 2 && (s[2] == '\'' || s[2] == '"')
  {
    hide QuotedEnd, EscapeEnd, WordRun;
    OneLetterRun(s);
    var rest := s[1..];
    assert rest[1..] == s[2..] && (|s| > 2 ==> rest[2..] == s[3..] && rest[1] == s[2]);
  }

  lemma {:induction false} PrefixedIsApart(s: string)
    requires s != "" && IsWordStart(s[0]) && WordForm(s).kind in {Literal, Identifier}
    ensures |s| > 1 && !IsWordChar(s[1])
  {
    hide QuotedEnd, EscapeEnd;
  }

  lemma {:induction false} PrefixSwap(s: string, y: string)
    requires s != "" && IsWordStart(s[0])
    requires WordForm(s).kind in {Literal, Identifier} && WordForm(s).closed
    requires MayFollow(s[WordForm(s).len..], y)
    ensures WordForm(s[..WordForm(s).len] + y) == WordForm(s)
  {
    hide QuotedEnd, WordForm, IsWordChar, IsWordStart, MayFollow;
    PrefixedIsApart(s);
    PrefixedBody(s);
    var n, k := WordForm(s).len, if s[1] == '\'' then 2 else 3;
    var t := s[..n] + y;
    assert t[0] == s[0] && t[1] == s[1] && t[k - 1] == s[k - 1];
    PrefixedBody(t);
    KeptBehind(s, k, n, y);
    assert s[k..][n - k..] == s[n..];
    QuotedFollow(s[k..], s[k - 1], y);
  }

  lemma {:induction false} EscapeSwap(s: string, y: string)
    requires OpensEscape(s) && FormAt(s).closed && MayFollow(s[FormAt(s).len..], y)
    requires !Carries(s[..FormAt(s).len] + y)
    ensures !Carries(s) && FormAt(s[..FormAt(s).len] + y) == FormAt(s)
  {
    hide FormAt, EscapeEnd, Straight;
    EscapeForm(s);
    var body, n := s[2..], FormAt(s).len;
    var t := s[..n] + y;
    EscapeStops(body);
    assert t[2..] == body[..n - 2] + y && t[0] == s[0] && t[1] == s[1] && body[n - 2..] == s[n..];
    StraightSwap(body, y);
    EscapeForm(t);
  }

  // ----- a comment's space -----

  lemma {:induction false} UncommentFollows(x: string)
    ensures MayFollow(x, Uncomment(x))
    ensures x == "" <==> Uncomment(x) == ""
    ensures x != "" && !IsComment(FormAt(x).kind) ==> Uncomment(x)[0] == x[0]
    ensures x != "" && IsComment(FormAt(x).kind) ==> Uncomment(x)[0] == ' '
  {
    hide FormAt;
  }

  lemma {:induction false} UncommentReadsAlike(x: string)
    ensures ReadsAlike(x, Uncomment(x))
  {
    var y := Uncomment(x);
    UncommentFollows(x);
    if x != "" && x[0] == '&' && y != "" && y[0] == '&' {
      assert FormAt(x) == Form(Code, 1, true);
      assert y[1..] == Uncomment(x[1..]);
      UncommentFollows(x[1..]);
    }
    if TagLength("$" + x).None? {
      UncommentNoTag(x);
    }
  }

  lemma {:induction false} UncommentNoTag(x: string)
    requires TagLength("$" + x).None?
    ensures TagLength("$" + Uncomment(x)).None?
  {
    hide Uncomment, FormAt, TagRun, WordRun;
    var y := Uncomment(x);
    UncommentFollows(x);
    assert ("$" + x)[1..] == x && ("$" + y)[1..] == y;
    if x != "" && IsWordStart(x[0]) {
      UncommentKeepsName(x);
    }
  }

  lemma {:induction false} UncommentKeepsName(x: string)
    requires x != "" && IsWordStart(x[0]) && (TagRun(x) < |x| ==> x[TagRun(x)] != '$')
    ensures
      var y, m := Uncomment(x), TagRun(x);
      y != "" && y[0] == x[0] && TagRun(y) == m && (m < |y| ==> y[m] != '$')
  {
    hide FormAt, TagRun, WordRun;
    var m, f := TagRun(x), FormAt(x);
    RunsAgree(x);
    WordHead(x);
    var tail := Uncomment(x[f.len..]);
    UncommentFollows(x[f.len..]);
    var y := Uncomment(x);
    assert y == x[..f.len] + tail;
    assert y == x[..m] + y[m..];
    assert m < |y| ==> !IsWordChar(y[m]);
    TagRunSwap(x, y[m..]);
  }

  lemma {:induction false} WordHead(x: string)
    requires x != "" && IsWordStart(x[0])
    ensures 0 < WordRun(x) <= FormAt(x).len && !IsComment(FormAt(x).kind)
  {
    hide QuotedEnd, EscapeEnd;
  }

  // A word that runs into no `$` is no longer than its tag name.
  lemma {:induction false} RunsAgree(x: string)
    requires TagRun(x) < |x| ==> x[TagRun(x)] != '$'
    ensures WordRun(x) == TagRun(x)
    decreases |x|
  {
    if x != "" && IsTagChar(x[0]) {
      RunsAgree(x[1..]);
    }
  }

  // Every form but a comment is still there, and a comment is one blank.
  lemma {:induction false} UncommentStep(s: string)
    requires s != "" && !Carries(Uncomment(s))
    ensures
      var f := FormAt(s);
      var u, y := Uncomment(s), Uncomment(s[f.len..]);
      if IsComment(f.kind) then
        u == " " + y && u[1..] == y && FormAt(u) == Form(Code, 1, true)
      else
        FormAt(u) == f && u[..f.len] == s[..f.len] && u[f.len..] == y
  {
    var f := FormAt(s);
    var x := s[f.len..];
    var y := Uncomment(x);
    EscapeForm(s);
    hide FormAt, Carries;
    UncommentOnce(s);
    if IsComment(f.kind) {
      SpaceIsCode(y);
    } else if !f.closed {
      assert x == "" && s[..f.len] + y == s;
    } else {
      UncommentReadsAlike(x);
      if f.kind == Code {
        CodeSwap(s, y);
      } else if f.kind == EscapeString {
        EscapeSwap(s, y);
      } else {
        LiteralSwap(s, y);
      }
    }
  }

  // A form of a calm text, comments replaced, is the form or a blank; and what
  // follows is calm.
  lemma {:induction false} CalmStep(s: string)
    requires s != "" && Calm(s)
    ensures !Carries(Uncomment(s)) && Calm(s[FormAt(s).len..])
  {
    hide FormAt, Carries;
    UncommentFollows(s);
    UncommentStep(s);
  }

  lemma {:induction false} PlainIsCalm(s: string)
    requires Plain(s)
    ensures Calm(s)
    decreases |s|
  {
    hide FormAt, Plain, Straight;
    if s != "" {
      var f, u := FormAt(s), Uncomment(s);
      PlainStep(s);
      UncommentFollows(s);
      PlainOpensNone(s);
      UncommentStep(s);
      PlainIsCalm(s[f.len..]);
    }
  }

  lemma {:induction false} PlainOpensNone(s: string)
    requires s != "" && FormAt(s).kind != EscapeString
    ensures !OpensEscape(Uncomment(s))
  {
    var f, y := FormAt(s), Uncomment(s[FormAt(s).len..]);
    UncommentFollows(s);
    UncommentFollows(s[f.len..]);
    EscapeForm(s);
    hide FormAt, Uncomment;
    UncommentOnce(s);
  }

  lemma {:induction false} SpaceIsCode(y: string)
    ensures FormAt(" " + y) == Form(Code, 1, true)
  {
  }

  ghost predicate NoComments(segs: seq<Segment>) {
    forall seg <- segs :: !IsComment(seg.kind)
  }

  lemma {:induction false} PrependKinds(f: Form, text: string, segs: seq<Segment>)
    requires text != ""
    ensures
      (forall seg <- Prepend(f, text, segs) :: seg.kind != EscapeString) <==>
      f.kind != EscapeString && forall seg <- segs :: seg.kind != EscapeString
    ensures NoComments(Prepend(f, text, segs)) <==> !IsComment(f.kind) && NoComments(segs)
    ensures
      HasCode(Prepend(f, text, segs)) <==>
      (!IsComment(f.kind) && !Blank(text)) || HasCode(segs)
  {
    var all := Prepend(f, text, segs);
    if f.kind == Code && segs != [] && segs[0].kind == Code {
      assert forall seg :: seg in all <==> seg == all[0] || seg in segs[1..];
      assert forall seg :: seg in segs <==> seg == segs[0] || seg in segs[1..];
      assert all[0].text == text + segs[0].text;
      assert Blank(all[0].text) <==> Blank(text) && Blank(segs[0].text) by {
        assert forall c :: c in all[0].text <==> c in text || c in segs[0].text;
      }
    } else {
      assert all == [all[0]] + segs;
      assert forall seg :: seg in all <==> seg == all[0] || seg in segs;
    }
  }

  // A text with its comments replaced has none, keeps its code, and is left as
  // it is by another replacing.
  lemma {:induction false} UncommentLeavesNone(s: string)
    requires Calm(s)
    ensures
      var u := Uncomment(s);
      NoComments(Lex(u)) && Uncomment(u) == u && (HasCode(Lex(u)) <==> HasCode(Lex(s)))
    decreases |s|
  {
    hide FormAt, Blank, HasCode, Calm;
    if s != "" {
      var f, u := FormAt(s), Uncomment(s);
      CalmStep(s);
      UncommentStep(s);
      UncommentLeavesNone(s[f.len..]);
      PrependKinds(f, s[..f.len], Lex(s[f.len..]));
      var g := FormAt(u);
      assert u != "" && u[g.len..] == Uncomment(s[f.len..]);
      PrependKinds(g, u[..g.len], Lex(u[g.len..]));
      assert IsComment(f.kind) ==> Blank(u[..g.len]) by {
        OneSpace(u);
      }
    }
  }

  lemma {:induction false} OneSpace(u: string)
    requires u != ""
    ensures u[0] == ' ' ==> Blank(u[..1])
  {
  }

  // Replacing comments and cutting at a `;` in code commute.
  lemma {:induction false} UncommentCut(s: string)
    requires Calm(s)
    ensures CutAlike(s)
    decreases |s|
  {
    hide *;
    if s == "" {
      NothingCut();
    } else if s[0] == ';' {
      CutAtOnce(s);
    } else {
      CalmStep(s);
      UncommentCut(s[FormAt(s).len..]);
      CutGoesOn(s);
    }
  }

  // Replaced, the text is cut where it was.
  ghost predicate CutAlike(s: string) {
    var k, u := FirstCut(s), Uncomment(s);
    if k == |s| then FirstCut(u) == |u|
    else
      && FirstCut(u) == |Uncomment(s[..k])|
      && u == Uncomment(s[..k]) + ";" + Uncomment(s[k + 1..])
  }

  lemma {:induction false} NothingCut()
    ensures CutAlike("")
  {
  }

  lemma {:induction false} CutGoesOn(s: string)
    requires s != "" && s[0] != ';' && Calm(s) && CutAlike(s[FormAt(s).len..])
    ensures CutAlike(s)
  {
    hide FormAt, Calm, Uncomment, FirstCut, Replacement;
    CutStep(s);
    if FirstCut(s) < |s| {
      CutHead(s);
      var tail := s[FormAt(s).len..];
      var j := FirstCut(tail);
      SameTail(s, FormAt(s).len, j + 1);
      AppendThree(Replacement(s), Uncomment(tail[..j]), Uncomment(tail[j + 1..]));
    }
  }

  lemma {:induction false} SameTail(s: string, n: nat, m: nat)
    requires n + m <= |s|
    ensures s[n..][m..] == s[n + m..]
  {
  }

  lemma {:induction false} CutAtOnce(s: string)
    requires s != "" && s[0] == ';'
    ensures CutAlike(s)
  {
    SemicolonIsCode(s);
    UncommentOnce(s);
    hide FormAt, Uncomment;
    assert s[..1] == ";" && s[..0] == "" && Replacement(s) == ";";
    NothingUncommented();
    CutFirst(s);
    CutFirst(Uncomment(s));
    assert "" + ";" + Uncomment(s[1..]) == ";" + Uncomment(s[1..]);
  }

  lemma {:induction false} NothingUncommented()
    ensures Uncomment("") == ""
  {
  }

  lemma {:induction false} CutFirst(s: string)
    requires s != "" && s[0] == ';'
    ensures FirstCut(s) == 0
  {
  }

  function Replacement(s: string): string
    requires s != ""
  {
    if IsComment(FormAt(s).kind) then " " else s[..FormAt(s).len]
  }

  lemma {:induction false} AppendThree(a: string, b: string, c: string)
    ensures a + (b + ";" + c) == a + b + ";" + c
  {
  }

  lemma {:induction false} UncommentOnce(s: string)
    requires s != ""
    ensures Uncomment(s) == Replacement(s) + Uncomment(s[FormAt(s).len..])
  {
    hide FormAt;
  }

  lemma {:induction false} CutStep(s: string)
    requires s != "" && s[0] != ';' && Calm(s)
    ensures
      var f := FormAt(s);
      var tail, u := s[f.len..], Uncomment(s);
      && FirstCut(s) == f.len + FirstCut(tail)
      && u == Replacement(s) + Uncomment(tail)
      && FirstCut(u) == |Replacement(s)| + FirstCut(Uncomment(tail))
  {
    hide FormAt, Calm;
    CalmStep(s);
    UncommentStep(s);
    UncommentHead(s);
  }

  // The text before the first cut opens with the same form.
  lemma {:induction false} CutHead(s: string)
    requires s != "" && s[0] != ';' && FirstCut(s) < |s|
    ensures
      var k, f := FirstCut(s), FormAt(s);
      f.len <= k && Uncomment(s[..k]) == Replacement(s) + Uncomment(s[f.len..][..k - f.len])
  {
    hide FormAt, Uncomment, FirstCut;
    var k, f := FirstCut(s), FormAt(s);
    LexOnce(s);
    FormCut(s, k);
    UncommentOnce(s[..k]);
    assert s[..k][f.len..] == s[f.len..][..k - f.len] && s[..k][..f.len] == s[..f.len];
  }

  // The first form of the replaced text reads no `;`.
  lemma {:induction false} UncommentHead(s: string)
    requires s != "" && s[0] != ';'
    ensures Uncomment(s) != "" && Uncomment(s)[0] != ';'
  {
    UncommentFollows(s);
    hide FormAt, Uncomment;
  }

  // Both sides of the first cut of a calm text are calm.
  lemma {:induction false} CalmParts(s: string)
    requires Calm(s)
    ensures
      var k := FirstCut(s);
      Calm(s[..k]) && (k < |s| ==> Calm(s[k + 1..]))
  {
    hide Uncomment, Uncontinued, FirstCut;
    var k, u := FirstCut(s), Uncomment(s);
    UncommentCut(s);
    UncontinuedCut(u);
    if k == |s| {
      assert s[..k] == s;
    } else {
      var head, tail := Uncomment(s[..k]), Uncomment(s[k + 1..]);
      assert u[..|head|] == head && u[|head| + 1..] == tail;
    }
  }
}
