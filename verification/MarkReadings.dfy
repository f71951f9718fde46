// What the lexer says of a text, read off its marks: its shape, whether it holds
// code or a comment, and whether a `;` cuts it.

module MarkReadings {
  import opened Chars
  import opened SqlLexer
  import opened Splitter
  import opened LexerLaws
  import opened Normalizer
  import opened Escapes
  import opened Uncommenting
  import opened Marks

  // Code read just before a text of the given shape.
  function AddCode(shape: seq<(Kind, bool)>): seq<(Kind, bool)> {
    if shape != [] && shape[0].0 == Code then shape else [(Code, true)] + shape
  }

  function ShapeRead(marks: seq<Mark>): seq<(Kind, bool)> {
    if marks == [] then []
    else
      var rest := ShapeRead(marks[1..]);
      if marks[0].opens then [(marks[0].kind, marks[0].closed)] + rest
      else if marks[0].kind == Code then AddCode(rest)
      else rest
  }

  predicate CodeRead(marks: seq<Mark>) {
    exists mark <- marks :: !IsComment(mark.kind)
  }

  predicate CommentRead(marks: seq<Mark>) {
    exists mark <- marks :: IsComment(mark.kind)
  }

  predicate CutRead(marks: seq<Mark>) {
    exists mark <- marks :: mark.c == ';' && mark.kind == Code
  }

  lemma {:induction false} ShapePrepend(f: Form, text: string, segs: seq<Segment>)
    requires text != "" && Partition(segs) && (f.kind == Code ==> f.closed)
    ensures
      Shape(Prepend(f, text, segs)) ==
      if f.kind != Code then [(f.kind, f.closed)] + Shape(segs)
      else if Blank(text) then Shape(segs)
      else AddCode(Shape(segs))
  {
    var all := Prepend(f, text, segs);
    if f.kind == Code && segs != [] && segs[0].kind == Code {
      assert all[1..] == segs[1..];
      assert forall c :: c in all[0].text <==> c in text || c in segs[0].text;
      assert |segs| > 1 ==> segs[1..][0] == segs[1];
    } else {
      assert all[1..] == segs;
    }
  }

  // ----- one form -----

  lemma {:induction false} InnerShape(kind: Kind, text: string, marks: seq<Mark>)
    ensures
      ShapeRead(Inner(kind, text) + marks) ==
      if kind != Code || Blank(text) then ShapeRead(marks) else AddCode(ShapeRead(marks))
  {
    hide IsSpace;
    if text == "" {
      assert Inner(kind, text) + marks == marks;
    } else {
      var rest := Inner(kind, text[1..]) + marks;
      InnerShape(kind, text[1..], marks);
      BlankHead(text);
      hide Blank;
      if IsSpace(text[0]) {
        assert Inner(kind, text) == Inner(kind, text[1..]);
      } else {
        InFront(Mark(text[0], kind, false, true), Inner(kind, text[1..]), marks);
      }
    }
  }

  lemma {:induction false} BlankHead(text: string)
    requires text != ""
    ensures Blank(text) <==> IsSpace(text[0]) && Blank(text[1..])
  {
    hide IsSpace;
    assert forall c :: c in text <==> c == text[0] || c in text[1..];
  }

  lemma {:induction false} InFront<T>(x: T, a: seq<T>, b: seq<T>)
    ensures
      var all := [x] + a + b;
      all != [] && all[0] == x && all[1..] == a + b
  {
  }

  lemma {:induction false} OuterShape(f: Form, text: string, marks: seq<Mark>)
    requires text != ""
    ensures
      ShapeRead(Outer(f, text) + marks) ==
      if f.kind != Code then [(f.kind, f.closed)] + ShapeRead(marks)
      else if Blank(text) then ShapeRead(marks)
      else AddCode(ShapeRead(marks))
  {
    hide Blank, AddCode;
    if f.kind == Code {
      InnerShape(Code, text, marks);
    } else {
      InnerShape(f.kind, text[1..], marks);
      InFront(Mark(text[0], f.kind, true, f.closed), Inner(f.kind, text[1..]), marks);
    }
  }

  // The characters of one form, all of its kind.
  lemma {:induction false} InnerKinds(kind: Kind, text: string)
    ensures forall mark <- Inner(kind, text) :: mark.kind == kind && mark.c in text
    ensures Inner(kind, text) == [] <==> Blank(text)
  {
    hide IsSpace;
    if text != "" {
      BlankHead(text);
      hide Blank;
      InnerKinds(kind, text[1..]);
    }
  }

  lemma {:induction false} OuterKinds(f: Form, text: string)
    requires text != ""
    ensures forall mark <- Outer(f, text) :: mark.kind == f.kind && mark.c in text
    ensures Outer(f, text) == [] <==> f.kind == Code && Blank(text)
  {
    hide Blank;
    if f.kind == Code {
      InnerKinds(Code, text);
    } else {
      InnerKinds(f.kind, text[1..]);
    }
  }

  lemma {:induction false} ReadTogether(a: seq<Mark>, b: seq<Mark>)
    ensures CodeRead(a + b) <==> CodeRead(a) || CodeRead(b)
    ensures CommentRead(a + b) <==> CommentRead(a) || CommentRead(b)
    ensures CutRead(a + b) <==> CutRead(a) || CutRead(b)
  {
    assert forall mark :: mark in a + b <==> mark in a || mark in b;
  }

  // The first character of a quoted form is no whitespace.
  lemma {:induction false} FormIsSolid(s: string)
    requires s != "" && FormAt(s).kind != Code && !IsComment(FormAt(s).kind)
    ensures !Blank(s[..FormAt(s).len])
  {
    QuoteHeads(s);
    hide FormAt, IsSpace;
    assert s[..FormAt(s).len][0] == s[0];
  }

  // ----- the whole text -----

  // All that the rest of the proofs read off the marks.
  ghost predicate Told(s: string) {
    var marks := MarksOf(s);
    && Shape(Lex(s)) == ShapeRead(marks)
    && (HasCode(Lex(s)) <==> CodeRead(marks))
    && (NoComments(Lex(s)) <==> !CommentRead(marks))
    && (FirstCut(s) == |s| <==> !CutRead(marks))
  }

  lemma {:induction false} NothingTold()
    ensures Told("")
  {
  }

  lemma {:induction false} MarksTell(s: string)
    ensures Told(s)
    decreases |s|
  {
    hide FormAt, Told;
    if s == "" {
      NothingTold();
    } else {
      MarksTell(s[FormAt(s).len..]);
      OneMoreTold(s);
    }
  }

  lemma {:induction false} OneMoreTold(s: string)
    requires s != "" && Told(s[FormAt(s).len..])
    ensures Told(s)
  {
    hide FormAt, Lex, MarksOf, Shape, ShapeRead, HasCode, NoComments, FirstCut, CodeRead, CommentRead, CutRead;
    hide Outer, Blank;
    FormTold(s);
    CutTold(s);
    HeadMarks(s);
    LexOnce(s);
  }

  lemma {:induction false} FormTold(s: string)
    requires s != "" && Told(s[FormAt(s).len..])
    ensures
      var f := FormAt(s);
      var text, rest := s[..f.len], s[f.len..];
      var segs, marks := Prepend(f, text, Lex(rest)), Outer(f, text) + MarksOf(rest);
      && Shape(segs) == ShapeRead(marks)
      && (HasCode(segs) <==> CodeRead(marks))
      && (NoComments(segs) <==> !CommentRead(marks))
  {
    hide FormAt, Lex, MarksOf, Shape, ShapeRead, HasCode, NoComments, FirstCut;
    hide Outer, Blank, Prepend;
    var f := FormAt(s);
    var text, rest := s[..f.len], s[f.len..];
    LexIsPartition(rest);
    CodeIsClosed(s);
    ShapePrepend(f, text, Lex(rest));
    OuterShape(f, text, MarksOf(rest));
    PrependKinds(f, text, Lex(rest));
    ReadTogether(Outer(f, text), MarksOf(rest));
    OuterKinds(f, text);
    if f.kind != Code && !IsComment(f.kind) {
      FormIsSolid(s);
    }
    if Outer(f, text) != [] {
      assert Outer(f, text)[0] in Outer(f, text);
    }
  }

  lemma {:induction false} CodeIsClosed(s: string)
    requires s != ""
    ensures FormAt(s).kind == Code ==> FormAt(s).closed
  {
    hide QuotedEnd, EscapeEnd, BlockEnd, DollarEnd, TagLength, LineEnd, WordRun;
  }

  lemma {:induction false} CutTold(s: string)
    requires s != "" && Told(s[FormAt(s).len..])
    ensures
      var f := FormAt(s);
      FirstCut(s) == |s| <==> !CutRead(Outer(f, s[..f.len]) + MarksOf(s[f.len..]))
  {
    hide FormAt, Lex, MarksOf, Shape, ShapeRead, HasCode, NoComments, FirstCut, CodeRead, CommentRead;
    var f := FormAt(s);
    var text, rest := s[..f.len], s[f.len..];
    ReadTogether(Outer(f, text), MarksOf(rest));
    LexOnce(s);
    if s[0] == ';' {
      SemicolonIsCode(s);
      CutAtSemicolon(s);
      SemicolonMarks(text);
    } else {
      hide Outer, CutRead;
      OneFormUncut(s);
    }
  }

  lemma {:induction false} SemicolonMarks(text: string)
    requires text != "" && text[0] == ';'
    ensures Inner(Code, text) != [] && Inner(Code, text)[0] == Mark(';', Code, false, true)
  {
  }

  lemma {:induction false} OneFormUncut(s: string)
    requires s != "" && s[0] != ';'
    ensures !CutRead(Outer(FormAt(s), s[..FormAt(s).len]))
  {
    var f := FormAt(s);
    OuterKinds(f, s[..f.len]);
    if f.kind == Code {
      CodeFormIsWord(s);
      hide FormAt, Outer;
      forall c | c in s[..f.len] ensures c != ';' {
        SemicolonInNoWord();
      }
    }
  }

  lemma {:induction false} SemicolonInNoWord()
    ensures !IsWordChar(';')
  {
  }

  // ----- comments replaced -----

  // Only a string carried on leaves a comment behind.
  lemma {:induction false} UncommentIsBare(s: string)
    ensures Bare(Uncomment(s))
    decreases |s|
  {
    hide FormAt, Carries;
    if s != "" {
      var u := Uncomment(s);
      UncommentIsBare(s[FormAt(s).len..]);
      UncommentFollows(s);
      if Carries(u) {
        CarriedIsBare(u);
      } else {
        UncommentStep(s);
      }
    }
  }

  lemma {:induction false} CarriedIsBare(u: string)
    requires Carries(u)
    ensures Bare(u)
  {
    hide FormAt, Straight;
    EscapeForm(u);
  }

  // ----- ordinary texts -----

  // No character is both whitespace and part of a word. A no-break space, for
  // one, is both to the two patterns involved.
  predicate Unmixed(s: string) {
    forall c <- s :: !(IsSpace(c) && IsWordChar(c))
  }

  lemma {:induction false} UnmixedTail(s: string, n: nat)
    requires Unmixed(s) && n <= |s|
    ensures Unmixed(s[n..])
  {
  }

  lemma {:induction false} UnmixedIsSteady(s: string)
    requires Unmixed(s)
    ensures Steady(s)
    decreases |s|
  {
    hide FormAt, SteadyHead, Unmixed;
    if s != "" {
      UnmixedTail(s, FormAt(s).len);
      UnmixedIsSteady(s[FormAt(s).len..]);
      UnmixedHeadIsSteady(s);
    }
  }

  lemma {:induction false} UnmixedHeadIsSteady(s: string)
    requires s != "" && Unmixed(s)
    ensures SteadyHead(s)
  {
    if FormAt(s).kind == Dollar {
      UnmixedTag(s);
    } else if FormAt(s).kind == Code && IsWordStart(s[0]) {
      WordRunForm(s);
      UnmixedWord(s);
    } else if FormAt(s).kind == Code {
      hide FormAt, SteadyHead;
      CharacterDecides(s);
    }
  }

  lemma {:induction false} UnmixedTag(s: string)
    requires s != "" && FormAt(s).kind == Dollar && Unmixed(s)
    ensures SteadyHead(s)
  {
    DollarForm(s);
    hide FormAt, TagLength, IsSpace, IsWordChar;
    var k := TagLength(s).value;
    assert forall i :: 0 <= i < k ==> IsWordChar(s[i]);
    UnmixedRun(s, k);
  }

  lemma {:induction false} UnmixedWord(s: string)
    requires s != "" && FormAt(s).kind == Code && FormAt(s).len == WordRun(s) && Unmixed(s)
    ensures SteadyHead(s)
  {
    hide FormAt, IsSpace, IsWordChar;
    var n := FormAt(s).len;
    assert forall i :: 0 <= i < n ==> IsWordChar(s[i]);
    UnmixedRun(s, n);
    assert Spaced(s[..n]) == s[..n];
    assert Spaced(s[..n]) + s[n..] == s;
    assert StaysCode(s[n..], 0);
  }

  lemma {:induction false} UnmixedRun(s: string, n: nat)
    requires Unmixed(s) && n <= |s| && forall i :: 0 <= i < n ==> IsWordChar(s[i])
    ensures forall i :: 0 <= i < n ==> !IsSpace(s[i])
  {
    hide IsSpace, IsWordChar;
    forall i | 0 <= i < n ensures !IsSpace(s[i]) {
      assert s[i] in s;
    }
  }

  // Replacing comments brings in no character but the space.
  lemma {:induction false} UncommentAddsSpaces(s: string)
    ensures forall c <- Uncomment(s) :: c == ' ' || c in s
    decreases |s|
  {
    hide FormAt;
    if s != "" {
      UncommentAddsSpaces(s[FormAt(s).len..]);
    }
  }
}
