// Laws of the lexer: it partitions its input, and cutting a text at a `;` in
// code cuts its segments at the same place.

module LexerLaws {
  import opened Chars
  import opened SqlLexer
  import opened Splitter

  // ----- a lossless partition -----

  ghost predicate Partition(segs: seq<Segment>) {
    && (forall i :: 0 <= i < |segs| ==> segs[i].text != "")
    && (forall i :: 0 <= i < |segs| - 1 ==> segs[i].kind != Code || segs[i + 1].kind != Code)
    && (forall i :: 0 <= i < |segs| && !segs[i].closed ==>
          i == |segs| - 1 && segs[i].kind !in {Code, LineComment})
  }

  lemma {:induction false} LexIsPartition(s: string)
    ensures Text(Lex(s)) == s && Partition(Lex(s))
    decreases |s|
  {
    hide FormAt;
    if s != "" {
      var f := FormAt(s);
      var rest := Lex(s[f.len..]);
      LexIsPartition(s[f.len..]);
      assert s[..f.len] + s[f.len..] == s;
      if f.kind == Code {
        PrependCodePartition(s[..f.len], rest);
      } else {
        var segs := Prepend(f, s[..f.len], rest);
        assert segs[1..] == rest;
        if !f.closed {
          assert s[f.len..] == "";
        }
      }
    }
  }

  lemma {:induction false} PrependCodePartition(text: string, segs: seq<Segment>)
    requires text != "" && Partition(segs)
    ensures Partition(PrependCode(text, segs))
    ensures Text(PrependCode(text, segs)) == text + Text(segs)
  {
    var all := PrependCode(text, segs);
    if segs != [] && segs[0].kind == Code {
      assert all[1..] == segs[1..];
      assert text + segs[0].text + Text(segs[1..]) == text + Text(segs);
    } else {
      assert all[1..] == segs;
    }
  }

  // ----- truncation: text after the end of a form cannot move its end -----

  ghost predicate Agrees(whole: Option<nat>, cut: Option<nat>, k: nat) {
    && (whole.None? ==> cut.None?)
    && (whole.Some? && whole.value < k ==> cut == whole)
  }

  lemma {:induction false} LineEndCut(s: string, k: nat)
    requires k <= |s|
    ensures LineEnd(s[..k]) == if LineEnd(s) <= k then LineEnd(s) else k
  {
  }

  lemma {:induction false} AfterBreakCut(s: string, k: nat)
    requires k <= |s|
    ensures Agrees(AfterBreak(s), AfterBreak(s[..k]), k)
    decreases |s|, |s| + 1
  {
    hide CommentAfterBreak, LineEnd;
    if k > 0 {
      assert s[..k][1..] == s[1..][..k - 1];
      AfterBreakCut(s[1..], k - 1);
      if StartsWith(s, "--") && k >= 2 {
        assert s[..k][2..] == s[2..][..k - 2];
        LineEndCut(s[2..], k - 2);
        CommentAfterBreakCut(s, CommentReach(s), k);
      }
    }
  }

  function OrElse(a: Option<nat>, b: Option<nat>): Option<nat> {
    if a.Some? then a else b
  }

  lemma {:induction false} CommentAfterBreakTurn(s: string, stop: nat)
    requires 2 <= stop <= |s|
    ensures
      CommentAfterBreak(s, stop) ==
      OrElse(ShiftEnd(stop, AfterBreak(s[stop..])), if stop == 2 then None else CommentAfterBreak(s, stop - 1))
  {
    hide AfterBreak;
  }

  lemma {:induction false} CommentAfterBreakCut(s: string, stop: nat, k: nat)
    requires 2 <= stop <= |s| && 2 <= k <= |s|
    ensures
      Agrees(CommentAfterBreak(s, stop), CommentAfterBreak(s[..k], if stop <= k then stop else k), k)
    decreases |s|, stop
  {
    hide AfterBreak, CommentAfterBreak;
    CommentAfterBreakTurn(s, stop);
    if stop > 2 {
      CommentAfterBreakCut(s, stop - 1, k);
    }
    if stop <= k {
      assert s[..k][stop..] == s[stop..][..k - stop];
      AfterBreakCut(s[stop..], k - stop);
      CommentAfterBreakTurn(s[..k], stop);
    }
  }

  lemma {:induction false} BeforeBreakCut(s: string, k: nat)
    requires k <= |s|
    ensures Agrees(BeforeBreak(s), BeforeBreak(s[..k]), k)
    decreases |s|, |s| + 1
  {
    hide AfterBreak, CommentBeforeBreak, LineEnd;
    if k > 0 {
      assert s[..k][1..] == s[1..][..k - 1];
      if StartsWith(s, "--") && k >= 2 {
        ReachCut(s, k);
        CommentBeforeBreakCut(s, CommentReach(s), k);
      } else {
        BeforeBreakCut(s[1..], k - 1);
        AfterBreakCut(s[1..], k - 1);
      }
    }
  }

  lemma {:induction false} ReachCut(s: string, k: nat)
    requires StartsWith(s, "--") && 2 <= k <= |s|
    ensures StartsWith(s[..k], "--")
    ensures CommentReach(s[..k]) == if CommentReach(s) <= k then CommentReach(s) else k
  {
    assert s[..k][2..] == s[2..][..k - 2];
    LineEndCut(s[2..], k - 2);
  }

  lemma {:induction false} CommentBeforeBreakTurn(s: string, stop: nat)
    requires 2 <= stop <= |s|
    ensures
      CommentBeforeBreak(s, stop) ==
      OrElse(ShiftEnd(stop, BeforeBreak(s[stop..])), if stop == 2 then None else CommentBeforeBreak(s, stop - 1))
  {
    hide BeforeBreak;
  }

  lemma {:induction false} CommentBeforeBreakCut(s: string, stop: nat, k: nat)
    requires 2 <= stop <= |s| && 2 <= k <= |s|
    ensures
      Agrees(CommentBeforeBreak(s, stop), CommentBeforeBreak(s[..k], if stop <= k then stop else k), k)
    decreases |s|, stop
  {
    hide BeforeBreak, CommentBeforeBreak;
    CommentBeforeBreakTurn(s, stop);
    if stop > 2 {
      CommentBeforeBreakCut(s, stop - 1, k);
    }
    if stop <= k {
      assert s[..k][stop..] == s[stop..][..k - stop];
      BeforeBreakCut(s[stop..], k - stop);
      CommentBeforeBreakTurn(s[..k], stop);
    }
  }

  lemma {:induction false} QuotedCut(s: string, quote: char, k: nat)
    requires QuotedEnd(s, quote).len <= k < |s| && s[k] != quote
    ensures QuotedEnd(s[..k], quote) == QuotedEnd(s, quote)
    decreases |s|
  {
    if s[0] != quote {
      assert s[..k][1..] == s[1..][..k - 1];
      QuotedCut(s[1..], quote, k - 1);
    } else if |s| > 1 && s[1] == quote {
      assert s[..k][2..] == s[2..][..k - 2];
      QuotedCut(s[2..], quote, k - 2);
    }
  }

  lemma {:induction false} EscapeTurn(s: string)
    requires s != ""
    ensures s[0] == '\\' ==> EscapeEnd(s) == if |s| == 1 then End(1, false) else EscapeEnd(s[2..]).After(2)
    ensures s[0] != '\\' && s[0] != '\'' ==> EscapeEnd(s) == EscapeEnd(s[1..]).After(1)
    ensures s[0] == '\'' && |s| > 1 && s[1] == '\'' ==> EscapeEnd(s) == EscapeEnd(s[2..]).After(2)
    ensures s[0] == '\'' && (|s| == 1 || s[1] != '\'') ==>
      var continued := BeforeBreak(s[1..]);
      EscapeEnd(s) ==
      if continued.None? then End(1, true) else EscapeEnd(s[2 + continued.value..]).After(2 + continued.value)
  {
    hide BeforeBreak;
  }

  lemma {:induction false} EscapeCut(s: string, k: nat)
    requires EscapeEnd(s).len <= k < |s| && s[k] != '\''
    ensures EscapeEnd(s[..k]) == EscapeEnd(s)
    decreases |s|, 1
  {
    hide BeforeBreak, EscapeEnd;
    var t := s[..k];
    EscapeTurn(s);
    if s[0] == '\\' {
      EscapeCut(s[2..], k - 2);
      assert t[2..] == s[2..][..k - 2];
      EscapeTurn(t);
    } else if s[0] != '\'' {
      EscapeCut(s[1..], k - 1);
      assert t[1..] == s[1..][..k - 1];
      EscapeTurn(t);
    } else if |s| > 1 && s[1] == '\'' {
      EscapeCut(s[2..], k - 2);
      assert t[2..] == s[2..][..k - 2];
      EscapeTurn(t);
    } else {
      EscapeQuoteCut(s, k);
    }
  }

  lemma {:induction false} EscapeQuoteCut(s: string, k: nat)
    requires EscapeEnd(s).len <= k < |s| && s[k] != '\''
    requires s[0] == '\'' && (|s| == 1 || s[1] != '\'')
    ensures EscapeEnd(s[..k]) == EscapeEnd(s)
    decreases |s|, 0
  {
    hide BeforeBreak, EscapeEnd;
    var t, continued := s[..k], BeforeBreak(s[1..]);
    EscapeTurn(s);
    assert t[1..] == s[1..][..k - 1];
    BeforeBreakCut(s[1..], k - 1);
    if continued.Some? {
      var n := 2 + continued.value;
      EscapeCut(s[n..], k - n);
      assert t[n..] == s[n..][..k - n];
    }
    EscapeTurn(t);
  }

  lemma {:induction false} BlockCut(s: string, depth: nat, k: nat)
    requires depth > 0 && BlockEnd(s, depth).len <= k < |s|
    ensures BlockEnd(s[..k], depth) == BlockEnd(s, depth)
    decreases |s|
  {
    var t := s[..k];
    if StartsWith(s, "*/") {
      if depth > 1 {
        assert t[2..] == s[2..][..k - 2];
        BlockCut(s[2..], depth - 1, k - 2);
      }
    } else if StartsWith(s, "/*") {
      assert t[2..] == s[2..][..k - 2];
      BlockCut(s[2..], depth + 1, k - 2);
    } else {
      assert t[1..] == s[1..][..k - 1];
      BlockCut(s[1..], depth, k - 1);
    }
  }

  lemma {:induction false} TagRunCut(s: string, k: nat)
    requires k < |s| && !IsTagChar(s[k])
    ensures TagRun(s[..k]) == TagRun(s)
  {
    if k > 0 {
      assert s[..k][1..] == s[1..][..k - 1];
    }
  }

  lemma {:induction false} WordRunCut(s: string, k: nat)
    requires k < |s| && !IsWordChar(s[k])
    ensures WordRun(s[..k]) == WordRun(s)
  {
    if k > 0 {
      assert s[..k][1..] == s[1..][..k - 1];
    }
  }

  lemma {:induction false} TagLengthCut(s: string, k: nat)
    requires 0 < k < |s| && s[k] == ';'
    ensures TagLength(s[..k]) == TagLength(s)
  {
    assert s[..k][1..] == s[1..][..k - 1];
    TagRunCut(s[1..], k - 1);
  }

  lemma {:induction false} DollarCut(s: string, tag: string, k: nat)
    requires tag != "" && DollarEnd(s, tag).len <= k < |s|
    ensures DollarEnd(s[..k], tag) == DollarEnd(s, tag)
  {
    var close := Find(s, tag);
    FindCut(s, tag, k);
  }

  lemma {:induction false} FindCut(s: string, pattern: string, k: nat)
    requires pattern != "" && k <= |s|
    requires Find(s, pattern).Some? && Find(s, pattern).value + |pattern| <= k
    ensures Find(s[..k], pattern) == Find(s, pattern)
    decreases |s|
  {
    if StartsWith(s, pattern) {
      assert s[..k][..|pattern|] == s[..|pattern|] == pattern;
    } else {
      assert s[..k][1..] == s[1..][..k - 1];
      FindCut(s[1..], pattern, k - 1);
    }
  }

  lemma {:induction false} FormCut(s: string, k: nat)
    requires s != "" && FormAt(s).len <= k < |s| && s[k] == ';'
    ensures FormAt(s[..k]) == FormAt(s)
  {
    hide QuotedEnd, BlockEnd, LineEnd, TagLength, DollarEnd, WordForm;
    var t := s[..k];
    assert t[0] == s[0] && t[1..] == s[1..][..k - 1];
    assert k >= 2 ==> t[1] == s[1] && t[2..] == s[2..][..k - 2];
    if s[0] == '\'' {
      QuotedCut(s[1..], '\'', k - 1);
    } else if s[0] == '"' {
      QuotedCut(s[1..], '"', k - 1);
    } else if StartsWith(s, "--") {
      LineEndCut(s[2..], k - 2);
    } else if StartsWith(s, "/*") {
      BlockCut(s[2..], 1, k - 2);
    } else if s[0] == '$' {
      TagLengthCut(s, k);
      var tag := TagLength(s);
      if tag.Some? {
        var n := tag.value;
        assert t[n..] == s[n..][..k - n] && t[..n] == s[..n];
        DollarCut(s[n..], s[..n], k - n);
      }
    } else if IsWordStart(s[0]) {
      WordFormCut(s, k);
    }
  }

  lemma {:induction false} WordFormCut(s: string, k: nat)
    requires s != "" && IsWordStart(s[0]) && WordForm(s).len <= k < |s| && s[k] == ';'
    ensures WordForm(s[..k]) == WordForm(s)
  {
    hide QuotedEnd, EscapeEnd, WordRun;
    var t, n := s[..k], WordRun(s);
    WordRunCut(s, k);
    var rest := s[n..];
    assert t[n..] == rest[..k - n];
    if n == 1 && StartsWith(rest, "'") && k >= 2 {
      assert t[n..][1..] == rest[1..][..k - 2];
      if s[0] in "Ee" {
        EscapeCut(rest[1..], k - 2);
      } else if s[0] in "BbXxNn" {
        QuotedCut(rest[1..], '\'', k - 2);
      }
    } else if n == 1 && k >= 3 && s[0] in "Uu" {
      assert t[n..][2..] == rest[2..][..k - 3];
      if StartsWith(rest, "&'") {
        QuotedCut(rest[2..], '\'', k - 3);
      } else if StartsWith(rest, "&\"") {
        QuotedCut(rest[2..], '"', k - 3);
      }
    }
  }

  // ----- cutting at a `;` in code -----

  // Where the first `;` in code stands, or the length of `s`.
  function FirstCut(s: string): (k: nat)
    ensures k <= |s| && (k < |s| ==> s[k] == ';')
    decreases |s|
  {
    if s == "" || s[0] == ';' then 0
    else
      var f := FormAt(s);
      f.len + FirstCut(s[f.len..])
  }

  // The texts between the `;` in code.
  function Pieces(s: string): (r: seq<string>)
    ensures |r| > 0
    decreases |s|
  {
    var k := FirstCut(s);
    if k == |s| then [s] else [s[..k]] + Pieces(s[k + 1..])
  }

  function JoinWith(pieces: seq<string>, sep: string): string {
    if pieces == [] then ""
    else if |pieces| == 1 then pieces[0]
    else pieces[0] + sep + JoinWith(pieces[1..], sep)
  }

  lemma {:induction false} CodeFormHasNoCut(s: string)
    requires s != "" && s[0] != ';' && FormAt(s).kind == Code
    ensures ';' !in s[..FormAt(s).len]
  {
    hide QuotedEnd, BlockEnd, EscapeEnd, LineEnd, DollarEnd, TagLength;
  }

  lemma {:induction false} SplitOnNothing(text: string, sep: char)
    requires sep !in text
    ensures SplitOn(text, sep) == [text]
    decreases |text|
  {
    if text != "" {
      SplitOnNothing(text[1..], sep);
      assert [text[0]] + text[1..] == text;
    }
  }

  lemma {:induction false} SplitOnPrefix(a: string, b: string, sep: char)
    requires sep !in a
    ensures SplitOn(a + b, sep) == [a + SplitOn(b, sep)[0]] + SplitOn(b, sep)[1..]
    decreases |a|
  {
    if a == "" {
      assert a + b == b && a + SplitOn(b, sep)[0] == SplitOn(b, sep)[0];
    } else {
      SplitOnPrefix(a[1..], b, sep);
      assert (a + b)[1..] == a[1..] + b;
      assert [a[0]] + (a[1..] + SplitOn(b, sep)[0]) == a + SplitOn(b, sep)[0];
    }
  }

  // Code with no `;` in it, read just before some fragments.
  function PushCode(text: string, frags: seq<seq<Segment>>): seq<seq<Segment>>
    requires |frags| > 0
  {
    [PrependCode(text, frags[0])] + frags[1..]
  }

  lemma {:induction false} PushCodeFragments(text: string, segs: seq<Segment>)
    requires ';' !in text && (segs != [] ==> segs[0].text != "")
    ensures Fragments(PrependCode(text, segs)) == PushCode(text, Fragments(segs))
  {
    if text == "" {
    } else if segs != [] && segs[0].kind == Code {
      var rest := Fragments(segs[1..]);
      var parts, all := SplitOn(segs[0].text, ';'), SplitOn(text + segs[0].text, ';');
      SplitOnPrefix(text, segs[0].text, ';');
      if |parts| == 1 {
        SplitOnAlone(segs[0].text, ';');
      }
      assert all[1..] == parts[1..];
      assert PrependCode(text, segs)[1..] == segs[1..];
      PushCodeCut(text, parts, rest);
    } else {
      SplitOnNothing(text, ';');
      assert PrependCode(text, segs)[1..] == segs;
      FragmentHead(segs);
    }
  }

  lemma {:induction false} SplitOnAlone(text: string, sep: char)
    requires |SplitOn(text, sep)| == 1
    ensures SplitOn(text, sep) == [text]
  {
    if text != "" {
      SplitOnAlone(text[1..], sep);
      assert [text[0]] + text[1..] == text;
    }
  }

  lemma {:induction false} PushCodeCut(text: string, parts: seq<string>, rest: seq<seq<Segment>>)
    requires text != "" && |parts| > 0 && |rest| > 0
    requires parts[0] != "" || |parts| > 1
    ensures
      CutCode([text + parts[0]] + parts[1..], rest) == PushCode(text, CutCode(parts, rest))
  {
    var all := [text + parts[0]] + parts[1..];
    assert all[1..] == parts[1..];
    if |parts| == 1 {
      var code := [Segment(Code, parts[0], true)];
      assert (code + rest[0])[1..] == rest[0];
      assert PrependCode(text, code + rest[0]) == [Segment(Code, text + parts[0], true)] + rest[0];
    } else {
      assert text + "" == text;
      assert PrependCode(text, CodeSegment(parts[0])) == CodeSegment(text + parts[0]);
    }
  }

  // A fragment opens with code only where its segments do.
  lemma {:induction false} FragmentHead(segs: seq<Segment>)
    requires segs == [] || segs[0].kind != Code
    ensures Fragments(segs)[0] == [] || Fragments(segs)[0][0].kind != Code
  {
  }

  lemma {:induction false} CutFragments(segs: seq<Segment>)
    ensures Fragments(PrependCode(";", segs)) == [[]] + Fragments(segs)
  {
    if segs != [] && segs[0].kind == Code {
      var rest := Fragments(segs[1..]);
      var text := ";" + segs[0].text;
      assert text[1..] == segs[0].text;
      assert SplitOn(text, ';') == [""] + SplitOn(segs[0].text, ';');
      assert SplitOn(text, ';')[1..] == SplitOn(segs[0].text, ';');
      assert PrependCode(";", segs)[1..] == segs[1..];
    } else {
      assert SplitOn(";", ';') == ["", ""] by {
        assert SplitOn("", ';') == [""];
      }
      assert PrependCode(";", segs)[1..] == segs;
      assert CutCode(["", ""], Fragments(segs)) == [[]] + CutCode([""], Fragments(segs)) by {
        assert ["", ""][1..] == [""];
      }
      JoinNothing(Fragments(segs));
    }
  }

  lemma {:induction false} LexCut(s: string)
    ensures
      var k := FirstCut(s);
      Fragments(Lex(s)) ==
      if k == |s| then [Lex(s)] else [Lex(s[..k])] + Fragments(Lex(s[k + 1..]))
    decreases |s|
  {
    hide *;
    if s == "" {
      LexNothing();
    } else if s[0] == ';' {
      CutAtSemicolon(s);
    } else {
      var k, f := FirstCut(s), FormAt(s);
      var tail := s[f.len..];
      LexCut(tail);
      LexOnce(s);
      FirstFormFragments(s);
      var j := FirstCut(tail);
      if k < |s| {
        FormCut(s, k);
        LexOnce(s[..k]);
        assert s[..k][..f.len] == s[..f.len] && s[..k][f.len..] == tail[..j];
        assert tail[j + 1..] == s[k + 1..];
      }
    }
  }

  lemma {:induction false} LexNothing()
    ensures Lex("") == [] && FirstCut("") == 0 && Fragments([]) == [[]]
  {
  }

  lemma {:induction false} LexOnce(s: string)
    requires s != ""
    ensures Lex(s) == Prepend(FormAt(s), s[..FormAt(s).len], Lex(s[FormAt(s).len..]))
    ensures s[0] != ';' ==> FirstCut(s) == FormAt(s).len + FirstCut(s[FormAt(s).len..])
  {
    hide FormAt;
  }

  lemma {:induction false} CutAtSemicolon(s: string)
    requires s != "" && s[0] == ';'
    ensures FirstCut(s) == 0 && s[..0] == "" && Lex("") == []
    ensures Fragments(Lex(s)) == [[]] + Fragments(Lex(s[1..]))
  {
    SemicolonIsCode(s);
    hide FormAt, Fragments;
    assert s[..1] == ";";
    CutFragments(Lex(s[1..]));
  }

  // A form that holds no cut joins the first fragment of what follows it.
  lemma {:induction false} FirstFormFragments(s: string)
    requires s != "" && s[0] != ';'
    ensures
      var f := FormAt(s);
      var rest := Fragments(Lex(s[f.len..]));
      Fragments(Prepend(f, s[..f.len], Lex(s[f.len..]))) == [Prepend(f, s[..f.len], rest[0])] + rest[1..]
  {
    hide FormAt, Fragments, Lex, PrependCode;
    var f := FormAt(s);
    var head, tail := s[..f.len], s[f.len..];
    if f.kind == Code {
      CodeFormHasNoCut(s);
      LexIsPartition(tail);
      PushCodeFragments(head, Lex(tail));
    } else {
      PushFormFragments(f, head, Lex(tail));
    }
  }

  lemma {:induction false} SemicolonIsCode(s: string)
    requires s != "" && s[0] == ';'
    ensures FormAt(s) == Form(Code, 1, true)
  {
  }

  lemma {:induction false} PushFormFragments(f: Form, text: string, segs: seq<Segment>)
    requires f.kind != Code
    ensures
      Fragments(Prepend(f, text, segs)) ==
      [Prepend(f, text, Fragments(segs)[0])] + Fragments(segs)[1..]
  {
    assert Prepend(f, text, segs)[1..] == segs;
  }

  ghost predicate LexedAlone(frags: seq<seq<Segment>>, pieces: seq<string>) {
    |frags| == |pieces| && forall i :: 0 <= i < |frags| ==> frags[i] == Lex(pieces[i])
  }

  // The whole of a file's fragments: each is the lexing of its own piece.
  lemma {:induction false} FragmentsArePieces(s: string)
    ensures LexedAlone(Fragments(Lex(s)), Pieces(s))
    ensures forall piece <- Pieces(s) :: FirstCut(piece) == |piece|
    decreases |s|
  {
    hide FirstCut, Lex, Fragments;
    var k := FirstCut(s);
    LexCut(s);
    if k < |s| {
      FragmentsArePieces(s[k + 1..]);
      PieceHasNoCut(s);
    }
  }

  lemma {:induction false} PiecesJoined(s: string)
    ensures JoinWith(Pieces(s), ";") == s
    decreases |s|
  {
    hide FirstCut;
    var k := FirstCut(s);
    if k < |s| {
      var tail := s[k + 1..];
      PiecesJoined(tail);
      assert Pieces(s)[1..] == Pieces(tail);
      assert s == s[..k] + [s[k]] + tail;
    }
  }

  // The kept statements and the dropped fragments, joined by `;`, are the file,
  // and a dropped fragment holds nothing but comments and whitespace.
  lemma {:induction false} FileIsItsFragments(sql: string)
    ensures JoinWith(TextsOf(Fragments(Lex(sql))), ";") == sql
    ensures Statements(sql) == TextsOf(WithCode(Fragments(Lex(sql))))
    ensures
      forall frag <- Fragments(Lex(sql)) ::
        frag !in WithCode(Fragments(Lex(sql))) <==>
        forall seg <- frag :: seg.kind == LineComment || seg.kind == BlockComment || Blank(seg.text)
  {
    hide Lex, Fragments, Pieces;
    var frags := Fragments(Lex(sql));
    FragmentsArePieces(sql);
    PiecesJoined(sql);
    TextsOfPieces(frags, Pieces(sql));
    KeptIsWithCode(frags);
  }

  // ----- where the cuts are -----

  predicate NoCutInside(frag: seq<Segment>) {
    forall seg <- frag :: seg.kind == Code ==> ';' !in seg.text
  }

  // The segments that are not code, in order.
  function NotCode(segs: seq<Segment>): seq<Segment> {
    if segs == [] then []
    else (if segs[0].kind == Code then [] else [segs[0]]) + NotCode(segs[1..])
  }

  function AllOf(frags: seq<seq<Segment>>): seq<Segment> {
    if frags == [] then [] else frags[0] + AllOf(frags[1..])
  }

  // A file is cut at every `;` in its code, and nothing else is cut: strings,
  // identifiers and comments come through whole and in order.
  lemma {:induction false} CutsAreInCode(segs: seq<Segment>)
    ensures forall frag <- Fragments(segs) :: NoCutInside(frag)
    ensures NotCode(AllOf(Fragments(segs))) == NotCode(segs)
  {
    hide NoCutInside, NotCode, Fragments;
    FragmentsStep(segs);
    if segs != [] {
      CutsAreInCode(segs[1..]);
      var rest := Fragments(segs[1..]);
      if segs[0].kind == Code {
        CodeIsCut(SplitOn(segs[0].text, ';'), rest);
      } else {
        OneMorePiece([segs[0]], rest);
        SingleHasNoCut(segs[0]);
        JoinHasNoCut([segs[0]], rest);
      }
    }
  }

  lemma {:induction false} FragmentsStep(segs: seq<Segment>)
    ensures
      segs == [] ==>
      NoCutInside([]) && Fragments(segs) == [[]] && NotCode(AllOf(Fragments(segs))) == [] == NotCode(segs)
    ensures
      segs != [] && segs[0].kind == Code ==>
      && Fragments(segs) == CutCode(SplitOn(segs[0].text, ';'), Fragments(segs[1..]))
      && NotCode(segs) == NotCode(segs[1..])
    ensures
      segs != [] && segs[0].kind != Code ==>
      && Fragments(segs) == Join([segs[0]], Fragments(segs[1..]))
      && NotCode(segs) == NotCode([segs[0]]) + NotCode(segs[1..])
  {
    hide SplitOn;
    var one: seq<seq<Segment>> := [[]];
    assert one[1..] == [] && AllOf(one) == [];
    if segs != [] {
      assert [segs[0]][1..] == [];
    }
  }

  lemma {:induction false} SingleHasNoCut(seg: Segment)
    requires seg.kind == Code ==> ';' !in seg.text
    ensures NoCutInside([seg])
  {
  }

  lemma {:induction false} JoinHasNoCut(head: seq<Segment>, frags: seq<seq<Segment>>)
    requires |frags| > 0 && NoCutInside(head) && forall frag <- frags :: NoCutInside(frag)
    ensures forall frag <- Join(head, frags) :: NoCutInside(frag)
  {
    assert NoCutInside(frags[0]);
    assert NoCutInside(head + frags[0]);
  }

  lemma {:induction false} NotCodeBoth(first: seq<Segment>, second: seq<Segment>)
    ensures NotCode(first + second) == NotCode(first) + NotCode(second)
    decreases |first|
  {
    if first == [] {
      assert first + second == second;
    } else {
      assert (first + second)[1..] == first[1..] + second;
      NotCodeBoth(first[1..], second);
    }
  }

  lemma {:induction false} OneMorePiece(head: seq<Segment>, frags: seq<seq<Segment>>)
    requires |frags| > 0
    ensures NotCode(AllOf(Join(head, frags))) == NotCode(head) + NotCode(AllOf(frags))
  {
    var joined := Join(head, frags);
    assert joined[0] == head + frags[0] && joined[1..] == frags[1..];
    assert head + frags[0] + AllOf(frags[1..]) == head + AllOf(frags);
    NotCodeBoth(head, AllOf(frags));
  }

  lemma {:induction false} CodeIsCut(parts: seq<string>, frags: seq<seq<Segment>>)
    requires |parts| > 0 && |frags| > 0
    requires forall part <- parts :: ';' !in part
    requires forall frag <- frags :: NoCutInside(frag)
    ensures forall frag <- CutCode(parts, frags) :: NoCutInside(frag)
    ensures NotCode(AllOf(CutCode(parts, frags))) == NotCode(AllOf(frags))
    decreases |parts|
  {
    var head := CodeSegment(parts[0]);
    assert NoCutInside(head) && NotCode(head) == [];
    hide NoCutInside;
    if |parts| == 1 {
      JoinHasNoCut(head, frags);
      OneMorePiece(head, frags);
    } else {
      CodeIsCut(parts[1..], frags);
      var cut := [head] + CutCode(parts[1..], frags);
      assert cut[1..] == CutCode(parts[1..], frags);
      NotCodeBoth(head, AllOf(cut[1..]));
    }
  }

  function TextsOf(frags: seq<seq<Segment>>): (r: seq<string>)
    ensures |r| == |frags| && forall i :: 0 <= i < |frags| ==> r[i] == Text(frags[i])
  {
    if frags == [] then [] else [Text(frags[0])] + TextsOf(frags[1..])
  }

  function WithCode(frags: seq<seq<Segment>>): (r: seq<seq<Segment>>)
    ensures forall frag :: frag in r <==> frag in frags && HasCode(frag)
  {
    if frags == [] then []
    else (if HasCode(frags[0]) then [frags[0]] else []) + WithCode(frags[1..])
  }

  lemma {:induction false} TextsOfPieces(frags: seq<seq<Segment>>, pieces: seq<string>)
    requires LexedAlone(frags, pieces)
    ensures TextsOf(frags) == pieces
  {
    hide Lex;
    forall i | 0 <= i < |frags| ensures Text(frags[i]) == pieces[i] {
      LexIsPartition(pieces[i]);
    }
  }

  lemma {:induction false} KeptIsWithCode(frags: seq<seq<Segment>>)
    ensures Kept(frags) == TextsOf(WithCode(frags))
  {
    hide HasCode, Text;
    if frags != [] {
      var rest := WithCode(frags[1..]);
      KeptIsWithCode(frags[1..]);
      if HasCode(frags[0]) {
        assert ([frags[0]] + rest)[1..] == rest;
      }
    }
  }

  lemma {:induction false} PieceHasNoCut(s: string)
    ensures FirstCut(s[..FirstCut(s)]) == FirstCut(s)
    decreases |s|
  {
    hide FormAt;
    var k := FirstCut(s);
    if k == |s| {
      assert s[..k] == s;
    } else if k > 0 {
      var f := FormAt(s);
      PieceHasNoCut(s[f.len..]);
      FormCut(s, k);
      assert s[..k][f.len..] == s[f.len..][..k - f.len];
    }
  }

  // Splitting is a homomorphism of the lexer: a fragment lexed on its own gives
  // exactly the segments it had inside the file, and is not cut again.
  lemma {:induction false} SplittingIsAHomomorphism(sql: string, frag: seq<Segment>)
    requires frag in Fragments(Lex(sql))
    ensures Lex(Text(frag)) == frag
    ensures Fragments(Lex(Text(frag))) == [frag]
    ensures Statements(Text(frag)) == if HasCode(frag) then [Text(frag)] else []
  {
    hide Lex;
    FragmentsArePieces(sql);
    var frags, pieces := Fragments(Lex(sql)), Pieces(sql);
    var i :| 0 <= i < |frags| && frags[i] == frag;
    LexIsPartition(pieces[i]);
    LexCut(pieces[i]);
    KeptHead(frag, []);
    assert [frag] + [] == [frag];
  }
}
