// One statement that is not settled for each of the two reasons, with what the
// code does on it: one is refused and one passes.

module NormalizerLimits {
  import opened Chars
  import opened SqlLexer
  import opened Splitter
  import opened LexerLaws
  import opened ExecutionMode
  import opened Normalizer
  import opened Escapes
  import opened Uncommenting
  import opened Squeezing
  import opened MarkReadings
  import opened NormalizerLaws

  // A no-break space runs into the `E` and makes a typed literal of `E'x'`.
  // Stripped away, it leaves an escape string, so a statement that holds none
  // is refused.
  lemma {:induction false} NoBreakSpaceIsRefused()
    ensures
      var sql := "\U{a0}E'x'";
      Plain(sql) && !Settled(sql) && Normalize(sql) == QuotesWouldMove(sql)
  {
    hide Lex, FormAt, FirstCut, Normalize, Plain, Settled, QuotesStay, Trusted, OneLine, Statements;
    var sql, key := "\U{a0}E'x'", "E'x'";
    LexTyped();
    LexEscape();
    assert sql[0] == '\U{a0}' && sql[1..] == key;
    assert Solid(key);
    ReadsAsTwo(sql, key);
    NormalizingIsFaithful(sql);
  }

  // A statement of some code and a literal, whose key is one escape string.
  lemma {:induction false} ReadsAsTwo(sql: string, key: string)
    requires sql != "" && sql[0] == '\U{a0}' && sql[1..] == key && Solid(key)
    requires FirstCut(sql) == |sql|
    requires
      var segs := Lex(sql);
      && |segs| == 2 && segs[0].kind == Code && segs[1].kind == Literal
      && |segs[0].text| > 1 && !IsSpace(segs[0].text[1])
      && segs[1].text != "" && !IsSpace(segs[1].text[0])
    requires Lex(key) == [Segment(EscapeString, key, true)]
    ensures Plain(sql) && Normalize(sql) == QuotesWouldMove(sql)
  {
    hide Lex, FormAt, FirstCut, Strip, Collapse, Uncommented, Shape, HasCode, Normalize;
    var segs := Lex(sql);
    TwoSegments(sql, segs);
    StripFirst(sql);
    ShapeOne(key);
    NormalizeWhole(sql);
  }

  lemma {:induction false} TwoSegments(sql: string, segs: seq<Segment>)
    requires segs == Lex(sql) && |segs| == 2 && segs[0].kind == Code && segs[1].kind == Literal
    requires |segs[0].text| > 1 && !IsSpace(segs[0].text[1])
    requires segs[1].text != "" && !IsSpace(segs[1].text[0])
    ensures Uncommented(segs) == sql && HasCode(segs) && |Shape(segs)| == 2
  {
    hide Lex;
    LexIsPartition(sql);
    assert segs[1..] == [segs[1]] && segs[1..][1..] == [];
    assert Text([]) == "" && Text(segs[1..]) == segs[1].text;
    assert Uncommented([]) == "" && Uncommented(segs[1..]) == segs[1].text;
    assert segs[0].text[1] in segs[0].text && segs[1].text[0] in segs[1].text && segs[1] in segs;
    assert Shape([]) == [] && |Shape(segs[1..])| == 1;
  }

  lemma {:induction false} ShapeOne(key: string)
    requires Lex(key) == [Segment(EscapeString, key, true)]
    ensures Shape(Lex(key)) == [(EscapeString, true)]
  {
    hide Lex;
    assert Lex(key)[1..] == [] && Shape([]) == [];
  }

  lemma {:induction false} StripFirst(s: string)
    requires s != "" && IsSpace(s[0]) && Solid(s[1..])
    ensures Strip(Collapse(s)) == s[1..]
  {
    hide Strip, Collapse, Squeeze;
    var rest := s[1..];
    assert rest[0] in rest;
    SkipOne(s);
    KeyIsSqueezed(s);
    SolidSqueezed(rest);
  }

  lemma {:induction false} SkipOne(s: string)
    requires |s| > 1 && IsSpace(s[0]) && !IsSpace(s[1])
    ensures SkipSpaces(s) == s[1..]
  {
    assert SkipSpaces(s[1..]) == s[1..];
  }

  lemma {:induction false} SolidSqueezed(s: string)
    requires Solid(s)
    ensures Squeeze(s) == s
  {
    SqueezeAhead(s, |s|);
    NothingSqueezed();
    assert s[|s|..] == "" && s[..|s|] + "" == s;
  }

  lemma {:induction false} LexTyped()
    ensures
      var sql := "\U{a0}E'x'";
      && Lex(sql) == [Segment(Code, "\U{a0}E", true), Segment(Literal, "'x'", true)]
      && FirstCut(sql) == |sql|
  {
    hide QuotedEnd, EscapeEnd, BlockEnd, DollarEnd, LineEnd;
    var sql := "\U{a0}E'x'";
    assert sql[1..] == "E'x'" && sql[1..][1..] == "'x'" && "E'x'"[1..] == "'x'";
    assert WordRun("'x'") == 0;
    assert WordRun("E'x'") == 1;
    assert WordRun(sql) == 2;
    assert sql[2..] == "'x'" && sql[..2] == "\U{a0}E";
    assert FormAt(sql) == Form(Code, 2, true);
    LexQuotedX();
  }

  lemma {:induction false} LexQuotedX()
    ensures Lex("'x'") == [Segment(Literal, "'x'", true)] && FirstCut("'x'") == 3
  {
    var s := "'x'";
    assert s[1..] == "x'" && s[1..][1..] == "'";
    assert QuotedEnd("'", '\'') == End(1, true);
    assert QuotedEnd("x'", '\'') == End(2, true);
    assert s[..3] == s && s[3..] == "";
  }

  lemma {:induction false} LexEscape()
    ensures Lex("E'x'") == [Segment(EscapeString, "E'x'", true)]
  {
    var s := "E'x'";
    EscapedX();
    assert s[1..] == "'x'" && s[1..][1..] == "x'";
    hide EscapeEnd, Lex, Prepend, PrependCode;
    assert WordRun("'x'") == 0 && WordRun(s) == 1;
    assert FormAt(s) == Form(EscapeString, 4, true);
    hide FormAt;
    assert s[..4] == s && s[4..] == "";
    LexHead(s, FormAt(s), "");
    LexNothing();
  }

  lemma {:induction false} EscapedX()
    ensures EscapeEnd("x'") == End(2, true)
  {
    assert "x'"[1..] == "'" && "'"[1..] == "";
    assert BeforeBreak("").None?;
    assert EscapeEnd("'") == End(1, true);
  }

  // ----- an escape string followed by a comment and a line break -----

  // `E''` continued over a comment into `''`, a comment, a line break, and a
  // literal that holds a backslash.
  const MOVED := "E''--\n''/**/\n'\\''--'"

  // The same with the comment replaced: now the literal continues the string.
  const MOVED_TEXT := "E''--\n'' \n'\\''--'"

  const MOVED_KEY := "E''-- '' '\\''--'"

  // The quotes move, and the comparison of shapes does not see it: a comment
  // ends both readings. The statement is not refused, and its key is not free
  // of comments.
  lemma {:induction false} MovedQuotesPassTheGuard()
    ensures Unmixed(MOVED) && !Settled(MOVED)
    ensures Normalize(MOVED) == Ok([MOVED_KEY])
    ensures !NoComments(Lex(MOVED_KEY))
  {
    MovedIsUnmixed();
    hide Lex, FormAt, FirstCut, Collapse, Strip, Uncommented, Shape, HasCode, Normalize, Squeeze, SkipSpaces, Unmixed;
    hide Settled, QuotesStay;
    LexMoved();
    LexMovedText();
    LexMovedKey();
    KeyOfMoved();
    KeyIsSqueezed(MOVED_TEXT);
    assert Lex(MOVED_KEY)[1] in Lex(MOVED_KEY);
    MovedText();
    ShapeTwo(Lex(MOVED_TEXT));
    ShapeTwo(Lex(MOVED_KEY));
    NormalizeWhole(MOVED);
    SettledIsTrusted(MOVED);
  }

  // There, comments count: with its comment replaced beforehand the statement has
  // lost the rest of its literal to a comment.
  const SHORT_TEXT := "E''--\n'' \n'\\'' "

  const SHORT_KEY := "E''-- '' '\\''"

  lemma {:induction false} MovedCommentsCount()
    ensures !Calm(MOVED) && !SameOutcome(Normalize(MOVED), Normalize(Uncommented(Lex(MOVED))))
  {
    hide Lex, FirstCut, Uncommented, HasCode, Normalize, Normalized, NormalizedText, Settled, QuotesStay;
    hide Uncontinued, Uncomment;
    MovedQuotesPassTheGuard();
    MovedText();
    LexMovedText();
    ShortText();
    KeyOfShort();
    NormalizeWhole(MOVED_TEXT);
    KeyOfOne(MOVED_TEXT);
    assert |SHORT_KEY| < |MOVED_KEY|;
    if Calm(MOVED) {
      CommentsDoNotCount(MOVED);
    }
  }

  lemma {:induction false} KeyOfOne(st: string)
    ensures Normalized(st).Ok? ==> Normalized(st) == Ok(NormalizedText(st))
  {
    hide NormalizedText, Shape, Lex, Uncommented;
  }

  lemma {:induction false} ShortText()
    ensures Uncommented(Lex(MOVED_TEXT)) == SHORT_TEXT && HasCode(Lex(MOVED_TEXT))
  {
    hide Lex;
    LexMovedText();
    var segs := Lex(MOVED_TEXT);
    assert segs[1..][1..] == [] && Uncommented(segs[1..]) == " ";
    assert segs[0].text[0] == 'E' && segs[0].text[0] in segs[0].text && segs[0] in segs;
  }

  lemma {:induction false} KeyOfShort()
    ensures NormalizedText(MOVED_TEXT) == SHORT_KEY
  {
    hide Lex, Uncommented, Collapse, Strip, Squeeze, SkipSpaces;
    ShortText();
    KeyIsSqueezed(SHORT_TEXT);
    ShortSqueezed();
  }

  lemma {:induction false} ShortSqueezed()
    ensures SkipSpaces(SHORT_TEXT) == SHORT_TEXT && Squeeze(SHORT_TEXT) == SHORT_KEY
  {
    hide Squeeze;
    var t1, t2 := "\n'' \n'\\'' ", "'' \n'\\'' ";
    assert SHORT_TEXT[..5] == "E''--" && SHORT_TEXT[5..] == t1 && t1[1..] == t2;
    SqueezeAhead(SHORT_TEXT, 5);
    SqueezeBlank(t1, t2);
    ShortTail(t2);
    assert "E''--" + (" " + ("''" + (" " + "'\\''"))) == SHORT_KEY;
  }

  lemma {:induction false} ShortTail(t: string)
    requires t == "'' \n'\\'' "
    ensures Squeeze(t) == "''" + (" " + "'\\''")
  {
    hide Squeeze;
    var t3, t4 := " \n'\\'' ", "'\\'' ";
    assert t[..2] == "''" && t[2..] == t3 && t3[1..][1..] == t4;
    SqueezeAhead(t, 2);
    SqueezeBlank(t3, t4);
    assert t4[..4] == "'\\''" && t4[4..] == " ";
    SqueezeAhead(t4, 4);
    OneBlankSqueezed();
    assert "'\\''" + "" == "'\\''";
  }

  lemma {:induction false} OneBlankSqueezed()
    ensures Squeeze(" ") == ""
  {
    assert " "[1..] == "";
  }

  lemma {:induction false} MovedIsUnmixed()
    ensures Unmixed(MOVED)
  {
    assert forall i :: 0 <= i < |MOVED| ==> MOVED[i] < '\U{80}';
    AsciiIsUnmixed(MOVED);
  }

  lemma {:induction false} AsciiIsUnmixed(s: string)
    requires forall i :: 0 <= i < |s| ==> s[i] < '\U{80}'
    ensures Unmixed(s)
  {
  }

  lemma {:induction false} ShapeTwo(segs: seq<Segment>)
    requires |segs| == 2 && segs[0].kind == EscapeString && segs[1].kind == LineComment
    requires segs[0].closed && segs[1].closed
    ensures Shape(segs) == [(EscapeString, true), (LineComment, true)]
  {
    assert Shape([]) == [] && segs[1..][1..] == [];
  }

  lemma {:induction false} MovedText()
    ensures Uncommented(Lex(MOVED)) == MOVED_TEXT && HasCode(Lex(MOVED))
  {
    hide Lex, Uncommented;
    LexMoved();
    FourSegments(Lex(MOVED));
    MovedTextParts();
  }

  lemma {:induction false} MovedTextParts()
    ensures "E''--\n''" + " " + "\n" + LAST == MOVED_TEXT
  {
  }

  lemma {:induction false} FourSegments(segs: seq<Segment>)
    requires |segs| == 4 && IsComment(segs[1].kind)
    requires !IsComment(segs[0].kind) && !IsComment(segs[2].kind) && !IsComment(segs[3].kind)
    requires segs[0].text != "" && segs[0].text[0] == 'E'
    ensures Uncommented(segs) == segs[0].text + " " + segs[2].text + segs[3].text
    ensures HasCode(segs)
  {
    assert segs[0].text[0] in segs[0].text && segs[0] in segs;
    UncommentedTwo(segs[2..]);
    assert segs[1..][1..] == segs[2..];
    assert Uncommented(segs[1..]) == " " + Uncommented(segs[2..]);
    assert Uncommented(segs) == segs[0].text + (" " + (segs[2].text + segs[3].text));
  }

  lemma {:induction false} UncommentedTwo(segs: seq<Segment>)
    requires |segs| == 2 && !IsComment(segs[0].kind) && !IsComment(segs[1].kind)
    ensures Uncommented(segs) == segs[0].text + segs[1].text
  {
    assert segs[1..][1..] == [] && Uncommented([]) == "";
    assert Uncommented(segs[1..]) == segs[1].text;
  }

  // `'--` line break `'` and what follows: the string goes on after the quote.
  lemma {:induction false} ContinuesOverComment(s: string, rest: string)
    requires s == "'--\n'" + rest
    ensures EscapeEnd(s) == EscapeEnd(rest).After(5)
  {
    var t := s[1..];
    assert t == "--\n'" + rest;
    assert t[2..] == "\n'" + rest;
    assert t[2..][1..] == "'" + rest;
    assert LineEnd(t[2..]) == 0;
    assert AfterBreak(t[2..][1..]) == Some(0);
    assert BeforeBreak(t[2..]) == Some(1);
    assert CommentBeforeBreak(t, 2) == Some(3);
    assert BeforeBreak(t) == Some(3);
    assert s[5..] == rest;
  }

  // Two quotes, a comment start or none: `''` then `/`.
  lemma {:induction false} EndsBeforeSlash(rest: string)
    requires |rest| > 1 && rest[0] == '\'' && rest[1] == '/'
    ensures EscapeEnd(rest) == End(1, true)
  {
    assert rest[1..][0] == '/';
    assert BeforeBreak(rest[1..]).None?;
  }

  // One form read off the front.
  lemma {:induction false} LexHead(s: string, f: Form, rest: string)
    requires s != "" && s[0] != ';' && FormAt(s) == f && s[f.len..] == rest
    ensures Lex(s) == Prepend(f, s[..f.len], Lex(rest))
    ensures FirstCut(s) == f.len + FirstCut(rest)
  {
    hide FormAt;
  }

  // A quote, a backslash, a doubled quote, two dashes and a quote.
  const LAST := "'\\''--'"

  lemma {:induction false} LexLast()
    ensures Lex(LAST) == [Segment(Literal, LAST, true)] && FirstCut(LAST) == 7
  {
    var b := LAST[1..];
    assert b == "\\''--'" && b[1..] == "''--'" && b[1..][2..] == "--'" && "--'"[1..] == "-'" && "-'"[1..] == "'";
    assert QuotedEnd("'", '\'') == End(1, true);
    assert QuotedEnd("-'", '\'') == End(2, true);
    assert QuotedEnd("--'", '\'') == End(3, true);
    assert QuotedEnd("''--'", '\'') == End(5, true);
    assert QuotedEnd(b, '\'') == End(6, true);
    hide QuotedEnd;
    assert FormAt(LAST) == Form(Literal, 7, true);
    hide FormAt;
    assert LAST[7..] == "" && LAST[..7] == LAST;
    LexNothing();
    LexHead(LAST, Form(Literal, 7, true), "");
  }

  lemma {:induction false} LexMovedTail(s: string)
    requires s == "/**/\n" + LAST
    ensures
      Lex(s) ==
      [Segment(BlockComment, "/**/", true), Segment(Code, "\n", true), Segment(Literal, LAST, true)]
    ensures FirstCut(s) == |s|
  {
    hide Lex, FirstCut, FormAt;
    var rest := "\n" + LAST;
    LexLast();
    LineBreakForm(rest);
    LexHead(rest, Form(Code, 1, true), LAST);
    BlockForm(s);
    assert s[4..] == rest && s[..4] == "/**/";
    LexHead(s, Form(BlockComment, 4, true), rest);
  }

  lemma {:induction false} LexMoved()
    ensures
      Lex(MOVED) ==
      [Segment(EscapeString, "E''--\n''", true), Segment(BlockComment, "/**/", true),
       Segment(Code, "\n", true), Segment(Literal, LAST, true)]
    ensures FirstCut(MOVED) == |MOVED|
  {
    hide Lex, FirstCut, FormAt, EscapeEnd;
    var tail := "/**/\n" + LAST;
    LexMovedTail(tail);
    MovedForm();
    assert MOVED[8..] == tail && MOVED[..8] == "E''--\n''";
    LexHead(MOVED, Form(EscapeString, 8, true), tail);
  }

  lemma {:induction false} MovedForm()
    ensures FormAt(MOVED) == Form(EscapeString, 8, true)
  {
    hide FormAt, EscapeEnd;
    var quoted := "'/**/\n'\\''--'";
    assert MOVED[2..] == "'--\n'" + quoted;
    ContinuesOverComment(MOVED[2..], quoted);
    EndsBeforeSlash(quoted);
    EscapeForm(MOVED);
  }

  lemma {:induction false} ContinuesOverBreak(s: string, rest: string)
    requires s == "' \n'" + rest
    ensures EscapeEnd(s) == EscapeEnd(rest).After(4)
  {
    var t := s[1..];
    assert t == " \n'" + rest && t[1..] == "\n'" + rest && t[1..][1..] == "'" + rest;
    assert AfterBreak(t[1..][1..]) == Some(0);
    assert BeforeBreak(t[1..]) == Some(1);
    assert BeforeBreak(t) == Some(2);
    assert s[4..] == rest;
  }

  lemma {:induction false} EscapedThenEnds(s: string, rest: string)
    requires s == "\\''" + rest && rest != "" && rest[0] != '\'' && '\n' !in rest && '\r' !in rest
    ensures EscapeEnd(s) == End(3, true)
  {
    hide BeforeBreak;
    assert s[2..] == "'" + rest;
    LoneQuoteEnds(s[2..], rest);
  }

  lemma {:induction false} LineGoesToEnd(s: string)
    requires '\n' !in s && '\r' !in s
    ensures LineEnd(s) == |s|
    decreases |s|
  {
    if s != "" {
      assert s[0] in s;
      LineGoesToEnd(s[1..]);
    }
  }

  lemma {:induction false} DashesForm(s: string)
    requires StartsWith(s, "--") && '\n' !in s && '\r' !in s
    ensures Lex(s) == [Segment(LineComment, s, true)] && FirstCut(s) == |s|
  {
    hide LineEnd;
    LineGoesToEnd(s[2..]);
    assert FormAt(s) == Form(LineComment, |s|, true);
    assert s[|s|..] == "" && s[..|s|] == s;
    LexNothing();
  }

  lemma {:induction false} LexMovedText()
    ensures
      Lex(MOVED_TEXT) ==
      [Segment(EscapeString, "E''--\n'' \n'\\''", true), Segment(LineComment, "--'", true)]
    ensures FirstCut(MOVED_TEXT) == |MOVED_TEXT|
  {
    hide Lex, FirstCut, FormAt, EscapeEnd, BeforeBreak;
    var text := MOVED_TEXT;
    var r1, r2 := "' \n'\\''--'", "\\''--'";
    assert text[2..] == "'--\n'" + r1;
    assert r1 == "' \n'" + r2 && r2 == "\\''" + "--'";
    ContinuesOverComment(text[2..], r1);
    ContinuesOverBreak(r1, r2);
    EscapedThenEnds(r2, "--'");
    EscapeForm(text);
    assert text[14..] == "--'" && text[..14] == "E''--\n'' \n'\\''";
    LexHead(text, Form(EscapeString, 14, true), "--'");
    DashesForm("--'");
  }

  lemma {:induction false} LexMovedKey()
    ensures
      Lex(MOVED_KEY) ==
      [Segment(EscapeString, "E''", true), Segment(LineComment, "-- '' '\\''--'", true)]
  {
    hide Lex, FirstCut, FormAt, EscapeEnd;
    var key, rest := MOVED_KEY, "-- '' '\\''--'";
    assert key == "E''" + rest;
    assert key[2..] == "'" + rest && key[3..] == rest && key[..3] == "E''";
    LoneQuoteEnds(key[2..], rest);
    EscapeForm(key);
    LexHead(key, Form(EscapeString, 3, true), rest);
    DashesForm(rest);
  }

  lemma {:induction false} LoneQuoteEnds(s: string, rest: string)
    requires s == "'" + rest && rest != "" && rest[0] != '\'' && '\n' !in rest && '\r' !in rest
    ensures EscapeEnd(s) == End(1, true)
  {
    hide BeforeBreak;
    assert s[1..] == rest;
    NoBreakNoContinuation(rest);
  }

  lemma {:induction false} KeyOfMoved()
    ensures SkipSpaces(MOVED_TEXT) == MOVED_TEXT && Squeeze(MOVED_TEXT) == MOVED_KEY
  {
    hide Squeeze;
    var t1, t2 := "\n'' \n'\\''--'", "'' \n'\\''--'";
    MovedStart(t1, t2);
    SqueezeAhead(MOVED_TEXT, 5);
    SqueezeBlank(t1, t2);
    KeyTail(t2);
    assert "E''--" + (" " + ("''" + (" " + LAST))) == MOVED_KEY;
  }

  lemma {:induction false} MovedStart(t1: string, t2: string)
    requires t1 == "\n'' \n'\\''--'" && t2 == "'' \n'\\''--'"
    ensures MOVED_TEXT[..5] == "E''--" && MOVED_TEXT[5..] == t1 && t1[1..] == t2 && t2 == "''" + " \n'\\''--'"
  {
    assert MOVED_TEXT == "E''--" + t1;
  }

  lemma {:induction false} KeyTail(t: string)
    requires t == "''" + " \n'\\''--'"
    ensures Squeeze(t) == "''" + (" " + LAST)
  {
    hide Squeeze;
    var t3 := " \n'\\''--'";
    assert t[..2] == "''" && t[2..] == t3;
    SqueezeAhead(t, 2);
    BlankThenLast(t3);
  }

  lemma {:induction false} BlankThenLast(t: string)
    requires t == " \n'\\''--'"
    ensures Squeeze(t) == " " + LAST
  {
    hide Squeeze;
    assert t[1..][1..] == LAST;
    SqueezeBlank(t, LAST);
    SolidSqueezed(LAST);
  }

  lemma {:induction false} SqueezeBlank(s: string, rest: string)
    requires s != "" && IsSpace(s[0]) && rest != "" && !IsSpace(rest[0])
    requires s[1..] == rest || (|s| > 1 && IsSpace(s[1]) && s[1..][1..] == rest)
    ensures Squeeze(s) == " " + Squeeze(rest)
  {
    assert SkipSpaces(rest) == rest;
    assert SkipSpaces(s) == rest;
  }

  lemma {:induction false} LineBreakForm(s: string)
    requires s == "\n" + LAST
    ensures FormAt(s) == Form(Code, 1, true) && s[..1] == "\n" && s[1..] == LAST
  {
  }

  lemma {:induction false} BlockForm(s: string)
    requires |s| > 4 && s[..4] == "/**/"
    ensures FormAt(s) == Form(BlockComment, 4, true)
  {
    assert s[0] == s[..4][0] && s[1] == s[..4][1] && s[2] == s[..4][2] && s[3] == s[..4][3];
    assert s[2..][..2] == "*/";
  }
}
