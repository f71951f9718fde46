// What a normalized statement is worth as a key. Collapsing leaves the quotes of
// a statement where they were exactly when no escape string of it is carried
// over a line break and no whitespace is part of a word; what is refused would
// have moved; and a key that stands is free of comments and its own key.

module NormalizerLaws {
  import opened Chars
  import opened SqlLexer
  import opened Splitter
  import opened LexerLaws
  import opened ExecutionMode
  import opened Normalizer
  import opened Escapes
  import opened Uncommenting
  import opened Squeezing
  import opened Marks
  import opened MarkReadings

  // The statement with a space for each comment.
  function TextOf(st: string): string {
    Uncommented(Lex(st))
  }

  // What a caller can read off the statement: with spaces for comments, no escape
  // string is carried over a line break and no whitespace inside a word hides a
  // quote's prefix or a dollar tag.
  predicate Settled(st: string) {
    Uncontinued(TextOf(st)) && Steady(TextOf(st))
  }

  // Every character of the key but its spaces stands where it stood in the text:
  // in code, in a comment or in a quoted form of the same kind, opening it or
  // not, closed or not.
  ghost predicate QuotesStay(st: string) {
    MarksOf(NormalizedText(st)) == MarksOf(TextOf(st))
  }

  // One line: every whitespace character a single space between two others.
  predicate OneLine(s: string) {
    forall i :: 0 <= i < |s| && IsSpace(s[i]) ==> s[i] == ' ' && 0 < i < |s| - 1 && !IsSpace(s[i + 1])
  }

  // ----- one line -----

  predicate Collapsed(s: string) {
    forall i :: 0 <= i < |s| && IsSpace(s[i]) ==> s[i] == ' ' && i < |s| - 1 && !IsSpace(s[i + 1])
  }

  lemma {:induction false} CollapsedBehind(c: char, s: string)
    requires Collapsed(s) && (IsSpace(c) ==> c == ' ' && s != "" && !IsSpace(s[0]))
    ensures Collapsed([c] + s)
  {
    hide IsSpace;
    var t := [c] + s;
    forall i | 0 <= i < |t| && IsSpace(t[i]) ensures t[i] == ' ' && i < |t| - 1 && !IsSpace(t[i + 1]) {
      if i > 0 {
        assert t[i] == s[i - 1];
      }
    }
  }

  lemma {:induction false} SqueezeCollapses(s: string)
    ensures Collapsed(Squeeze(s))
    decreases |s|
  {
    hide IsSpace, SkipSpaces, Collapsed;
    if s == "" {
      NothingSqueezed();
      NothingCollapsed();
    } else if IsSpace(s[0]) {
      var rest := SkipSpaces(s);
      SkipsOne(s);
      SqueezeCollapses(rest);
      SqueezeFollows(rest);
      NothingCollapsed();
      if rest != "" {
        CollapsedBehind(' ', Squeeze(rest));
      }
    } else {
      SqueezeCollapses(s[1..]);
      CollapsedBehind(s[0], Squeeze(s[1..]));
    }
  }

  lemma {:induction false} NothingCollapsed()
    ensures Collapsed("")
  {
  }

  // Whatever the statement, its normalized text is one line.
  lemma {:induction false} KeyIsOneLine(st: string)
    ensures OneLine(NormalizedText(st))
  {
    hide IsSpace, SkipSpaces, Squeeze, Strip, Collapse, Uncommented, Lex;
    var v := SkipSpaces(TextOf(st));
    KeyIsSqueezed(TextOf(st));
    SqueezeCollapses(v);
    SqueezeFollows(v);
    NothingSqueezed();
  }

  // ----- one statement -----

  lemma {:induction false} SkippingMoves(text: string)
    ensures
      var key := Strip(Collapse(text));
      MarksOf(key) == MarksOf(Squeeze(text)) && Squeeze(key) == key && SkipSpaces(key) == key
    ensures
      var key := Strip(Collapse(text));
      Uncontinued(key)
  {
    hide *;
    var v := SkipSpaces(text);
    KeyIsSqueezed(text);
    SkippedMarksTheSame(text);
    SqueezeTwice(v);
    SqueezedStart(v);
    SqueezeHasNoBreak(v);
    NoBreakIsUncontinued(Squeeze(v));
  }

  // The quotes of a statement stay if and only if it is settled.
  lemma {:induction false} QuotesStayIffSettled(st: string)
    ensures QuotesStay(st) <==> Settled(st)
  {
    hide Lex, Uncommented, Uncomment, MarksOf, Squeeze, Collapse, Strip, Uncontinued, Steady, Bare;
    UncommentIsUncommented(st);
    UncommentIsBare(st);
    SkippingMoves(Uncomment(st));
    MarksKept(Uncomment(st));
  }

  // A statement whose quotes stay is not refused: whoever is refused would have
  // had them moved.
  lemma {:induction false} StayingIsNotRefused(st: string)
    requires QuotesStay(st)
    ensures Normalized(st) == Ok(NormalizedText(st))
    ensures Shape(Lex(NormalizedText(st))) == Shape(Lex(TextOf(st)))
  {
    hide Lex, Uncommented, MarksOf, Collapse, Strip, Shape, ShapeRead, HasCode, NoComments, FirstCut;
    MarksTell(NormalizedText(st));
    MarksTell(TextOf(st));
  }

  // A text with no comment, no string carried on and no `;` in code, squeezed.
  ghost predicate IsKey(key: string) {
    && NoComments(Lex(key)) && FirstCut(key) == |key| && HasCode(Lex(key))
    && Squeeze(key) == key && SkipSpaces(key) == key
  }

  lemma {:induction false} SettledHasKey(st: string)
    requires QuotesStay(st) && Settled(st) && FirstCut(st) == |st| && HasCode(Lex(st))
    ensures IsKey(NormalizedText(st))
  {
    hide Lex, Uncommented, Uncomment, MarksOf, Squeeze, Collapse, Strip, Uncontinued, Steady;
    hide Shape, ShapeRead, HasCode, NoComments, FirstCut, SkipSpaces;
    UncommentIsUncommented(st);
    UncommentLeavesNone(st);
    UncommentCut(st);
    MarksTell(NormalizedText(st));
    MarksTell(TextOf(st));
    SkippingMoves(TextOf(st));
  }

  lemma {:induction false} NoCommentsStep(s: string)
    requires s != "" && NoComments(Lex(s))
    ensures !IsComment(FormAt(s).kind) && NoComments(Lex(s[FormAt(s).len..]))
  {
    hide FormAt;
    PrependKinds(FormAt(s), s[..FormAt(s).len], Lex(s[FormAt(s).len..]));
  }

  lemma {:induction false} UncommentNothing(s: string)
    requires NoComments(Lex(s))
    ensures Uncomment(s) == s
    decreases |s|
  {
    hide FormAt, NoComments;
    if s != "" {
      NoCommentsStep(s);
      UncommentNothing(s[FormAt(s).len..]);
    }
  }

  lemma {:induction false} NormalizeWhole(sql: string)
    requires FirstCut(sql) == |sql| && HasCode(Lex(sql))
    ensures
      Normalize(sql) ==
      match Normalized(sql)
      case Ok(key) => Ok([key])
      case QuotesWouldMove(statement) => QuotesWouldMove(statement)
  {
    hide FormAt, HasCode, FirstCut, Normalized, Fragments, Lex;
    LexCut(sql);
    LexIsPartition(sql);
    KeptHead(Lex(sql), []);
    assert Kept([]) == [] && [Lex(sql)] + [] == [Lex(sql)];
    assert Statements(sql) == [sql];
    assert [sql][1..] == [] && NormalizedAll([]) == Ok([]);
    match Normalized(sql)
    case Ok(key) => assert [key] + [] == [key];
    case QuotesWouldMove(_) =>
  }

  // A key is its own key.
  lemma {:induction false} KeyIsItsOwn(key: string)
    requires IsKey(key)
    ensures Normalize(key) == Ok([key])
  {
    hide FormAt, HasCode, Squeeze, SkipSpaces, FirstCut, Shape, NoComments;
    hide Collapse, Strip, Uncommented, Uncomment, Lex;
    UncommentNothing(key);
    UncommentIsUncommented(key);
    KeyIsSqueezed(key);
    NormalizeWhole(key);
  }

  // ----- the laws over whole files -----

  lemma {:induction false} PiecesWhole(s: string)
    ensures forall piece <- Pieces(s) :: FirstCut(piece) == |piece|
    decreases |s|
  {
    hide FirstCut;
    var k := FirstCut(s);
    PieceHasNoCut(s);
    if k < |s| {
      PiecesWhole(s[k + 1..]);
    }
  }

  lemma {:induction false} KeptPieces(frags: seq<seq<Segment>>, pieces: seq<string>)
    requires LexedAlone(frags, pieces)
    ensures forall st <- Kept(frags) :: st in pieces && HasCode(Lex(st))
  {
    hide Lex, HasCode;
    if frags != [] {
      LexIsPartition(pieces[0]);
      KeptPieces(frags[1..], pieces[1..]);
    }
  }

  // A statement is cut nowhere and holds code.
  lemma {:induction false} StatementsWhole(sql: string)
    ensures forall st <- Statements(sql) :: FirstCut(st) == |st| && HasCode(Lex(st))
  {
    hide Lex, Fragments, Pieces, HasCode, FirstCut;
    PiecesWhole(sql);
    FragmentsArePieces(sql);
    KeptPieces(Fragments(Lex(sql)), Pieces(sql));
  }

  // The keys are the normalized texts in order, or the first refused statement
  // is named.
  lemma {:induction false} KeysOf(statements: seq<string>)
    ensures
      match NormalizedAll(statements)
      case Ok(keys) =>
        && |keys| == |statements|
        && forall i :: 0 <= i < |keys| ==>
             Normalized(statements[i]) == Ok(keys[i]) && keys[i] == NormalizedText(statements[i])
      case QuotesWouldMove(st) => st in statements && Normalized(st) == QuotesWouldMove(st)
  {
    hide NormalizedText, Shape, Lex, Uncommented;
    if statements != [] {
      KeysOf(statements[1..]);
      match NormalizedAll(statements)
      case Ok(keys) =>
        forall i | 0 < i < |keys|
          ensures Normalized(statements[i]) == Ok(keys[i]) && keys[i] == NormalizedText(statements[i])
        {
          assert keys[i] == keys[1..][i - 1] && statements[i] == statements[1..][i - 1];
        }
      case QuotesWouldMove(st) =>
    }
  }

  // What one key is worth.
  ghost predicate Trusted(st: string, key: string) {
    && MarksOf(key) == MarksOf(TextOf(st))
    && Shape(Lex(key)) == Shape(Lex(TextOf(st)))
    && NoComments(Lex(key)) && Normalize(key) == Ok([key])
  }

  lemma {:induction false} SettledIsTrusted(st: string)
    requires FirstCut(st) == |st| && HasCode(Lex(st))
    ensures Settled(st) <==> Trusted(st, NormalizedText(st))
    ensures Settled(st) ==> Normalized(st).Ok?
  {
    hide Settled, TextOf, NormalizedText, Normalize, Normalized, MarksOf, Lex, Shape, NoComments, FirstCut, HasCode;
    hide Squeeze, SkipSpaces;
    QuotesStayIffSettled(st);
    if Settled(st) {
      StayingIsNotRefused(st);
      SettledHasKey(st);
      KeyIsItsOwn(NormalizedText(st));
    }
  }

  // Every key of a file is one line, and bounds what its statement bounds, free
  // of comments and its own key, if and only if the statement is settled; a file
  // of settled statements is not refused, and a refused statement is one whose
  // quotes would move.
  lemma {:induction false} NormalizingIsFaithful(sql: string)
    ensures
      match Normalize(sql)
      case Ok(keys) =>
        && |keys| == |Statements(sql)|
        && forall i :: 0 <= i < |keys| ==>
             && OneLine(keys[i])
             && (Trusted(Statements(sql)[i], keys[i]) <==> Settled(Statements(sql)[i]))
      case QuotesWouldMove(st) => st in Statements(sql) && !Settled(st) && !QuotesStay(st)
    ensures (forall st <- Statements(sql) :: Settled(st)) ==> Normalize(sql).Ok?
  {
    hide Lex, Statements, OneLine, Trusted, Settled, Normalized, NormalizedText, NormalizedAll;
    hide HasCode, FirstCut, QuotesStay;
    var statements := Statements(sql);
    StatementsWhole(sql);
    KeysOf(statements);
    forall st <- statements
      ensures OneLine(NormalizedText(st)) && (Trusted(st, NormalizedText(st)) <==> Settled(st))
      ensures (Settled(st) ==> Normalized(st).Ok?) && (QuotesStay(st) <==> Settled(st))
    {
      KeyIsOneLine(st);
      SettledIsTrusted(st);
      QuotesStayIffSettled(st);
    }
  }

  // ----- ordinary texts -----

  // A statement on one line with no whitespace that is part of a word is settled,
  // whatever it quotes.
  lemma {:induction false} OneLineIsSettled(st: string)
    requires Unmixed(st) && '\n' !in st && '\r' !in st
    ensures Settled(st)
  {
    hide Lex, Uncommented, Uncomment, Uncontinued, Steady;
    var u := Uncomment(st);
    UncommentIsUncommented(st);
    UncommentAddsSpaces(st);
    UnmixedUncommented(st);
    NoBreakIsUncontinued(u);
    UnmixedIsSteady(u);
  }

  // ... and so is one of several lines that holds no escape string.
  lemma {:induction false} PlainIsSettled(st: string)
    requires Unmixed(st) && Plain(st)
    ensures Settled(st)
  {
    hide Lex, Uncommented, Uncomment, Uncontinued, Steady, Plain;
    UncommentIsUncommented(st);
    UnmixedUncommented(st);
    PlainIsCalm(st);
    UnmixedIsSteady(Uncomment(st));
  }

  lemma {:induction false} UnmixedUncommented(st: string)
    requires Unmixed(st)
    ensures Unmixed(Uncomment(st))
  {
    hide Uncomment;
    UncommentAddsSpaces(st);
  }

  // ----- comments do not count -----

  function UncommentAll(texts: seq<string>): seq<string> {
    if texts == [] then [] else [Uncomment(texts[0])] + UncommentAll(texts[1..])
  }

  lemma {:induction false} PiecesUncommented(s: string)
    requires Calm(s)
    ensures Pieces(Uncomment(s)) == UncommentAll(Pieces(s))
    ensures forall piece <- Pieces(s) :: Calm(piece)
    decreases |s|
  {
    hide FirstCut, Uncontinued, Uncomment;
    var k, u := FirstCut(s), Uncomment(s);
    UncommentCut(s);
    CalmParts(s);
    if k < |s| {
      var head, tail := Uncomment(s[..k]), Uncomment(s[k + 1..]);
      PiecesUncommented(s[k + 1..]);
      assert u[..|head|] == head && u[|head| + 1..] == tail;
      assert Pieces(s)[1..] == Pieces(s[k + 1..]);
    } else {
      assert UncommentAll([s]) == [u] by {
        assert [s][1..] == [] && UncommentAll([]) == [];
      }
    }
  }

  lemma {:induction false} KeptUncommented(frags: seq<seq<Segment>>, pieces: seq<string>, others: seq<seq<Segment>>)
    requires LexedAlone(frags, pieces) && LexedAlone(others, UncommentAll(pieces))
    requires forall piece <- pieces :: Calm(piece)
    ensures Kept(others) == UncommentAll(Kept(frags))
    ensures forall st <- Kept(frags) :: Calm(st)
  {
    hide Lex, HasCode, Uncontinued, Uncomment;
    if frags != [] {
      var st, rest := pieces[0], UncommentAll(pieces[1..]);
      assert st in pieces;
      LexIsPartition(st);
      LexIsPartition(Uncomment(st));
      UncommentLeavesNone(st);
      assert UncommentAll(pieces)[1..] == rest && UncommentAll(pieces)[0] == Uncomment(st);
      KeptUncommented(frags[1..], pieces[1..], others[1..]);
      assert HasCode(others[0]) <==> HasCode(frags[0]);
      assert Text(others[0]) == Uncomment(st);
      if HasCode(frags[0]) {
        assert Kept(frags) == [st] + Kept(frags[1..]);
        assert Kept(frags)[1..] == Kept(frags[1..]);
        assert UncommentAll(Kept(frags)) == [Uncomment(st)] + UncommentAll(Kept(frags[1..]));
      } else {
        assert Kept(frags) == Kept(frags[1..]) && Kept(others) == Kept(others[1..]);
      }
    }
  }

  predicate SameOutcome(a: Result<seq<string>>, b: Result<seq<string>>) {
    (a.Ok? <==> b.Ok?) && (a.Ok? ==> a == b)
  }

  lemma {:induction false} NormalizedUncommented(statements: seq<string>)
    requires forall st <- statements :: Calm(st)
    ensures SameOutcome(NormalizedAll(statements), NormalizedAll(UncommentAll(statements)))
  {
    hide Uncontinued, Lex, Uncomment, Uncommented, Shape, Strip, Collapse;
    if statements != [] {
      var st, rest := statements[0], UncommentAll(statements[1..]);
      assert UncommentAll(statements)[1..] == rest;
      UncommentLeavesNone(st);
      UncommentIsUncommented(st);
      UncommentIsUncommented(Uncomment(st));
      NormalizedUncommented(statements[1..]);
    }
  }

  // Where no escape string is carried over a line break, replacing every comment
  // by a space beforehand changes no key and no refusal.
  lemma {:induction false} CommentsDoNotCount(sql: string)
    requires Calm(sql)
    ensures SameOutcome(Normalize(sql), Normalize(Uncommented(Lex(sql))))
  {
    hide Uncontinued, Uncomment, Uncommented, NormalizedAll, Fragments, Pieces;
    var u := Uncomment(sql);
    UncommentIsUncommented(sql);
    hide Lex;
    PiecesUncommented(sql);
    FragmentsArePieces(sql);
    FragmentsArePieces(u);
    KeptUncommented(Fragments(Lex(sql)), Pieces(sql), Fragments(Lex(u)));
    NormalizedUncommented(Statements(sql));
  }
}
