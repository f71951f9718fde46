// How a migration file is executed, read from the statements it was cut into.

module ExecutionMode {
  import opened Chars
  import opened SqlLexer
  import opened Splitter
  import opened LexerLaws

  datatype Mode = Wrapped | SelfManaged | NoTransaction

  // The text of some segments with a space where each comment was.
  function Uncommented(segs: seq<Segment>): string {
    if segs == [] then ""
    else (if IsComment(segs[0].kind) then " " else segs[0].text) + Uncommented(segs[1..])
  }

  function SkipSpaces(s: string): (r: string)
    ensures r == "" || !IsSpace(r[0])
    ensures |r| <= |s| && s[|s| - |r|..] == r && Blank(s[..|s| - |r|])
  {
    if s == "" || !IsSpace(s[0]) then s else SkipSpaces(s[1..])
  }

  function DropLastSpaces(s: string): (r: string)
    ensures r == "" || !IsSpace(r[|r| - 1])
    ensures r <= s && Blank(s[|r|..])
  {
    if s == "" || !IsSpace(s[|s| - 1]) then s else DropLastSpaces(s[..|s| - 1])
  }

  function Strip(s: string): string {
    DropLastSpaces(SkipSpaces(s))
  }

  // Whether `s.upper()` is `BEGIN`. A dotless i is the one character outside
  // ASCII whose upper case is one of the five letters.
  predicate UppersToBegin(s: string) {
    && |s| == 5
    && s[0] in "Bb" && s[1] in "Ee" && s[2] in "Gg" && s[3] in "Ii\U{131}" && s[4] in "Nn"
  }

  predicate OpensBlock(segs: seq<Segment>) {
    UppersToBegin(Strip(Uncommented(segs)))
  }

  method ModeOf(noTransaction: bool, statements: seq<string>) returns (mode: Mode)
    ensures mode == NoTransaction <==> noTransaction
    ensures
      mode == SelfManaged <==>
      !noTransaction && exists statement <- statements :: OpensBlock(Lex(statement))
  {
    hide OpensBlock, Lex;
    if noTransaction {
      return NoTransaction;
    }
    for k := 0 to |statements|
      invariant forall j :: 0 <= j < k ==> !OpensBlock(Lex(statements[j]))
    {
      var segs := Segments(statements[k]);
      if OpensBlock(segs) {
        assert statements[k] in statements;
        return SelfManaged;
      }
    }
    return Wrapped;
  }

  // The mode read from the cut statements is the one the file means: some
  // statement opens a block on its own exactly when some fragment of the file,
  // as the whole file lexes it, is a bare `BEGIN`.
  lemma {:induction false} ModeIsTheFilesOwn(sql: string)
    ensures
      (exists statement <- Statements(sql) :: OpensBlock(Lex(statement))) <==>
      (exists frag <- Fragments(Lex(sql)) :: OpensBlock(frag))
  {
    hide Lex, Fragments, OpensBlock;
    var frags := Fragments(Lex(sql));
    KeptIsWithCode(frags);
    var kept := WithCode(frags);
    forall statement | statement in Statements(sql) && OpensBlock(Lex(statement))
      ensures exists frag <- frags :: OpensBlock(frag)
    {
      var i :| 0 <= i < |kept| && TextsOf(kept)[i] == statement;
      assert kept[i] in kept;
      SplittingIsAHomomorphism(sql, kept[i]);
    }
    forall frag | frag in frags && OpensBlock(frag)
      ensures exists statement <- Statements(sql) :: OpensBlock(Lex(statement))
    {
      if !HasCode(frag) {
        NoCodeIsNoBlock(frag);
        assert false;
      }
      var i :| 0 <= i < |kept| && kept[i] == frag;
      SplittingIsAHomomorphism(sql, frag);
      assert TextsOf(kept)[i] in Statements(sql);
    }
  }

  lemma {:induction false} NoCodeIsNoBlock(frag: seq<Segment>)
    requires !HasCode(frag)
    ensures !OpensBlock(frag)
  {
    NoCodeIsBlank(frag);
    var text := Uncommented(frag);
    assert Blank(Strip(text));
  }

  lemma {:induction false} NoCodeIsBlank(frag: seq<Segment>)
    requires !HasCode(frag)
    ensures Blank(Uncommented(frag))
  {
    if frag != [] {
      assert forall seg :: seg in frag[1..] ==> seg in frag;
      NoCodeIsBlank(frag[1..]);
      assert IsComment(frag[0].kind) || Blank(frag[0].text);
    }
  }
}
