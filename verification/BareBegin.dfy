// What makes a statement open a block, read off its segments.

module BareBegin {
  import opened Chars
  import opened SqlLexer
  import opened Splitter
  import opened LexerLaws
  import opened ExecutionMode

  // ----- upper case -----

  // `str.upper`, one character at a time: these are all the characters whose
  // upper case has a character of ASCII in it. The others keep their case
  // here, which no comparison sees.
  function UpperOf(c: char): string {
    if 'a' <= c <= 'z' then [c - ' ']
    else if c == '\U{131}' then "I"
    else if c == '\U{17f}' then "S"
    else if c == '\U{df}' then "SS"
    else if c == '\U{149}' then "\U{2bc}N"
    else if c == '\U{1f0}' then "J\U{30c}"
    else if c == '\U{1e96}' then "H\U{331}"
    else if c == '\U{1e97}' then "T\U{308}"
    else if c == '\U{1e98}' then "W\U{30a}"
    else if c == '\U{1e99}' then "Y\U{30a}"
    else if c == '\U{1e9a}' then "A\U{2be}"
    else if c == '\U{fb00}' then "FF"
    else if c == '\U{fb01}' then "FI"
    else if c == '\U{fb02}' then "FL"
    else if c == '\U{fb03}' then "FFI"
    else if c == '\U{fb04}' then "FFL"
    else if c == '\U{fb05}' || c == '\U{fb06}' then "ST"
    else [c]
  }

  function Upper(text: string): string {
    if text == "" then "" else UpperOf(text[0]) + Upper(text[1..])
  }

  // Only one character's upper case starts with a given letter of `BEGIN`,
  // besides the letter's own two cases, and it has nothing after it.
  lemma {:induction false} UpperStarts(c: char, letter: char)
    requires letter in "BEGIN"
    ensures UpperOf(c)[0] == letter ==> |UpperOf(c)| == 1
    ensures
      UpperOf(c)[0] == letter <==>
      c == letter || c == letter + ' ' || (c == '\U{131}' && letter == 'I')
  {
  }

  lemma {:induction false} UpperFirst(text: string, letter: char, rest: string)
    requires letter in "BEGIN"
    ensures
      Upper(text) == [letter] + rest <==>
      text != "" && UpperOf(text[0])[0] == letter && Upper(text[1..]) == rest
  {
    if text != "" {
      UpperStarts(text[0], letter);
      hide UpperOf;
      var first := UpperOf(text[0]);
      assert Upper(text) == first + Upper(text[1..]);
      assert Upper(text)[0] == first[0];
      if |first| == 1 {
        assert Upper(text)[1..] == Upper(text[1..]);
        assert ([letter] + rest)[1..] == rest;
      }
    }
  }

  lemma {:induction false} UpperNothing(text: string)
    ensures Upper(text) == "" <==> text == ""
  {
  }

  lemma {:induction false} UpperIsBegin(word: string)
    ensures Upper(word) == "BEGIN" <==> UppersToBegin(word)
  {
    hide Upper, UpperOf;
    var fifth, fourth, third, second := "N", ['I'] + "N", ['G'] + "IN", ['E'] + "GIN";
    assert "BEGIN" == ['B'] + "EGIN" && second == "EGIN" && third == "GIN" && fourth == "IN" && fifth == ['N'] + "";
    UpperFirst(word, 'B', "EGIN");
    if |word| >= 1 {
      UpperStarts(word[0], 'B');
      UpperFirst(word[1..], 'E', "GIN");
    }
    if |word| >= 2 {
      UpperStarts(word[1], 'E');
      UpperFirst(word[1..][1..], 'G', "IN");
    }
    if |word| >= 3 {
      UpperStarts(word[2], 'G');
      UpperFirst(word[1..][1..][1..], 'I', "N");
    }
    if |word| >= 4 {
      UpperStarts(word[3], 'I');
      UpperFirst(word[1..][1..][1..][1..], 'N', "");
    }
    if |word| >= 5 {
      UpperStarts(word[4], 'N');
      UpperNothing(word[1..][1..][1..][1..][1..]);
    }
  }

  // ----- a text that is one word -----

  predicate BeginsAt(text: string, i: nat, j: nat) {
    i <= j <= |text| && Blank(text[..i]) && Upper(text[i..j]) == "BEGIN" && Blank(text[j..])
  }

  // A text that is `BEGIN`, in any case, with whitespace around it.
  ghost predicate IsBegin(text: string) {
    exists i: nat, j: nat :: BeginsAt(text, i, j)
  }

  lemma {:induction false} SkipsTo(text: string, i: nat)
    requires i < |text| && Blank(text[..i]) && !IsSpace(text[i])
    ensures SkipSpaces(text) == text[i..]
    decreases i
  {
    if i > 0 {
      assert text[..i][0] == text[0];
      assert text[1..][..i - 1] == text[..i][1..];
      SkipsTo(text[1..], i - 1);
    }
  }

  lemma {:induction false} DropsTo(text: string, j: nat)
    requires 0 < j <= |text| && Blank(text[j..]) && !IsSpace(text[j - 1])
    ensures DropLastSpaces(text) == text[..j]
    decreases |text|
  {
    if j < |text| {
      var last := |text| - 1;
      assert text[j..][last - j] == text[last];
      assert text[..last][j..] == text[j..][..last - j];
      DropsTo(text[..last], j);
      assert text[..last][..j] == text[..j];
    }
  }

  lemma {:induction false} StripIsWord(text: string, i: nat, j: nat)
    requires i < j <= |text| && Blank(text[..i]) && Blank(text[j..])
    requires !IsSpace(text[i]) && !IsSpace(text[j - 1])
    ensures Strip(text) == text[i..j]
  {
    hide IsSpace, SkipSpaces, DropLastSpaces, Blank;
    SkipsTo(text, i);
    assert text[i..][j - i..] == text[j..] && text[i..][j - i - 1] == text[j - 1];
    DropsTo(text[i..], j - i);
    assert text[i..][..j - i] == text[i..j];
  }

  lemma {:induction false} LettersOfBegin(word: string)
    requires UppersToBegin(word)
    ensures |word| == 5 && forall c <- word :: !IsSpace(c) && c !in "'\"$"
  {
  }

  lemma {:induction false} StripBegins(text: string)
    requires UppersToBegin(Strip(text))
    ensures IsBegin(text)
  {
    hide UppersToBegin, Upper, Blank, Strip;
    var i, j := StripIsSlice(text);
    UpperIsBegin(Strip(text));
    assert BeginsAt(text, i, j);
  }

  lemma {:induction false} StripIsSlice(text: string) returns (i: nat, j: nat)
    ensures i <= j <= |text| && Blank(text[..i]) && text[i..j] == Strip(text) && Blank(text[j..])
  {
    hide Blank, SkipSpaces, DropLastSpaces;
    var rest := SkipSpaces(text);
    var word := DropLastSpaces(rest);
    i := |text| - |rest|;
    j := i + |word|;
    assert rest == text[i..];
    SliceOf(text, i, |word|);
  }

  lemma {:induction false} SliceOf(text: string, i: nat, n: nat)
    requires i + n <= |text|
    ensures text[i..][..n] == text[i..i + n] && text[i..][n..] == text[i + n..]
  {
  }

  lemma {:induction false} BeginIsStripped(text: string)
    requires IsBegin(text)
    ensures UppersToBegin(Strip(text))
  {
    hide UppersToBegin, Upper, Blank, Strip;
    var i: nat, j: nat :| BeginsAt(text, i, j);
    var word := text[i..j];
    UpperIsBegin(word);
    LettersOfBegin(word);
    assert text[i] == word[0] && text[j - 1] == word[4];
    StripIsWord(text, i, j);
  }

  lemma {:induction false} StripIsBegin(text: string)
    ensures UppersToBegin(Strip(text)) <==> IsBegin(text)
  {
    hide UppersToBegin, Strip, IsBegin;
    if UppersToBegin(Strip(text)) {
      StripBegins(text);
    }
    if IsBegin(text) {
      BeginIsStripped(text);
    }
  }

  // ----- a text in two parts -----

  lemma {:induction false} BlankFront(front: string, text: string)
    requires Blank(front)
    ensures IsBegin(front + text) <==> IsBegin(text)
  {
    hide Blank, Upper;
    var n := |front|;
    if IsBegin(text) {
      var i: nat, j: nat :| BeginsAt(text, i, j);
      FrontShifts(front, text, i, j);
      assert BeginsAt(front + text, n + i, n + j);
    }
    if IsBegin(front + text) {
      var i: nat, j: nat :| BeginsAt(front + text, i, j);
      BeginIsAfter(front, text, i, j);
      FrontShifts(front, text, i - n, j - n);
      assert BeginsAt(text, i - n, j - n);
    }
  }

  lemma {:induction false} FrontShifts(front: string, text: string, i: nat, j: nat)
    requires Blank(front) && i <= j
    ensures BeginsAt(front + text, |front| + i, |front| + j) <==> BeginsAt(text, i, j)
  {
    hide Upper, Blank;
    var all, n := front + text, |front|;
    if j <= |text| {
      assert all[..n + i] == front + text[..i] && all[n + i..n + j] == text[i..j] && all[n + j..] == text[j..];
      BlankBoth(front, text[..i]);
    }
  }

  lemma {:induction false} BlankBoth(first: string, second: string)
    ensures Blank(first + second) <==> Blank(first) && Blank(second)
  {
    hide IsSpace;
    var all := first + second;
    assert forall c :: c in all <==> c in first || c in second;
  }

  lemma {:induction false} BeginIsAfter(front: string, text: string, i: nat, j: nat)
    requires Blank(front) && BeginsAt(front + text, i, j)
    ensures |front| <= i
  {
    hide Upper, IsSpace;
    var word := (front + text)[i..j];
    UpperIsBegin(word);
    LettersOfBegin(word);
    assert !IsSpace(word[0]) && word[0] == (front + text)[i];
    assert forall k :: 0 <= k < |front| ==> (front + text)[k] == front[k];
  }

  lemma {:induction false} BlankBack(text: string, back: string)
    requires Blank(back)
    ensures IsBegin(text + back) <==> IsBegin(text)
  {
    hide Blank, Upper;
    if IsBegin(text) {
      var i: nat, j: nat :| BeginsAt(text, i, j);
      BackStays(text, back, i, j);
      assert BeginsAt(text + back, i, j);
    }
    if IsBegin(text + back) {
      var i: nat, j: nat :| BeginsAt(text + back, i, j);
      BeginIsBefore(text, back, i, j);
      BackStays(text, back, i, j);
      assert BeginsAt(text, i, j);
    }
  }

  lemma {:induction false} BackStays(text: string, back: string, i: nat, j: nat)
    requires Blank(back) && i <= j <= |text|
    ensures BeginsAt(text + back, i, j) <==> BeginsAt(text, i, j)
  {
    hide Upper, Blank;
    var all := text + back;
    assert all[..i] == text[..i] && all[i..j] == text[i..j] && all[j..] == text[j..] + back;
    BlankBoth(text[j..], back);
  }

  lemma {:induction false} BeginIsBefore(text: string, back: string, i: nat, j: nat)
    requires Blank(back) && BeginsAt(text + back, i, j)
    ensures j <= |text|
  {
    hide Upper, IsSpace;
    var all := text + back;
    var word := all[i..j];
    UpperIsBegin(word);
    LettersOfBegin(word);
    assert !IsSpace(word[4]) && word[4] == all[j - 1];
    assert forall k :: |text| <= k < |all| ==> all[k] == back[k - |text|];
  }

  // A break between two texts that both say something breaks the word.
  lemma {:induction false} TwoTexts(text: string, back: string)
    requires !Blank(text) && !Blank(back) && IsSpace(back[0])
    ensures !IsBegin(text + back)
  {
    hide Upper, IsSpace;
    var all, n := text + back, |text|;
    var m :| 0 <= m < n && !IsSpace(text[m]);
    var l :| 0 <= l < |back| && !IsSpace(back[l]);
    assert all[m] == text[m] && all[n + l] == back[l] && all[n] == back[0];
    forall i: nat, j: nat | i <= j <= |all| && Blank(all[..i]) && Blank(all[j..])
      ensures Upper(all[i..j]) != "BEGIN"
    {
      InTheWord(all, i, j, m);
      InTheWord(all, i, j, n + l);
      assert all[i..j][n - i] == all[n];
      UpperIsBegin(all[i..j]);
      BeginHasNone(all[i..j], n - i);
    }
  }

  lemma {:induction false} InTheWord(text: string, i: nat, j: nat, k: nat)
    requires i <= j <= |text| && Blank(text[..i]) && Blank(text[j..])
    requires k < |text| && !IsSpace(text[k])
    ensures i <= k < j
  {
    hide IsSpace;
    assert forall m :: 0 <= m < i ==> text[m] == text[..i][m];
    assert forall m :: j <= m < |text| ==> text[m] == text[j..][m - j];
  }

  lemma {:induction false} BeginHasNone(word: string, k: nat)
    requires k < |word| && (IsSpace(word[k]) || word[k] in "'\"$")
    ensures !UppersToBegin(word)
  {
    hide IsSpace, UppersToBegin;
    if UppersToBegin(word) {
      LettersOfBegin(word);
    }
  }

  predicate HoldsMark(text: string) {
    exists c <- text :: c in "'\"$"
  }

  lemma {:induction false} MarkIsNoSpace(text: string)
    requires HoldsMark(text)
    ensures !Blank(text)
  {
    var c :| c in text && c in "'\"$";
    assert !IsSpace(c);
  }

  lemma {:induction false} MarkedIsNoBegin(text: string)
    requires HoldsMark(text)
    ensures !IsBegin(text)
  {
    hide Upper;
    var k :| 0 <= k < |text| && text[k] in "'\"$";
    assert !IsSpace(text[k]);
    forall i: nat, j: nat |
      i <= j <= |text| && Blank(text[..i]) && Blank(text[j..])
      ensures Upper(text[i..j]) != "BEGIN"
    {
      hide IsSpace, UppersToBegin;
      InTheWord(text, i, j, k);
      assert text[k] == text[i..j][k - i];
      UpperIsBegin(text[i..j]);
      BeginHasNone(text[i..j], k - i);
    }
  }

  lemma {:induction false} SpaceIsSpace()
    ensures IsSpace(' ')
  {
  }

  // ----- segments -----

  predicate SaysNothing(seg: Segment) {
    seg.kind == LineComment || seg.kind == BlockComment || (seg.kind == Code && Blank(seg.text))
  }

  // One segment of code that is `BEGIN`, all others comments or blank.
  ghost predicate IsBareBegin(segs: seq<Segment>, k: nat)
    requires k < |segs|
  {
    && segs[k].kind == Code && IsBegin(segs[k].text)
    && forall i :: 0 <= i < |segs| && i != k ==> SaysNothing(segs[i])
  }

  ghost predicate HasBareBegin(segs: seq<Segment>) {
    exists k: nat :: k < |segs| && IsBareBegin(segs, k)
  }

  // What lexing gives: no code beside code, and a mark in every quoted text.
  predicate IsLexed(segs: seq<Segment>) {
    && (forall i :: 0 <= i < |segs| - 1 ==> segs[i].kind != Code || segs[i + 1].kind != Code)
    && forall seg <- segs :: seg.kind in {Code, LineComment, BlockComment} || HoldsMark(seg.text)
  }

  lemma {:induction false} FormHoldsMark(s: string)
    requires s != ""
    ensures FormAt(s).kind in {Code, LineComment, BlockComment} || HoldsMark(s[..FormAt(s).len])
  {
    hide QuotedEnd, EscapeEnd, BlockEnd, DollarEnd, CommentReach, IsWordStart;
    var f := FormAt(s);
    if f.kind !in {Code, LineComment, BlockComment} {
      var text := s[..f.len];
      if s[0] in "'\"$" {
        assert text[0] == s[0];
      } else {
        WordHoldsMark(s);
      }
    }
  }

  lemma {:induction false} WordHoldsMark(s: string)
    requires s != "" && IsWordStart(s[0]) && WordForm(s).kind != Code
    ensures HoldsMark(s[..WordForm(s).len])
  {
    hide QuotedEnd, EscapeEnd, IsWordStart;
    var text, rest := s[..WordForm(s).len], s[1..];
    if s[1] == '\'' {
      assert text[1] == s[1] && text[1] in "'\"$";
    } else {
      assert text[2] == s[2] == rest[1] && text[2] in "'\"$";
    }
  }

  lemma {:induction false} LexIsLexed(s: string)
    ensures IsLexed(Lex(s))
  {
    hide HoldsMark, Lex;
    LexIsPartition(s);
    LexHoldsMarks(s);
  }

  lemma {:induction false} LexHoldsMarks(s: string)
    ensures forall seg <- Lex(s) :: seg.kind in {Code, LineComment, BlockComment} || HoldsMark(seg.text)
    decreases |s|
  {
    hide HoldsMark, FormAt;
    if s != "" {
      FormHoldsMark(s);
      LexHoldsMarks(s[FormAt(s).len..]);
    }
  }

  lemma {:induction false} LexedTail(segs: seq<Segment>)
    requires segs != [] && IsLexed(segs)
    ensures IsLexed(segs[1..])
  {
    hide HoldsMark;
    forall i | 0 <= i < |segs[1..]| - 1 ensures segs[1..][i].kind != Code || segs[1..][i + 1].kind != Code {
      assert segs[1..][i] == segs[i + 1] && segs[1..][i + 1] == segs[i + 2];
    }
  }

  lemma {:induction false} NothingIsBlank(segs: seq<Segment>)
    requires IsLexed(segs)
    ensures Blank(Uncommented(segs)) <==> forall seg <- segs :: SaysNothing(seg)
  {
    hide HoldsMark;
    if segs != [] {
      LexedTail(segs);
      NothingIsBlank(segs[1..]);
      var first := if IsComment(segs[0].kind) then " " else segs[0].text;
      if HoldsMark(segs[0].text) {
        MarkIsNoSpace(segs[0].text);
      }
      assert Blank(first) <==> SaysNothing(segs[0]);
      hide IsSpace, SaysNothing;
      assert Uncommented(segs) == first + Uncommented(segs[1..]);
      assert segs == [segs[0]] + segs[1..];
    }
  }

  lemma {:induction false} BareTail(segs: seq<Segment>)
    requires segs != [] && SaysNothing(segs[0]) && !(segs[0].kind == Code && IsBegin(segs[0].text))
    ensures HasBareBegin(segs) <==> HasBareBegin(segs[1..])
  {
    hide SaysNothing, IsBegin;
    var rest := segs[1..];
    assert forall i :: 0 <= i < |rest| ==> rest[i] == segs[i + 1];
    if HasBareBegin(segs) {
      var k: nat :| k < |segs| && IsBareBegin(segs, k);
      assert IsBareBegin(rest, k - 1);
    }
    if HasBareBegin(rest) {
      var k: nat :| k < |rest| && IsBareBegin(rest, k);
      assert IsBareBegin(segs, k + 1);
    }
  }

  lemma {:induction false} BareHead(segs: seq<Segment>)
    requires segs != [] && !SaysNothing(segs[0])
    ensures
      HasBareBegin(segs) <==>
      segs[0].kind == Code && IsBegin(segs[0].text) && forall seg <- segs[1..] :: SaysNothing(seg)
  {
    hide SaysNothing, IsBegin;
    var rest := segs[1..];
    assert forall i :: 0 <= i < |rest| ==> rest[i] == segs[i + 1];
    if segs[0].kind == Code && IsBegin(segs[0].text) && forall seg <- rest :: SaysNothing(seg) {
      assert forall i :: 1 <= i < |segs| ==> segs[i] == rest[i - 1];
      assert IsBareBegin(segs, 0);
    }
  }

  lemma {:induction false} BlankIsNoBegin(text: string)
    requires Blank(text)
    ensures !IsBegin(text)
  {
    BlankFront(text, "");
    assert text + "" == text;
    forall i: nat, j: nat | i <= j <= |""| ensures Upper(""[i..j]) != "BEGIN" {
    }
  }

  lemma {:induction false} UncommentedIsBegin(segs: seq<Segment>)
    requires IsLexed(segs)
    ensures IsBegin(Uncommented(segs)) <==> HasBareBegin(segs)
  {
    hide IsBegin, IsSpace, HoldsMark, HasBareBegin;
    if segs == [] {
      BlankIsNoBegin("");
      NoneIsBare(segs);
      return;
    }
    LexedTail(segs);
    UncommentedIsBegin(segs[1..]);
    var first, rest := if IsComment(segs[0].kind) then " " else segs[0].text, Uncommented(segs[1..]);
    assert Uncommented(segs) == first + rest;
    if SaysNothing(segs[0]) {
      SpaceIsSpace();
      BlankFront(first, rest);
      if segs[0].kind == Code {
        BlankIsNoBegin(segs[0].text);
      }
      BareTail(segs);
    } else {
      BareHead(segs);
      NothingIsBlank(segs[1..]);
      FirstSays(segs);
    }
  }

  lemma {:induction false} NoneIsBare(segs: seq<Segment>)
    requires segs == []
    ensures !HasBareBegin(segs)
  {
  }

  lemma {:induction false} FirstSays(segs: seq<Segment>)
    requires IsLexed(segs) && segs != [] && !SaysNothing(segs[0])
    ensures
      IsBegin(Uncommented(segs)) <==>
      segs[0].kind == Code && IsBegin(segs[0].text) && Blank(Uncommented(segs[1..]))
  {
    hide IsBegin, IsSpace, HoldsMark;
    var text, rest := segs[0].text, Uncommented(segs[1..]);
    assert Uncommented(segs) == text + rest;
    if segs[0].kind != Code {
      MarkGoesOn("", text, rest);
      MarkedIsNoBegin(text + rest);
    } else if Blank(rest) {
      BlankBack(text, rest);
    } else {
      var next, more := segs[1], Uncommented(segs[2..]);
      assert segs[1..][1..] == segs[2..];
      if IsComment(next.kind) {
        assert rest == " " + more;
        SpaceIsSpace();
        TwoTexts(text, rest);
      } else {
        assert rest == next.text + more;
        assert next in segs;
        MarkGoesOn(text, next.text, more);
        MarkedIsNoBegin(text + rest);
      }
    }
  }

  lemma {:induction false} MarkGoesOn(front: string, text: string, back: string)
    requires HoldsMark(text)
    ensures HoldsMark(front + (text + back)) && HoldsMark(text + back)
  {
    var c :| c in text && c in "'\"$";
    assert c in text + back && c in front + (text + back);
  }

  // A statement opens a block exactly when one piece of its code is the word
  // `BEGIN` and all the rest of it is comments and whitespace.
  lemma {:induction false} OpensBlockIsBareBegin(statement: string)
    ensures OpensBlock(Lex(statement)) <==> HasBareBegin(Lex(statement))
  {
    hide Lex, IsBegin, Uncommented, Strip, UppersToBegin, HasBareBegin, IsLexed;
    LexIsLexed(statement);
    UncommentedIsBegin(Lex(statement));
    StripIsBegin(Uncommented(Lex(statement)));
  }
}
