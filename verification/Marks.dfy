// What the quotes of a text bound, said character by character, and exactly
// when collapsing its whitespace leaves that alone.

module Marks {
  import opened Chars
  import opened SqlLexer
  import opened Splitter
  import opened ExecutionMode
  import opened Escapes
  import opened Uncommenting
  import opened Squeezing

  // One character that is not whitespace, and where it stands: in code, or in a
  // quoted form or a comment, opening it or not.
  datatype Mark = Mark(c: char, kind: Kind, opens: bool, closed: bool)

  function Inner(kind: Kind, text: string): seq<Mark> {
    if text == "" then []
    else (if IsSpace(text[0]) then [] else [Mark(text[0], kind, false, true)]) + Inner(kind, text[1..])
  }

  function Outer(f: Form, text: string): seq<Mark>
    requires text != ""
  {
    if f.kind == Code then Inner(Code, text)
    else [Mark(text[0], f.kind, true, f.closed)] + Inner(f.kind, text[1..])
  }

  // Every character of `s` but its whitespace, with where it stands.
  function MarksOf(s: string): seq<Mark>
    decreases |s|
  {
    if s == "" then []
    else
      var n := FormAt(s).len;
      Outer(FormAt(s), s[..n]) + MarksOf(s[n..])
  }

  // ----- characters -----

  lemma {:induction false} InnerBoth(kind: Kind, a: string, b: string)
    ensures Inner(kind, a + b) == Inner(kind, a) + Inner(kind, b)
    decreases |a|
  {
    hide IsSpace;
    if a == "" {
      assert a + b == b;
    } else {
      assert (a + b)[1..] == a[1..] + b;
      InnerBoth(kind, a[1..], b);
    }
  }

  lemma {:induction false} InnerBlank(kind: Kind, s: string)
    requires Blank(s)
    ensures Inner(kind, s) == []
  {
    hide IsSpace;
    if s != "" {
      assert s[0] in s;
      InnerBlank(kind, s[1..]);
    }
  }

  lemma {:induction false} InnerSkips(kind: Kind, s: string)
    ensures Inner(kind, SkipSpaces(s)) == Inner(kind, s)
  {
    hide IsSpace, SkipSpaces;
    var rest := SkipSpaces(s);
    var n := |s| - |rest|;
    InnerBlank(kind, s[..n]);
    InnerBoth(kind, s[..n], rest);
    assert s[..n] + rest == s;
  }

  // Squeezing touches no character but whitespace.
  lemma {:induction false} InnerSqueezed(kind: Kind, s: string)
    ensures Inner(kind, Squeeze(s)) == Inner(kind, s)
    decreases |s|
  {
    hide IsSpace, SkipSpaces, Squeeze;
    if s == "" {
      NothingSqueezed();
    } else if IsSpace(s[0]) {
      var rest := SkipSpaces(s);
      SkipsOne(s);
      InnerSqueezed(kind, rest);
      InnerSkips(kind, s);
      SqueezeOfSpaces(s);
      QuoteIsSolid();
      NothingSqueezed();
    } else {
      SqueezeHead(s);
      InnerSqueezed(kind, s[1..]);
    }
  }

  // Where the rest was squeezed to the rest, the start was squeezed to the start.
  lemma {:induction false} InnerStart(kind: Kind, s: string, n: nat, m: nat)
    requires n <= |s| && m <= |Squeeze(s)| && Squeeze(s)[m..] == Squeeze(s[n..])
    ensures Inner(kind, Squeeze(s)[..m]) == Inner(kind, s[..n])
  {
    hide Squeeze, Inner;
    var u := Squeeze(s);
    InnerSqueezed(kind, s);
    InnerSqueezed(kind, s[n..]);
    InnerBoth(kind, s[..n], s[n..]);
    InnerBoth(kind, u[..m], u[m..]);
    assert s[..n] + s[n..] == s && u[..m] + u[m..] == u;
    var tail := Inner(kind, s[n..]);
    assert |Inner(kind, u[..m])| == |Inner(kind, s[..n])|;
    SamePrefix(Inner(kind, u[..m]), Inner(kind, s[..n]), tail);
  }

  lemma {:induction false} SamePrefix<T>(a: seq<T>, b: seq<T>, c: seq<T>)
    requires |a| == |b| && a + c == b + c
    ensures a == b
  {
    assert a == (a + c)[..|a|] && b == (b + c)[..|b|];
  }

  // ----- one form -----

  lemma {:induction false} OpensFirst(s: string)
    requires s != "" && FormAt(s).kind != Code
    ensures MarksOf(s) != [] && MarksOf(s)[0].opens && MarksOf(s)[0].c == s[0]
  {
    hide FormAt;
  }

  // No text starts inside a form.
  lemma {:induction false} NothingStartsInside(s: string)
    requires MarksOf(s) != []
    ensures MarksOf(s)[0].opens || MarksOf(s)[0].kind == Code
    decreases |s|
  {
    hide FormAt;
    if s != "" {
      var n := FormAt(s).len;
      if Outer(FormAt(s), s[..n]) == [] {
        NothingStartsInside(s[n..]);
      } else {
        InnerIsCode(s[..n]);
      }
    }
  }

  lemma {:induction false} InnerIsCode(text: string)
    ensures forall mark <- Inner(Code, text) :: mark.kind == Code && !mark.opens
  {
    hide IsSpace;
    if text != "" {
      InnerIsCode(text[1..]);
    }
  }

  // A form that is squeezed to the same form marks the same.
  lemma {:induction false} SameFormMarks(s: string)
    requires s != "" && SolidHead(s)
    ensures
      var n := FormAt(s).len;
      MarksOf(Squeeze(s)) == Outer(FormAt(s), s[..n]) + MarksOf(Squeeze(s[n..]))
  {
    SqueezeForm(s);
    HeadIsNoSpace(s);
    SqueezeHead(s);
    hide FormAt, Squeeze, SolidHead, Inner, MarksOf, Outer, IsSpace;
    var u, f := Squeeze(s), FormAt(s);
    var g := FormAt(u);
    InnerStart(f.kind, s, f.len, g.len);
    InnerOfHead(f.kind, s, f.len);
    InnerOfHead(f.kind, u, g.len);
    SameOuter(f, s[..f.len], g, u[..g.len]);
    HeadMarks(u);
  }

  lemma {:induction false} SameOuter(f: Form, s: string, g: Form, u: string)
    requires f.kind == g.kind && f.closed == g.closed && s != "" && u != "" && s[0] == u[0]
    requires !IsSpace(s[0]) && Inner(f.kind, s) == Inner(f.kind, u)
    ensures Outer(f, s) == Outer(g, u)
  {
    hide IsSpace;
    Cancelled([Mark(s[0], f.kind, false, true)], Inner(f.kind, s[1..]), Inner(f.kind, u[1..]));
  }

  lemma {:induction false} HeadIsNoSpace(s: string)
    requires s != "" && SolidHead(s)
    ensures !IsSpace(s[0])
  {
    hide FormAt;
  }

  lemma {:induction false} InnerOfHead(kind: Kind, s: string, n: nat)
    requires 0 < n <= |s| && !IsSpace(s[0])
    ensures Inner(kind, s[..n]) == [Mark(s[0], kind, false, true)] + Inner(kind, s[1..n])
  {
    assert s[..n][1..] == s[1..n];
  }

  // A space in front marks nothing.
  lemma {:induction false} SpaceMarksNothing(s: string)
    ensures MarksOf(" " + s) == MarksOf(s)
  {
    var t := " " + s;
    SpaceIsCode(s);
    hide FormAt;
    assert t[..1] == " " && t[1..] == s;
    QuoteIsSolid();
    InnerBlank(Code, " ");
  }

  // Nor does whitespace at the head of a text about to be squeezed.
  lemma {:induction false} SkippedMarksTheSame(s: string)
    ensures MarksOf(Squeeze(SkipSpaces(s))) == MarksOf(Squeeze(s))
  {
    hide MarksOf, Squeeze, IsSpace;
    var rest := SkipSpaces(s);
    if s != "" && IsSpace(s[0]) {
      SqueezeOfSpaces(s);
      NothingSqueezed();
      if rest != "" {
        SpaceMarksNothing(Squeeze(rest));
        assert Squeeze(s) == " " + Squeeze(rest);
      }
    }
  }

  lemma {:induction false} TailMarksTheSame(s: string)
    requires s != "" && IsSpace(s[0])
    ensures MarksOf(Squeeze(s)) == MarksOf(Squeeze(s[1..]))
  {
    SkippedMarksTheSame(s);
    SkippedMarksTheSame(s[1..]);
    hide MarksOf, Squeeze, IsSpace;
  }

  // ----- code with whitespace in its words -----

  // Each whitespace character as a plain space.
  function Spaced(s: string): (r: string)
    ensures |r| == |s| && forall i :: 0 <= i < |s| ==> r[i] == if IsSpace(s[i]) then ' ' else s[i]
  {
    seq(|s|, i requires 0 <= i < |s| => if IsSpace(s[i]) then ' ' else s[i])
  }

  // No quote, comment or dollar body opens in the first `n` characters.
  predicate StaysCode(s: string, n: nat)
    requires n <= |s|
    decreases |s|
  {
    n == 0 ||
    (FormAt(s).kind == Code
     && StaysCode(s[FormAt(s).len..], if FormAt(s).len <= n then n - FormAt(s).len else 0))
  }

  // Read with plain spaces, a word is still code and a dollar tag still a tag.
  predicate SteadyHead(s: string)
    requires s != ""
  {
    var f := FormAt(s);
    && (f.kind == Code ==> StaysCode(Spaced(s[..f.len]) + s[f.len..], f.len))
    && (f.kind == Dollar ==> Solid(s[..TagLength(s).value]))
  }

  // No whitespace that counts as part of a word hides a quote's prefix or a tag.
  predicate Steady(s: string)
    decreases |s|
  {
    s == "" || (SteadyHead(s) && Steady(s[FormAt(s).len..]))
  }

  lemma {:induction false} SpacedSqueeze(s: string, x: string)
    ensures Squeeze(Spaced(s) + x) == Squeeze(s + x)
    ensures Inner(Code, Spaced(s)) == Inner(Code, s)
    decreases |s|
  {
    hide Squeeze, IsSpace, SkipSpaces;
    var t := Spaced(s);
    if s == "" {
    } else {
      QuoteIsSolid();
      assert t[1..] == Spaced(s[1..]);
      SpacedSqueeze(s[1..], x);
      assert (t + x)[1..] == t[1..] + x && (s + x)[1..] == s[1..] + x;
      if IsSpace(s[0]) {
        SqueezeAfterSpace(t + x);
        SqueezeAfterSpace(s + x);
      } else {
        SqueezeHead(t + x);
        SqueezeHead(s + x);
        assert Squeeze(t + x) == [s[0]] + Squeeze(t[1..] + x);
        assert Squeeze(s + x) == [s[0]] + Squeeze(s[1..] + x);
      }
    }
  }

  // A squeezed text behind one more whitespace character.
  lemma {:induction false} SqueezeAfterSpace(s: string)
    requires s != "" && IsSpace(s[0])
    ensures
      var y := Squeeze(s[1..]);
      Squeeze(s) == if y == "" || y[0] == ' ' then y else " " + y
  {
    SqueezeFollows(s[1..]);
    assert SkipSpaces(s) == SkipSpaces(s[1..]);
  }

  // The first `n` characters are code's, and no word goes on past them.
  predicate IsRun(s: string, n: nat) {
    && n <= |s|
    && (forall i :: 0 <= i < n ==> !(IsSpace(s[i]) && IsWordChar(s[i])))
    && (0 < n < |s| ==> !(IsWordChar(s[n - 1]) && IsWordChar(s[n])))
  }

  lemma {:induction false} CodeFormIsSolid(s: string, n: nat)
    requires IsRun(s, n) && n > 0 && FormAt(s).kind == Code && !IsSpace(s[0])
    ensures FormAt(s).len <= n && Solid(s[..FormAt(s).len])
  {
    CodeFormIsWord(s);
    hide FormAt, IsSpace, IsWordChar;
    var m := FormAt(s).len;
    if m > 1 {
      forall i | 0 <= i < m && i < n ensures !IsSpace(s[i]) {
      }
    }
  }

  lemma {:induction false} CodeFormIsWord(s: string)
    requires s != "" && FormAt(s).kind == Code
    ensures FormAt(s).len > 1 ==> forall i :: 0 <= i < FormAt(s).len ==> IsWordChar(s[i])
  {
    hide QuotedEnd, EscapeEnd, BlockEnd, DollarEnd, TagLength, LineEnd;
  }

  lemma {:induction false} RunAfterForm(s: string, n: nat, m: nat)
    requires IsRun(s, n) && m <= n
    ensures IsRun(s[m..], n - m)
  {
    hide IsSpace, IsWordChar;
  }

  lemma {:induction false} DollarInRun(s: string, n: nat)
    requires IsRun(s, n) && n > 0 && FormAt(s).kind == Dollar
    ensures Solid(s[..TagLength(s).value])
  {
    hide QuotedEnd, EscapeEnd, BlockEnd, DollarEnd, LineEnd, TagLength, WordForm;
    TagInRun(s, n, 1);
  }

  lemma {:induction false} TagInRun(s: string, n: nat, k: nat)
    requires IsRun(s, n) && TagLength(s).Some? && 0 < k <= n && k <= TagLength(s).value
    ensures Solid(s[..TagLength(s).value])
    decreases TagLength(s).value - k
  {
    hide TagRun, NameLength;
    var m := TagLength(s).value;
    assert forall i :: 0 <= i < m ==> IsWordChar(s[i]);
    if k < m {
      assert k < n by {
        assert IsWordChar(s[k - 1]) && IsWordChar(s[k]);
      }
      TagInRun(s, n, k + 1);
    } else {
      assert forall i :: 0 <= i < m ==> !IsSpace(s[i]);
    }
  }

  // What a run of code comes to: all code again, with what follows it as it was,
  // or something in it opens.
  lemma {:induction false} RunMarks(s: string, n: nat, m: seq<Mark>)
    requires IsRun(s, n)
    ensures RunComesTo(s, n, m)
    decreases n
  {
    assert n <= |s|;
    hide FormAt, RunComesTo, Squeeze, IsSpace, IsWordChar, IsRun, Solid;
    if n == 0 {
      NoRun(s, m);
    } else if FormAt(s).kind != Code {
      RunOpens(s, n, m);
    } else if IsSpace(s[0]) {
      SpaceInRun(s, n);
      RunAfterForm(s, n, 1);
      RunMarks(s[1..], n - 1, m);
      SpaceThenRun(s, n, m);
    } else {
      CodeFormIsSolid(s, n);
      var k := FormAt(s).len;
      RunAfterForm(s, n, k);
      RunMarks(s[k..], n - k, m);
      CodeThenRun(s, n, m);
    }
  }

  ghost predicate RunComesTo(s: string, n: nat, m: seq<Mark>)
    requires n <= |s|
  {
    && (StaysCode(s, n) ==> MarksOf(Squeeze(s)) == Inner(Code, s[..n]) + MarksOf(Squeeze(s[n..])))
    && (!StaysCode(s, n) ==> MarksOf(Squeeze(s)) != Inner(Code, s[..n]) + m)
  }

  lemma {:induction false} NoRun(s: string, m: seq<Mark>)
    ensures RunComesTo(s, 0, m)
  {
    hide FormAt, MarksOf, Squeeze;
    assert s[..0] == "" && s[0..] == s;
    var marks := MarksOf(Squeeze(s));
    assert Inner(Code, "") + marks == marks;
  }

  lemma {:induction false} SpaceThenRun(s: string, n: nat, m: seq<Mark>)
    requires 0 < n <= |s| && FormAt(s) == Form(Code, 1, true) && IsSpace(s[0])
    requires RunComesTo(s[1..], n - 1, m)
    ensures RunComesTo(s, n, m)
  {
    hide FormAt, MarksOf, Squeeze, IsSpace, Inner;
    TailMarksTheSame(s);
    InnerOfSpace(s, n);
    assert s[1..][n - 1..] == s[n..] && s[1..][..n - 1] == s[1..n];
  }

  lemma {:induction false} CodeThenRun(s: string, n: nat, m: seq<Mark>)
    requires s != "" && FormAt(s).len <= n <= |s| && FormAt(s).kind == Code && !IsSpace(s[0])
    requires Solid(s[..FormAt(s).len]) && RunComesTo(s[FormAt(s).len..], n - FormAt(s).len, m)
    ensures RunComesTo(s, n, m)
  {
    hide FormAt, MarksOf, Squeeze, IsSpace, Inner, Solid, StaysCode;
    SolidCodeMarks(s);
    CodeStays(s, n);
    var k := FormAt(s).len;
    CodeSplits(s, k, n);
    SliceAgain(s, k, n - k);
    BehindHead(Inner(Code, s[..k]), Inner(Code, s[k..n]), MarksOf(Squeeze(s[k..])), MarksOf(Squeeze(s[n..])), m);
  }

  lemma {:induction false} BehindHead<T>(a: seq<T>, b: seq<T>, rest: seq<T>, z: seq<T>, m: seq<T>)
    ensures rest == b + z ==> a + rest == a + b + z
    ensures rest != b + m ==> a + rest != a + b + m
  {
    Regrouped(a, b, z);
    Regrouped(a, b, m);
    Cancelled(a, rest, b + m);
  }

  lemma {:induction false} CodeStays(s: string, n: nat)
    requires s != "" && FormAt(s).len <= n <= |s| && FormAt(s).kind == Code
    ensures StaysCode(s, n) <==> StaysCode(s[FormAt(s).len..], n - FormAt(s).len)
  {
    hide FormAt;
  }

  lemma {:induction false} CodeSplits(s: string, k: nat, n: nat)
    requires k <= n <= |s|
    ensures s[k..][..n - k] == s[k..n]
    ensures Inner(Code, s[..n]) == Inner(Code, s[..k]) + Inner(Code, s[k..n])
  {
    hide Inner;
    InnerBoth(Code, s[..k], s[k..n]);
    assert s[..k] + s[k..n] == s[..n];
  }

  lemma {:induction false} Regrouped<T>(a: seq<T>, b: seq<T>, c: seq<T>)
    ensures (a + b) + c == a + (b + c)
  {
  }

  lemma {:induction false} Cancelled<T>(a: seq<T>, b: seq<T>, c: seq<T>)
    ensures a + b == a + c <==> b == c
  {
    if a + b == a + c {
      assert b == (a + b)[|a|..] && c == (a + c)[|a|..];
    }
  }

  lemma {:induction false} RunOpens(s: string, n: nat, m: seq<Mark>)
    requires IsRun(s, n) && n > 0 && FormAt(s).kind != Code
    ensures RunComesTo(s, n, m)
  {
    assert !IsSpace(s[0]) by {
      if IsSpace(s[0]) {
        SpaceInRun(s, n);
      }
    }
    if FormAt(s).kind == Dollar {
      DollarInRun(s, n);
    }
    hide FormAt, MarksOf, Squeeze, IsSpace, IsRun, Inner;
    SqueezeOpens(s);
    OpensFirst(Squeeze(s));
    InnerOfHead(Code, s, n);
  }

  lemma {:induction false} SpaceInRun(s: string, n: nat)
    requires IsRun(s, n) && n > 0 && IsSpace(s[0])
    ensures FormAt(s) == Form(Code, 1, true)
  {
    hide IsSpace;
    assert !IsWordChar(s[0]);
    SpaceForm(s);
  }

  lemma {:induction false} SpaceForm(s: string)
    requires s != "" && IsSpace(s[0]) && !IsWordChar(s[0])
    ensures FormAt(s) == Form(Code, 1, true)
  {
  }

  lemma {:induction false} InnerOfSpace(s: string, n: nat)
    requires 0 < n <= |s| && IsSpace(s[0])
    ensures Inner(Code, s[..n]) == Inner(Code, s[1..n])
  {
    hide IsSpace;
    assert s[..n][1..] == s[1..n];
  }

  lemma {:induction false} SolidCodeMarks(s: string)
    requires s != "" && FormAt(s).kind == Code && !IsSpace(s[0]) && Solid(s[..FormAt(s).len])
    ensures
      var n := FormAt(s).len;
      MarksOf(Squeeze(s)) == Inner(Code, s[..n]) + MarksOf(Squeeze(s[n..]))
  {
    EscapeForm(s);
    hide FormAt, MarksOf, Squeeze;
    SameFormMarks(s);
  }

  // ----- one form of the text, against the same place of its key -----

  ghost predicate KeepsMarks(s: string) {
    MarksOf(Squeeze(s)) == MarksOf(s)
  }

  // What the form at the head decides: whether it is kept, and then it is up to
  // the rest.
  ghost predicate DecidedBy(s: string, head: bool)
    requires s != ""
  {
    KeepsMarks(s) <==> head && KeepsMarks(s[FormAt(s).len..])
  }

  lemma {:induction false} HeadMarks(s: string)
    requires s != ""
    ensures MarksOf(s) == Outer(FormAt(s), s[..FormAt(s).len]) + MarksOf(s[FormAt(s).len..])
  {
    hide FormAt;
  }

  lemma {:induction false} SolidDecides(s: string)
    requires s != "" && SolidHead(s)
    ensures DecidedBy(s, true)
  {
    hide FormAt, MarksOf, Squeeze, SolidHead, Outer;
    var n := FormAt(s).len;
    HeadMarks(s);
    SameFormMarks(s);
    Cancelled(Outer(FormAt(s), s[..n]), MarksOf(Squeeze(s[n..])), MarksOf(s[n..]));
  }

  lemma {:induction false} WordDecides(s: string)
    requires s != "" && IsWordStart(s[0]) && FormAt(s).kind == Code
    ensures DecidedBy(s, SteadyHead(s))
  {
    WordIsRun(s);
    hide FormAt, MarksOf, Squeeze, IsSpace, IsRun, Inner, StaysCode;
    var n := FormAt(s).len;
    var x := s[n..];
    var t := Spaced(s[..n]) + x;
    assert t[n..] == x && t[..n] == Spaced(s[..n]) && s[..n] + x == s;
    SpacedSqueeze(s[..n], x);
    RunMarks(t, n, MarksOf(x));
    HeadMarks(s);
    Cancelled(Inner(Code, s[..n]), MarksOf(Squeeze(x)), MarksOf(x));
  }

  lemma {:induction false} WordIsRun(s: string)
    requires s != "" && IsWordStart(s[0]) && FormAt(s).kind == Code
    ensures
      var n := FormAt(s).len;
      IsRun(Spaced(s[..n]) + s[n..], n)
  {
    WordRunForm(s);
    hide FormAt, IsSpace, WordRun;
    var n := FormAt(s).len;
    var t := Spaced(s[..n]) + s[n..];
    assert !IsWordChar(' ');
    hide IsWordChar;
    assert forall i :: 0 <= i < n ==> t[i] == Spaced(s[..n])[i];
    assert n < |s| ==> t[n] == s[n];
  }

  lemma {:induction false} WordRunForm(s: string)
    requires s != "" && IsWordStart(s[0]) && FormAt(s).kind == Code
    ensures FormAt(s).len == WordRun(s)
  {
    hide QuotedEnd, EscapeEnd, BlockEnd, DollarEnd, TagLength, LineEnd;
  }

  // Code that starts no word is one character.
  lemma {:induction false} CharacterDecides(s: string)
    requires s != "" && !IsWordStart(s[0]) && FormAt(s).kind == Code
    ensures SteadyHead(s) && DecidedBy(s, true)
  {
    CharacterForm(s);
    hide FormAt, MarksOf, Squeeze, IsSpace, IsWordStart, DecidedBy, SteadyHead, StaysCode;
    if IsSpace(s[0]) {
      SpaceDecides(s);
    } else {
      CharacterIsSteady(s);
      SolidCharacter(s);
      SolidDecides(s);
    }
  }

  lemma {:induction false} SolidCharacter(s: string)
    requires s != "" && FormAt(s) == Form(Code, 1, true) && !IsSpace(s[0])
    ensures SolidHead(s)
  {
    EscapeForm(s);
    hide FormAt, IsSpace;
  }

  lemma {:induction false} CharacterIsSteady(s: string)
    requires s != "" && FormAt(s) == Form(Code, 1, true) && !IsSpace(s[0])
    ensures SteadyHead(s)
  {
    hide FormAt, IsSpace;
    var t := Spaced(s[..1]) + s[1..];
    assert t == s;
    assert StaysCode(s[1..], 0);
  }

  lemma {:induction false} SpaceDecides(s: string)
    requires s != "" && FormAt(s) == Form(Code, 1, true) && IsSpace(s[0])
    ensures SteadyHead(s) && DecidedBy(s, true)
  {
    SpaceIsSteady(s);
    HeadMarks(s);
    InnerOfSpace(s, 1);
    TailMarksTheSame(s);
    hide FormAt, MarksOf, Squeeze, IsSpace, SteadyHead;
    assert s[1..1] == "";
  }

  lemma {:induction false} SpaceIsSteady(s: string)
    requires s != "" && FormAt(s) == Form(Code, 1, true) && IsSpace(s[0])
    ensures SteadyHead(s)
  {
    SpaceIsCode(s[1..]);
    hide FormAt, IsSpace;
    assert Spaced(s[..1]) == " ";
    assert StaysCode((" " + s[1..])[1..], 0);
  }

  lemma {:induction false} CharacterForm(s: string)
    requires s != "" && !IsWordStart(s[0]) && FormAt(s).kind == Code
    ensures FormAt(s).len == 1
  {
    hide QuotedEnd, EscapeEnd, BlockEnd, DollarEnd, TagLength, LineEnd;
  }

  // A tag with whitespace in its name is no tag once collapsed.
  lemma {:induction false} BrokenTagDecides(s: string)
    requires s != "" && FormAt(s).kind == Dollar && !Solid(s[..TagLength(s).value])
    ensures !KeepsMarks(s)
  {
    DollarForm(s);
    var k := TagLength(s).value;
    assert s[..k] != "" && s[0] == '$' && s[k - 1] == '$';
    hide MarksOf, Squeeze, FormAt, TagLength;
    TagHasSpace(s);
    SpaceEndsTag(s[1..]);
    DollarIsNoSpace();
    SqueezeHead(s);
    var u := Squeeze(s);
    assert u == "$" + Squeeze(s[1..]);
    OpensFirst(s);
    LoneDollar(u);
  }

  lemma {:induction false} DollarIsNoSpace()
    ensures !IsSpace('$')
  {
  }

  lemma {:induction false} DollarForm(s: string)
    requires s != "" && FormAt(s).kind == Dollar
    ensures s[0] == '$' && TagLength(s).Some?
  {
    hide QuotedEnd, EscapeEnd, BlockEnd, DollarEnd, LineEnd, TagLength;
  }

  lemma {:induction false} TagHasSpace(s: string)
    requires TagLength(s).Some? && !Solid(s[..TagLength(s).value])
    ensures exists i :: 0 <= i < NameLength(s[1..]) && IsSpace(s[1..][i])
  {
    DollarIsNoSpace();
    hide TagRun, IsSpace;
    var k := TagLength(s).value;
    var c :| c in s[..k] && IsSpace(c);
    var i :| 0 <= i < k && s[..k][i] == c;
    assert s[0] == '$' && s[k - 1] == '$' && 0 < i < k - 1;
    assert s[1..][i - 1] == c;
  }

  lemma {:induction false} LoneDollar(u: string)
    requires u != "" && u[0] == '$' && TagLength(u).None?
    ensures MarksOf(u) != [] && !MarksOf(u)[0].opens
  {
    assert FormAt(u) == Form(Code, 1, true) by {
      hide QuotedEnd, EscapeEnd, BlockEnd, DollarEnd, LineEnd, TagLength;
    }
    DollarIsNoSpace();
    hide FormAt, IsSpace;
    assert u[..1][0] == '$';
  }

  // A string carried on over a line break ends at its first lone quote once
  // the break is gone.
  lemma {:induction false} CarriedDecides(s: string)
    requires Carries(s)
    ensures !KeepsMarks(s)
  {
    hide FormAt, MarksOf, Squeeze, Straight, EscapeEnd, LoneEnd, Inner, IsSpace;
    var body, u := s[2..], Squeeze(s);
    EscapeForm(s);
    EscapeKept(s);
    EscapeForm(u);
    var v := CarriedGoesOn(body);
    LoneSqueeze(body);
    var n, p, q := FormAt(s).len, 2 + LoneEnd(body).len, 2 + LoneEnd(u[2..]).len;
    SliceAgain(s, 2, p - 2);
    SliceAgain(u, 2, q - 2);
    assert s[v + 2] == '\'';
    LetterIsNoSpace(s);
    LetterIsNoSpace(u);
    InnerStart(EscapeString, s, p, q);
    InnerOfHead(EscapeString, s, p);
    InnerOfHead(EscapeString, u, q);
    InnerBoth(EscapeString, s[1..p], s[p..n]);
    assert s[1..p] + s[p..n] == s[1..n];
    InnerNotEmpty(s[p..n], v + 2 - p);
    HeadMarks(s);
    HeadMarks(u);
    assert s[..n][1..] == s[1..n] && u[..q][1..] == u[1..q];
    var a, b := Inner(EscapeString, s[1..p]), Inner(EscapeString, s[p..n]);
    if MarksOf(u[q..]) != [] {
      NothingStartsInside(u[q..]);
    }
    DifferAfter(
      Mark(u[0], EscapeString, true, FormAt(u).closed), Mark(s[0], EscapeString, true, FormAt(s).closed),
      a, MarksOf(u[q..]), b, MarksOf(s[n..]));
  }

  lemma {:induction false} LetterIsNoSpace(s: string)
    requires OpensEscape(s)
    ensures !IsSpace(s[0])
  {
  }

  lemma {:induction false} InnerNotEmpty(s: string, i: nat)
    requires i < |s| && s[i] == '\''
    ensures
      var inner := Inner(EscapeString, s);
      inner != [] && inner[0].kind == EscapeString && !inner[0].opens
    decreases i
  {
    QuoteIsSolid();
    hide IsSpace;
    if i > 0 {
      InnerNotEmpty(s[1..], i - 1);
    }
  }

  lemma {:induction false} DifferAfter(
    h: Mark, k: Mark, a: seq<Mark>, c: seq<Mark>, b: seq<Mark>, rest: seq<Mark>)
    requires b != [] && (c != [] ==> c[0] != b[0])
    ensures ([h] + a) + c != ([k] + (a + b)) + rest
  {
    var x, y := ([h] + a) + c, ([k] + (a + b)) + rest;
    assert y[1 + |a|] == b[0];
    assert c != [] ==> x[1 + |a|] == c[0];
  }

  // ----- the whole text -----

  // Nothing but a string carried on leaves a comment in the text.
  predicate Bare(s: string)
    decreases |s|
  {
    s == "" || (!IsComment(FormAt(s).kind) && (Carries(s) || Bare(s[FormAt(s).len..])))
  }

  // Collapsing whitespace leaves every character's place alone if and only if
  // no escape string is carried over a line break and no whitespace inside a
  // word hides a prefix or a tag.
  lemma {:induction false} MarksKept(s: string)
    requires Bare(s)
    ensures KeepsMarks(s) <==> Uncontinued(s) && Steady(s)
    decreases |s|
  {
    hide FormAt, KeepsMarks, DecidedBy, SteadyHead, Carries;
    if s == "" {
      NothingKept();
    } else if Carries(s) {
      CarriedDecides(s);
    } else {
      MarksKept(s[FormAt(s).len..]);
      FormDecides(s);
      DecidedBoth(s);
    }
  }

  lemma {:induction false} NothingKept()
    ensures KeepsMarks("")
  {
    NothingSqueezed();
  }

  lemma {:induction false} DecidedBoth(s: string)
    requires s != "" && DecidedBy(s, SteadyHead(s))
    ensures KeepsMarks(s) <==> SteadyHead(s) && KeepsMarks(s[FormAt(s).len..])
  {
  }

  lemma {:induction false} FormDecides(s: string)
    requires s != "" && !Carries(s) && !IsComment(FormAt(s).kind)
    ensures DecidedBy(s, SteadyHead(s))
  {
    hide KeepsMarks, Straight, StaysCode, Solid, Spaced;
    if FormAt(s).kind == Code {
      hide FormAt;
      if IsWordStart(s[0]) {
        WordDecides(s);
      } else {
        CharacterDecides(s);
      }
    } else if FormAt(s).kind == Dollar && !Solid(s[..TagLength(s).value]) {
      hide FormAt;
      BrokenTagDecides(s);
    } else {
      QuoteHeads(s);
      hide FormAt;
      SolidDecides(s);
    }
  }

  lemma {:induction false} QuoteHeads(s: string)
    requires s != "" && FormAt(s).kind in {Literal, Identifier, EscapeString, Dollar}
    ensures !IsSpace(s[0])
  {
    hide QuotedEnd, EscapeEnd, BlockEnd, DollarEnd, LineEnd, TagLength, WordRun;
  }
}
