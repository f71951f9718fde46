// Cutting a file into statements at the semicolons PostgreSQL would cut at, and
// the laws that make it safe to lex a statement again on its own.

module Splitter {
  import opened Chars
  import opened SqlLexer

  // ----- fragments: the segments of a file, cut at every `;` in code -----

  // `str.split(";")`: always at least one part.
  function SplitOn(text: string, sep: char): (parts: seq<string>)
    ensures |parts| > 0
    ensures forall part <- parts :: sep !in part
  {
    if text == "" then [""]
    else
      var rest := SplitOn(text[1..], sep);
      if text[0] == sep then [""] + rest else [[text[0]] + rest[0]] + rest[1..]
  }

  function CodeSegment(text: string): seq<Segment> {
    if text == "" then [] else [Segment(Code, text, true)]
  }

  // The open fragment `head` run into the first of `frags`.
  function Join(head: seq<Segment>, frags: seq<seq<Segment>>): (r: seq<seq<Segment>>)
    requires |frags| > 0
    ensures |r| > 0
  {
    [head + frags[0]] + frags[1..]
  }

  function CutCode(parts: seq<string>, frags: seq<seq<Segment>>): (r: seq<seq<Segment>>)
    requires |parts| > 0 && |frags| > 0
    ensures |r| > 0
  {
    if |parts| == 1 then Join(CodeSegment(parts[0]), frags)
    else [CodeSegment(parts[0])] + CutCode(parts[1..], frags)
  }

  function Fragments(segs: seq<Segment>): (r: seq<seq<Segment>>)
    ensures |r| > 0
  {
    if segs == [] then [[]]
    else
      var rest := Fragments(segs[1..]);
      if segs[0].kind == Code then CutCode(SplitOn(segs[0].text, ';'), rest)
      else Join([segs[0]], rest)
  }

  predicate IsComment(kind: Kind) {
    kind == LineComment || kind == BlockComment
  }

  // Whether a fragment holds anything but comments and whitespace.
  predicate HasCode(frag: seq<Segment>) {
    exists seg <- frag :: !IsComment(seg.kind) && !Blank(seg.text)
  }

  function Kept(frags: seq<seq<Segment>>): seq<string> {
    if frags == [] then []
    else (if HasCode(frags[0]) then [Text(frags[0])] else []) + Kept(frags[1..])
  }

  function Statements(sql: string): seq<string> {
    Kept(Fragments(Lex(sql)))
  }

  function Concat(pieces: seq<string>): string {
    if pieces == [] then "" else pieces[0] + Concat(pieces[1..])
  }

  // What is still to come inside one segment: its parts from `n` on, with
  // `open` the fragment being read and `rest` the fragments after the segment.
  ghost function ToCome(open: seq<Segment>, seg: Segment, parts: seq<string>, n: nat, rest: seq<seq<Segment>>)
    : seq<string>
    requires n <= |parts| && |rest| > 0
  {
    if n == |parts| then Kept(Join(open, rest))
    else if seg.kind != Code then Kept(Join(open, Join([seg], rest)))
    else if n == 0 then Kept(Join(open, CutCode(parts, rest)))
    else Kept([open] + CutCode(parts[n..], rest))
  }

  function PartsOf(seg: Segment): (parts: seq<string>)
    ensures |parts| > 0 && (seg.kind != Code ==> parts == [seg.text])
  {
    if seg.kind == Code then SplitOn(seg.text, ';') else [seg.text]
  }

  function PartSegment(seg: Segment, part: string): seq<Segment> {
    if seg.kind == Code then CodeSegment(part) else [seg]
  }

  method SplitStatements(sql: string) returns (statements: seq<string>)
    ensures statements == Statements(sql)
  {
    hide *;
    var segs := Segments(sql);
    statements := [];
    var pieces: seq<string> := [];
    var hasCode := false;
    ghost var open: seq<Segment> := [];
    StartSplit(segs, sql);
    for k := 0 to |segs|
      invariant Concat(pieces) == Text(open) && hasCode == HasCode(open)
      invariant statements + Kept(Join(open, Fragments(segs[k..]))) == Statements(sql)
    {
      var seg := segs[k];
      ghost var rest := Fragments(segs[k + 1..]);
      var parts := PartsOf(seg);
      SegmentStep(open, segs, k);
      for n := 0 to |parts|
        invariant Concat(pieces) == Text(open) && hasCode == HasCode(open)
        invariant statements + ToCome(open, seg, parts, n, rest) == Statements(sql)
      {
        var part := parts[n];
        PartStep(statements, open, seg, parts, n, rest);
        if n > 0 {
          if hasCode {
            statements := statements + [Concat(pieces)];
          }
          pieces, hasCode := [], false;
          open := [];
          NothingOpen();
        }
        OpenGrows(pieces, open, seg, part);
        pieces := pieces + [part];
        hasCode := hasCode || (!IsComment(seg.kind) && !Blank(part));
        open := open + PartSegment(seg, part);
      }
      SegmentDone(open, seg, parts, rest);
    }
    EndSplit(open, segs);
    if hasCode {
      statements := statements + [Concat(pieces)];
    }
  }

  lemma {:induction false} NothingOpen()
    ensures Concat([]) == Text([]) && !HasCode([])
  {
  }

  lemma {:induction false} StartSplit(segs: seq<Segment>, sql: string)
    requires segs == Lex(sql)
    ensures Kept(Join([], Fragments(segs[0..]))) == Statements(sql)
    ensures Concat([]) == Text([]) && !HasCode([])
  {
    hide Lex;
    assert segs[0..] == segs;
    JoinNothing(Fragments(segs));
  }

  lemma {:induction false} SegmentStep(open: seq<Segment>, segs: seq<Segment>, k: nat)
    requires k < |segs|
    ensures
      Kept(Join(open, Fragments(segs[k..]))) ==
      ToCome(open, segs[k], PartsOf(segs[k]), 0, Fragments(segs[k + 1..]))
  {
    assert segs[k..][1..] == segs[k + 1..];
  }

  lemma {:induction false} SegmentDone(open: seq<Segment>, seg: Segment, parts: seq<string>, rest: seq<seq<Segment>>)
    requires |rest| > 0
    ensures ToCome(open, seg, parts, |parts|, rest) == Kept(Join(open, rest))
  {
  }

  lemma {:induction false} EndSplit(open: seq<Segment>, segs: seq<Segment>)
    ensures
      Kept(Join(open, Fragments(segs[|segs|..]))) == if HasCode(open) then [Text(open)] else []
  {
    assert segs[|segs|..] == [] && open + [] == open;
    assert Join(open, [[]]) == [open] + [];
    KeptHead(open, []);
  }

  lemma {:induction false} PartStep(
    statements: seq<string>, open: seq<Segment>, seg: Segment, parts: seq<string>, n: nat,
    rest: seq<seq<Segment>>)
    requires n < |parts| && |rest| > 0 && (seg.kind != Code ==> |parts| == 1)
    ensures
      var ended := n > 0 && HasCode(open);
      var open' := (if n > 0 then [] else open) + PartSegment(seg, parts[n]);
      statements + ToCome(open, seg, parts, n, rest) ==
      (if ended then statements + [Text(open)] else statements)
      + ToCome(open', seg, parts, n + 1, rest)
  {
    hide HasCode;
    assert parts[n..][1..] == parts[n + 1..] && parts[0..] == parts;
    if seg.kind != Code {
      JoinTwice(open, [seg], rest);
    } else if n > 0 {
      KeptHead(open, CutCode(parts[n..], rest));
      JoinNothing(CutCode(parts[n..], rest));
      CutCodeHead([], parts[n..], rest);
    } else {
      CutCodeHead(open, parts, rest);
    }
  }

  lemma {:induction false} JoinNothing(frags: seq<seq<Segment>>)
    requires |frags| > 0
    ensures Join([], frags) == frags
  {
    assert [] + frags[0] == frags[0];
  }

  lemma {:induction false} JoinTwice(a: seq<Segment>, b: seq<Segment>, frags: seq<seq<Segment>>)
    requires |frags| > 0
    ensures Join(a, Join(b, frags)) == Join(a + b, frags)
  {
    assert a + (b + frags[0]) == a + b + frags[0];
  }

  lemma {:induction false} KeptHead(open: seq<Segment>, rest: seq<seq<Segment>>)
    ensures Kept([open] + rest) == (if HasCode(open) then [Text(open)] else []) + Kept(rest)
  {
    assert ([open] + rest)[1..] == rest;
  }

  lemma {:induction false} CutCodeHead(open: seq<Segment>, parts: seq<string>, rest: seq<seq<Segment>>)
    requires |parts| > 0 && |rest| > 0
    ensures
      Join(open, CutCode(parts, rest)) ==
      if |parts| == 1 then Join(open + CodeSegment(parts[0]), rest)
      else [open + CodeSegment(parts[0])] + CutCode(parts[1..], rest)
  {
    if |parts| == 1 {
      JoinTwice(open, CodeSegment(parts[0]), rest);
    }
  }

  lemma {:induction false} OpenGrows(pieces: seq<string>, open: seq<Segment>, seg: Segment, part: string)
    requires Concat(pieces) == Text(open)
    requires seg.kind != Code ==> part == seg.text
    ensures Concat(pieces + [part]) == Text(open + PartSegment(seg, part))
    ensures
      HasCode(open + PartSegment(seg, part)) ==
      (HasCode(open) || (!IsComment(seg.kind) && !Blank(part)))
  {
    var added := PartSegment(seg, part);
    ConcatAppend(pieces, part);
    TextAppend(open, added);
    if added == [] {
      assert open + added == open;
    } else {
      assert added[1..] == [] && Text(added) == part;
      assert forall s :: s in open + added <==> s in open || s == added[0];
    }
  }

  lemma {:induction false} ConcatAppend(pieces: seq<string>, part: string)
    ensures Concat(pieces + [part]) == Concat(pieces) + part
  {
    if pieces == [] {
      assert pieces + [part] == [part];
    } else {
      assert (pieces + [part])[1..] == pieces[1..] + [part];
      ConcatAppend(pieces[1..], part);
    }
  }

  lemma {:induction false} TextAppend(a: seq<Segment>, b: seq<Segment>)
    ensures Text(a + b) == Text(a) + Text(b)
  {
    if a == [] {
      assert a + b == b;
    } else {
      assert (a + b)[1..] == a[1..] + b;
      TextAppend(a[1..], b);
    }
  }
}
