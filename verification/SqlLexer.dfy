// Where a literal, a quoted identifier or a comment starts and ends in SQL.
//
// The functions are the specification. Each reads the text that is left, so a
// boundary can depend on what follows it and never on what came before. The
// methods scan by index, as the lexer does, and are proved against them.

module SqlLexer {
  import opened Chars

  datatype Kind = Code | Literal | EscapeString | Identifier | Dollar | LineComment | BlockComment

  datatype Segment = Segment(kind: Kind, text: string, closed: bool)

  // How far a scanner got, and whether something closed what it scanned.
  datatype End = End(len: nat, closed: bool) {
    function After(n: nat): End {
      End(n + len, closed)
    }
  }

  // The form at the head of a text; `Code` for one word or one character.
  datatype Form = Form(kind: Kind, len: nat, closed: bool)

  // ----- the scanners -----

  // A body that ends at its first lone quote; a doubled one stays inside.
  function QuotedEnd(s: string, quote: char): (e: End)
    ensures e.len <= |s| && (!e.closed ==> e.len == |s|) && (e.closed ==> 0 < e.len)
  {
    if s == "" then End(0, false)
    else if s[0] != quote then QuotedEnd(s[1..], quote).After(1)
    else if |s| > 1 && s[1] == quote then QuotedEnd(s[2..], quote).After(2)
    else End(1, true)
  }

  function LineEnd(s: string): (n: nat)
    ensures n <= |s| && (forall i :: 0 <= i < n ==> !IsBreak(s[i])) && (n < |s| ==> IsBreak(s[n]))
  {
    if s == "" || IsBreak(s[0]) then 0 else 1 + LineEnd(s[1..])
  }

  predicate IsBlank(c: char) {
    c == ' ' || c == '\t' || c == '\U{0c}'
  }

  predicate IsBlankOrBreak(c: char) {
    IsBlank(c) || IsBreak(c) || c == '\U{0b}'
  }

  // What continues an escape string into its next quote: a line break with
  // blanks and line comments around it. The pattern is matched by search. A
  // comment first takes its whole line, and gives characters back one at a time
  // until what follows can match, so it may stop just before a quote inside it.
  function BeforeBreak(s: string): (end: Option<nat>)
    ensures end.Some? ==> end.value < |s| && s[end.value] == '\''
    decreases |s|, |s| + 1
  {
    if s == "" then None
    else if IsBlank(s[0]) then ShiftEnd(1, BeforeBreak(s[1..]))
    else if StartsWith(s, "--") then CommentBeforeBreak(s, CommentReach(s))
    else if IsBreak(s[0]) then ShiftEnd(1, AfterBreak(s[1..]))
    else None
  }

  function CommentBeforeBreak(s: string, stop: nat): (end: Option<nat>)
    requires 2 <= stop <= |s|
    ensures end.Some? ==> end.value < |s| && s[end.value] == '\''
    decreases |s|, stop
  {
    var end := ShiftEnd(stop, BeforeBreak(s[stop..]));
    if end.Some? || stop == 2 then end else CommentBeforeBreak(s, stop - 1)
  }

  function AfterBreak(s: string): (end: Option<nat>)
    ensures end.Some? ==> end.value < |s| && s[end.value] == '\''
    decreases |s|, |s| + 1
  {
    if s == "" then None
    else if IsBlankOrBreak(s[0]) then ShiftEnd(1, AfterBreak(s[1..]))
    else if StartsWith(s, "--") then CommentAfterBreak(s, CommentReach(s))
    else if s[0] == '\'' then Some(0)
    else None
  }

  function CommentAfterBreak(s: string, stop: nat): (end: Option<nat>)
    requires 2 <= stop <= |s|
    ensures end.Some? ==> end.value < |s| && s[end.value] == '\''
    decreases |s|, stop
  {
    var end := ShiftEnd(stop, AfterBreak(s[stop..]));
    if end.Some? || stop == 2 then end else CommentAfterBreak(s, stop - 1)
  }

  function CommentReach(s: string): (n: nat)
    requires StartsWith(s, "--")
    ensures 2 <= n <= |s|
  {
    2 + LineEnd(s[2..])
  }

  function ShiftEnd(n: nat, end: Option<nat>): Option<nat> {
    if end.None? then None else Some(n + end.value)
  }

  // An `E'…'` body: a backslash escapes the next character, a doubled quote
  // stays inside, and a continuation carries the same rules into the next quote.
  function EscapeEnd(s: string): (e: End)
    ensures e.len <= |s| && (!e.closed ==> e.len == |s|) && (e.closed ==> 0 < e.len)
  {
    if s == "" then End(0, false)
    else if s[0] == '\\' then
      if |s| == 1 then End(1, false) else EscapeEnd(s[2..]).After(2)
    else if s[0] != '\'' then EscapeEnd(s[1..]).After(1)
    else if |s| > 1 && s[1] == '\'' then EscapeEnd(s[2..]).After(2)
    else
      var continued := BeforeBreak(s[1..]);
      if continued.None? then End(1, true)
      else EscapeEnd(s[2 + continued.value..]).After(2 + continued.value)
  }

  // A `/*` body; each `/*` inside opens one more level.
  function BlockEnd(s: string, depth: nat): (e: End)
    requires depth > 0
    ensures e.len <= |s| && (!e.closed ==> e.len == |s|) && (e.closed ==> 0 < e.len)
  {
    if s == "" then End(0, false)
    else if StartsWith(s, "*/") then
      if depth == 1 then End(2, true) else BlockEnd(s[2..], depth - 1).After(2)
    else if StartsWith(s, "/*") then BlockEnd(s[2..], depth + 1).After(2)
    else BlockEnd(s[1..], depth).After(1)
  }

  function TagRun(s: string): (n: nat)
    ensures n <= |s| && (forall i :: 0 <= i < n ==> IsTagChar(s[i])) && (n < |s| ==> !IsTagChar(s[n]))
  {
    if s == "" || !IsTagChar(s[0]) then 0 else 1 + TagRun(s[1..])
  }

  // The name a dollar tag may carry: empty, or a run that starts with a letter.
  function NameLength(s: string): (n: nat)
    ensures n <= |s| && (forall i :: 0 <= i < n ==> IsTagChar(s[i]))
  {
    if s == "" || !IsWordStart(s[0]) then 0 else TagRun(s)
  }

  // The length of the dollar-quote delimiter at the head of `s`, if one is there.
  function TagLength(s: string): (n: Option<nat>)
    ensures n.Some? ==> 2 <= n.value <= |s| && s[0] == '$' && s[n.value - 1] == '$'
    ensures n.Some? ==> forall i :: 1 <= i < n.value - 1 ==> IsTagChar(s[i])
  {
    if s == "" || s[0] != '$' then None
    else
      var n := NameLength(s[1..]);
      if 1 + n < |s| && s[1 + n] == '$' then Some(n + 2) else None
  }

  // What follows the opening `tag`: the body and the same tag again.
  function DollarEnd(s: string, tag: string): (e: End)
    requires tag != ""
    ensures e.len <= |s| && (!e.closed ==> e.len == |s|) && (e.closed ==> 0 < e.len)
  {
    var close := Find(s, tag);
    if close.None? then End(|s|, false) else End(close.value + |tag|, true)
  }

  function WordRun(s: string): (n: nat)
    ensures n <= |s| && (forall i :: 0 <= i < n ==> IsWordChar(s[i])) && (n < |s| ==> !IsWordChar(s[n]))
    ensures s != "" && IsWordChar(s[0]) ==> n > 0
  {
    if s == "" || !IsWordChar(s[0]) then 0 else 1 + WordRun(s[1..])
  }

  function FormOf(kind: Kind, opening: nat, e: End): Form {
    Form(kind, opening + e.len, e.closed)
  }

  // The form at the head of `s`.
  function FormAt(s: string): (f: Form)
    requires s != ""
    ensures 0 < f.len <= |s|
    ensures !f.closed ==> f.len == |s| && f.kind !in {Code, LineComment}
  {
    if s[0] == '\'' then FormOf(Literal, 1, QuotedEnd(s[1..], '\''))
    else if s[0] == '"' then FormOf(Identifier, 1, QuotedEnd(s[1..], '"'))
    else if StartsWith(s, "--") then Form(LineComment, CommentReach(s), true)
    else if StartsWith(s, "/*") then FormOf(BlockComment, 2, BlockEnd(s[2..], 1))
    else if s[0] == '$' then
      var tag := TagLength(s);
      if tag.None? then Form(Code, 1, true)
      else FormOf(Dollar, tag.value, DollarEnd(s[tag.value..], s[..tag.value]))
    else if !IsWordStart(s[0]) then Form(Code, 1, true)
    else WordForm(s)
  }

  // A one-letter word run into a quote is a prefix; any other word is code.
  function WordForm(s: string): (f: Form)
    requires s != "" && IsWordStart(s[0])
    ensures 0 < f.len <= |s| && f.kind in {Code, EscapeString, Literal, Identifier}
    ensures !f.closed ==> f.len == |s| && f.kind !in {Code, LineComment}
  {
    var n := WordRun(s);
    var rest := s[n..];
    if n == 1 && s[0] in "Ee" && StartsWith(rest, "'") then
      FormOf(EscapeString, 2, EscapeEnd(rest[1..]))
    else if n == 1 && s[0] in "BbXxNn" && StartsWith(rest, "'") then
      FormOf(Literal, 2, QuotedEnd(rest[1..], '\''))
    else if n == 1 && s[0] in "Uu" && StartsWith(rest, "&'") then
      FormOf(Literal, 3, QuotedEnd(rest[2..], '\''))
    else if n == 1 && s[0] in "Uu" && StartsWith(rest, "&\"") then
      FormOf(Identifier, 3, QuotedEnd(rest[2..], '"'))
    else Form(Code, n, true)
  }

  // ----- the segments -----

  // Code read just before `segs`, run together with any code they open with.
  function PrependCode(text: string, segs: seq<Segment>): seq<Segment> {
    if text == "" then segs
    else if segs != [] && segs[0].kind == Code then
      [Segment(Code, text + segs[0].text, true)] + segs[1..]
    else [Segment(Code, text, true)] + segs
  }

  function Prepend(f: Form, text: string, segs: seq<Segment>): seq<Segment> {
    if f.kind == Code then PrependCode(text, segs)
    else [Segment(f.kind, text, f.closed)] + segs
  }

  function Lex(s: string): seq<Segment> {
    if s == "" then []
    else
      var f := FormAt(s);
      Prepend(f, s[..f.len], Lex(s[f.len..]))
  }

  function Text(segs: seq<Segment>): string {
    if segs == [] then "" else segs[0].text + Text(segs[1..])
  }

  // ----- the scanning methods -----

  method Quoted(sql: string, start: nat, quote: char) returns (end: nat, closed: bool)
    requires start <= |sql|
    ensures start <= end <= |sql|
    ensures End(end - start, closed) == QuotedEnd(sql[start..], quote)
  {
    var i := start;
    while true
      invariant start <= i <= |sql|
      invariant QuotedEnd(sql[start..], quote) == QuotedEnd(sql[i..], quote).After(i - start)
      decreases |sql| - i
    {
      var close := Find(sql[i..], [quote]);
      FindIsFirst(sql[i..], [quote]);
      if close.None? {
        QuotedToEnd(sql[i..], quote);
        return |sql|, false;
      }
      QuotedSkip(sql[i..], quote, close.value);
      var at := i + close.value;
      assert sql[i..][close.value..] == sql[at..];
      if !StartsWith(sql[at + 1..], [quote]) {
        return at + 1, true;
      }
      assert sql[at..][2..] == sql[at + 2..];
      i := at + 2;
    }
  }

  lemma {:induction false} QuotedSkip(s: string, quote: char, n: nat)
    requires n <= |s| && forall j :: 0 <= j < n ==> !StartsWith(s[j..], [quote])
    ensures QuotedEnd(s, quote) == QuotedEnd(s[n..], quote).After(n)
    decreases n
  {
    if n == 0 {
      assert s[0..] == s;
    } else {
      assert !StartsWith(s[0..], [quote]);
      assert forall j :: 0 <= j < n - 1 ==> s[1..][j..] == s[j + 1..];
      QuotedSkip(s[1..], quote, n - 1);
      assert s[1..][n - 1..] == s[n..];
    }
  }

  lemma {:induction false} QuotedToEnd(s: string, quote: char)
    requires forall j :: 0 <= j <= |s| ==> !StartsWith(s[j..], [quote])
    ensures QuotedEnd(s, quote) == End(|s|, false)
  {
    QuotedSkip(s, quote, |s|);
  }

  // One turn of the escape-string loop: what the character at `i` consumes.
  lemma {:induction false} EscapeStep(sql: string, i: nat)
    requires i < |sql|
    ensures sql[i] == '\\' && i + 2 <= |sql| ==> EscapeEnd(sql[i..]) == EscapeEnd(sql[i + 2..]).After(2)
    ensures sql[i] == '\\' && i + 2 > |sql| ==> EscapeEnd(sql[i..]) == End(1, false)
    ensures sql[i] != '\\' && sql[i] != '\'' ==> EscapeEnd(sql[i..]) == EscapeEnd(sql[i + 1..]).After(1)
    ensures sql[i] == '\'' ==>
      if StartsWith(sql[i + 1..], "'") then EscapeEnd(sql[i..]) == EscapeEnd(sql[i + 2..]).After(2)
      else
        var continued := BeforeBreak(sql[i + 1..]);
        if continued.None? then EscapeEnd(sql[i..]) == End(1, true)
        else
          EscapeEnd(sql[i..]) ==
          EscapeEnd(sql[i + 2 + continued.value..]).After(2 + continued.value)
  {
    hide BeforeBreak;
    var s := sql[i..];
    assert s[1..] == sql[i + 1..];
    assert i + 2 <= |sql| ==> s[2..] == sql[i + 2..];
    var continued := BeforeBreak(sql[i + 1..]);
    if continued.Some? {
      assert s[2 + continued.value..] == sql[i + 2 + continued.value..];
    }
  }

  method Escaped(sql: string, start: nat) returns (end: nat, closed: bool)
    requires start <= |sql|
    ensures start <= end <= |sql|
    ensures End(end - start, closed) == EscapeEnd(sql[start..])
  {
    hide EscapeEnd, BeforeBreak;
    var i := start;
    ghost var whole := EscapeEnd(sql[start..]);
    while i < |sql|
      invariant start <= i
      invariant i <= |sql| ==> whole == EscapeEnd(sql[i..]).After(i - start)
      invariant i > |sql| ==> whole == End(|sql| - start, false)
    {
      var ch := sql[i];
      EscapeStep(sql, i);
      if ch == '\\' {
        i := i + 2;
      } else if ch != '\'' {
        i := i + 1;
      } else if StartsWith(sql[i + 1..], "'") {
        i := i + 2;
      } else {
        var continued := BeforeBreak(sql[i + 1..]);
        if continued.None? {
          return i + 1, true;
        }
        i := i + 2 + continued.value;
      }
    }
    return |sql|, false;
  }

  // One step through a comment nested `depth` deep.
  lemma {:induction false} BlockTurn(sql: string, i: nat, depth: nat)
    requires i <= |sql| && depth > 0
    ensures
      var s := sql[i..];
      if s == "" then BlockEnd(s, depth) == End(0, false)
      else if StartsWith(s, "*/") then
        i + 2 <= |sql| &&
        BlockEnd(s, depth) == if depth == 1 then End(2, true) else BlockEnd(sql[i + 2..], depth - 1).After(2)
      else if StartsWith(s, "/*") then
        i + 2 <= |sql| && BlockEnd(s, depth) == BlockEnd(sql[i + 2..], depth + 1).After(2)
      else BlockEnd(s, depth) == BlockEnd(sql[i + 1..], depth).After(1)
  {
    if i < |sql| {
      assert sql[i..][1..] == sql[i + 1..];
      assert i + 2 <= |sql| ==> sql[i..][2..] == sql[i + 2..];
    }
  }

  method NestedComment(sql: string, start: nat) returns (end: nat, closed: bool)
    requires start <= |sql|
    ensures start <= end <= |sql|
    ensures End(end - start, closed) == BlockEnd(sql[start..], 1)
  {
    hide BlockEnd;
    var i, depth := start, 1;
    while i < |sql|
      invariant start <= i <= |sql| && depth > 0
      invariant BlockEnd(sql[start..], 1) == BlockEnd(sql[i..], depth).After(i - start)
    {
      BlockTurn(sql, i, depth);
      if StartsWith(sql[i..], "*/") {
        if depth == 1 {
          return i + 2, true;
        }
        depth, i := depth - 1, i + 2;
      } else if StartsWith(sql[i..], "/*") {
        depth, i := depth + 1, i + 2;
      } else {
        i := i + 1;
      }
    }
    BlockTurn(sql, i, depth);
    return |sql|, false;
  }

  method ScanForm(sql: string, i: nat) returns (kind: Kind, end: nat, closed: bool)
    requires i < |sql|
    ensures i < end <= |sql|
    ensures Form(kind, end - i, closed) == FormAt(sql[i..])
  {
    var ch, s := sql[i], sql[i..];
    assert s[1..] == sql[i + 1..];
    assert |s| >= 2 ==> s[2..] == sql[i + 2..];
    if ch == '\'' {
      end, closed := Quoted(sql, i + 1, '\'');
      return Literal, end, closed;
    }
    if ch == '"' {
      end, closed := Quoted(sql, i + 1, '"');
      return Identifier, end, closed;
    }
    if StartsWith(s, "--") {
      return LineComment, i + 2 + LineEnd(sql[i + 2..]), true;
    }
    if StartsWith(s, "/*") {
      end, closed := NestedComment(sql, i + 2);
      return BlockComment, end, closed;
    }
    if ch == '$' {
      kind, end, closed := ScanDollar(sql, i);
      return;
    }
    if !IsWordStart(ch) {
      return Code, i + 1, true;
    }
    kind, end, closed := ScanWord(sql, i);
  }

  method ScanDollar(sql: string, i: nat) returns (kind: Kind, end: nat, closed: bool)
    requires i < |sql| && sql[i] == '$'
    ensures i < end <= |sql|
    ensures Form(kind, end - i, closed) == FormAt(sql[i..])
  {
    var s := sql[i..];
    var tag := TagLength(s);
    if tag.None? {
      return Code, i + 1, true;
    }
    var bodyAt := i + tag.value;
    assert s[tag.value..] == sql[bodyAt..] && s[..tag.value] == sql[i..bodyAt];
    var close := Find(sql[bodyAt..], sql[i..bodyAt]);
    if close.None? {
      return Dollar, |sql|, false;
    }
    return Dollar, bodyAt + close.value + tag.value, true;
  }

  method ScanWord(sql: string, i: nat) returns (kind: Kind, end: nat, closed: bool)
    requires i < |sql| && IsWordStart(sql[i])
    ensures i < end <= |sql|
    ensures Form(kind, end - i, closed) == WordForm(sql[i..])
  {
    hide QuotedEnd, EscapeEnd;
    var s := sql[i..];
    var n := WordRun(s);
    var after := i + n;
    var rest := sql[after..];
    assert s[n..] == rest;
    if n != 1 {
      return Code, after, true;
    }
    if s[0] in "Ee" && StartsWith(rest, "'") {
      assert rest[1..] == sql[after + 1..];
      end, closed := Escaped(sql, after + 1);
      return EscapeString, end, closed;
    }
    if s[0] in "BbXxNn" && StartsWith(rest, "'") {
      assert rest[1..] == sql[after + 1..];
      end, closed := Quoted(sql, after + 1, '\'');
      return Literal, end, closed;
    }
    if s[0] in "Uu" && StartsWith(rest, "&'") {
      assert rest[2..] == sql[after + 2..];
      end, closed := Quoted(sql, after + 2, '\'');
      return Literal, end, closed;
    }
    if s[0] in "Uu" && StartsWith(rest, "&\"") {
      assert rest[2..] == sql[after + 2..];
      end, closed := Quoted(sql, after + 2, '"');
      return Identifier, end, closed;
    }
    return Code, after, true;
  }

  method Segments(sql: string) returns (out: seq<Segment>)
    ensures out == Lex(sql)
  {
    hide Lex, FormAt, PrependCode;
    out := [];
    var codeStart, i := 0, 0;
    LexPending(sql);
    while i < |sql|
      invariant 0 <= codeStart <= i <= |sql|
      invariant out + PrependCode(sql[codeStart..i], Lex(sql[i..])) == Lex(sql)
    {
      var kind, end, closed := ScanForm(sql, i);
      LexStep(sql, codeStart, i, Form(kind, end - i, closed));
      if kind != Code {
        ghost var code := if codeStart < i then [Segment(Code, sql[codeStart..i], true)] else [];
        AppendAssoc(out, code, [Segment(kind, sql[i..end], closed)], Lex(sql[end..]));
        if codeStart < i {
          out := out + [Segment(Code, sql[codeStart..i], true)];
        }
        out := out + [Segment(kind, sql[i..end], closed)];
        codeStart := end;
        PrependNoCode(sql, end);
      }
      i := end;
    }
    PrependLastCode(sql, codeStart);
    if codeStart < |sql| {
      out := out + [Segment(Code, sql[codeStart..], true)];
    }
  }

  lemma {:induction false} AppendAssoc(a: seq<Segment>, b: seq<Segment>, c: seq<Segment>, d: seq<Segment>)
    ensures a + b + c + d == a + (b + c + d)
    ensures b == [] ==> a + b == a
  {
  }

  lemma {:induction false} LexPending(sql: string)
    ensures PrependCode(sql[0..0], Lex(sql[0..])) == Lex(sql)
  {
    hide FormAt;
    assert sql[0..] == sql;
  }

  lemma {:induction false} PrependNoCode(sql: string, i: nat)
    requires i <= |sql|
    ensures PrependCode(sql[i..i], Lex(sql[i..])) == Lex(sql[i..])
  {
    hide Lex;
  }

  lemma {:induction false} PrependLastCode(sql: string, codeStart: nat)
    requires codeStart <= |sql|
    ensures
      PrependCode(sql[codeStart..|sql|], Lex(sql[|sql|..])) ==
      if codeStart < |sql| then [Segment(Code, sql[codeStart..], true)] else []
  {
    assert sql[codeStart..|sql|] == sql[codeStart..];
  }

  // One turn of the segment loop, with the code read since `codeStart` pending.
  lemma {:induction false} LexStep(sql: string, codeStart: nat, i: nat, f: Form)
    requires codeStart <= i < |sql| && f == FormAt(sql[i..])
    ensures i + f.len <= |sql|
    ensures
      var end := i + f.len;
      PrependCode(sql[codeStart..i], Lex(sql[i..])) ==
      if f.kind == Code then PrependCode(sql[codeStart..end], Lex(sql[end..]))
      else
        (if codeStart < i then [Segment(Code, sql[codeStart..i], true)] else [])
        + [Segment(f.kind, sql[i..end], f.closed)] + Lex(sql[end..])
  {
    hide FormAt;
    var rest, end := sql[i..], i + f.len;
    assert rest[..f.len] == sql[i..end] && rest[f.len..] == sql[end..];
    if f.kind == Code {
      assert sql[codeStart..i] + sql[i..end] == sql[codeStart..end];
      PrependCodeTwice(sql[codeStart..i], sql[i..end], Lex(sql[end..]));
    }
  }

  lemma {:induction false} PrependCodeTwice(a: string, b: string, segs: seq<Segment>)
    ensures PrependCode(a, PrependCode(b, segs)) == PrependCode(a + b, segs)
  {
    if a == "" {
      assert a + b == b;
    } else if b == "" {
      assert a + b == a;
    } else if segs != [] && segs[0].kind == Code {
      assert a + (b + segs[0].text) == a + b + segs[0].text;
    }
  }
}
