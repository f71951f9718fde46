// The key a statement is compared by: comments dropped, whitespace collapsed,
// refused when that would move its quotes.

module Normalizer {
  import opened Chars
  import opened SqlLexer
  import opened Splitter
  import opened ExecutionMode

  datatype Result<+T> = Ok(value: T) | QuotesWouldMove(statement: string)

  // Each run of whitespace as one space.
  function Collapse(s: string): string
    decreases |s|
  {
    if s == "" then ""
    else if IsSpace(s[0]) then " " + Collapse(SkipSpaces(s[1..]))
    else [s[0]] + Collapse(s[1..])
  }

  // What normalizing must leave as it found it: every segment but blank code,
  // and whether each is closed.
  function Shape(segs: seq<Segment>): seq<(Kind, bool)> {
    if segs == [] then []
    else
      (if segs[0].kind == Code && Blank(segs[0].text) then [] else [(segs[0].kind, segs[0].closed)])
      + Shape(segs[1..])
  }

  function NormalizedText(statement: string): string {
    Strip(Collapse(Uncommented(Lex(statement))))
  }

  function Normalized(statement: string): Result<string> {
    var key := NormalizedText(statement);
    if Shape(Lex(key)) != Shape(Lex(Uncommented(Lex(statement)))) then QuotesWouldMove(statement)
    else Ok(key)
  }

  function NormalizedAll(statements: seq<string>): Result<seq<string>> {
    if statements == [] then Ok([])
    else
      match Normalized(statements[0])
      case QuotesWouldMove(statement) => QuotesWouldMove(statement)
      case Ok(key) =>
        match NormalizedAll(statements[1..])
        case QuotesWouldMove(statement) => QuotesWouldMove(statement)
        case Ok(keys) => Ok([key] + keys)
  }

  function Normalize(sql: string): Result<seq<string>> {
    NormalizedAll(Statements(sql))
  }

  method NormalizeStatements(sql: string) returns (result: Result<seq<string>>)
    ensures result == Normalize(sql)
  {
    hide Normalized, Statements;
    var statements := SplitStatements(sql);
    var out: seq<string> := [];
    ghost var all := NormalizedAll(statements);
    assert statements[0..] == statements;
    assert all.Ok? ==> [] + all.value == all.value;
    for k := 0 to |statements|
      invariant all == Append(out, NormalizedAll(statements[k..]))
    {
      var raw := statements[k];
      assert statements[k..][1..] == statements[k + 1..];
      var segs := Segments(raw);
      var text := Uncommented(segs);
      var collapsed := Strip(Collapse(text));
      var before := Segments(text);
      var after := Segments(collapsed);
      NormalizedSteps(raw, segs, text, collapsed, before, after);
      if Shape(after) != Shape(before) {
        return QuotesWouldMove(raw);
      }
      AppendOne(out, collapsed, NormalizedAll(statements[k + 1..]));
      out := out + [collapsed];
    }
    assert statements[|statements|..] == [] && out + [] == out;
    return Ok(out);
  }

  ghost function Append(out: seq<string>, rest: Result<seq<string>>): Result<seq<string>> {
    match rest
    case Ok(keys) => Ok(out + keys)
    case QuotesWouldMove(statement) => QuotesWouldMove(statement)
  }

  lemma {:induction false} AppendOne(out: seq<string>, key: string, rest: Result<seq<string>>)
    ensures
      Append(out + [key], rest) ==
      Append(out, match rest case Ok(keys) => Ok([key] + keys) case QuotesWouldMove(s) => QuotesWouldMove(s))
  {
    if rest.Ok? {
      assert out + [key] + rest.value == out + ([key] + rest.value);
    }
  }

  lemma {:induction false} NormalizedSteps(
    raw: string, segs: seq<Segment>, text: string, collapsed: string, before: seq<Segment>,
    after: seq<Segment>)
    requires segs == Lex(raw) && text == Uncommented(segs) && collapsed == Strip(Collapse(text))
    requires before == Lex(text) && after == Lex(collapsed)
    ensures
      Normalized(raw) == if Shape(after) != Shape(before) then QuotesWouldMove(raw) else Ok(collapsed)
  {
  }
}
