// Where each form of SQL opens and ends, read off the positions of the text: what
// the scanners' recursion comes to, said without it.

module LexerReadings {
  import opened Chars
  import opened SqlLexer
  import opened Continuation

  // ----- what opens a form -----

  // A dollar-quote delimiter of `n` characters: a name, or nothing, between two `$`.
  predicate IsTag(s: string, n: nat) {
    && 2 <= n <= |s| && s[0] == '$' && s[n - 1] == '$'
    && (forall i :: 1 <= i < n - 1 ==> IsTagChar(s[i]))
    && (n > 2 ==> IsWordStart(s[1]))
  }

  // A form of some kind opens with the first `at` characters.
  ghost predicate Opens(s: string, kind: Kind, at: nat)
    decreases kind == Code
  {
    match kind
    case Literal =>
      || (at == 1 && |s| >= 1 && s[0] == '\'')
      || (at == 2 && |s| >= 2 && s[0] in "BbXxNn" && s[1] == '\'')
      || (at == 3 && |s| >= 3 && s[0] in "Uu" && s[1] == '&' && s[2] == '\'')
    case Identifier =>
      || (at == 1 && |s| >= 1 && s[0] == '"')
      || (at == 3 && |s| >= 3 && s[0] in "Uu" && s[1] == '&' && s[2] == '"')
    case EscapeString => at == 2 && |s| >= 2 && s[0] in "Ee" && s[1] == '\''
    case LineComment => at == 2 && |s| >= 2 && s[0] == '-' && s[1] == '-'
    case BlockComment => at == 2 && |s| >= 2 && s[0] == '/' && s[1] == '*'
    case Dollar => IsTag(s, at)
    case Code => at == 0 && forall other: Kind, n: nat :: other != Code ==> !Opens(s, other, n)
  }

  // ----- what ends it -----

  function Quotes(text: string, quote: char): nat {
    multiset(text)[quote]
  }

  // The quotes of the first `n` characters pair off but for the last, and no quote
  // follows.
  predicate IsLone(body: string, quote: char, n: nat) {
    n <= |body| && Quotes(body[..n], quote) % 2 == 1 && (n < |body| ==> body[n] != quote)
  }

  predicate IsFirstLone(body: string, quote: char, n: nat) {
    IsLone(body, quote, n) && forall m: nat :: m < n ==> !IsLone(body, quote, m)
  }

  // What stands at `p` of a comment, reading from the left.
  datatype Token = Opening | Closing | Other

  predicate StandsAt(s: string, p: nat, what: string) {
    p + |what| <= |s| && s[p..p + |what|] == what
  }

  function TokenAt(s: string, p: nat): Token {
    if StandsAt(s, p, "*/") then Closing else if StandsAt(s, p, "/*") then Opening else Other
  }

  function Width(token: Token): nat {
    if token == Other then 1 else 2
  }

  function Weight(token: Token): int {
    match token
    case Opening => 1
    case Closing => -1
    case Other => 0
  }

  // The tokens of `s` from `from` on start at the positions `ps`, one behind the
  // other; the last position is the end of the reading.
  predicate IsRead(s: string, from: nat, ps: seq<nat>) {
    && ps != [] && ps[0] == from
    && (forall i :: 0 <= i < |ps| ==> ps[i] <= |s|)
    && (forall i :: 0 <= i < |ps| - 1 ==> ps[i] < |s| && ps[i + 1] == ps[i] + Width(TokenAt(s, ps[i])))
  }

  // How many comments are open after the first `i` tokens.
  function Level(s: string, ps: seq<nat>, i: nat): int
    requires i < |ps|
  {
    if i == 0 then 0 else Level(s, ps, i - 1) + Weight(TokenAt(s, ps[i - 1]))
  }

  // The openings and closings balance for the first time at the last position.
  ghost predicate Balances(s: string, ps: seq<nat>) {
    && |ps| > 1 && IsRead(s, 0, ps) && Level(s, ps, |ps| - 1) == 0
    && forall i :: 0 < i < |ps| - 1 ==> Level(s, ps, i) > 0
  }

  // One character of an escape string's body, a pair, or a quote with all that
  // carries it on into the next quote.
  ghost predicate Goes(s: string, p: nat, q: nat) {
    && p < q <= |s|
    && if s[p] == '\\' then q == p + 2
       else if s[p] != '\'' then q == p + 1
       else if p + 1 < |s| && s[p + 1] == '\'' then q == p + 2
       else CarriedTo(s, p, q)
  }

  // The longest continuation behind the quote at `p` runs to the quote before `q`.
  ghost predicate CarriedTo(s: string, p: nat, q: nat)
    requires p < |s|
  {
    p + 2 < q <= |s| && IsLongest(s[p + 1..], q - p - 2)
  }

  ghost predicate IsLongest(rest: string, v: nat) {
    BrokenToQuote(rest, v) && forall n: nat :: BrokenToQuote(rest, n) ==> n <= v
  }

  ghost predicate GoesNowhere(rest: string) {
    forall n: nat :: !BrokenToQuote(rest, n)
  }

  // A quote at `p` that is neither doubled nor carried on.
  ghost predicate IsLast(s: string, p: nat) {
    p < |s| && s[p] == '\'' && (p + 1 < |s| ==> s[p + 1] != '\'') && GoesNowhere(s[p + 1..])
  }

  ghost predicate IsPath(s: string, from: nat, ps: seq<nat>) {
    && ps != [] && ps[0] == from
    && forall i :: 0 <= i < |ps| - 1 ==> Goes(s, ps[i], ps[i + 1])
  }

  ghost predicate EscapeCloses(s: string, from: nat, n: nat) {
    exists ps :: IsPath(s, from, ps) && IsLast(s, ps[|ps| - 1]) && n == ps[|ps| - 1] + 1
  }

  // The form that opens with the first `at` characters is closed at `n`.
  ghost predicate Closes(s: string, kind: Kind, at: nat, n: nat)
    requires at <= |s|
  {
    match kind
    case Literal => at > 0 && QuoteCloses(s, at, n)
    case Identifier => at > 0 && QuoteCloses(s, at, n)
    case EscapeString => EscapeCloses(s, at, n)
    case BlockComment => exists ps: seq<nat> :: |ps| > 1 && Balances(s, ps) && ps[|ps| - 1] == n
    case Dollar =>
      && 2 * at <= n && StandsAt(s, n - at, s[..at])
      && forall m: nat :: at <= m < n - at ==> !StandsAt(s, m, s[..at])
    case LineComment =>
      && at <= n <= |s| && (forall i :: at <= i < n ==> s[i] != '\n' && s[i] != '\r')
      && (n < |s| ==> s[n] == '\n' || s[n] == '\r')
    case Code =>
      if s != "" && IsWordStart(s[0]) then
        && n <= |s| && (forall i :: 0 <= i < n ==> IsWordChar(s[i]))
        && (n < |s| ==> !IsWordChar(s[n]))
      else n == 1
  }

  // A quoted body ends behind its first lone quote.
  predicate QuoteCloses(s: string, at: nat, n: nat)
    requires 0 < at <= |s|
  {
    at <= n && IsFirstLone(s[at..], s[at - 1], n - at)
  }

  // The form at the head of a text: closed where it closes, or, where nothing
  // closes it, unclosed to the end.
  ghost predicate IsForm(s: string, f: Form)
    requires s != ""
  {
    exists at: nat ::
      && at <= |s| && Opens(s, f.kind, at)
      && if f.closed then Closes(s, f.kind, at, f.len)
         else f.len == |s| && forall n: nat :: !Closes(s, f.kind, at, n)
  }

  // ----- quoted bodies -----

  lemma {:induction false} QuotesHead(s: string, quote: char, n: nat)
    requires 0 < n <= |s|
    ensures Quotes(s[..n], quote) == Quotes(s[1..][..n - 1], quote) + if s[0] == quote then 1 else 0
  {
    assert s[..n] == [s[0]] + s[1..][..n - 1];
  }

  lemma {:induction false} LoneHead(s: string, quote: char)
    requires s != ""
    ensures !IsLone(s, quote, 0)
    ensures s[0] != quote ==> forall n: nat :: 0 < n ==> (IsLone(s, quote, n) <==> IsLone(s[1..], quote, n - 1))
  {
    assert s[..0] == "";
    if s[0] != quote {
      forall n: nat | 0 < n ensures IsLone(s, quote, n) <==> IsLone(s[1..], quote, n - 1) {
        if n <= |s| {
          QuotesHead(s, quote, n);
        }
      }
    }
  }

  lemma {:induction false} LonePair(s: string, quote: char)
    requires |s| > 1 && s[0] == quote && s[1] == quote
    ensures !IsLone(s, quote, 0) && !IsLone(s, quote, 1)
    ensures forall n: nat :: 1 < n ==> (IsLone(s, quote, n) <==> IsLone(s[2..], quote, n - 2))
  {
    assert s[..0] == "";
    forall n: nat | 1 < n ensures IsLone(s, quote, n) <==> IsLone(s[2..], quote, n - 2) {
      if n <= |s| {
        QuotesHead(s, quote, n);
        QuotesHead(s[1..], quote, n - 1);
        assert s[1..][1..] == s[2..];
      }
    }
  }

  // The end the scanner finds is behind the first lone quote.
  lemma {:induction false} QuotedIsFirst(s: string, quote: char)
    ensures
      var e := QuotedEnd(s, quote);
      if e.closed then IsFirstLone(s, quote, e.len)
      else forall m: nat :: !IsLone(s, quote, m)
    decreases |s|
  {
    hide IsLone;
    if s == "" {
      NothingLone(quote);
    } else if s[0] != quote {
      LoneHead(s, quote);
      QuotedIsFirst(s[1..], quote);
    } else if |s| > 1 && s[1] == quote {
      LonePair(s, quote);
      QuotedIsFirst(s[2..], quote);
    } else {
      LoneOne(s, quote);
    }
  }

  lemma {:induction false} NothingLone(quote: char)
    ensures forall m: nat :: !IsLone("", quote, m)
  {
  }

  lemma {:induction false} LoneOne(s: string, quote: char)
    requires s != "" && s[0] == quote && (|s| > 1 ==> s[1] != quote)
    ensures IsLone(s, quote, 1) && !IsLone(s, quote, 0)
  {
    assert s[..0] == "" && s[..1] == [quote];
  }

  lemma {:induction false} QuoteIsRead(s: string, kind: Kind, at: nat)
    requires kind in {Literal, Identifier} && 0 < at <= |s|
    ensures Ends(s, kind, at, QuotedEnd(s[at..], s[at - 1]))
  {
    hide IsLone, QuotedEnd;
    QuotedIsFirst(s[at..], s[at - 1]);
    var e := QuotedEnd(s[at..], s[at - 1]);
    forall n: nat ensures Closes(s, kind, at, n) <==> e.closed && n == at + e.len {
      if Closes(s, kind, at, n) && e.closed {
        OneFirst(s[at..], s[at - 1], n - at, e.len);
      }
    }
  }

  lemma {:induction false} OneFirst(body: string, quote: char, n: nat, m: nat)
    requires IsFirstLone(body, quote, n) && IsFirstLone(body, quote, m)
    ensures n == m
  {
    hide IsLone;
  }

  // A scanner's result is where the form closes, and nowhere else.
  ghost predicate Ends(s: string, kind: Kind, at: nat, e: End)
    requires at <= |s|
  {
    forall n: nat :: Closes(s, kind, at, n) <==> e.closed && n == at + e.len
  }

  // ----- comments -----

  lemma {:induction false} LevelOfTail(s: string, ps: seq<nat>, i: nat)
    requires 0 < i < |ps|
    ensures Level(s, ps, i) == Weight(TokenAt(s, ps[0])) + Level(s, ps[1..], i - 1)
    decreases i
  {
    hide TokenAt;
    if i > 1 {
      LevelOfTail(s, ps, i - 1);
    }
  }

  // From `from` on, with `depth` comments open, the reading `ps` closes them all
  // for the first time at its end.
  ghost predicate BalancesFrom(s: string, from: nat, depth: nat, ps: seq<nat>) {
    && IsRead(s, from, ps) && depth + Level(s, ps, |ps| - 1) == 0
    && forall i :: 0 <= i < |ps| - 1 ==> depth + Level(s, ps, i) > 0
  }

  lemma {:induction false} TokenAhead(s: string, p: nat)
    requires p <= |s|
    ensures StartsWith(s[p..], "*/") <==> StandsAt(s, p, "*/")
    ensures StartsWith(s[p..], "/*") <==> StandsAt(s, p, "/*")
  {
    assert p + 2 <= |s| ==> s[p..][..2] == s[p..p + 2];
  }

  // One token taken off a reading.
  lemma {:induction false} ReadTail(s: string, from: nat, depth: nat, ps: seq<nat>)
    requires depth > 0 && BalancesFrom(s, from, depth, ps)
    ensures |ps| > 1 && from < |s| && ps[1] == from + Width(TokenAt(s, from))
    ensures depth + Weight(TokenAt(s, from)) >= 0
    ensures BalancesFrom(s, ps[1], depth + Weight(TokenAt(s, from)), ps[1..])
    ensures depth + Weight(TokenAt(s, from)) == 0 ==> |ps| == 2
  {
    hide TokenAt;
    var rest, w := ps[1..], Weight(TokenAt(s, from));
    assert Level(s, ps, 0) == 0;
    forall i | 0 < i < |ps| ensures Level(s, ps, i) == w + Level(s, rest, i - 1) {
      LevelOfTail(s, ps, i);
    }
    assert Level(s, rest, 0) == 0 && Level(s, ps, 1) == w;
    forall i | 0 <= i < |rest| - 1 ensures depth + w + Level(s, rest, i) > 0 {
      assert Level(s, ps, i + 1) == w + Level(s, rest, i);
    }
  }

  // ... and one put in front.
  lemma {:induction false} ReadMore(s: string, from: nat, depth: nat, rest: seq<nat>)
    requires depth > 0 && from < |s| && depth + Weight(TokenAt(s, from)) >= 0
    requires BalancesFrom(s, from + Width(TokenAt(s, from)), depth + Weight(TokenAt(s, from)), rest)
    ensures BalancesFrom(s, from, depth, [from] + rest)
  {
    hide TokenAt;
    var ps, w := [from] + rest, Weight(TokenAt(s, from));
    assert ps[1..] == rest;
    forall i | 0 < i < |ps| ensures Level(s, ps, i) == w + Level(s, rest, i - 1) {
      LevelOfTail(s, ps, i);
    }
    assert Level(s, ps, 0) == 0;
  }

  lemma {:induction false} BalanceIsEnd(s: string, from: nat, depth: nat, ps: seq<nat>)
    requires from <= |s| && depth > 0 && BalancesFrom(s, from, depth, ps)
    ensures ps != [] && ps[|ps| - 1] >= from
    ensures BlockEnd(s[from..], depth) == End(ps[|ps| - 1] - from, true)
    decreases |ps|
  {
    hide BlockEnd, StandsAt;
    ReadTail(s, from, depth, ps);
    TokenAhead(s, from);
    BlockTurn(s, from, depth);
    var next := depth + Weight(TokenAt(s, from));
    if next > 0 {
      BalanceIsEnd(s, ps[1], next, ps[1..]);
    }
  }

  lemma {:induction false} EndIsBalance(s: string, from: nat, depth: nat) returns (ps: seq<nat>)
    requires from <= |s| && depth > 0 && BlockEnd(s[from..], depth).closed
    ensures BalancesFrom(s, from, depth, ps)
    decreases |s| - from
  {
    hide BlockEnd, StandsAt;
    TokenAhead(s, from);
    BlockTurn(s, from, depth);
    var token := TokenAt(s, from);
    var next, to := depth + Weight(token), from + Width(token);
    if next == 0 {
      ps := [to];
    } else {
      ps := EndIsBalance(s, to, next);
    }
    ReadMore(s, from, depth, ps);
    ps := [from] + ps;
  }

  lemma {:induction false} BlockIsRead(s: string)
    requires Opens(s, BlockComment, 2)
    ensures Ends(s, BlockComment, 2, BlockEnd(s[2..], 1))
  {
    hide BlockEnd, Balances;
    var e := BlockEnd(s[2..], 1);
    forall n: nat ensures Closes(s, BlockComment, 2, n) <==> e.closed && n == 2 + e.len {
      if Closes(s, BlockComment, 2, n) {
        var ps: seq<nat> :| |ps| > 1 && Balances(s, ps) && ps[|ps| - 1] == n;
        FirstIsOpening(s, ps);
        BalanceIsEnd(s, 2, 1, ps[1..]);
      }
      if e.closed {
        var rest := EndIsBalance(s, 2, 1);
        BalanceIsEnd(s, 2, 1, rest);
        OpeningIsFirst(s, rest);
      }
    }
  }

  lemma {:induction false} FirstIsOpening(s: string, ps: seq<nat>)
    requires Opens(s, BlockComment, 2) && Balances(s, ps)
    ensures BalancesFrom(s, 2, 1, ps[1..])
  {
    assert s[0..2] == "/*";
    assert TokenAt(s, 0) == Opening;
    hide TokenAt;
    var rest := ps[1..];
    forall i | 0 < i < |ps| ensures Level(s, ps, i) == 1 + Level(s, rest, i - 1) {
      LevelOfTail(s, ps, i);
    }
    assert Level(s, rest, 0) == 0;
    forall i | 0 <= i < |rest| - 1 ensures 1 + Level(s, rest, i) > 0 {
      assert Level(s, ps, i + 1) == 1 + Level(s, rest, i);
    }
  }

  lemma {:induction false} OpeningIsFirst(s: string, rest: seq<nat>)
    requires Opens(s, BlockComment, 2) && BalancesFrom(s, 2, 1, rest)
    ensures Balances(s, [0] + rest) && ([0] + rest)[|rest|] == rest[|rest| - 1]
  {
    assert s[0..2] == "/*";
    assert TokenAt(s, 0) == Opening;
    hide TokenAt, Level, IsRead;
    var ps := [0] + rest;
    ReadBehind(s, 0, rest);
    forall i | 0 < i < |ps| ensures Level(s, ps, i) == 1 + Level(s, rest, i - 1) {
      assert ps[1..] == rest;
      LevelOfTail(s, ps, i);
    }
    forall i | 0 < i < |ps| - 1 ensures Level(s, ps, i) > 0 {
      assert 1 + Level(s, rest, i - 1) > 0;
    }
  }

  lemma {:induction false} ReadBehind(s: string, from: nat, rest: seq<nat>)
    requires from < |s| && IsRead(s, from + Width(TokenAt(s, from)), rest)
    ensures rest != [] && IsRead(s, from, [from] + rest)
  {
    hide TokenAt;
    var ps := [from] + rest;
    assert forall i :: 0 < i < |ps| ==> ps[i] == rest[i - 1];
  }

  lemma {:induction false} LineIsRead(s: string)
    requires Opens(s, LineComment, 2)
    ensures Ends(s, LineComment, 2, End(LineEnd(s[2..]), true))
  {
    var e := LineEnd(s[2..]);
    forall n: nat ensures Closes(s, LineComment, 2, n) <==> n == 2 + e {
      LineStops(s, e, n);
    }
  }

  lemma {:induction false} LineStops(s: string, e: nat, n: nat)
    requires |s| >= 2 && e == LineEnd(s[2..])
    ensures Closes(s, LineComment, 2, n) <==> n == 2 + e
  {
    hide LineEnd;
    forall i | 2 <= i < |s| ensures IsBreak(s[i]) <==> IsBreak(s[2..][i - 2]) {
    }
  }

  // ----- dollar bodies -----

  lemma {:induction false} TagIsRead(s: string, n: nat)
    ensures IsTag(s, n) <==> TagLength(s) == Some(n)
  {
    hide TagRun;
    if s != "" && s[0] == '$' {
      var rest := s[1..];
      assert forall i :: 1 <= i < |s| ==> rest[i - 1] == s[i];
      TagStops(s, n);
    }
  }

  lemma {:induction false} TagStops(s: string, n: nat)
    requires s != "" && s[0] == '$' && forall i :: 1 <= i < |s| ==> s[1..][i - 1] == s[i]
    ensures IsTag(s, n) ==> NameLength(s[1..]) == n - 2
    ensures TagLength(s) == Some(n) ==> IsTag(s, n)
  {
    hide TagRun;
    var rest := s[1..];
    if IsTag(s, n) && n > 2 {
      RunStops(rest, n - 2);
    }
  }

  lemma {:induction false} RunStops(s: string, n: nat)
    requires n < |s| && s[n] == '$' && forall i :: 0 <= i < n ==> IsTagChar(s[i])
    ensures TagRun(s) == n
    decreases n
  {
    if n > 0 {
      RunStops(s[1..], n - 1);
    }
  }

  lemma {:induction false} DollarIsRead(s: string, at: nat)
    requires Opens(s, Dollar, at)
    ensures Ends(s, Dollar, at, DollarEnd(s[at..], s[..at]))
  {
    var tag := s[..at];
    var close := Find(s[at..], tag);
    FindIsFirst(s[at..], tag);
    hide Find, IsTag;
    forall j: nat | j <= |s| - at ensures StartsWith(s[at..][j..], tag) <==> StandsAt(s, at + j, tag) {
      TagAtPlace(s, at, j);
    }
    forall n: nat ensures Closes(s, Dollar, at, n) <==> close.Some? && n == at + (close.value + at) {
      TagFirst(s, at, n, close);
    }
  }

  lemma {:induction false} TagAtPlace(s: string, at: nat, j: nat)
    requires at + j <= |s|
    ensures StartsWith(s[at..][j..], s[..at]) <==> StandsAt(s, at + j, s[..at])
  {
    assert s[at..][j..] == s[at + j..];
    if at + j + at <= |s| {
      assert s[at + j..][..at] == s[at + j..at + j + at];
    }
  }

  lemma {:induction false} TagFirst(s: string, at: nat, n: nat, close: Option<nat>)
    requires 2 <= at <= |s| && (close.Some? ==> at + close.value <= |s|)
    requires forall j: nat :: j <= |s| - at ==> (StartsWith(s[at..][j..], s[..at]) <==> StandsAt(s, at + j, s[..at]))
    requires
      match close
      case Some(c) =>
        StartsWith(s[at..][c..], s[..at]) && forall j :: 0 <= j < c ==> !StartsWith(s[at..][j..], s[..at])
      case None => forall j :: 0 <= j <= |s| - at ==> !StartsWith(s[at..][j..], s[..at])
    ensures Closes(s, Dollar, at, n) <==> close.Some? && n == at + (close.value + at)
  {
    hide StandsAt;
    if Closes(s, Dollar, at, n) {
      StandsInside(s, n - at, s[..at]);
      assert StartsWith(s[at..][n - at - at..], s[..at]);
      if close.Some? {
        NoneEarlier(s, at, n, at + close.value);
      }
    }
    if close.Some? && n == at + (close.value + at) {
      forall m: nat | at <= m < n - at ensures !StandsAt(s, m, s[..at]) {
        assert !StartsWith(s[at..][m - at..], s[..at]);
      }
    }
  }

  lemma {:induction false} NoneEarlier(s: string, at: nat, n: nat, m: nat)
    requires at <= |s| && Closes(s, Dollar, at, n) && at <= m && StandsAt(s, m, s[..at])
    ensures n - at <= m
  {
    hide StandsAt;
  }

  lemma {:induction false} StandsInside(s: string, p: nat, what: string)
    requires StandsAt(s, p, what)
    ensures p + |what| <= |s|
  {
  }

  // ----- escape strings -----

  lemma {:induction false} CarriedIsLongest(rest: string)
    ensures BeforeBreak(rest).None? <==> GoesNowhere(rest)
    ensures forall v: nat :: BeforeBreak(rest) == Some(v) <==> IsLongest(rest, v)
  {
    hide BeforeBreak, BrokenToQuote;
    BeforeBreakIsLongest(rest);
  }

  // What one step of a body does, at a place the reading goes on from.
  lemma {:induction false} GoneOn(s: string, p: nat, q: nat)
    requires Goes(s, p, q)
    ensures EscapeEnd(s[p..]) == EscapeEnd(s[q..]).After(q - p)
  {
    hide EscapeEnd, BeforeBreak, BrokenToQuote;
    EscapeStep(s, p);
    CarriedIsLongest(s[p + 1..]);
    NextQuote(s, p);
  }

  lemma {:induction false} NextQuote(s: string, p: nat)
    requires p < |s|
    ensures StartsWith(s[p + 1..], "'") <==> p + 1 < |s| && s[p + 1] == '\''
  {
  }

  lemma {:induction false} LastEnds(s: string, p: nat)
    requires IsLast(s, p)
    ensures EscapeEnd(s[p..]) == End(1, true)
  {
    hide EscapeEnd, BeforeBreak, BrokenToQuote;
    EscapeStep(s, p);
    CarriedIsLongest(s[p + 1..]);
    NextQuote(s, p);
  }

  // Where a closed body goes on to, or that it ends here.
  lemma {:induction false} GoesOrEnds(s: string, p: nat) returns (q: nat)
    requires p <= |s| && EscapeEnd(s[p..]).closed
    ensures p < |s| && (q == p ==> IsLast(s, p)) && (q != p ==> Goes(s, p, q))
  {
    hide EscapeEnd, BeforeBreak, BrokenToQuote;
    NothingIsOpen(s, p);
    EscapeStep(s, p);
    CarriedIsLongest(s[p + 1..]);
    NextQuote(s, p);
    if s[p] == '\\' {
      q := p + 2;
    } else if s[p] != '\'' {
      q := p + 1;
    } else if p + 1 < |s| && s[p + 1] == '\'' {
      q := p + 2;
    } else if BeforeBreak(s[p + 1..]).None? {
      q := p;
    } else {
      q := p + 2 + BeforeBreak(s[p + 1..]).value;
    }
  }

  lemma {:induction false} NothingIsOpen(s: string, p: nat)
    requires p <= |s| && EscapeEnd(s[p..]).closed
    ensures p < |s|
  {
  }

  lemma {:induction false} PathIsEnd(s: string, from: nat, ps: seq<nat>)
    requires IsPath(s, from, ps) && IsLast(s, ps[|ps| - 1])
    ensures from <= ps[|ps| - 1] && from <= |s|
    ensures EscapeEnd(s[from..]) == End(ps[|ps| - 1] + 1 - from, true)
    decreases |ps|
  {
    hide EscapeEnd, Goes, IsLast;
    if |ps| == 1 {
      LastEnds(s, from);
      InText(s, from);
    } else {
      assert Goes(s, ps[0], ps[0 + 1]);
      Forward(s, from, ps[1]);
      GoneOn(s, from, ps[1]);
      PathTail(s, from, ps);
      PathIsEnd(s, ps[1], ps[1..]);
    }
  }

  lemma {:induction false} InText(s: string, p: nat)
    requires IsLast(s, p)
    ensures p < |s|
  {
  }

  lemma {:induction false} Forward(s: string, p: nat, q: nat)
    requires Goes(s, p, q)
    ensures p < q <= |s|
  {
  }

  lemma {:induction false} PathTail(s: string, from: nat, ps: seq<nat>)
    requires IsPath(s, from, ps) && |ps| > 1
    ensures IsPath(s, ps[1], ps[1..]) && ps[1..][|ps| - 2] == ps[|ps| - 1]
  {
    hide Goes;
    var rest := ps[1..];
    forall i | 0 <= i < |rest| - 1 ensures Goes(s, rest[i], rest[i + 1]) {
      assert Goes(s, ps[i + 1], ps[i + 1 + 1]);
    }
  }

  lemma {:induction false} EndIsPath(s: string, from: nat) returns (ps: seq<nat>)
    requires from <= |s| && EscapeEnd(s[from..]).closed
    ensures IsPath(s, from, ps) && IsLast(s, ps[|ps| - 1])
    decreases |s| - from
  {
    hide EscapeEnd, Goes, IsLast;
    var q := GoesOrEnds(s, from);
    if q == from {
      ps := [from];
    } else {
      Forward(s, from, q);
      GoneOn(s, from, q);
      var rest := EndIsPath(s, q);
      ps := [from] + rest;
      forall i | 0 <= i < |ps| - 1 ensures Goes(s, ps[i], ps[i + 1]) {
        if i > 0 {
          assert Goes(s, rest[i - 1], rest[i - 1 + 1]);
        }
      }
    }
  }

  lemma {:induction false} EscapeIsRead(s: string)
    requires Opens(s, EscapeString, 2)
    ensures Ends(s, EscapeString, 2, EscapeEnd(s[2..]))
  {
    hide EscapeEnd, IsPath, IsLast;
    var e := EscapeEnd(s[2..]);
    forall n: nat ensures Closes(s, EscapeString, 2, n) <==> e.closed && n == 2 + e.len {
      if EscapeCloses(s, 2, n) {
        EscapeHasPath(s, n);
      }
      if e.closed {
        var ps := EndIsPath(s, 2);
        PathIsEnd(s, 2, ps);
      }
    }
  }

  lemma {:induction false} EscapeHasPath(s: string, n: nat)
    requires |s| >= 2 && EscapeCloses(s, 2, n)
    ensures EscapeEnd(s[2..]).closed && n == 2 + EscapeEnd(s[2..]).len
  {
    hide EscapeEnd, Goes, IsLast;
    var ps :| IsPath(s, 2, ps) && IsLast(s, ps[|ps| - 1]) && n == ps[|ps| - 1] + 1;
    PathIsEnd(s, 2, ps);
  }

  // ----- the form at the head -----

  // How many characters open the form at the head.
  function Head(s: string): nat
    requires s != ""
  {
    match FormAt(s).kind
    case Code => 0
    case Dollar => if TagLength(s).Some? then TagLength(s).value else 0
    case Literal => if s[0] == '\'' then 1 else if |s| > 1 && s[1] == '\'' then 2 else 3
    case Identifier => if s[0] == '"' then 1 else 3
    case _ => 2
  }

  // A form opens with what the scanner branches on, and nothing else does.
  lemma {:induction false} HeadOpens(s: string, kind: Kind, at: nat)
    requires s != ""
    ensures Opens(s, kind, at) <==> kind == FormAt(s).kind && at == Head(s)
  {
    hide FormAt, Head, Opens;
    if kind != Code {
      OtherOpens(s, kind, at);
    } else {
      CodeOpens(s, at);
    }
  }

  lemma {:induction false} CodeOpens(s: string, at: nat)
    requires s != ""
    ensures Opens(s, Code, at) <==> FormAt(s).kind == Code && at == Head(s)
  {
    hide FormAt, IsTag;
    forall other: Kind, n: nat | other != Code
      ensures Opens(s, other, n) <==> other == FormAt(s).kind && n == Head(s)
    {
      OtherOpens(s, other, n);
    }
    if FormAt(s).kind != Code {
      assert Opens(s, FormAt(s).kind, Head(s));
    }
  }

  lemma {:induction false} OtherOpens(s: string, kind: Kind, at: nat)
    requires s != "" && kind != Code
    ensures Opens(s, kind, at) <==> kind == FormAt(s).kind && at == Head(s)
  {
    hide QuotedEnd, EscapeEnd, BlockEnd, DollarEnd, LineEnd, TagLength, IsTag, WordForm;
    if s[0] == '$' {
      TagIsRead(s, at);
    } else if IsWordStart(s[0]) {
      NotATag(s, at);
      WordOpens(s, kind, at);
    } else {
      NotATag(s, at);
    }
  }

  lemma {:induction false} NotATag(s: string, n: nat)
    requires s != "" && s[0] != '$'
    ensures !IsTag(s, n)
  {
  }

  lemma {:induction false} WordOpens(s: string, kind: Kind, at: nat)
    requires s != "" && IsWordStart(s[0]) && kind != Code
    ensures Opens(s, kind, at) <==> kind == FormAt(s).kind && at == Head(s)
  {
    hide QuotedEnd, EscapeEnd, BlockEnd, DollarEnd, LineEnd, TagLength, IsTag;
    NotATag(s, at);
    var n := WordRun(s);
    assert n == 1 <==> |s| == 1 || !IsWordChar(s[1]) by {
      if |s| > 1 {
        assert s[1..][0] == s[1];
      }
    }
    assert n == 1 ==> s[n..] == s[1..] && (|s| > 1 ==> s[1..][0] == s[1]) && (|s| > 2 ==> s[1..][1] == s[2]);
  }

  // The head of a form, and that it closes where the scanner says.
  lemma {:induction false} HeadCloses(s: string)
    requires s != ""
    ensures Head(s) <= |s|
    ensures forall n: nat :: Closes(s, FormAt(s).kind, Head(s), n) <==> FormAt(s).closed && n == FormAt(s).len
  {
    var f := FormAt(s);
    HeadOpens(s, f.kind, Head(s));
    HeadScans(s);
    hide FormAt, Closes, Head;
    match f.kind {
      case Literal => QuoteIsRead(s, Literal, Head(s));
      case Identifier => QuoteIsRead(s, Identifier, Head(s));
      case EscapeString => EscapeIsRead(s);
      case Dollar => DollarIsRead(s, Head(s));
      case LineComment => LineIsRead(s);
      case BlockComment => BlockIsRead(s);
      case Code => CodeIsRead(s);
    }
  }

  // What the scanner called for the form at the head found.
  lemma {:induction false} HeadScans(s: string)
    requires s != ""
    ensures
      var f, at := FormAt(s), Head(s);
      && at <= |s|
      && match f.kind
         case Literal => at > 0 && f == FormOf(f.kind, at, QuotedEnd(s[at..], s[at - 1]))
         case Identifier => at > 0 && f == FormOf(f.kind, at, QuotedEnd(s[at..], s[at - 1]))
         case EscapeString => at == 2 && f == FormOf(f.kind, at, EscapeEnd(s[at..]))
         case BlockComment => at == 2 && f == FormOf(f.kind, at, BlockEnd(s[at..], 1))
         case LineComment => at == 2 && f == FormOf(f.kind, at, End(LineEnd(s[at..]), true))
         case Dollar => at > 0 && f == FormOf(f.kind, at, DollarEnd(s[at..], s[..at]))
         case Code => at == 0 && f == Form(Code, if IsWordStart(s[0]) then WordRun(s) else 1, true)
  {
    hide QuotedEnd, EscapeEnd, BlockEnd, DollarEnd, LineEnd, TagLength;
    if IsWordStart(s[0]) {
      var n := WordRun(s);
      assert n == 1 ==> s[n..] == s[1..];
      assert n == 1 && |s| > 1 ==> s[1..][1..] == s[2..];
      assert n == 1 && |s| > 2 ==> s[1..][2..] == s[3..];
    }
  }

  lemma {:induction false} CodeIsRead(s: string)
    requires s != "" && FormAt(s) == Form(Code, if IsWordStart(s[0]) then WordRun(s) else 1, true)
    ensures forall n: nat :: Closes(s, Code, 0, n) <==> n == FormAt(s).len
  {
    hide FormAt, WordRun;
    var run := WordRun(s);
    forall n: nat ensures Closes(s, Code, 0, n) <==> n == FormAt(s).len {
      if IsWordStart(s[0]) && n < run {
        assert IsWordChar(s[n]);
      }
    }
  }

  // The scanner's form is the one that opens and closes as read off the text, and
  // there is no other.
  lemma {:induction false} FormIsRead(s: string, f: Form)
    requires s != ""
    ensures FormAt(s) == f <==> IsForm(s, f)
  {
    hide FormAt, Opens, Closes, Head;
    HeadCloses(s);
    forall at: nat ensures Opens(s, f.kind, at) <==> f.kind == FormAt(s).kind && at == Head(s) {
      HeadOpens(s, f.kind, at);
    }
    UnclosedIsAll(s);
    var g, at := FormAt(s), Head(s);
    assert g.closed ==> Closes(s, g.kind, at, g.len);
    HeadOpens(s, g.kind, at);
    if IsForm(s, f) {
      assert Opens(s, f.kind, at);
    }
  }

  lemma {:induction false} UnclosedIsAll(s: string)
    requires s != ""
    ensures !FormAt(s).closed ==> FormAt(s).len == |s|
  {
    hide FormAt;
  }

  // ----- the segments of a text -----

  // The first `n` characters are words and single characters of code.
  ghost predicate CodeRuns(s: string, n: nat)
    decreases n
  {
    n == 0 ||
    exists m: nat :: 0 < m <= n <= |s| && IsForm(s, Form(Code, m, true)) && CodeRuns(s[m..], n - m)
  }

  // A segment that stands at the head of `s`: one form, or a run of code.
  ghost predicate StandsAtHead(seg: Segment, s: string) {
    && |seg.text| <= |s| && seg.text == s[..|seg.text|]
    && if seg.kind == Code then seg.closed && CodeRuns(s, |seg.text|)
       else s != "" && IsForm(s, Form(seg.kind, |seg.text|, seg.closed))
  }

  // Every segment of a text is a form read off the text where it stands, or all
  // the code there is between two of them.
  lemma {:induction false} SegmentIsRead(s: string, i: nat)
    requires i < |Lex(s)|
    ensures
      var at := |Text(Lex(s)[..i])|;
      at <= |s| && StandsAtHead(Lex(s)[i], s[at..])
    decreases |s|
  {
    hide FormAt, IsForm, StandsAtHead, Lex, Prepend;
    LexStep(s);
    var f := FormAt(s);
    var text, rest := s[..f.len], Lex(s[f.len..]);
    FormIsRead(s, f);
    CodeIsWhole(s);
    PrependedLength(f, text, rest);
    if Joins(f, rest) {
      SegmentIsRead(s[f.len..], i);
      JoinedStands(s, f, rest, i);
    } else {
      if i > 0 {
        SegmentIsRead(s[f.len..], i - 1);
      }
      AloneStands(s, f, rest, i);
    }
  }

  lemma {:induction false} PrependedLength(f: Form, text: string, rest: seq<Segment>)
    requires text != ""
    ensures |Prepend(f, text, rest)| == |rest| + if Joins(f, rest) then 0 else 1
  {
  }

  predicate Joins(f: Form, rest: seq<Segment>) {
    f.kind == Code && rest != [] && rest[0].kind == Code
  }

  lemma {:induction false} LexStep(s: string)
    requires Lex(s) != []
    ensures s != ""
    ensures Lex(s) == Prepend(FormAt(s), s[..FormAt(s).len], Lex(s[FormAt(s).len..]))
  {
    hide FormAt, Prepend;
  }

  lemma {:induction false} CodeIsWhole(s: string)
    requires s != ""
    ensures FormAt(s).kind == Code ==> FormAt(s).closed
  {
    hide FormAt;
  }

  lemma {:induction false} JoinedStands(s: string, f: Form, rest: seq<Segment>, i: nat)
    requires s != "" && IsForm(s, f) && 0 < f.len <= |s| && f.closed && Joins(f, rest) && i < |rest|
    requires
      var at := |Text(rest[..i])|;
      at <= |s[f.len..]| && StandsAtHead(rest[i], s[f.len..][at..])
    ensures
      var segs := Prepend(f, s[..f.len], rest);
      var at := |Text(segs[..i])|;
      at <= |s| && StandsAtHead(segs[i], s[at..])
  {
    hide IsForm;
    var segs, n := Prepend(f, s[..f.len], rest), f.len;
    if i == 0 {
      var tail, m := s[n..], |rest[0].text|;
      assert rest[..0] == [] && segs[..0] == [] && tail[0..] == tail && s[0..] == s;
      assert s[..n] + tail[..m] == s[..n + m];
      assert CodeRuns(tail, m) && tail == s[n..];
      assert CodeRuns(s, n + m);
    } else {
      TextOfHead(segs[..i]);
      TextOfHead(rest[..i]);
      assert segs[..i][1..] == rest[..i][1..] && segs[i] == rest[i];
      var at := |Text(rest[..i])|;
      assert s[n..][at..] == s[n + at..];
    }
  }

  lemma {:induction false} TextOfHead(segs: seq<Segment>)
    requires segs != []
    ensures Text(segs) == segs[0].text + Text(segs[1..])
  {
  }

  lemma {:induction false} AloneStands(s: string, f: Form, rest: seq<Segment>, i: nat)
    requires s != "" && IsForm(s, f) && 0 < f.len <= |s| && !Joins(f, rest) && i < |rest| + 1
    requires f.kind == Code ==> f.closed
    requires i > 0 ==>
      var at := |Text(rest[..i - 1])|;
      at <= |s[f.len..]| && StandsAtHead(rest[i - 1], s[f.len..][at..])
    ensures
      var segs := Prepend(f, s[..f.len], rest);
      i < |segs| &&
      var at := |Text(segs[..i])|;
      at <= |s| && StandsAtHead(segs[i], s[at..])
  {
    hide IsForm;
    var segs, n := Prepend(f, s[..f.len], rest), f.len;
    assert segs == [Segment(f.kind, s[..n], f.closed)] + rest;
    if i == 0 {
      assert segs[..0] == [] && s[0..] == s;
      if f.kind == Code {
        assert CodeRuns(s[n..], n - n);
      }
    } else {
      TextOfHead(segs[..i]);
      assert segs[..i][1..] == rest[..i - 1];
      var at := |Text(rest[..i - 1])|;
      assert s[n..][at..] == s[n + at..];
    }
  }
}
