// Character classes and the few string operations the scanners share.
// A `char` is one Unicode scalar value, as a Python string's element is.

module Chars {
  datatype Option<+T> = None | Some(value: T)

  // What Python's `\s` matches and `str.strip` removes.
  predicate IsSpace(c: char) {
    || '\t' <= c <= '\r'
    || '\U{1c}' <= c <= ' '
    || c == '\U{85}' || c == '\U{a0}' || c == '\U{1680}'
    || '\U{2000}' <= c <= '\U{200a}'
    || c == '\U{2028}' || c == '\U{2029}' || c == '\U{202f}' || c == '\U{205f}'
    || c == '\U{3000}'
  }

  predicate Blank(s: string) {
    forall c <- s :: IsSpace(c)
  }

  // The first character of a word, and of a dollar tag's name.
  predicate IsWordStart(c: char) {
    'A' <= c <= 'Z' || 'a' <= c <= 'z' || c == '_' || '\U{80}' <= c
  }

  predicate IsTagChar(c: char) {
    IsWordStart(c) || '0' <= c <= '9'
  }

  predicate IsWordChar(c: char) {
    IsTagChar(c) || c == '$'
  }

  predicate IsBreak(c: char) {
    c == '\n' || c == '\r'
  }

  predicate StartsWith(s: string, prefix: string) {
    prefix <= s
  }

  // The first place at which `pattern` stands in `s`, as `str.find` gives it.
  function Find(s: string, pattern: string): (at: Option<nat>)
    ensures at.Some? ==> at.value + |pattern| <= |s|
  {
    if StartsWith(s, pattern) then Some(0)
    else if s == "" then None
    else
      var rest := Find(s[1..], pattern);
      if rest.None? then None else Some(1 + rest.value)
  }

  lemma {:induction false} FindIsFirst(s: string, pattern: string)
    ensures
      match Find(s, pattern)
      case Some(at) =>
        StartsWith(s[at..], pattern) && forall j :: 0 <= j < at ==> !StartsWith(s[j..], pattern)
      case None => forall j :: 0 <= j <= |s| ==> !StartsWith(s[j..], pattern)
    decreases |s|
  {
    assert s[0..] == s;
    if !StartsWith(s, pattern) && s != "" {
      FindIsFirst(s[1..], pattern);
      assert forall j :: 1 <= j <= |s| ==> s[j..] == s[1..][j - 1..];
    }
  }
}
