// The database URL built from five fields, and read back.

module DbUrl {
  import opened Chars

  type Byte = b: int | 0 <= b < 256

  // ----- UTF-8 -----

  // One character's bytes, as section 3 of RFC 3629 lays them out.
  function Utf8Of(c: char): (bytes: seq<Byte>)
    ensures 1 <= |bytes| <= 4
  {
    var n := c as int;
    if n < 0x80 then [n]
    else if n < 0x800 then [0xC0 + n / 64, 0x80 + n % 64]
    else if n < 0x10000 then [0xE0 + n / 4096, 0x80 + n / 64 % 64, 0x80 + n % 64]
    else [0xF0 + n / 262144, 0x80 + n / 4096 % 64, 0x80 + n / 64 % 64, 0x80 + n % 64]
  }

  function Utf8(text: string): seq<Byte> {
    if text == "" then [] else Utf8Of(text[0]) + Utf8(text[1..])
  }

  function WidthOf(lead: Byte): nat {
    if lead < 0x80 then 1 else if lead < 0xE0 then 2 else if lead < 0xF0 then 3 else 4
  }

  function CodeOf(bytes: seq<Byte>): int
    requires 1 <= |bytes| <= 4
  {
    var lead: int := bytes[0];
    if |bytes| == 1 then lead
    else if |bytes| == 2 then (lead - 0xC0) * 64 + Low(bytes[1])
    else if |bytes| == 3 then (lead - 0xE0) * 4096 + Low(bytes[1]) * 64 + Low(bytes[2])
    else (lead - 0xF0) * 262144 + Low(bytes[1]) * 4096 + Low(bytes[2]) * 64 + Low(bytes[3])
  }

  // What a continuation byte carries.
  function Low(b: Byte): int {
    b as int - 0x80
  }

  predicate IsScalar(n: int) {
    0 <= n < 0xD800 || 0xE000 <= n < 0x110000
  }

  function FromUtf8(bytes: seq<Byte>): Option<string>
    decreases |bytes|
  {
    if bytes == [] then Some("")
    else
      var width := WidthOf(bytes[0]);
      if |bytes| < width || !IsScalar(CodeOf(bytes[..width])) then None
      else
        var rest := FromUtf8(bytes[width..]);
        if rest.None? then None else Some([CodeOf(bytes[..width]) as char] + rest.value)
  }

  lemma {:induction false} OneCharacter(c: char)
    ensures WidthOf(Utf8Of(c)[0]) == |Utf8Of(c)|
    ensures CodeOf(Utf8Of(c)) == c as int && IsScalar(c as int)
  {
    var n := c as int;
    Sextets(n);
    Sextets(n / 64);
    Sextets(n / 4096);
  }

  lemma {:induction false} Sextets(n: nat)
    ensures n == n / 64 * 64 + n % 64 && n / 64 / 64 == n / 4096 && n / 4096 / 64 == n / 262144
  {
  }

  lemma {:induction false} Utf8RoundTrip(text: string)
    ensures FromUtf8(Utf8(text)) == Some(text)
  {
    if text != "" {
      var one, rest := Utf8Of(text[0]), Utf8(text[1..]);
      Utf8RoundTrip(text[1..]);
      OneCharacter(text[0]);
      assert (one + rest)[..|one|] == one && (one + rest)[|one|..] == rest;
      assert (one + rest)[0] == one[0];
      assert [text[0]] + text[1..] == text;
    }
  }

  // ----- percent-encoding -----

  // The bytes that stand for themselves everywhere in a URL.
  predicate IsUnreserved(b: Byte) {
    || 'A' as int <= b <= 'Z' as int
    || 'a' as int <= b <= 'z' as int
    || '0' as int <= b <= '9' as int
    || b as char in "_.-~"
  }

  const HEX := "0123456789ABCDEF"

  function Percent(b: Byte): string {
    if IsUnreserved(b) then [b as char] else ['%', HEX[b / 16], HEX[b % 16]]
  }

  function PercentAll(bytes: seq<Byte>): string {
    if bytes == [] then "" else Percent(bytes[0]) + PercentAll(bytes[1..])
  }

  function Enc(part: string): string {
    PercentAll(Utf8(part))
  }

  function HexValue(c: char): Option<int> {
    if '0' <= c <= '9' then Some(c as int - '0' as int)
    else if 'A' <= c <= 'F' then Some(c as int - 'A' as int + 10)
    else if 'a' <= c <= 'f' then Some(c as int - 'a' as int + 10)
    else None
  }

  // Percent-decoding, as section 2.1 of RFC 3986 reads it; an escape that is
  // none, or a character outside ASCII, is refused.
  function PercentDecode(text: string): Option<seq<Byte>>
    decreases |text|
  {
    if text == "" then Some([])
    else if text[0] == '%' then
      if |text| < 3 || HexValue(text[1]).None? || HexValue(text[2]).None? then None
      else
        var rest := PercentDecode(text[3..]);
        if rest.None? then None else Some([HexValue(text[1]).value * 16 + HexValue(text[2]).value] + rest.value)
    else if text[0] as int >= 0x80 then None
    else
      var rest := PercentDecode(text[1..]);
      if rest.None? then None else Some([text[0] as int] + rest.value)
  }

  function Dec(text: string): Option<string> {
    var bytes := PercentDecode(text);
    if bytes.None? then None else FromUtf8(bytes.value)
  }

  lemma {:induction false} PercentRoundTrip(bytes: seq<Byte>)
    ensures PercentDecode(PercentAll(bytes)) == Some(bytes)
  {
    if bytes != [] {
      OnePercent(bytes[0], PercentAll(bytes[1..]));
      hide Percent, PercentDecode;
      PercentRoundTrip(bytes[1..]);
      assert [bytes[0]] + bytes[1..] == bytes;
    }
  }

  lemma {:induction false} OnePercent(b: Byte, rest: string)
    ensures
      PercentDecode(Percent(b) + rest) ==
      match PercentDecode(rest)
      case Some(bytes) => Some([b] + bytes)
      case None => None
  {
    hide HexValue;
    var text := Percent(b) + rest;
    assert text[|Percent(b)|..] == rest;
    if !IsUnreserved(b) {
      HexDigits(b / 16);
      HexDigits(b % 16);
    }
  }

  lemma {:induction false} HexDigits(n: nat)
    requires n < 16
    ensures HexValue(HEX[n]) == Some(n)
  {
  }

  lemma {:induction false} EncRoundTrip(part: string)
    ensures Dec(Enc(part)) == Some(part)
  {
    PercentRoundTrip(Utf8(part));
    Utf8RoundTrip(part);
  }

  predicate IsDelimiter(c: char) {
    c == '@' || c == ':' || c == '/'
  }

  lemma {:induction false} OneHasNoDelimiter(b: Byte)
    ensures forall c <- Percent(b) :: !IsDelimiter(c)
  {
    if !IsUnreserved(b) {
      HexDigits(b / 16);
      HexDigits(b % 16);
    }
  }

  lemma {:induction false} PercentHasNoDelimiter(bytes: seq<Byte>)
    ensures forall c <- PercentAll(bytes) :: !IsDelimiter(c)
  {
    hide Percent, IsDelimiter;
    if bytes != [] {
      PercentHasNoDelimiter(bytes[1..]);
      OneHasNoDelimiter(bytes[0]);
    }
  }

  // ----- the URL -----

  function UserInfo(user: string, password: string): string {
    if user == "" && password == "" then ""
    else Enc(user) + (if password != "" then ":" + Enc(password) else "") + "@"
  }

  const SCHEME := "postgresql://"

  datatype Fields = Fields(user: string, password: string, host: string, port: string, name: string)

  function AppDbUrl(fields: Fields): string {
    SCHEME + UserInfo(fields.user, fields.password)
    + Enc(fields.host) + ":" + Enc(fields.port) + "/" + Enc(fields.name)
  }

  // The text around the first `sep`: all of it and nothing when there is none.
  function Partition(text: string, sep: string): (string, bool, string) {
    var at := Find(text, sep);
    if at.None? then (text, false, "")
    else (text[..at.value], true, text[at.value + |sep|..])
  }

  function CountAt(text: string): nat {
    if text == "" then 0 else (if text[0] == '@' then 1 else 0) + CountAt(text[1..])
  }

  predicate IsAmbiguousUrl(url: string) {
    var parts := Partition(url, "://");
    parts.1 && CountAt(parts.2) > 1
  }

  // A URL read as its delimiters cut it: the authority up to the first `/`,
  // the user information up to its `@`, each pair at its first `:`.
  function Read(url: string): Option<Fields> {
    var (_, isUrl, rest) := Partition(url, "://");
    var (authority, _, name) := Partition(rest, "/");
    var (before, hasUser, after) := Partition(authority, "@");
    var (user, _, password) := Partition(if hasUser then before else "", ":");
    var (host, _, port) := Partition(if hasUser then after else authority, ":");
    if !isUrl || Dec(user).None? || Dec(password).None? || Dec(host).None? || Dec(port).None? || Dec(name).None?
    then None
    else Some(Fields(Dec(user).value, Dec(password).value, Dec(host).value, Dec(port).value, Dec(name).value))
  }

  lemma {:induction false} PartitionAt(before: string, sep: char, after: string)
    requires sep !in before
    ensures Partition(before + [sep] + after, [sep]) == (before, true, after)
  {
    FindPast(before, sep, after);
    var text := before + [sep] + after;
    assert text[..|before|] == before && text[|before| + 1..] == after;
  }

  lemma {:induction false} FindPast(before: string, sep: char, after: string)
    requires sep !in before
    ensures Find(before + [sep] + after, [sep]) == Some(|before|)
    decreases |before|
  {
    var text := before + [sep] + after;
    if before == "" {
      assert text[..1] == [sep];
    } else {
      assert text[1..] == before[1..] + [sep] + after;
      FindPast(before[1..], sep, after);
      assert text[0] != sep;
    }
  }

  lemma {:induction false} PartitionNowhere(text: string, sep: char)
    requires sep !in text
    ensures Partition(text, [sep]) == (text, false, "")
  {
    if text != "" {
      PartitionNowhere(text[1..], sep);
      assert text[0] != sep;
    }
  }

  lemma {:induction false} SchemeCut(rest: string)
    ensures Partition(SCHEME + rest, "://") == ("postgresql", true, rest)
  {
    var text := SCHEME + rest;
    assert text[..10] == "postgresql" && text[10..] == "://" + rest && text[13..] == rest;
    FindScheme(text, 0);
  }

  lemma {:induction false} FindScheme(text: string, from: nat)
    requires |text| >= 13 && text[..13] == SCHEME && from <= 10
    ensures Find(text[from..], "://") == Some(10 - from)
    decreases 10 - from
  {
    var rest := text[from..];
    assert rest[0] == text[..13][from];
    if from == 10 {
      assert rest[..3] == text[..13][10..];
    } else {
      FindScheme(text, from + 1);
      assert rest[1..] == text[from + 1..];
    }
  }

  lemma {:induction false} CountNone(text: string)
    requires '@' !in text
    ensures CountAt(text) == 0
  {
    if text != "" {
      CountNone(text[1..]);
      assert text[0] != '@';
    }
  }

  lemma {:induction false} CountBoth(first: string, second: string)
    ensures CountAt(first + second) == CountAt(first) + CountAt(second)
    decreases |first|
  {
    if first == "" {
      assert first + second == second;
    } else {
      assert (first + second)[1..] == first[1..] + second;
      CountBoth(first[1..], second);
    }
  }

  // ----- what an ambiguous URL is -----

  predicate SchemeEndsAt(url: string, at: nat) {
    at + 3 <= |url| && url[at] == ':' && url[at + 1] == '/' && url[at + 2] == '/'
  }

  // Two `@` behind the first `://`.
  ghost predicate HasTwoAts(url: string, at: nat) {
    && SchemeEndsAt(url, at) && (forall earlier: nat :: earlier < at ==> !SchemeEndsAt(url, earlier))
    && exists i, j :: at + 3 <= i < j < |url| && url[i] == '@' && url[j] == '@'
  }

  lemma {:induction false} CountsOne(text: string)
    ensures CountAt(text) > 0 <==> exists i :: 0 <= i < |text| && text[i] == '@'
  {
    if text != "" {
      CountsOne(text[1..]);
      assert forall i :: 1 <= i < |text| ==> text[1..][i - 1] == text[i];
      assert forall i :: 0 <= i < |text| - 1 ==> text[1..][i] == text[i + 1];
    }
  }

  lemma {:induction false} CountsTwo(text: string)
    ensures CountAt(text) > 1 <==> exists i, j :: 0 <= i < j < |text| && text[i] == '@' && text[j] == '@'
  {
    if text != "" {
      CountsOne(text[1..]);
      CountsTwo(text[1..]);
      assert forall i :: 1 <= i < |text| ==> text[1..][i - 1] == text[i];
      assert forall i :: 0 <= i < |text| - 1 ==> text[1..][i] == text[i + 1];
    }
  }

  lemma {:induction false} SchemeStands(url: string, at: nat)
    requires at <= |url|
    ensures SchemeEndsAt(url, at) <==> StartsWith(url[at..], "://")
  {
    var rest := url[at..];
    assert |rest| >= 3 ==> rest[0] == url[at] && rest[1] == url[at + 1] && rest[2] == url[at + 2];
    if at + 3 <= |url| {
      assert rest[..3] == [rest[0], rest[1], rest[2]];
    }
  }

  lemma {:induction false} TailAt(text: string, from: nat)
    requires from <= |text|
    ensures
      (exists i, j :: 0 <= i < j < |text[from..]| && text[from..][i] == '@' && text[from..][j] == '@') <==>
      exists i, j :: from <= i < j < |text| && text[i] == '@' && text[j] == '@'
  {
    var rest := text[from..];
    assert forall i :: from <= i < |text| ==> text[i] == rest[i - from];
    assert forall i :: 0 <= i < |rest| ==> rest[i] == text[from + i];
  }

  // A URL is ambiguous exactly when two `@` stand behind its first `://`.
  lemma {:induction false} AmbiguousIsTwoAts(url: string)
    ensures IsAmbiguousUrl(url) <==> exists at: nat :: HasTwoAts(url, at)
  {
    FindIsFirst(url, "://");
    forall at: nat | at <= |url| ensures SchemeEndsAt(url, at) <==> StartsWith(url[at..], "://") {
      SchemeStands(url, at);
    }
    hide SchemeEndsAt, StartsWith, Find;
    var found := Find(url, "://");
    if found.Some? {
      CountsTwo(url[found.value + 3..]);
      TailAt(url, found.value + 3);
      assert HasTwoAts(url, found.value) <==> IsAmbiguousUrl(url);
    }
  }

  lemma {:induction false} EncIsPlain(part: string)
    ensures '@' !in Enc(part) && ':' !in Enc(part) && '/' !in Enc(part)
    ensures Dec(Enc(part)) == Some(part)
  {
    PercentHasNoDelimiter(Utf8(part));
    EncRoundTrip(part);
    assert IsDelimiter('@') && IsDelimiter(':') && IsDelimiter('/');
    hide IsDelimiter, PercentAll, Utf8, Dec;
  }

  // The user information, when there is any, without its `@`.
  function UserPart(user: string, password: string): string {
    Enc(user) + (if password != "" then ":" + Enc(password) else "")
  }

  lemma {:induction false} UserPartReads(user: string, password: string)
    ensures '@' !in UserPart(user, password) && '/' !in UserPart(user, password)
    ensures
      var (first, _, second) := Partition(UserPart(user, password), ":");
      Dec(first) == Some(user) && Dec(second) == Some(password)
  {
    EncIsPlain(user);
    EncIsPlain(password);
    hide Enc, Dec, Partition;
    if password == "" {
      assert UserPart(user, password) == Enc(user);
      PartitionNowhere(Enc(user), ':');
      NothingDecodes();
    } else {
      assert UserPart(user, password) == Enc(user) + ":" + Enc(password);
      PartitionAt(Enc(user), ':', Enc(password));
    }
  }

  lemma {:induction false} NothingDecodes()
    ensures Dec("") == Some("")
  {
  }

  lemma {:induction false} Glue(
    a: string, b: string, c: string, d: string, e: string, f: string, g: string)
    ensures a + b + c + d + e + f + g == a + (b + (c + d + e) + f + g)
  {
  }

  // Whatever the five fields hold, the URL reads back as exactly them.
  lemma {:induction false} UrlRoundTrip(fields: Fields)
    ensures Read(AppDbUrl(fields)) == Some(fields)
  {
    var hostPort := Enc(fields.host) + ":" + Enc(fields.port);
    var userInfo, name := UserInfo(fields.user, fields.password), Enc(fields.name);
    EncIsPlain(fields.host);
    EncIsPlain(fields.port);
    EncIsPlain(fields.name);
    UserPartReads(fields.user, fields.password);
    NothingDecodes();
    var userPart := UserPart(fields.user, fields.password);
    assert userInfo == "" || userInfo == userPart + "@";
    assert userInfo == "" ==> fields.user == "" && fields.password == "";
    hide Enc, Dec, Partition, UserInfo, UserPart;
    var rest := userInfo + hostPort + "/" + name;
    Glue(SCHEME, userInfo, Enc(fields.host), ":", Enc(fields.port), "/", name);
    assert AppDbUrl(fields) == SCHEME + rest;
    SchemeCut(rest);
    PartitionAt(userInfo + hostPort, '/', name);
    PartitionAt(Enc(fields.host), ':', Enc(fields.port));
    if userInfo == "" {
      assert userInfo + hostPort == hostPort;
      PartitionNowhere(hostPort, '@');
      PartitionNowhere("", ':');
    } else {
      assert userInfo + hostPort == userPart + "@" + hostPort;
      PartitionAt(userPart, '@', hostPort);
    }
  }

  predicate IsPlain(part: string) {
    forall c <- part ::
      'A' <= c <= 'Z' || 'a' <= c <= 'z' || '0' <= c <= '9' || c == '_' || c == '.' || c == '-' || c == '~'
  }

  lemma {:induction false} PlainStands(part: string)
    requires IsPlain(part)
    ensures Enc(part) == part
  {
    if part != "" {
      var b := part[0] as int;
      assert part[0] in part && Utf8Of(part[0]) == [b] && Percent(b) == [part[0]];
      assert Utf8(part) == [b] + Utf8(part[1..]);
      assert IsPlain(part[1..]) by {
        assert forall c <- part[1..] :: c in part;
      }
      PlainStands(part[1..]);
      assert part == [part[0]] + part[1..];
    }
  }

  // Fields of letters, digits and `_.-~` stand in the URL as they are.
  lemma {:induction false} PlainUrl(user: string, password: string, host: string, port: string, name: string)
    requires IsPlain(user) && IsPlain(password) && IsPlain(host) && IsPlain(port) && IsPlain(name)
    ensures
      user != "" && password != "" ==>
      AppDbUrl(Fields(user, password, host, port, name)) ==
      "postgresql://" + user + ":" + password + "@" + host + ":" + port + "/" + name
    ensures
      user != "" ==>
      AppDbUrl(Fields(user, "", host, port, name)) == "postgresql://" + user + "@" + host + ":" + port + "/" + name
    ensures
      AppDbUrl(Fields("", "", host, port, name)) == "postgresql://" + host + ":" + port + "/" + name
  {
    PlainStands(host);
    PlainStands(port);
    PlainStands(name);
    PlainUserInfo(user, password);
    assert IsPlain("");
    PlainUserInfo(user, "");
    assert SCHEME + UserInfo("", "") == SCHEME;
    hide Enc, IsPlain, UserInfo;
  }

  lemma {:induction false} PlainUserInfo(user: string, password: string)
    requires IsPlain(user) && IsPlain(password)
    ensures user != "" && password != "" ==> SCHEME + UserInfo(user, password) == SCHEME + user + ":" + password + "@"
    ensures user != "" && password == "" ==> SCHEME + UserInfo(user, password) == SCHEME + user + "@"
  {
    PlainStands(user);
    PlainStands(password);
    hide Enc, IsPlain;
    assert user + "" == user;
    Ungrouped(SCHEME, user, ":", password, "@");
    Pair(SCHEME, user, "@");
  }

  lemma {:induction false} Pair(a: string, b: string, c: string)
    ensures a + (b + c) == a + b + c
  {
  }

  lemma {:induction false} Ungrouped(a: string, b: string, c: string, d: string, e: string)
    ensures a + (b + (c + d) + e) == a + b + c + d + e
  {
  }

  // ... and no door refuses it for a second `@`.
  lemma {:induction false} UrlIsNeverAmbiguous(fields: Fields)
    ensures !IsAmbiguousUrl(AppDbUrl(fields))
  {
    var hostPort := Enc(fields.host) + ":" + Enc(fields.port);
    var userInfo, name := UserInfo(fields.user, fields.password), Enc(fields.name);
    EncIsPlain(fields.host);
    EncIsPlain(fields.port);
    EncIsPlain(fields.name);
    UserPartReads(fields.user, fields.password);
    var userPart := UserPart(fields.user, fields.password);
    assert userInfo == "" || userInfo == userPart + "@";
    assert '@' !in hostPort && '@' !in name;
    hide Enc, Dec, Partition, UserInfo, UserPart;
    var tail := hostPort + "/" + name;
    Glue(SCHEME, userInfo, Enc(fields.host), ":", Enc(fields.port), "/", name);
    Regroup(userInfo, hostPort, "/", name);
    SchemeCut(userInfo + tail);
    TailIsPlain(hostPort, name);
    CountBoth(userInfo, tail);
    CountNone(tail);
    if userInfo != "" {
      CountBoth(userPart, "@");
      CountNone(userPart);
    }
  }

  lemma {:induction false} Regroup(a: string, b: string, c: string, d: string)
    ensures a + b + c + d == a + (b + c + d)
  {
  }

  lemma {:induction false} TailIsPlain(hostPort: string, name: string)
    requires '@' !in hostPort && '@' !in name
    ensures '@' !in hostPort + "/" + name
  {
  }
}
