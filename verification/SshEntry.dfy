/** One managed host entry: its rendered lines, and reading them back. */
module SshEntry {
  import opened Text

  datatype Entry = Entry(alias: string, hostName: string, port: int, user: string, identityFile: string)

  const LINE_CHARS: set<char> := {' ', '\t', '\r', '\n'}

  /** The check the program makes on aliases, host names and users. */
  predicate ValidToken(v: string) {
    var t := TrimSpace(v);
    t != "" && forall i :: 0 <= i < |t| ==> t[i] !in LINE_CHARS
  }

  /** It stays on its line: no line break, and no carriage return at the end,
      where line endings are trimmed. */
  predicate OneLine(v: string) {
    '\n' !in v && (v != "" ==> v[|v| - 1] != '\r')
  }

  /** Exactly which texts pass the check: spaces around one unbroken word. */
  lemma ValidTokenMeaning(v: string)
    ensures ValidToken(v) <==>
              exists a, t, b :: Framed(v, a, t, b) && t != "" && forall i :: 0 <= i < |t| ==> t[i] !in LINE_CHARS
  {
    TrimSpaceMeaning(v);
    hide TrimSpace, Framed;
    if ValidToken(v) {
      var a, b :| Framed(v, a, TrimSpace(v), b);
      assert Framed(v, a, TrimSpace(v), b);
    }
  }

  // ----- decimal numbers -----

  function Decimal(n: nat): string {
    if n < 10 then ['0' + n as char] else Decimal(n / 10) + ['0' + (n % 10) as char]
  }

  function ReadDecimal(s: string): Option<nat> {
    if s == "" then None
    else
      var c := s[|s| - 1];
      if !('0' <= c <= '9') then None
      else if |s| == 1 then Some((c - '0') as nat)
      else match ReadDecimal(s[..|s| - 1]) case None => None case Some(n) => Some(n * 10 + (c - '0') as nat)
  }

  lemma {:induction false} DecimalRoundTrip(n: nat)
    ensures ReadDecimal(Decimal(n)) == Some(n)
    ensures Decimal(n) != "" && forall i :: 0 <= i < |Decimal(n)| ==> '0' <= Decimal(n)[i] <= '9'
  {
    if n >= 10 {
      DecimalRoundTrip(n / 10);
      var s := Decimal(n);
      assert s[..|s| - 1] == Decimal(n / 10);
      assert s[|s| - 1] == '0' + (n % 10) as char;
    }
  }

  // ----- quoting -----

  predicate NeedsQuotes(s: string) {
    exists i :: 0 <= i < |s| && s[i] in {' ', '\t', '"', '\\'}
  }

  function ConfigValue(v: string): string {
    if !NeedsQuotes(v) then v
    else "\"" + ReplaceAll(ReplaceAll(v, '\\', "\\\\"), '"', "\\\"") + "\""
  }

  /** Reads the inside of a quoted value up to its closing quote. */
  function ReadQuoted(s: string): Option<string> {
    if s == "" then None
    else if s[0] == '"' then (if |s| == 1 then Some("") else None)
    else if s[0] == '\\' then
      if |s| == 1 then None
      else match ReadQuoted(s[2..]) case None => None case Some(rest) => Some([s[1]] + rest)
    else match ReadQuoted(s[1..]) case None => None case Some(rest) => Some([s[0]] + rest)
  }

  function ReadValue(v: string): Option<string> {
    if v != "" && v[0] == '"' then ReadQuoted(v[1..]) else Some(v)
  }

  function EscapeOne(c: char): string {
    if c == '\\' then "\\\\" else if c == '"' then "\\\"" else [c]
  }

  /** The two passes escape character by character. */
  lemma EscapeStep(s: string)
    requires s != ""
    ensures ReplaceAll(ReplaceAll(s, '\\', "\\\\"), '"', "\\\"") ==
              EscapeOne(s[0]) + ReplaceAll(ReplaceAll(s[1..], '\\', "\\\\"), '"', "\\\"")
  {
    var head := if s[0] == '\\' then "\\\\" else [s[0]];
    ReplaceConcat(head, ReplaceAll(s[1..], '\\', "\\\\"), '"', "\\\"");
    assert ReplaceAll(s, '\\', "\\\\") == head + ReplaceAll(s[1..], '\\', "\\\\");
    assert ReplaceAll("", '"', "\\\"") == "";
    if s[0] == '\\' {
      assert "\\\\"[1..] == "\\" && "\\"[1..] == "";
      assert ReplaceAll("\\", '"', "\\\"") == "\\";
      assert ReplaceAll("\\\\", '"', "\\\"") == "\\\\";
    } else {
      assert [s[0]][1..] == "";
    }
  }

  lemma {:induction false} QuotedRoundTrip(s: string)
    ensures ReadQuoted(ReplaceAll(ReplaceAll(s, '\\', "\\\\"), '"', "\\\"") + "\"") == Some(s)
  {
    var e := ReplaceAll(ReplaceAll(s, '\\', "\\\\"), '"', "\\\"") + "\"";
    if s == "" {
      assert e == "\"";
    } else {
      QuotedRoundTrip(s[1..]);
      EscapeStep(s);
      var rest := ReplaceAll(ReplaceAll(s[1..], '\\', "\\\\"), '"', "\\\"") + "\"";
      assert e == EscapeOne(s[0]) + rest;
      if s[0] == '\\' || s[0] == '"' {
        assert e[2..] == rest;
      } else {
        assert e[1..] == rest;
      }
      assert [s[0]] + s[1..] == s;
    }
  }

  lemma ValueRoundTrip(v: string)
    ensures ReadValue(ConfigValue(v)) == Some(v)
  {
    if NeedsQuotes(v) {
      QuotedRoundTrip(v);
      var inside := ReplaceAll(ReplaceAll(v, '\\', "\\\\"), '"', "\\\"") + "\"";
      assert ConfigValue(v) == "\"" + inside;
      assert ConfigValue(v)[1..] == inside;
    }
  }

  lemma {:induction false} ReplaceNoBreak(s: string, c: char, r: string)
    requires '\n' !in s && '\n' !in r
    ensures '\n' !in ReplaceAll(s, c, r)
  {
    if s != "" {
      assert s[0] in s && forall x :: x in s[1..] ==> x in s;
      ReplaceNoBreak(s[1..], c, r);
    }
  }

  lemma ValueNoBreak(v: string)
    requires '\n' !in v
    ensures '\n' !in ConfigValue(v)
  {
    ReplaceNoBreak(v, '\\', "\\\\");
    ReplaceNoBreak(ReplaceAll(v, '\\', "\\\\"), '"', "\\\"");
  }

  // ----- the lines of an entry -----

  /** The lines between the two markers. */
  function Body(e: Entry): seq<string>
    requires e.port >= 0
  {
    ["Host " + e.alias, "    HostName " + e.hostName, "    Port " + Decimal(e.port), "    User " + e.user]
    + (if e.identityFile == "" then []
        else ["    IdentityFile " + ConfigValue(e.identityFile), "    IdentitiesOnly yes"])
    + ["    StrictHostKeyChecking accept-new"]
  }

  /** What follows a key on a line. */
  function After(line: string, key: string): Option<string> {
    if HasPrefix(line, key) then Some(line[|key|..]) else None
  }

  function ReadBody(body: seq<string>): Option<Entry> {
    if |body| != 5 && |body| != 7 then None
    else if body[|body| - 1] != "    StrictHostKeyChecking accept-new" then None
    else if |body| == 7 && body[5] != "    IdentitiesOnly yes" then None
    else
      match (After(body[0], "Host "), After(body[1], "    HostName "), After(body[2], "    Port "),
          After(body[3], "    User "), if |body| == 5 then Some("") else ReadFile(body[4]))
      case (Some(alias), Some(hostName), Some(port), Some(user), Some(file)) =>
        (match ReadDecimal(port) case None => None case Some(n) => Some(Entry(alias, hostName, n, user, file)))
      case _ => None
  }

  function ReadFile(line: string): Option<string> {
    match After(line, "    IdentityFile ") case None => None case Some(value) => ReadValue(value)
  }

  lemma AfterKey(key: string, value: string)
    ensures After(key + value, key) == Some(value)
  {
    assert (key + value)[..|key|] == key && (key + value)[|key|..] == value;
  }

  /** A rendered entry reads back as itself. */
  lemma BodyRoundTrip(e: Entry)
    requires e.port >= 0
    ensures ReadBody(Body(e)) == Some(e)
  {
    AfterKey("Host ", e.alias);
    AfterKey("    HostName ", e.hostName);
    AfterKey("    Port ", Decimal(e.port));
    AfterKey("    User ", e.user);
    AfterKey("    IdentityFile ", ConfigValue(e.identityFile));
    DecimalRoundTrip(e.port);
    ValueRoundTrip(e.identityFile);
    hide Decimal, ReadDecimal, ConfigValue, ReadValue, After;
  }

  /** A line that is not a marker: it starts as a key does, and does not break. */
  predicate KeyLine(line: string) {
    '\n' !in line && line != "" && line[0] in {'H', ' '}
  }

  lemma KeyLineOf(key: string, value: string)
    requires KeyLine(key) && '\n' !in value
    ensures KeyLine(key + value)
  {
  }

  lemma KeyLines()
    ensures KeyLine("Host ") && KeyLine("    HostName ") && KeyLine("    Port ") && KeyLine("    User ")
  {
  }

  lemma OptionLines()
    ensures KeyLine("    IdentityFile ") && KeyLine("    IdentitiesOnly yes")
  {
  }

  lemma CheckingLine()
    ensures KeyLine("    StrictHostKeyChecking accept-new")
  {
  }

  lemma BodyNoBreak(e: Entry)
    requires e.port >= 0 && OneLine(e.alias) && '\n' !in e.hostName && '\n' !in e.user && '\n' !in e.identityFile
    ensures forall i :: 0 <= i < |Body(e)| ==> KeyLine(Body(e)[i])
  {
    hide KeyLine, Decimal, ConfigValue;
    DecimalRoundTrip(e.port);
    ValueNoBreak(e.identityFile);
    KeyLines();
    OptionLines();
    CheckingLine();
    KeyLineOf("Host ", e.alias);
    KeyLineOf("    HostName ", e.hostName);
    KeyLineOf("    Port ", Decimal(e.port));
    KeyLineOf("    User ", e.user);
    KeyLineOf("    IdentityFile ", ConfigValue(e.identityFile));
  }
}
