/** Quoting words for a POSIX shell, and the part of the shell's reading of
    commands that takes them back: escape character, single quotes, blanks and
    line breaks (sections 2.2.1, 2.2.2 and 2.3 of the POSIX Shell Command
    Language). */
module Shell {
  import opened Text
  import opened StoreModel

  function Quote(v: string): string {
    "'" + ReplaceAll(v, '\'', "'\\''") + "'"
  }

  // ----- reading commands -----

  /** Characters that are not read in this fragment outside quotes. */
  const SPECIAL: set<char> := {'|', '&', ';', '<', '>', '(', ')', '$', '`', '"', '*', '?', '[', '#', '~'}

  datatype Mode = Plain | Quoted | Escaped | Lost

  /** What has been read: whole commands, the words of the present command and
      its unfinished word. */
  datatype Reader = Reader(done: seq<seq<string>>, words: seq<string>, word: Option<string>, mode: Mode)

  const START := Reader([], [], None, Plain)

  function Extend(word: Option<string>, more: string): Option<string> {
    Some((if word.Some? then word.value else "") + more)
  }

  function EndWord(r: Reader): Reader {
    if r.word.Some? then r.(words := r.words + [r.word.value], word := None) else r
  }

  function EndCommand(r: Reader): Reader {
    var e := EndWord(r);
    if e.words == [] then e else e.(done := e.done + [e.words], words := [])
  }

  function Step(r: Reader, c: char): Reader {
    match r.mode
    case Lost => r
    case Quoted => if c == '\'' then r.(mode := Plain) else r.(word := Extend(r.word, [c]))
    case Escaped => if c == '\n' then r.(mode := Plain) else r.(word := Extend(r.word, [c]), mode := Plain)
    case Plain =>
      if c == '\'' then r.(word := Extend(r.word, ""), mode := Quoted)
      else if c == '\\' then r.(mode := Escaped)
      else if c == '\n' then EndCommand(r)
      else if c == ' ' || c == '\t' then EndWord(r)
      else if c in SPECIAL then r.(mode := Lost)
      else r.(word := Extend(r.word, [c]))
  }

  function Read(s: string, r: Reader): Reader {
    if s == "" then r else Read(s[1..], Step(r, s[0]))
  }

  /** The commands of a text as lists of words; None for an unfinished quote or
      a character this fragment does not cover. */
  function Commands(s: string): Option<seq<seq<string>>> {
    var r := Read(s, START);
    if r.mode == Plain then Some(EndCommand(r).done) else None
  }

  lemma {:induction false} ReadConcat(a: string, b: string, r: Reader)
    ensures Read(a + b, r) == Read(b, Read(a, r))
  {
    if a == "" {
      assert a + b == b;
    } else {
      assert (a + b)[1..] == a[1..] + b;
      ReadConcat(a[1..], b, Step(r, a[0]));
    }
  }

  lemma ReadOne(c: char, r: Reader)
    ensures Read([c], r) == Step(r, c)
  {
    assert [c][1..] == "";
  }

  lemma ExtendTwice(word: Option<string>, a: string, b: string)
    ensures Extend(Extend(word, a), b) == Extend(word, a + b)
    ensures word.Some? ==> Extend(word, "") == word
  {
    var w := if word.Some? then word.value else "";
    assert w + a + b == w + (a + b) && w + "" == w;
  }

  // ----- quoted words -----

  /** A quote inside the value: out of the quotes, escaped, and in again. */
  lemma EscapedQuote(r: Reader)
    requires r.mode == Quoted && r.word.Some?
    ensures Read("'\\''", r) == r.(word := Extend(r.word, "'"))
  {
    ReadOne('\'', r);
    ReadConcat("'", "\\''", r);
    var r1 := r.(mode := Plain);
    ReadOne('\\', r1);
    ReadConcat("\\", "''", r1);
    var r2 := r.(mode := Escaped);
    ReadOne('\'', r2);
    ReadConcat("'", "'", r2);
    var r3 := r.(word := Extend(r.word, "'"), mode := Plain);
    ReadOne('\'', r3);
    ExtendTwice(r3.word, "", "");
    assert "'\\''" == "'" + "\\''" && "\\''" == "\\" + "''" && "''" == "'" + "'";
  }

  lemma {:induction false} QuotedWord(v: string, r: Reader)
    requires r.mode == Quoted && r.word.Some?
    ensures Read(ReplaceAll(v, '\'', "'\\''"), r) == r.(word := Extend(r.word, v))
  {
    if v == "" {
      ExtendTwice(r.word, "", "");
    } else {
      var head, tail := if v[0] == '\'' then "'\\''" else [v[0]], ReplaceAll(v[1..], '\'', "'\\''");
      assert ReplaceAll(v, '\'', "'\\''") == head + tail;
      ReadConcat(head, tail, r);
      var next := r.(word := Extend(r.word, [v[0]]));
      if v[0] == '\'' {
        EscapedQuote(r);
        assert [v[0]] == "'";
      } else {
        ReadOne(v[0], r);
      }
      QuotedWord(v[1..], next);
      ExtendTwice(r.word, [v[0]], v[1..]);
      assert [v[0]] + v[1..] == v;
    }
  }

  /** A quoted value is read as the value, glued to what stands before it. */
  lemma QuoteWord(v: string, r: Reader)
    requires r.mode == Plain
    ensures Read(Quote(v), r) == r.(word := Extend(r.word, v))
  {
    var body := ReplaceAll(v, '\'', "'\\''");
    var inside := r.(word := Extend(r.word, ""), mode := Quoted);
    ReadConcat("'" + body, "'", r);
    ReadConcat("'", body, r);
    ReadOne('\'', r);
    QuotedWord(v, inside);
    ExtendTwice(r.word, "", v);
    assert "" + v == v;
    ReadOne('\'', inside.(word := Extend(r.word, v)));
  }

  /** For every string, the quoted form is one word, equal to the string. */
  lemma QuoteRoundTrip(v: string)
    ensures Commands(Quote(v)) == Some([[v]])
  {
    QuoteWord(v, START);
    assert "" + v == v;
    assert START.words + [v] == [v] && START.done + [[v]] == [[v]];
  }

  // ----- the user-creation command -----

  const ROOT := "root"

  datatype Engine = Podman | Docker

  function EngineName(e: Engine): string {
    match e case Podman => "podman" case Docker => "docker"
  }

  /** A word that needs no quoting. */
  predicate Simple(w: string) {
    w != "" && forall i :: 0 <= i < |w| ==> w[i] !in {' ', '\t', '\n', '\'', '\\'} && w[i] !in SPECIAL
  }

  lemma {:induction false} SimpleWord(w: string, r: Reader)
    requires Simple(w) && r.mode == Plain
    ensures Read(w, r) == r.(word := Extend(r.word, w))
  {
    var next := r.(word := Extend(r.word, [w[0]]));
    assert Step(r, w[0]) == next;
    if |w| == 1 {
      assert w[1..] == "" && w == [w[0]];
    } else {
      SimpleWord(w[1..], next);
      ExtendTwice(r.word, [w[0]], w[1..]);
      assert [w[0]] + w[1..] == w;
    }
  }

  function Spaced(words: seq<string>): string {
    if words == [] then "" else words[0] + " " + Spaced(words[1..])
  }

  /** Between two words of a command. */
  predicate AtGap(r: Reader) {
    r.mode == Plain && r.word == None
  }

  lemma {:induction false} SpacedWords(words: seq<string>, r: Reader)
    requires AtGap(r) && forall i :: 0 <= i < |words| ==> Simple(words[i])
    ensures Read(Spaced(words), r) == r.(words := r.words + words)
  {
    if words == [] {
      assert r.words + words == r.words;
    } else {
      var w, rest := words[0], Spaced(words[1..]);
      var read, next := r.(word := Some(w)), r.(words := r.words + [w]);
      SimpleWord(w, r);
      assert "" + w == w;
      ReadConcat(w + " ", rest, r);
      ReadConcat(w, " ", r);
      ReadOne(' ', read);
      hide Step, Simple;
      SpacedWords(words[1..], next);
      assert r.words + words == r.words + [w] + words[1..];
    }
  }

  /** The command that runs a script as root inside a container. */
  function RootScriptCommand(engine: Engine, container: string, script: string): string {
    Spaced([EngineName(engine), "exec", "-u", ROOT, "-i", container, "/bin/sh", "-c"]) + Quote(script)
  }

  /** The words the container engine is started with. */
  function RootScriptWords(engine: Engine, container: string, script: string): seq<string> {
    [EngineName(engine), "exec", "-u", ROOT, "-i", container, "/bin/sh", "-c", script]
  }

  lemma SimpleEngines()
    ensures Simple("podman") && Simple("docker") && Simple("/bin/sh")
  {
  }

  lemma SimpleOptions()
    ensures Simple("exec") && Simple("-u") && Simple(ROOT) && Simple("-i") && Simple("-c")
  {
  }

  lemma SimpleHead(engine: Engine, container: string)
    requires Simple(container)
    ensures forall w :: w in [EngineName(engine), "exec", "-u", ROOT, "-i", container, "/bin/sh", "-c"] ==> Simple(w)
  {
    hide Simple;
    SimpleEngines();
    SimpleOptions();
  }

  lemma CommandWords(engine: Engine, container: string, script: string)
    requires Simple(container)
    ensures Commands(RootScriptCommand(engine, container, script)) == Some([RootScriptWords(engine, container, script)])
  {
    hide Simple, Read, Quote, Spaced, EngineName;
    SimpleHead(engine, container);
    var ws := [EngineName(engine), "exec", "-u", ROOT, "-i", container, "/bin/sh", "-c"];
    LastWord(ws, script);
    assert ws + [script] == RootScriptWords(engine, container, script);
  }

  /** Words without quotes, then a quoted one. */
  lemma LastWord(ws: seq<string>, last: string)
    requires forall w :: w in ws ==> Simple(w)
    ensures Commands(Spaced(ws) + Quote(last)) == Some([ws + [last]])
  {
    hide Simple, Read, Quote, Spaced;
    SpacedWords(ws, START);
    assert START.words + ws == ws;
    ReadConcat(Spaced(ws), Quote(last), START);
    QuoteWord(last, START.(words := ws));
    assert "" + last == last;
    assert START.done + [ws + [last]] == [ws + [last]];
  }

  /** The user-creation script up to the part that only uses the variable. */
  function ScriptHead(user: string): string {
    "set -eu\nuser=" + Quote(user) + "\n"
  }

  /** The variable and value of a command that is a lone assignment. */
  function Assigned(command: seq<string>): Option<(string, string)> {
    if |command| != 1 then None else AssignedWord(command[0])
  }

  function AssignedWord(w: string): Option<(string, string)> {
    if w == "" then None
    else if w[0] == '=' then Some(("", w[1..]))
    else match AssignedWord(w[1..]) case None => None case Some((name, value)) => Some(([w[0]] + name, value))
  }

  lemma {:induction false} AssignsName(name: string, value: string)
    requires '=' !in name
    ensures AssignedWord(name + "=" + value) == Some((name, value))
  {
    var w := name + "=" + value;
    if name == "" {
      assert w == "=" + value && w[1..] == value;
    } else {
      assert name[0] in name && forall c :: c in name[1..] ==> c in name;
      AssignsName(name[1..], value);
      assert w[1..] == name[1..] + "=" + value;
      assert [name[0]] + name[1..] == name;
    }
  }

  lemma LineEnds(line: string, words: seq<string>, r: Reader)
    requires r.words == [] && r.word == None && r.mode == Plain && words != []
    requires EndWord(Read(line, r)) == r.(words := words) && Read(line, r).mode == Plain
    ensures Read(line + "\n", r) == r.(done := r.done + [words])
  {
    ReadConcat(line, "\n", r);
    ReadOne('\n', Read(line, r));
  }

  lemma SetLine(r: Reader)
    requires r.words == [] && r.word == None && r.mode == Plain
    ensures Read("set -eu\n", r) == r.(done := r.done + [["set", "-eu"]])
  {
    assert Simple("set") && Simple("-eu");
    hide Simple;
    SpacedWords(["set"], r);
    assert Spaced(["set"][1..]) == "" && Spaced(["set"]) == "set ";
    var one := r.(words := ["set"]);
    assert r.words + ["set"] == ["set"];
    SimpleWord("-eu", one);
    assert "" + "-eu" == "-eu" && ["set"] + ["-eu"] == ["set", "-eu"];
    ReadConcat("set ", "-eu", r);
    assert "set " + "-eu" == "set -eu" && "set -eu" + "\n" == "set -eu\n";
    hide Read;
    LineEnds("set -eu", ["set", "-eu"], r);
  }

  lemma UserLine(user: string, r: Reader)
    requires r.words == [] && r.word == None && r.mode == Plain
    ensures Read("user=" + Quote(user) + "\n", r) == r.(done := r.done + [["user=" + user]])
  {
    assert Simple("user=");
    hide Simple, Quote, Read;
    SimpleWord("user=", r);
    assert "" + "user=" == "user=";
    QuoteWord(user, r.(word := Some("user=")));
    ReadConcat("user=", Quote(user), r);
    assert r.words + ["user=" + user] == ["user=" + user];
    LineEnds("user=" + Quote(user), ["user=" + user], r);
  }

  /** Whatever follows, the script starts with two commands: the options, and
      the assignment of exactly the user name. */
  lemma ScriptAssigns(user: string, tail: string)
    ensures Read(ScriptHead(user) + tail, START) == Read(tail, START.(done := [["set", "-eu"], ["user=" + user]]))
    ensures Assigned(["user=" + user]) == Some(("user", user))
  {
    hide Read, Quote;
    var options, assign := "set -eu\n", "user=" + Quote(user) + "\n";
    var one := START.(done := [["set", "-eu"]]);
    SetLine(START);
    assert START.done + [["set", "-eu"]] == [["set", "-eu"]];
    UserLine(user, one);
    assert one.done + [["user=" + user]] == [["set", "-eu"], ["user=" + user]];
    assert ScriptHead(user) == options + assign;
    ReadConcat(options, assign, START);
    ReadConcat(ScriptHead(user), tail, START);
    AssignsName("user", user);
    assert "user" + "=" + user == "user=" + user;
  }

  /** Through both layers: the shell started in the container is given exactly
      the script, and reading that script it first sets its options and then
      assigns exactly the user name, whatever characters it holds. */
  lemma UserSurvives(engine: Engine, container: string, user: string, tail: string)
    requires Simple(container)
    ensures var script := ScriptHead(user) + tail;
            && Commands(RootScriptCommand(engine, container, script)) ==
                Some([RootScriptWords(engine, container, script)])
            && Read(script, START) == Read(tail, START.(done := [["set", "-eu"], ["user=" + user]]))
            && Assigned(["user=" + user]) == Some(("user", user))
  {
    CommandWords(engine, container, ScriptHead(user) + tail);
    ScriptAssigns(user, tail);
  }

  // ----- one command per user -----

  function UniqueUsers(users: seq<string>): seq<string> {
    if users == [] then []
    else
      var rest, u := UniqueUsers(users[..|users| - 1]), TrimSpace(users[|users| - 1]);
      if u == "" || u == ROOT then rest else AppendMissing(rest, u)
  }

  predicate Configured(users: seq<string>, u: string) {
    exists i :: 0 <= i < |users| && TrimSpace(users[i]) == u
  }

  lemma ConfiguredSnoc(users: seq<string>, u: string)
    requires users != []
    ensures Configured(users, u) <==> Configured(users[..|users| - 1], u) || TrimSpace(users[|users| - 1]) == u
  {
    hide TrimSpace;
    var init := users[..|users| - 1];
    if i :| 0 <= i < |init| && TrimSpace(init[i]) == u {
      assert TrimSpace(users[i]) == u;
    }
    if i :| 0 <= i < |users| && TrimSpace(users[i]) == u {
      assert i < |init| ==> TrimSpace(init[i]) == u;
    }
  }

  /** Every configured user other than root, once. */
  lemma {:induction false} UniqueUsersFacts(users: seq<string>)
    ensures forall i, j :: 0 <= i < j < |UniqueUsers(users)| ==> UniqueUsers(users)[i] != UniqueUsers(users)[j]
    ensures forall u :: u in UniqueUsers(users) <==> u != "" && u != ROOT && Configured(users, u)
  {
    hide TrimSpace;
    if users != [] {
      UniqueUsersFacts(users[..|users| - 1]);
      forall u
        ensures Configured(users, u) <==> Configured(users[..|users| - 1], u) || TrimSpace(users[|users| - 1]) == u
      {
        ConfiguredSnoc(users, u);
      }
      hide Configured;
    }
  }

  /** One command per distinct user other than root. The container's name is
      not quoted: the shell reads the command as meant when it needs no quotes. */
  method EnsureUsers(engine: Engine, container: string, users: seq<string>, tail: string) returns (cmds: seq<string>)
    ensures |cmds| == |UniqueUsers(users)|
    ensures forall i :: 0 <= i < |cmds| ==>
              cmds[i] == RootScriptCommand(engine, container, ScriptHead(UniqueUsers(users)[i]) + tail)
    ensures Simple(container) ==>
              forall i :: 0 <= i < |cmds| ==>
                Commands(cmds[i]) ==
                Some([RootScriptWords(engine, container, ScriptHead(UniqueUsers(users)[i]) + tail)])
  {
    hide Commands, Quote, Simple, TrimSpace, RootScriptCommand, RootScriptWords, ScriptHead;
    cmds := [];
    var unique: seq<string>, seen: set<string> := [], {};
    for n := 0 to |users|
      invariant unique == UniqueUsers(users[..n])
      invariant forall u :: u in seen <==> u in unique
    {
      assert users[..n + 1][..n] == users[..n];
      var u := TrimSpace(users[n]);
      if u != "" && u != ROOT && u !in seen {
        seen := seen + {u};
        unique := unique + [u];
      }
    }
    assert users[..|users|] == users;
    for n := 0 to |unique|
      invariant |cmds| == n
      invariant forall i :: 0 <= i < n ==> cmds[i] == RootScriptCommand(engine, container, ScriptHead(unique[i]) + tail)
    {
      cmds := cmds + [RootScriptCommand(engine, container, ScriptHead(unique[n]) + tail)];
    }
    if Simple(container) {
      forall i | 0 <= i < |cmds|
        ensures Commands(cmds[i]) == Some([RootScriptWords(engine, container, ScriptHead(unique[i]) + tail)])
      {
        CommandWords(engine, container, ScriptHead(unique[i]) + tail);
      }
    }
  }
}
