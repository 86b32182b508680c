/** The SSH client configuration as a map from alias to managed block, with the
    user's own lines around the blocks. */
module SshConfig {
  import opened Text
  import opened SshEntry

  const START := "# >>> CDS managed host "
  const END := "# <<< CDS managed host "
  const CR: set<char> := {'\r'}
  const LF: set<char> := {'\n'}

  function Bare(line: string): string {
    TrimRight(line, CR)
  }

  // ----- the editor -----

  /** Lines left after removing an alias's blocks. */
  function Kept(lines: seq<string>, alias: string, skipping: bool): seq<string> {
    if lines == [] then []
    else
      var t := Bare(lines[0]);
      if t == START + alias then Kept(lines[1..], alias, true)
      else if skipping && t == END + alias then Kept(lines[1..], alias, false)
      else (if skipping then [] else [lines[0]]) + Kept(lines[1..], alias, skipping)
  }

  function RemoveBlock(content: string, alias: string): string {
    TrimLeft(Join(Kept(Split(content, '\n'), alias, false), '\n'), LF)
  }

  /** The block removal loop. */
  method RemoveManagedBlock(content: string, alias: string) returns (cleaned: string)
    ensures cleaned == RemoveBlock(content, alias)
  {
    var lines := Split(content, '\n');
    var kept: seq<string>, skipping := [], false;
    for n := 0 to |lines|
      invariant kept + Kept(lines[n..], alias, skipping) == Kept(lines, alias, false)
    {
      assert lines[n..][1..] == lines[n + 1..] && lines[n..][0] == lines[n];
      var trimmed := Bare(lines[n]);
      if trimmed == START + alias {
        skipping := true;
      } else if skipping && trimmed == END + alias {
        skipping := false;
      } else if !skipping {
        kept := kept + [lines[n]];
      }
    }
    assert lines[|lines|..] == [];
    assert kept + [] == kept;
    cleaned := TrimLeft(Join(kept, '\n'), LF);
  }

  function Unlines(lines: seq<string>): string {
    if lines == [] then "" else lines[0] + "\n" + Unlines(lines[1..])
  }

  function BlockLines(e: Entry): seq<string>
    requires e.port >= 0
  {
    [START + e.alias] + Body(e) + [END + e.alias]
  }

  function RenderBlock(e: Entry): string
    requires e.port >= 0
  {
    Unlines(BlockLines(e))
  }

  /** What is written to the file: a final line break is added when missing. */
  function Written(content: string): string {
    if content != "" && content[|content| - 1] != '\n' then content + "\n" else content
  }

  function Upsert(content: string, e: Entry): string {
    if !ValidToken(e.alias) || !ValidToken(e.hostName) || !ValidToken(e.user) || e.port <= 0 then content
    else
      var cleaned := RemoveBlock(content, e.alias);
      Written(RenderBlock(e) + (if TrimSpace(cleaned) != "" then "\n" + TrimLeft(cleaned, LF) else ""))
  }

  function Remove(content: string, alias: string): string {
    if !ValidToken(alias) then content else Written(RemoveBlock(content, alias))
  }

  // ----- documents -----

  /** A user's line, or a managed block with its marker lines as written. */
  datatype Item = Line(text: string) | Block(alias: string, open: string, body: seq<string>, close: string)

  type Document = seq<Item>

  /** The line opens a block of some alias. */
  predicate Opens(line: string) {
    HasPrefix(Bare(line), START) && OneLine(Bare(line)[|START|..]) && ValidToken(Bare(line)[|START|..])
  }

  predicate LineOk(line: string) {
    '\n' !in line && !Opens(line)
  }

  predicate ItemOk(item: Item) {
    match item
    case Line(text) => LineOk(text)
    case Block(alias, open, body, close) =>
      && OneLine(alias) && ValidToken(alias)
      && Bare(open) == START + alias && Bare(close) == END + alias && '\n' !in open && '\n' !in close
      && forall i :: 0 <= i < |body| ==> LineOk(body[i]) && Bare(body[i]) != END + alias
  }

  function ItemLines(item: Item): seq<string> {
    match item
    case Line(text) => [text]
    case Block(alias, open, body, close) => [open] + body + [close]
  }

  function Flatten(doc: Document): seq<string> {
    if doc == [] then [] else ItemLines(doc[0]) + Flatten(doc[1..])
  }

  ghost predicate ItemsOk(doc: Document) {
    forall i :: 0 <= i < |doc| ==> ItemOk(doc[i])
  }

  /** No alias has two blocks. */
  ghost predicate SingleBlocks(doc: Document) {
    forall i, j :: 0 <= i < j < |doc| && doc[i].Block? && doc[j].Block? ==> doc[i].alias != doc[j].alias
  }

  /** The file consists of these user lines and managed blocks. */
  ghost predicate Reads(content: string, doc: Document) {
    ItemsOk(doc) && SingleBlocks(doc) && Split(content, '\n') == Flatten(doc)
  }

  /** The managed blocks as a map from alias to the lines between the markers. */
  function Blocks(doc: Document): map<string, seq<string>> {
    if doc == [] then map[]
    else
      var rest := Blocks(doc[1..]);
      if doc[0].Block? then rest[doc[0].alias := doc[0].body] else rest
  }

  predicate Blank(line: string) {
    TrimSpace(line) == ""
  }

  /** The user's non-blank lines, in order. */
  function UserLines(doc: Document): seq<string> {
    if doc == [] then []
    else (if doc[0].Line? && !Blank(doc[0].text) then [doc[0].text] else []) + UserLines(doc[1..])
  }

  function WithoutAlias(doc: Document, alias: string): Document {
    if doc == [] then []
    else (if doc[0].Block? && doc[0].alias == alias then [] else [doc[0]]) + WithoutAlias(doc[1..], alias)
  }

  // ----- block removal on documents -----

  lemma {:induction false} KeptSkipped(body: seq<string>, rest: seq<string>, alias: string)
    requires forall i :: 0 <= i < |body| ==> Bare(body[i]) != START + alias && Bare(body[i]) != END + alias
    ensures Kept(body + rest, alias, true) == Kept(rest, alias, true)
  {
    if body == [] {
      assert body + rest == rest;
    } else {
      assert (body + rest)[1..] == body[1..] + rest;
      KeptSkipped(body[1..], rest, alias);
    }
  }

  lemma {:induction false} KeptThrough(lines: seq<string>, rest: seq<string>, alias: string)
    requires forall i :: 0 <= i < |lines| ==> Bare(lines[i]) != START + alias
    ensures Kept(lines + rest, alias, false) == lines + Kept(rest, alias, false)
  {
    if lines == [] {
      assert lines + rest == rest;
    } else {
      assert (lines + rest)[1..] == lines[1..] + rest;
      KeptThrough(lines[1..], rest, alias);
    }
  }

  lemma MarkerOpens(line: string, alias: string)
    requires OneLine(alias) && ValidToken(alias) && Bare(line) == START + alias
    ensures Opens(line)
  {
    assert (START + alias)[|START|..] == alias && (START + alias)[..|START|] == START;
  }

  lemma MarkersDiffer(a: string, b: string)
    ensures START + a == START + b ==> a == b
    ensures END + a != START + b
  {
    assert (START + a)[|START|..] == a && (START + b)[|START|..] == b;
    assert (END + a)[2] == '<' && (START + b)[2] == '>';
  }

  /** No line starts a block of the alias unless it opens one. */
  lemma NotOpening(alias: string)
    requires OneLine(alias) && ValidToken(alias)
    ensures forall line :: Bare(line) == START + alias ==> Opens(line)
  {
    forall line | Bare(line) == START + alias ensures Opens(line) {
      MarkerOpens(line, alias);
    }
  }

  lemma KeptSpan(open: string, body: seq<string>, close: string, rest: seq<string>, alias: string)
    requires Bare(open) == START + alias && Bare(close) == END + alias && END + alias != START + alias
    requires forall i :: 0 <= i < |body| ==> Bare(body[i]) != START + alias && Bare(body[i]) != END + alias
    ensures Kept([open] + body + [close] + rest, alias, false) == Kept(rest, alias, false)
  {
    hide Bare;
    var lines, tail := [open] + body + [close] + rest, [close] + rest;
    assert lines[0] == open && lines[1..] == body + tail;
    KeptSkipped(body, tail, alias);
    assert tail[0] == close && tail[1..] == rest;
    assert Kept(tail, alias, true) == Kept(rest, alias, false);
  }

  lemma KeptOwn(item: Item, rest: seq<string>, alias: string)
    requires ItemOk(item) && OneLine(alias) && ValidToken(alias) && item.Block? && item.alias == alias
    ensures Kept(ItemLines(item) + rest, alias, false) == Kept(rest, alias, false)
  {
    hide Kept;
    NotOpening(alias);
    MarkersDiffer(alias, alias);
    hide ValidToken, OneLine, Opens, Bare;
    assert forall i :: 0 <= i < |item.body| ==> LineOk(item.body[i]);
    KeptSpan(item.open, item.body, item.close, rest, alias);
  }

  lemma KeptOther(item: Item, rest: seq<string>, alias: string)
    requires ItemOk(item) && OneLine(alias) && ValidToken(alias) && (item.Block? ==> item.alias != alias)
    ensures Kept(ItemLines(item) + rest, alias, false) == ItemLines(item) + Kept(rest, alias, false)
  {
    NotOpening(alias);
    if item.Block? {
      MarkersDiffer(item.alias, alias);
    }
    hide ValidToken, OneLine, Opens, Bare, Kept;
    var lines := ItemLines(item);
    forall i | 0 <= i < |lines| ensures Bare(lines[i]) != START + alias {
      assert item.Block? && 0 < i < |lines| - 1 ==> lines[i] == item.body[i - 1] && LineOk(item.body[i - 1]);
    }
    KeptThrough(lines, rest, alias);
  }

  lemma KeptItem(item: Item, rest: seq<string>, alias: string)
    requires ItemOk(item) && OneLine(alias) && ValidToken(alias)
    ensures Kept(ItemLines(item) + rest, alias, false) ==
              (if item.Block? && item.alias == alias then [] else ItemLines(item)) + Kept(rest, alias, false)
  {
    hide Kept, ItemOk, ItemLines, ValidToken, OneLine;
    if item.Block? && item.alias == alias {
      KeptOwn(item, rest, alias);
    } else {
      KeptOther(item, rest, alias);
    }
  }

  /** Removing an alias from the text removes its block from the document and
      touches nothing else, whatever other aliases it is a prefix of. */
  lemma {:induction false} KeptDocument(doc: Document, alias: string)
    requires ItemsOk(doc) && OneLine(alias) && ValidToken(alias)
    ensures Kept(Flatten(doc), alias, false) == Flatten(WithoutAlias(doc, alias))
  {
    hide ValidToken, OneLine, ItemOk, ItemLines;
    if doc != [] {
      KeptItem(doc[0], Flatten(doc[1..]), alias);
      KeptDocument(doc[1..], alias);
      var rest := WithoutAlias(doc[1..], alias);
      if doc[0].Block? && doc[0].alias == alias {
        assert [] + rest == rest;
        assert [] + Flatten(rest) == Flatten(rest);
      } else {
        assert ([doc[0]] + rest)[1..] == rest;
      }
    }
  }

  lemma {:induction false} WithoutItems(doc: Document, alias: string)
    requires SingleBlocks(doc)
    ensures forall item :: item in WithoutAlias(doc, alias) ==> item in doc && !(item.Block? && item.alias == alias)
    ensures SingleBlocks(WithoutAlias(doc, alias))
  {
    if doc != [] {
      WithoutItems(doc[1..], alias);
      var w := WithoutAlias(doc[1..], alias);
      if doc[0].Block? && doc[0].alias == alias {
        assert WithoutAlias(doc, alias) == w;
      } else {
        SingleCons(doc[0], w, doc);
      }
    }
  }

  lemma {:induction false} WithoutBlocks(doc: Document, alias: string)
    requires SingleBlocks(doc)
    ensures Blocks(WithoutAlias(doc, alias)) == Blocks(doc) - {alias}
    ensures UserLines(WithoutAlias(doc, alias)) == UserLines(doc)
  {
    hide Blank;
    if doc != [] {
      var rest := doc[1..];
      WithoutBlocks(rest, alias);
      var w := WithoutAlias(rest, alias);
      if doc[0].Block? && doc[0].alias == alias {
        AliasOnce(doc);
        assert WithoutAlias(doc, alias) == w;
      } else {
        assert WithoutAlias(doc, alias) == [doc[0]] + w;
        assert WithoutAlias(doc, alias)[1..] == w;
      }
    }
  }

  lemma AliasOnce(doc: Document)
    requires SingleBlocks(doc) && doc != [] && doc[0].Block?
    ensures doc[0].alias !in Blocks(doc[1..])
  {
    BlocksKeys(doc[1..]);
    hide Blocks;
  }

  lemma SingleCons(item: Item, w: Document, doc: Document)
    requires doc != [] && SingleBlocks(doc) && item == doc[0] && SingleBlocks(w) && forall x :: x in w ==> x in doc[1..]
    ensures SingleBlocks([item] + w)
  {
    forall i, j | 0 <= i < j < |[item] + w| && ([item] + w)[i].Block? && ([item] + w)[j].Block?
      ensures ([item] + w)[i].alias != ([item] + w)[j].alias
    {
      if i == 0 {
        assert w[j - 1] in w;
        var k :| 0 <= k < |doc[1..]| && doc[1..][k] == w[j - 1];
        assert doc[k + 1] == w[j - 1];
      }
    }
  }

  lemma {:induction false} BlocksKeys(doc: Document)
    ensures forall a :: a in Blocks(doc) <==> exists i :: 0 <= i < |doc| && doc[i].Block? && doc[i].alias == a
  {
    if doc != [] {
      BlocksKeys(doc[1..]);
      forall a ensures a in Blocks(doc) <==> exists i :: 0 <= i < |doc| && doc[i].Block? && doc[i].alias == a {
        if i :| 0 <= i < |doc| && doc[i].Block? && doc[i].alias == a {
          assert i > 0 ==> doc[1..][i - 1] == doc[i];
        }
        if a in Blocks(doc[1..]) {
          var i :| 0 <= i < |doc[1..]| && doc[1..][i].Block? && doc[1..][i].alias == a;
          assert doc[i + 1] == doc[1..][i];
        }
      }
    }
  }

  // ----- blank lines -----

  lemma {:induction false} BlocksKeepLast(doc: Document)
    ensures Blocks(doc + [Line("")]) == Blocks(doc) && UserLines(doc + [Line("")]) == UserLines(doc)
    ensures Flatten(doc + [Line("")]) == Flatten(doc) + [""]
  {
    var more := doc + [Line("")];
    assert Blank("");
    hide Blank;
    if doc == [] {
      assert more == [Line("")] && more[1..] == [];
      assert Flatten(more) == [""] + Flatten(more[1..]);
    } else {
      BlocksKeepLast(doc[1..]);
      assert more[1..] == doc[1..] + [Line("")];
    }
  }

  /** Without leading empty lines. */
  function Tidy(doc: Document): Document {
    if doc != [] && doc[0] == Line("") then Tidy(doc[1..]) else doc
  }

  function DropEmpty(lines: seq<string>): seq<string> {
    if lines != [] && lines[0] == "" then DropEmpty(lines[1..]) else lines
  }

  lemma BareEmpty()
    ensures Bare("") == ""
  {
  }

  lemma {:induction false} TidyFacts(doc: Document)
    requires ItemsOk(doc) && SingleBlocks(doc)
    ensures ItemsOk(Tidy(doc)) && SingleBlocks(Tidy(doc))
    ensures Blocks(Tidy(doc)) == Blocks(doc) && UserLines(Tidy(doc)) == UserLines(doc)
    ensures Flatten(Tidy(doc)) == DropEmpty(Flatten(doc))
  {
    assert Blank("");
    BareEmpty();
    hide Blank, OneLine, ValidToken, Opens, Bare;
    if doc != [] {
      if doc[0] == Line("") {
        TidyFacts(doc[1..]);
        assert Flatten(doc)[1..] == Flatten(doc[1..]);
      } else if doc[0].Block? {
        assert doc[0].open != "" by {
          assert START + doc[0].alias != "";
        }
      }
    }
  }

  lemma {:induction false} JoinTidy(lines: seq<string>)
    requires forall i :: 0 <= i < |lines| ==> '\n' !in lines[i]
    ensures TrimLeft(Join(lines, '\n'), LF) == Join(DropEmpty(lines), '\n')
  {
    if lines != [] {
      if lines[0] == "" {
        JoinTidy(lines[1..]);
        if |lines| > 1 {
          var j := Join(lines, '\n');
          assert j == "\n" + Join(lines[1..], '\n');
          assert j[1..] == Join(lines[1..], '\n');
        } else {
          assert lines[1..] == [];
        }
      } else {
        assert lines[0][0] in lines[0];
        assert Join(lines, '\n')[0] == lines[0][0];
      }
    }
  }

  lemma {:induction false} FlattenNoBreak(doc: Document)
    requires ItemsOk(doc)
    ensures forall i :: 0 <= i < |Flatten(doc)| ==> '\n' !in Flatten(doc)[i]
  {
    hide OneLine, ValidToken, Opens, Bare;
    if doc != [] {
      FlattenNoBreak(doc[1..]);
      assert forall i :: 0 <= i < |ItemLines(doc[0])| ==> '\n' !in ItemLines(doc[0])[i] by {
        assert ItemOk(doc[0]);
      }
    }
  }

  /** The document of the text that joins these lines. */
  function AsFile(doc: Document): Document {
    if doc == [] then [Line("")] else doc
  }

  lemma {:induction false} FlattenEmpty(doc: Document)
    ensures Flatten(doc) == [] <==> doc == []
  {
  }

  lemma JoinReads(doc: Document)
    requires ItemsOk(doc) && SingleBlocks(doc)
    ensures Reads(Join(Flatten(doc), '\n'), AsFile(doc))
    ensures Blocks(AsFile(doc)) == Blocks(doc) && UserLines(AsFile(doc)) == UserLines(doc)
  {
    FlattenNoBreak(doc);
    FlattenEmpty(doc);
    if doc == [] {
      BareEmpty();
      assert Split("", '\n') == [""];
      BlocksKeepLast([]);
      assert [] + [Line("")] == [Line("")];
    } else {
      SplitJoin(Flatten(doc), '\n');
    }
  }

  // ----- the file after an edit -----

  /** A file with the given blocks and user lines. */
  ghost predicate Holds(content: string, blocks: map<string, seq<string>>, user: seq<string>) {
    exists doc :: Reads(content, doc) && Blocks(doc) == blocks && UserLines(doc) == user
  }

  lemma RemoveBlockReads(content: string, doc: Document, alias: string)
    requires Reads(content, doc) && OneLine(alias) && ValidToken(alias)
    ensures var r := AsFile(Tidy(WithoutAlias(doc, alias)));
            Reads(RemoveBlock(content, alias), r) && Blocks(r) == Blocks(doc) - {alias}
                && UserLines(r) == UserLines(doc)
  {
    hide OneLine, ValidToken, ItemOk, Blank;
    var w := WithoutAlias(doc, alias);
    KeptDocument(doc, alias);
    WithoutItems(doc, alias);
    WithoutBlocks(doc, alias);
    assert ItemsOk(w) by {
      forall i | 0 <= i < |w| ensures ItemOk(w[i]) {
        assert w[i] in doc;
      }
    }
    TidyFacts(w);
    FlattenNoBreak(w);
    JoinTidy(Flatten(w));
    JoinReads(Tidy(w));
  }

  lemma NoLine()
    ensures ItemOk(Line("")) && ItemLines(Line("")) == [""] && Split("", '\n') == [""]
  {
    BareEmpty();
  }

  lemma AddedLine(content: string, doc: Document)
    requires Reads(content, doc)
    ensures Holds(content + "\n", Blocks(doc), UserLines(doc))
  {
    hide ItemOk, ItemLines;
    NoLine();
    var more := doc + [Line("")];
    BlocksKeepLast(doc);
    SplitConcat(content, '\n', "");
    assert content + ['\n'] + "" == content + "\n";
    hide Split, Flatten, Blocks, UserLines;
    assert Reads(content + "\n", more);
  }

  lemma WrittenReads(content: string, doc: Document)
    requires Reads(content, doc)
    ensures Holds(Written(content), Blocks(doc), UserLines(doc))
  {
    hide Reads, Blocks, UserLines;
    if content != "" && content[|content| - 1] != '\n' {
      AddedLine(content, doc);
    }
  }

  /** Removing an alias: its block goes, everything else stays. */
  lemma RemoveHolds(content: string, blocks: map<string, seq<string>>, user: seq<string>, alias: string)
    requires Holds(content, blocks, user) && OneLine(alias)
    ensures Holds(Remove(content, alias), if ValidToken(alias) then blocks - {alias} else blocks, user)
  {
    hide Reads, OneLine, ValidToken, Written;
    if ValidToken(alias) {
      var doc :| Reads(content, doc) && Blocks(doc) == blocks && UserLines(doc) == user;
      RemoveBlockReads(content, doc, alias);
      WrittenReads(RemoveBlock(content, alias), AsFile(Tidy(WithoutAlias(doc, alias))));
    }
  }

  lemma {:induction false} UnlinesSplit(lines: seq<string>, rest: string)
    requires forall i :: 0 <= i < |lines| ==> '\n' !in lines[i]
    ensures Split(Unlines(lines) + rest, '\n') == lines + Split(rest, '\n')
  {
    if lines == [] {
      assert Unlines(lines) + rest == rest;
    } else {
      hide Split;
      var more := Unlines(lines[1..]) + rest;
      calc {
        Split(Unlines(lines) + rest, '\n');
        { assert Unlines(lines) + rest == lines[0] + ['\n'] + more; }
        Split(lines[0] + ['\n'] + more, '\n');
        { SplitConcat(lines[0], '\n', more); SplitPlain(lines[0], '\n'); }
        [lines[0]] + Split(more, '\n');
        { UnlinesSplit(lines[1..], rest); }
        [lines[0]] + (lines[1..] + Split(rest, '\n'));
        { assert [lines[0]] + lines[1..] == lines; }
        lines + Split(rest, '\n');
      }
    }
  }

  predicate EntryOk(e: Entry) {
    && OneLine(e.alias) && '\n' !in e.hostName && '\n' !in e.user && '\n' !in e.identityFile
    && ValidToken(e.alias) && ValidToken(e.hostName) && ValidToken(e.user) && e.port > 0
  }

  function EntryBlock(e: Entry): Item
    requires e.port >= 0
  {
    Block(e.alias, START + e.alias, Body(e), END + e.alias)
  }

  lemma BareMarker(marker: string, alias: string)
    requires OneLine(alias) && alias != ""
    ensures Bare(marker + alias) == marker + alias
  {
    var s := marker + alias;
    assert s[|s| - 1] == alias[|alias| - 1];
  }

  lemma BareHead(line: string)
    requires line != "" && line[0] != '\r'
    ensures Bare(line) != "" && Bare(line)[0] == line[0]
  {
    TrimRightPrefix(line, CR);
  }

  lemma EntryBlockOk(e: Entry)
    requires EntryOk(e)
    ensures ItemOk(EntryBlock(e)) && forall i :: 0 <= i < |BlockLines(e)| ==> '\n' !in BlockLines(e)[i]
  {
    assert e.alias != "" by {
      assert TrimSpace("") == "";
    }
    BareMarker(START, e.alias);
    BareMarker(END, e.alias);
    BodyNoBreak(e);
    assert '\n' !in START + e.alias && '\n' !in END + e.alias;
    hide ValidToken, OneLine, Body;
    forall i | 0 <= i < |Body(e)| ensures LineOk(Body(e)[i]) && Bare(Body(e)[i]) != END + e.alias {
      BareHead(Body(e)[i]);
      assert START[0] == '#' && (END + e.alias)[0] == '#';
    }
  }

  /** A file of white space holds nothing. */
  lemma BlankFile(content: string, doc: Document)
    requires Reads(content, doc) && TrimSpace(content) == ""
    ensures Blocks(doc) == map[] && UserLines(doc) == []
  {
    BlankChars(content);
    SplitChars(content);
    hide TrimSpace, Split;
    forall i | 0 <= i < |Flatten(doc)| ensures Blank(Flatten(doc)[i]) {
      AllSpaces(Flatten(doc)[i]);
    }
    BlankDocument(doc);
  }

  lemma BlankChars(s: string)
    requires TrimSpace(s) == ""
    ensures forall c :: c in s ==> c in SPACES
  {
    TrimLeftSuffix(s, SPACES);
    TrimRightPrefix(TrimLeft(s, SPACES), SPACES);
    assert TrimLeft(s, SPACES) == "";
  }

  lemma {:induction false} AllSpaces(s: string)
    requires forall c :: c in s ==> c in SPACES
    ensures Blank(s)
  {
    if s != "" {
      assert s[0] in s && forall c :: c in s[1..] ==> c in s;
      AllSpaces(s[1..]);
      assert TrimLeft(s, SPACES) == TrimLeft(s[1..], SPACES);
    }
  }

  lemma {:induction false} SplitChars(s: string)
    ensures forall i, c :: 0 <= i < |Split(s, '\n')| && c in Split(s, '\n')[i] ==> c in s
  {
    if s != "" {
      SplitChars(s[1..]);
      assert s == [s[0]] + s[1..];
    }
  }

  lemma {:induction false} BlankDocument(doc: Document)
    requires ItemsOk(doc) && forall i :: 0 <= i < |Flatten(doc)| ==> Blank(Flatten(doc)[i])
    ensures Blocks(doc) == map[] && UserLines(doc) == []
  {
    hide Blank, ValidToken, OneLine;
    if doc != [] {
      var head, rest := ItemLines(doc[0]), Flatten(doc[1..]);
      assert Flatten(doc) == head + rest;
      forall i | 0 <= i < |rest| ensures Blank(rest[i]) {
        assert rest[i] == Flatten(doc)[i + |head|];
      }
      BlankDocument(doc[1..]);
      assert head[0] == Flatten(doc)[0];
      if doc[0].Block? {
        assert ItemOk(doc[0]);
        OpenNotBlank(head[0], doc[0].alias);
      }
    }
  }

  lemma OpenNotBlank(line: string, alias: string)
    requires Bare(line) == START + alias
    ensures !Blank(line)
  {
    TrimRightPrefix(line, CR);
    assert line[0] == '#' && line[0] in line;
    if Blank(line) {
      BlankChars(line);
      assert false;
    }
  }

  /** Upserting an entry: its block is the given one, everything else stays. */
  lemma UpsertHolds(content: string, blocks: map<string, seq<string>>, user: seq<string>, e: Entry)
    requires Holds(content, blocks, user) && EntryOk(e)
    ensures Holds(Upsert(content, e), blocks[e.alias := Body(e)], user)
  {
    assert e.port >= 0;
    hide EntryOk, Upsert, Reads, Blocks, UserLines, Body;
    var doc :| Reads(content, doc) && Blocks(doc) == blocks && UserLines(doc) == user;
    hide Holds;
    UpsertDocument(content, doc, e);
  }

  lemma UpsertDocument(content: string, doc: Document, e: Entry)
    requires Reads(content, doc) && EntryOk(e) && e.port >= 0
    ensures Holds(Upsert(content, e), Blocks(doc)[e.alias := Body(e)], UserLines(doc))
  {
    hide Upsert, Reads, Written, Body, EntryOk, RenderBlock, Blocks, UserLines, Holds;
    var rest, after := UpsertRest(content, doc, e);
    PutFirst(rest, after, e);
    WrittenReads(RenderBlock(e) + rest, [EntryBlock(e)] + after);
    assert (Blocks(doc) - {e.alias})[e.alias := Body(e)] == Blocks(doc)[e.alias := Body(e)];
  }

  /** What follows the new block, as text and as a document. */
  lemma UpsertRest(content: string, doc: Document, e: Entry) returns (rest: string, after: Document)
    requires Reads(content, doc) && EntryOk(e)
    ensures Upsert(content, e) == Written(RenderBlock(e) + rest)
    ensures Reads(rest, after) && Blocks(after) == Blocks(doc) - {e.alias} && UserLines(after) == UserLines(doc)
    ensures e.alias !in Blocks(after)
  {
    hide ValidToken, OneLine, TrimSpace, Reads, Written, Body, Kept;
    var cleaned := RemoveBlock(content, e.alias);
    var tidy := AsFile(Tidy(WithoutAlias(doc, e.alias)));
    RemoveBlockReads(content, doc, e.alias);
    TrimTwice(Join(Kept(Split(content, '\n'), e.alias, false), '\n'));
    assert TrimLeft(cleaned, LF) == cleaned;
    RestReads(cleaned, tidy);
    rest := if TrimSpace(cleaned) != "" then "\n" + cleaned else "";
    after := [Line("")] + (if TrimSpace(cleaned) != "" then tidy else []);
  }

  lemma TrimTwice(s: string)
    ensures TrimLeft(TrimLeft(s, LF), LF) == TrimLeft(s, LF)
  {
    TrimLeftSuffix(s, LF);
  }

  lemma RestFull(cleaned: string, tidy: Document)
    requires Reads(cleaned, tidy)
    ensures var rest, after := "\n" + cleaned, [Line("")] + tidy;
            Reads(rest, after) && Blocks(after) == Blocks(tidy) && UserLines(after) == UserLines(tidy)
  {
    NoLine();
    assert Blank("");
    hide ItemOk, Blank, ItemLines;
    var after := [Line("")] + tidy;
    assert after[0] == Line("") && after[1..] == tidy;
    SplitConcat("", '\n', cleaned);
    hide Split;
    assert "" + ['\n'] + cleaned == "\n" + cleaned;
    assert Flatten(after) == [""] + Flatten(tidy);
    assert [] + UserLines(tidy) == UserLines(tidy);
    hide Flatten;
  }

  lemma RestEmpty()
    ensures Reads("", [Line("")]) && Blocks([Line("")]) == map[] && UserLines([Line("")]) == []
  {
    NoLine();
    assert Blank("");
    hide ItemOk, Blank, ItemLines, Split;
    assert [Line("")][1..] == [];
    assert Flatten([]) == [] && UserLines([]) == [];
    assert Flatten([Line("")]) == [""] + [];
    assert [""] + [] == [""];
  }

  lemma RestReads(cleaned: string, tidy: Document)
    requires Reads(cleaned, tidy)
    ensures var rest := if TrimSpace(cleaned) != "" then "\n" + cleaned else "";
            var after := [Line("")] + (if TrimSpace(cleaned) != "" then tidy else []);
            Reads(rest, after) && Blocks(after) == Blocks(tidy) && UserLines(after) == UserLines(tidy)
  {
    hide Reads, Blocks, UserLines, TrimSpace;
    if TrimSpace(cleaned) != "" {
      RestFull(cleaned, tidy);
    } else {
      BlankFile(cleaned, tidy);
      RestEmpty();
      assert [Line("")] + [] == [Line("")];
    }
  }

  lemma PutFirst(rest: string, after: Document, e: Entry)
    requires EntryOk(e) && Reads(rest, after) && e.alias !in Blocks(after)
    ensures var doc := [EntryBlock(e)] + after;
            && Reads(RenderBlock(e) + rest, doc)
            && Blocks(doc) == Blocks(after)[e.alias := Body(e)] && UserLines(doc) == UserLines(after)
  {
    var doc := [EntryBlock(e)] + after;
    EntryBlockOk(e);
    UnlinesSplit(BlockLines(e), rest);
    BlocksKeys(after);
    hide EntryOk, ItemOk, Body, Split;
    assert doc[1..] == after;
    assert SingleBlocks(doc);
  }

  // ----- a file reads in one way only -----

  /** A body ends at its first closing line. */
  lemma SameBody(b: seq<string>, c: string, xs: seq<string>, b': seq<string>, c': string, ys: seq<string>, end: string)
    requires b + [c] + xs == b' + [c'] + ys && Bare(c) == end && Bare(c') == end
    requires forall i :: 0 <= i < |b| ==> Bare(b[i]) != end
    requires forall i :: 0 <= i < |b'| ==> Bare(b'[i]) != end
    ensures b == b' && c == c' && xs == ys
  {
    hide Bare;
    var all := b + [c] + xs;
    assert all[|b|] == c && all[|b'|] == c';
    assert forall i :: 0 <= i < |b| ==> all[i] == b[i];
    assert forall i :: 0 <= i < |b'| ==> all[i] == b'[i];
    assert |b| == |b'|;
    assert all[..|b|] == b && all[..|b|] == b';
    assert all[|b| + 1..] == xs && all[|b| + 1..] == ys;
  }

  /** Only a block's first line opens a block. */
  lemma FirstLine(item: Item)
    requires ItemOk(item)
    ensures Opens(ItemLines(item)[0]) <==> item.Block?
  {
    hide ValidToken, OneLine, Bare;
    if item.Block? {
      MarkerOpens(item.open, item.alias);
    }
  }

  lemma SameBlock(x: Item, y: Item, xs: seq<string>, ys: seq<string>)
    requires x.Block? && y.Block? && ItemOk(x) && ItemOk(y) && ItemLines(x) + xs == ItemLines(y) + ys
    ensures x == y && xs == ys
  {
    hide ValidToken, OneLine, LineOk, Bare;
    SameOpen(x, y, xs, ys);
    hide ItemLines;
    SameBody(x.body, x.close, xs, y.body, y.close, ys, END + x.alias);
  }

  /** Blocks that start alike have the same alias and opening line. */
  lemma SameOpen(x: Item, y: Item, xs: seq<string>, ys: seq<string>)
    requires x.Block? && y.Block? && ItemOk(x) && ItemOk(y) && ItemLines(x) + xs == ItemLines(y) + ys
    ensures x.open == y.open && x.alias == y.alias && x.body + [x.close] + xs == y.body + [y.close] + ys
  {
    SameTail(x.open, x.body, x.close, xs, y.open, y.body, y.close, ys);
    assert Bare(x.open) == START + x.alias && Bare(y.open) == START + y.alias;
    hide ItemOk, Bare, ItemLines;
    MarkersDiffer(x.alias, y.alias);
  }

  lemma SameTail(a: string, s: seq<string>, c: string, xs: seq<string>, b: string, t: seq<string>, d: string,
      ys: seq<string>)
    ensures [a] + s + [c] + xs == [b] + t + [d] + ys ==> a == b && s + [c] + xs == t + [d] + ys
  {
    var all, other := [a] + s + [c] + xs, [b] + t + [d] + ys;
    assert all[0] == a && other[0] == b && all[1..] == s + [c] + xs && other[1..] == t + [d] + ys;
  }

  lemma SameItem(x: Item, y: Item, xs: seq<string>, ys: seq<string>)
    requires ItemOk(x) && ItemOk(y) && ItemLines(x) + xs == ItemLines(y) + ys
    ensures x == y && xs == ys
  {
    FirstLine(x);
    FirstLine(y);
    hide ItemOk, Opens;
    var all := ItemLines(x) + xs;
    assert all[0] == ItemLines(x)[0] && all[0] == ItemLines(y)[0];
    if x.Block? {
      SameBlock(x, y, xs, ys);
    } else {
      assert all[1..] == xs && all[1..] == ys;
    }
  }

  lemma {:induction false} FlattenInjective(d: Document, d': Document)
    requires ItemsOk(d) && ItemsOk(d') && Flatten(d) == Flatten(d')
    ensures d == d'
  {
    hide ItemOk, ItemLines;
    FlattenEmpty(d);
    FlattenEmpty(d');
    if d != [] {
      SameItem(d[0], d'[0], Flatten(d[1..]), Flatten(d'[1..]));
      FlattenInjective(d[1..], d'[1..]);
      assert d == [d[0]] + d[1..] && d' == [d'[0]] + d'[1..];
    }
  }

  /** The blocks and user lines of a file are determined by its text. */
  lemma HoldsUnique(content: string, blocks: map<string, seq<string>>, user: seq<string>,
      blocks': map<string, seq<string>>, user': seq<string>)
    requires Holds(content, blocks, user) && Holds(content, blocks', user')
    ensures blocks == blocks' && user == user'
  {
    var d :| Reads(content, d) && Blocks(d) == blocks && UserLines(d) == user;
    var d' :| Reads(content, d') && Blocks(d') == blocks' && UserLines(d') == user';
    FlattenInjective(d, d');
  }

  // ----- runs of edits -----

  datatype Edit = Put(entry: Entry) | Delete(alias: string)

  function Apply(content: string, edit: Edit): string {
    match edit
    case Put(e) => Upsert(content, e)
    case Delete(a) => Remove(content, a)
  }

  function Run(content: string, edits: seq<Edit>): string {
    if edits == [] then content else Apply(Run(content, edits[..|edits| - 1]), edits[|edits| - 1])
  }

  /** The same edits on a map; an edit the program rejects changes nothing. */
  function MapRun(blocks: map<string, seq<string>>, edits: seq<Edit>): map<string, seq<string>> {
    if edits == [] then blocks
    else
      var before := MapRun(blocks, edits[..|edits| - 1]);
      match edits[|edits| - 1]
      case Put(e) => if EntryOk(e) then before[e.alias := Body(e)] else before
      case Delete(a) => if ValidToken(a) then before - {a} else before
  }

  /** Aliases that stay on their line; other values without line breaks. */
  predicate EditOk(edit: Edit) {
    match edit
    case Put(e) => OneLine(e.alias) && '\n' !in e.hostName && '\n' !in e.user && '\n' !in e.identityFile
    case Delete(a) => OneLine(a)
  }

  /** Over any run of edits the file stays well formed, its blocks are exactly
      the map the same puts and deletes build, and the user's non-blank lines
      keep their content and order. */
  lemma {:induction false} RunHolds(content: string, blocks: map<string, seq<string>>, user: seq<string>,
      edits: seq<Edit>)
    requires Holds(content, blocks, user)
    requires forall i :: 0 <= i < |edits| ==> EditOk(edits[i])
    ensures Holds(Run(content, edits), MapRun(blocks, edits), user)
  {
    if edits != [] {
      var before, edit := edits[..|edits| - 1], edits[|edits| - 1];
      RunHolds(content, blocks, user, before);
      assert EditOk(edit);
      match edit
      case Put(e) =>
        if EntryOk(e) {
          UpsertHolds(Run(content, before), MapRun(blocks, before), user, e);
        }
      case Delete(a) => RemoveHolds(Run(content, before), MapRun(blocks, before), user, a);
    }
  }

  /** An entry put last is read back field by field, whatever was there. */
  lemma PutReadsBack(content: string, blocks: map<string, seq<string>>, user: seq<string>, e: Entry)
    requires Holds(content, blocks, user) && EntryOk(e)
    ensures exists after ::
              && Holds(Upsert(content, e), after, user) && e.alias in after && ReadBody(after[e.alias]) == Some(e)
              && after - {e.alias} == blocks - {e.alias}
  {
    UpsertHolds(content, blocks, user, e);
    BodyRoundTrip(e);
    var after := blocks[e.alias := Body(e)];
    assert after - {e.alias} == blocks - {e.alias};
    assert Holds(Upsert(content, e), after, user);
  }

  lemma {:induction false} KeptAll(lines: seq<string>, alias: string)
    requires !OneLine(alias) && forall i :: 0 <= i < |lines| ==> '\n' !in lines[i]
    ensures Kept(lines, alias, false) == lines
  {
    if lines != [] {
      var t, marker := Bare(lines[0]), START + alias;
      TrimRightPrefix(lines[0], CR);
      assert alias != "" && marker[|marker| - 1] == alias[|alias| - 1];
      assert '\n' in alias ==> '\n' in marker;
      assert t != marker;
      KeptAll(lines[1..], alias);
    }
  }

  /** An alias that does not stay on its line: its blocks are never removed,
      from any file, because no line can equal their markers. */
  lemma NeverRemoved(content: string, alias: string)
    requires !OneLine(alias)
    ensures RemoveBlock(content, alias) == TrimLeft(content, LF)
  {
    SplitParts(content, '\n');
    KeptAll(Split(content, '\n'), alias);
    JoinSplit(content, '\n');
  }

  lemma StartsFull(x: string)
    requires x != "" && x[0] == '#'
    ensures TrimSpace(x) != "" && TrimLeft(x, LF) == x
  {
    TrimRightPrefix(x, SPACES);
    assert TrimLeft(x, SPACES) == x;
    assert TrimRight(x, SPACES) != "" by {
      assert x[0] !in SPACES;
    }
  }

  lemma TrimA()
    ensures TrimSpace("a\n") == "a"
  {
    assert TrimLeft("a\n", SPACES) == "a\n";
    assert "a\n"[..1] == "a";
    assert TrimRight("a", SPACES) == "a";
    assert TrimRight("a\n", SPACES) == TrimRight("a\n"[..1], SPACES);
  }

  /** The check on tokens trims first, so it lets such an alias through: put
      twice, "a" with a line break leaves two blocks. */
  lemma BreakAccepted(e: Entry)
    requires e.alias == "a\n" && ValidToken(e.hostName) && ValidToken(e.user) && e.port > 0
    ensures ValidToken(e.alias) && !OneLine(e.alias)
    ensures var once := RenderBlock(e); Upsert("", e) == once && Upsert(once, e) == once + "\n" + once
  {
    TrimA();
    assert e.alias[1] == '\n' && '\n' in e.alias;
    hide TrimSpace;
    assert ValidToken(e.alias);
    hide ValidToken, OneLine;
    var once := RenderBlock(e);
    RenderEnds(e);
    TrimEmpty();
    NeverRemoved("", e.alias);
    StartsFull(once);
    NeverRemoved(once, e.alias);
    hide RenderBlock, RemoveBlock;
    assert once + "" == once;
    assert once + ("\n" + once) == once + "\n" + once;
  }

  lemma TrimEmpty()
    ensures TrimSpace("") == "" && TrimLeft("", LF) == ""
  {
  }

  lemma RenderEnds(e: Entry)
    requires e.port >= 0
    ensures var r := RenderBlock(e); r != "" && r[0] == '#' && r[|r| - 1] == '\n'
  {
    var lines := BlockLines(e);
    assert lines[0] == START + e.alias && lines[0][0] == '#';
    UnlinesEnds(lines);
    hide Body;
  }

  lemma {:induction false} UnlinesEnds(lines: seq<string>)
    requires lines != []
    ensures var r := Unlines(lines); r != "" && r[|r| - 1] == '\n' && lines[0] <= r
  {
    if |lines| > 1 {
      UnlinesEnds(lines[1..]);
    }
  }

  /** The configuration file as the program edits it. */
  class ConfigFile {
    var content: string

    constructor (content: string)
      ensures this.content == content
    {
      this.content := content;
    }

    method UpsertEntry(e: Entry) returns (ok: bool)
      modifies this
      ensures ok <==> ValidToken(e.alias) && ValidToken(e.hostName) && ValidToken(e.user) && e.port > 0
      ensures content == Upsert(old(content), e)
      ensures ok ==> content != "" && content[|content| - 1] == '\n'
    {
      if !ValidToken(e.alias) || !ValidToken(e.hostName) || !ValidToken(e.user) || e.port <= 0 {
        return false;
      }
      var cleaned := RemoveManagedBlock(content, e.alias);
      var next := RenderBlock(e);
      if TrimSpace(cleaned) != "" {
        next := next + ("\n" + TrimLeft(cleaned, LF));
      } else {
        assert next + "" == next;
      }
      content := Written(next);
      RenderEnds(e);
      return true;
    }

    method RemoveEntry(alias: string) returns (ok: bool)
      modifies this
      ensures ok <==> TrimSpace(alias) == "" || ValidToken(alias)
      ensures content == Remove(old(content), alias)
      ensures ok && content != old(content) ==> content == "" || content[|content| - 1] == '\n'
    {
      if TrimSpace(alias) == "" {
        return true;
      }
      if !ValidToken(alias) {
        return false;
      }
      var cleaned := RemoveManagedBlock(content, alias);
      content := Written(cleaned);
      return true;
    }
  }
}
