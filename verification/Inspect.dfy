/** The port list an inspect command prints, and reading it back. */
module Inspect {
  import opened Text
  import opened SshEntry

  type HostPort = n: nat | n < 0x1_0000

  /** A published container port and its host bindings. */
  datatype Port = Port(key: string, bindings: seq<HostPort>)

  function Label(key: string): string {
    "\"" + key + "\":"
  }

  function Bound(port: HostPort): string {
    "\"" + Decimal(port) + "\""
  }

  function PrintBindings(bs: seq<HostPort>): string {
    if bs == [] then "" else Bound(bs[0]) + [','] + PrintBindings(bs[1..])
  }

  /** The template's output, port by port. */
  function Print(ports: seq<Port>): string {
    if ports == [] then "" else Label(ports[0].key) + PrintBindings(ports[0].bindings) + Print(ports[1..])
  }

  function Trim(s: string, cut: set<char>): string {
    TrimRight(TrimLeft(s, cut), cut)
  }

  /** A decimal number with an optional sign, within 64 bits. */
  function Atoi(s: string): Option<int> {
    var signed := s != "" && s[0] in {'+', '-'};
    match ReadDecimal(if signed then s[1..] else s)
    case None => None
    case Some(n) =>
      var m: int := n;
      var v := if signed && s[0] == '-' then -m else m;
      if -0x8000_0000_0000_0000 <= v < 0x8000_0000_0000_0000 then Some(v) else None
  }

  /** One comma-separated piece; an empty one is skipped. */
  function ParseOne(m: map<string, int>, piece: string): Option<map<string, int>> {
    if piece == "" then Some(m)
    else
      var parts := Split(piece, ':');
      if |parts| != 2 then None
      else
        match Atoi(Trim(parts[1], {'"', ','}))
        case None => None
        case Some(port) =>
          var key := Trim(parts[0], {'"'});
          if key in m then None else Some(m[key := port])
  }

  function ParsePieces(m: map<string, int>, pieces: seq<string>): Option<map<string, int>>
    decreases pieces
  {
    if pieces == [] then Some(m)
    else match ParseOne(m, pieces[0]) case None => None case Some(next) => ParsePieces(next, pieces[1..])
  }

  function Parse(raw: string): Option<map<string, int>> {
    var pieces := Split(raw, ',');
    ParsePieces(map[], pieces[..|pieces| - 1])
  }

  /** The parser's loop over the pieces. */
  method ParseInspectOutput(raw: string) returns (r: Option<map<string, int>>)
    ensures r == Parse(raw)
  {
    var pieces := Split(raw, ',');
    pieces := pieces[..|pieces| - 1];
    var m: map<string, int> := map[];
    for n := 0 to |pieces|
      invariant ParsePieces(m, pieces[n..]) == ParsePieces(map[], pieces)
    {
      assert pieces[n..][0] == pieces[n] && pieces[n..][1..] == pieces[n + 1..];
      var next := ParseOne(m, pieces[n]);
      if next.None? {
        return None;
      }
      m := next.value;
    }
    return Some(m);
  }

  // ----- round trip -----

  predicate KeyOk(key: string) {
    ',' !in key && ':' !in key && '"' !in key
  }

  ghost predicate PortsOk(ports: seq<Port>) {
    && (forall i :: 0 <= i < |ports| ==> KeyOk(ports[i].key))
    && (forall i, j :: 0 <= i < j < |ports| ==> ports[i].key != ports[j].key)
  }

  /** One piece per port with one binding. */
  function Piece(key: string, port: HostPort): string {
    Label(key) + Bound(port)
  }

  lemma AtoiDecimal(n: HostPort)
    ensures Atoi(Decimal(n)) == Some(n)
  {
    DecimalRoundTrip(n);
    assert '0' <= Decimal(n)[0] <= '9';
  }

  lemma DigitsClean(n: HostPort)
    ensures '"' !in Decimal(n) && ',' !in Decimal(n) && ':' !in Decimal(n) && Decimal(n) != ""
  {
    DecimalRoundTrip(n);
  }

  lemma TrimQuotes(s: string, cut: set<char>)
    requires '"' in cut && forall c :: c in cut ==> c !in s
    ensures Trim("\"" + s + "\"", cut) == s
  {
    var q := "\"" + s + "\"";
    assert q[1..] == s + "\"";
    if s == "" {
      assert q[1..] == "\"" && "\""[1..] == "";
      assert TrimLeft("", cut) == "" && TrimLeft("\"", cut) == "";
    } else {
      assert s[0] in s && s[|s| - 1] in s;
      assert TrimLeft(q, cut) == s + "\"";
      assert (s + "\"")[..|s|] == s;
      assert TrimRight(s + "\"", cut) == TrimRight(s, cut) == s;
    }
  }

  lemma ParsePiece(m: map<string, int>, key: string, port: HostPort)
    requires KeyOk(key) && key !in m
    ensures ParseOne(m, Piece(key, port)) == Some(m[key := port])
    ensures ',' !in Piece(key, port)
  {
    var a, b := "\"" + key + "\"", "\"" + Decimal(port) + "\"";
    DigitsClean(port);
    assert Label(key) == a + ":";
    assert Piece(key, port) == a + ":" + b;
    SplitConcat(a, ':', b);
    SplitPlain(a, ':');
    SplitPlain(b, ':');
    TrimQuotes(key, {'"'});
    TrimQuotes(Decimal(port), {'"', ','});
    AtoiDecimal(port);
  }

  // ----- exactly which outputs can be read -----

  /** Ports with one binding, then only ports without any. */
  predicate Legible(ports: seq<Port>) {
    || (forall i :: 0 <= i < |ports| ==> ports[i].bindings == [])
    || (|ports[0].bindings| == 1 && Legible(ports[1..]))
  }

  /** The host port of every port that has a binding. */
  function PortMap(ports: seq<Port>): map<string, int> {
    if ports == [] then map[]
    else if ports[0].bindings == [] then PortMap(ports[1..])
    else PortMap(ports[1..])[ports[0].key := ports[0].bindings[0]]
  }

  lemma {:induction false} SplitPrefix(a: string, s: string, sep: char)
    requires sep !in a
    ensures Split(a + s, sep) == [a + Split(s, sep)[0]] + Split(s, sep)[1..]
  {
    if a == "" {
      assert a + s == s && "" + Split(s, sep)[0] == Split(s, sep)[0];
    } else {
      assert a[0] in a && forall c :: c in a[1..] ==> c in a;
      SplitPrefix(a[1..], s, sep);
      SplitStep(a[0], a[1..] + s, sep);
      hide Split;
      assert a + s == [a[0]] + (a[1..] + s);
      assert [a[0]] + (a[1..] + Split(s, sep)[0]) == a + Split(s, sep)[0];
    }
  }

  lemma PrintUnboundHead(ports: seq<Port>)
    requires ports != [] && ports[0].bindings == []
    ensures Print(ports) == Label(ports[0].key) + Print(ports[1..])
  {
  }

  lemma PrintBoundHead(ports: seq<Port>)
    requires ports != [] && ports[0].bindings != []
    ensures var p := ports[0];
            Print(ports) == Piece(p.key, p.bindings[0]) + [','] + (PrintBindings(p.bindings[1..]) + Print(ports[1..]))
  {
    hide Label, Bound;
    var p := ports[0];
    var name, port, more, rest := Label(p.key), Bound(p.bindings[0]), PrintBindings(p.bindings[1..]), Print(ports[1..]);
    assert Print(ports) == name + (port + [','] + more) + rest;
    hide PrintBindings, Print;
    assert name + (port + [','] + more) + rest == name + port + [','] + (more + rest);
  }

  lemma LabelParts(key: string, s: string)
    requires KeyOk(key)
    ensures ',' !in Label(key) && |Split(Label(key) + s, ':')| == 1 + |Split(s, ':')|
  {
    var a := "\"" + key + "\"";
    assert ':' !in a;
    SplitPlain(a, ':');
    SplitConcat(a, ':', s);
    assert Label(key) + s == a + [':'] + s;
  }

  /** The text up to the first comma has one more colon than ports run together. */
  lemma {:induction false} FirstPiece(ports: seq<Port>)
    requires PortsOk(ports) && exists i :: 0 <= i < |ports| && ports[i].bindings != []
    ensures var pieces := Split(Print(ports), ',');
            && |pieces| >= 2 && |Split(pieces[0], ':')| >= 2
            && (ports[0].bindings == [] ==> |Split(pieces[0], ':')| >= 3)
  {
    var p, rest := ports[0], ports[1..];
    if p.bindings == [] {
      PrintUnboundHead(ports);
      var i :| 0 <= i < |ports| && ports[i].bindings != [];
      assert rest[i - 1] == ports[i];
      FirstPiece(rest);
      LabelParts(p.key, Split(Print(rest), ',')[0]);
      SplitPrefix(Label(p.key), Print(rest), ',');
    } else {
      PrintBoundHead(ports);
      ParsePiece(map[], p.key, p.bindings[0]);
      LabelParts(p.key, Bound(p.bindings[0]));
      assert Piece(p.key, p.bindings[0]) == Label(p.key) + Bound(p.bindings[0]);
      hide Decimal, Label, Bound, Piece;
      var head, tail := Piece(p.key, p.bindings[0]), PrintBindings(p.bindings[1..]) + Print(rest);
      SplitConcat(head, ',', tail);
      SplitPlain(head, ',');
    }
  }

  lemma {:induction false} PrintUnbound(ports: seq<Port>)
    requires PortsOk(ports) && forall i :: 0 <= i < |ports| ==> ports[i].bindings == []
    ensures ',' !in Print(ports) && PortMap(ports) == map[]
  {
    if ports != [] {
      PrintUnbound(ports[1..]);
      PrintUnboundHead(ports);
      LabelParts(ports[0].key, "");
    }
  }

  /** What the parser makes of the pieces of an output. */
  function ParseText(m: map<string, int>, raw: string): Option<map<string, int>> {
    var pieces := Split(raw, ',');
    ParsePieces(m, pieces[..|pieces| - 1])
  }

  lemma ParseNext(m: map<string, int>, head: string, tail: string)
    requires ',' !in head
    ensures ParseText(m, head + [','] + tail) ==
        match ParseOne(m, head) case None => None case Some(next) => ParseText(next, tail)
  {
    SplitConcat(head, ',', tail);
    SplitPlain(head, ',');
    hide Split, ParseOne;
    var pieces, more := Split(head + [','] + tail, ','), Split(tail, ',');
    assert pieces == [head] + more;
    assert pieces[..|pieces| - 1] == [head] + more[..|more| - 1];
    assert ([head] + more[..|more| - 1])[1..] == more[..|more| - 1];
  }

  /** An unbound port before a bound one runs into it. */
  lemma GluedFails(m: map<string, int>, ports: seq<Port>)
    requires PortsOk(ports) && ports != [] && ports[0].bindings == []
    requires exists i :: 0 <= i < |ports| && ports[i].bindings != []
    ensures ParseText(m, Print(ports)) == None && !Legible(ports)
  {
    FirstPiece(ports);
    hide Split, Print, PortsOk;
    SplitEmpty();
    FirstFails(m, Split(Print(ports), ','));
  }

  lemma FirstFails(m: map<string, int>, pieces: seq<string>)
    requires |pieces| >= 2 && |Split(pieces[0], ':')| >= 3
    ensures ParsePieces(m, pieces[..|pieces| - 1]) == None
  {
    SplitEmpty();
    hide Split, Trim, Atoi;
    assert pieces[..|pieces| - 1][0] == pieces[0];
    assert ParseOne(m, pieces[0]) == None;
    hide ParseOne;
  }

  lemma {:induction false} ParsePorts(m: map<string, int>, ports: seq<Port>)
    requires PortsOk(ports) && forall i :: 0 <= i < |ports| ==> ports[i].key !in m
    ensures ParseText(m, Print(ports)) == if Legible(ports) then Some(m + PortMap(ports)) else None
    decreases ports
  {
    hide Decimal, Split, KeyOk, ParseOne, Trim;
    if forall i :: 0 <= i < |ports| ==> ports[i].bindings == [] {
      PrintUnbound(ports);
      SplitPlain(Print(ports), ',');
      assert m + map[] == m;
    } else {
      var p, rest := ports[0], ports[1..];
      if p.bindings == [] {
        GluedFails(m, ports);
      } else {
        ParseBound(m, ports);
        var next := m[p.key := p.bindings[0]];
        hide Piece, Label, Bound, ParseText, Print;
        LegibleStep(ports);
        if |p.bindings| == 1 {
          assert forall i :: 0 <= i < |rest| ==> rest[i] == ports[i + 1];
          ParsePorts(next, rest);
          PutFirst(m, ports);
        }
      }
    }
  }

  lemma PutFirst(m: map<string, int>, ports: seq<Port>)
    requires PortsOk(ports) && ports != [] && ports[0].bindings != []
    ensures m[ports[0].key := ports[0].bindings[0]] + PortMap(ports[1..]) == m + PortMap(ports)
  {
    hide KeyOk;
    var rest := ports[1..];
    PortKeys(rest);
    assert forall i :: 0 <= i < |rest| ==> rest[i] == ports[i + 1];
    assert ports[0].key !in PortMap(rest);
  }

  /** A bound port is read, and then the rest, unless it has a second binding. */
  lemma ParseBound(m: map<string, int>, ports: seq<Port>)
    requires PortsOk(ports) && ports != [] && ports[0].bindings != [] && ports[0].key !in m
    ensures var next := m[ports[0].key := ports[0].bindings[0]];
            ParseText(m, Print(ports)) == if |ports[0].bindings| == 1 then ParseText(next, Print(ports[1..])) else None
  {
    hide Decimal, Split, ParseOne, Trim, Label, Bound;
    var p, rest := ports[0], Print(ports[1..]);
    var head, more := Piece(p.key, p.bindings[0]), PrintBindings(p.bindings[1..]);
    PrintBoundHead(ports);
    ParsePiece(m, p.key, p.bindings[0]);
    ParseNext(m, head, more + rest);
    if |p.bindings| == 1 {
      assert more + rest == rest;
    } else {
      SecondBinding(m[p.key := p.bindings[0]], p.bindings[1..], rest);
    }
    hide ParseText, Print, Piece;
  }

  lemma SplitEmpty()
    ensures |Split("", ':')| == 1
  {
  }

  lemma LegibleStep(ports: seq<Port>)
    requires ports != [] && ports[0].bindings != []
    ensures Legible(ports) <==> |ports[0].bindings| == 1 && Legible(ports[1..])
  {
  }

  lemma {:induction false} PortKeys(ports: seq<Port>)
    ensures forall k :: k in PortMap(ports) ==> exists i :: 0 <= i < |ports| && ports[i].key == k
  {
    if ports != [] {
      PortKeys(ports[1..]);
      forall k | k in PortMap(ports[1..]) ensures exists i :: 0 <= i < |ports| && ports[i].key == k {
        var i :| 0 <= i < |ports[1..]| && ports[1..][i].key == k;
        assert ports[i + 1].key == k;
      }
    }
  }

  lemma SecondBinding(m: map<string, int>, bs: seq<HostPort>, rest: string)
    requires bs != []
    ensures ParseText(m, PrintBindings(bs) + rest) == None
  {
    DigitsClean(bs[0]);
    var head, more := Bound(bs[0]), PrintBindings(bs[1..]);
    assert ',' !in head && ':' !in head && head != "";
    hide Decimal, Bound;
    assert PrintBindings(bs) == head + [','] + more;
    hide PrintBindings;
    assert head + [','] + more + rest == head + [','] + (more + rest);
    ParseNext(m, head, more + rest);
    SplitPlain(head, ':');
    hide ParseText, ParsePieces, Split;
  }

  /** For any ports with distinct keys: the output is read exactly when the
      ports with bindings have one each and come before those without, and what
      is read is then the map of the bound ports. Two bindings of one port, or
      an unbound port before a bound one, make the whole output unreadable. */
  lemma PortsLegible(ports: seq<Port>)
    requires PortsOk(ports)
    ensures Parse(Print(ports)) == if Legible(ports) then Some(PortMap(ports)) else None
  {
    ParsePorts(map[], ports);
    assert map[] + PortMap(ports) == PortMap(ports);
  }

  lemma {:induction false} PortMapAt(ports: seq<Port>)
    requires PortsOk(ports)
    ensures forall i :: 0 <= i < |ports| && ports[i].bindings != [] ==>
              ports[i].key in PortMap(ports) && PortMap(ports)[ports[i].key] == ports[i].bindings[0]
  {
    if ports != [] {
      var rest := ports[1..];
      assert forall i :: 0 <= i < |rest| ==> rest[i] == ports[i + 1];
      PortMapAt(rest);
      forall i | 1 <= i < |ports| && ports[i].bindings != []
        ensures ports[i].key in PortMap(ports) && PortMap(ports)[ports[i].key] == ports[i].bindings[0]
      {
        assert rest[i - 1] == ports[i];
      }
    }
  }

  /** With one binding per port, reading the output gives the port map back. */
  lemma PortsRoundTrip(ports: seq<Port>)
    requires PortsOk(ports) && forall i :: 0 <= i < |ports| ==> |ports[i].bindings| == 1
    ensures var r := Parse(Print(ports));
            && r.Some? && (forall k :: k in r.value ==> exists i :: 0 <= i < |ports| && ports[i].key == k)
            && forall i :: 0 <= i < |ports| ==> ports[i].key in r.value && r.value[ports[i].key] == ports[i].bindings[0]
  {
    AllLegible(ports);
    PortsLegible(ports);
    PortKeys(ports);
    PortMapAt(ports);
  }

  lemma {:induction false} AllLegible(ports: seq<Port>)
    requires forall i :: 0 <= i < |ports| ==> |ports[i].bindings| == 1
    ensures Legible(ports)
  {
    if ports != [] {
      AllLegible(ports[1..]);
    }
  }
}
