/** Strings as the program uses them: cutset trimming, ASCII case folding,
    splitting and joining on one separator character. */
module Text {

  datatype Option<+T> = None | Some(value: T)

  const SPACES: set<char> := {' ', '\t', '\n', '\U{0B}', '\U{0C}', '\r'}

  function TrimLeft(s: string, cut: set<char>): string {
    if s != "" && s[0] in cut then TrimLeft(s[1..], cut) else s
  }

  function TrimRight(s: string, cut: set<char>): string {
    if s != "" && s[|s| - 1] in cut then TrimRight(s[..|s| - 1], cut) else s
  }

  function TrimSpace(s: string): string {
    TrimRight(TrimLeft(s, SPACES), SPACES)
  }

  /** No space at either end. */
  predicate Trimmed(s: string) {
    s == "" || (s[0] !in SPACES && s[|s| - 1] !in SPACES)
  }

  function LowerChar(c: char): char {
    if 'A' <= c <= 'Z' then c - 'A' + 'a' else c
  }

  function Lower(s: string): (r: string)
    ensures |r| == |s|
  {
    seq(|s|, i requires 0 <= i < |s| => LowerChar(s[i]))
  }

  predicate HasPrefix(s: string, prefix: string) {
    prefix <= s
  }

  function Split(s: string, sep: char): (parts: seq<string>)
    ensures |parts| >= 1
  {
    if s == "" then [""] else Push(s[0], Split(s[1..], sep), sep)
  }

  /** The parts of a string one character longer at the front. */
  function Push(c: char, parts: seq<string>, sep: char): seq<string>
    requires parts != []
  {
    if c == sep then [""] + parts else [[c] + parts[0]] + parts[1..]
  }

  function Join(parts: seq<string>, sep: char): string {
    if parts == [] then ""
    else if |parts| == 1 then parts[0]
    else parts[0] + [sep] + Join(parts[1..], sep)
  }

  // ----- trimming -----

  // ----- trimming -----

  lemma {:induction false} TrimLeftSuffix(s: string, cut: set<char>)
    ensures |TrimLeft(s, cut)| <= |s|
    ensures TrimLeft(s, cut) == s[|s| - |TrimLeft(s, cut)|..]
    ensures forall i :: 0 <= i < |s| - |TrimLeft(s, cut)| ==> s[i] in cut
    ensures TrimLeft(s, cut) == "" || TrimLeft(s, cut)[0] !in cut
  {
    if s != "" && s[0] in cut {
      TrimLeftSuffix(s[1..], cut);
      assert forall i :: 1 <= i < |s| ==> s[i] == s[1..][i - 1];
    }
  }

  lemma {:induction false} TrimRightPrefix(s: string, cut: set<char>)
    ensures TrimRight(s, cut) <= s
    ensures forall i :: |TrimRight(s, cut)| <= i < |s| ==> s[i] in cut
    ensures TrimRight(s, cut) == "" || TrimRight(s, cut)[|TrimRight(s, cut)| - 1] !in cut
  {
    if s != "" && s[|s| - 1] in cut {
      TrimRightPrefix(s[..|s| - 1], cut);
    }
  }

  /** Trimming leaves exactly the strings without outer spaces fixed. */
  lemma TrimSpaceFixed(s: string)
    ensures Trimmed(TrimSpace(s))
    ensures TrimSpace(s) == s <==> Trimmed(s)
    ensures TrimSpace(TrimSpace(s)) == TrimSpace(s)
  {
    var l := TrimLeft(s, SPACES);
    TrimLeftSuffix(s, SPACES);
    TrimRightPrefix(l, SPACES);
    var t := TrimSpace(s);
    assert t <= l;
    assert t != "" ==> t[0] == l[0];
    assert Trimmed(s) ==> TrimLeft(s, SPACES) == s;
    assert Trimmed(t) ==> TrimLeft(t, SPACES) == t;
  }

  lemma LowerFacts(s: string)
    ensures Lower(Lower(s)) == Lower(s)
    ensures Trimmed(s) ==> Trimmed(Lower(s))
    ensures Lower(s) == "" <==> s == ""
  {
  }

  /** What trimming means: the text is spaces, a trimmed middle, and spaces. */
  ghost predicate Framed(s: string, a: string, t: string, b: string) {
    && s == a + t + b && Trimmed(t)
    && (forall i :: 0 <= i < |a| ==> a[i] in SPACES) && forall i :: 0 <= i < |b| ==> b[i] in SPACES
  }

  /** The middle is what trimming gives, and nothing else is a middle. */
  lemma TrimSpaceMeaning(s: string)
    ensures exists a, b :: Framed(s, a, TrimSpace(s), b)
    ensures forall a, t, b :: Framed(s, a, t, b) ==> t == TrimSpace(s)
  {
    var l := TrimLeft(s, SPACES);
    TrimLeftSuffix(s, SPACES);
    TrimRightPrefix(l, SPACES);
    TrimSpaceFixed(s);
    var t := TrimSpace(s);
    var a, b := s[..|s| - |l|], l[|t|..];
    assert Framed(s, a, t, b);
    hide TrimSpace;
    forall c, u, d | Framed(s, c, u, d) ensures u == t {
      SameMiddle(s, a, t, b, c, u, d);
    }
  }

  lemma SameMiddle(s: string, a: string, t: string, b: string, c: string, u: string, d: string)
    requires Framed(s, a, t, b) && Framed(s, c, u, d)
    ensures t == u
  {
    if t == "" {
      EmptyMiddle(s, a, b, c, u, d);
    } else if u == "" {
      EmptyMiddle(s, c, d, a, t, b);
    } else {
      assert s[|a|] == t[0] && s[|c|] == u[0];
      assert forall i :: 0 <= i < |a| ==> s[i] == a[i];
      assert forall i :: 0 <= i < |c| ==> s[i] == c[i];
      assert |a| == |c|;
      var m, n := |a| + |t|, |c| + |u|;
      assert s[m - 1] == t[|t| - 1] && s[n - 1] == u[|u| - 1];
      assert forall i :: m <= i < |s| ==> s[i] == b[i - m];
      assert forall i :: n <= i < |s| ==> s[i] == d[i - n];
      assert m == n;
      assert t == s[|a|..m] && u == s[|c|..n];
    }
  }

  lemma EmptyMiddle(s: string, a: string, b: string, c: string, u: string, d: string)
    requires Framed(s, a, "", b) && Framed(s, c, u, d)
    ensures u == ""
  {
    assert forall i :: 0 <= i < |u| ==> s[|c| + i] == u[i];
    assert forall i :: 0 <= i < |s| ==> s[i] == if i < |a| then a[i] else b[i - |a|];
  }

  /** Exactly the texts of spaces trim to nothing. */
  lemma BlankText(s: string)
    ensures TrimSpace(s) == "" <==> forall i :: 0 <= i < |s| ==> s[i] in SPACES
  {
    TrimSpaceMeaning(s);
    var a, b :| Framed(s, a, TrimSpace(s), b);
    assert TrimSpace(s) == "" ==> forall i :: 0 <= i < |s| ==> s[i] == if i < |a| then a[i] else b[i - |a|];
    hide TrimSpace;
    if forall i :: 0 <= i < |s| ==> s[i] in SPACES {
      assert s + "" + "" == s;
      assert Framed(s, s, "", "");
    }
  }

  /** Lower case: no capital is left, capitals move by 32, the rest stays. */
  lemma LowerMeaning(s: string, i: nat)
    requires i < |s|
    ensures var c, d := s[i], Lower(s)[i];
            !('A' <= d <= 'Z') && if 'A' <= c <= 'Z' then d as int == c as int + 32 else d == c
  {
  }

  // ----- splitting -----

  lemma {:induction false} SplitParts(s: string, sep: char)
    ensures forall i :: 0 <= i < |Split(s, sep)| ==> sep !in Split(s, sep)[i]
  {
    if s != "" {
      SplitParts(s[1..], sep);
    }
  }

  lemma {:induction false} JoinSplit(s: string, sep: char)
    ensures Join(Split(s, sep), sep) == s
  {
    if s != "" {
      JoinSplit(s[1..], sep);
      var rest := Split(s[1..], sep);
      if s[0] == sep {
        assert ([""] + rest)[1..] == rest;
        assert Join([""] + rest, sep) == "" + [sep] + Join(rest, sep);
        assert s == [sep] + s[1..];
      } else {
        var parts := [[s[0]] + rest[0]] + rest[1..];
        if |rest| > 1 {
          assert parts[1..] == rest[1..];
          assert Join(parts, sep) == [s[0]] + (rest[0] + [sep] + Join(rest[1..], sep));
        }
        assert s == [s[0]] + s[1..];
      }
    }
  }

  lemma {:induction false} SplitPlain(s: string, sep: char)
    requires sep !in s
    ensures Split(s, sep) == [s]
  {
    if s != "" {
      assert s[0] in s;
      assert forall c :: c in s[1..] ==> c in s;
      SplitPlain(s[1..], sep);
      assert [s[0]] + s[1..] == s;
    }
  }

  lemma PushConcat(c: char, ps: seq<string>, qs: seq<string>, sep: char)
    requires ps != []
    ensures Push(c, ps + qs, sep) == Push(c, ps, sep) + qs
  {
    assert (ps + qs)[0] == ps[0] && (ps + qs)[1..] == ps[1..] + qs;
  }

  lemma SplitStep(c: char, s: string, sep: char)
    ensures Split([c] + s, sep) == Push(c, Split(s, sep), sep)
  {
    assert ([c] + s)[1..] == s;
  }

  lemma {:induction false} SplitConcat(a: string, sep: char, b: string)
    ensures Split(a + [sep] + b, sep) == Split(a, sep) + Split(b, sep)
  {
    if a == "" {
      assert a + [sep] + b == [sep] + b;
      SplitStep(sep, b, sep);
    } else {
      var tail := a[1..];
      calc {
        Split(a + [sep] + b, sep);
        { assert a + [sep] + b == [a[0]] + (tail + [sep] + b); }
        Split([a[0]] + (tail + [sep] + b), sep);
        { SplitStep(a[0], tail + [sep] + b, sep); }
        Push(a[0], Split(tail + [sep] + b, sep), sep);
        { SplitConcat(tail, sep, b); }
        Push(a[0], Split(tail, sep) + Split(b, sep), sep);
        { PushConcat(a[0], Split(tail, sep), Split(b, sep), sep); }
        Push(a[0], Split(tail, sep), sep) + Split(b, sep);
        { SplitStep(a[0], tail, sep); assert a == [a[0]] + tail; }
        Split(a, sep) + Split(b, sep);
      }
    }
  }

  lemma {:induction false} SplitJoin(parts: seq<string>, sep: char)
    requires parts != []
    requires forall i :: 0 <= i < |parts| ==> sep !in parts[i]
    ensures Split(Join(parts, sep), sep) == parts
  {
    SplitPlain(parts[0], sep);
    if |parts| > 1 {
      SplitJoin(parts[1..], sep);
      SplitConcat(parts[0], sep, Join(parts[1..], sep));
      assert [parts[0]] + parts[1..] == parts;
    }
  }

  lemma {:induction false} JoinConcat(a: seq<string>, b: seq<string>, sep: char)
    requires a != [] && b != []
    ensures Join(a + b, sep) == Join(a, sep) + [sep] + Join(b, sep)
  {
    if |a| == 1 {
      assert (a + b)[1..] == b;
    } else {
      assert (a + b)[1..] == a[1..] + b;
      JoinConcat(a[1..], b, sep);
      assert Join(a + b, sep) == a[0] + [sep] + (Join(a[1..], sep) + [sep] + Join(b, sep));
    }
  }

  // ----- replacing -----

  function ReplaceAll(s: string, c: char, r: string): string {
    if s == "" then "" else (if s[0] == c then r else [s[0]]) + ReplaceAll(s[1..], c, r)
  }

  lemma {:induction false} ReplaceConcat(a: string, b: string, c: char, r: string)
    ensures ReplaceAll(a + b, c, r) == ReplaceAll(a, c, r) + ReplaceAll(b, c, r)
  {
    if a == "" {
      assert a + b == b;
    } else {
      assert (a + b)[1..] == a[1..] + b;
      ReplaceConcat(a[1..], b, c, r);
    }
  }
}
