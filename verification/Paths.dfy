/** Lexical slash-separated paths: cleaning, joining and relative paths, as the
    standard path library defines them on strings. */
module Paths {
  import opened Text

  const SEP := '/'

  /** An ordinary path segment. */
  predicate Plain(seg: string) {
    seg != "" && seg != "." && seg != ".." && SEP !in seg
  }

  predicate Rooted(p: string) {
    p != "" && p[0] == SEP
  }

  /** One more segment: empty and "." vanish, ".." takes back a plain segment. */
  function Step(rooted: bool, out: seq<string>, seg: string): seq<string> {
    if seg == "" || seg == "." then out
    else if seg == ".." then
      if out != [] && out[|out| - 1] != ".." then out[..|out| - 1]
      else if rooted then out
      else out + [seg]
    else out + [seg]
  }

  function CleanSegs(rooted: bool, segs: seq<string>): seq<string> {
    if segs == [] then [] else Step(rooted, CleanSegs(rooted, segs[..|segs| - 1]), segs[|segs| - 1])
  }

  function Render(rooted: bool, segs: seq<string>): string {
    if rooted then [SEP] + Join(segs, SEP) else if segs == [] then "." else Join(segs, SEP)
  }

  /** The segments of a path after cleaning. */
  function Segs(p: string): seq<string> {
    CleanSegs(Rooted(p), Split(p, SEP))
  }

  function Clean(p: string): string {
    Render(Rooted(p), Segs(p))
  }

  function JoinPaths(elems: seq<string>): string {
    if elems == [] then ""
    else if elems[0] == "" then JoinPaths(elems[1..])
    else Clean(Join(elems, SEP))
  }

  function Common(a: seq<string>, b: seq<string>): (n: nat)
    ensures n <= |a| && n <= |b|
  {
    if a != [] && b != [] && a[0] == b[0] then 1 + Common(a[1..], b[1..]) else 0
  }

  function Ups(n: nat): seq<string> {
    seq(n, i => "..")
  }

  /** The path from base to target, when it can be told lexically. */
  function Rel(base: string, target: string): Option<string> {
    var b, t := Segs(base), Segs(target);
    if Clean(base) == Clean(target) then Some(".")
    else if Rooted(base) != Rooted(target) then None
    else
      var n := Common(b, t);
      if n < |b| && b[n] == ".." then None
      else Some(Join(Ups(|b| - n) + t[n..], SEP))
  }

  // ----- cleaned segment lists -----

  /** What cleaning leaves: leading ".." (relative paths only), then plain segments. */
  predicate Cleaned(rooted: bool, segs: seq<string>) {
    forall i :: 0 <= i < |segs| ==>
      Plain(segs[i]) || (segs[i] == ".." && !rooted && forall j :: 0 <= j < i ==> segs[j] == "..")
  }

  lemma {:induction false} CleanSegsCleaned(rooted: bool, segs: seq<string>)
    requires forall i :: 0 <= i < |segs| ==> SEP !in segs[i]
    ensures Cleaned(rooted, CleanSegs(rooted, segs))
  {
    if segs != [] {
      CleanSegsCleaned(rooted, segs[..|segs| - 1]);
    }
  }

  lemma {:induction false} CleanSegsFixed(rooted: bool, segs: seq<string>)
    requires Cleaned(rooted, segs)
    ensures CleanSegs(rooted, segs) == segs
  {
    if segs != [] {
      CleanSegsFixed(rooted, segs[..|segs| - 1]);
    }
  }

  /** Plain segments after anything are kept. */
  lemma {:induction false} CleanSegsAppend(rooted: bool, segs: seq<string>, more: seq<string>)
    requires forall i :: 0 <= i < |more| ==> Plain(more[i])
    ensures CleanSegs(rooted, segs + more) == CleanSegs(rooted, segs) + more
  {
    if more == [] {
      assert segs + more == segs;
    } else {
      assert (segs + more)[..|segs + more| - 1] == segs + more[..|more| - 1];
      CleanSegsAppend(rooted, segs, more[..|more| - 1]);
    }
  }

  /** An empty first segment (a leading slash) does not matter. */
  lemma {:induction false} CleanSegsLeading(rooted: bool, segs: seq<string>)
    ensures CleanSegs(rooted, [""] + segs) == CleanSegs(rooted, segs)
  {
    if segs == [] {
      assert [""] + segs == [""];
      assert [""][..0] == [];
    } else {
      assert ([""] + segs)[..|segs|] == [""] + segs[..|segs| - 1];
      CleanSegsLeading(rooted, segs[..|segs| - 1]);
    }
  }

  lemma JoinFirst(segs: seq<string>)
    requires segs != [] && segs[0] != ""
    ensures Join(segs, SEP) != "" && Join(segs, SEP)[0] == segs[0][0]
  {
  }

  /** Reading back a rendered path. */
  lemma RenderSegs(rooted: bool, segs: seq<string>)
    requires Cleaned(rooted, segs) && segs != []
    ensures var p := Render(rooted, segs);
            p != "" && Rooted(p) == rooted && Split(p, SEP) == (if rooted then [""] else []) + segs && Segs(p) == segs
  {
    JoinFirst(segs);
    SplitJoin(segs, SEP);
    if rooted {
      SplitConcat("", SEP, Join(segs, SEP));
      assert "" + [SEP] + Join(segs, SEP) == Render(true, segs);
      CleanSegsLeading(true, segs);
    } else {
      assert segs[0][0] in segs[0];
      assert [] + segs == segs;
    }
    CleanSegsFixed(rooted, segs);
  }

  /** Cleaning is idempotent on every path. */
  lemma CleanIdempotent(p: string)
    ensures Clean(Clean(p)) == Clean(p)
  {
    SplitParts(p, SEP);
    CleanSegsCleaned(Rooted(p), Split(p, SEP));
    if Segs(p) != [] {
      RenderSegs(Rooted(p), Segs(p));
    } else if Rooted(p) {
      SplitConcat("", SEP, "");
      assert "" + [SEP] + "" == "/" == Clean(p);
      assert Split("", SEP) == [""];
      assert Split("/", SEP) == ["", ""];
      assert ["", ""][..1] == [""] && [""][..0] == [];
    } else {
      SplitPlain(".", SEP);
      assert ["."][..0] == [];
    }
  }

  ghost predicate AllPlain(segs: seq<string>) {
    forall i :: 0 <= i < |segs| ==> Plain(segs[i])
  }

  lemma RenderBelow(rooted: bool, dir: seq<string>, segs: seq<string>)
    requires dir != [] && segs != []
    ensures Render(rooted, dir + segs) == Render(rooted, dir) + [SEP] + Join(segs, SEP)
  {
    hide Join;
    JoinConcat(dir, segs, SEP);
  }

  lemma CleanedBelow(rooted: bool, dir: seq<string>, segs: seq<string>)
    requires Cleaned(rooted, dir) && AllPlain(segs)
    ensures Cleaned(rooted, dir + segs)
  {
  }

  /** Plain segments below a cleaned directory: joining appends them. */
  lemma JoinBelow(rooted: bool, dir: seq<string>, segs: seq<string>)
    requires Cleaned(rooted, dir) && dir != [] && segs != [] && AllPlain(segs)
    ensures JoinPaths([Render(rooted, dir)] + segs) == Render(rooted, dir + segs)
  {
    var d := Render(rooted, dir);
    RenderSegs(rooted, dir);
    RenderBelow(rooted, dir, segs);
    CleanedBelow(rooted, dir, segs);
    RenderSegs(rooted, dir + segs);
    assert ([d] + segs)[1..] == segs;
    assert Join([d] + segs, SEP) == d + [SEP] + Join(segs, SEP);
    hide Join, Segs, Rooted;
  }

  lemma {:induction false} CommonPrefix(a: seq<string>, b: seq<string>)
    ensures Common(a, a + b) == |a|
  {
    if a != [] {
      assert (a + b)[1..] == a[1..] + b;
      CommonPrefix(a[1..], b);
    }
  }

  /** From a directory to something below it. */
  lemma RelBelow(rooted: bool, dir: seq<string>, segs: seq<string>)
    requires Cleaned(rooted, dir) && dir != [] && segs != [] && AllPlain(segs)
    ensures Rel(Render(rooted, dir), Render(rooted, dir + segs)) == Some(Join(segs, SEP))
  {
    var d, p := Render(rooted, dir), Render(rooted, dir + segs);
    RenderSegs(rooted, dir);
    CleanedBelow(rooted, dir, segs);
    RenderSegs(rooted, dir + segs);
    RenderBelow(rooted, dir, segs);
    hide Join, Segs, Split, Rooted, Cleaned;
    assert Clean(d) == d && Clean(p) == p && |p| > |d|;
    CommonPrefix(dir, segs);
    assert Ups(0) + (dir + segs)[|dir|..] == segs;
  }
}
