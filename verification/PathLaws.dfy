/** What lexical cleaning means, told without its algorithm: which segments
    vanish, and which relative paths climb out of where they start. */
module PathLaws {
  import opened Text
  import opened Paths

  // ----- laws of cleaning -----

  /** What follows sees only what cleaning left so far. */
  lemma {:induction false} CleanFrom(rooted: bool, a: seq<string>, c: seq<string>, b: seq<string>)
    requires CleanSegs(rooted, a) == CleanSegs(rooted, c)
    ensures CleanSegs(rooted, a + b) == CleanSegs(rooted, c + b)
  {
    if b == [] {
      assert a + b == a && c + b == c;
    } else {
      var init := b[..|b| - 1];
      CleanFrom(rooted, a, c, init);
      assert (a + b)[..|a + b| - 1] == a + init && (c + b)[..|c + b| - 1] == c + init;
    }
  }

  lemma CleanSnoc(rooted: bool, a: seq<string>, x: string)
    ensures CleanSegs(rooted, a + [x]) == Step(rooted, CleanSegs(rooted, a), x)
  {
    assert (a + [x])[..|a|] == a;
  }

  /** Empty segments and "." vanish, wherever they stand. */
  lemma Vanishing(rooted: bool, a: seq<string>, x: string, b: seq<string>)
    requires x == "" || x == "."
    ensures CleanSegs(rooted, a + [x] + b) == CleanSegs(rooted, a + b)
  {
    CleanSnoc(rooted, a, x);
    CleanFrom(rooted, a + [x], a, b);
  }

  /** A plain segment followed by ".." vanishes with it, wherever they stand. */
  lemma TakenBack(rooted: bool, a: seq<string>, x: string, b: seq<string>)
    requires Plain(x)
    ensures CleanSegs(rooted, a + [x, ".."] + b) == CleanSegs(rooted, a + b)
  {
    CleanSnoc(rooted, a, x);
    CleanSnoc(rooted, a + [x], "..");
    assert a + [x] + [".."] == a + [x, ".."];
    var c := CleanSegs(rooted, a);
    assert (c + [x])[..|c|] == c;
    CleanFrom(rooted, a + [x, ".."], a, b);
  }

  /** A leading ".." vanishes below the root, and stays in a relative path,
      along with plain segments. */
  lemma Leading(a: seq<string>, b: seq<string>)
    ensures CleanSegs(true, [".."] + b) == CleanSegs(true, b)
    ensures Cleaned(false, a) ==> CleanSegs(false, a) == a
  {
    assert CleanSegs(true, []) == [];
    CleanSnoc(true, [], "..");
    assert [] + [".."] == [".."] && [] + b == b;
    CleanFrom(true, [".."], [], b);
    if Cleaned(false, a) {
      CleanSegsFixed(false, a);
    }
  }

  // ----- climbing out -----

  /** Plain segments minus "..", the other segments not counting. */
  function Depth(segs: seq<string>): int {
    if segs == [] then 0
    else
      var x := segs[|segs| - 1];
      Depth(segs[..|segs| - 1]) + (if x == ".." then -1 else if x == "" || x == "." then 0 else 1)
  }

  /** Some beginning of the path has more ".." than plain segments. */
  ghost predicate Climbs(segs: seq<string>) {
    exists i :: 0 <= i <= |segs| && Depth(segs[..i]) < 0
  }

  lemma ClimbsSnoc(segs: seq<string>)
    requires segs != []
    ensures Climbs(segs) <==> Climbs(segs[..|segs| - 1]) || Depth(segs) < 0
  {
    var init := segs[..|segs| - 1];
    assert segs[..|segs|] == segs;
    if i :| 0 <= i <= |init| && Depth(init[..i]) < 0 {
      assert segs[..i] == init[..i];
    }
    if i :| 0 <= i <= |segs| && Depth(segs[..i]) < 0 {
      assert i < |segs| ==> segs[..i] == init[..i];
    }
  }

  /** The segments that no later ".." takes back, read from the right with the
      number of ".." still to be answered. */
  function Survivors(segs: seq<string>, ups: nat): seq<string> {
    if segs == [] then []
    else
      var init, x := segs[..|segs| - 1], segs[|segs| - 1];
      if x == ".." then Survivors(init, ups + 1)
      else if x == "" || x == "." then Survivors(init, ups)
      else if ups > 0 then Survivors(init, ups - 1)
      else Survivors(init, 0) + [x]
  }

  /** A relative path that climbs out starts with "..". One that does not is
      cleaned to as many plain segments as its depth says. */
  lemma {:induction false} CleanDepth(segs: seq<string>)
    requires forall i :: 0 <= i < |segs| ==> SEP !in segs[i]
    ensures var c := CleanSegs(false, segs);
            if Climbs(segs) then c != [] && c[0] == ".."
            else |c| == Depth(segs) && forall i :: 0 <= i < |c| ==> Plain(c[i])
  {
    if segs == [] {
      assert forall i :: 0 <= i <= |segs| ==> segs[..i] == [];
    } else {
      ClimbsSnoc(segs);
      CleanDepth(segs[..|segs| - 1]);
      hide Climbs;
    }
  }

  /** What cleaning leaves of a path that does not climb out: the survivors. */
  lemma {:induction false} CleanSurvivors(segs: seq<string>, ups: nat)
    requires (forall i :: 0 <= i < |segs| ==> SEP !in segs[i]) && !Climbs(segs) && ups <= Depth(segs)
    ensures var c := CleanSegs(false, segs); |c| == Depth(segs) && Survivors(segs, ups) == c[..|c| - ups]
  {
    CleanDepth(segs);
    if segs != [] {
      var init, x := segs[..|segs| - 1], segs[|segs| - 1];
      ClimbsSnoc(segs);
      CleanDepth(init);
      hide Climbs;
      if x == ".." {
        CleanSurvivors(init, ups + 1);
      } else if x == "" || x == "." {
        CleanSurvivors(init, ups);
      } else if ups > 0 {
        CleanSurvivors(init, ups - 1);
      } else {
        CleanSurvivors(init, 0);
      }
    }
  }

  /** Cleaning a relative path, exactly. */
  lemma CleanExactly(p: string)
    requires !Rooted(p)
    ensures var segs := Split(p, SEP);
            && (Climbs(segs) ==> Clean(p) == ".." || HasPrefix(Clean(p), "../"))
            && (!Climbs(segs) ==> Clean(p) == if Survivors(segs, 0) == [] then "." else Join(Survivors(segs, 0), SEP))
            && (!Climbs(segs) ==> |Survivors(segs, 0)| == Depth(segs) && AllPlain(Survivors(segs, 0)))
  {
    var segs := Split(p, SEP);
    SplitParts(p, SEP);
    CleanDepth(segs);
    if Climbs(segs) {
      UpText(CleanSegs(false, segs));
    } else {
      CleanSurvivors(segs, 0);
      var c := CleanSegs(false, segs);
      assert c[..|c|] == c;
    }
  }

  lemma UpText(c: seq<string>)
    requires c != [] && c[0] == ".."
    ensures var p := Join(c, SEP); p == ".." || HasPrefix(p, "../")
  {
    if |c| > 1 {
      var p := Join(c, SEP);
      assert p == ".." + [SEP] + Join(c[1..], SEP);
      assert p[..3] == "../";
    }
  }
}
