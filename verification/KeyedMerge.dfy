/** One-pass merging of records by name.

    Several lists of the state store (projects, hosts, containers, registries)
    and the agent registry are repaired by the same loop: clean a record, drop
    it when its key is empty, merge it into the record already kept under that
    key, or append it. This module gives that loop's meaning twice, as the fold
    the loop computes and as grouping by key, and relates the two. */
module KeyedMerge {

  /** How one kind of record is repaired. */
  datatype Rules<!T> = Rules(clean: T -> T, key: T -> string, merge: (T, T) -> T)

  ghost predicate Lawful<T(!new)>(r: Rules<T>) {
    && (forall x :: r.clean(r.clean(x)) == r.clean(x))
    && (forall x, y :: r.key(x) == r.key(y) ==> r.key(r.merge(x, y)) == r.key(y))
    && (forall x, y :: IsClean(r, x) && IsClean(r, y) && r.key(x) == r.key(y) ==> IsClean(r, r.merge(x, y)))
    && (forall x, y, z :: r.merge(r.merge(x, y), z) == r.merge(x, r.merge(y, z)))
  }

  predicate IsClean<T(==)>(r: Rules<T>, x: T) {
    r.clean(x) == x
  }

  // ----- the fold -----

  /** Position of the first record under k, or |xs|. */
  function Find<T>(r: Rules<T>, xs: seq<T>, k: string): (i: nat)
    ensures i <= |xs|
    ensures i < |xs| ==> r.key(xs[i]) == k
    ensures forall j :: 0 <= j < i ==> r.key(xs[j]) != k
  {
    if xs == [] || r.key(xs[0]) == k then 0 else 1 + Find(r, xs[1..], k)
  }

  function Insert<T>(r: Rules<T>, acc: seq<T>, x: T): seq<T> {
    var i := Find(r, acc, r.key(x));
    if i < |acc| then acc[i := r.merge(acc[i], x)] else acc + [x]
  }

  /** Cleaned records with a key, in order. */
  function Live<T>(r: Rules<T>, xs: seq<T>): seq<T> {
    if xs == [] then []
    else
      var x := r.clean(xs[|xs| - 1]);
      Live(r, xs[..|xs| - 1]) + (if r.key(x) == "" then [] else [x])
  }

  function Merged<T>(r: Rules<T>, xs: seq<T>): seq<T> {
    if xs == [] then [] else Insert(r, Merged(r, xs[..|xs| - 1]), xs[|xs| - 1])
  }

  function Normal<T>(r: Rules<T>, xs: seq<T>): seq<T> {
    Merged(r, Live(r, xs))
  }

  // ----- grouping -----

  /** The distinct keys in order of first occurrence. */
  function Keys<T>(r: Rules<T>, xs: seq<T>): seq<string> {
    if xs == [] then []
    else
      var ks, k := Keys(r, xs[..|xs| - 1]), r.key(xs[|xs| - 1]);
      if k in ks then ks else ks + [k]
  }

  function Group<T>(r: Rules<T>, xs: seq<T>, k: string): seq<T> {
    if xs == [] then []
    else Group(r, xs[..|xs| - 1], k) + (if r.key(xs[|xs| - 1]) == k then [xs[|xs| - 1]] else [])
  }

  /** Merge of a non-empty group, oldest first. */
  function Fold<T>(r: Rules<T>, g: seq<T>): T
    requires g != []
  {
    if |g| == 1 then g[0] else r.merge(Fold(r, g[..|g| - 1]), g[|g| - 1])
  }

  ghost predicate Distinct(ks: seq<string>) {
    forall i, j :: 0 <= i < j < |ks| ==> ks[i] != ks[j]
  }

  /** No two records share a key. */
  ghost predicate DistinctKeys<T>(r: Rules<T>, xs: seq<T>) {
    forall i, j :: 0 <= i < j < |xs| ==> r.key(xs[i]) != r.key(xs[j])
  }

  /** xs has exactly the keys ks, in that order. */
  ghost predicate HasKeys<T>(r: Rules<T>, xs: seq<T>, ks: seq<string>) {
    |xs| == |ks| && forall i :: 0 <= i < |xs| ==> r.key(xs[i]) == ks[i]
  }

  lemma {:induction false} FindSnoc<T>(r: Rules<T>, xs: seq<T>, x: T, k: string)
    ensures Find(r, xs + [x], k) < |xs| + 1 <==> Find(r, xs, k) < |xs| || r.key(x) == k
  {
    var i, j := Find(r, xs, k), Find(r, xs + [x], k);
    assert forall n :: 0 <= n < |xs| ==> (xs + [x])[n] == xs[n];
    assert (xs + [x])[|xs|] == x;
    if j < |xs| {
      assert r.key(xs[j]) == k;
    }
    if i < |xs| {
      assert r.key((xs + [x])[i]) == k;
    }
  }

  lemma {:induction false} KeysFacts<T>(r: Rules<T>, xs: seq<T>)
    ensures Distinct(Keys(r, xs))
    ensures forall k :: k in Keys(r, xs) <==> Group(r, xs, k) != []
    ensures forall k :: k in Keys(r, xs) <==> Find(r, xs, k) < |xs|
  {
    if xs != [] {
      var init, x := xs[..|xs| - 1], xs[|xs| - 1];
      KeysFacts(r, init);
      hide Find;
      assert xs == init + [x];
      forall k ensures k in Keys(r, xs) <==> Find(r, xs, k) < |xs| {
        FindSnoc(r, init, x, k);
      }
    }
  }

  lemma GroupSnoc<T>(r: Rules<T>, xs: seq<T>, x: T, k: string)
    ensures Group(r, xs + [x], k) == if r.key(x) == k then Group(r, xs, k) + [x] else Group(r, xs, k)
  {
    assert (xs + [x])[..|xs|] == xs;
  }

  ghost predicate Grouped<T>(r: Rules<T>, xs: seq<T>, m: T) {
    var g := Group(r, xs, r.key(m));
    g != [] && m == Fold(r, g)
  }

  /** The fold keeps one record per key, in order of first occurrence, and the
      record kept is the merge of that key's records in order. */
  lemma {:induction false} MergedIsGrouped<T(!new)>(r: Rules<T>, xs: seq<T>)
    requires Lawful(r)
    ensures HasKeys(r, Merged(r, xs), Keys(r, xs))
    ensures forall i :: 0 <= i < |Merged(r, xs)| ==> Grouped(r, xs, Merged(r, xs)[i])
  {
    if xs != [] {
      var init, x := xs[..|xs| - 1], xs[|xs| - 1];
      assert xs == init + [x];
      MergedIsGrouped(r, init);
      KeysFacts(r, init);
      var acc, m := Merged(r, init), Merged(r, xs);
      var at := Find(r, acc, r.key(x));
      assert at < |acc| <==> r.key(x) in Keys(r, init);
      forall i | 0 <= i < |m| ensures Grouped(r, xs, m[i]) {
        GroupSnoc(r, init, x, r.key(m[i]));
        if i == at && at < |acc| {
          var g := Group(r, init, r.key(acc[i]));
          assert (g + [x])[..|g|] == g;
        } else if i < |acc| {
          assert Grouped(r, init, acc[i]);
        }
      }
    }
  }

  // ----- consequences -----

  lemma {:induction false} LiveFacts<T(!new)>(r: Rules<T>, xs: seq<T>)
    requires Lawful(r)
    ensures forall i :: 0 <= i < |Live(r, xs)| ==> IsClean(r, Live(r, xs)[i]) && r.key(Live(r, xs)[i]) != ""
  {
    if xs != [] {
      LiveFacts(r, xs[..|xs| - 1]);
    }
  }

  lemma {:induction false} LiveFixed<T(!new)>(r: Rules<T>, xs: seq<T>)
    requires forall i :: 0 <= i < |xs| ==> IsClean(r, xs[i]) && r.key(xs[i]) != ""
    ensures Live(r, xs) == xs
  {
    if xs != [] {
      LiveFixed(r, xs[..|xs| - 1]);
    }
  }

  lemma {:induction false} LiveConcat<T>(r: Rules<T>, xs: seq<T>, ys: seq<T>)
    ensures Live(r, xs + ys) == Live(r, xs) + Live(r, ys)
  {
    if ys == [] {
      assert xs + ys == xs;
    } else {
      var n := |ys| - 1;
      assert (xs + ys)[..|xs + ys| - 1] == xs + ys[..n];
      LiveConcat(r, xs, ys[..n]);
    }
  }

  lemma {:induction false} MergedFixed<T>(r: Rules<T>, xs: seq<T>)
    requires DistinctKeys(r, xs)
    ensures Merged(r, xs) == xs
  {
    if xs != [] {
      var init, x := xs[..|xs| - 1], xs[|xs| - 1];
      MergedFixed(r, init);
      assert xs == init + [x];
    }
  }

  lemma {:induction false} FoldClean<T(!new)>(r: Rules<T>, g: seq<T>, k: string)
    requires Lawful(r) && g != []
    requires forall i :: 0 <= i < |g| ==> IsClean(r, g[i]) && r.key(g[i]) == k
    ensures IsClean(r, Fold(r, g)) && r.key(Fold(r, g)) == k
  {
    if |g| > 1 {
      FoldClean(r, g[..|g| - 1], k);
    }
  }

  lemma {:induction false} GroupMembers<T(!new)>(r: Rules<T>, xs: seq<T>, k: string)
    ensures forall i :: 0 <= i < |Group(r, xs, k)| ==> Group(r, xs, k)[i] in xs && r.key(Group(r, xs, k)[i]) == k
  {
    if xs != [] {
      GroupMembers(r, xs[..|xs| - 1], k);
      assert forall x :: x in xs[..|xs| - 1] ==> x in xs;
    }
  }

  /** The repaired list: clean records, no empty key, no key twice. */
  lemma NormalFacts<T(!new)>(r: Rules<T>, xs: seq<T>)
    requires Lawful(r)
    ensures DistinctKeys(r, Normal(r, xs))
    ensures forall i :: 0 <= i < |Normal(r, xs)| ==> IsClean(r, Normal(r, xs)[i]) && r.key(Normal(r, xs)[i]) != ""
  {
    var live := Live(r, xs);
    MergedIsGrouped(r, live);
    KeysFacts(r, live);
    LiveFacts(r, xs);
    var m := Normal(r, xs);
    forall i | 0 <= i < |m| ensures IsClean(r, m[i]) && r.key(m[i]) != "" {
      var k := r.key(m[i]);
      GroupMembers(r, live, k);
      FoldClean(r, Group(r, live, k), k);
      assert Keys(r, live)[i] == k;
    }
  }

  /** A list that is already repaired is left alone. */
  lemma NormalFixed<T(!new)>(r: Rules<T>, xs: seq<T>)
    requires DistinctKeys(r, xs)
    requires forall i :: 0 <= i < |xs| ==> IsClean(r, xs[i]) && r.key(xs[i]) != ""
    ensures Normal(r, xs) == xs
  {
    LiveFixed(r, xs);
    MergedFixed(r, xs);
  }

  lemma NormalIdempotent<T(!new)>(r: Rules<T>, xs: seq<T>)
    requires Lawful(r)
    ensures Normal(r, Normal(r, xs)) == Normal(r, xs)
  {
    NormalFacts(r, xs);
    NormalFixed(r, Normal(r, xs));
  }

  // ----- the loop -----

  /** An index map of a list without repeated keys. */
  ghost predicate Indexes<T>(r: Rules<T>, index: map<string, nat>, xs: seq<T>) {
    && (forall k :: k in index ==> index[k] < |xs| && r.key(xs[index[k]]) == k)
    && (forall i :: 0 <= i < |xs| ==> r.key(xs[i]) in index && index[r.key(xs[i])] == i)
  }

  lemma IndexMerge<T>(r: Rules<T>, index: map<string, nat>, xs: seq<T>, i: nat, y: T)
    requires Indexes(r, index, xs) && i < |xs| && r.key(y) == r.key(xs[i])
    ensures Indexes(r, index, xs[i := y])
  {
  }

  lemma IndexAppend<T>(r: Rules<T>, index: map<string, nat>, xs: seq<T>, x: T)
    requires Indexes(r, index, xs) && r.key(x) !in index
    ensures Indexes(r, index[r.key(x) := |xs|], xs + [x])
  {
  }

  /** One insertion with the index of the records kept so far: merging in place
      or appending is the next step of the fold, and the index stays right. */
  lemma InsertStep<T(!new)>(r: Rules<T>, acc: seq<T>, index: map<string, nat>, x: T)
    requires Lawful(r) && Indexes(r, index, acc)
    ensures var k, next := r.key(x), Insert(r, acc, x);
            if k in index then
              index[k] < |acc| && next == acc[index[k] := r.merge(acc[index[k]], x)] && Indexes(r, index, next)
            else next == acc + [x] && Indexes(r, index[k := |acc|], next)
  {
    var k := r.key(x);
    if k in index {
      IndexMerge(r, index, acc, index[k], r.merge(acc[index[k]], x));
    } else {
      IndexAppend(r, index, acc, x);
    }
  }

  /** One iteration of the loop that also cleans records and drops empty keys. */
  lemma LoopStep<T(!new)>(r: Rules<T>, xs: seq<T>, n: nat, acc: seq<T>, index: map<string, nat>)
    requires Lawful(r) && n < |xs| && acc == Normal(r, xs[..n]) && Indexes(r, index, acc)
    ensures var x, next := r.clean(xs[n]), Normal(r, xs[..n + 1]);
            var k := r.key(x);
            if k == "" then next == acc
            else if k in index then
              index[k] < |acc| && next == acc[index[k] := r.merge(acc[index[k]], x)] && Indexes(r, index, next)
            else next == acc + [x] && Indexes(r, index[k := |acc|], next)
  {
    var x, live := r.clean(xs[n]), Live(r, xs[..n]);
    var k := r.key(x);
    assert xs[..n + 1][..n] == xs[..n];
    assert Live(r, xs[..n + 1]) == live + (if k == "" then [] else [x]);
    if k == "" {
      assert live + [] == live;
    } else {
      assert (live + [x])[..|live|] == live;
      assert Normal(r, xs[..n + 1]) == Insert(r, acc, x);
      InsertStep(r, acc, index, x);
    }
  }

  // ----- repairing in parts -----

  lemma {:induction false} GroupConcat<T>(r: Rules<T>, xs: seq<T>, ys: seq<T>, k: string)
    ensures Group(r, xs + ys, k) == Group(r, xs, k) + Group(r, ys, k)
  {
    if ys == [] {
      assert xs + ys == xs;
    } else {
      assert (xs + ys)[..|xs + ys| - 1] == xs + ys[..|ys| - 1];
      GroupConcat(r, xs, ys[..|ys| - 1], k);
    }
  }

  lemma {:induction false} FoldConcat<T(!new)>(r: Rules<T>, g: seq<T>, h: seq<T>)
    requires Lawful(r) && g != [] && h != []
    ensures Fold(r, g + h) == r.merge(Fold(r, g), Fold(r, h))
  {
    var n := |h| - 1;
    assert (g + h)[..|g + h| - 1] == g + h[..n];
    if n > 0 {
      FoldConcat(r, g, h[..n]);
    } else {
      assert g + h[..n] == g;
    }
  }

  /** First-occurrence keys of a concatenation. */
  lemma {:induction false} KeysConcat<T>(r: Rules<T>, xs: seq<T>, ys: seq<T>)
    ensures Keys(r, xs + ys) == Keys(r, xs) + Without(Keys(r, ys), Keys(r, xs))
  {
    if ys == [] {
      assert xs + ys == xs;
    } else {
      var init, y := ys[..|ys| - 1], ys[|ys| - 1];
      assert (xs + ys)[..|xs + ys| - 1] == xs + init;
      KeysConcat(r, xs, init);
      WithoutMembers(Keys(r, init), Keys(r, xs));
      WithoutSnoc(Keys(r, init), r.key(y), Keys(r, xs));
    }
  }

  function Without(ks: seq<string>, drop: seq<string>): seq<string> {
    if ks == [] then []
    else Without(ks[..|ks| - 1], drop) + (if ks[|ks| - 1] in drop then [] else [ks[|ks| - 1]])
  }

  lemma {:induction false} WithoutMembers(ks: seq<string>, drop: seq<string>)
    ensures forall k :: k in Without(ks, drop) <==> k in ks && k !in drop
  {
    if ks != [] {
      WithoutMembers(ks[..|ks| - 1], drop);
      assert ks == ks[..|ks| - 1] + [ks[|ks| - 1]];
    }
  }

  lemma WithoutSnoc(ks: seq<string>, k: string, drop: seq<string>)
    ensures Without(ks + [k], drop) == Without(ks, drop) + (if k in drop then [] else [k])
  {
    assert (ks + [k])[..|ks|] == ks;
  }

  lemma {:induction false} KeysDistinct<T>(r: Rules<T>, xs: seq<T>)
    requires DistinctKeys(r, xs)
    ensures HasKeys(r, xs, Keys(r, xs))
  {
    if xs != [] {
      var init, x := xs[..|xs| - 1], xs[|xs| - 1];
      KeysDistinct(r, init);
    }
  }

  /** In a list without repeated keys a group is a single record. */
  lemma {:induction false} GroupDistinct<T>(r: Rules<T>, xs: seq<T>, i: nat)
    requires DistinctKeys(r, xs) && i < |xs|
    ensures Group(r, xs, r.key(xs[i])) == [xs[i]]
  {
    var init, x := xs[..|xs| - 1], xs[|xs| - 1];
    KeysFacts(r, init);
    if i < |init| {
      GroupDistinct(r, init, i);
    } else {
      assert Find(r, init, r.key(x)) == |init|;
    }
  }

  /** The group of k in a merged list: the merge of k's records, if any. */
  lemma {:induction false} GroupMerged<T(!new)>(r: Rules<T>, xs: seq<T>, k: string)
    requires Lawful(r)
    ensures var g := Group(r, xs, k); Group(r, Merged(r, xs), k) == if g == [] then [] else [Fold(r, g)]
  {
    var m, ks := Merged(r, xs), Keys(r, xs);
    MergedIsGrouped(r, xs);
    KeysFacts(r, xs);
    if k in ks {
      var i :| 0 <= i < |ks| && ks[i] == k;
      assert Grouped(r, xs, m[i]);
      GroupDistinct(r, m, i);
    } else {
      assert forall i :: 0 <= i < |m| ==> r.key(m[i]) == ks[i];
      KeysFacts(r, m);
    }
  }

  lemma SameKeys<T>(r: Rules<T>, xs: seq<T>, ks: seq<string>)
    requires HasKeys(r, xs, ks) && DistinctKeys(r, xs)
    ensures Keys(r, xs) == ks
  {
    KeysDistinct(r, xs);
  }

  lemma MergedConcat<T(!new)>(r: Rules<T>, xs: seq<T>, ys: seq<T>)
    requires Lawful(r)
    ensures Merged(r, Merged(r, xs) + Merged(r, ys)) == Merged(r, xs + ys)
  {
    var mx, my := Merged(r, xs), Merged(r, ys);
    var a, b := Merged(r, mx + my), Merged(r, xs + ys);
    assert Keys(r, mx + my) == Keys(r, xs + ys) by {
      MergedIsGrouped(r, xs);
      MergedIsGrouped(r, ys);
      KeysFacts(r, xs);
      KeysFacts(r, ys);
      SameKeys(r, mx, Keys(r, xs));
      SameKeys(r, my, Keys(r, ys));
      KeysConcat(r, xs, ys);
      KeysConcat(r, mx, my);
    }
    MergedIsGrouped(r, mx + my);
    MergedIsGrouped(r, xs + ys);
    forall i | 0 <= i < |a| ensures a[i] == b[i] {
      var k := r.key(a[i]);
      assert Grouped(r, mx + my, a[i]) && Grouped(r, xs + ys, b[i]);
      SameFold(r, xs, ys, k);
    }
  }

  lemma SameFold<T(!new)>(r: Rules<T>, xs: seq<T>, ys: seq<T>, k: string)
    requires Lawful(r) && Group(r, xs + ys, k) != []
    ensures var g := Group(r, Merged(r, xs) + Merged(r, ys), k);
            g != [] && Fold(r, g) == Fold(r, Group(r, xs + ys, k))
  {
    GroupConcat(r, xs, ys, k);
    GroupConcat(r, Merged(r, xs), Merged(r, ys), k);
    GroupMerged(r, xs, k);
    GroupMerged(r, ys, k);
    var gx, gy := Group(r, xs, k), Group(r, ys, k);
    if gx != [] && gy != [] {
      FoldConcat(r, gx, gy);
      FoldConcat(r, [Fold(r, gx)], [Fold(r, gy)]);
    } else if gx == [] {
      assert gx + gy == gy;
    } else {
      assert gx + gy == gx;
    }
  }

  /** Repairing two lists separately and then together is repairing their
      concatenation: nothing is lost or reordered by repairing early. */
  lemma NormalConcat<T(!new)>(r: Rules<T>, xs: seq<T>, ys: seq<T>)
    requires Lawful(r)
    ensures Normal(r, Normal(r, xs) + Normal(r, ys)) == Normal(r, xs + ys)
  {
    NormalFacts(r, xs);
    NormalFacts(r, ys);
    var nx, ny := Normal(r, xs), Normal(r, ys);
    LiveFixed(r, nx + ny);
    LiveConcat(r, xs, ys);
    MergedConcat(r, Live(r, xs), Live(r, ys));
  }

  // ----- fields of a merged record -----

  /** The last non-empty text, or "". */
  function LastText<T>(g: seq<T>, field: T -> string): string {
    if g == [] then "" else if field(g[|g| - 1]) != "" then field(g[|g| - 1]) else LastText(g[..|g| - 1], field)
  }

  /** The last non-zero number, or 0. */
  function LastNumber<T>(g: seq<T>, field: T -> int): int {
    if g == [] then 0 else if field(g[|g| - 1]) != 0 then field(g[|g| - 1]) else LastNumber(g[..|g| - 1], field)
  }

  predicate AnyFlag<T>(g: seq<T>, flag: T -> bool) {
    exists i :: 0 <= i < |g| && flag(g[i])
  }
}
