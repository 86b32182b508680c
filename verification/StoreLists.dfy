/** Host project lists: duplicate-free union, cleaning and filtering, and the
    merging laws for host records. */
module StoreLists {
  import opened KeyedMerge
  import opened StoreModel
  import opened StoreLaws

  /** Trimmed names of existing projects, none twice. */
  ghost predicate CleanList(ps: seq<string>, valid: set<string>) {
    Distinct(ps) && forall i :: 0 <= i < |ps| ==> ps[i] != "" && ProjectName(ps[i]) == ps[i] && ps[i] in valid
  }

  lemma {:induction false} UnionMembers(ps: seq<string>, qs: seq<string>)
    ensures forall q :: q in Union(ps, qs) <==> q in ps || q in qs
    ensures Distinct(ps) ==> Distinct(Union(ps, qs))
    ensures ps <= Union(ps, qs)
  {
    if qs != [] {
      UnionMembers(ps, qs[..|qs| - 1]);
      assert qs == qs[..|qs| - 1] + [qs[|qs| - 1]];
    }
  }

  lemma {:induction false} UnionAssoc(ps: seq<string>, qs: seq<string>, rs: seq<string>)
    ensures Union(ps, Union(qs, rs)) == Union(Union(ps, qs), rs)
  {
    if rs != [] {
      var init, x := rs[..|rs| - 1], rs[|rs| - 1];
      UnionAssoc(ps, qs, init);
      var u := Union(qs, init);
      UnionMembers(qs, init);
      UnionMembers(ps, u);
      if x !in u {
        assert (u + [x])[..|u|] == u;
        assert Union(ps, u + [x]) == AppendMissing(Union(ps, u), x);
      }
    }
  }

  lemma {:induction false} NormalListClean(ps: seq<string>, valid: set<string>)
    ensures CleanList(NormalList(ps, valid), valid)
  {
    if ps != [] {
      NormalListClean(ps[..|ps| - 1], valid);
      NameFacts(ps[|ps| - 1]);
    }
  }

  lemma {:induction false} NormalListFixed(ps: seq<string>, valid: set<string>)
    requires CleanList(ps, valid)
    ensures NormalList(ps, valid) == ps
  {
    if ps != [] {
      NormalListFixed(ps[..|ps| - 1], valid);
    }
  }

  /** Filtering keeps exactly the names not mapped to another host. */
  lemma {:induction false} FilterListFacts(host: string, ps: seq<string>, links: map<string, string>)
    ensures forall q :: q in FilterList(host, ps, links) <==> q in ps && (q in links ==> links[q] == host)
    ensures Distinct(FilterList(host, ps, links))
  {
    if ps != [] {
      FilterListFacts(host, ps[..|ps| - 1], links);
      assert ps == ps[..|ps| - 1] + [ps[|ps| - 1]];
    }
  }

  lemma {:induction false} FilterListFixed(host: string, ps: seq<string>, links: map<string, string>)
    requires Distinct(ps)
    requires forall i :: 0 <= i < |ps| ==> ps[i] in links ==> links[ps[i]] == host
    ensures FilterList(host, ps, links) == ps
  {
    if ps != [] {
      FilterListFixed(host, ps[..|ps| - 1], links);
    }
  }

  lemma CleanUnion(ps: seq<string>, qs: seq<string>, valid: set<string>)
    requires CleanList(ps, valid) && CleanList(qs, valid)
    ensures CleanList(Union(ps, qs), valid)
  {
    UnionMembers(ps, qs);
    var u := Union(ps, qs);
    forall i | 0 <= i < |u| ensures u[i] != "" && ProjectName(u[i]) == u[i] && u[i] in valid {
      assert u[i] in u;
    }
  }

  lemma HostLaws(valid: set<string>)
    ensures Lawful(HostRules(valid))
  {
    var r := HostRules(valid);
    forall x ensures r.clean(r.clean(x)) == r.clean(x) {
      NameFacts(x.name);
      NormalListClean(x.projects, valid);
      NormalListFixed(NormalList(x.projects, valid), valid);
    }
    forall x, y | IsClean(r, x) && IsClean(r, y) ensures IsClean(r, r.merge(x, y)) {
      NormalListClean(x.projects, valid);
      NormalListClean(y.projects, valid);
      assert x.projects == NormalList(x.projects, valid) && y.projects == NormalList(y.projects, valid);
      CleanUnion(x.projects, y.projects, valid);
      NormalListFixed(Union(x.projects, y.projects), valid);
    }
    forall x, y, z ensures r.merge(r.merge(x, y), z) == r.merge(x, r.merge(y, z)) {
      UnionAssoc(x.projects, y.projects, z.projects);
    }
  }

  predicate Listed(g: seq<Host>, q: string) {
    exists i :: 0 <= i < |g| && q in g[i].projects
  }

  lemma ListedSnoc(g: seq<Host>, q: string)
    requires g != []
    ensures Listed(g, q) <==> Listed(g[..|g| - 1], q) || q in g[|g| - 1].projects
  {
    var init := g[..|g| - 1];
    if i :| 0 <= i < |init| && q in init[i].projects {
      assert q in g[i].projects;
    }
    if i :| 0 <= i < |g| && q in g[i].projects {
      assert i < |init| ==> q in init[i].projects;
    }
  }

  /** Duplicate host records list together what they listed apart. */
  lemma {:induction false} FoldHostLists(g: seq<Host>, valid: set<string>, q: string)
    requires g != []
    ensures q in Fold(HostRules(valid), g).projects <==> Listed(g, q)
  {
    ListedSnoc(g, q);
    if |g| > 1 {
      var init, h := g[..|g| - 1], g[|g| - 1];
      hide Listed;
      FoldHostLists(init, valid, q);
      UnionMembers(Fold(HostRules(valid), init).projects, h.projects);
    } else {
      assert !Listed(g[..0], q);
    }
  }

  lemma {:induction false} FoldHostTexts(g: seq<Host>, valid: set<string>)
    requires g != []
    ensures var h := Fold(HostRules(valid), g);
            && h.name == g[|g| - 1].name
            && h.username == LastText(g, (x: Host) => x.username)
            && h.pathToKey == LastText(g, (x: Host) => x.pathToKey)
            && h.pathToPubKey == LastText(g, (x: Host) => x.pathToPubKey)
            && h.orchestration.name == LastText(g, (x: Host) => x.orchestration.name)
            && h.orchestration.state == LastText(g, (x: Host) => x.orchestration.state)
            && h.orchestration.registryState == LastText(g, (x: Host) => x.orchestration.registryState)
            && h.orchestration.registryPort == LastNumber(g, (x: Host) => x.orchestration.registryPort)
            && h.runtime == g[|g| - 1].runtime && h.ownership == g[|g| - 1].ownership
  {
    if |g| > 1 {
      FoldHostTexts(g[..|g| - 1], valid);
    }
  }

  lemma {:induction false} FoldHostKey(g: seq<Host>, valid: set<string>)
    requires g != []
    ensures Fold(HostRules(valid), g).useKey <==> AnyFlag(g, (x: Host) => x.useKey)
  {
    AnyFlagSnoc(g, (x: Host) => x.useKey);
    if |g| > 1 {
      FoldHostKey(g[..|g| - 1], valid);
    }
  }

  /** Duplicate host records: the list is the union in order, texts are the last
      non-empty ones, while runtime and ownership come from the last record only. */
  lemma FoldHosts(g: seq<Host>, valid: set<string>)
    requires g != []
    ensures var h := Fold(HostRules(valid), g);
            && h.name == g[|g| - 1].name
            && h.username == LastText(g, (x: Host) => x.username)
            && h.pathToKey == LastText(g, (x: Host) => x.pathToKey)
            && h.pathToPubKey == LastText(g, (x: Host) => x.pathToPubKey)
            && h.orchestration.name == LastText(g, (x: Host) => x.orchestration.name)
            && h.orchestration.state == LastText(g, (x: Host) => x.orchestration.state)
            && h.orchestration.registryState == LastText(g, (x: Host) => x.orchestration.registryState)
            && h.orchestration.registryPort == LastNumber(g, (x: Host) => x.orchestration.registryPort)
            && h.runtime == g[|g| - 1].runtime && h.ownership == g[|g| - 1].ownership
            && (h.useKey <==> AnyFlag(g, (x: Host) => x.useKey))
            && (forall q :: q in h.projects <==> Listed(g, q))
  {
    hide Fold, LastText, LastNumber, AnyFlag, Listed;
    FoldHostTexts(g, valid);
    FoldHostKey(g, valid);
    forall q ensures q in Fold(HostRules(valid), g).projects <==> Listed(g, q) {
      FoldHostLists(g, valid, q);
    }
  }
}
