/** What normalising the store establishes, from any contents, and that it
    changes nothing on a store that already has that form. */
module StoreNormal {
  import opened Text
  import opened KeyedMerge
  import opened StoreModel
  import opened StoreLaws
  import opened StoreLists

  // ----- the normal form -----

  ghost predicate DistinctProjects(ps: seq<Project>) {
    forall i, j :: 0 <= i < j < |ps| ==> ps[i].name != ps[j].name
  }

  ghost predicate DistinctHosts(hs: seq<Host>) {
    forall i, j :: 0 <= i < j < |hs| ==> hs[i].name != hs[j].name
  }

  /** Clean project records, each name once. */
  ghost predicate ProjectsOk(ps: seq<Project>) {
    && DistinctProjects(ps)
    && forall i :: 0 <= i < |ps| ==> CleanProject(ps[i]) == ps[i] && ps[i].name != ""
  }

  /** Clean host records, each name once, listing existing projects once. */
  ghost predicate HostsOk(hs: seq<Host>, valid: set<string>) {
    && DistinctHosts(hs)
    && forall i :: 0 <= i < |hs| ==>
         HostName(hs[i].name) == hs[i].name && hs[i].name != "" && CleanList(hs[i].projects, valid)
  }

  /** The host of that name lists the project. */
  predicate Lists(hs: seq<Host>, host: string, project: string) {
    var i := HostAt(hs, host);
    i < |hs| && project in hs[i].projects
  }

  /** Some project record of that name is mapped to that (non-empty) host. */
  predicate Maps(ps: seq<Project>, host: string, project: string) {
    host != "" && exists i :: 0 <= i < |ps| && ps[i].name == project && ps[i].host == host
  }

  /** The two-way link: a mapped project is listed by its host and by no other. */
  ghost predicate Linked(hs: seq<Host>, ps: seq<Project>) {
    && (forall i :: 0 <= i < |ps| && ps[i].host != "" ==> Lists(hs, ps[i].host, ps[i].name))
    && (forall i, j :: 0 <= i < |ps| && ps[i].host != "" && 0 <= j < |hs| && ps[i].name in hs[j].projects ==>
          hs[j].name == ps[i].host)
  }

  ghost predicate FlagsOk(hs: seq<Host>) {
    && (forall i :: 0 <= i < |hs| ==> (hs[i].inUse <==> hs[i].projects != []))
    && (forall i, j :: 0 <= i < j < |hs| ==> !(hs[i].isDefault && hs[j].isDefault))
  }

  ghost predicate RegistriesOk(rs: seq<Registry>) {
    && (forall i, j :: 0 <= i < j < |rs| ==> rs[i].name != rs[j].name)
    && (forall i :: 0 <= i < |rs| ==> TrimSpace(rs[i].name) == rs[i].name && rs[i].name != "")
  }

  ghost predicate ContextOk(context: string, ps: seq<Project>) {
    context == "" || exists i :: 0 <= i < |ps| && ps[i].name == context
  }

  ghost predicate Normalised(d: Data) {
    && ProjectsOk(d.projects)
    && HostsOk(d.hosts, ProjectNames(d.projects))
    && Linked(d.hosts, d.projects)
    && FlagsOk(d.hosts)
    && RegistriesOk(d.instances)
    && ContextOk(d.context, d.projects)
  }

  // ----- projects, registries, context -----

  lemma NormalProjectsOk(ps: seq<Project>)
    ensures ProjectsOk(NormalProjects(ps))
  {
    ProjectLaws();
    NormalFacts(ProjectRules(), ps);
    var r, n := ProjectRules(), NormalProjects(ps);
    assert forall i :: 0 <= i < |n| ==> IsClean(r, n[i]) && r.key(n[i]) == n[i].name;
  }

  lemma NormalProjectsFixed(ps: seq<Project>)
    requires ProjectsOk(ps)
    ensures NormalProjects(ps) == ps
  {
    var r := ProjectRules();
    assert forall i :: 0 <= i < |ps| ==> IsClean(r, ps[i]) && r.key(ps[i]) == ps[i].name;
    NormalFixed(r, ps);
  }

  lemma RegistryLaws()
    ensures Lawful(RegistryRules())
  {
    var r := RegistryRules();
    forall x ensures r.clean(r.clean(x)) == r.clean(x) {
      TrimSpaceFixed(x.name);
    }
  }

  lemma NormalRegistriesOk(rs: seq<Registry>)
    ensures RegistriesOk(NormalRegistries(rs))
    ensures RegistriesOk(rs) ==> NormalRegistries(rs) == rs
  {
    RegistryLaws();
    var r, n := RegistryRules(), NormalRegistries(rs);
    NormalFacts(r, rs);
    assert forall i :: 0 <= i < |n| ==> IsClean(r, n[i]) && r.key(n[i]) == n[i].name;
    assert forall i :: 0 <= i < |n| ==> r.clean(n[i]).name == TrimSpace(n[i].name);
    if RegistriesOk(rs) {
      assert forall i :: 0 <= i < |rs| ==> IsClean(r, rs[i]) && r.key(rs[i]) == rs[i].name;
      NormalFixed(r, rs);
    }
  }

  lemma NormalContextOk(context: string, ps: seq<Project>)
    requires ProjectsOk(ps)
    ensures ContextOk(NormalContext(context, ps), ps)
    ensures ContextOk(context, ps) ==> NormalContext(context, ps) == context
  {
    var name := ProjectName(context);
    NameFacts(context);
    var i := ProjectAt(ps, name);
    if i < |ps| {
      assert CleanProject(ps[i]) == ps[i];
    }
    if context != "" && ContextOk(context, ps) {
      var j :| 0 <= j < |ps| && ps[j].name == context;
      assert CleanProject(ps[j]) == ps[j];
    }
  }

  lemma MapsSnoc(ps: seq<Project>, h: string, q: string)
    requires ps != []
    ensures var p := ps[|ps| - 1];
            Maps(ps, h, q) <==> Maps(ps[..|ps| - 1], h, q) || (h == p.host && h != "" && q == p.name)
  {
    var init := ps[..|ps| - 1];
    if Maps(init, h, q) {
      var i :| 0 <= i < |init| && init[i].name == q && init[i].host == h;
      assert ps[i] == init[i];
    }
    if Maps(ps, h, q) {
      var i :| 0 <= i < |ps| && ps[i].name == q && ps[i].host == h;
      assert i < |init| ==> ps[i] == init[i];
    }
  }

  lemma {:induction false} ProjectHostsFacts(ps: seq<Project>)
    requires DistinctProjects(ps) && forall i :: 0 <= i < |ps| ==> ps[i].name != ""
    ensures forall h, q :: Maps(ps, h, q) <==> q in ProjectHosts(ps) && ProjectHosts(ps)[q] == h
  {
    if ps != [] {
      var init, p := ps[..|ps| - 1], ps[|ps| - 1];
      ProjectHostsFacts(init);
      forall h, q ensures Maps(ps, h, q) <==> q in ProjectHosts(ps) && ProjectHosts(ps)[q] == h {
        MapsSnoc(ps, h, q);
        if q == p.name {
          assert !Maps(init, h, q);
          assert q in ProjectHosts(init) ==> Maps(init, ProjectHosts(init)[q], q);
        }
      }
    }
  }

  // ----- attaching mapped projects -----

  lemma HostAtUnique(hs: seq<Host>, i: nat)
    requires DistinctHosts(hs) && i < |hs|
    ensures HostAt(hs, hs[i].name) == i
  {
  }

  lemma AttachOneOk(hs: seq<Host>, p: Project, valid: set<string>)
    requires HostsOk(hs, valid) && p.host != ""
    requires p.name != "" && ProjectName(p.name) == p.name && p.name in valid && HostName(p.host) == p.host
    ensures HostsOk(AttachOne(hs, p), valid)
  {
    var i, r := HostAt(hs, p.host), AttachOne(hs, p);
    if i < |hs| {
      assert forall j :: 0 <= j < |hs| && j != i ==> r[j] == hs[j];
      assert CleanList(AppendMissing(hs[i].projects, p.name), valid);
    } else {
      assert r[|hs|].projects == [p.name];
    }
  }

  lemma AttachOneLists(hs: seq<Host>, p: Project, h: string, q: string)
    requires DistinctHosts(hs) && p.host != ""
    ensures Lists(AttachOne(hs, p), h, q) <==> Lists(hs, h, q) || (h == p.host && q == p.name)
  {
    var i, j, r := HostAt(hs, p.host), HostAt(hs, h), AttachOne(hs, p);
    assert forall k :: 0 <= k < |hs| ==> r[k].name == hs[k].name;
    assert i < |r| && r[i].name == p.host;
    assert DistinctHosts(r);
    if j < |hs| {
      HostAtUnique(r, j);
    } else if h == p.host {
      HostAtUnique(r, i);
    } else {
      assert HostAt(r, h) == |r|;
    }
    assert i < |hs| ==> forall k :: 0 <= k < |hs| && k != i ==> r[k] == hs[k];
    hide HostAt, AttachOne;
  }

  lemma {:induction false} AttachFacts(hs: seq<Host>, ps: seq<Project>, valid: set<string>)
    requires HostsOk(hs, valid)
    requires forall i :: 0 <= i < |ps| ==>
               ps[i].name != "" && ProjectName(ps[i].name) == ps[i].name && ps[i].name in valid
                   && HostName(ps[i].host) == ps[i].host
    ensures HostsOk(Attach(hs, ps), valid)
    ensures forall h, q :: Lists(Attach(hs, ps), h, q) <==> Lists(hs, h, q) || Maps(ps, h, q)
  {
    if ps != [] {
      var init, p := ps[..|ps| - 1], ps[|ps| - 1];
      AttachFacts(hs, init, valid);
      if p.host != "" {
        AttachOneOk(Attach(hs, init), p, valid);
      }
      forall h, q ensures Lists(Attach(hs, ps), h, q) <==> Lists(hs, h, q) || Maps(ps, h, q) {
        MapsSnoc(ps, h, q);
        if p.host != "" {
          AttachOneLists(Attach(hs, init), p, h, q);
        }
      }
    }
  }

  // ----- the default host -----

  lemma {:induction false} DefaultNameFacts(hs: seq<Host>)
    ensures DefaultName(hs) != "" ==>
        exists i :: 0 <= i < |hs| && hs[i].isDefault && HostName(hs[i].name) == DefaultName(hs)
    ensures DefaultName(hs) == "" ==> forall i :: 0 <= i < |hs| && hs[i].isDefault ==> HostName(hs[i].name) == ""
  {
    if hs != [] {
      var init := hs[..|hs| - 1];
      DefaultNameFacts(init);
      if i :| 0 <= i < |init| && init[i].isDefault && HostName(init[i].name) == DefaultName(hs) {
        assert hs[i] == init[i];
      }
    }
  }

  lemma DefaultNameFixed(hs: seq<Host>, i: nat)
    requires FlagsOk(hs) && DistinctHosts(hs) && i < |hs|
    requires forall j :: 0 <= j < |hs| ==> HostName(hs[j].name) == hs[j].name && hs[j].name != ""
    ensures hs[i].isDefault <==> hs[i].name == DefaultName(hs)
  {
    DefaultNameFacts(hs);
    if DefaultName(hs) != "" {
      var j :| 0 <= j < |hs| && hs[j].isDefault && HostName(hs[j].name) == DefaultName(hs);
      if i < j || j < i {
        assert hs[i].name != hs[j].name;
      }
    }
  }

  // ----- hosts -----

  lemma ValidNames(ps: seq<Project>)
    requires ProjectsOk(ps)
    ensures forall i :: 0 <= i < |ps| ==>
              ps[i].name != "" && ProjectName(ps[i].name) == ps[i].name && ps[i].name in ProjectNames(ps)
                  && HostName(ps[i].host) == ps[i].host
  {
    forall i | 0 <= i < |ps| ensures ProjectName(ps[i].name) == ps[i].name && HostName(ps[i].host) == ps[i].host {
      assert CleanProject(ps[i]) == ps[i];
    }
  }

  lemma MergedHostsOk(hs: seq<Host>, valid: set<string>)
    ensures HostsOk(Normal(HostRules(valid), hs), valid)
  {
    HostLaws(valid);
    var r := HostRules(valid);
    var n := Normal(r, hs);
    NormalFacts(r, hs);
    forall i | 0 <= i < |n|
      ensures HostName(n[i].name) == n[i].name && n[i].name != "" && CleanList(n[i].projects, valid)
    {
      assert IsClean(r, n[i]) && r.key(n[i]) != "";
      NormalListClean(n[i].projects, valid);
    }
    assert forall i :: 0 <= i < |n| ==> r.key(n[i]) == n[i].name;
  }

  /** Finishing keeps names and drops the projects mapped elsewhere. */
  lemma FinishFacts(hs: seq<Host>, valid: set<string>, links: map<string, string>, default: string)
    requires HostsOk(hs, valid)
    ensures var r := FinishHosts(hs, valid, links, default);
            && HostsOk(r, valid) && FlagsOk(r)
            && (forall h, q :: Lists(r, h, q) <==> Lists(hs, h, q) && (q in links ==> links[q] == h))
            && (forall i, q :: 0 <= i < |r| && q in r[i].projects && q in links ==> links[q] == r[i].name)
  {
    var r := FinishHosts(hs, valid, links, default);
    forall i | 0 <= i < |hs|
      ensures r[i].name == hs[i].name && CleanList(r[i].projects, valid)
      ensures forall q :: q in r[i].projects <==> q in hs[i].projects && (q in links ==> links[q] == hs[i].name)
    {
      NormalListFixed(hs[i].projects, valid);
      FilterListFacts(hs[i].name, hs[i].projects, links);
      forall k | 0 <= k < |r[i].projects|
        ensures r[i].projects[k] != "" && ProjectName(r[i].projects[k]) == r[i].projects[k] && r[i].projects[k] in valid
      {
        assert r[i].projects[k] in r[i].projects;
      }
    }
    forall h, q ensures Lists(r, h, q) <==> Lists(hs, h, q) && (q in links ==> links[q] == h) {
      var j := HostAt(hs, h);
      if j < |hs| {
        HostAtUnique(r, j);
      } else {
        assert HostAt(r, h) == |r|;
      }
    }
  }

  lemma NormalHostsOk(hs: seq<Host>, ps: seq<Project>)
    requires ProjectsOk(ps)
    ensures HostsOk(NormalHosts(hs, ps), ProjectNames(ps))
    ensures Linked(NormalHosts(hs, ps), ps)
    ensures FlagsOk(NormalHosts(hs, ps))
    ensures forall h, q :: Lists(NormalHosts(hs, ps), h, q) <==>
              Maps(ps, h, q) || (Lists(Normal(HostRules(ProjectNames(ps)), hs), h, q) && q !in ProjectHosts(ps))
  {
    var valid, links := ProjectNames(ps), ProjectHosts(ps);
    var merged := Normal(HostRules(valid), hs);
    var attached := Attach(merged, ps);
    ValidNames(ps);
    MergedHostsOk(hs, valid);
    AttachFacts(merged, ps, valid);
    FinishFacts(attached, valid, links, DefaultName(hs));
    ProjectHostsFacts(ps);
    var r := NormalHosts(hs, ps);
    assert r == FinishHosts(attached, valid, links, DefaultName(hs));
    forall i | 0 <= i < |ps| && ps[i].host != ""
      ensures Lists(r, ps[i].host, ps[i].name)
      ensures forall j :: 0 <= j < |r| && ps[i].name in r[j].projects ==> r[j].name == ps[i].host
    {
      assert Maps(ps, ps[i].host, ps[i].name);
    }
    forall h, q
      ensures Lists(r, h, q) <==> Maps(ps, h, q) || (Lists(merged, h, q) && q !in links)
    {
      assert Lists(attached, h, q) <==> Lists(merged, h, q) || Maps(ps, h, q);
      assert q in links ==> Maps(ps, links[q], q);
    }
  }

  /** From any contents, normalising reaches the normal form. */
  lemma NormalizeEstablishes(d: Data)
    ensures Normalised(Normalize(d))
  {
    var ps := NormalProjects(d.projects);
    NormalProjectsOk(d.projects);
    NormalHostsOk(d.hosts, ps);
    NormalRegistriesOk(d.instances);
    NormalContextOk(d.context, ps);
  }

  // ----- stores already in normal form -----

  lemma {:induction false} AttachFixed(hs: seq<Host>, ps: seq<Project>)
    requires forall i :: 0 <= i < |ps| && ps[i].host != "" ==> Lists(hs, ps[i].host, ps[i].name)
    ensures Attach(hs, ps) == hs
  {
    if ps != [] {
      AttachFixed(hs, ps[..|ps| - 1]);
    }
  }

  lemma NormalHostsFixed(hs: seq<Host>, ps: seq<Project>)
    requires ProjectsOk(ps) && HostsOk(hs, ProjectNames(ps)) && Linked(hs, ps) && FlagsOk(hs)
    ensures NormalHosts(hs, ps) == hs
  {
    var valid, links := ProjectNames(ps), ProjectHosts(ps);
    var r := HostRules(valid);
    forall i | 0 <= i < |hs| ensures IsClean(r, hs[i]) && r.key(hs[i]) == hs[i].name {
      NormalListFixed(hs[i].projects, valid);
    }
    NormalFixed(r, hs);
    AttachFixed(hs, ps);
    var finished := FinishHosts(hs, valid, links, DefaultName(hs));
    assert NormalHosts(hs, ps) == finished;
    hide Normal, Attach, NormalHosts, FinishHost;
    forall i | 0 <= i < |hs| ensures finished[i] == hs[i] {
      FinishFixed(hs, ps, i);
    }
  }

  lemma FinishFixed(hs: seq<Host>, ps: seq<Project>, i: nat)
    requires ProjectsOk(ps) && HostsOk(hs, ProjectNames(ps)) && Linked(hs, ps) && FlagsOk(hs) && i < |hs|
    ensures FinishHost(hs[i], ProjectNames(ps), ProjectHosts(ps), DefaultName(hs)) == hs[i]
  {
    var links := ProjectHosts(ps);
    NormalListFixed(hs[i].projects, ProjectNames(ps));
    ProjectHostsFacts(ps);
    forall k | 0 <= k < |hs[i].projects| && hs[i].projects[k] in links
      ensures links[hs[i].projects[k]] == hs[i].name
    {
      var q := hs[i].projects[k];
      assert Maps(ps, links[q], q);
    }
    FilterListFixed(hs[i].name, hs[i].projects, links);
    DefaultNameFixed(hs, i);
  }

  /** A store is left unchanged exactly when it is in normal form. */
  lemma NormalizeFixed(d: Data)
    ensures Normalised(d) <==> Normalize(d) == d
  {
    if Normalised(d) {
      NormalProjectsFixed(d.projects);
      NormalHostsFixed(d.hosts, d.projects);
      NormalRegistriesOk(d.instances);
      NormalContextOk(d.context, d.projects);
    }
    NormalizeEstablishes(d);
  }

  /** Normalising twice is normalising once, on every store. */
  lemma NormalizeIdempotent(d: Data)
    ensures Normalize(Normalize(d)) == Normalize(d)
  {
    NormalizeEstablishes(d);
    NormalizeFixed(Normalize(d));
  }

  // ----- exactly which projects a host lists -----

  /** Some host record of that normalised name listed the project. */
  predicate Recorded(hs: seq<Host>, host: string, project: string) {
    host != "" && exists i :: 0 <= i < |hs| && HostName(hs[i].name) == host && Names(hs[i].projects, project)
  }

  predicate Names(ps: seq<string>, project: string) {
    project != "" && exists k :: 0 <= k < |ps| && ProjectName(ps[k]) == project
  }

  /** Some record of exactly that name lists the project. */
  predicate Holds(hs: seq<Host>, host: string, project: string) {
    exists i :: 0 <= i < |hs| && hs[i].name == host && project in hs[i].projects
  }

  lemma {:induction false} NormalListMembers(ps: seq<string>, valid: set<string>, q: string)
    ensures q in NormalList(ps, valid) <==> Names(ps, q) && q in valid
  {
    if ps != [] {
      var init := ps[..|ps| - 1];
      NormalListMembers(init, valid, q);
      if Names(init, q) {
        var k :| 0 <= k < |init| && ProjectName(init[k]) == q;
        assert ProjectName(ps[k]) == q;
      }
      if Names(ps, q) {
        var k :| 0 <= k < |ps| && ProjectName(ps[k]) == q;
        assert k < |init| ==> ProjectName(init[k]) == q;
      }
    }
  }

  lemma {:induction false} LiveHolds(hs: seq<Host>, valid: set<string>, h: string, q: string)
    requires h != ""
    ensures Holds(Live(HostRules(valid), hs), h, q) <==> Recorded(hs, h, q) && q in valid
  {
    if hs != [] {
      var r := HostRules(valid);
      var init, x := hs[..|hs| - 1], hs[|hs| - 1];
      LiveHolds(init, valid, h, q);
      NormalListMembers(x.projects, valid, q);
      var live, before := Live(r, hs), Live(r, init);
      assert live == before + (if HostName(x.name) == "" then [] else [CleanHost(x, valid)]);
      HoldsSnoc(before, CleanHost(x, valid), h, q);
      if Recorded(init, h, q) {
        var i :| 0 <= i < |init| && HostName(init[i].name) == h && Names(init[i].projects, q);
        assert hs[i] == init[i];
      }
      if Recorded(hs, h, q) {
        var i :| 0 <= i < |hs| && HostName(hs[i].name) == h && Names(hs[i].projects, q);
        assert i < |init| ==> hs[i] == init[i];
      }
      assert HostName(x.name) == "" ==> live == before;
    }
  }

  lemma HoldsSnoc(hs: seq<Host>, x: Host, h: string, q: string)
    ensures Holds(hs + [x], h, q) <==> Holds(hs, h, q) || (x.name == h && q in x.projects)
  {
    var all := hs + [x];
    if Holds(hs, h, q) {
      var i :| 0 <= i < |hs| && hs[i].name == h && q in hs[i].projects;
      assert all[i] == hs[i];
    }
    if x.name == h && q in x.projects {
      assert all[|hs|] == x;
    }
    if Holds(all, h, q) {
      var i :| 0 <= i < |all| && all[i].name == h && q in all[i].projects;
      assert i < |hs| ==> all[i] == hs[i];
    }
  }

  lemma MergedDistinct(hs: seq<Host>, valid: set<string>)
    ensures DistinctHosts(Merged(HostRules(valid), hs))
  {
    var r := HostRules(valid);
    HostLaws(valid);
    MergedIsGrouped(r, hs);
    KeysFacts(r, hs);
    var m := Merged(r, hs);
    assert forall i :: 0 <= i < |m| ==> r.key(m[i]) == m[i].name;
  }

  lemma InsertLists(acc: seq<Host>, x: Host, valid: set<string>, h: string, q: string)
    requires DistinctHosts(acc) && DistinctHosts(Insert(HostRules(valid), acc, x))
    ensures Lists(Insert(HostRules(valid), acc, x), h, q) <==> Lists(acc, h, q) || (x.name == h && q in x.projects)
  {
    var r := HostRules(valid);
    var i, j, s := Find(r, acc, x.name), HostAt(acc, h), Insert(r, acc, x);
    assert r.key(x) == x.name && forall k :: 0 <= k < |acc| ==> r.key(acc[k]) == acc[k].name;
    assert i < |s| && s[i].name == x.name;
    if i < |acc| {
      UnionMembers(acc[i].projects, x.projects);
    }
    if j < |acc| {
      HostAtUnique(s, j);
    } else if h == x.name {
      HostAtUnique(s, i);
    } else {
      assert HostAt(s, h) == |s|;
    }
  }

  lemma {:induction false} MergedLists(hs: seq<Host>, valid: set<string>, h: string, q: string)
    ensures Lists(Merged(HostRules(valid), hs), h, q) <==> Holds(hs, h, q)
  {
    if hs != [] {
      var init, x := hs[..|hs| - 1], hs[|hs| - 1];
      MergedLists(init, valid, h, q);
      MergedDistinct(init, valid);
      MergedDistinct(hs, valid);
      InsertLists(Merged(HostRules(valid), init), x, valid, h, q);
      assert hs == init + [x];
      HoldsSnoc(init, x, h, q);
    }
  }

  /** The project exists and is mapped to the host, or is unmapped and was recorded. */
  predicate Belongs(ps: seq<Project>, host: string, project: string, recorded: bool) {
    exists i :: 0 <= i < |ps| && ps[i].name == project && (ps[i].host == host || (ps[i].host == "" && recorded))
  }

  lemma BelongsFacts(ps: seq<Project>, h: string, q: string, recorded: bool)
    requires ProjectsOk(ps) && h != ""
    ensures Belongs(ps, h, q, recorded) <==>
              Maps(ps, h, q) || (recorded && q in ProjectNames(ps) && q !in ProjectHosts(ps))
  {
    ProjectHostsFacts(ps);
    var links := ProjectHosts(ps);
    if Belongs(ps, h, q, recorded) {
      var i :| 0 <= i < |ps| && ps[i].name == q && (ps[i].host == h || (ps[i].host == "" && recorded));
      if ps[i].host == "" && q in links {
        assert Maps(ps, links[q], q);
      }
    }
    if recorded && q in ProjectNames(ps) && q !in links {
      var i :| 0 <= i < |ps| && ps[i].name == q;
      assert ps[i].host != "" ==> Maps(ps, ps[i].host, q);
    }
  }

  /** After normalising, a host lists exactly the projects mapped to it and the
      unmapped existing projects that some record of it listed before. */
  lemma ListedExactly(d: Data, h: string, q: string)
    requires h != ""
    ensures Lists(Normalize(d).hosts, h, q) <==> Belongs(Normalize(d).projects, h, q, Recorded(d.hosts, h, q))
  {
    var ps := NormalProjects(d.projects);
    NormalProjectsOk(d.projects);
    NormalHostsOk(d.hosts, ps);
    LiveHolds(d.hosts, ProjectNames(ps), h, q);
    MergedLists(Live(HostRules(ProjectNames(ps)), d.hosts), ProjectNames(ps), h, q);
    BelongsFacts(ps, h, q, Recorded(d.hosts, h, q));
  }
}
