/** What every run of mutators keeps, while the links between projects and
    hosts may be stale. */
module StoreRuns {
  import opened Text
  import opened KeyedMerge
  import opened StoreModel
  import opened StoreLaws
  import opened StoreLists
  import opened StoreNormal
  import opened StoreOps

  ghost predicate ContainersStable(cs: seq<Container>) {
    forall i, j :: 0 <= i < j < |cs| ==> TrimSpace(cs[i].name) != TrimSpace(cs[j].name)
  }

  ghost predicate ProjectStable(p: Project) {
    ProjectName(p.name) == p.name && p.name != "" && HostName(p.host) == p.host && ContainersStable(p.containers)
  }

  ghost predicate ListStable(ps: seq<string>) {
    Distinct(ps) && forall i :: 0 <= i < |ps| ==> ProjectName(ps[i]) == ps[i] && ps[i] != ""
  }

  ghost predicate HostStable(h: Host) {
    HostName(h.name) == h.name && h.name != "" && ListStable(h.projects) && (h.inUse <==> h.projects != [])
  }

  ghost predicate ProjectsStable(ps: seq<Project>) {
    DistinctProjects(ps) && forall i :: 0 <= i < |ps| ==> ProjectStable(ps[i])
  }

  ghost predicate HostsStable(hs: seq<Host>) {
    && DistinctHosts(hs)
    && (forall i :: 0 <= i < |hs| ==> HostStable(hs[i]))
    && (forall i, j :: 0 <= i < j < |hs| ==> !(hs[i].isDefault && hs[j].isDefault))
  }

  /** Unique normalised names, lists without repeats, InUse exact, one default. */
  ghost predicate Stable(d: Data) {
    ProjectsStable(d.projects) && HostsStable(d.hosts)
  }

  lemma NormalisedIsStable(d: Data)
    requires Normalised(d)
    ensures Stable(d)
  {
    forall i | 0 <= i < |d.projects| ensures ProjectStable(d.projects[i]) {
      var p := d.projects[i];
      assert CleanProject(p) == p;
      NormalContainersStable(p.containers);
    }
    forall i | 0 <= i < |d.hosts| ensures HostStable(d.hosts[i]) {
      assert CleanList(d.hosts[i].projects, ProjectNames(d.projects));
    }
  }

  lemma NormalContainersStable(cs: seq<Container>)
    ensures ContainersStable(NormalContainers(cs))
  {
    var r, n := ContainerRules(), NormalContainers(cs);
    ContainerLaws();
    NormalFacts(r, cs);
    forall i | 0 <= i < |n| ensures TrimSpace(n[i].name) == n[i].name && r.key(n[i]) == n[i].name {
      assert IsClean(r, n[i]);
    }
  }

  // ----- one step at a time -----

  /** Changing one project, if any has that name. */
  lemma PutProjectStable(d: Data, name: string, change: Project -> Project)
    requires Stable(d)
    requires var i := ProjectAt(d.projects, name);
             i < |d.projects| && ProjectStable(d.projects[i]) ==>
               ProjectStable(change(d.projects[i])) && change(d.projects[i]).name == d.projects[i].name
    ensures Stable(PutProject(d, name, change))
  {
    hide ProjectStable, HostsStable;
    var i := ProjectAt(d.projects, name);
    if i < |d.projects| {
      PutProjectAt(d.projects, i, change(d.projects[i]));
    }
  }

  lemma PutProjectAt(ps: seq<Project>, i: nat, q: Project)
    requires ProjectsStable(ps) && i < |ps| && ProjectStable(q) && q.name == ps[i].name
    ensures ProjectsStable(ps[i := q])
  {
    hide ProjectStable;
  }

  lemma PutHostStable(hs: seq<Host>, i: nat, h: Host)
    requires HostsStable(hs) && i < |hs| && HostStable(h)
    requires h.name == hs[i].name && (h.isDefault ==> hs[i].isDefault)
    ensures HostsStable(hs[i := h])
  {
    hide HostStable;
  }

  lemma UpsertStable(cs: seq<Container>, c: Container)
    requires ContainersStable(cs)
    ensures ContainersStable(UpsertIn(cs, c)) && ContainersStable(AddIn(cs, c))
  {
  }

  lemma {:induction false} DropContainersFacts(cs: seq<Container>, names: set<string>)
    ensures ContainersStable(cs) ==> ContainersStable(DropContainers(cs, names))
    ensures forall c :: c in DropContainers(cs, names) <==> c in cs && TrimSpace(c.name) !in names
  {
    if cs != [] {
      var init, c := cs[..|cs| - 1], cs[|cs| - 1];
      DropContainersFacts(init, names);
      assert cs == init + [c];
      var r := DropContainers(init, names);
      forall i | 0 <= i < |r| ensures r[i] in init {
      }
    }
  }

  lemma {:induction false} DropHostMembers(hs: seq<Host>, name: string)
    ensures forall x :: x in DropHost(hs, name) <==> x in hs && HostName(x.name) != HostName(name)
  {
    hide HostName;
    if hs != [] {
      DropHostMembers(hs[..|hs| - 1], name);
      assert hs == hs[..|hs| - 1] + [hs[|hs| - 1]];
    }
  }

  lemma {:induction false} DropHostDistinct(hs: seq<Host>, name: string)
    requires DistinctHosts(hs)
    ensures DistinctHosts(DropHost(hs, name))
  {
    hide HostName;
    if hs != [] {
      var init, x := hs[..|hs| - 1], hs[|hs| - 1];
      DropHostDistinct(init, name);
      DropHostMembers(init, name);
      var r := DropHost(init, name);
      forall i | 0 <= i < |r| ensures r[i].name != x.name {
        assert r[i] in r;
        var k :| 0 <= k < |init| && init[k] == r[i];
        assert hs[k] == r[i];
      }
    }
  }

  lemma DropHostFacts(hs: seq<Host>, name: string)
    ensures forall x :: x in DropHost(hs, name) <==> x in hs && HostName(x.name) != HostName(name)
    ensures DistinctHosts(hs) ==> DistinctHosts(DropHost(hs, name))
  {
    hide HostName, DropHost;
    DropHostMembers(hs, name);
    if DistinctHosts(hs) {
      DropHostDistinct(hs, name);
    }
  }

  ghost predicate OneDefault(hs: seq<Host>) {
    forall i, j :: 0 <= i < j < |hs| ==> !(hs[i].isDefault && hs[j].isDefault)
  }

  lemma {:induction false} DropHostDefault(hs: seq<Host>, name: string)
    requires OneDefault(hs)
    ensures OneDefault(DropHost(hs, name))
  {
    hide HostName;
    if hs != [] {
      var init, x := hs[..|hs| - 1], hs[|hs| - 1];
      DropHostDefault(init, name);
      DropHostFacts(init, name);
      var r := DropHost(init, name);
      forall i | 0 <= i < |r| ensures !(r[i].isDefault && x.isDefault) {
        assert r[i] in r;
        var k :| 0 <= k < |init| && init[k] == r[i];
      }
    }
  }

  lemma DropHostStable(hs: seq<Host>, name: string)
    requires HostsStable(hs)
    ensures HostsStable(DropHost(hs, name))
  {
    hide HostName, HostStable;
    DropHostFacts(hs, name);
    DropHostDefault(hs, name);
    var r := DropHost(hs, name);
    assert forall i :: 0 <= i < |r| ==> r[i] in r && r[i] in hs;
  }

  lemma {:induction false} DropProjectMembers(ps: seq<Project>, name: string)
    ensures forall x :: x in DropProject(ps, name) <==> x in ps && ProjectName(x.name) != ProjectName(name)
  {
    hide ProjectName;
    if ps != [] {
      DropProjectMembers(ps[..|ps| - 1], name);
      assert ps == ps[..|ps| - 1] + [ps[|ps| - 1]];
    }
  }

  lemma {:induction false} DropProjectDistinct(ps: seq<Project>, name: string)
    requires DistinctProjects(ps)
    ensures DistinctProjects(DropProject(ps, name))
  {
    hide ProjectName;
    if ps != [] {
      var init, x := ps[..|ps| - 1], ps[|ps| - 1];
      DropProjectDistinct(init, name);
      DropProjectMembers(init, name);
      var r := DropProject(init, name);
      forall i | 0 <= i < |r| ensures r[i].name != x.name {
        assert r[i] in r;
        var k :| 0 <= k < |init| && init[k] == r[i];
        assert ps[k] == r[i];
      }
    }
  }

  lemma DropProjectFacts(ps: seq<Project>, name: string)
    ensures forall x :: x in DropProject(ps, name) <==> x in ps && ProjectName(x.name) != ProjectName(name)
    ensures DistinctProjects(ps) ==> DistinctProjects(DropProject(ps, name))
  {
    hide ProjectName, DropProject;
    DropProjectMembers(ps, name);
    if DistinctProjects(ps) {
      DropProjectDistinct(ps, name);
    }
  }

  lemma DropProjectStable(ps: seq<Project>, name: string)
    requires ProjectsStable(ps)
    ensures ProjectsStable(DropProject(ps, name))
  {
    hide ProjectName, ProjectStable;
    DropProjectFacts(ps, name);
    var r := DropProject(ps, name);
    assert forall i :: 0 <= i < |r| ==> r[i] in r && r[i] in ps;
  }

  lemma {:induction false} RemoveFirstFacts(ps: seq<string>, name: string)
    requires Distinct(ps)
    ensures Distinct(RemoveFirst(ps, name))
    ensures forall q :: q in RemoveFirst(ps, name) <==> q in ps && q != name
  {
    if ps != [] {
      assert Distinct(ps[1..]);
      assert ps[0] !in ps[1..];
      RemoveFirstFacts(ps[1..], name);
      assert ps == [ps[0]] + ps[1..];
    }
  }

  lemma RemoveFirstStable(ps: seq<string>, name: string)
    requires ListStable(ps)
    ensures ListStable(RemoveFirst(ps, name))
  {
    RemoveFirstFacts(ps, name);
    var r := RemoveFirst(ps, name);
    forall i | 0 <= i < |r| ensures ProjectName(r[i]) == r[i] && r[i] != "" {
      assert r[i] in r;
    }
  }

  lemma SetHostKeepsHosts(d: Data, name: string)
    ensures SetProjectHost(d, name, "").hosts == d.hosts
  {
  }

  lemma {:induction false} UnmapAllStable(d: Data, names: seq<string>)
    requires Stable(d)
    ensures Stable(UnmapAll(d, names).0) && UnmapAll(d, names).0.hosts == d.hosts
  {
    if names != [] {
      hide Stable, SetProjectHost, ProjectAt;
      UnmapAllStable(d, names[..|names| - 1]);
      var before := UnmapAll(d, names[..|names| - 1]).0;
      SetProjectHostStable(before, names[|names| - 1], "");
      SetHostKeepsHosts(before, names[|names| - 1]);
    }
  }

  lemma AddHostStable(d: Data, name: string, username: string)
    requires Stable(d)
    ensures Stable(AddHost(d, name, username))
  {
    NameFacts(name);
    var n, i := HostName(name), LookupHost(d.hosts, name);
    if n != "" {
      if i < |d.hosts| {
        PutHostStable(d.hosts, i, d.hosts[i].(name := n, username := FirstText(username, d.hosts[i].username)));
      } else {
        assert HostStable(NewHost(n, [], username));
        assert forall j :: 0 <= j < |d.hosts| ==> d.hosts[j].name != n;
      }
    }
  }

  lemma SetDefaultStable(d: Data, name: string)
    requires Stable(d)
    ensures Stable(SetDefault(d, name))
  {
    var r := MarkDefault(d.hosts, name);
    forall i | 0 <= i < |r| ensures HostStable(r[i]) && r[i].name == d.hosts[i].name {
      assert HostStable(d.hosts[i]);
    }
  }

  lemma UnlistStable(d: Data, host: string, project: string)
    requires Stable(d)
    ensures Stable(Unlist(d, host, project))
  {
    var i := LookupHost(d.hosts, host);
    if i < |d.hosts| {
      var listed := RemoveFirst(d.hosts[i].projects, ProjectName(project));
      assert HostStable(d.hosts[i]);
      RemoveFirstStable(d.hosts[i].projects, ProjectName(project));
      PutHostStable(d.hosts, i, d.hosts[i].(projects := listed, inUse := |listed| > 0));
    }
  }

  lemma RegisterStable(d: Data, host: string, project: string)
    requires Stable(d)
    ensures Stable(Register(d, host, project))
  {
    var i, j := LookupHost(d.hosts, host), ProjectAt(d.projects, ProjectName(project));
    NameFacts(project);
    if i < |d.hosts| && j < |d.projects| {
      assert ProjectStable(d.projects[j]) && HostStable(d.hosts[i]);
      var listed := AppendMissing(d.hosts[i].projects, ProjectName(project));
      assert ListStable(listed);
      PutHostStable(d.hosts, i, d.hosts[i].(inUse := true, projects := listed));
    }
  }

  lemma AddProjectStable(d: Data, name: string, confDir: string, flavour: Flavour)
    requires Stable(d)
    ensures Stable(AddProject(d, name, confDir, flavour))
  {
    var n := ProjectName(name);
    NameFacts(name);
    NameFacts("");
    assert n != "" ==> ProjectStable(NewProject(n, confDir, flavour));
    forall i | 0 <= i < |d.projects| ensures ProjectName(d.projects[i].name) == d.projects[i].name {
      assert ProjectStable(d.projects[i]);
    }
    hide HostsStable, ProjectStable, ProjectName;
  }

  lemma SetProjectHostStable(d: Data, name: string, host: string)
    requires Stable(d)
    ensures Stable(SetProjectHost(d, name, host))
  {
    NameFacts(host);
    hide Stable, HostName, ProjectName, ContainersStable;
    PutProjectStable(d, name, (p: Project) => p.(host := HostName(host)));
  }

  lemma UnmapStable(d: Data, name: string)
    requires Stable(d)
    ensures Stable(Unmap(d, name))
  {
    NameFacts("");
    hide Stable, HostName, ProjectName;
    PutProjectStable(d, name, (p: Project) => p.(containers := [], host := ""));
  }

  /** Replacing a project's container list by one with unique names. */
  lemma PutListStable(d: Data, name: string, change: seq<Container> -> seq<Container>)
    requires Stable(d) && forall cs :: ContainersStable(cs) ==> ContainersStable(change(cs))
    ensures Stable(PutProject(d, name, (p: Project) => p.(containers := change(p.containers))))
  {
    hide Stable, ContainersStable, ProjectName, HostName;
    PutProjectStable(d, name, (p: Project) => p.(containers := change(p.containers)));
  }

  lemma SamePut(d: Data, name: string, f: Project -> Project, g: Project -> Project)
    requires forall p :: f(p) == g(p)
    ensures PutProject(d, name, f) == PutProject(d, name, g)
  {
  }

  lemma UpsertContainerStable(d: Data, name: string, info: Report)
    requires Stable(d)
    ensures Stable(UpsertContainer(d, name, info))
  {
    hide Stable, ContainersStable, UpsertIn, ToContainer, PutProject;
    var c := ToContainer(info);
    var change := (cs: seq<Container>) => UpsertIn(cs, c);
    forall cs | ContainersStable(cs) ensures ContainersStable(change(cs)) {
      UpsertStable(cs, c);
    }
    PutListStable(d, name, change);
    SamePut(d, name, (p: Project) => p.(containers := UpsertIn(p.containers, ToContainer(info))),
            (p: Project) => p.(containers := change(p.containers)));
  }

  lemma AddContainerStable(d: Data, name: string, info: Report)
    requires Stable(d)
    ensures Stable(AddContainer(d, name, info))
  {
    hide Stable, ContainersStable, AddIn, ToContainer, PutProject;
    var c := ToContainer(info);
    var change := (cs: seq<Container>) => AddIn(cs, c);
    forall cs | ContainersStable(cs) ensures ContainersStable(change(cs)) {
      UpsertStable(cs, c);
    }
    PutListStable(d, name, change);
    SamePut(d, name, (p: Project) => p.(containers := AddIn(p.containers, ToContainer(info))),
            (p: Project) => p.(containers := change(p.containers)));
  }

  lemma RemoveContainersStable(d: Data, name: string, names: seq<string>)
    requires Stable(d)
    ensures Stable(RemoveContainers(d, name, names))
  {
    hide Stable, ContainersStable, DropContainers, TrimAll, PutProject;
    var change := (cs: seq<Container>) => DropContainers(cs, TrimAll(names));
    forall cs | ContainersStable(cs) ensures ContainersStable(change(cs)) {
      DropContainersFacts(cs, TrimAll(names));
    }
    PutListStable(d, name, change);
    SamePut(d, name, (p: Project) => p.(containers := DropContainers(p.containers, TrimAll(names))),
            (p: Project) => p.(containers := change(p.containers)));
  }

  lemma RemoveHostStable(d: Data, name: string)
    requires Stable(d)
    ensures Stable(RemoveHost(d, name))
  {
    hide ProjectsStable, HostsStable;
    DropHostStable(d.hosts, name);
  }

  lemma RemoveProjectStable(d: Data, name: string)
    requires Stable(d)
    ensures Stable(RemoveProject(d, name))
  {
    hide ProjectsStable, HostsStable;
    DropProjectStable(d.projects, name);
  }

  lemma RemoveHostFromConfigStable(d: Data, name: string)
    requires Stable(d)
    ensures Stable(RemoveHostFromConfig(d, name).0)
  {
    hide Stable, RemoveHost, UnmapAll;
    var i := LookupHost(d.hosts, name);
    var listed := if i < |d.hosts| then d.hosts[i].projects else [];
    UnmapAllStable(d, listed);
    RemoveHostStable(UnmapAll(d, listed).0, name);
  }

  lemma SetContextStable(d: Data, name: string)
    requires Stable(d)
    ensures Stable(SetContext(d, name))
  {
    hide ProjectsStable, HostsStable;
  }

  lemma ApplyStable(d: Data, op: Op)
    requires Stable(d)
    ensures Stable(Apply(d, op))
  {
    hide Stable, AddHost, RemoveHost, SetDefault, Unlist, Register, AddProject, RemoveProject, SetProjectHost, Unmap;
    hide UpsertContainer, AddContainer, RemoveContainers, SetContext, RemoveHostFromConfig, Normalize, Normalised;
    match op
    case OpAddHost(h, u) => AddHostStable(d, h, u);
    case OpRemoveHost(h) => RemoveHostStable(d, h);
    case OpSetDefault(h) => SetDefaultStable(d, h);
    case OpUnlist(h, p) => UnlistStable(d, h, p);
    case OpRegister(h, p) => RegisterStable(d, h, p);
    case OpAddProject(p, c, f) => AddProjectStable(d, p, c, f);
    case OpRemoveProject(p) => RemoveProjectStable(d, p);
    case OpSetProjectHost(p, h) => SetProjectHostStable(d, p, h);
    case OpUnmap(p) => UnmapStable(d, p);
    case OpUpsertContainer(p, c) => UpsertContainerStable(d, p, c);
    case OpAddContainer(p, c) => AddContainerStable(d, p, c);
    case OpRemoveContainers(p, ns) => RemoveContainersStable(d, p, ns);
    case OpSetContext(p) => SetContextStable(d, p);
    case OpRemoveHostFromConfig(h) => RemoveHostFromConfigStable(d, h);
    case OpNormalize =>
      NormalizeEstablishes(d);
      NormalisedIsStable(Normalize(d));
  }

  /** Every run of mutators, with saves anywhere between them, keeps names
      unique, host lists free of repeats, InUse exact and at most one default. */
  lemma {:induction false} RunStable(d: Data, ops: seq<Op>)
    requires Normalised(d)
    ensures Stable(Run(d, ops))
  {
    if ops == [] {
      NormalisedIsStable(d);
    } else {
      RunStable(d, ops[..|ops| - 1]);
      ApplyStable(Run(d, ops[..|ops| - 1]), ops[|ops| - 1]);
    }
  }
}
