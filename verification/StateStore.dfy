/** The state store as the program keeps it: one object whose lists are
    rebuilt by the normalising loops and changed by the mutators. */
module StateStore {
  import opened Text
  import opened KeyedMerge
  import opened StoreModel
  import opened StoreLaws
  import opened StoreLists
  import opened StoreNormal
  import opened StoreOps
  import opened StoreCommands
  import opened StoreEffects
  import opened StoreRecords

  method NormalizeContainers(cs: seq<Container>) returns (normalized: seq<Container>)
    ensures normalized == NormalContainers(cs) == CombinedContainers(cs)
  {
    ContainersFromRecords(cs);
    ghost var r := ContainerRules();
    ContainerLaws();
    normalized := [];
    var indexByName: map<string, nat> := map[];
    for n := 0 to |cs|
      invariant normalized == Normal(r, cs[..n])
      invariant Indexes(r, indexByName, normalized)
    {
      var c := CleanContainer(cs[n]);
      LoopStep(r, cs, n, normalized, indexByName);
      if c.name != "" {
        if c.name in indexByName {
          var index := indexByName[c.name];
          normalized := normalized[index := MergeContainer(normalized[index], c)];
        } else {
          indexByName := indexByName[c.name := |normalized|];
          normalized := normalized + [c];
        }
      }
    }
    assert cs[..|cs|] == cs;
  }

  method NormalizeProjectList(projects: seq<string>, valid: set<string>) returns (normalized: seq<string>)
    ensures normalized == NormalList(projects, valid)
  {
    normalized := [];
    for n := 0 to |projects|
      invariant normalized == NormalList(projects[..n], valid)
    {
      assert projects[..n + 1][..n] == projects[..n];
      var name := ProjectName(projects[n]);
      if name != "" && name in valid {
        normalized := AppendMissing(normalized, name);
      }
    }
    assert projects[..|projects|] == projects;
  }

  method FilterHostProjectList(host: string, projects: seq<string>, links: map<string, string>)
    returns (filtered: seq<string>)
    ensures filtered == FilterList(host, projects, links)
  {
    filtered := [];
    for n := 0 to |projects|
      invariant filtered == FilterList(host, projects[..n], links)
    {
      assert projects[..n + 1][..n] == projects[..n];
      if !(projects[n] in links && links[projects[n]] != host) {
        filtered := AppendMissing(filtered, projects[n]);
      }
    }
    assert projects[..|projects|] == projects;
  }

  /** Where each host name is. */
  ghost predicate IndexesHosts(index: map<string, nat>, hs: seq<Host>) {
    && (forall k :: k in index ==> index[k] < |hs| && HostAt(hs, k) == index[k])
    && (forall i :: 0 <= i < |hs| ==> hs[i].name in index)
  }

  lemma AttachIndex(index: map<string, nat>, hs: seq<Host>, p: Project)
    requires IndexesHosts(index, hs) && p.host != ""
    ensures IndexesHosts(if p.host in index then index else index[p.host := |hs|], AttachOne(hs, p))
    ensures p.host in index <==> HostAt(hs, p.host) < |hs|
  {
    var i, r := HostAt(hs, p.host), AttachOne(hs, p);
    assert i < |hs| ==> hs[i].name in index;
    assert forall j :: 0 <= j < |hs| ==> r[j].name == hs[j].name;
    assert |r| == if i < |hs| then |hs| else |hs| + 1;
    assert i < |r| && r[i].name == p.host;
    hide HostAt, AttachOne;
    IndexExtends(index, hs, r, p.host);
  }

  /** One project attached with the index: its host's list grows, or the host is
      appended. */
  lemma AttachStep(index: map<string, nat>, hs: seq<Host>, p: Project)
    requires IndexesHosts(index, hs)
    ensures p.host == "" ==> AttachOne(hs, p) == hs
    ensures p.host != "" && p.host in index ==>
              && index[p.host] < |hs|
              && AttachOne(hs, p) ==
                 hs[index[p.host] := hs[index[p.host]].(projects := AppendMissing(hs[index[p.host]].projects, p.name))]
    ensures p.host != "" && p.host !in index ==> AttachOne(hs, p) == hs + [NewHost(p.host, [p.name], "")]
  {
    var i := HostAt(hs, p.host);
    assert i < |hs| ==> hs[i].name in index;
  }

  lemma IndexExtends(index: map<string, nat>, hs: seq<Host>, r: seq<Host>, host: string)
    requires IndexesHosts(index, hs) && forall j :: 0 <= j < |hs| <= |r| ==> r[j].name == hs[j].name
    requires if host in index then |r| == |hs| else |r| == |hs| + 1 && r[|hs|].name == host
    ensures IndexesHosts(if host in index then index else index[host := |hs|], r)
  {
    var next := if host in index then index else index[host := |hs|];
    forall k | k in next ensures next[k] < |r| && HostAt(r, k) == next[k] {
      HostAtExtends(hs, r, k);
    }
  }

  /** The names a list starts with stay where they are. */
  lemma HostAtExtends(hs: seq<Host>, r: seq<Host>, k: string)
    requires |hs| <= |r| && forall j :: 0 <= j < |hs| ==> r[j].name == hs[j].name
    ensures HostAt(hs, k) < |hs| ==> HostAt(r, k) == HostAt(hs, k)
    ensures HostAt(hs, k) == |hs| && |r| > |hs| && r[|hs|].name == k ==> HostAt(r, k) == |hs|
  {
    var i, j := HostAt(hs, k), HostAt(r, k);
  }

  class Store {
    var context: string
    var projects: seq<Project>
    var hosts: seq<Host>
    var instances: seq<Registry>

    function State(): Data
      reads this
    {
      Data(context, projects, hosts, instances)
    }

    constructor (d: Data)
      ensures State() == d
    {
      context, projects, hosts, instances := d.context, d.projects, d.hosts, d.instances;
    }

    // ----- normalising -----

    method NormalizeProjects()
      modifies this`projects
      ensures projects == NormalProjects(old(projects))
    {
      ghost var r := ProjectRules();
      ProjectLaws();
      assert Normal(r, projects[..0]) == [];
      hide Lawful, Normal, NormalContainers, HostName, ProjectName, Indexes;
      var normalized: seq<Project> := [];
      var indexByName: map<string, nat> := map[];
      for n := 0 to |projects|
        invariant projects == old(projects)
        invariant normalized == Normal(r, projects[..n])
        invariant Indexes(r, indexByName, normalized)
      {
        LoopStep(r, projects, n, normalized, indexByName);
        var p := projects[n];
        var name := ProjectName(p.name);
        if name != "" {
          var cs := NormalizeContainers(p.containers);
          p := p.(name := name, host := HostName(p.host), containers := cs);
          assert p == CleanProject(projects[n]);
          if name in indexByName {
            var index := indexByName[name];
            normalized := normalized[index := MergeProject(normalized[index], p)];
          } else {
            indexByName := indexByName[name := |normalized|];
            normalized := normalized + [p];
          }
        }
      }
      assert projects[..|projects|] == projects;
      projects := normalized;
    }

    method MergeHosts(valid: set<string>)
      returns (normalized: seq<Host>, indexByName: map<string, nat>, default: string)
      ensures normalized == Normal(HostRules(valid), hosts)
      ensures Indexes(HostRules(valid), indexByName, normalized)
      ensures default == DefaultName(hosts)
    {
      ghost var r := HostRules(valid);
      assert Normal(r, hosts[..0]) == [] && HostName("") == "";
      HostLaws(valid);
      hide Lawful, Normal, NormalList, HostName, Union, Indexes;
      normalized, indexByName, default := [], map[], "";
      for n := 0 to |hosts|
        invariant normalized == Normal(r, hosts[..n])
        invariant Indexes(r, indexByName, normalized)
        invariant default == DefaultName(hosts[..n])
      {
        LoopStep(r, hosts, n, normalized, indexByName);
        assert hosts[..n + 1][..n] == hosts[..n];
        var name := HostName(hosts[n].name);
        if name != "" {
          var listed := NormalizeProjectList(hosts[n].projects, valid);
          var h := hosts[n].(name := name, projects := listed);
          assert h == CleanHost(hosts[n], valid);
          if h.isDefault {
            default := name;
          }
          if name in indexByName {
            var index := indexByName[name];
            normalized := normalized[index := MergeHost(normalized[index], h)];
          } else {
            indexByName := indexByName[name := |normalized|];
            normalized := normalized + [h];
          }
        }
      }
      assert hosts[..|hosts|] == hosts;
    }

    method AttachProjects(merged: seq<Host>, index: map<string, nat>) returns (attached: seq<Host>)
      requires IndexesHosts(index, merged)
      ensures attached == Attach(merged, projects)
    {
      hide AttachOne, IndexesHosts, AppendMissing, NewHost;
      attached := merged;
      var indexByName: map<string, nat> := index;
      for n := 0 to |projects|
        invariant attached == Attach(merged, projects[..n])
        invariant IndexesHosts(indexByName, attached)
      {
        assert projects[..n + 1][..n] == projects[..n];
        var p := projects[n];
        AttachStep(indexByName, attached, p);
        if p.host != "" {
          AttachIndex(indexByName, attached, p);
          if p.host in indexByName {
            var at := indexByName[p.host];
            attached := attached[at := attached[at].(projects := AppendMissing(attached[at].projects, p.name))];
          } else {
            indexByName := indexByName[p.host := |attached|];
            attached := attached + [NewHost(p.host, [p.name], "")];
          }
        }
      }
      assert projects[..|projects|] == projects;
    }

    method NormalizeHosts()
      modifies this`hosts
      ensures hosts == NormalHosts(old(hosts), projects)
    {
      hide Normal, Attach, FilterList, DefaultName, ProjectNames, ProjectHosts, NormalList;
      var valid, links := ProjectNames(projects), ProjectHosts(projects);
      var merged, index, default := MergeHosts(valid);
      assert IndexesHosts(index, merged) by {
        var r := HostRules(valid);
        assert forall i :: 0 <= i < |merged| ==> r.key(merged[i]) == merged[i].name;
      }
      var attached := AttachProjects(merged, index);
      var finished: seq<Host> := [];
      for n := 0 to |attached|
        invariant finished == FinishHosts(attached, valid, links, default)[..n]
      {
        var listed := NormalizeProjectList(attached[n].projects, valid);
        listed := FilterHostProjectList(attached[n].name, listed, links);
        finished := finished + [attached[n].(projects := listed, inUse := |listed| > 0,
            isDefault := attached[n].name == default)];
      }
      hosts := finished;
    }

    method NormalizeRegistries()
      modifies this`instances
      ensures instances == NormalRegistries(old(instances))
    {
      ghost var r := RegistryRules();
      RegistryLaws();
      var registries: seq<Registry> := [];
      var indexByName: map<string, nat> := map[];
      for n := 0 to |instances|
        invariant instances == old(instances)
        invariant registries == Normal(r, instances[..n])
        invariant Indexes(r, indexByName, registries)
      {
        LoopStep(r, instances, n, registries, indexByName);
        var registry := instances[n].(name := TrimSpace(instances[n].name));
        if registry.name != "" {
          if registry.name in indexByName {
            registries := registries[indexByName[registry.name] := registry];
          } else {
            indexByName := indexByName[registry.name := |registries|];
            registries := registries + [registry];
          }
        }
      }
      assert instances[..|instances|] == instances;
      instances := registries;
    }

    /** Repairs the whole store: whatever it held, it is in normal form after. */
    method NormalizeAll()
      modifies this
      ensures State() == Normalize(old(State()))
      ensures Normalised(State()) && SavedFrom(old(State()), State())
    {
      hide NormalProjects, NormalHosts, NormalRegistries, NormalContext, Normalised, SavedFrom;
      NormalizeProjects();
      NormalizeHosts();
      NormalizeRegistries();
      context := NormalContext(context, projects);
      NormalizeEstablishes(old(State()));
      NormalizeFromRecords(old(State()));
    }

    /** Saves: normalises, then writes the contents out. */
    method Save() returns (written: Data)
      modifies this
      ensures written == State() == Normalize(old(State()))
      ensures SavedFrom(old(State()), written)
    {
      hide SavedFrom, Normalised, Normalize;
      NormalizeAll();
      written := Data(context, projects, hosts, instances);
    }

    /** Loads decoded contents: what a save wrote comes back unchanged. */
    method Load(decoded: Data)
      modifies this
      ensures State() == Normalize(decoded)
      ensures forall d :: decoded == Normalize(d) ==> State() == decoded
    {
      hide Normalize, Normalised, SavedFrom;
      context, projects, hosts, instances := decoded.context, decoded.projects, decoded.hosts, decoded.instances;
      NormalizeAll();
      forall d | decoded == Normalize(d) ensures State() == decoded {
        NormalizeIdempotent(d);
      }
    }

    // ----- hosts -----

    method AddHostRecord(name: string, username: string)
      modifies this`hosts
      ensures State() == AddHost(old(State()), name, username)
      ensures HostAdded(old(State()), State(), name, username)
    {
      NameFacts(name);
      AddHostFound(State(), name, username);
      hide HostName, HostAdded;
      var n := HostName(name);
      if n == "" {
        return;
      }
      var i := LookupHost(hosts, name);
      if i < |hosts| {
        var h := hosts[i].(name := n);
        if username != "" {
          h := h.(username := username);
        }
        hosts := hosts[i := h];
        return;
      }
      hosts := hosts + [NewHost(n, [], username)];
    }

    method RemoveHostRecord(name: string)
      modifies this`hosts
      ensures State() == RemoveHost(old(State()), name)
    {
      var kept: seq<Host> := [];
      for i := 0 to |hosts|
        invariant hosts == old(hosts)
        invariant kept == DropHost(hosts[..i], name)
      {
        assert hosts[..i + 1][..i] == hosts[..i];
        if HostName(hosts[i].name) != HostName(name) {
          kept := kept + [hosts[i]];
        }
      }
      assert hosts[..|hosts|] == hosts;
      hosts := kept;
    }

    method SetHostToDefault(name: string)
      modifies this`hosts
      ensures State() == SetDefault(old(State()), name)
      ensures if FoundHost(old(State()), name).Some? then OnlyDefault(old(hosts), hosts, name)
              else State() == old(State())
    {
      SetDefaultEffect(State(), name);
      hide OnlyDefault, HostName;
      if LookupHost(hosts, name) == |hosts| {
        return;
      }
      ghost var before := hosts;
      for i := 0 to |hosts|
        invariant |hosts| == |before|
        invariant forall j :: 0 <= j < i ==> hosts[j] == MarkDefault(before, name)[j]
        invariant forall j :: i <= j < |hosts| ==> hosts[j] == before[j]
      {
        hosts := hosts[i := hosts[i].(isDefault := HostName(hosts[i].name) == HostName(name))];
      }
      assert hosts == MarkDefault(before, name);
    }

    method RemoveProjectFromHost(host: string, project: string) returns (ok: bool)
      modifies this`hosts
      ensures ok <==> LookupHost(old(hosts), host) < |old(hosts)|
      ensures State() == Unlist(old(State()), host, project)
      ensures ok ==>
                var before, after := FoundHost(old(State()), host), FoundHost(State(), host);
                before.Some? && after.Some? && Unlisted(before.value, after.value, TrimSpace(project))
      ensures forall h :: !ok || HostName(h) != HostName(host) ==> FoundHost(State(), h) == FoundHost(old(State()), h)
    {
      forall h {
        UnlistEffect(State(), host, project, h);
      }
      hide HostName, TrimSpace, RemoveFirst, Unlisted;
      var i := LookupHost(hosts, host);
      if i == |hosts| {
        return false;
      }
      var listed := RemoveFirst(hosts[i].projects, ProjectName(project));
      hosts := hosts[i := hosts[i].(projects := listed, inUse := |listed| > 0)];
      return true;
    }

    method RegisterProjectInHost(host: string, project: string) returns (ok: bool)
      modifies this`hosts
      ensures ok <==>
                ProjectAt(projects, ProjectName(project)) < |projects| && LookupHost(old(hosts), host) < |old(hosts)|
      ensures State() == Register(old(State()), host, project)
      ensures ok ==>
                var before, after := FoundHost(old(State()), host), FoundHost(State(), host);
                before.Some? && after.Some? && Registered(before.value, after.value, ProjectName(project))
      ensures forall h :: !ok || HostName(h) != HostName(host) ==> FoundHost(State(), h) == FoundHost(old(State()), h)
    {
      forall h {
        RegisterEffect(State(), host, project, h);
      }
      hide HostName, ProjectName, Registered;
      var name := ProjectName(project);
      var i := LookupHost(hosts, host);
      if ProjectAt(projects, name) == |projects| || i == |hosts| {
        return false;
      }
      hosts := hosts[i := hosts[i].(inUse := true, projects := AppendMissing(hosts[i].projects, name))];
      return true;
    }

    // ----- projects -----

    method AddProjectUsingConfDir(name: string, confDir: string) returns (ok: bool)
      modifies this`projects
      ensures ok <==> ProjectName(name) != "" && ProjectAt(old(projects), ProjectName(name)) == |old(projects)|
      ensures State() == AddProject(old(State()), name, confDir, Flavour("", "", ""))
      ensures forall q :: FoundProject(State(), q) ==
                if ok && ProjectName(q) == ProjectName(name)
                    then Some(NewProject(ProjectName(name), confDir, Flavour("", "", "")))
                else FoundProject(old(State()), q)
    {
      NameFacts(name);
      forall q {
        AddProjectEffect(State(), name, confDir, Flavour("", "", ""), q);
      }
      hide ProjectName;
      var n := ProjectName(name);
      if n == "" || ProjectAt(projects, n) < |projects| {
        return false;
      }
      projects := projects + [NewProject(n, confDir, Flavour("", "", ""))];
      return true;
    }

    method AddProjectUsingFlavour(name: string, flavour: string, overrideDir: string) returns (ok: bool)
      modifies this`projects
      ensures ok <==> ProjectName(name) != "" && ProjectAt(old(projects), ProjectName(name)) == |old(projects)|
      ensures State() == AddProject(old(State()), name, "", Flavour(flavour, overrideDir, ""))
      ensures forall q :: FoundProject(State(), q) ==
                if ok && ProjectName(q) == ProjectName(name)
                    then Some(NewProject(ProjectName(name), "", Flavour(flavour, overrideDir, "")))
                else FoundProject(old(State()), q)
    {
      NameFacts(name);
      forall q {
        AddProjectEffect(State(), name, "", Flavour(flavour, overrideDir, ""), q);
      }
      hide ProjectName;
      var n := ProjectName(name);
      if n == "" || ProjectAt(projects, n) < |projects| {
        return false;
      }
      projects := projects + [NewProject(n, "", Flavour(flavour, overrideDir, ""))];
      return true;
    }

    method RemoveProjectRecord(name: string)
      modifies this`projects
      ensures State() == RemoveProject(old(State()), name)
    {
      var kept: seq<Project> := [];
      for i := 0 to |projects|
        invariant projects == old(projects)
        invariant kept == DropProject(projects[..i], name)
      {
        assert projects[..i + 1][..i] == projects[..i];
        if ProjectName(projects[i].name) != ProjectName(name) {
          kept := kept + [projects[i]];
        }
      }
      assert projects[..|projects|] == projects;
      projects := kept;
    }

    method MapProject(name: string, host: string) returns (ok: bool)
      modifies this`projects
      ensures ok <==> ProjectAt(old(projects), name) < |old(projects)|
      ensures State() == SetProjectHost(old(State()), name, host)
      ensures Mapped(old(State()), State(), name, host)
    {
      MapFound(State(), name, host);
      hide Mapped, Unmapped, HostName, ProjectName;
      var i := ProjectAt(projects, name);
      if i == |projects| {
        return false;
      }
      projects := projects[i := projects[i].(host := HostName(host))];
      return true;
    }

    method RemoveHostAndContainersFromProject(name: string) returns (ok: bool)
      modifies this`projects
      ensures ok <==> ProjectAt(old(projects), name) < |old(projects)|
      ensures State() == Unmap(old(State()), name)
      ensures Unmapped(old(State()), State(), name)
    {
      MapFound(State(), name, "");
      hide Mapped, Unmapped, HostName, ProjectName;
      var i := ProjectAt(projects, name);
      if i == |projects| {
        return false;
      }
      projects := projects[i := projects[i].(containers := [], host := "")];
      return true;
    }

    method UpsertProjectContainer(name: string, info: Report) returns (ok: bool)
      modifies this`projects
      ensures ok <==> ProjectAt(old(projects), name) < |old(projects)|
      ensures State() == UpsertContainer(old(State()), name, info)
    {
      var i := ProjectAt(projects, name);
      if i == |projects| {
        return false;
      }
      var cs, updated := projects[i].containers, ToContainer(info);
      TrimSpaceFixed(info.name);
      var k := 0;
      while k < |cs| && TrimSpace(cs[k].name) != updated.name
        invariant 0 <= k <= |cs|
        invariant forall j :: 0 <= j < k ==> TrimSpace(cs[j].name) != updated.name
      {
        k := k + 1;
      }
      assert k == ContainerAt(cs, updated.name);
      cs := if k < |cs| then cs[k := updated] else cs + [updated];
      projects := projects[i := projects[i].(containers := cs)];
      return true;
    }

    method AddContainerInfo(name: string, info: Report) returns (ok: bool)
      modifies this`projects
      ensures ok <==> ProjectAt(old(projects), name) < |old(projects)|
      ensures State() == AddContainer(old(State()), name, info)
      ensures forall q :: ProjectName(q) != ProjectName(name) ==>
          FoundProject(State(), q) == FoundProject(old(State()), q)
      ensures ok ==>
                var before, after := FoundProject(old(State()), name), FoundProject(State(), name);
                && before.Some? && after.Some? && after.value == before.value.(containers := after.value.containers)
                && forall m :: FoundContainer(after.value.containers, m) ==
                     if TrimSpace(m) == TrimSpace(info.name) && FoundContainer(before.value.containers, m).None?
                     then Some(ToContainer(info))
                     else FoundContainer(before.value.containers, m)
    {
      TrimSpaceFixed(info.name);
      forall q, m {
        AddContainerEffect(State(), name, info, q, m);
      }
      hide ProjectName, TrimSpace, FoundContainer;
      var i := ProjectAt(projects, name);
      if i == |projects| {
        return false;
      }
      var cs, added := projects[i].containers, ToContainer(info);
      if ContainerAt(cs, added.name) == |cs| {
        cs := cs + [added];
      }
      projects := projects[i := projects[i].(containers := cs)];
      return true;
    }

    method RemoveProjectContainers(name: string, names: seq<string>) returns (ok: bool)
      modifies this`projects
      ensures ok <==> ProjectAt(old(projects), name) < |old(projects)|
      ensures State() == RemoveContainers(old(State()), name, names)
    {
      var i := ProjectAt(projects, name);
      if i == |projects| {
        return false;
      }
      var cs, kept := projects[i].containers, [];
      for k := 0 to |cs|
        invariant kept == DropContainers(cs[..k], TrimAll(names))
      {
        assert cs[..k + 1][..k] == cs[..k];
        if TrimSpace(cs[k].name) !in TrimAll(names) {
          kept := kept + [cs[k]];
        }
      }
      assert cs[..|cs|] == cs;
      projects := projects[i := projects[i].(containers := kept)];
      return true;
    }

    // ----- commands -----

    method RemoveHostWithMappings(name: string) returns (ok: bool)
      modifies this
      ensures (State(), ok) == RemoveHostFromConfig(old(State()), name)
    {
      hide SetProjectHost, RemoveHost, ProjectAt, ProjectName, HostName, Mapped;
      var i := LookupHost(hosts, name);
      var listed := if i < |hosts| then hosts[i].projects else [];
      ghost var before := State();
      for k := 0 to |listed|
        invariant UnmapAll(before, listed[..k]) == (State(), true)
        invariant hosts == before.hosts
      {
        assert listed[..k + 1][..k] == listed[..k];
        ghost var here := State();
        var mapped := MapProject(listed[k], "");
        if !mapped {
          MissingKeeps(here, listed[k]);
          UnmapAllStops(before, listed, k + 1);
          return false;
        }
      }
      assert listed[..|listed|] == listed;
      RemoveHostRecord(name);
      return true;
    }

    method Unregister(name: string)
      modifies this`hosts
      ensures var i := ProjectAt(projects, name);
              var host := if i < |projects| then projects[i].host else "";
              State() == if host == "" then old(State()) else Unlist(old(State()), host, name)
    {
      var i := ProjectAt(projects, name);
      var host := if i < |projects| then projects[i].host else "";
      if host != "" {
        var _ := RemoveProjectFromHost(host, name);
      }
    }

    /** The store steps of drain, after clearing. */
    method DrainProject(name: string) returns (ok: bool)
      modifies this
      ensures ok <==> ProjectAt(old(projects), name) < |old(projects)|
      ensures State() == Drain(old(State()), name)
    {
      hide Unmapped, Unlisted, FoundHost;
      Unregister(name);
      ok := RemoveHostAndContainersFromProject(name);
    }
  }

  lemma MissingKeeps(d: Data, name: string)
    ensures ProjectAt(d.projects, name) == |d.projects| ==> SetProjectHost(d, name, "") == d
  {
  }

  /** Once a listed project is missing the loop has stopped for good. */
  lemma {:induction false} UnmapAllStops(d: Data, names: seq<string>, k: nat)
    requires k <= |names| && !UnmapAll(d, names[..k]).1
    ensures UnmapAll(d, names) == UnmapAll(d, names[..k])
    decreases |names| - k
  {
    if k < |names| {
      assert names[..k + 1][..k] == names[..k];
      UnmapAllStops(d, names, k + 1);
    } else {
      assert names[..k] == names;
    }
  }
}
