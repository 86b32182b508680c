/** What the mutators that add records achieve, seen through the lookups. */
module StoreEffects {
  import opened Text
  import opened StoreModel
  import opened StoreOps

  /** The first host record of that normalised name. */
  function FoundHost(d: Data, name: string): Option<Host> {
    var i := LookupHost(d.hosts, name);
    if i < |d.hosts| then Some(d.hosts[i]) else None
  }

  /** The first project record of that trimmed name. */
  function FoundProject(d: Data, name: string): Option<Project> {
    var i := ProjectAt(d.projects, name);
    if i < |d.projects| then Some(d.projects[i]) else None
  }

  /** The first container of that trimmed name in a list. */
  function FoundContainer(cs: seq<Container>, name: string): Option<Container> {
    var i := ContainerAt(cs, name);
    if i < |cs| then Some(cs[i]) else None
  }

  /** Only what a host lookup finds may have changed. */
  predicate SameButHosts(before: Data, after: Data) {
    after.context == before.context && after.projects == before.projects && after.instances == before.instances
  }

  predicate SameButProjects(before: Data, after: Data) {
    after.context == before.context && after.hosts == before.hosts && after.instances == before.instances
  }

  lemma LookupSnoc(hs: seq<Host>, x: Host, h: string)
    ensures LookupHost(hs + [x], h) ==
              if LookupHost(hs, h) < |hs| then LookupHost(hs, h)
              else if HostName(x.name) == HostName(h) then |hs|
              else |hs| + 1
  {
    hide HostName, LookupHost;
    var all, i, j := hs + [x], LookupHost(hs, h), LookupHost(hs + [x], h);
    assert all[|hs|] == x && forall k :: 0 <= k < |hs| ==> all[k] == hs[k];
    if i < |hs| {
      assert all[i] == hs[i];
    }
  }

  lemma LookupPut(hs: seq<Host>, i: nat, x: Host, h: string)
    requires i < |hs| && HostName(x.name) == HostName(hs[i].name)
    ensures LookupHost(hs[i := x], h) == LookupHost(hs, h)
  {
    hide HostName;
    var s, j, k := hs[i := x], LookupHost(hs, h), LookupHost(hs[i := x], h);
    assert forall n :: 0 <= n < |hs| ==> HostName(s[n].name) == HostName(hs[n].name);
    assert j < |hs| ==> HostName(s[j].name) == HostName(h);
  }

  /** The record of an added host: the old one under its normalised name, or a
      new one; a user name is only ever replaced by a non-empty one. */
  function AddedHost(found: Option<Host>, name: string, username: string): Host {
    if found.Some? then found.value.(name := HostName(name), username := FirstText(username, found.value.username))
    else NewHost(HostName(name), [], username)
  }

  /** An added host is found under its name, in whatever spelling, with the
      user name; no other lookup changes, and blank names add nothing. */
  lemma AddHostEffect(d: Data, name: string, username: string, h: string)
    requires HostName(HostName(name)) == HostName(name)
    ensures var r := AddHost(d, name, username);
            && SameButHosts(d, r)
            && FoundHost(r, h) ==
               if HostName(name) != "" && HostName(h) == HostName(name)
                   then Some(AddedHost(FoundHost(d, name), name, username))
               else FoundHost(d, h)
  {
    hide HostName;
    var n, i := HostName(name), LookupHost(d.hosts, name);
    if n != "" {
      assert HostName(h) == n ==> LookupHost(d.hosts, h) == i by {
        SameLookup(d.hosts, h, name);
      }
      if i < |d.hosts| {
        LookupPut(d.hosts, i, AddedHost(FoundHost(d, name), name, username), h);
      } else {
        LookupSnoc(d.hosts, NewHost(n, [], username), h);
      }
    }
  }

  /** The effect of adding a host, on every lookup. */
  ghost predicate HostAdded(before: Data, after: Data, name: string, username: string) {
    && SameButHosts(before, after)
    && forall h :: FoundHost(after, h) ==
         if HostName(name) != "" && HostName(h) == HostName(name)
             then Some(AddedHost(FoundHost(before, name), name, username))
         else FoundHost(before, h)
  }

  lemma AddHostFound(d: Data, name: string, username: string)
    requires HostName(HostName(name)) == HostName(name)
    ensures HostAdded(d, AddHost(d, name, username), name, username)
  {
    hide HostName, FoundHost, AddHost, AddedHost, SameButHosts;
    AddHostEffect(d, name, username, "");
    forall h
      ensures FoundHost(AddHost(d, name, username), h) ==
                if HostName(name) != "" && HostName(h) == HostName(name)
                    then Some(AddedHost(FoundHost(d, name), name, username))
                else FoundHost(d, h)
    {
      AddHostEffect(d, name, username, h);
    }
  }

  lemma SameLookup(hs: seq<Host>, a: string, b: string)
    ensures HostName(a) == HostName(b) ==> LookupHost(hs, a) == LookupHost(hs, b)
  {
    hide HostName;
    var i, j := LookupHost(hs, a), LookupHost(hs, b);
  }

  /** The host lists the project and is in use; what it listed, it lists still,
      and nothing else. */
  predicate Registered(before: Host, after: Host, project: string) {
    && after == before.(projects := after.projects, inUse := true)
    && project in after.projects && before.projects <= after.projects
    && (forall q :: q in after.projects ==> q in before.projects || q == project)
    && (project in before.projects ==> after.projects == before.projects)
  }

  /** A registered project is listed by its host; no other host changes. */
  lemma RegisterEffect(d: Data, host: string, project: string, h: string)
    ensures var r := Register(d, host, project);
            var found := FoundHost(d, host);
            && SameButHosts(d, r) && |r.hosts| == |d.hosts|
            && (if found.Some? && FoundProject(d, ProjectName(project)).Some? then
                  var after := FoundHost(r, host);
                  && after.Some? && Registered(found.value, after.value, ProjectName(project))
                  && (HostName(h) != HostName(host) ==> FoundHost(r, h) == FoundHost(d, h))
                else r == d)
  {
    hide HostName, ProjectName;
    var i, j := LookupHost(d.hosts, host), ProjectAt(d.projects, ProjectName(project));
    if i < |d.hosts| && j < |d.projects| {
      var x := Register(d, host, project).hosts[i];
      LookupPut(d.hosts, i, x, host);
      LookupPut(d.hosts, i, x, h);
    }
  }

  lemma ProjectSnoc(ps: seq<Project>, x: Project, name: string)
    ensures ProjectAt(ps + [x], name) ==
              if ProjectAt(ps, name) < |ps| then ProjectAt(ps, name)
              else if ProjectName(x.name) == ProjectName(name) then |ps| else |ps| + 1
  {
    hide ProjectName, ProjectAt;
    var all, i, j := ps + [x], ProjectAt(ps, name), ProjectAt(ps + [x], name);
    assert all[|ps|] == x && forall k :: 0 <= k < |ps| ==> all[k] == ps[k];
    if i < |ps| {
      assert all[i] == ps[i];
    }
  }

  /** A project whose name is new and not blank is found, bare, under that
      name; every other project is found as before. */
  lemma AddProjectEffect(d: Data, name: string, confDir: string, flavour: Flavour, q: string)
    requires ProjectName(ProjectName(name)) == ProjectName(name)
    ensures var r := AddProject(d, name, confDir, flavour);
            && SameButProjects(d, r)
            && FoundProject(r, q) ==
               if ProjectName(name) != "" && ProjectName(q) == ProjectName(name) && FoundProject(d, name).None?
               then Some(NewProject(ProjectName(name), confDir, flavour))
               else FoundProject(d, q)
  {
    hide ProjectName;
    var n := ProjectName(name);
    SameProject(d.projects, n, name);
    SameProject(d.projects, q, name);
    ProjectSnoc(d.projects, NewProject(n, confDir, flavour), q);
  }

  lemma SameProject(ps: seq<Project>, a: string, b: string)
    ensures ProjectName(a) == ProjectName(b) ==> ProjectAt(ps, a) == ProjectAt(ps, b)
  {
    hide ProjectName;
    var i, j := ProjectAt(ps, a), ProjectAt(ps, b);
  }

  lemma ContainerSnoc(cs: seq<Container>, x: Container, m: string)
    ensures FoundContainer(cs + [x], m) ==
              if FoundContainer(cs, m).Some? then FoundContainer(cs, m)
              else if TrimSpace(x.name) == TrimSpace(m) then Some(x) else None
  {
    hide TrimSpace, ContainerAt;
    var all, i, j := cs + [x], ContainerAt(cs, m), ContainerAt(cs + [x], m);
    assert all[|cs|] == x && forall k :: 0 <= k < |cs| ==> all[k] == cs[k];
    if i < |cs| {
      assert all[i] == cs[i];
    }
  }

  lemma SameContainer(cs: seq<Container>, a: string, b: string)
    ensures TrimSpace(a) == TrimSpace(b) ==> ContainerAt(cs, a) == ContainerAt(cs, b)
  {
    hide TrimSpace;
    var i, j := ContainerAt(cs, a), ContainerAt(cs, b);
  }

  lemma ProjectPut(ps: seq<Project>, i: nat, x: Project, q: string)
    requires i < |ps| && ProjectName(x.name) == ProjectName(ps[i].name)
    ensures ProjectAt(ps[i := x], q) == ProjectAt(ps, q)
  {
    hide ProjectName;
    var s, j, k := ps[i := x], ProjectAt(ps, q), ProjectAt(ps[i := x], q);
    assert forall n :: 0 <= n < |ps| ==> ProjectName(s[n].name) == ProjectName(ps[n].name);
    assert j < |ps| ==> ProjectName(s[j].name) == ProjectName(q);
  }

  /** An added container is found in its project under its name, unless one of
      that name was there, which then stays; every other container and every
      other project is found as before. */
  lemma AddContainerEffect(d: Data, name: string, info: Report, q: string, m: string)
    requires TrimSpace(TrimSpace(info.name)) == TrimSpace(info.name)
    ensures var r := AddContainer(d, name, info);
            && SameButProjects(d, r)
            && (ProjectName(q) != ProjectName(name) ==> FoundProject(r, q) == FoundProject(d, q))
            && match FoundProject(d, name)
               case None => r == d
               case Some(p) =>
                 var after := FoundProject(r, name);
                 && after.Some? && after.value == p.(containers := after.value.containers)
                 && FoundContainer(after.value.containers, m) ==
                    if TrimSpace(m) == TrimSpace(info.name) && FoundContainer(p.containers, m).None?
                    then Some(ToContainer(info))
                    else FoundContainer(p.containers, m)
  {
    hide TrimSpace, ProjectName;
    var i := ProjectAt(d.projects, name);
    if i < |d.projects| {
      var p, c := d.projects[i], ToContainer(info);
      var x := p.(containers := AddIn(p.containers, c));
      ProjectPut(d.projects, i, x, name);
      ProjectPut(d.projects, i, x, q);
      SameContainer(p.containers, c.name, m);
      ContainerSnoc(p.containers, c, m);
    }
  }

  /** A new project has nothing but its name, directory and flavour. */
  lemma NewProjectBare(name: string, confDir: string, flavour: Flavour)
    ensures NewProject(name, confDir, flavour) ==
            Project(name, confDir, "", [], false, flavour, SrcRepo("", false, "", ""), false, "", false, false)
  {
  }

  /** A new host has nothing but its name, list and user name. */
  lemma NewHostBare(name: string, projects: seq<string>, username: string)
    ensures NewHost(name, projects, username) ==
            Host(name, projects, false, false, Orchestration("", "", 0, ""), Runtime("", ""), Ownership(0, "", "", ""),
                 username, false, "", "")
  {
  }

  // ----- default host -----

  /** Exactly the hosts of that name are default, and nothing else changed. */
  ghost predicate OnlyDefault(before: seq<Host>, after: seq<Host>, name: string) {
    && |after| == |before|
    && forall i :: 0 <= i < |before| ==>
         && (after[i].isDefault <==> Lower(TrimSpace(before[i].name)) == Lower(TrimSpace(name)))
         && after[i] == before[i].(isDefault := after[i].isDefault)
  }

  lemma SetDefaultEffect(d: Data, name: string)
    ensures var r := SetDefault(d, name);
            if FoundHost(d, name).Some? then SameButHosts(d, r) && OnlyDefault(d.hosts, r.hosts, name) else r == d
  {
    hide TrimSpace, Lower;
  }

  /** The context becomes the given name iff such a project exists. */
  lemma SetContextEffect(d: Data, name: string)
    ensures SetContext(d, name) ==
            d.(context := if exists i :: 0 <= i < |d.projects| && TrimSpace(d.projects[i].name) == TrimSpace(name)
                          then name else d.context)
  {
    hide TrimSpace;
    var k := ProjectAt(d.projects, name);
    if k < |d.projects| {
      assert TrimSpace(d.projects[k].name) == TrimSpace(name);
    }
  }

  // ----- removing a project from a host's list -----

  /** The name's first occurrence is gone, the rest is in order. */
  ghost predicate WithoutFirst(before: seq<string>, after: seq<string>, name: string) {
    if name in before then
      exists i ::
        0 <= i < |before| && before[i] == name && name !in before[..i] && after == before[..i] + before[i + 1..]
    else after == before
  }

  lemma WithoutFirstAt(before: seq<string>, after: seq<string>, name: string, i: nat)
    requires i < |before| && before[i] == name && name !in before[..i] && after == before[..i] + before[i + 1..]
    ensures WithoutFirst(before, after, name)
  {
  }

  lemma NotBefore(x: string, tail: seq<string>, name: string, i: nat)
    requires x != name && i < |tail| && tail[i] == name && name !in tail[..i]
    ensures ([x] + tail)[i + 1] == name && name !in ([x] + tail)[..i + 1]
  {
    assert ([x] + tail)[..i + 1] == [x] + tail[..i];
  }

  lemma ConsParts(x: string, tail: seq<string>, i: nat)
    requires i < |tail|
    ensures [x] + (tail[..i] + tail[i + 1..]) == ([x] + tail)[..i + 1] + ([x] + tail)[i + 2..]
  {
    assert ([x] + tail)[..i + 1] == [x] + tail[..i];
    assert ([x] + tail)[i + 2..] == tail[i + 1..];
  }

  lemma WithoutFirstCons(x: string, tail: seq<string>, rest: seq<string>, name: string)
    requires x != name && WithoutFirst(tail, rest, name)
    ensures WithoutFirst([x] + tail, [x] + rest, name)
  {
    if name in tail {
      var i :| 0 <= i < |tail| && tail[i] == name && name !in tail[..i] && rest == tail[..i] + tail[i + 1..];
      hide WithoutFirst;
      NotBefore(x, tail, name, i);
      ConsParts(x, tail, i);
      WithoutFirstAt([x] + tail, [x] + rest, name, i + 1);
    }
  }

  lemma {:induction false} RemoveFirstExactly(ps: seq<string>, name: string)
    ensures WithoutFirst(ps, RemoveFirst(ps, name), name)
  {
    if ps != [] {
      var tail := ps[1..];
      RemoveFirstExactly(tail, name);
      assert ps == [ps[0]] + tail;
      hide WithoutFirst;
      if ps[0] == name {
        assert ps[..0] == [] && ps[..0] + ps[1..] == ps[1..];
        WithoutFirstAt(ps, ps[1..], name, 0);
      } else {
        WithoutFirstCons(ps[0], tail, RemoveFirst(tail, name), name);
      }
    }
  }

  /** The host no longer lists that occurrence, and is in use iff it lists more. */
  ghost predicate Unlisted(before: Host, after: Host, project: string) {
    && WithoutFirst(before.projects, after.projects, project)
    && after == before.(projects := after.projects, inUse := after.projects != [])
  }

  lemma UnlistEffect(d: Data, host: string, project: string, h: string)
    ensures var r := Unlist(d, host, project);
            var before, after := FoundHost(d, host), FoundHost(r, host);
            && SameButHosts(d, r) && |r.hosts| == |d.hosts|
            && (if before.Some? then after.Some? && Unlisted(before.value, after.value, TrimSpace(project)) else r == d)
            && (HostName(h) != HostName(host) ==> FoundHost(r, h) == FoundHost(d, h))
  {
    hide HostName, TrimSpace, RemoveFirst, WithoutFirst;
    var i := LookupHost(d.hosts, host);
    if i < |d.hosts| {
      RemoveFirstExactly(d.hosts[i].projects, ProjectName(project));
      var x := Unlist(d, host, project).hosts[i];
      LookupPut(d.hosts, i, x, host);
      LookupPut(d.hosts, i, x, h);
    }
  }

  // ----- mapping and unmapping -----

  /** Mapping sets the host, in its normal spelling, and nothing else. */
  lemma MapEffect(d: Data, name: string, host: string, q: string)
    ensures var r := SetProjectHost(d, name, host);
            && SameButProjects(d, r)
            && FoundProject(r, q) ==
               if ProjectName(q) == ProjectName(name) && FoundProject(d, name).Some?
               then Some(FoundProject(d, name).value.(host := Lower(TrimSpace(host))))
               else FoundProject(d, q)
  {
    hide ProjectName, TrimSpace, Lower;
    PutEffect(d, name, (p: Project) => p.(host := HostName(host)), q);
  }

  /** Unmapping takes host and containers, and nothing else. */
  lemma UnmapEffect(d: Data, name: string, q: string)
    ensures var r := Unmap(d, name);
            && SameButProjects(d, r)
            && FoundProject(r, q) ==
               if ProjectName(q) == ProjectName(name) && FoundProject(d, name).Some?
               then Some(FoundProject(d, name).value.(host := "", containers := []))
               else FoundProject(d, q)
  {
    hide ProjectName;
    PutEffect(d, name, (p: Project) => p.(containers := [], host := ""), q);
  }

  /** The effect of mapping a project, on every lookup. */
  ghost predicate Mapped(before: Data, after: Data, name: string, host: string) {
    && SameButProjects(before, after)
    && forall q :: FoundProject(after, q) ==
         if ProjectName(q) == ProjectName(name) && FoundProject(before, name).Some?
         then Some(FoundProject(before, name).value.(host := Lower(TrimSpace(host))))
         else FoundProject(before, q)
  }

  ghost predicate Unmapped(before: Data, after: Data, name: string) {
    && SameButProjects(before, after)
    && forall q :: FoundProject(after, q) ==
         if ProjectName(q) == ProjectName(name) && FoundProject(before, name).Some?
         then Some(FoundProject(before, name).value.(host := "", containers := []))
         else FoundProject(before, q)
  }

  lemma MapFound(d: Data, name: string, host: string)
    ensures Mapped(d, SetProjectHost(d, name, host), name, host)
    ensures Unmapped(d, Unmap(d, name), name)
  {
    hide ProjectName, TrimSpace, Lower, SetProjectHost, Unmap;
    forall q {
      MapEffect(d, name, host, q);
    }
    forall q {
      UnmapEffect(d, name, q);
    }
    MapEffect(d, name, host, "");
    UnmapEffect(d, name, "");
    hide FoundProject, SameButProjects;
  }

  lemma PutEffect(d: Data, name: string, change: Project -> Project, q: string)
    requires forall p :: change(p).name == p.name
    ensures var r := PutProject(d, name, change);
            && SameButProjects(d, r)
            && FoundProject(r, q) ==
               if ProjectName(q) == ProjectName(name) && FoundProject(d, name).Some?
               then Some(change(FoundProject(d, name).value))
               else FoundProject(d, q)
  {
    hide ProjectName;
    var i := ProjectAt(d.projects, name);
    SameProject(d.projects, q, name);
    if i < |d.projects| {
      ProjectPut(d.projects, i, change(d.projects[i]), q);
    }
  }

  // ----- removing records -----

  /** Removing records goes through any parts of a list separately, and record
      by record, so what is left keeps its order. */
  lemma DropHostOne(h: Host, name: string)
    ensures DropHost([h], name) == if Lower(TrimSpace(h.name)) == Lower(TrimSpace(name)) then [] else [h]
  {
    assert [h][..0] == [];
  }

  lemma {:induction false} DropHostConcat(a: seq<Host>, b: seq<Host>, name: string)
    ensures DropHost(a + b, name) == DropHost(a, name) + DropHost(b, name)
  {
    hide TrimSpace, Lower;
    if b == [] {
      assert a + b == a;
    } else {
      assert (a + b)[..|a + b| - 1] == a + b[..|b| - 1];
      DropHostConcat(a, b[..|b| - 1], name);
    }
  }

  lemma DropProjectOne(p: Project, name: string)
    ensures DropProject([p], name) == if TrimSpace(p.name) == TrimSpace(name) then [] else [p]
  {
    assert [p][..0] == [];
  }

  lemma {:induction false} DropProjectConcat(a: seq<Project>, b: seq<Project>, name: string)
    ensures DropProject(a + b, name) == DropProject(a, name) + DropProject(b, name)
  {
    hide TrimSpace, Lower;
    if b == [] {
      assert a + b == a;
    } else {
      assert (a + b)[..|a + b| - 1] == a + b[..|b| - 1];
      DropProjectConcat(a, b[..|b| - 1], name);
    }
  }

  lemma DropContainersOne(c: Container, names: set<string>)
    ensures DropContainers([c], names) == if TrimSpace(c.name) in names then [] else [c]
  {
    assert [c][..0] == [];
  }

  lemma {:induction false} DropContainersConcat(a: seq<Container>, b: seq<Container>, names: set<string>)
    ensures DropContainers(a + b, names) == DropContainers(a, names) + DropContainers(b, names)
  {
    hide TrimSpace, Lower;
    if b == [] {
      assert a + b == a;
    } else {
      assert (a + b)[..|a + b| - 1] == a + b[..|b| - 1];
      DropContainersConcat(a, b[..|b| - 1], names);
    }
  }
}
