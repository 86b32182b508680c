/** What draining a project and removing a host leave in the saved store. */
module StoreCommands {
  import opened KeyedMerge
  import opened StoreModel
  import opened StoreLaws
  import opened StoreLists
  import opened StoreNormal
  import opened StoreOps
  import opened StoreRuns

  lemma ProjectAtUnique(ps: seq<Project>, i: nat, name: string)
    requires ProjectsOk(ps) && i < |ps| && ProjectName(name) == ps[i].name
    ensures ProjectAt(ps, name) == i
  {
    var j := ProjectAt(ps, name);
    assert CleanProject(ps[i]) == ps[i];
    if j < |ps| {
      assert CleanProject(ps[j]) == ps[j];
    }
  }

  lemma LookupHostIsAt(hs: seq<Host>, name: string)
    requires forall i :: 0 <= i < |hs| ==> HostName(hs[i].name) == hs[i].name
    ensures LookupHost(hs, name) == HostAt(hs, HostName(name))
  {
    hide HostName;
  }

  /** The project record and the name lists do not see containers or hosts. */
  lemma SameNames(ps: seq<Project>, qs: seq<Project>)
    requires |ps| == |qs| && forall i :: 0 <= i < |ps| ==> ps[i].name == qs[i].name
    ensures ProjectNames(ps) == ProjectNames(qs)
  {
    forall n ensures n in ProjectNames(ps) <==> n in ProjectNames(qs) {
      if n in ProjectNames(ps) {
        var i :| 0 <= i < |ps| && ps[i].name != "" && ps[i].name == n;
        assert qs[i].name == n;
      }
      if n in ProjectNames(qs) {
        var i :| 0 <= i < |qs| && qs[i].name != "" && qs[i].name == n;
        assert ps[i].name == n;
      }
    }
  }

  lemma CleanUnmapped(p: Project)
    requires CleanProject(p) == p
    ensures CleanProject(p.(host := "")) == p.(host := "")
    ensures CleanProject(p.(containers := [], host := "")) == p.(containers := [], host := "")
  {
    NameFacts("");
  }

  // ----- drain -----

  function HostOf(d: Data, name: string): string {
    var i := ProjectAt(d.projects, name);
    if i == |d.projects| then "" else d.projects[i].host
  }

  /** The store steps of drain after the containers were cleared. */
  function Drain(d: Data, name: string): Data {
    var host := HostOf(d, name);
    Unmap(if host == "" then d else Unlist(d, host, name), name)
  }

  /** The store with project i unmapped, unlisted and without containers. */
  function Drained(d: Data, i: nat): Data
    requires i < |d.projects|
  {
    var p, k := d.projects[i], HostAt(d.hosts, d.projects[i].host);
    var projects := d.projects[i := p.(containers := [], host := "")];
    if k == |d.hosts| then d.(projects := projects)
    else
      var listed := RemoveFirst(d.hosts[k].projects, p.name);
      d.(projects := projects, hosts := d.hosts[k := d.hosts[k].(projects := listed, inUse := |listed| > 0)])
  }

  lemma DrainIsDrained(d: Data, name: string, i: nat, cs: seq<Container>)
    requires Normalised(d) && i < |d.projects| && ProjectName(name) == d.projects[i].name && d.projects[i].host != ""
    ensures Drain(d.(projects := d.projects[i := d.projects[i].(containers := cs)]), name) == Drained(d, i)
  {
    hide CleanProject, HostName, ProjectName;
    var p := d.projects[i];
    var ps := d.projects[i := p.(containers := cs)];
    var d0 := d.(projects := ps);
    NameFacts(name);
    ProjectAtUnique(d.projects, i, name);
    SameProjectAt(d.projects, ps, name);
    LookupHostIsAt(d.hosts, p.host);
    assert CleanProject(p) == p;
    assert Drain(d0, name).projects == ps[i := ps[i].(containers := [], host := "")];
    assert Drain(d0, name).projects == Drained(d, i).projects;
  }

  lemma SameProjectAt(ps: seq<Project>, qs: seq<Project>, name: string)
    requires |ps| == |qs| && forall i :: 0 <= i < |ps| ==> ps[i].name == qs[i].name
    ensures ProjectAt(ps, name) == ProjectAt(qs, name)
  {
    hide ProjectName;
  }

  /** The list of the drained project's host. */
  lemma DrainedList(d: Data, i: nat)
    requires Normalised(d) && i < |d.projects| && d.projects[i].host != ""
    ensures var p := d.projects[i];
            var k := HostAt(d.hosts, p.host);
            && k < |d.hosts| && d.hosts[k].name == p.host
            && var listed := RemoveFirst(d.hosts[k].projects, p.name);
               && CleanList(listed, ProjectNames(d.projects))
               && (forall q :: q in listed <==> q in d.hosts[k].projects && q != p.name)
    ensures forall j :: 0 <= j < |d.hosts| && d.projects[i].name in d.hosts[j].projects ==>
        d.hosts[j].name == d.projects[i].host
  {
    hide CleanProject, HostName, ProjectName, RemoveFirst;
    var p := d.projects[i];
    assert Lists(d.hosts, p.host, p.name);
    var k := HostAt(d.hosts, p.host);
    RemoveFirstFacts(d.hosts[k].projects, p.name);
    var listed := RemoveFirst(d.hosts[k].projects, p.name);
    assert forall n :: 0 <= n < |listed| ==> listed[n] in listed && listed[n] in d.hosts[k].projects;
  }

  lemma DrainedHosts(d: Data, i: nat)
    requires Normalised(d) && i < |d.projects| && d.projects[i].host != ""
    ensures HostsOk(Drained(d, i).hosts, ProjectNames(d.projects)) && FlagsOk(Drained(d, i).hosts)
    ensures |Drained(d, i).hosts| == |d.hosts|
    ensures forall j :: 0 <= j < |d.hosts| ==>
              && Drained(d, i).hosts[j].name == d.hosts[j].name
              && forall q :: q in Drained(d, i).hosts[j].projects <==>
                  q in d.hosts[j].projects && q != d.projects[i].name
  {
    hide CleanProject, HostName, ProjectName, RemoveFirst, CleanList, HostAt;
    DrainedList(d, i);
    hide Linked, ProjectsOk, ContextOk, RegistriesOk;
    var k := HostAt(d.hosts, d.projects[i].host);
    assert forall j :: 0 <= j < |d.hosts| && j != k ==> d.hosts[j].name != d.hosts[k].name;
  }

  lemma DrainedNormalised(d: Data, i: nat)
    requires Normalised(d) && i < |d.projects| && d.projects[i].host != ""
    ensures Normalised(Drained(d, i))
  {
    hide CleanProject, HostName, ProjectName;
    var r := Drained(d, i);
    CleanUnmapped(d.projects[i]);
    SameNames(d.projects, r.projects);
    DrainedHosts(d, i);
    forall j | 0 <= j < |r.projects| && r.projects[j].host != ""
      ensures Lists(r.hosts, r.projects[j].host, r.projects[j].name)
    {
      assert j != i && Lists(d.hosts, d.projects[j].host, d.projects[j].name);
      HostAtUnique(r.hosts, HostAt(d.hosts, d.projects[j].host));
    }
    if r.context != "" {
      var j :| 0 <= j < |d.projects| && d.projects[j].name == d.context;
      assert r.projects[j].name == d.context;
    }
  }

  /** Draining a mapped project, whatever its clearing left of its containers,
      and saving: the project has no host, no containers and no listing, and
      every other project record and every other listing is unchanged. */
  lemma DrainTheorem(d: Data, name: string, i: nat, cs: seq<Container>)
    requires Normalised(d) && i < |d.projects| && ProjectName(name) == d.projects[i].name && d.projects[i].host != ""
    ensures var cleared := d.(projects := d.projects[i := d.projects[i].(containers := cs)]);
            var r := Normalize(Drain(cleared, name));
            && |r.projects| == |d.projects| && r.projects[i] == d.projects[i].(host := "", containers := [])
            && (forall j :: 0 <= j < |d.projects| && j != i ==> r.projects[j] == d.projects[j])
            && |r.hosts| == |d.hosts| && r.context == d.context && r.instances == d.instances
            && (forall j :: 0 <= j < |d.hosts| ==>
                  && r.hosts[j] == d.hosts[j].(projects := r.hosts[j].projects, inUse := r.hosts[j].inUse)
                  && forall q :: q in r.hosts[j].projects <==> q in d.hosts[j].projects && q != d.projects[i].name)
  {
    hide CleanProject, HostName, ProjectName, Normalize, Drain, RemoveFirst;
    DrainIsDrained(d, name, i, cs);
    DrainedNormalised(d, i);
    NormalizeFixed(Drained(d, i));
    DrainedHosts(d, i);
  }

  /** An unmapped project keeps whatever listings it had: draining it leaves
      the saved hosts as they were. */
  lemma DrainUnmapped(d: Data, name: string, i: nat, cs: seq<Container>)
    requires Normalised(d) && i < |d.projects| && ProjectName(name) == d.projects[i].name && d.projects[i].host == ""
    ensures var cleared := d.(projects := d.projects[i := d.projects[i].(containers := cs)]);
            Normalize(Drain(cleared, name)) == d.(projects := d.projects[i := d.projects[i].(containers := [])])
  {
    hide CleanProject, HostName, ProjectName, Normalize;
    var p := d.projects[i];
    var ps := d.projects[i := p.(containers := cs)];
    var r := d.(projects := d.projects[i := p.(containers := [])]);
    ProjectAtUnique(d.projects, i, name);
    SameProjectAt(d.projects, ps, name);
    assert Drain(d.(projects := ps), name).projects == ps[i := ps[i].(containers := [], host := "")] == r.projects;
    assert Drain(d.(projects := ps), name) == r;
    hide Drain;
    EmptiedNormalised(d, i);
    NormalizeFixed(r);
  }

  /** Emptying the containers of an unmapped project keeps the normal form. */
  lemma EmptiedNormalised(d: Data, i: nat)
    requires Normalised(d) && i < |d.projects| && d.projects[i].host == ""
    ensures Normalised(d.(projects := d.projects[i := d.projects[i].(containers := [])]))
  {
    hide CleanProject, HostName, ProjectName, HostsOk, FlagsOk, RegistriesOk;
    var ps := d.projects[i := d.projects[i].(containers := [])];
    CleanUnmapped(d.projects[i]);
    SameNames(d.projects, ps);
    if d.context != "" {
      var j :| 0 <= j < |d.projects| && d.projects[j].name == d.context;
      assert ps[j].name == d.context;
    }
  }

  // ----- removing a host with its mappings -----

  function UnmapFrom(ps: seq<Project>, host: string): (r: seq<Project>)
    ensures |r| == |ps|
  {
    seq(|ps|, i requires 0 <= i < |ps| => if ps[i].host == host then ps[i].(host := "") else ps[i])
  }

  function UnmapNamed(ps: seq<Project>, names: seq<string>): (r: seq<Project>)
    ensures |r| == |ps|
  {
    seq(|ps|, i requires 0 <= i < |ps| => if ps[i].name in names then ps[i].(host := "") else ps[i])
  }

  lemma UnmapOne(d: Data, ps: seq<Project>, name: string, i: nat)
    requires ProjectsOk(ps) && i < |ps| && ps[i].name == name && ProjectName(name) == name
    requires |d.projects| == |ps| && forall j :: 0 <= j < |ps| ==> d.projects[j].name == ps[j].name
    ensures ProjectAt(d.projects, name) == i
    ensures SetProjectHost(d, name, "") == d.(projects := d.projects[i := d.projects[i].(host := "")])
  {
    hide CleanProject, HostName, ProjectName;
    ProjectAtUnique(ps, i, name);
    SameProjectAt(ps, d.projects, name);
    NameFacts("");
  }

  lemma {:induction false} UnmapAllFacts(d: Data, names: seq<string>)
    requires ProjectsOk(d.projects)
    requires forall k :: 0 <= k < |names| ==> ProjectName(names[k]) == names[k] && names[k] in ProjectNames(d.projects)
    ensures UnmapAll(d, names) == (d.(projects := UnmapNamed(d.projects, names)), true)
  {
    hide CleanProject, HostName, ProjectName, ProjectsOk, SetProjectHost, ProjectAt;
    var ps := d.projects;
    if names == [] {
      assert UnmapNamed(ps, names) == ps;
    } else {
      var init, name := names[..|names| - 1], names[|names| - 1];
      UnmapAllFacts(d, init);
      var i :| 0 <= i < |ps| && ps[i].name == name;
      UnmapOne(d.(projects := UnmapNamed(ps, init)), ps, name, i);
      assert DistinctProjects(ps) by {
        DistinctOk(ps);
      }
      UnmapNamedSnoc(ps, init, name, i);
      assert names == init + [name];
    }
  }

  lemma DistinctOk(ps: seq<Project>)
    requires ProjectsOk(ps)
    ensures DistinctProjects(ps)
  {
  }

  lemma UnmapNamedSnoc(ps: seq<Project>, names: seq<string>, name: string, i: nat)
    requires DistinctProjects(ps) && i < |ps| && ps[i].name == name
    ensures UnmapNamed(ps, names + [name]) == UnmapNamed(ps, names)[i := UnmapNamed(ps, names)[i].(host := "")]
  {
  }

  lemma UnmapListed(d: Data, k: nat)
    requires Normalised(d) && k < |d.hosts|
    ensures UnmapNamed(d.projects, d.hosts[k].projects) == UnmapFrom(d.projects, d.hosts[k].name)
  {
    hide CleanProject, HostName, ProjectName;
    var ps, h := d.projects, d.hosts[k];
    forall i | 0 <= i < |ps|
      ensures (if ps[i].name in h.projects then ps[i].(host := "") else ps[i]) ==
          (if ps[i].host == h.name then ps[i].(host := "") else ps[i])
    {
      if ps[i].host != "" {
        assert Lists(d.hosts, ps[i].host, ps[i].name);
        if ps[i].host == h.name {
          HostAtUnique(d.hosts, k);
        }
      } else if ps[i].name in h.projects {
        assert ps[i].(host := "") == ps[i];
      }
    }
  }

  lemma DropHostAt(hs: seq<Host>, name: string, h: string, q: string)
    requires DistinctHosts(hs) && forall i :: 0 <= i < |hs| ==> HostName(hs[i].name) == hs[i].name
    ensures Lists(DropHost(hs, name), h, q) <==> Lists(hs, h, q) && h != HostName(name)
  {
    hide CleanProject, HostName, ProjectName;
    DropHostFacts(hs, name);
    var r := DropHost(hs, name);
    var i, j := HostAt(hs, h), HostAt(r, h);
    if j < |r| {
      assert r[j] in r;
      var k :| 0 <= k < |hs| && hs[k] == r[j];
      HostAtUnique(hs, k);
    } else {
      assert forall k :: 0 <= k < |r| ==> r[k].name != h;
    }
  }

  /** What dropping a host keeps while some projects lose their mapping. */
  lemma DroppedOk(d: Data, ps: seq<Project>, name: string)
    requires Normalised(d) && |ps| == |d.projects|
    requires forall i :: 0 <= i < |ps| ==> ps[i] == d.projects[i] || ps[i] == d.projects[i].(host := "")
    ensures var hs := DropHost(d.hosts, name);
            && ProjectsOk(ps) && HostsOk(hs, ProjectNames(ps)) && FlagsOk(hs) && ContextOk(d.context, ps)
            && forall i, j :: 0 <= i < |ps| && ps[i].host != "" && 0 <= j < |hs| && ps[i].name in hs[j].projects ==>
                hs[j].name == ps[i].host
  {
    hide CleanProject, HostName, ProjectName;
    forall i | 0 <= i < |ps| ensures CleanProject(ps[i]) == ps[i] {
      CleanUnmapped(d.projects[i]);
    }
    SameNames(d.projects, ps);
    DroppedHosts(d, name);
    if d.context != "" {
      var j :| 0 <= j < |d.projects| && d.projects[j].name == d.context;
      assert ps[j].name == d.context;
    }
  }

  lemma DroppedHosts(d: Data, name: string)
    requires Normalised(d)
    ensures var hs := DropHost(d.hosts, name);
            && HostsOk(hs, ProjectNames(d.projects)) && FlagsOk(hs)
            && forall j :: 0 <= j < |hs| ==> hs[j] in d.hosts
  {
    hide CleanProject, HostName, ProjectName;
    var hs := DropHost(d.hosts, name);
    DropHostFacts(d.hosts, name);
    NormalisedIsStable(d);
    forall j | 0 <= j < |hs| ensures hs[j] in d.hosts {
      assert hs[j] in hs;
    }
    forall j | 0 <= j < |hs|
      ensures HostName(hs[j].name) == hs[j].name && hs[j].name != ""
          && CleanList(hs[j].projects, ProjectNames(d.projects))
      ensures hs[j].inUse <==> hs[j].projects != []
    {
      var k :| 0 <= k < |d.hosts| && d.hosts[k] == hs[j];
    }
  }

  lemma UnmapFromHost(d: Data, name: string)
    requires Normalised(d)
    ensures RemoveHostFromConfig(d, name) ==
              (d.(projects := UnmapFrom(d.projects, HostName(name)), hosts := DropHost(d.hosts, name)), true)
  {
    hide CleanProject, HostName, ProjectName;
    var hn := HostName(name);
    LookupHostIsAt(d.hosts, name);
    var k := HostAt(d.hosts, hn);
    UnmapAllFacts(d, if k < |d.hosts| then d.hosts[k].projects else []);
    if k < |d.hosts| {
      UnmapListed(d, k);
    } else {
      forall i | 0 <= i < |d.projects| && d.projects[i].host == hn ensures hn == "" {
        assert d.projects[i].host != "" ==> Lists(d.hosts, d.projects[i].host, d.projects[i].name);
      }
      assert UnmapNamed(d.projects, []) == d.projects;
      assert forall i :: 0 <= i < |d.projects| && d.projects[i].host == hn ==>
          d.projects[i].(host := "") == d.projects[i];
      assert UnmapFrom(d.projects, hn) == d.projects;
    }
  }

  lemma RemovedNormalised(d: Data, name: string)
    requires Normalised(d)
    ensures Normalised(d.(projects := UnmapFrom(d.projects, HostName(name)), hosts := DropHost(d.hosts, name)))
  {
    hide CleanProject, HostName, ProjectName;
    var ps, hs := UnmapFrom(d.projects, HostName(name)), DropHost(d.hosts, name);
    DroppedOk(d, ps, name);
    forall i | 0 <= i < |ps| && ps[i].host != "" ensures Lists(hs, ps[i].host, ps[i].name) {
      assert Lists(d.hosts, d.projects[i].host, d.projects[i].name);
      DropHostAt(d.hosts, name, ps[i].host, ps[i].name);
    }
  }

  /** Removing a host from the configuration and saving: the host is gone, the
      projects mapped to it are unmapped, and nothing else changed. */
  lemma RemoveHostFromConfigTheorem(d: Data, name: string)
    requires Normalised(d)
    ensures var (removed, ok) := RemoveHostFromConfig(d, name);
            && ok
            && Normalize(removed) == d.(projects := UnmapFrom(d.projects, HostName(name)), hosts := removed.hosts)
            && (forall h, q :: Lists(removed.hosts, h, q) <==> Lists(d.hosts, h, q) && h != HostName(name))
            && (forall h :: h in removed.hosts <==> h in d.hosts && HostName(h.name) != HostName(name))
  {
    hide CleanProject, HostName, ProjectName, Normalize, RemoveHostFromConfig, Lists;
    UnmapFromHost(d, name);
    RemovedNormalised(d, name);
    NormalizeFixed(RemoveHostFromConfig(d, name).0);
    DropHostFacts(d.hosts, name);
    forall h, q ensures Lists(DropHost(d.hosts, name), h, q) <==> Lists(d.hosts, h, q) && h != HostName(name) {
      DropHostAt(d.hosts, name, h, q);
    }
  }

  // ----- removing only the host record -----

  /** Names of the projects mapped to a host, in project order. */
  function MappedNames(ps: seq<Project>, host: string): seq<string> {
    if ps == [] then []
    else MappedNames(ps[..|ps| - 1], host) + (if ps[|ps| - 1].host == host then [ps[|ps| - 1].name] else [])
  }

  lemma {:induction false} MappedNamesMaps(ps: seq<Project>, host: string, q: string)
    ensures q in MappedNames(ps, host) && host != "" ==> Maps(ps, host, q)
    ensures Maps(ps, host, q) ==> q in MappedNames(ps, host)
    ensures q in MappedNames(ps, host) ==> exists i :: 0 <= i < |ps| && ps[i].name == q
  {
    if ps != [] {
      var init := ps[..|ps| - 1];
      MappedNamesMaps(init, host, q);
      MapsSnoc(ps, host, q);
      hide Maps;
      if i :| 0 <= i < |init| && init[i].name == q {
        assert ps[i].name == q;
      }
      assert ps[|ps| - 1].name == q ==> exists i :: 0 <= i < |ps| && ps[i].name == q;
    }
  }

  lemma {:induction false} MappedNamesClean(ps: seq<Project>, host: string, valid: set<string>)
    requires DistinctProjects(ps)
    requires forall i :: 0 <= i < |ps| ==>
        ps[i].name != "" && ProjectName(ps[i].name) == ps[i].name && ps[i].name in valid
    ensures CleanList(MappedNames(ps, host), valid)
  {
    hide ProjectName;
    if ps != [] {
      var init, p := ps[..|ps| - 1], ps[|ps| - 1];
      assert forall i :: 0 <= i < |init| ==> init[i] == ps[i];
      MappedNamesClean(init, host, valid);
      MappedNamesMaps(init, host, p.name);
    }
  }

  lemma MappedNamesFacts(ps: seq<Project>, host: string)
    requires ProjectsOk(ps)
    ensures CleanList(MappedNames(ps, host), ProjectNames(ps))
    ensures host != "" ==> forall q :: q in MappedNames(ps, host) <==> Maps(ps, host, q)
  {
    hide CleanProject, HostName, ProjectName, Maps;
    ValidNames(ps);
    MappedNamesClean(ps, host, ProjectNames(ps));
    forall q ensures host != "" ==> (q in MappedNames(ps, host) <==> Maps(ps, host, q)) {
      MappedNamesMaps(ps, host, q);
    }
  }

  function Recreated(hs: seq<Host>, host: string, m: seq<string>): seq<Host> {
    if m == [] then hs else hs + [NewHost(host, m, "")]
  }

  lemma AttachNext(hs: seq<Host>, p: Project, host: string, m: seq<string>)
    requires host != "" && HostAt(hs, host) == |hs| && p.name !in m
    requires p.host == "" || p.host == host || Lists(hs, p.host, p.name)
    ensures AttachOne(Recreated(hs, host, m), p) == Recreated(hs, host, if p.host == host then m + [p.name] else m)
  {
    var before := Recreated(hs, host, m);
    if p.host == host {
      if m != [] {
        HostAtLast(hs, NewHost(host, m, ""));
        assert before[|hs|] == NewHost(host, m, "");
      } else {
        assert m + [p.name] == [p.name];
      }
    } else if p.host != "" {
      var i := HostAt(hs, p.host);
      if m != [] {
        HostAtPrefix(hs, NewHost(host, m, ""), p.host);
      }
      assert before[i] == hs[i] && hs[i].(projects := hs[i].projects) == hs[i];
      assert before[i := before[i]] == before;
    }
  }

  lemma {:induction false} AttachMissing(hs: seq<Host>, ps: seq<Project>, host: string)
    requires ProjectsOk(ps) && host != "" && HostAt(hs, host) == |hs|
    requires forall i :: 0 <= i < |ps| && ps[i].host != "" && ps[i].host != host ==> Lists(hs, ps[i].host, ps[i].name)
    ensures Attach(hs, ps) == Recreated(hs, host, MappedNames(ps, host))
  {
    hide CleanProject, HostName, ProjectName, AttachOne;
    if ps != [] {
      var init, p := ps[..|ps| - 1], ps[|ps| - 1];
      AttachMissing(hs, init, host);
      MappedNamesFacts(init, host);
      assert !Maps(init, host, p.name);
      AttachNext(hs, p, host, MappedNames(init, host));
      assert p.host != host ==> MappedNames(ps, host) == MappedNames(init, host);
    }
  }

  lemma HostAtLast(hs: seq<Host>, h: Host)
    requires HostAt(hs, h.name) == |hs|
    ensures HostAt(hs + [h], h.name) == |hs|
  {
    assert forall i :: 0 <= i < |hs| ==> (hs + [h])[i] == hs[i];
    assert (hs + [h])[|hs|] == h;
  }

  lemma HostAtPrefix(hs: seq<Host>, h: Host, name: string)
    requires HostAt(hs, name) < |hs|
    ensures HostAt(hs + [h], name) == HostAt(hs, name)
  {
    assert forall i :: 0 <= i < |hs| ==> (hs + [h])[i] == hs[i];
  }

  /** Removing only the host record and saving: the host comes back, bare and
      last, exactly when some project is still mapped to it. */
  lemma RemoveHostTheorem(d: Data, name: string)
    requires Normalised(d) && HostName(name) != ""
    ensures var hn := HostName(name);
            var m := MappedNames(d.projects, hn);
            Normalize(RemoveHost(d, name)) ==
              d.(hosts := DropHost(d.hosts, name) + (if m == [] then [] else [NewHost(hn, m, "").(inUse := true)]))
  {
    hide CleanProject, HostName, ProjectName;
    var hn := HostName(name);
    var ps, hs := d.projects, DropHost(d.hosts, name);
    var m := MappedNames(ps, hn);
    DroppedOk(d, ps, name);
    DropHostFacts(d.hosts, name);
    NameFacts(name);
    forall i | 0 <= i < |hs| ensures hs[i].name != hn {
      assert hs[i] in hs;
    }
    MappedNamesFacts(ps, hn);
    forall i | 0 <= i < |ps| && ps[i].host != "" && ps[i].host != hn ensures Lists(hs, ps[i].host, ps[i].name) {
      DropHostAt(d.hosts, name, ps[i].host, ps[i].name);
    }
    NormalProjectsFixed(ps);
    NormalRegistriesOk(d.instances);
    NormalContextOk(d.context, ps);
    RecreateHosts(hs, ps, hn);
    if m == [] {
      assert hs + [] == hs;
    }
  }

  lemma RecreateHosts(hs: seq<Host>, ps: seq<Project>, hn: string)
    requires ProjectsOk(ps) && HostsOk(hs, ProjectNames(ps)) && FlagsOk(hs)
    requires hn != "" && HostName(hn) == hn && HostAt(hs, hn) == |hs|
    requires forall i, j :: 0 <= i < |ps| && ps[i].host != "" && 0 <= j < |hs| && ps[i].name in hs[j].projects ==>
        hs[j].name == ps[i].host
    requires forall i :: 0 <= i < |ps| && ps[i].host != "" && ps[i].host != hn ==> Lists(hs, ps[i].host, ps[i].name)
    ensures NormalHosts(hs, ps) ==
              var m := MappedNames(ps, hn); if m == [] then hs else hs + [NewHost(hn, m, "").(inUse := true)]
  {
    hide CleanProject, HostName, ProjectName, ProjectHosts, NormalList, FilterList, DefaultName, MappedNames, Live,
        Merged;
    var valid, links := ProjectNames(ps), ProjectHosts(ps);
    var m, r := MappedNames(ps, hn), HostRules(valid);
    forall i | 0 <= i < |hs| ensures IsClean(r, hs[i]) && r.key(hs[i]) == hs[i].name {
      NormalListFixed(hs[i].projects, valid);
    }
    NormalFixed(r, hs);
    AttachMissing(hs, ps, hn);
    var attached := Attach(hs, ps);
    var finished := FinishHosts(attached, valid, links, DefaultName(hs));
    forall i | 0 <= i < |hs| ensures finished[i] == hs[i] {
      FinishKept(hs, ps, i);
    }
    if m != [] {
      FinishNew(hs, ps, hn);
      assert finished[|hs|] == NewHost(hn, m, "").(inUse := true);
    }
  }

  lemma FinishNew(hs: seq<Host>, ps: seq<Project>, hn: string)
    requires ProjectsOk(ps) && hn != "" && HostAt(hs, hn) == |hs| && MappedNames(ps, hn) != []
    requires forall i :: 0 <= i < |hs| ==> HostName(hs[i].name) == hs[i].name
    ensures FinishHost(NewHost(hn, MappedNames(ps, hn), ""), ProjectNames(ps), ProjectHosts(ps), DefaultName(hs)) ==
              NewHost(hn, MappedNames(ps, hn), "").(inUse := true)
  {
    hide CleanProject, HostName, ProjectName;
    var m, links := MappedNames(ps, hn), ProjectHosts(ps);
    ProjectHostsFacts(ps);
    MappedNamesFacts(ps, hn);
    NormalListFixed(m, ProjectNames(ps));
    forall k | 0 <= k < |m| ensures m[k] in links && links[m[k]] == hn {
      assert Maps(ps, hn, m[k]);
    }
    FilterListFixed(hn, m, links);
    DefaultNameFacts(hs);
    assert hn != DefaultName(hs);
  }

  lemma FinishKept(hs: seq<Host>, ps: seq<Project>, i: nat)
    requires ProjectsOk(ps) && HostsOk(hs, ProjectNames(ps)) && FlagsOk(hs) && i < |hs|
    requires forall k :: 0 <= k < |ps| && ps[k].host != "" && ps[k].name in hs[i].projects ==> hs[i].name == ps[k].host
    ensures FinishHost(hs[i], ProjectNames(ps), ProjectHosts(ps), DefaultName(hs)) == hs[i]
  {
    hide CleanProject, HostName, ProjectName;
    var links := ProjectHosts(ps);
    ProjectHostsFacts(ps);
    NormalListFixed(hs[i].projects, ProjectNames(ps));
    forall k | 0 <= k < |hs[i].projects| && hs[i].projects[k] in links
      ensures links[hs[i].projects[k]] == hs[i].name
    {
      var q := hs[i].projects[k];
      assert Maps(ps, links[q], q);
    }
    FilterListFixed(hs[i].name, hs[i].projects, links);
    DefaultNameFixed(hs, i);
  }
}
