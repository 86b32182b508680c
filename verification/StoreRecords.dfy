/** A normalised store told from the records as they were stored, field by
    field: what every container, project, host, registry and the context become. */
module StoreRecords {
  import opened Text
  import opened KeyedMerge
  import opened StoreModel
  import opened StoreLaws
  import opened StoreLists
  import opened StoreNormal

  // ----- records of one name -----

  /** The records with that key, in order. */
  function Having<T>(xs: seq<T>, key: T -> string, k: string): seq<T> {
    if xs == [] then []
    else
      var x := xs[|xs| - 1];
      Having(xs[..|xs| - 1], key, k) + (if key(x) == k then [x] else [])
  }

  function NamesOf<T>(xs: seq<T>, key: T -> string): (r: seq<string>)
    ensures |r| == |xs| && forall i :: 0 <= i < |xs| ==> r[i] == key(xs[i])
  {
    seq(|xs|, i requires 0 <= i < |xs| => key(xs[i]))
  }

  /** The non-empty texts that are not among the given ones, each at its first
      place, after the given ones. */
  function OnceAfter(given: seq<string>, ss: seq<string>): seq<string> {
    if ss == [] then given
    else
      var before, s := OnceAfter(given, ss[..|ss| - 1]), ss[|ss| - 1];
      if s == "" || s in before then before else before + [s]
  }

  /** The records that cleaning and dropping blank names leaves for a key are
      the cleaned records of that key. */
  ghost predicate CleanedFrom<T(!new)>(r: Rules<T>, c: seq<T>, g: seq<T>) {
    |c| == |g| && forall i :: 0 <= i < |g| ==> c[i] == r.clean(g[i])
  }

  ghost predicate KeyOf<T(!new)>(r: Rules<T>, key: T -> string) {
    forall x :: key(x) == r.key(r.clean(x))
  }

  lemma {:induction false} LiveHaving<T(!new)>(r: Rules<T>, xs: seq<T>, key: T -> string, k: string)
    requires k != "" && KeyOf(r, key)
    ensures CleanedFrom(r, Group(r, Live(r, xs), k), Having(xs, key, k))
  {
    if xs != [] {
      var init, x := xs[..|xs| - 1], xs[|xs| - 1];
      LiveHaving(r, init, key, k);
      var live := Live(r, init);
      if key(x) == "" {
        assert Live(r, xs) == live;
      } else {
        GroupSnoc(r, live, r.clean(x), k);
        assert Live(r, xs) == live + [r.clean(x)];
      }
    }
  }

  lemma {:induction false} LiveKeys<T(!new)>(r: Rules<T>, xs: seq<T>, key: T -> string)
    requires KeyOf(r, key)
    ensures Keys(r, Live(r, xs)) == OnceAfter([], NamesOf(xs, key))
  {
    if xs != [] {
      var init, x := xs[..|xs| - 1], xs[|xs| - 1];
      LiveKeys(r, init, key);
      var live := Live(r, init);
      assert NamesOf(xs, key)[..|xs| - 1] == NamesOf(init, key);
      if key(x) == "" {
        assert Live(r, xs) == live;
      } else {
        assert Live(r, xs) == live + [r.clean(x)];
        assert (live + [r.clean(x)])[..|live|] == live;
      }
    }
  }

  /** A repaired list: the names at their first places, and each record the
      merge of the cleaned records of its name. */
  lemma NormalFrom<T(!new)>(r: Rules<T>, xs: seq<T>, key: T -> string, i: nat) returns (c: seq<T>)
    requires Lawful(r) && KeyOf(r, key) && i < |Normal(r, xs)|
    ensures var names := OnceAfter([], NamesOf(xs, key));
            && |Normal(r, xs)| == |names| && r.key(Normal(r, xs)[i]) == names[i] && names[i] != ""
            && c != [] && CleanedFrom(r, c, Having(xs, key, names[i])) && Normal(r, xs)[i] == Fold(r, c)
  {
    var live, n := Live(r, xs), Normal(r, xs);
    NormalFacts(r, xs);
    MergedIsGrouped(r, live);
    LiveKeys(r, xs, key);
    assert Grouped(r, live, n[i]);
    c := Group(r, live, r.key(n[i]));
    LiveHaving(r, xs, key, r.key(n[i]));
  }

  lemma NormalCount<T(!new)>(r: Rules<T>, xs: seq<T>, key: T -> string)
    requires Lawful(r) && KeyOf(r, key)
    ensures |Normal(r, xs)| == |OnceAfter([], NamesOf(xs, key))|
  {
    MergedIsGrouped(r, Live(r, xs));
    LiveKeys(r, xs, key);
  }

  // ----- fields of cleaned records -----

  lemma {:induction false} SameTexts<T>(g: seq<T>, c: seq<T>, f: T -> string, f': T -> string)
    requires |g| == |c| && forall i :: 0 <= i < |g| ==> f(c[i]) == f'(g[i])
    ensures LastText(c, f) == LastText(g, f')
  {
    if g != [] {
      SameTexts(g[..|g| - 1], c[..|g| - 1], f, f');
    }
  }

  lemma {:induction false} SameNumbers<T>(g: seq<T>, c: seq<T>, f: T -> int)
    requires |g| == |c| && forall i :: 0 <= i < |g| ==> f(c[i]) == f(g[i])
    ensures LastNumber(c, f) == LastNumber(g, f)
  {
    if g != [] {
      SameNumbers(g[..|g| - 1], c[..|g| - 1], f);
    }
  }

  lemma SameFlags<T>(g: seq<T>, c: seq<T>, f: T -> bool)
    requires |g| == |c| && forall i :: 0 <= i < |g| ==> f(c[i]) == f(g[i])
    ensures AnyFlag(c, f) == AnyFlag(g, f)
  {
    if i :| 0 <= i < |g| && f(g[i]) {
      assert f(c[i]);
    }
    if i :| 0 <= i < |c| && f(c[i]) {
      assert f(g[i]);
    }
  }

  // ----- containers -----

  /** A container from all its stored records: the last non-empty id, state,
      expected state and login, trimmed and states in lower case, and the last
      non-zero port. */
  function CombinedContainer(name: string, g: seq<Container>): Container {
    Container(LastText(g, (c: Container) => TrimSpace(c.id)), LastText(g, (c: Container) => Lower(TrimSpace(c.state))),
              LastText(g, (c: Container) => Lower(TrimSpace(c.expectedState))), name,
              LastNumber(g, (c: Container) => c.portSSH), LastText(g, (c: Container) => TrimSpace(c.remoteUser)))
  }

  /** Every trimmed non-empty name at its first place, with all its records. */
  function CombinedContainers(cs: seq<Container>): (r: seq<Container>)
    ensures |r| == |OnceAfter([], NamesOf(cs, (c: Container) => TrimSpace(c.name)))|
  {
    var key := (c: Container) => TrimSpace(c.name);
    var names := OnceAfter([], NamesOf(cs, key));
    seq(|names|, i requires 0 <= i < |names| => CombinedContainer(names[i], Having(cs, key, names[i])))
  }

  lemma FoldCombinedContainer(c: seq<Container>, g: seq<Container>)
    requires c != [] && CleanedFrom(ContainerRules(), c, g)
    ensures var p := Fold(ContainerRules(), c); p == CombinedContainer(p.name, g)
  {
    hide TrimSpace, Lower, LastText, LastNumber, Fold;
    FoldContainers(c);
    assert forall i :: 0 <= i < |g| ==> c[i] == CleanContainer(g[i]);
    SameTexts(g, c, (x: Container) => x.id, (x: Container) => TrimSpace(x.id));
    SameTexts(g, c, (x: Container) => x.state, (x: Container) => Lower(TrimSpace(x.state)));
    SameTexts(g, c, (x: Container) => x.expectedState, (x: Container) => Lower(TrimSpace(x.expectedState)));
    SameTexts(g, c, (x: Container) => x.remoteUser, (x: Container) => TrimSpace(x.remoteUser));
    SameNumbers(g, c, (x: Container) => x.portSSH);
  }

  /** Normalising a container list, from the records as stored. */
  lemma ContainersFromRecords(cs: seq<Container>)
    ensures NormalContainers(cs) == CombinedContainers(cs)
  {
    var r, key := ContainerRules(), (c: Container) => TrimSpace(c.name);
    ContainerLaws();
    assert KeyOf(r, key);
    NormalCount(r, cs, key);
    var n := NormalContainers(cs);
    hide Lawful, KeyOf, CombinedContainer, TrimSpace, Lower;
    forall i | 0 <= i < |n| ensures n[i] == CombinedContainers(cs)[i] {
      var c := NormalFrom(r, cs, key, i);
      FoldCombinedContainer(c, Having(cs, key, r.key(n[i])));
    }
  }

  // ----- projects -----

  function CombinedFlavour(g: seq<Project>): Flavour {
    Flavour(LastText(g, (p: Project) => p.flavour.name), LastText(g, (p: Project) => p.flavour.overrideDir),
            LastText(g, (p: Project) => p.flavour.localConfDir))
  }

  function CombinedSrcRepo(g: seq<Project>): SrcRepo {
    SrcRepo(LastText(g, (p: Project) => p.srcRepo.localConfDir), AnyFlag(g, (p: Project) => p.srcRepo.toClone),
            LastText(g, (p: Project) => p.srcRepo.uri), LastText(g, (p: Project) => p.srcRepo.ref))
  }

  /** One project from all its stored records: last non-empty texts, flags that
      some record sets, and the containers of all records combined. */
  function Combined(name: string, g: seq<Project>): Project {
    Project(name, LastText(g, (p: Project) => p.confDir), LastText(g, (p: Project) => Lower(TrimSpace(p.host))),
            CombinedContainers(AllContainers(g)), AnyFlag(g, (p: Project) => p.nasRequested),
            CombinedFlavour(g), CombinedSrcRepo(g), AnyFlag(g, (p: Project) => p.useSshTunnel),
            LastText(g, (p: Project) => p.overrideImageTag), AnyFlag(g, (p: Project) => p.clusterUse),
            AnyFlag(g, (p: Project) => p.registryUse))
  }

  /** Every trimmed non-empty name at its first place, with all its records. */
  function CombinedProjects(ps: seq<Project>): (r: seq<Project>)
    ensures |r| == |OnceAfter([], NamesOf(ps, (p: Project) => TrimSpace(p.name)))|
  {
    var key := (p: Project) => TrimSpace(p.name);
    var names := OnceAfter([], NamesOf(ps, key));
    seq(|names|, i requires 0 <= i < |names| => Combined(names[i], Having(ps, key, names[i])))
  }

  lemma SameRepos(g: seq<Project>, c: seq<Project>)
    requires |g| == |c|
    requires forall i :: 0 <= i < |g| ==> c[i].flavour == g[i].flavour && c[i].srcRepo == g[i].srcRepo
    ensures CombinedFlavour(c) == CombinedFlavour(g) && CombinedSrcRepo(c) == CombinedSrcRepo(g)
  {
    hide LastText, AnyFlag;
    SameTexts(g, c, (p: Project) => p.flavour.name, (p: Project) => p.flavour.name);
    SameTexts(g, c, (p: Project) => p.flavour.overrideDir, (p: Project) => p.flavour.overrideDir);
    SameTexts(g, c, (p: Project) => p.flavour.localConfDir, (p: Project) => p.flavour.localConfDir);
    SameTexts(g, c, (p: Project) => p.srcRepo.localConfDir, (p: Project) => p.srcRepo.localConfDir);
    SameTexts(g, c, (p: Project) => p.srcRepo.uri, (p: Project) => p.srcRepo.uri);
    SameTexts(g, c, (p: Project) => p.srcRepo.ref, (p: Project) => p.srcRepo.ref);
    SameFlags(g, c, (p: Project) => p.srcRepo.toClone);
  }

  ghost predicate SameFlagFields(p: Project, q: Project) {
    && p.nasRequested == q.nasRequested && p.useSshTunnel == q.useSshTunnel
    && p.clusterUse == q.clusterUse && p.registryUse == q.registryUse
  }

  lemma SameUses(g: seq<Project>, c: seq<Project>)
    requires |g| == |c| && forall i :: 0 <= i < |g| ==> SameFlagFields(g[i], c[i])
    ensures AnyFlag(c, (p: Project) => p.nasRequested) == AnyFlag(g, (p: Project) => p.nasRequested)
    ensures AnyFlag(c, (p: Project) => p.useSshTunnel) == AnyFlag(g, (p: Project) => p.useSshTunnel)
    ensures AnyFlag(c, (p: Project) => p.clusterUse) == AnyFlag(g, (p: Project) => p.clusterUse)
    ensures AnyFlag(c, (p: Project) => p.registryUse) == AnyFlag(g, (p: Project) => p.registryUse)
  {
    hide AnyFlag;
    SameFlags(g, c, (p: Project) => p.nasRequested);
    SameFlags(g, c, (p: Project) => p.useSshTunnel);
    SameFlags(g, c, (p: Project) => p.clusterUse);
    SameFlags(g, c, (p: Project) => p.registryUse);
  }

  lemma CleanTexts(g: seq<Project>, c: seq<Project>)
    requires CleanedFrom(ProjectRules(), c, g)
    ensures LastText(c, (p: Project) => p.host) == LastText(g, (p: Project) => Lower(TrimSpace(p.host)))
    ensures LastText(c, (p: Project) => p.confDir) == LastText(g, (p: Project) => p.confDir)
    ensures LastText(c, (p: Project) => p.overrideImageTag) == LastText(g, (p: Project) => p.overrideImageTag)
  {
    hide NormalContainers, ProjectName, LastText, TrimSpace, Lower;
    assert forall i :: 0 <= i < |g| ==> c[i] == CleanProject(g[i]);
    SameTexts(g, c, (p: Project) => p.host, (p: Project) => Lower(TrimSpace(p.host)));
    SameTexts(g, c, (p: Project) => p.confDir, (p: Project) => p.confDir);
    SameTexts(g, c, (p: Project) => p.overrideImageTag, (p: Project) => p.overrideImageTag);
  }

  lemma {:induction false} CleanContainers(g: seq<Project>, c: seq<Project>)
    requires |g| == |c| && forall i :: 0 <= i < |g| ==> c[i].containers == NormalContainers(g[i].containers)
    ensures NormalContainers(AllContainers(c)) == NormalContainers(AllContainers(g))
  {
    if g != [] {
      hide NormalContainers;
      var n := |g| - 1;
      CleanContainers(g[..n], c[..n]);
      var cs, ds := AllContainers(c[..n]), AllContainers(g[..n]);
      assert AllContainers(c) == cs + NormalContainers(g[n].containers);
      assert AllContainers(g) == ds + g[n].containers;
      hide AllContainers;
      ContainersRight(cs, g[n].containers);
      ContainersLeft(cs, g[n].containers);
      ContainersLeft(ds, g[n].containers);
    }
  }

  lemma FoldCombined(c: seq<Project>, g: seq<Project>)
    requires c != [] && CleanedFrom(ProjectRules(), c, g)
    ensures var p := Fold(ProjectRules(), c); p == Combined(p.name, g)
  {
    forall i | 0 <= i < |c|
      ensures NormalContainers(c[i].containers) == c[i].containers && c[i] == CleanProject(g[i])
    {
      ContainersConcat(g[i].containers, []);
    }
    hide NormalContainers, HostName, ProjectName, Fold, AllContainers, LastText, AnyFlag, TrimSpace, Lower;
    CleanTexts(g, c);
    CleanContainers(g, c);
    SameRepos(g, c);
    SameUses(g, c);
    hide CleanProject;
    ContainersFromRecords(AllContainers(g));
    hide CombinedContainers;
    FoldProjectTexts(c);
    FoldProjectFlags(c);
    FoldProjectContainers(c);
  }

  /** Normalising the project list, from the records as stored. */
  lemma ProjectsFromRecords(ps: seq<Project>)
    ensures NormalProjects(ps) == CombinedProjects(ps)
  {
    var r, key := ProjectRules(), (p: Project) => TrimSpace(p.name);
    ProjectLaws();
    assert KeyOf(r, key);
    NormalCount(r, ps, key);
    var n := NormalProjects(ps);
    hide Lawful, KeyOf, Combined, TrimSpace, CleanProject;
    forall i | 0 <= i < |n| ensures n[i] == CombinedProjects(ps)[i] {
      var c := NormalFrom(r, ps, key, i);
      FoldCombined(c, Having(ps, key, r.key(n[i])));
    }
  }

  // ----- registries and context -----

  function CombinedRegistries(rs: seq<Registry>): (r: seq<Registry>)
    ensures |r| == |OnceAfter([], NamesOf(rs, (x: Registry) => TrimSpace(x.name)))|
  {
    var names := OnceAfter([], NamesOf(rs, (x: Registry) => TrimSpace(x.name)));
    seq(|names|, i requires 0 <= i < |names| => Registry(names[i]))
  }

  lemma RegistriesFromRecords(rs: seq<Registry>)
    ensures NormalRegistries(rs) == CombinedRegistries(rs)
  {
    var r, key := RegistryRules(), (x: Registry) => TrimSpace(x.name);
    RegistryLaws();
    assert KeyOf(r, key);
    NormalCount(r, rs, key);
    var n := NormalRegistries(rs);
    hide Lawful, KeyOf, TrimSpace;
    forall i | 0 <= i < |n| ensures n[i] == CombinedRegistries(rs)[i] {
      var c := NormalFrom(r, rs, key, i);
    }
  }

  /** The context stays, trimmed, exactly when it names a project. */
  lemma ContextFromRecords(context: string, ps: seq<Project>)
    requires ProjectsOk(ps)
    ensures NormalContext(context, ps) ==
              if exists i :: 0 <= i < |ps| && ps[i].name == TrimSpace(context) then TrimSpace(context) else ""
  {
    NameFacts(context);
    var name := TrimSpace(context);
    var k := ProjectAt(ps, name);
    forall i | 0 <= i < |ps| ensures ProjectName(ps[i].name) == ps[i].name && ps[i].name != "" {
      assert CleanProject(ps[i]) == ps[i];
    }
    hide TrimSpace, CleanProject;
    if i :| 0 <= i < |ps| && ps[i].name == name {
      assert k < |ps|;
    }
    if k < |ps| {
      assert ps[k].name == name;
    }
  }

  // ----- hosts -----

  function HostKey(): Host -> string {
    (h: Host) => Lower(TrimSpace(h.name))
  }

  /** Texts, numbers and flags of a host from all its stored records; runtime
      and ownership come from the last one. */
  ghost predicate FieldsFrom(h: Host, g: seq<Host>) {
    && h.username == LastText(g, (x: Host) => x.username)
    && h.pathToKey == LastText(g, (x: Host) => x.pathToKey)
    && h.pathToPubKey == LastText(g, (x: Host) => x.pathToPubKey)
    && h.orchestration.name == LastText(g, (x: Host) => x.orchestration.name)
    && h.orchestration.state == LastText(g, (x: Host) => x.orchestration.state)
    && h.orchestration.registryState == LastText(g, (x: Host) => x.orchestration.registryState)
    && h.orchestration.registryPort == LastNumber(g, (x: Host) => x.orchestration.registryPort)
    && h.useKey == AnyFlag(g, (x: Host) => x.useKey)
    && (g != [] ==> h.runtime == g[|g| - 1].runtime && h.ownership == g[|g| - 1].ownership)
    && (g == [] ==> h.runtime == Runtime("", "") && h.ownership == Ownership(0, "", "", ""))
  }

  /** The last default record with a name has that name. */
  ghost predicate LastDefault(hs: seq<Host>, name: string) {
    exists k :: 0 <= k < |hs| && hs[k].isDefault && HostKey()(hs[k]) == name != ""
                && forall j :: k < j < |hs| && hs[j].isDefault ==> HostKey()(hs[j]) == ""
  }

  lemma {:induction false} DefaultIsLast(hs: seq<Host>, name: string)
    ensures name != "" ==> (DefaultName(hs) == name <==> LastDefault(hs, name))
  {
    hide TrimSpace, Lower;
    if hs == [] {
      assert DefaultName(hs) == "";
    } else {
      var init, h := hs[..|hs| - 1], hs[|hs| - 1];
      DefaultIsLast(init, name);
      var key := HostKey()(h);
      assert key == HostName(h.name);
      if h.isDefault && key != "" {
        assert LastDefault(hs, key);
        if LastDefault(hs, name) {
          var k :| 0 <= k < |hs| && hs[k].isDefault && HostKey()(hs[k]) == name != ""
                   && forall j :: k < j < |hs| && hs[j].isDefault ==> HostKey()(hs[j]) == "";
          assert k == |hs| - 1;
        }
      } else {
        LastDefaultSnoc(hs, name);
      }
    }
  }

  lemma LastDefaultSnoc(hs: seq<Host>, name: string)
    requires hs != [] && !(hs[|hs| - 1].isDefault && HostKey()(hs[|hs| - 1]) != "")
    ensures LastDefault(hs, name) <==> LastDefault(hs[..|hs| - 1], name)
  {
    hide HostKey;
    var init := hs[..|hs| - 1];
    if k :| 0 <= k < |init| && init[k].isDefault && HostKey()(init[k]) == name != ""
            && forall j :: k < j < |init| && init[j].isDefault ==> HostKey()(init[j]) == "" {
      assert hs[k] == init[k] && forall j :: k < j < |hs| && hs[j].isDefault ==> HostKey()(hs[j]) == "";
    }
    if k :| 0 <= k < |hs| && hs[k].isDefault && HostKey()(hs[k]) == name != ""
            && forall j :: k < j < |hs| && hs[j].isDefault ==> HostKey()(hs[j]) == "" {
      assert k < |init| && init[k] == hs[k];
      assert forall j :: k < j < |init| ==> init[j] == hs[j];
    }
  }

  /** One host of the normalised list. */
  ghost predicate HostFrom(hs: seq<Host>, h: Host) {
    && FieldsFrom(h, Having(hs, HostKey(), h.name))
    && (h.isDefault <==> LastDefault(hs, h.name))
    && (h.inUse <==> h.projects != [])
  }

  /** The names of stored hosts and of mapped hosts, each at its first place. */
  function HostNames(hs: seq<Host>, ps: seq<Project>): seq<string> {
    OnceAfter(OnceAfter([], NamesOf(hs, HostKey())), NamesOf(ps, (p: Project) => p.host))
  }

  lemma FoldFields(c: seq<Host>, g: seq<Host>, valid: set<string>)
    requires c != [] && CleanedFrom(HostRules(valid), c, g)
    ensures FieldsFrom(Fold(HostRules(valid), c), g)
  {
    hide LastText, LastNumber, AnyFlag, Fold, NormalList, HostName;
    FoldHosts(c, valid);
    assert forall i :: 0 <= i < |g| ==> c[i] == CleanHost(g[i], valid);
    SameTexts(g, c, (x: Host) => x.username, (x: Host) => x.username);
    SameTexts(g, c, (x: Host) => x.pathToKey, (x: Host) => x.pathToKey);
    SameTexts(g, c, (x: Host) => x.pathToPubKey, (x: Host) => x.pathToPubKey);
    SameTexts(g, c, (x: Host) => x.orchestration.name, (x: Host) => x.orchestration.name);
    SameTexts(g, c, (x: Host) => x.orchestration.state, (x: Host) => x.orchestration.state);
    SameTexts(g, c, (x: Host) => x.orchestration.registryState, (x: Host) => x.orchestration.registryState);
    SameNumbers(g, c, (x: Host) => x.orchestration.registryPort);
    SameFlags(g, c, (x: Host) => x.useKey);
  }

  /** Merging hosts: the names at their first places, each with its fields. */
  lemma MergedFrom(hs: seq<Host>, valid: set<string>)
    ensures var n := Normal(HostRules(valid), hs);
            && NamesOf(n, (h: Host) => h.name) == OnceAfter([], NamesOf(hs, HostKey()))
            && forall i :: 0 <= i < |n| ==> FieldsFrom(n[i], Having(hs, HostKey(), n[i].name))
  {
    var r, n := HostRules(valid), Normal(HostRules(valid), hs);
    HostLaws(valid);
    assert KeyOf(r, HostKey());
    NormalCount(r, hs, HostKey());
    hide Lawful, KeyOf, FieldsFrom, HostKey, Normal;
    forall i | 0 <= i < |n|
      ensures n[i].name == OnceAfter([], NamesOf(hs, HostKey()))[i]
          && FieldsFrom(n[i], Having(hs, HostKey(), n[i].name))
    {
      var c := NormalFrom(r, hs, HostKey(), i);
      FoldFields(c, Having(hs, HostKey(), r.key(n[i])), valid);
    }
  }

  /** Attaching mapped projects changes lists only, and appends bare hosts. */
  lemma {:induction false} AttachFrom(hs: seq<Host>, ps: seq<Project>)
    ensures var r := Attach(hs, ps);
            && |r| >= |hs|
            && NamesOf(r, (h: Host) => h.name) ==
                OnceAfter(NamesOf(hs, (h: Host) => h.name), NamesOf(ps, (p: Project) => p.host))
            && (forall i :: 0 <= i < |hs| ==> r[i] == hs[i].(projects := r[i].projects))
            && (forall i :: |hs| <= i < |r| ==> r[i] == NewHost(r[i].name, r[i].projects, ""))
  {
    if ps != [] {
      var init, p := ps[..|ps| - 1], ps[|ps| - 1];
      AttachFrom(hs, init);
      var before, r := Attach(hs, init), Attach(hs, ps);
      assert NamesOf(ps, (p: Project) => p.host)[..|ps| - 1] == NamesOf(init, (p: Project) => p.host);
      var names := NamesOf(before, (h: Host) => h.name);
      var i := HostAt(before, p.host);
      assert p.host in names <==> i < |before| by {
        if i < |before| {
          assert names[i] == p.host;
        }
      }
      if p.host != "" && i == |before| {
        assert NamesOf(r, (h: Host) => h.name) == names + [p.host];
      } else {
        assert NamesOf(r, (h: Host) => h.name) == names;
      }
    }
  }

  lemma {:induction false} OnceMembers(given: seq<string>, ss: seq<string>)
    ensures forall s :: s in OnceAfter(given, ss) <==> s in given || (s != "" && s in ss)
  {
    if ss != [] {
      OnceMembers(given, ss[..|ss| - 1]);
      assert ss == ss[..|ss| - 1] + [ss[|ss| - 1]];
    }
  }

  lemma {:induction false} HavingNone<T(!new)>(xs: seq<T>, key: T -> string, k: string)
    ensures k !in NamesOf(xs, key) ==> Having(xs, key, k) == []
  {
    if xs != [] {
      var init := xs[..|xs| - 1];
      HavingNone(init, key, k);
      if k !in NamesOf(xs, key) {
        assert NamesOf(xs, key)[|xs| - 1] != k;
        assert forall i :: 0 <= i < |init| ==> NamesOf(init, key)[i] == NamesOf(xs, key)[i];
      }
    }
  }

  lemma BareFields(h: Host)
    requires h == NewHost(h.name, h.projects, "")
    ensures FieldsFrom(h, [])
  {
  }

  /** Normalising the host list, from the records as stored: which hosts there
      are, in which order, and every field of each but its list, which
      ListedExactly gives. */
  lemma HostsFromRecords(hs: seq<Host>, ps: seq<Project>)
    requires ProjectsOk(ps)
    ensures var r := NormalHosts(hs, ps);
            && NamesOf(r, (h: Host) => h.name) == HostNames(hs, ps)
            && forall i :: 0 <= i < |r| ==> HostFrom(hs, r[i])
  {
    var valid := ProjectNames(ps);
    var merged := Normal(HostRules(valid), hs);
    var attached, r := Attach(merged, ps), NormalHosts(hs, ps);
    MergedFrom(hs, valid);
    AttachFrom(merged, ps);
    NormalHostsOk(hs, ps);
    assert NamesOf(r, (h: Host) => h.name) == NamesOf(attached, (h: Host) => h.name);
    forall i | 0 <= i < |r| ensures HostFrom(hs, r[i]) {
      FinishedFrom(hs, ps, i);
    }
  }

  /** Finishing sets list and flags only. */
  lemma FinishedSame(hs: seq<Host>, ps: seq<Project>)
    requires ProjectsOk(ps)
    ensures var attached := Attach(Normal(HostRules(ProjectNames(ps)), hs), ps);
            var r := NormalHosts(hs, ps);
            && |r| == |attached|
            && (forall i :: 0 <= i < |r| ==>
                  && r[i] == attached[i].(projects := r[i].projects, inUse := r[i].inUse, isDefault := r[i].isDefault)
                  && r[i].name != "" && (r[i].isDefault <==> r[i].name == DefaultName(hs))
                  && (r[i].inUse <==> r[i].projects != []))
            && DistinctHosts(attached)
  {
    NormalHostsOk(hs, ps);
    hide Attach, Normal, DefaultName, FilterList, NormalList, Linked, Maps, Lists, CleanList;
    var attached, r := Attach(Normal(HostRules(ProjectNames(ps)), hs), ps), NormalHosts(hs, ps);
    assert forall i :: 0 <= i < |r| ==> r[i].name == attached[i].name;
  }

  lemma FinishedFrom(hs: seq<Host>, ps: seq<Project>, i: nat)
    requires ProjectsOk(ps) && i < |NormalHosts(hs, ps)|
    ensures HostFrom(hs, NormalHosts(hs, ps)[i])
  {
    hide HostKey, FieldsFrom, LastDefault, Normal, Having, Attach, NormalHosts, ProjectsOk;
    var merged := Normal(HostRules(ProjectNames(ps)), hs);
    var attached, h := Attach(merged, ps), NormalHosts(hs, ps)[i];
    MergedFrom(hs, ProjectNames(ps));
    AttachFrom(merged, ps);
    FinishedSame(hs, ps);
    DefaultIsLast(hs, h.name);
    if i < |merged| {
      SameFields(merged[i], h, Having(hs, HostKey(), h.name));
    } else {
      NewName(hs, merged, attached, ps, i);
      HavingNone(hs, HostKey(), h.name);
      BareFields(attached[i]);
      SameFields(attached[i], h, []);
    }
  }

  lemma SameFields(h: Host, k: Host, g: seq<Host>)
    requires FieldsFrom(h, g) && k == h.(projects := k.projects, inUse := k.inUse, isDefault := k.isDefault)
    ensures FieldsFrom(k, g)
  {
  }

  /** An appended host has a name that no stored record has. */
  lemma NewName(hs: seq<Host>, merged: seq<Host>, attached: seq<Host>, ps: seq<Project>, i: nat)
    requires NamesOf(merged, (h: Host) => h.name) == OnceAfter([], NamesOf(hs, HostKey()))
    requires |merged| <= i < |attached| && attached[i].name != ""
    requires forall k :: 0 <= k < |merged| ==> attached[k].name == merged[k].name
    requires forall j, k :: 0 <= j < k < |attached| ==> attached[j].name != attached[k].name
    ensures attached[i].name !in NamesOf(hs, HostKey())
  {
    hide HostKey;
    OnceMembers([], NamesOf(hs, HostKey()));
    var names := NamesOf(merged, (h: Host) => h.name);
    assert forall k :: 0 <= k < |names| ==> names[k] == attached[k].name != attached[i].name;
  }

  // ----- the whole store -----

  /** What a save makes of a store, from its records. */
  ghost predicate SavedFrom(d: Data, r: Data) {
    && r.projects == CombinedProjects(d.projects)
    && NamesOf(r.hosts, (h: Host) => h.name) == HostNames(d.hosts, r.projects)
    && (forall i :: 0 <= i < |r.hosts| ==> HostFrom(d.hosts, r.hosts[i]))
    && ListedFrom(d, r)
    && r.instances == CombinedRegistries(d.instances)
    && r.context ==
       if exists i :: 0 <= i < |r.projects| && r.projects[i].name == TrimSpace(d.context)
       then TrimSpace(d.context)
       else ""
  }

  /** Every host lists exactly the projects mapped to it, and the unmapped ones
      that some stored record of it listed. */
  ghost predicate ListedFrom(d: Data, r: Data) {
    forall h, q :: h != "" ==> (Lists(r.hosts, h, q) <==> Belongs(r.projects, h, q, Recorded(d.hosts, h, q)))
  }

  lemma ListsFromRecords(d: Data)
    ensures ListedFrom(d, Normalize(d))
  {
    hide Normalize, Lists, Belongs, Recorded;
    forall h, q | h != ""
      ensures Lists(Normalize(d).hosts, h, q) <==> Belongs(Normalize(d).projects, h, q, Recorded(d.hosts, h, q))
    {
      ListedExactly(d, h, q);
    }
  }

  lemma NormalizeFromRecords(d: Data)
    ensures SavedFrom(d, Normalize(d))
  {
    hide NormalProjects, NormalHosts, NormalRegistries, NormalContext, CombinedProjects, CombinedRegistries,
        HostNames, HostFrom, ProjectsOk, ListedFrom, TrimSpace;
    var ps := NormalProjects(d.projects);
    ProjectsFromRecords(d.projects);
    NormalProjectsOk(d.projects);
    HostsFromRecords(d.hosts, ps);
    RegistriesFromRecords(d.instances);
    ContextFromRecords(d.context, ps);
    ListsFromRecords(d);
  }
}
