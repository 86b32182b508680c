/** Each record kind of the store meets the laws of one-pass merging, and what
    a merged record holds, field by field. */
module StoreLaws {
  import opened Text
  import opened KeyedMerge
  import opened StoreModel

  lemma NameFacts(s: string)
    ensures HostName(HostName(s)) == HostName(s)
    ensures ProjectName(ProjectName(s)) == ProjectName(s)
    ensures Lower(TrimSpace(Lower(TrimSpace(s)))) == Lower(TrimSpace(s))
    ensures HostName("") == "" && ProjectName("") == ""
  {
    TrimSpaceFixed(s);
    LowerFacts(TrimSpace(s));
    TrimSpaceFixed(Lower(TrimSpace(s)));
  }

  lemma CleanContainerTwice(c: Container)
    ensures CleanContainer(CleanContainer(c)) == CleanContainer(c)
  {
    NameFacts(c.name);
    NameFacts(c.id);
    NameFacts(c.state);
    NameFacts(c.expectedState);
    NameFacts(c.remoteUser);
  }

  lemma CleanContainerMerge(x: Container, y: Container)
    requires CleanContainer(x) == x && CleanContainer(y) == y
    ensures CleanContainer(MergeContainer(x, y)) == MergeContainer(x, y)
  {
  }

  lemma ContainerLaws()
    ensures Lawful(ContainerRules())
  {
    var r := ContainerRules();
    forall x ensures r.clean(r.clean(x)) == r.clean(x) {
      CleanContainerTwice(x);
    }
    forall x, y | IsClean(r, x) && IsClean(r, y) ensures IsClean(r, r.merge(x, y)) {
      CleanContainerMerge(x, y);
    }
  }

  /** Merged containers hold the last non-empty value of every field. */
  lemma {:induction false} FoldContainers(g: seq<Container>)
    requires g != []
    ensures Fold(ContainerRules(), g) == Container(
              LastText(g, (c: Container) => c.id), LastText(g, (c: Container) => c.state),
              LastText(g, (c: Container) => c.expectedState), g[|g| - 1].name,
              LastNumber(g, (c: Container) => c.portSSH), LastText(g, (c: Container) => c.remoteUser))
  {
    if |g| > 1 {
      FoldContainers(g[..|g| - 1]);
    }
  }

  /** Normalising containers early loses nothing. */
  lemma ContainersConcat(xs: seq<Container>, ys: seq<Container>)
    ensures NormalContainers(NormalContainers(xs) + NormalContainers(ys)) == NormalContainers(xs + ys)
    ensures NormalContainers(NormalContainers(xs)) == NormalContainers(xs)
    ensures NormalContainers(NormalContainers(xs) + ys) == NormalContainers(xs + ys)
    ensures NormalContainers(xs + NormalContainers(ys)) == NormalContainers(xs + ys)
  {
    ContainerLaws();
    var r := ContainerRules();
    NormalConcat(r, xs, ys);
    NormalIdempotent(r, xs);
    NormalIdempotent(r, ys);
    NormalConcat(r, NormalContainers(xs), ys);
    NormalConcat(r, xs, NormalContainers(ys));
  }

  lemma CleanProjectTwice(p: Project)
    ensures CleanProject(CleanProject(p)) == CleanProject(p)
  {
    NameFacts(p.name);
    NameFacts(p.host);
    ContainersConcat(p.containers, []);
  }

  lemma CleanProjectMerge(x: Project, y: Project)
    requires CleanProject(x) == x && CleanProject(y) == y
    ensures CleanProject(MergeProject(x, y)) == MergeProject(x, y)
  {
    ContainersConcat(x.containers + y.containers, []);
  }

  lemma ContainersLeft(xs: seq<Container>, ys: seq<Container>)
    ensures NormalContainers(NormalContainers(xs) + ys) == NormalContainers(xs + ys)
  {
    ContainersConcat(xs, ys);
  }

  lemma ContainersRight(xs: seq<Container>, ys: seq<Container>)
    ensures NormalContainers(xs + NormalContainers(ys)) == NormalContainers(xs + ys)
  {
    ContainersConcat(xs, ys);
  }

  lemma {:induction false} ContainersAssoc(x: seq<Container>, y: seq<Container>, z: seq<Container>)
    ensures NormalContainers(NormalContainers(x + y) + z) == NormalContainers(x + NormalContainers(y + z))
  {
    calc {
      NormalContainers(NormalContainers(x + y) + z);
      { ContainersLeft(x + y, z); }
      NormalContainers((x + y) + z);
      { assert (x + y) + z == x + (y + z); }
      NormalContainers(x + (y + z));
      { ContainersRight(x, y + z); }
      NormalContainers(x + NormalContainers(y + z));
    }
  }

  lemma {:induction false} MergeProjectAssoc(x: Project, y: Project, z: Project)
    ensures MergeProject(MergeProject(x, y), z) == MergeProject(x, MergeProject(y, z))
  {
    ContainersAssoc(x.containers, y.containers, z.containers);
  }

  lemma ProjectLaws()
    ensures Lawful(ProjectRules())
  {
    var r := ProjectRules();
    forall x ensures r.clean(r.clean(x)) == r.clean(x) {
      CleanProjectTwice(x);
    }
    forall x, y | IsClean(r, x) && IsClean(r, y) ensures IsClean(r, r.merge(x, y)) {
      CleanProjectMerge(x, y);
    }
    forall x, y, z ensures r.merge(r.merge(x, y), z) == r.merge(x, r.merge(y, z)) {
      MergeProjectAssoc(x, y, z);
    }
  }

  function AllContainers(g: seq<Project>): seq<Container> {
    if g == [] then [] else AllContainers(g[..|g| - 1]) + g[|g| - 1].containers
  }

  /** Merged projects: the last non-empty text of every text field, ... */
  lemma {:induction false} FoldProjectTexts(g: seq<Project>)
    requires g != []
    ensures var p := Fold(ProjectRules(), g);
            && p.name == g[|g| - 1].name
            && p.confDir == LastText(g, (p: Project) => p.confDir)
            && p.host == LastText(g, (p: Project) => p.host)
            && p.overrideImageTag == LastText(g, (p: Project) => p.overrideImageTag)
            && p.flavour.name == LastText(g, (p: Project) => p.flavour.name)
            && p.flavour.overrideDir == LastText(g, (p: Project) => p.flavour.overrideDir)
            && p.flavour.localConfDir == LastText(g, (p: Project) => p.flavour.localConfDir)
            && p.srcRepo.localConfDir == LastText(g, (p: Project) => p.srcRepo.localConfDir)
            && p.srcRepo.uri == LastText(g, (p: Project) => p.srcRepo.uri)
            && p.srcRepo.ref == LastText(g, (p: Project) => p.srcRepo.ref)
  {
    if |g| > 1 {
      FoldProjectTexts(g[..|g| - 1]);
    }
  }

  /** ... every flag that some duplicate sets, ... */
  lemma {:induction false} FoldProjectFlags(g: seq<Project>)
    requires g != []
    ensures var p := Fold(ProjectRules(), g);
            && p.nasRequested == AnyFlag(g, (p: Project) => p.nasRequested)
            && p.useSshTunnel == AnyFlag(g, (p: Project) => p.useSshTunnel)
            && p.clusterUse == AnyFlag(g, (p: Project) => p.clusterUse)
            && p.registryUse == AnyFlag(g, (p: Project) => p.registryUse)
            && p.srcRepo.toClone == AnyFlag(g, (p: Project) => p.srcRepo.toClone)
  {
    AnyFlagSnoc(g, (p: Project) => p.nasRequested);
    AnyFlagSnoc(g, (p: Project) => p.useSshTunnel);
    AnyFlagSnoc(g, (p: Project) => p.clusterUse);
    AnyFlagSnoc(g, (p: Project) => p.registryUse);
    AnyFlagSnoc(g, (p: Project) => p.srcRepo.toClone);
    if |g| > 1 {
      FoldProjectFlags(g[..|g| - 1]);
    }
  }

  /** ... and the containers of all duplicate records merged together. */
  lemma {:induction false} FoldProjectContainers(g: seq<Project>)
    requires g != []
    requires forall i :: 0 <= i < |g| ==> NormalContainers(g[i].containers) == g[i].containers
    ensures Fold(ProjectRules(), g).containers == NormalContainers(AllContainers(g))
  {
    var init, p := g[..|g| - 1], g[|g| - 1];
    if |g| > 1 {
      FoldProjectContainers(init);
      ContainersConcat(AllContainers(init), p.containers);
    } else {
      assert AllContainers(g) == p.containers;
    }
  }

  lemma AnyFlagSnoc<T>(g: seq<T>, flag: T -> bool)
    requires g != []
    ensures AnyFlag(g, flag) <==> AnyFlag(g[..|g| - 1], flag) || flag(g[|g| - 1])
  {
    var init := g[..|g| - 1];
    if i :| 0 <= i < |init| && flag(init[i]) {
      assert flag(g[i]);
    }
    if i :| 0 <= i < |g| && flag(g[i]) {
      assert i < |init| ==> flag(init[i]);
    }
  }
}
