/** The records of the state store and the value each normalising step computes.

    A missing (nil) list is the empty list, and a nil entry of a list stands for
    a record with a blank name: the normaliser skips both in the same way. */
module StoreModel {
  import opened Text
  import opened KeyedMerge

  datatype Container = Container(
    id: string, state: string, expectedState: string, name: string, portSSH: int, remoteUser: string)

  datatype Flavour = Flavour(name: string, overrideDir: string, localConfDir: string)

  datatype SrcRepo = SrcRepo(localConfDir: string, toClone: bool, uri: string, ref: string)

  datatype Project = Project(
    name: string, confDir: string, host: string, containers: seq<Container>, nasRequested: bool,
    flavour: Flavour, srcRepo: SrcRepo, useSshTunnel: bool, overrideImageTag: string,
    clusterUse: bool, registryUse: bool)

  datatype Orchestration = Orchestration(name: string, registryState: string, registryPort: int, state: string)

  datatype Runtime = Runtime(engine: string, version: string)

  datatype Ownership = Ownership(pid: int, address: string, binary: string, manager: string)

  datatype Host = Host(
    name: string, projects: seq<string>, inUse: bool, isDefault: bool, orchestration: Orchestration,
    runtime: Runtime, ownership: Ownership, username: string, useKey: bool, pathToKey: string, pathToPubKey: string)

  datatype Registry = Registry(name: string)

  datatype Data = Data(context: string, projects: seq<Project>, hosts: seq<Host>, instances: seq<Registry>)

  function NewHost(name: string, projects: seq<string>, username: string): Host {
    Host(name, projects, false, false, Orchestration("", "", 0, ""), Runtime("", ""), Ownership(0, "", "", ""),
         username, false, "", "")
  }

  function NewProject(name: string, confDir: string, flavour: Flavour): Project {
    Project(name, confDir, "", [], false, flavour, SrcRepo("", false, "", ""), false, "", false, false)
  }

  function HostName(name: string): string {
    Lower(TrimSpace(name))
  }

  function ProjectName(name: string): string {
    TrimSpace(name)
  }

  function FirstText(preferred: string, fallback: string): string {
    if preferred != "" then preferred else fallback
  }

  function FirstNumber(preferred: int, fallback: int): int {
    if preferred != 0 then preferred else fallback
  }

  // ----- containers -----

  function CleanContainer(c: Container): Container {
    c.(name := TrimSpace(c.name), id := TrimSpace(c.id), state := Lower(TrimSpace(c.state)),
       expectedState := Lower(TrimSpace(c.expectedState)), remoteUser := TrimSpace(c.remoteUser))
  }

  function MergeContainer(existing: Container, incoming: Container): Container {
    incoming.(id := FirstText(incoming.id, existing.id),
              state := FirstText(incoming.state, existing.state),
              expectedState := FirstText(incoming.expectedState, existing.expectedState),
              portSSH := FirstNumber(incoming.portSSH, existing.portSSH),
              remoteUser := FirstText(incoming.remoteUser, existing.remoteUser))
  }

  function ContainerRules(): Rules<Container> {
    Rules(CleanContainer, (c: Container) => c.name, MergeContainer)
  }

  function NormalContainers(cs: seq<Container>): seq<Container> {
    Normal(ContainerRules(), cs)
  }

  // ----- projects -----

  function CleanProject(p: Project): Project {
    p.(name := ProjectName(p.name), host := HostName(p.host), containers := NormalContainers(p.containers))
  }

  function MergeFlavour(existing: Flavour, incoming: Flavour): Flavour {
    Flavour(FirstText(incoming.name, existing.name), FirstText(incoming.overrideDir, existing.overrideDir),
            FirstText(incoming.localConfDir, existing.localConfDir))
  }

  function MergeSrcRepo(existing: SrcRepo, incoming: SrcRepo): SrcRepo {
    SrcRepo(FirstText(incoming.localConfDir, existing.localConfDir), incoming.toClone || existing.toClone,
            FirstText(incoming.uri, existing.uri), FirstText(incoming.ref, existing.ref))
  }

  function MergeProject(existing: Project, incoming: Project): Project {
    incoming.(confDir := FirstText(incoming.confDir, existing.confDir),
              host := FirstText(incoming.host, existing.host),
              flavour := MergeFlavour(existing.flavour, incoming.flavour),
              srcRepo := MergeSrcRepo(existing.srcRepo, incoming.srcRepo),
              useSshTunnel := existing.useSshTunnel || incoming.useSshTunnel,
              nasRequested := existing.nasRequested || incoming.nasRequested,
              overrideImageTag := FirstText(incoming.overrideImageTag, existing.overrideImageTag),
              clusterUse := existing.clusterUse || incoming.clusterUse,
              registryUse := existing.registryUse || incoming.registryUse,
              containers := NormalContainers(existing.containers + incoming.containers))
  }

  function ProjectRules(): Rules<Project> {
    Rules(CleanProject, (p: Project) => p.name, MergeProject)
  }

  function NormalProjects(ps: seq<Project>): seq<Project> {
    Normal(ProjectRules(), ps)
  }

  function ProjectNames(ps: seq<Project>): set<string> {
    set i | 0 <= i < |ps| && ps[i].name != "" :: ps[i].name
  }

  /** Project name to host name, for the projects mapped to a host. */
  function ProjectHosts(ps: seq<Project>): map<string, string> {
    if ps == [] then map[]
    else
      var p, links := ps[|ps| - 1], ProjectHosts(ps[..|ps| - 1]);
      if p.name == "" || p.host == "" then links else links[p.name := p.host]
  }

  // ----- host project lists -----

  function AppendMissing(ps: seq<string>, name: string): seq<string> {
    if name in ps then ps else ps + [name]
  }

  function Union(ps: seq<string>, qs: seq<string>): seq<string> {
    if qs == [] then ps else AppendMissing(Union(ps, qs[..|qs| - 1]), qs[|qs| - 1])
  }

  function NormalList(ps: seq<string>, valid: set<string>): seq<string> {
    if ps == [] then []
    else
      var rest, name := NormalList(ps[..|ps| - 1], valid), ProjectName(ps[|ps| - 1]);
      if name == "" || name !in valid then rest else AppendMissing(rest, name)
  }

  function FilterList(host: string, ps: seq<string>, links: map<string, string>): seq<string> {
    if ps == [] then []
    else
      var rest, name := FilterList(host, ps[..|ps| - 1], links), ps[|ps| - 1];
      if name in links && links[name] != host then rest else AppendMissing(rest, name)
  }

  // ----- hosts -----

  function CleanHost(h: Host, valid: set<string>): Host {
    h.(name := HostName(h.name), projects := NormalList(h.projects, valid))
  }

  function MergeOrchestration(existing: Orchestration, incoming: Orchestration): Orchestration {
    Orchestration(FirstText(incoming.name, existing.name), FirstText(incoming.registryState, existing.registryState),
                  FirstNumber(incoming.registryPort, existing.registryPort), FirstText(incoming.state, existing.state))
  }

  function MergeHost(existing: Host, incoming: Host): Host {
    incoming.(username := FirstText(incoming.username, existing.username),
              pathToKey := FirstText(incoming.pathToKey, existing.pathToKey),
              pathToPubKey := FirstText(incoming.pathToPubKey, existing.pathToPubKey),
              useKey := incoming.useKey || existing.useKey,
              orchestration := MergeOrchestration(existing.orchestration, incoming.orchestration),
              projects := Union(existing.projects, incoming.projects))
  }

  function HostRules(valid: set<string>): Rules<Host> {
    Rules((h: Host) => CleanHost(h, valid), (h: Host) => h.name, MergeHost)
  }

  /** Name of the last default host, or "". */
  function DefaultName(hs: seq<Host>): string {
    if hs == [] then ""
    else
      var h := hs[|hs| - 1];
      if HostName(h.name) != "" && h.isDefault then HostName(h.name) else DefaultName(hs[..|hs| - 1])
  }

  /** Position of the first host of that exact name, or |hs|. */
  function HostAt(hs: seq<Host>, name: string): (i: nat)
    ensures i <= |hs|
    ensures i < |hs| ==> hs[i].name == name
    ensures forall j :: 0 <= j < i ==> hs[j].name != name
  {
    if hs == [] || hs[0].name == name then 0 else 1 + HostAt(hs[1..], name)
  }

  function AttachOne(hs: seq<Host>, p: Project): seq<Host> {
    if p.host == "" then hs
    else
      var i := HostAt(hs, p.host);
      if i < |hs| then hs[i := hs[i].(projects := AppendMissing(hs[i].projects, p.name))]
      else hs + [NewHost(p.host, [p.name], "")]
  }

  /** Every mapped project is listed by its host, created when missing. */
  function Attach(hs: seq<Host>, ps: seq<Project>): seq<Host> {
    if ps == [] then hs else AttachOne(Attach(hs, ps[..|ps| - 1]), ps[|ps| - 1])
  }

  function FinishHost(h: Host, valid: set<string>, links: map<string, string>, default: string): Host {
    var listed := FilterList(h.name, NormalList(h.projects, valid), links);
    h.(projects := listed, inUse := |listed| > 0, isDefault := h.name == default)
  }

  function FinishHosts(hs: seq<Host>, valid: set<string>, links: map<string, string>, default: string): (r: seq<Host>)
    ensures |r| == |hs|
  {
    seq(|hs|, i requires 0 <= i < |hs| => FinishHost(hs[i], valid, links, default))
  }

  function NormalHosts(hs: seq<Host>, ps: seq<Project>): seq<Host> {
    var valid := ProjectNames(ps);
    FinishHosts(Attach(Normal(HostRules(valid), hs), ps), valid, ProjectHosts(ps), DefaultName(hs))
  }

  // ----- registries and context -----

  function RegistryRules(): Rules<Registry> {
    Rules((r: Registry) => r.(name := TrimSpace(r.name)), (r: Registry) => r.name, (a: Registry, b: Registry) => b)
  }

  function NormalRegistries(rs: seq<Registry>): seq<Registry> {
    Normal(RegistryRules(), rs)
  }

  /** Position of the first project whose trimmed name is that of name, or |ps|. */
  function ProjectAt(ps: seq<Project>, name: string): (i: nat)
    ensures i <= |ps|
    ensures i < |ps| ==> ProjectName(ps[i].name) == ProjectName(name)
    ensures forall j :: 0 <= j < i ==> ProjectName(ps[j].name) != ProjectName(name)
  {
    if ps == [] || ProjectName(ps[0].name) == ProjectName(name) then 0 else 1 + ProjectAt(ps[1..], name)
  }

  function NormalContext(context: string, ps: seq<Project>): string {
    var name := ProjectName(context);
    if name == "" || ProjectAt(ps, name) == |ps| then "" else name
  }

  function Normalize(d: Data): Data {
    var ps := NormalProjects(d.projects);
    Data(NormalContext(d.context, ps), ps, NormalHosts(d.hosts, ps), NormalRegistries(d.instances))
  }
}
