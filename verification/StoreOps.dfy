/** The store's mutators as functions on its contents, and runs of them. */
module StoreOps {
  import opened Text
  import opened StoreModel

  const SSH_PORT := "22/tcp"

  /** A container as the engine or the agent reports it. */
  datatype Report = Report(
    id: string, name: string, status: string, expectedStatus: string, ports: map<string, int>, remoteUser: string)

  function PublishedSshPort(info: Report): int {
    if SSH_PORT in info.ports then info.ports[SSH_PORT] else 0
  }

  function ToContainer(info: Report): Container {
    Container(info.id, info.status, info.expectedStatus, TrimSpace(info.name), PublishedSshPort(info),
        TrimSpace(info.remoteUser))
  }

  // ----- lookups -----

  /** Position of the first host with that normalised name, or |hs|. */
  function LookupHost(hs: seq<Host>, name: string): (i: nat)
    ensures i <= |hs|
    ensures i < |hs| ==> HostName(hs[i].name) == HostName(name)
    ensures forall j :: 0 <= j < i ==> HostName(hs[j].name) != HostName(name)
  {
    if hs == [] || HostName(hs[0].name) == HostName(name) then 0 else 1 + LookupHost(hs[1..], name)
  }

  /** Position of the first container with that trimmed name, or |cs|. */
  function ContainerAt(cs: seq<Container>, name: string): (i: nat)
    ensures i <= |cs|
    ensures i < |cs| ==> TrimSpace(cs[i].name) == TrimSpace(name)
    ensures forall j :: 0 <= j < i ==> TrimSpace(cs[j].name) != TrimSpace(name)
  {
    if cs == [] || TrimSpace(cs[0].name) == TrimSpace(name) then 0 else 1 + ContainerAt(cs[1..], name)
  }

  function RemoveFirst(ps: seq<string>, name: string): seq<string> {
    if ps == [] then [] else if ps[0] == name then ps[1..] else [ps[0]] + RemoveFirst(ps[1..], name)
  }

  // ----- mutators of hosts -----

  function AddHost(d: Data, name: string, username: string): Data {
    var n, i := HostName(name), LookupHost(d.hosts, name);
    if n == "" then d
    else if i < |d.hosts| then
      var h := d.hosts[i].(name := n, username := FirstText(username, d.hosts[i].username));
      d.(hosts := d.hosts[i := h])
    else d.(hosts := d.hosts + [NewHost(n, [], username)])
  }

  function DropHost(hs: seq<Host>, name: string): seq<Host> {
    if hs == [] then []
    else DropHost(hs[..|hs| - 1], name) + (if HostName(hs[|hs| - 1].name) == HostName(name) then [] else [hs[|hs| - 1]])
  }

  function RemoveHost(d: Data, name: string): Data {
    d.(hosts := DropHost(d.hosts, name))
  }

  function MarkDefault(hs: seq<Host>, name: string): (r: seq<Host>)
    ensures |r| == |hs|
  {
    seq(|hs|, i requires 0 <= i < |hs| => hs[i].(isDefault := HostName(hs[i].name) == HostName(name)))
  }

  function SetDefault(d: Data, name: string): Data {
    if LookupHost(d.hosts, name) == |d.hosts| then d else d.(hosts := MarkDefault(d.hosts, name))
  }

  function Unlist(d: Data, host: string, project: string): Data {
    var i := LookupHost(d.hosts, host);
    if i == |d.hosts| then d
    else
      var listed := RemoveFirst(d.hosts[i].projects, ProjectName(project));
      d.(hosts := d.hosts[i := d.hosts[i].(projects := listed, inUse := |listed| > 0)])
  }

  function Register(d: Data, host: string, project: string): Data {
    var i := LookupHost(d.hosts, host);
    if ProjectAt(d.projects, ProjectName(project)) == |d.projects| || i == |d.hosts| then d
    else
      var listed := AppendMissing(d.hosts[i].projects, ProjectName(project));
      d.(hosts := d.hosts[i := d.hosts[i].(inUse := true, projects := listed)])
  }

  // ----- mutators of projects -----

  function AddProject(d: Data, name: string, confDir: string, flavour: Flavour): Data {
    var n := ProjectName(name);
    if n == "" || ProjectAt(d.projects, n) < |d.projects| then d
    else d.(projects := d.projects + [NewProject(n, confDir, flavour)])
  }

  function DropProject(ps: seq<Project>, name: string): seq<Project> {
    if ps == [] then []
    else
      var last := ps[|ps| - 1];
      DropProject(ps[..|ps| - 1], name) + (if ProjectName(last.name) == ProjectName(name) then [] else [last])
  }

  function RemoveProject(d: Data, name: string): Data {
    d.(projects := DropProject(d.projects, name))
  }

  /** Replaces the record of a project, when it exists. */
  function PutProject(d: Data, name: string, change: Project -> Project): Data {
    var i := ProjectAt(d.projects, name);
    if i == |d.projects| then d else d.(projects := d.projects[i := change(d.projects[i])])
  }

  function SetProjectHost(d: Data, name: string, host: string): Data {
    PutProject(d, name, (p: Project) => p.(host := HostName(host)))
  }

  function Unmap(d: Data, name: string): Data {
    PutProject(d, name, (p: Project) => p.(containers := [], host := ""))
  }

  function UpsertIn(cs: seq<Container>, c: Container): seq<Container> {
    var i := ContainerAt(cs, c.name);
    if i < |cs| then cs[i := c] else cs + [c]
  }

  function UpsertContainer(d: Data, name: string, info: Report): Data {
    PutProject(d, name, (p: Project) => p.(containers := UpsertIn(p.containers, ToContainer(info))))
  }

  function AddIn(cs: seq<Container>, c: Container): seq<Container> {
    if ContainerAt(cs, c.name) < |cs| then cs else cs + [c]
  }

  function AddContainer(d: Data, name: string, info: Report): Data {
    PutProject(d, name, (p: Project) => p.(containers := AddIn(p.containers, ToContainer(info))))
  }

  function TrimAll(names: seq<string>): set<string> {
    set i | 0 <= i < |names| :: TrimSpace(names[i])
  }

  function DropContainers(cs: seq<Container>, names: set<string>): seq<Container> {
    if cs == [] then []
    else DropContainers(cs[..|cs| - 1], names) + (if TrimSpace(cs[|cs| - 1].name) in names then [] else [cs[|cs| - 1]])
  }

  function RemoveContainers(d: Data, name: string, names: seq<string>): Data {
    PutProject(d, name, (p: Project) => p.(containers := DropContainers(p.containers, TrimAll(names))))
  }

  function SetContext(d: Data, name: string): Data {
    if ProjectAt(d.projects, name) == |d.projects| then d else d.(context := name)
  }

  /** Unmaps the listed projects in turn; stops at one that does not exist. */
  function UnmapAll(d: Data, names: seq<string>): (r: (Data, bool)) {
    if names == [] then (d, true)
    else
      var (before, ok) := UnmapAll(d, names[..|names| - 1]);
      var name := names[|names| - 1];
      if !ok || ProjectAt(before.projects, name) == |before.projects| then (before, false)
      else (SetProjectHost(before, name, ""), true)
  }

  function RemoveHostFromConfig(d: Data, name: string): (r: (Data, bool)) {
    var i := LookupHost(d.hosts, name);
    var (unmapped, ok) := UnmapAll(d, if i < |d.hosts| then d.hosts[i].projects else []);
    if ok then (RemoveHost(unmapped, name), true) else (unmapped, false)
  }

  // ----- runs -----

  datatype Op =
    | OpAddHost(host: string, username: string)
    | OpRemoveHost(host: string)
    | OpSetDefault(host: string)
    | OpUnlist(host: string, project: string)
    | OpRegister(host: string, project: string)
    | OpAddProject(project: string, confDir: string, flavour: Flavour)
    | OpRemoveProject(project: string)
    | OpSetProjectHost(project: string, host: string)
    | OpUnmap(project: string)
    | OpUpsertContainer(project: string, info: Report)
    | OpAddContainer(project: string, info: Report)
    | OpRemoveContainers(project: string, names: seq<string>)
    | OpSetContext(project: string)
    | OpRemoveHostFromConfig(host: string)
    | OpNormalize

  function Apply(d: Data, op: Op): Data {
    match op
    case OpAddHost(h, u) => AddHost(d, h, u)
    case OpRemoveHost(h) => RemoveHost(d, h)
    case OpSetDefault(h) => SetDefault(d, h)
    case OpUnlist(h, p) => Unlist(d, h, p)
    case OpRegister(h, p) => Register(d, h, p)
    case OpAddProject(p, c, f) => AddProject(d, p, c, f)
    case OpRemoveProject(p) => RemoveProject(d, p)
    case OpSetProjectHost(p, h) => SetProjectHost(d, p, h)
    case OpUnmap(p) => Unmap(d, p)
    case OpUpsertContainer(p, c) => UpsertContainer(d, p, c)
    case OpAddContainer(p, c) => AddContainer(d, p, c)
    case OpRemoveContainers(p, ns) => RemoveContainers(d, p, ns)
    case OpSetContext(p) => SetContext(d, p)
    case OpRemoveHostFromConfig(h) => RemoveHostFromConfig(d, h).0
    case OpNormalize => Normalize(d)
  }

  function Run(d: Data, ops: seq<Op>): Data {
    if ops == [] then d else Apply(Run(d, ops[..|ops| - 1]), ops[|ops| - 1])
  }
}
