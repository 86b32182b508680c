/** Bringing the local container list and the managed SSH blocks back into
    agreement with what the agent lists. */
module Reconcile {
  import opened Text
  import opened KeyedMerge
  import opened StoreModel
  import opened StoreLaws
  import opened StoreNormal
  import opened StoreOps
  import opened StoreCommands
  import opened StateStore
  import opened SshEntry
  import SshConfig

  const ROOT_USER := "root"

  /** A container as the agent lists it. */
  datatype Listed = Listed(id: string, name: string, status: string, ports: map<string, int>)

  function StatusText(s: string): string {
    if s in {"running", "exited", "deleted", "unknown", "archived"} then s else "unknown"
  }

  /** The listing by name; a later entry of the same name replaces an earlier one. */
  function ByName(list: seq<Listed>): map<string, Listed> {
    if list == [] then map[]
    else
      var c, rest := list[|list| - 1], ByName(list[..|list| - 1]);
      if c.name == "" then rest else rest[c.name := c]
  }

  /** Trimmed non-empty names, each at its first place. */
  function Unique(names: seq<string>): seq<string> {
    if names == [] then []
    else
      var rest, n := Unique(names[..|names| - 1]), TrimSpace(names[|names| - 1]);
      if n == "" then rest else AppendMissing(rest, n)
  }

  method UniqueContainerNames(names: seq<string>) returns (unique: seq<string>)
    ensures unique == Unique(names)
  {
    unique := [];
    var seen: set<string> := {};
    for i := 0 to |names|
      invariant unique == Unique(names[..i])
      invariant forall n :: n in seen <==> n in unique
    {
      assert names[..i + 1][..i] == names[..i];
      var n := TrimSpace(names[i]);
      if n != "" && n !in seen {
        seen := seen + {n};
        unique := unique + [n];
      }
    }
    assert names[..|names|] == names;
  }

  // ----- local state -----

  datatype Local = Local(data: Data, ssh: string)

  function Containers(d: Data, project: string): seq<Container> {
    var i := ProjectAt(d.projects, project);
    if i < |d.projects| then d.projects[i].containers else []
  }

  function FindContainer(cs: seq<Container>, name: string): Option<Container> {
    var i := ContainerAt(cs, name);
    if i < |cs| then Some(cs[i]) else None
  }

  /** Names of the containers not marked deleted. */
  function ContainerNames(cs: seq<Container>): seq<string> {
    if cs == [] then []
    else
      var c, rest := cs[|cs| - 1], ContainerNames(cs[..|cs| - 1]);
      if c.state == "deleted" || c.expectedState == "deleted" then rest else rest + [c.name]
  }

  // ----- synchronising -----

  /** What a synchronisation is given: the project, how to reach it, what the
      agent answers, and what to do about containers that are not listed. */
  datatype Env = Env(
    project: string, hostName: string, identityFile: string, removeAbsent: bool, expected: Option<string>,
    listed: map<string, Listed>, details: map<string, map<string, int>>)

  /** Published ports: the detailed answer when it has any, else the listing's. */
  function Ports(env: Env, name: string): map<string, int>
    requires name in env.listed
  {
    if name in env.details && env.details[name] != map[] then env.details[name] else env.listed[name].ports
  }

  function ReportOf(env: Env, cs: seq<Container>, name: string): Report
    requires name in env.listed
  {
    var c, known := env.listed[name], FindContainer(cs, name);
    Report(c.id, c.name, StatusText(c.status), if env.expected.Some? then env.expected.value else StatusText(c.status),
           Ports(env, name), if known.Some? then known.value.remoteUser else "")
  }

  function SshPort(env: Env, name: string): int
    requires name in env.listed
  {
    if SSH_PORT in Ports(env, name) then Ports(env, name)[SSH_PORT] else 0
  }

  function EntryOf(env: Env, r: Report): Entry {
    var user := TrimSpace(r.remoteUser);
    var login := if user == "" then ROOT_USER else user;
    Entry(TrimSpace(r.name), env.hostName, PublishedSshPort(r), login, env.identityFile)
  }

  /** The SSH file after one reported container, and whether the edit was accepted. */
  function SshAfter(ssh: string, env: Env, r: Report): (string, bool) {
    var e := EntryOf(env, r);
    if e.port <= 0 then (SshConfig.Remove(ssh, e.alias), TrimSpace(e.alias) == "" || ValidToken(e.alias))
    else (SshConfig.Upsert(ssh, e), ValidToken(e.alias) && ValidToken(e.hostName) && ValidToken(e.user))
  }

  datatype Progress = Progress(local: Local, absent: seq<string>, ok: bool)

  function SyncOne(p: Progress, env: Env, name: string): Progress {
    if name !in env.listed then (if env.removeAbsent then p.(absent := p.absent + [name]) else p)
    else if ProjectAt(p.local.data.projects, env.project) == |p.local.data.projects| then p.(ok := false)
    else
      var r := ReportOf(env, Containers(p.local.data, env.project), name);
      var (ssh, ok) := SshAfter(p.local.ssh, env, r);
      Progress(Local(UpsertContainer(p.local.data, env.project, r), ssh), p.absent, ok)
  }

  function SyncNames(local: Local, env: Env, names: seq<string>): Progress {
    if names == [] then Progress(local, [], true)
    else
      var p := SyncNames(local, env, names[..|names| - 1]);
      if p.ok then SyncOne(p, env, names[|names| - 1]) else p
  }

  /** The SSH file without the given aliases, in turn, up to a rejected one. */
  function Forget(ssh: string, names: seq<string>): (string, bool) {
    if names == [] then (ssh, true)
    else
      var (before, ok) := Forget(ssh, names[..|names| - 1]);
      var n := names[|names| - 1];
      if !ok then (before, false) else (SshConfig.Remove(before, n), TrimSpace(n) == "" || ValidToken(n))
  }

  function DropAbsent(p: Progress, env: Env): (Local, bool) {
    if p.absent == [] then (p.local, true)
    else if ProjectAt(p.local.data.projects, env.project) == |p.local.data.projects| then (p.local, false)
    else
      var (ssh, ok) := Forget(p.local.ssh, p.absent);
      (Local(RemoveContainers(p.local.data, env.project, p.absent), ssh), ok)
  }

  function Sync(local: Local, env: Env, names: seq<string>): (Local, bool) {
    var p := SyncNames(local, env, Unique(names));
    if p.ok then DropAbsent(p, env) else (p.local, false)
  }

  method SyncContainer(store: Store, ssh: SshConfig.ConfigFile, env: Env, name: string) returns (ok: bool)
    requires name in env.listed
    modifies store, ssh
    ensures ok ==> ProjectAt(old(store.projects), env.project) < |old(store.projects)|
    ensures var p := SyncOne(Progress(Local(old(store.State()), old(ssh.content)), [], true), env, name);
            Local(store.State(), ssh.content) == p.local && ok == p.ok
  {
    hide ValidToken, TrimSpace, ProjectName;
    var r := ReportOf(env, Containers(store.State(), env.project), name);
    var known := store.UpsertProjectContainer(env.project, r);
    if !known {
      return false;
    }
    var e := EntryOf(env, r);
    if e.port <= 0 {
      ok := ssh.RemoveEntry(e.alias);
    } else {
      ok := ssh.UpsertEntry(e);
    }
  }

  method SyncListed(store: Store, ssh: SshConfig.ConfigFile, env: Env, names: seq<string>)
    returns (ok: bool, absent: seq<string>)
    modifies store, ssh
    ensures SyncNames(Local(old(store.State()), old(ssh.content)), env, names) ==
        Progress(Local(store.State(), ssh.content), absent, ok)
  {
    hide ReportOf, SshAfter, UpsertContainer, ProjectAt, Containers;
    ghost var start := Local(store.State(), ssh.content);
    absent := [];
    for n := 0 to |names|
      invariant SyncNames(start, env, names[..n]) == Progress(Local(store.State(), ssh.content), absent, true)
    {
      assert names[..n + 1][..n] == names[..n];
      if names[n] !in env.listed {
        if env.removeAbsent {
          absent := absent + [names[n]];
        }
      } else {
        var done := SyncContainer(store, ssh, env, names[n]);
        if !done {
          SyncStops(start, env, names, n + 1);
          return false, absent;
        }
      }
    }
    assert names[..|names|] == names;
    return true, absent;
  }

  method ForgetAbsent(ssh: SshConfig.ConfigFile, absent: seq<string>) returns (ok: bool)
    modifies ssh
    ensures Forget(old(ssh.content), absent) == (ssh.content, ok)
  {
    hide ValidToken, TrimSpace;
    ghost var before := ssh.content;
    for n := 0 to |absent|
      invariant Forget(before, absent[..n]) == (ssh.content, true)
    {
      assert absent[..n + 1][..n] == absent[..n];
      var done := ssh.RemoveEntry(absent[n]);
      if !done {
        ForgetStops(before, absent, n + 1);
        return false;
      }
    }
    assert absent[..|absent|] == absent;
    return true;
  }

  /** The whole synchronisation of the store and the SSH file. */
  method SyncProjectContainers(store: Store, ssh: SshConfig.ConfigFile, env: Env, requested: seq<string>)
    returns (ok: bool)
    modifies store, ssh
    ensures (Local(store.State(), ssh.content), ok) == Sync(Local(old(store.State()), old(ssh.content)), env, requested)
  {
    hide Unique, SyncNames, Forget, ProjectAt, RemoveContainers;
    var names := UniqueContainerNames(requested);
    var synced, absent := SyncListed(store, ssh, env, names);
    if !synced || absent == [] {
      return synced;
    }
    ghost var data := store.State();
    var known := store.RemoveProjectContainers(env.project, absent);
    if !known {
      UnknownProject(data, env.project, absent);
      return false;
    }
    ok := ForgetAbsent(ssh, absent);
  }

  lemma UnknownProject(d: Data, project: string, names: seq<string>)
    requires ProjectAt(d.projects, project) == |d.projects|
    ensures RemoveContainers(d, project, names) == d
  {
  }

  lemma {:induction false} SyncStops(local: Local, env: Env, names: seq<string>, k: nat)
    requires k <= |names| && !SyncNames(local, env, names[..k]).ok
    ensures SyncNames(local, env, names) == SyncNames(local, env, names[..k])
    decreases |names| - k
  {
    if k < |names| {
      assert names[..k + 1][..k] == names[..k];
      SyncStops(local, env, names, k + 1);
    } else {
      assert names[..k] == names;
    }
  }

  lemma {:induction false} ForgetStops(ssh: string, names: seq<string>, k: nat)
    requires k <= |names| && !Forget(ssh, names[..k]).1
    ensures Forget(ssh, names) == Forget(ssh, names[..k])
    decreases |names| - k
  {
    if k < |names| {
      assert names[..k + 1][..k] == names[..k];
      ForgetStops(ssh, names, k + 1);
    } else {
      assert names[..k] == names;
    }
  }

  // ----- clearing -----

  function Present(listed: map<string, Listed>, names: seq<string>): seq<string> {
    if names == [] then []
    else Present(listed, names[..|names| - 1]) + (if names[|names| - 1] in listed then [names[|names| - 1]] else [])
  }

  /** The closing synchronisation: against the second listing, dropping what is gone. */
  function AfterDeletes(env: Env, listing: seq<Listed>): Env {
    env.(removeAbsent := true, expected := None, listed := ByName(listing))
  }

  datatype Cleared = Cleared(local: Local, synced: bool, requested: seq<string>)

  /** The names a clear asks about: the project's containers and some more. */
  function ClearNames(d: Data, project: string, extra: seq<string>): seq<string> {
    Unique(ContainerNames(Containers(d, project)) + extra)
  }

  /** What clearing does, given what the agent lists before and after. */
  function Clear(local: Local, env: Env, extra: seq<string>, first: Option<seq<Listed>>,
      second: Option<seq<Listed>>): Cleared {
    var names := ClearNames(local.data, env.project, extra);
    var requested := if first.Some? then Present(ByName(first.value), names) else [];
    if requested == [] then Cleared(local, first.Some? || names == [], requested)
    else if second.None? then Cleared(local, false, requested)
    else var (after, ok) := Sync(local, AfterDeletes(env, second.value), requested); Cleared(after, ok, requested)
  }

  /** Clearing: every container known locally (or named besides) that the first
      listing shows gets a delete request, whatever happened to the earlier
      ones; then exactly those are synchronised against the second listing. */
  method ClearProjectContainers(
    store: Store, ssh: SshConfig.ConfigFile, env: Env, extra: seq<string>,
    first: Option<seq<Listed>>, second: Option<seq<Listed>>, deleteFails: set<string>)
    returns (ok: bool, synced: bool, requested: seq<string>)
    modifies store, ssh
    ensures Clear(Local(old(store.State()), old(ssh.content)), env, extra, first, second) ==
            Cleared(Local(store.State(), ssh.content), synced, requested)
    ensures ok <==> synced && forall n :: n in requested ==> n !in deleteFails
  {
    hide Sync, ContainerNames, Containers, Unique;
    requested := [];
    assert ByName([]) == map[];
    var names := UniqueContainerNames(ContainerNames(Containers(store.State(), env.project)) + extra);
    if names == [] {
      assert forall listed :: Present(listed, []) == [];
      return true, true, [];
    }
    if first.None? {
      return false, false, [];
    }
    var byName := ByName(first.value);
    var errors: nat := 0;
    for n := 0 to |names|
      invariant requested == Present(byName, names[..n])
      invariant errors == 0 <==> forall r :: r in requested ==> r !in deleteFails
    {
      assert names[..n + 1][..n] == names[..n];
      if names[n] in byName {
        requested := requested + [names[n]];
        assert names[n] in requested;
        if names[n] in deleteFails {
          errors := errors + 1;
        }
      }
    }
    assert names[..|names|] == names;
    if requested == [] {
      synced := true;
    } else if second.None? {
      synced := false;
    } else {
      synced := SyncProjectContainers(store, ssh, AfterDeletes(env, second.value), requested);
    }
    ok := synced && errors == 0;
  }

  // ----- starting and stopping -----

  /** How many containers are changed in turn before one is not listed or fails. */
  function Changed(listed: map<string, Listed>, fails: set<string>, names: seq<string>): (n: nat)
    ensures n <= |names|
    ensures forall i :: 0 <= i < n ==> names[i] in listed && names[i] !in fails
    ensures n < |names| ==> names[n] !in listed || names[n] in fails
  {
    if names == [] || names[0] !in listed || names[0] in fails then 0 else 1 + Changed(listed, fails, names[1..])
  }

  /** The synchronisation after a change of state: it expects the new state and
      keeps what is absent. */
  function AfterChange(env: Env, status: string, listing: seq<Listed>): Env {
    env.(removeAbsent := false, expected := Some(status), listed := ByName(listing))
  }

  datatype Changes = Changes(local: Local, ok: bool, changed: seq<string>)

  /** What starting or stopping does, given what the agent lists before and after. */
  function Change(
    local: Local, env: Env, status: string, first: Option<seq<Listed>>, second: Option<seq<Listed>>,
        fails: set<string>): Changes
  {
    var names := ContainerNames(Containers(local.data, env.project));
    var changed := if first.Some? then names[..Changed(ByName(first.value), fails, names)] else [];
    if names == [] || changed != names || (second.None? && Unique(names) != []) then Changes(local, false, changed)
    else
      var (after, ok) := Sync(local, AfterChange(env, status, if second.Some? then second.value else []), names);
      Changes(after, ok, changed)
  }

  /** Starting or stopping: the project's containers in order, up to the first
      that is not listed or fails; only when all were changed is the local state
      synchronised. */
  method ChangeContainersState(
    store: Store, ssh: SshConfig.ConfigFile, env: Env, status: string,
    first: Option<seq<Listed>>, second: Option<seq<Listed>>, changeFails: set<string>)
    returns (ok: bool, changed: seq<string>)
    modifies store, ssh
    ensures Change(Local(old(store.State()), old(ssh.content)), env, status, first, second, changeFails) ==
            Changes(Local(store.State(), ssh.content), ok, changed)
  {
    hide Sync, ContainerNames, Containers, Unique, ByName;
    changed := [];
    var names := ContainerNames(Containers(store.State(), env.project));
    if names == [] || first.None? {
      return false, [];
    }
    var byName := ByName(first.value);
    for n := 0 to |names|
      invariant changed == names[..n]
      invariant forall i :: 0 <= i < n ==> names[i] in byName && names[i] !in changeFails
    {
      if names[n] !in byName || names[n] in changeFails {
        return false, changed;
      }
      changed := changed + [names[n]];
    }
    assert names[..|names|] == names;
    var unique := UniqueContainerNames(names);
    if second.None? && unique != [] {
      return false, changed;
    }
    ok := SyncProjectContainers(store, ssh, AfterChange(env, status, if second.Some? then second.value else []), names);
  }

  // ----- what synchronising achieves -----

  lemma TrimmedToken(v: string)
    requires TrimSpace(v) == v && ValidToken(v)
    ensures OneLine(v)
  {
  }

  lemma FindAfterUpsert(cs: seq<Container>, c: Container, m: string)
    requires TrimSpace(c.name) == c.name
    ensures FindContainer(UpsertIn(cs, c), m) == if TrimSpace(m) == c.name then Some(c) else FindContainer(cs, m)
  {
    hide TrimSpace;
    var r, i, j, k := UpsertIn(cs, c), ContainerAt(cs, c.name), ContainerAt(cs, m), ContainerAt(UpsertIn(cs, c), m);
    assert i < |r| && r[i] == c && forall n :: 0 <= n < |cs| && n != i ==> r[n] == cs[n];
    if TrimSpace(m) == c.name {
      assert k == i;
    } else if j < |cs| {
      assert k == j;
    } else {
      assert k == |r|;
    }
  }

  lemma {:induction false} FindAfterDrop(cs: seq<Container>, names: set<string>, m: string)
    ensures FindContainer(DropContainers(cs, names), m) == if TrimSpace(m) in names then None else FindContainer(cs, m)
  {
    hide TrimSpace;
    if cs != [] {
      var init, c := cs[..|cs| - 1], cs[|cs| - 1];
      FindAfterDrop(init, names, m);
      assert cs == init + [c];
      FindSnoc(init, c, m);
      FindSnoc(DropContainers(init, names), c, m);
      assert TrimSpace(c.name) in names ==> DropContainers(cs, names) == DropContainers(init, names);
    }
  }

  lemma FindSnoc(cs: seq<Container>, c: Container, m: string)
    ensures FindContainer(cs + [c], m) ==
              if FindContainer(cs, m).Some? then FindContainer(cs, m)
              else if TrimSpace(c.name) == TrimSpace(m) then Some(c)
              else None
  {
    hide TrimSpace;
    var all, i, j := cs + [c], ContainerAt(cs, m), ContainerAt(cs + [c], m);
    assert forall n :: 0 <= n < |cs| ==> all[n] == cs[n];
    assert all[|cs|] == c;
    if i < |cs| {
      assert j == i;
    } else {
      assert j >= |cs|;
    }
  }

  /** Only that project's containers may differ. */
  ghost predicate OnlyContainers(d: Data, e: Data, project: string) {
    && d.context == e.context && d.hosts == e.hosts && d.instances == e.instances && |d.projects| == |e.projects|
    && ProjectAt(e.projects, project) == ProjectAt(d.projects, project)
    && forall i :: 0 <= i < |d.projects| ==>
         e.projects[i] ==
         if i == ProjectAt(d.projects, project) then d.projects[i].(containers := e.projects[i].containers)
         else d.projects[i]
  }

  function WithContainers(d: Data, i: nat, cs: seq<Container>): Data
    requires i < |d.projects|
  {
    d.(projects := d.projects[i := d.projects[i].(containers := cs)])
  }

  lemma PutContainers(d: Data, project: string, cs: seq<Container>)
    requires ProjectAt(d.projects, project) < |d.projects|
    ensures OnlyContainers(d, WithContainers(d, ProjectAt(d.projects, project), cs), project)
    ensures Containers(WithContainers(d, ProjectAt(d.projects, project), cs), project) == cs
  {
    hide ProjectAt;
    var i := ProjectAt(d.projects, project);
    SameProjectAt(d.projects, WithContainers(d, i, cs).projects, project);
  }

  lemma OnlyContainersTrans(a: Data, b: Data, c: Data, project: string)
    requires OnlyContainers(a, b, project) && OnlyContainers(b, c, project)
    ensures OnlyContainers(a, c, project)
  {
    hide ProjectAt;
  }

  /** The container of that name in the project's local list. */
  function Known(d: Data, project: string, name: string): Option<Container> {
    FindContainer(Containers(d, project), name)
  }

  lemma UpsertKnown(d: Data, project: string, r: Report, m: string)
    requires ProjectAt(d.projects, project) < |d.projects|
    ensures OnlyContainers(d, UpsertContainer(d, project, r), project)
    ensures Known(UpsertContainer(d, project, r), project, m) ==
              if TrimSpace(m) == TrimSpace(r.name) then Some(ToContainer(r)) else Known(d, project, m)
  {
    TrimSpaceFixed(r.name);
    hide TrimSpace, ProjectAt, UpsertIn, OnlyContainers;
    PutContainers(d, project, UpsertIn(Containers(d, project), ToContainer(r)));
    FindAfterUpsert(Containers(d, project), ToContainer(r), m);
  }

  lemma RemoveKnown(d: Data, project: string, names: seq<string>, m: string)
    requires ProjectAt(d.projects, project) < |d.projects|
    ensures OnlyContainers(d, RemoveContainers(d, project, names), project)
    ensures Known(RemoveContainers(d, project, names), project, m) ==
              if TrimSpace(m) in TrimAll(names) then None else Known(d, project, m)
  {
    hide TrimSpace, TrimAll, ProjectAt, DropContainers, OnlyContainers;
    PutContainers(d, project, DropContainers(Containers(d, project), TrimAll(names)));
    FindAfterDrop(Containers(d, project), TrimAll(names), m);
  }

  // ----- the store side -----

  ghost predicate TrimmedNames(names: seq<string>) {
    forall i :: 0 <= i < |names| ==> names[i] != "" && TrimSpace(names[i]) == names[i]
  }

  lemma {:induction false} UniqueTrimmed(names: seq<string>)
    ensures TrimmedNames(Unique(names))
    ensures TrimmedNames(names) ==> forall n :: n in Unique(names) <==> n in names
  {
    if names != [] {
      UniqueTrimmed(names[..|names| - 1]);
      TrimSpaceFixed(names[|names| - 1]);
      hide TrimSpace;
      assert names == names[..|names| - 1] + [names[|names| - 1]];
    }
  }

  /** Listings are keyed by the name they carry. */
  ghost predicate KeyedByName(listed: map<string, Listed>) {
    forall n :: n in listed ==> listed[n].name == n
  }

  lemma {:induction false} ByNameKeyed(list: seq<Listed>)
    ensures KeyedByName(ByName(list))
  {
    if list != [] {
      ByNameKeyed(list[..|list| - 1]);
    }
  }

  /** The login a container is known under locally, "" when there is none. */
  function RemoteUser(d: Data, project: string, name: string): string {
    var known := Known(d, project, name);
    if known.Some? then TrimSpace(known.value.remoteUser) else ""
  }

  /** The local record of a listed container: what the agent says, and the
      login that was known before. */
  function Synced(env: Env, user: string, name: string): Container
    requires name in env.listed
  {
    var c := env.listed[name];
    var status := StatusText(c.status);
    Container(c.id, status, if env.expected.Some? then env.expected.value else status, name, SshPort(env, name), user)
  }

  lemma ReportSynced(d: Data, env: Env, name: string)
    requires name in env.listed && KeyedByName(env.listed) && TrimSpace(name) == name
    ensures var r := ReportOf(env, Containers(d, env.project), name);
            ToContainer(r) == Synced(env, RemoteUser(d, env.project, name), name)
                && TrimSpace(r.remoteUser) == RemoteUser(d, env.project, name)
  {
    EmptyTrimmed();
    hide TrimSpace;
  }

  lemma UpsertSynced(d: Data, env: Env, n: string, m: string)
    requires ProjectAt(d.projects, env.project) < |d.projects|
    requires n in env.listed && KeyedByName(env.listed) && TrimSpace(n) == n && TrimSpace(m) == m
    ensures var after := UpsertContainer(d, env.project, ReportOf(env, Containers(d, env.project), n));
            && OnlyContainers(d, after, env.project)
            && Known(after, env.project, m) ==
                (if m == n then Some(Synced(env, RemoteUser(d, env.project, n), n)) else Known(d, env.project, m))
            && RemoteUser(after, env.project, m) == RemoteUser(d, env.project, m)
  {
    var r := ReportOf(env, Containers(d, env.project), n);
    TrimSpaceFixed(r.remoteUser);
    hide TrimSpace, OnlyContainers, UpsertContainer, Ports;
    ReportSynced(d, env, n);
    UpsertKnown(d, env.project, r, m);
  }

  lemma {:induction false} SyncNamesStore(local: Local, env: Env, names: seq<string>, m: string)
    requires TrimmedNames(names) && KeyedByName(env.listed) && TrimSpace(m) == m
    ensures var p := SyncNames(local, env, names);
            && OnlyContainers(local.data, p.local.data, env.project)
            && RemoteUser(p.local.data, env.project, m) == RemoteUser(local.data, env.project, m)
            && (p.ok && m in names && m in env.listed ==>
                  Known(p.local.data, env.project, m) == Some(Synced(env, RemoteUser(local.data, env.project, m), m)))
            && (m !in names || m !in env.listed ==>
                Known(p.local.data, env.project, m) == Known(local.data, env.project, m))
            && (p.ok ==> forall n :: n in p.absent <==> env.removeAbsent && n in names && n !in env.listed)
  {
    hide TrimSpace, OnlyContainers, SshAfter, UpsertContainer, Known, RemoteUser, Synced, ReportOf;
    if names == [] {
      OnlyContainersSame(local.data, env.project);
    } else {
      var init, n := names[..|names| - 1], names[|names| - 1];
      assert names == init + [n];
      SyncNamesStore(local, env, init, m);
      var p := SyncNames(local, env, init);
      if p.ok && n in env.listed && ProjectAt(p.local.data.projects, env.project) < |p.local.data.projects| {
        var r := ReportOf(env, Containers(p.local.data, env.project), n);
        UpsertSynced(p.local.data, env, n, m);
        OnlyContainersTrans(local.data, p.local.data, UpsertContainer(p.local.data, env.project, r), env.project);
      }
    }
  }

  lemma OnlyContainersSame(d: Data, project: string)
    ensures OnlyContainers(d, d, project)
  {
    hide ProjectAt;
  }

  /** The local list after a successful synchronisation: a requested name that
      is listed has the agent's record, one that is not is dropped (or kept
      because absent ones are kept); whatever happens, other names and other
      projects are as before. */
  lemma SyncStore(local: Local, env: Env, names: seq<string>, m: string)
    requires TrimmedNames(names) && KeyedByName(env.listed) && TrimSpace(m) == m
    ensures var (after, ok) := Sync(local, env, names);
            && OnlyContainers(local.data, after.data, env.project)
            && (m !in names ==> Known(after.data, env.project, m) == Known(local.data, env.project, m))
            && (ok && m in names && m in env.listed ==>
                  Known(after.data, env.project, m) == Some(Synced(env, RemoteUser(local.data, env.project, m), m)))
            && (ok && m in names && m !in env.listed ==>
                  Known(after.data, env.project, m) ==
                  if env.removeAbsent then None else Known(local.data, env.project, m))
  {
    hide TrimSpace, OnlyContainers, SshAfter, UpsertContainer, Known, Unique, SyncNames, RemoveContainers, TrimAll,
        RemoteUser, Synced;
    UniqueTrimmed(names);
    SyncNamesStore(local, env, Unique(names), m);
    var p := SyncNames(local, env, Unique(names));
    if p.ok && p.absent != [] && ProjectAt(p.local.data.projects, env.project) < |p.local.data.projects| {
      RemoveKnown(p.local.data, env.project, p.absent, m);
      OnlyContainersTrans(local.data, p.local.data, RemoveContainers(p.local.data, env.project, p.absent), env.project);
      TrimAllNames(p.absent, Unique(names));
    }
  }

  lemma TrimAllNames(absent: seq<string>, names: seq<string>)
    requires TrimmedNames(names) && forall n :: n in absent ==> n in names
    ensures forall n :: n in TrimAll(absent) <==> n in absent
  {
    hide TrimSpace;
    forall i | 0 <= i < |absent| ensures TrimSpace(absent[i]) == absent[i] {
      assert absent[i] in names;
    }
  }

  // ----- the SSH side -----

  type Blocks = map<string, seq<string>>

  predicate SameBlock(a: Blocks, b: Blocks, m: string) {
    (m in a <==> m in b) && (m in a ==> a[m] == b[m])
  }

  /** The host name is trimmed and the identity path is one line. */
  predicate ReachOk(env: Env) {
    TrimSpace(env.hostName) == env.hostName && '\n' !in env.identityFile
  }

  lemma RemoveOne(ssh: string, blocks: Blocks, user: seq<string>, n: string) returns (after: Blocks)
    requires SshConfig.Holds(ssh, blocks, user) && TrimSpace(n) == n
    ensures SshConfig.Holds(SshConfig.Remove(ssh, n), after, user)
    ensures forall m :: m != n ==> SameBlock(blocks, after, m)
    ensures ValidToken(n) ==> n !in after
  {
    after := if ValidToken(n) then blocks - {n} else blocks;
    if ValidToken(n) {
      TrimmedToken(n);
      hide ValidToken, OneLine, TrimSpace, SshConfig.Holds;
      SshConfig.RemoveHolds(ssh, blocks, user, n);
    }
  }

  lemma SyncOneSsh(ssh: string, env: Env, r: Report, blocks: Blocks, user: seq<string>) returns (after: Blocks)
    requires SshConfig.Holds(ssh, blocks, user) && ReachOk(env) && r.name != "" && TrimSpace(r.name) == r.name
    ensures SshConfig.Holds(SshAfter(ssh, env, r).0, after, user)
    ensures forall m :: m != r.name ==> SameBlock(blocks, after, m)
    ensures SshAfter(ssh, env, r).1 ==>
        if PublishedSshPort(r) > 0 then r.name in after && after[r.name] == Body(EntryOf(env, r)) else r.name !in after
  {
    var e := EntryOf(env, r);
    if e.port <= 0 {
      after := RemoveOne(ssh, blocks, user, r.name);
    } else if ValidToken(e.alias) && ValidToken(e.hostName) && ValidToken(e.user) {
      TrimSpaceFixed(r.remoteUser);
      RootUser();
      TrimmedToken(e.alias);
      TrimmedToken(e.hostName);
      TrimmedToken(e.user);
      after := blocks[e.alias := Body(e)];
      hide ValidToken, OneLine, TrimSpace, SshConfig.Holds, Body;
      SshConfig.UpsertHolds(ssh, blocks, user, e);
    } else {
      after := blocks;
    }
  }

  lemma RootUser()
    ensures TrimSpace(ROOT_USER) == ROOT_USER
  {
    TrimSpaceFixed(ROOT_USER);
  }

  /** The SSH entry a listed container gets. */
  function EntryFor(env: Env, user: string, name: string): Entry
    requires name in env.listed
  {
    Entry(name, env.hostName, SshPort(env, name), if user == "" then ROOT_USER else user, env.identityFile)
  }

  /** A listed name has the block of its entry exactly when it has a port. */
  predicate BlockRight(env: Env, blocks: Blocks, user: string, name: string) {
    if name in env.listed && SshPort(env, name) > 0
    then name in blocks && blocks[name] == Body(EntryFor(env, user, name))
    else name !in blocks
  }

  lemma {:induction false} SyncNamesSsh(local: Local, env: Env, names: seq<string>, blocks: Blocks, user: seq<string>)
    returns (after: Blocks)
    requires SshConfig.Holds(local.ssh, blocks, user) && ReachOk(env) && TrimmedNames(names) && KeyedByName(env.listed)
    ensures SshConfig.Holds(SyncNames(local, env, names).local.ssh, after, user)
    ensures forall m :: m !in names || m !in env.listed ==> SameBlock(blocks, after, m)
    ensures SyncNames(local, env, names).ok ==>
              forall n :: n in names && n in env.listed ==>
                  BlockRight(env, after, RemoteUser(local.data, env.project, n), n)
  {
    hide TrimSpace, SshConfig.Holds, SshAfter, UpsertContainer, Body, RemoteUser, Ports, OnlyContainers, Known;
    after := blocks;
    if names != [] {
      var init, n := names[..|names| - 1], names[|names| - 1];
      assert names == init + [n];
      var before := SyncNamesSsh(local, env, init, blocks, user);
      after := before;
      var p := SyncNames(local, env, init);
      if p.ok && n in env.listed && ProjectAt(p.local.data.projects, env.project) < |p.local.data.projects| {
        var r := ReportOf(env, Containers(p.local.data, env.project), n);
        after := SyncOneSsh(p.local.ssh, env, r, before, user);
        ReportSynced(p.local.data, env, n);
        SyncNamesStore(local, env, init, n);
      }
      forall m | m != n || m !in env.listed ensures SameBlock(before, after, m) {
      }
      forall m | m !in names || m !in env.listed ensures SameBlock(blocks, after, m) {
        assert SameBlock(blocks, before, m) && SameBlock(before, after, m);
      }
      forall m | m in init && m != n ensures SameBlock(before, after, m) {
      }
    }
  }

  lemma {:induction false} ForgetSsh(ssh: string, names: seq<string>, blocks: Blocks, user: seq<string>)
    returns (after: Blocks)
    requires SshConfig.Holds(ssh, blocks, user) && TrimmedNames(names)
    ensures SshConfig.Holds(Forget(ssh, names).0, after, user)
    ensures forall m :: m !in names ==> SameBlock(blocks, after, m)
    ensures Forget(ssh, names).1 ==> forall n :: n in names ==> n !in after
  {
    hide SshConfig.Holds, ValidToken, TrimSpace;
    after := blocks;
    if names != [] {
      var init, n := names[..|names| - 1], names[|names| - 1];
      assert names == init + [n];
      var before := ForgetSsh(ssh, init, blocks, user);
      after := before;
      if Forget(ssh, init).1 {
        after := RemoveOne(Forget(ssh, init).0, before, user, n);
      }
      forall m | m !in names ensures SameBlock(blocks, after, m) {
        assert SameBlock(blocks, before, m) && SameBlock(before, after, m);
      }
      forall m | m in init && m != n ensures m in before <==> m in after {
        assert SameBlock(before, after, m);
      }
    }
  }

  /** The SSH file after a synchronisation: a requested name has the block of
      its entry exactly when it is listed with a published SSH port, or keeps
      what it had when it is absent and absent ones are kept; whatever happens,
      other blocks and the user's lines stay. */
  lemma SyncSsh(local: Local, env: Env, names: seq<string>, blocks: Blocks, user: seq<string>) returns (after: Blocks)
    requires SshConfig.Holds(local.ssh, blocks, user) && ReachOk(env) && TrimmedNames(names) && KeyedByName(env.listed)
    ensures SshConfig.Holds(Sync(local, env, names).0.ssh, after, user)
    ensures forall m :: m !in names ==> SameBlock(blocks, after, m)
    ensures Sync(local, env, names).1 ==> forall n :: n in names ==>
              if n in env.listed || env.removeAbsent
              then BlockRight(env, after, RemoteUser(local.data, env.project, n), n)
              else SameBlock(blocks, after, n)
  {
    hide TrimSpace, SshConfig.Holds, SyncNames, Unique, Forget, RemoveContainers, Body, RemoteUser, Ports,
        OnlyContainers, Known;
    UniqueTrimmed(names);
    var us := Unique(names);
    var before := SyncNamesSsh(local, env, us, blocks, user);
    after := before;
    var p := SyncNames(local, env, us);
    if p.ok {
      assert forall n :: n in p.absent <==> env.removeAbsent && n in us && n !in env.listed by {
        EmptyTrimmed();
        SyncNamesStore(local, env, us, "");
      }
      if p.absent != [] && ProjectAt(p.local.data.projects, env.project) < |p.local.data.projects| {
        forall i | 0 <= i < |p.absent| ensures p.absent[i] != "" && TrimSpace(p.absent[i]) == p.absent[i] {
          assert p.absent[i] in us;
        }
        after := ForgetSsh(p.local.ssh, p.absent, before, user);
        forall m | m !in p.absent ensures SameBlock(before, after, m) && (m in before <==> m in after) {
        }
        forall n | n in us && n !in env.listed && !env.removeAbsent ensures SameBlock(blocks, after, n) {
          assert SameBlock(blocks, before, n) && SameBlock(before, after, n);
        }
      }
    }
    forall m | m !in names ensures SameBlock(blocks, after, m) {
      assert SameBlock(blocks, before, m) && SameBlock(before, after, m);
    }
  }

  lemma EmptyTrimmed()
    ensures TrimSpace("") == ""
  {
  }

  // ----- what clearing and changing achieve -----

  predicate NamedIn(names: seq<string>, n: string) {
    n != "" && exists i :: 0 <= i < |names| && TrimSpace(names[i]) == n
  }

  lemma NamedInSnoc(names: seq<string>, n: string)
    requires names != []
    ensures NamedIn(names, n) <==> NamedIn(names[..|names| - 1], n) || (n != "" && TrimSpace(names[|names| - 1]) == n)
  {
    hide TrimSpace;
    var init := names[..|names| - 1];
    if n != "" {
      if i :| 0 <= i < |init| && TrimSpace(init[i]) == n {
        assert TrimSpace(names[i]) == n;
      }
      if i :| 0 <= i < |names| && TrimSpace(names[i]) == n {
        assert i < |init| ==> TrimSpace(init[i]) == n;
      }
    }
  }

  /** Unique names are exactly the trimmed non-empty ones, once each. */
  lemma {:induction false} UniqueFacts(names: seq<string>)
    ensures TrimmedNames(Unique(names)) && Distinct(Unique(names))
    ensures forall n :: n in Unique(names) <==> NamedIn(names, n)
  {
    UniqueTrimmed(names);
    hide TrimSpace, TrimmedNames;
    if names != [] {
      UniqueFacts(names[..|names| - 1]);
      forall n ensures n in Unique(names) <==> NamedIn(names, n) {
        NamedInSnoc(names, n);
      }
    }
  }

  lemma {:induction false} PresentFacts(listed: map<string, Listed>, names: seq<string>)
    ensures forall n :: n in Present(listed, names) <==> n in names && n in listed
    ensures TrimmedNames(names) ==> TrimmedNames(Present(listed, names))
    ensures Distinct(names) ==> Distinct(Present(listed, names))
  {
    hide TrimSpace;
    if names != [] {
      var init, n := names[..|names| - 1], names[|names| - 1];
      PresentFacts(listed, init);
      assert names == init + [n];
    }
  }

  /** The local record and the SSH block of a name agree with the listing. */
  ghost predicate Converged(before: Data, result: Data, blocks: Blocks, env: Env, n: string) {
    var login := RemoteUser(before, env.project, n);
    && Known(result, env.project, n) == (if n in env.listed then Some(Synced(env, login, n)) else None)
    && BlockRight(env, blocks, login, n)
  }

  lemma SyncConverges(local: Local, env: Env, listing: seq<Listed>, requested: seq<string>, blocks: Blocks,
      user: seq<string>)
    returns (after: Blocks)
    requires SshConfig.Holds(local.ssh, blocks, user) && ReachOk(env) && TrimmedNames(requested)
    requires env.listed == ByName(listing) && env.removeAbsent
    ensures var (result, ok) := Sync(local, env, requested);
            && OnlyContainers(local.data, result.data, env.project)
            && SshConfig.Holds(result.ssh, after, user)
            && (forall m :: TrimSpace(m) == m && m !in requested ==>
                  Known(result.data, env.project, m) == Known(local.data, env.project, m)
                      && SameBlock(blocks, after, m))
            && (ok ==> forall n :: n in requested ==> Converged(local.data, result.data, after, env, n))
  {
    hide TrimSpace, SshConfig.Holds, Sync, Known, OnlyContainers, RemoteUser, Synced, BlockRight, ByName;
    ByNameKeyed(listing);
    after := SyncSsh(local, env, requested, blocks, user);
    EmptyTrimmed();
    SyncStore(local, env, requested, "");
    forall m | TrimSpace(m) == m && m !in requested
      ensures Known(Sync(local, env, requested).0.data, env.project, m) == Known(local.data, env.project, m)
    {
      SyncStore(local, env, requested, m);
    }
    forall n | n in requested && Sync(local, env, requested).1
      ensures Converged(local.data, Sync(local, env, requested).0.data, after, env, n)
    {
      SyncStore(local, env, requested, n);
    }
  }

  lemma {:induction false} ContainerNamesOf(cs: seq<Container>, n: string)
    ensures n in ContainerNames(cs) <==>
              exists i :: 0 <= i < |cs| && cs[i].name == n && cs[i].state != "deleted"
                  && cs[i].expectedState != "deleted"
  {
    if cs != [] {
      var init := cs[..|cs| - 1];
      ContainerNamesOf(init, n);
      if i :| 0 <= i < |init| && init[i].name == n && init[i].state != "deleted" && init[i].expectedState != "deleted" {
        assert cs[i] == init[i];
      }
      if i :| 0 <= i < |cs| && cs[i].name == n && cs[i].state != "deleted" && cs[i].expectedState != "deleted" {
        assert i < |init| ==> cs[i] == init[i];
      }
    }
  }

  /** In a normalised store the names of a project's containers are trimmed. */
  lemma NormalNames(d: Data, project: string)
    requires Normalised(d)
    ensures TrimmedNames(ContainerNames(Containers(d, project)))
  {
    var i, r := ProjectAt(d.projects, project), ContainerRules();
    if i < |d.projects| {
      var cs := d.projects[i].containers;
      assert CleanProject(d.projects[i]) == d.projects[i];
      ContainerLaws();
      NormalFacts(r, cs);
      assert NormalContainers(cs) == cs;
      hide NormalContainers, Normal;
      forall k | 0 <= k < |cs| ensures cs[k].name != "" && TrimSpace(cs[k].name) == cs[k].name {
        assert IsClean(r, cs[k]) && r.key(cs[k]) != "";
        assert CleanContainer(cs[k]) == cs[k];
      }
      hide TrimSpace;
      var names := ContainerNames(cs);
      forall k | 0 <= k < |names| ensures names[k] != "" && TrimSpace(names[k]) == names[k] {
        assert names[k] in names;
        ContainerNamesOf(cs, names[k]);
      }
    }
  }

  /** A listed container is recorded as listed, expecting the new state; one
      that is not listed keeps its record and block. */
  ghost predicate Settled(before: Data, result: Data, blocks: Blocks, after: Blocks, env: Env, status: string,
      n: string) {
    var login := RemoteUser(before, env.project, n);
    if n in env.listed
    then Known(result, env.project, n) == Some(Synced(env, login, n).(expectedState := status))
        && BlockRight(env, after, login, n)
    else Known(result, env.project, n) == Known(before, env.project, n) && SameBlock(blocks, after, n)
  }

  lemma SyncChanges(
    local: Local, env: Env, status: string, listing: seq<Listed>, names: seq<string>, blocks: Blocks, user: seq<string>)
    returns (after: Blocks)
    requires SshConfig.Holds(local.ssh, blocks, user) && ReachOk(env) && TrimmedNames(names)
    requires env.listed == ByName(listing) && !env.removeAbsent && env.expected == Some(status)
    ensures var (result, ok) := Sync(local, env, names);
            && OnlyContainers(local.data, result.data, env.project)
            && SshConfig.Holds(result.ssh, after, user)
            && (forall m :: m !in names ==> SameBlock(blocks, after, m))
            && (ok ==> forall n :: n in names ==> Settled(local.data, result.data, blocks, after, env, status, n))
  {
    hide TrimSpace, SshConfig.Holds, Sync, Known, OnlyContainers, RemoteUser, BlockRight, Ports, ByName;
    ByNameKeyed(listing);
    after := SyncSsh(local, env, names, blocks, user);
    EmptyTrimmed();
    SyncStore(local, env, names, "");
    forall n | n in names && Sync(local, env, names).1
      ensures Settled(local.data, Sync(local, env, names).0.data, blocks, after, env, status, n)
    {
      SyncStore(local, env, names, n);
    }
  }

  // ----- when synchronising succeeds -----

  /** Nothing is in the way of recording a listed name and its SSH block. */
  predicate ListedOk(d: Data, env: Env, n: string) {
    n in env.listed ==>
      && ProjectAt(d.projects, env.project) < |d.projects| && ValidToken(n)
      && (SshPort(env, n) > 0 ==>
            && ValidToken(env.hostName)
            && ValidToken(if RemoteUser(d, env.project, n) == "" then ROOT_USER else RemoteUser(d, env.project, n)))
  }

  lemma SshAccepted(ssh: string, d: Data, env: Env, n: string)
    requires n in env.listed && KeyedByName(env.listed) && TrimSpace(n) == n && n != ""
    requires ProjectAt(d.projects, env.project) < |d.projects|
    ensures SshAfter(ssh, env, ReportOf(env, Containers(d, env.project), n)).1 <==> ListedOk(d, env, n)
  {
    ReportSynced(d, env, n);
    hide ValidToken, TrimSpace, RemoteUser, Ports, SshConfig.Remove, SshConfig.Upsert;
  }

  lemma {:induction false} SyncNamesSucceeds(local: Local, env: Env, names: seq<string>)
    requires TrimmedNames(names) && KeyedByName(env.listed)
    ensures SyncNames(local, env, names).ok <==> forall n :: n in names ==> ListedOk(local.data, env, n)
  {
    hide TrimSpace, OnlyContainers, UpsertContainer, ValidToken, RemoteUser, ReportOf, SshAfter, SshPort;
    if names != [] {
      var init, n := names[..|names| - 1], names[|names| - 1];
      assert names == init + [n];
      SyncNamesSucceeds(local, env, init);
      var p := SyncNames(local, env, init);
      SyncNamesStore(local, env, init, n);
      SameProject(local.data, p.local.data, env.project);
      if p.ok && n in env.listed && ProjectAt(p.local.data.projects, env.project) < |p.local.data.projects| {
        SshAccepted(p.local.ssh, p.local.data, env, n);
        assert ListedOk(p.local.data, env, n) == ListedOk(local.data, env, n);
        assert SyncOne(p, env, n).ok ==
            SshAfter(p.local.ssh, env, ReportOf(env, Containers(p.local.data, env.project), n)).1;
      }
      assert p.ok ==> (SyncOne(p, env, n).ok <==> ListedOk(local.data, env, n));
      assert SyncNames(local, env, names).ok <==> p.ok && ListedOk(local.data, env, n);
      assert forall m :: m in names <==> m in init || m == n;
      hide ListedOk;
    }
  }

  lemma SameProject(a: Data, b: Data, project: string)
    requires OnlyContainers(a, b, project)
    ensures |a.projects| == |b.projects| && ProjectAt(a.projects, project) == ProjectAt(b.projects, project)
  {
  }

  lemma {:induction false} ForgetSucceeds(ssh: string, names: seq<string>)
    requires TrimmedNames(names)
    ensures Forget(ssh, names).1 <==> forall n :: n in names ==> ValidToken(n)
  {
    hide ValidToken, TrimSpace, SshConfig.Remove;
    if names != [] {
      ForgetSucceeds(ssh, names[..|names| - 1]);
      assert names == names[..|names| - 1] + [names[|names| - 1]];
    }
  }

  /** An absent name can be dropped, when absent names are. */
  predicate AbsentOk(d: Data, env: Env, n: string) {
    n !in env.listed && env.removeAbsent ==> ProjectAt(d.projects, env.project) < |d.projects| && ValidToken(n)
  }

  /** Exactly when a synchronisation succeeds. */
  lemma SyncSucceeds(local: Local, env: Env, names: seq<string>)
    requires TrimmedNames(names) && KeyedByName(env.listed)
    ensures Sync(local, env, names).1 <==>
              forall n :: n in names ==> ListedOk(local.data, env, n) && AbsentOk(local.data, env, n)
  {
    UniqueTrimmed(names);
    EmptyTrimmed();
    hide TrimSpace, ValidToken, Unique, SyncNames, Forget, OnlyContainers, RemoveContainers, RemoteUser, SshPort;
    var us := Unique(names);
    SyncNamesSucceeds(local, env, us);
    SyncNamesStore(local, env, us, "");
    var p := SyncNames(local, env, us);
    SameProject(local.data, p.local.data, env.project);
    if p.ok {
      forall i | 0 <= i < |p.absent| ensures p.absent[i] != "" && TrimSpace(p.absent[i]) == p.absent[i] {
        assert p.absent[i] in p.absent && p.absent[i] in us;
      }
      ForgetSucceeds(p.local.ssh, p.absent);
      assert p.absent != [] ==> p.absent[0] in p.absent;
    }
  }
}
