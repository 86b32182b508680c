/** What clearing, starting and stopping achieve, told from the agent's
    listings as they are. */
module ReconcileTheorems {
  import opened Text
  import opened KeyedMerge
  import opened StoreModel
  import opened StoreNormal
  import opened StoreOps
  import opened SshEntry
  import opened Reconcile
  import SshConfig

  // ----- listings -----

  /** The last record of that name in a listing, or -1. */
  function LastNamed(list: seq<Listed>, n: string): (i: int)
    ensures -1 <= i < |list|
    ensures i >= 0 ==> list[i].name == n
    ensures forall j :: i < j < |list| ==> list[j].name != n
  {
    if list == [] then -1 else if list[|list| - 1].name == n then |list| - 1 else LastNamed(list[..|list| - 1], n)
  }

  predicate Shown(list: seq<Listed>, n: string) {
    exists i :: 0 <= i < |list| && list[i].name == n
  }

  /** The listing by name has exactly the non-empty names listed, each with its
      last record. */
  lemma {:induction false} ByNameExactly(list: seq<Listed>, n: string)
    ensures n in ByName(list) <==> n != "" && Shown(list, n)
    ensures n in ByName(list) ==> LastNamed(list, n) >= 0 && ByName(list)[n] == list[LastNamed(list, n)]
    ensures Shown(list, n) <==> LastNamed(list, n) >= 0
  {
    if list != [] {
      var init, last := list[..|list| - 1], list[|list| - 1];
      ByNameExactly(init, n);
      if Shown(init, n) {
        var i :| 0 <= i < |init| && init[i].name == n;
        assert list[i].name == n;
      }
      if i :| 0 <= i < |list| && list[i].name == n {
        assert i < |init| ==> init[i].name == n;
      }
    }
  }

  // ----- records and blocks that agree with a listed container -----

  /** The published SSH port of a listed container, 0 when there is none: from
      the detailed ports when the agent gave any, else from the listing. */
  function PortOf(c: Listed, detailed: map<string, int>): int {
    var ports := if detailed != map[] then detailed else c.ports;
    if "22/tcp" in ports then ports["22/tcp"] else 0
  }

  /** The detailed ports of a container, when the agent gave any. */
  function Detailed(env: Env, n: string): map<string, int> {
    if n in env.details then env.details[n] else map[]
  }

  /** A status the agent may report; every other one counts as unknown. */
  predicate ReportedAs(status: string, state: string) {
    if status in {"running", "exited", "deleted", "unknown", "archived"} then state == status else state == "unknown"
  }

  /** The local record of a listed container: identity and state as listed, the
      expected state given or else the same, the SSH port from the detailed
      ports or else from the listing, and the login known before. */
  predicate Records(k: Container, c: Listed, detailed: map<string, int>, expected: Option<string>, login: string) {
    && k.id == c.id && k.name == c.name && ReportedAs(c.status, k.state)
    && k.expectedState == (match expected case Some(e) => e case None => k.state)
    && k.portSSH == PortOf(c, detailed)
    && k.remoteUser == login
  }

  /** The block of an alias reaches that port, or there is none without a port. */
  predicate Reaches(blocks: Blocks, alias: string, port: int, env: Env, login: string) {
    var user := if login == "" then "root" else login;
    if port > 0
    then alias in blocks && blocks[alias] == Body(Entry(alias, env.hostName, port, user, env.identityFile))
    else alias !in blocks
  }

  /** Record and block of a name agree with what is listed under it. */
  ghost predicate Agrees(d: Data, blocks: Blocks, env: Env, c: Listed, expected: Option<string>, login: string) {
    var k := Known(d, env.project, c.name);
    && k.Some? && Records(k.value, c, Detailed(env, c.name), expected, login)
    && Reaches(blocks, c.name, k.value.portSSH, env, login)
  }

  lemma SyncedRecords(env: Env, list: seq<Listed>, login: string, n: string)
    requires env.listed == ByName(list) && n in env.listed
    ensures var i := LastNamed(list, n);
            i >= 0 && Records(Synced(env, login, n), list[i], Detailed(env, n), env.expected, login)
  {
    ByNameExactly(list, n);
  }

  lemma BlockReaches(blocks: Blocks, env: Env, login: string, n: string)
    requires n in env.listed
    ensures BlockRight(env, blocks, login, n) <==> Reaches(blocks, n, Synced(env, login, n).portSSH, env, login)
  {
    hide Body, Ports;
  }

  /** What the closing synchronisation means for one name. */
  ghost predicate Cleared(before: Data, result: Data, blocks: Blocks, env: Env, list: seq<Listed>, n: string) {
    var i := LastNamed(list, n);
    if i >= 0 then Agrees(result, blocks, env, list[i], None, RemoteUser(before, env.project, n))
    else Known(result, env.project, n) == None && n !in blocks
  }

  lemma ConvergedCleared(before: Data, result: Data, blocks: Blocks, env: Env, list: seq<Listed>, n: string)
    requires n != "" && Converged(before, result, blocks, AfterDeletes(env, list), n)
    ensures Cleared(before, result, blocks, env, list, n)
  {
    var after, login := AfterDeletes(env, list), RemoteUser(before, env.project, n);
    ByNameExactly(list, n);
    if n in after.listed {
      SyncedRecords(after, list, login, n);
      BlockReaches(blocks, after, login, n);
    }
    hide Known, RemoteUser, Body, Synced, Records, ByName;
  }

  // ----- clearing -----

  /** A container of the project not marked deleted, or one of the further names. */
  predicate Wanted(cs: seq<Container>, extra: seq<string>, n: string) {
    && n != ""
    && ((exists i :: 0 <= i < |cs| && LiveNamed(cs[i], n)) || exists i :: 0 <= i < |extra| && TrimSpace(extra[i]) == n)
  }

  /** The container is not marked deleted, and has that name. */
  predicate LiveNamed(c: Container, n: string) {
    c.state != "deleted" && c.expectedState != "deleted" && TrimSpace(c.name) == n
  }

  lemma NamedConcat(a: seq<string>, b: seq<string>, n: string)
    ensures NamedIn(a + b, n) <==> NamedIn(a, n) || NamedIn(b, n)
  {
    hide TrimSpace;
    if n != "" {
      if i :| 0 <= i < |a| && TrimSpace(a[i]) == n {
        assert TrimSpace((a + b)[i]) == n;
      }
      if i :| 0 <= i < |b| && TrimSpace(b[i]) == n {
        assert TrimSpace((a + b)[|a| + i]) == n;
      }
      if i :| 0 <= i < |a + b| && TrimSpace((a + b)[i]) == n {
        assert i < |a| ==> TrimSpace(a[i]) == n;
        assert i >= |a| ==> TrimSpace(b[i - |a|]) == n;
      }
    }
  }

  lemma NamedLive(cs: seq<Container>, n: string)
    ensures NamedIn(ContainerNames(cs), n) <==>
              n != "" && exists i :: 0 <= i < |cs| && LiveNamed(cs[i], n)
  {
    hide TrimSpace;
    var names := ContainerNames(cs);
    if i :| 0 <= i < |names| && TrimSpace(names[i]) == n {
      ContainerNamesOf(cs, names[i]);
      assert names[i] in names;
    }
    if i :| 0 <= i < |cs| && LiveNamed(cs[i], n) {
      ContainerNamesOf(cs, cs[i].name);
      var k :| 0 <= k < |names| && names[k] == cs[i].name;
    }
  }

  lemma WantedNames(d: Data, project: string, extra: seq<string>, n: string)
    ensures n in ClearNames(d, project, extra) <==> Wanted(Containers(d, project), extra, n)
  {
    var cs := Containers(d, project);
    UniqueFacts(ContainerNames(cs) + extra);
    NamedConcat(ContainerNames(cs), extra, n);
    NamedLive(cs, n);
    hide Unique, ContainerNames, TrimSpace, Containers;
  }

  /** The agent showed the name in the first listing, and it is wanted. */
  predicate Asked(d: Data, project: string, extra: seq<string>, first: Option<seq<Listed>>, n: string) {
    first.Some? && Shown(first.value, n) && Wanted(Containers(d, project), extra, n)
  }

  lemma RequestedAsked(local: Local, env: Env, extra: seq<string>, first: Option<seq<Listed>>,
      second: Option<seq<Listed>>)
    ensures var r := Clear(local, env, extra, first, second).requested;
            Distinct(r) && TrimmedNames(r) && forall n :: n in r <==> Asked(local.data, env.project, extra, first, n)
  {
    hide TrimSpace, Sync, ByName, Unique, ContainerNames, Present, Containers;
    var names := ClearNames(local.data, env.project, extra);
    UniqueFacts(ContainerNames(Containers(local.data, env.project)) + extra);
    forall n ensures n in names <==> Wanted(Containers(local.data, env.project), extra, n) {
      WantedNames(local.data, env.project, extra, n);
    }
    if first.Some? {
      PresentFacts(ByName(first.value), names);
      forall n | n != "" ensures n in ByName(first.value) <==> Shown(first.value, n) {
        ByNameExactly(first.value, n);
      }
    }
    hide ClearNames;
  }

  /** Clearing a project, from the local state and the two listings: exactly the
      wanted names that the agent showed get a delete request, once each. When
      the closing synchronisation succeeded, each of them is in the local list,
      as listed, exactly when the second listing has it, with the managed SSH
      block of its published port. Whatever happened, every other name of the
      project, every other project, every other block and every user line are
      untouched. */
  lemma ClearConverges(
    local: Local, env: Env, extra: seq<string>, first: Option<seq<Listed>>, second: Option<seq<Listed>>,
    blocks: Blocks, user: seq<string>)
    returns (after: Blocks)
    requires SshConfig.Holds(local.ssh, blocks, user) && ReachOk(env)
    ensures var r := Clear(local, env, extra, first, second);
            && Distinct(r.requested)
            && (forall n :: n in r.requested <==> Asked(local.data, env.project, extra, first, n))
            && OnlyContainers(local.data, r.local.data, env.project)
            && SshConfig.Holds(r.local.ssh, after, user)
            && (forall m :: TrimSpace(m) == m && m !in r.requested ==>
                  && Known(r.local.data, env.project, m) == Known(local.data, env.project, m)
                  && SameBlock(blocks, after, m))
            && (r.synced ==> forall n :: n in r.requested ==>
                  second.Some? && Cleared(local.data, r.local.data, after, env, second.value, n))
  {
    hide TrimSpace, SshConfig.Holds, Sync, Known, OnlyContainers, Asked, Converged, Cleared, ByName, ClearNames,
        Present;
    RequestedAsked(local, env, extra, first, second);
    var r := Clear(local, env, extra, first, second);
    OnlyContainersSame(local.data, env.project);
    after := blocks;
    if r.requested != [] && second.Some? {
      after := SyncConverges(local, AfterDeletes(env, second.value), second.value, r.requested, blocks, user);
      forall n | n in r.requested && r.synced ensures Cleared(local.data, r.local.data, after, env, second.value, n) {
        ConvergedCleared(local.data, r.local.data, after, env, second.value, n);
      }
    }
  }

  // ----- when clearing succeeds -----

  /** A record for the name can be kept and its SSH entry written or removed. */
  ghost predicate Recordable(d: Data, env: Env, list: seq<Listed>, n: string) {
    var i, login := LastNamed(list, n), RemoteUser(d, env.project, n);
    && ProjectAt(d.projects, env.project) < |d.projects| && ValidToken(n)
    && (i >= 0 && PortOf(list[i], Detailed(env, n)) > 0 ==>
          ValidToken(env.hostName) && ValidToken(if login == "" then "root" else login))
  }

  lemma RecordableOk(d: Data, env: Env, list: seq<Listed>, n: string)
    requires env.listed == ByName(list) && n != ""
    ensures n in env.listed ==> (ListedOk(d, env, n) <==> Recordable(d, env, list, n))
    ensures n !in env.listed && env.removeAbsent ==> (AbsentOk(d, env, n) <==> Recordable(d, env, list, n))
  {
    ByNameExactly(list, n);
    assert n in env.listed ==> SshPort(env, n) == PortOf(list[LastNamed(list, n)], Detailed(env, n));
    hide ValidToken, RemoteUser, ByName;
  }

  /** Exactly when the closing synchronisation of a clear succeeds: the agent
      answered both times it had to, and every requested name can be recorded. */
  lemma ClearSucceeds(local: Local, env: Env, extra: seq<string>, first: Option<seq<Listed>>,
      second: Option<seq<Listed>>)
    ensures var r := Clear(local, env, extra, first, second);
            r.synced <==>
              && (first.Some? || forall n :: !Wanted(Containers(local.data, env.project), extra, n))
              && (r.requested == []
                  || (second.Some? && forall n :: n in r.requested ==> Recordable(local.data, env, second.value, n)))
  {
    hide TrimSpace, Sync, ByName, Present, Wanted, Recordable, ListedOk, AbsentOk, ValidToken, Containers;
    RequestedAsked(local, env, extra, first, second);
    var r, names := Clear(local, env, extra, first, second), ClearNames(local.data, env.project, extra);
    forall n ensures n in names <==> Wanted(Containers(local.data, env.project), extra, n) {
      WantedNames(local.data, env.project, extra, n);
    }
    assert names != [] ==> names[0] in names;
    hide ClearNames, Asked;
    if r.requested != [] && second.Some? {
      var after := AfterDeletes(env, second.value);
      ByNameKeyed(second.value);
      SyncSucceeds(local, after, r.requested);
      forall n | n in r.requested
        ensures ListedOk(local.data, after, n) && AbsentOk(local.data, after, n) <==>
            Recordable(local.data, env, second.value, n)
      {
        RecordableOk(local.data, after, second.value, n);
        OtherBranch(local.data, after, n);
        SameRecordable(local.data, env, second.value, n);
      }
    }
  }

  lemma OtherBranch(d: Data, env: Env, n: string)
    ensures n !in env.listed ==> ListedOk(d, env, n)
    ensures n in env.listed || !env.removeAbsent ==> AbsentOk(d, env, n)
  {
  }

  lemma SameRecordable(d: Data, env: Env, list: seq<Listed>, n: string)
    ensures Recordable(d, AfterDeletes(env, list), list, n) <==> Recordable(d, env, list, n)
    ensures forall status :: Recordable(d, AfterChange(env, status, list), list, n) <==> Recordable(d, env, list, n)
  {
    hide RemoteUser, ByName, ValidToken;
  }

  // ----- starting and stopping -----

  /** A listed container agrees with the listing, expecting the new state; one
      that has vanished keeps its record and block. */
  ghost predicate Moved(
    before: Data, result: Data, blocks: Blocks, after: Blocks, env: Env, list: seq<Listed>, status: string, n: string)
  {
    var i := LastNamed(list, n);
    if i >= 0 then Agrees(result, after, env, list[i], Some(status), RemoteUser(before, env.project, n))
    else Known(result, env.project, n) == Known(before, env.project, n) && SameBlock(blocks, after, n)
  }

  lemma SettledMoved(
    before: Data, result: Data, blocks: Blocks, after: Blocks, env: Env, list: seq<Listed>, status: string, n: string)
    requires n != "" && Settled(before, result, blocks, after, AfterChange(env, status, list), status, n)
    ensures Moved(before, result, blocks, after, env, list, status, n)
  {
    var next, login := AfterChange(env, status, list), RemoteUser(before, env.project, n);
    ByNameExactly(list, n);
    if n in next.listed {
      SyncedRecords(next, list, login, n);
      BlockReaches(after, next, login, n);
      assert Synced(next, login, n).expectedState == status;
    }
    hide Known, RemoteUser, Body, Synced, Records, ByName;
  }

  /** The containers changed: a beginning of the project's containers in order,
      each shown and not failing, and the next one, if any, is not. */
  ghost predicate ChangedInOrder(changed: seq<string>, names: seq<string>, first: Option<seq<Listed>>,
      fails: set<string>) {
    && changed <= names
    && (forall n :: n in changed ==> first.Some? && Shown(first.value, n) && n !in fails)
    && (|changed| < |names| && first.Some? ==> !Shown(first.value, names[|changed|]) || names[|changed|] in fails)
  }

  lemma ChangedShown(listed: seq<Listed>, fails: set<string>, names: seq<string>)
    requires TrimmedNames(names)
    ensures ChangedInOrder(names[..Changed(ByName(listed), fails, names)], names, Some(listed), fails)
  {
    forall n | n != "" ensures n in ByName(listed) <==> Shown(listed, n) {
      ByNameExactly(listed, n);
    }
    hide ByName, TrimSpace;
    var k := Changed(ByName(listed), fails, names);
    forall n | n in names[..k] ensures Shown(listed, n) && n !in fails {
      var i :| 0 <= i < k && names[i] == n;
    }
  }

  /** Starting or stopping the containers of a project of a saved store: they are
      changed in order, up to the first that is not shown or fails. When it
      succeeds every container was changed, and each agrees with the second
      listing, expecting the new state, or, having vanished, keeps its record and
      block. Whatever happened, other projects, other blocks and user lines are
      untouched; and when some container was not changed, everything is. */
  lemma ChangeSettles(
    local: Local, env: Env, status: string, first: Option<seq<Listed>>, second: Option<seq<Listed>>, fails: set<string>,
    blocks: Blocks, user: seq<string>)
    returns (after: Blocks)
    requires SshConfig.Holds(local.ssh, blocks, user) && ReachOk(env) && Normalised(local.data)
    ensures var names := ContainerNames(Containers(local.data, env.project));
            var r := Change(local, env, status, first, second, fails);
            && OnlyContainers(local.data, r.local.data, env.project)
            && SshConfig.Holds(r.local.ssh, after, user)
            && ChangedInOrder(r.changed, names, first, fails)
            && (r.changed != names ==> r.local == local && after == blocks && !r.ok)
            && (forall m :: m !in names ==> SameBlock(blocks, after, m))
            && (r.ok ==> second.Some? && r.changed == names && names != [] && forall n :: n in names ==>
                  Moved(local.data, r.local.data, blocks, after, env, second.value, status, n))
  {
    hide TrimSpace, SshConfig.Holds, Sync, Known, OnlyContainers, ContainerNames, Settled, ByName, Normalised, Moved,
        ChangedInOrder, Containers;
    NormalNames(local.data, env.project);
    var names := ContainerNames(Containers(local.data, env.project));
    UniqueTrimmed(names);
    OnlyContainersSame(local.data, env.project);
    assert names != [] ==> names[0] in names && names[0] in Unique(names);
    hide Unique;
    if first.Some? {
      ChangedShown(first.value, fails, names);
    } else {
      NoneChanged(names, fails);
    }
    after := blocks;
    var r := Change(local, env, status, first, second, fails);
    if names != [] && r.changed == names && second.Some? {
      after := SyncChanges(local, AfterChange(env, status, second.value), status, second.value, names, blocks, user);
      forall n | n in names && r.ok
        ensures Moved(local.data, r.local.data, blocks, after, env, second.value, status, n)
      {
        SettledMoved(local.data, r.local.data, blocks, after, env, second.value, status, n);
      }
    }
  }

  lemma NoneChanged(names: seq<string>, fails: set<string>)
    ensures ChangedInOrder([], names, None, fails)
  {
  }

  /** Exactly when starting or stopping succeeds: the project has containers, all
      were changed, and those still listed can be recorded. */
  lemma ChangeSucceeds(
    local: Local, env: Env, status: string, first: Option<seq<Listed>>, second: Option<seq<Listed>>, fails: set<string>)
    requires Normalised(local.data)
    ensures var names := ContainerNames(Containers(local.data, env.project));
            var r := Change(local, env, status, first, second, fails);
            r.ok <==>
              && names != [] && r.changed == names && second.Some?
              && forall n :: n in names && Shown(second.value, n) ==> Recordable(local.data, env, second.value, n)
  {
    hide TrimSpace, Sync, ContainerNames, ByName, Normalised, Recordable, ListedOk, AbsentOk, ValidToken, Containers;
    NormalNames(local.data, env.project);
    var names := ContainerNames(Containers(local.data, env.project));
    UniqueTrimmed(names);
    assert names != [] ==> names[0] in names && names[0] in Unique(names);
    hide Unique;
    var r := Change(local, env, status, first, second, fails);
    if names != [] && r.changed == names && second.Some? {
      var after := AfterChange(env, status, second.value);
      ByNameKeyed(second.value);
      SyncSucceeds(local, after, names);
      forall n | n in names
        ensures ListedOk(local.data, after, n) && AbsentOk(local.data, after, n) <==>
                  (Shown(second.value, n) ==> Recordable(local.data, env, second.value, n))
      {
        ByNameExactly(second.value, n);
        RecordableOk(local.data, after, second.value, n);
        OtherBranch(local.data, after, n);
        SameRecordable(local.data, env, second.value, n);
      }
    }
  }
}
