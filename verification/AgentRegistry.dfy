/** The command line's registry of agents, kept as a list and used as a map
    from host name to agent. */
module AgentRegistry {
  import opened Text
  import opened KeyedMerge
  import opened Addresses

  type Url = string -> Option<UrlView>

  datatype Agent = Agent(certs: string, sshTunnel: bool, target: string)

  function NormalizeAgent(url: Url, a: Agent): Option<Agent> {
    match NormalizeTarget(url, a.target) case None => None case Some(t) => Some(a.(target := t))
  }

  function HostOf(url: Url, a: Agent): string {
    Hostname(url, a.target)
  }

  /** A later record of a host replaces the earlier one in its place. */
  function AgentRules(url: Url): Rules<Agent> {
    Rules((a: Agent) => a, (a: Agent) => HostOf(url, a), (a: Agent, b: Agent) => b)
  }

  function NormalizeAll(url: Url, agents: seq<Agent>): Option<seq<Agent>> {
    if agents == [] then Some([])
    else
      match (NormalizeAll(url, agents[..|agents| - 1]), NormalizeAgent(url, agents[|agents| - 1]))
      case (Some(ns), Some(n)) => Some(ns + [n])
      case _ => None
  }

  /** Reading and writing the registry both pass through this. */
  function Sanitize(url: Url, agents: seq<Agent>): Option<seq<Agent>> {
    match NormalizeAll(url, agents) case None => None case Some(ns) => Some(Merged(AgentRules(url), ns))
  }

  method SanitizeAgents(url: Url, agents: seq<Agent>) returns (r: Option<seq<Agent>>)
    ensures r == Sanitize(url, agents)
  {
    ghost var rules := AgentRules(url);
    AgentLaws(url);
    var kept: seq<Agent> := [];
    var indexByHost: map<string, nat> := map[];
    ghost var ns: seq<Agent> := [];
    hide Hostname, NormalizeTarget, Lawful;
    for i := 0 to |agents|
      invariant NormalizeAll(url, agents[..i]) == Some(ns)
      invariant kept == Merged(rules, ns) && Indexes(rules, indexByHost, kept)
    {
      assert agents[..i + 1][..i] == agents[..i];
      var n := NormalizeAgent(url, agents[i]);
      if n.None? {
        NormalizeStops(url, agents, i + 1);
        return None;
      }
      InsertStep(rules, kept, indexByHost, n.value);
      assert (ns + [n.value])[..|ns|] == ns;
      ns := ns + [n.value];
      var host := HostOf(url, n.value);
      if host in indexByHost {
        kept := kept[indexByHost[host] := n.value];
      } else {
        indexByHost := indexByHost[host := |kept|];
        kept := kept + [n.value];
      }
    }
    assert agents[..|agents|] == agents;
    return Some(kept);
  }

  lemma AgentLaws(url: Url)
    ensures Lawful(AgentRules(url))
  {
    hide Hostname;
  }

  lemma {:induction false} NormalizeStops(url: Url, agents: seq<Agent>, k: nat)
    requires k <= |agents| && NormalizeAll(url, agents[..k]).None?
    ensures NormalizeAll(url, agents).None?
    decreases |agents| - k
  {
    if k < |agents| {
      assert agents[..k + 1][..k] == agents[..k];
      NormalizeStops(url, agents, k + 1);
    } else {
      assert agents[..k] == agents;
    }
  }

  // ----- looking up -----

  function FindHost(url: Url, agents: seq<Agent>, host: string): (i: nat)
    ensures i <= |agents|
    ensures i < |agents| ==> HostOf(url, agents[i]) == host
    ensures forall j :: 0 <= j < i ==> HostOf(url, agents[j]) != host
  {
    if agents == [] || HostOf(url, agents[0]) == host then 0 else 1 + FindHost(url, agents[1..], host)
  }

  function FindTarget(agents: seq<Agent>, target: string): (i: nat)
    ensures i <= |agents|
    ensures i < |agents| ==> TrimSpace(agents[i].target) == target
    ensures forall j :: 0 <= j < i ==> TrimSpace(agents[j].target) != target
  {
    if agents == [] || TrimSpace(agents[0].target) == target then 0 else 1 + FindTarget(agents[1..], target)
  }

  function Lookup(url: Url, agents: seq<Agent>, host: string): Option<Agent> {
    var i := FindHost(url, agents, host);
    if i < |agents| then Some(agents[i]) else None
  }

  function TargetOf(found: Option<Agent>): string {
    if found.Some? then found.value.target else ""
  }

  /** The last record of a host, or -1. */
  function LastAt(url: Url, agents: seq<Agent>, host: string): (i: int)
    ensures -1 <= i < |agents|
    ensures i >= 0 ==> HostOf(url, agents[i]) == host
    ensures forall j :: i < j < |agents| ==> HostOf(url, agents[j]) != host
  {
    if agents == [] then -1
    else if HostOf(url, agents[|agents| - 1]) == host then |agents| - 1
    else LastAt(url, agents[..|agents| - 1], host)
  }

  ghost predicate DistinctHosts(url: Url, agents: seq<Agent>) {
    forall i, j :: 0 <= i < j < |agents| ==> HostOf(url, agents[i]) != HostOf(url, agents[j])
  }

  /** An address as users give them: not blank, no space inside. */
  predicate Spaceless(target: string) {
    TrimSpace(target) != "" && NoSpace(TrimSpace(target))
  }

  /** Normalising once more keeps the host name, and is final. */
  predicate Steady(url: Url, target: string) {
    && NoSpace(target) && target != "" && NormalizeTarget(url, target).Some?
    && var n := NormalizeTarget(url, target).value;
       NoSpace(n) && n != "" && Hostname(url, n) == Hostname(url, target) && NormalizeTarget(url, n) == Some(n)
  }

  predicate Settled(url: Url, target: string) {
    Steady(url, target) && NormalizeTarget(url, target) == Some(target)
  }

  /** Each host once, at steady addresses. */
  ghost predicate AgentsOk(url: Url, agents: seq<Agent>) {
    DistinctHosts(url, agents) && forall i :: 0 <= i < |agents| ==> Steady(url, agents[i].target)
  }

  /** Each host once, at settled addresses. */
  ghost predicate RegistryOk(url: Url, agents: seq<Agent>) {
    DistinctHosts(url, agents) && forall i :: 0 <= i < |agents| ==> Settled(url, agents[i].target)
  }

  /** What writing makes of a record. */
  function Rewritten(url: Url, a: Agent): Agent {
    match NormalizeAgent(url, a) case Some(n) => n case None => a
  }

  function Rewrite(url: Url, found: Option<Agent>): Option<Agent> {
    match found case Some(a) => Some(Rewritten(url, a)) case None => None
  }

  lemma InsertLookup(url: Url, acc: seq<Agent>, x: Agent, h: string)
    ensures Lookup(url, Insert(AgentRules(url), acc, x), h) ==
              if HostOf(url, x) == h then Some(x) else Lookup(url, acc, h)
  {
    hide HostOf;
    var r := AgentRules(url);
    var i, j, s := Find(r, acc, HostOf(url, x)), FindHost(url, acc, h), Insert(r, acc, x);
    var k := FindHost(url, s, h);
    assert i == FindHost(url, acc, HostOf(url, x)) by {
      assert forall n :: 0 <= n < |acc| ==> r.key(acc[n]) == HostOf(url, acc[n]);
    }
    assert i < |s| && s[i] == x && forall n :: 0 <= n < |acc| && n != i ==> s[n] == acc[n];
    if HostOf(url, x) == h {
      assert k == i;
    } else if j < |acc| {
      assert k == j;
    } else {
      assert k == |s|;
    }
  }

  /** After merging, a host's agent is its last record. */
  lemma {:induction false} MergedLookup(url: Url, ns: seq<Agent>, h: string)
    ensures Lookup(url, Merged(AgentRules(url), ns), h) ==
              var i := LastAt(url, ns, h); if i < 0 then None else Some(ns[i])
  {
    hide HostOf, Insert;
    if ns != [] {
      MergedLookup(url, ns[..|ns| - 1], h);
      InsertLookup(url, Merged(AgentRules(url), ns[..|ns| - 1]), ns[|ns| - 1], h);
    }
  }

  lemma {:induction false} MergedAgents(url: Url, ns: seq<Agent>)
    ensures DistinctHosts(url, Merged(AgentRules(url), ns))
    ensures forall a :: a in Merged(AgentRules(url), ns) ==> a in ns
  {
    var r, m := AgentRules(url), Merged(AgentRules(url), ns);
    AgentLaws(url);
    MergedIsGrouped(r, ns);
    KeysFacts(r, ns);
    hide HostOf;
    assert forall i :: 0 <= i < |m| ==> r.key(m[i]) == HostOf(url, m[i]);
    forall a | a in m ensures a in ns {
      var i :| 0 <= i < |m| && m[i] == a;
      assert Grouped(r, ns, m[i]);
      GroupMembers(r, ns, r.key(a));
      LastOfGroup(url, Group(r, ns, r.key(a)));
    }
  }

  lemma {:induction false} LastOfGroup(url: Url, g: seq<Agent>)
    requires g != []
    ensures Fold(AgentRules(url), g) == g[|g| - 1]
  {
  }

  // ----- sanitising -----

  /** Normalised addresses are steady, and steady ones settle. */
  lemma NormalSteady(url: Url, a: Agent)
    requires UrlLaws(url) && Spaceless(a.target)
    ensures NormalizeAgent(url, a).Some? && Steady(url, NormalizeAgent(url, a).value.target)
  {
    var t := TrimSpace(a.target);
    NoSpaceTrim(t);
    SettlesTwice(url, t);
    hide TrimSpace, NoSpace, Hostname, UrlLaws;
  }

  /** Only a blank address cannot be normalised. */
  lemma BlankFails(url: Url, a: Agent)
    ensures NormalizeAgent(url, a).Some? <==> TrimSpace(a.target) != ""
  {
    hide TrimSpace, PlainNormal, UrlHost;
  }

  lemma SteadySettles(url: Url, a: Agent)
    requires Steady(url, a.target)
    ensures var n := Rewritten(url, a);
            NormalizeAgent(url, a) == Some(n) && Settled(url, n.target) && HostOf(url, n) == HostOf(url, a)
    ensures Settled(url, a.target) ==> Rewritten(url, a) == a
  {
    hide NormalizeTarget, Hostname, NoSpace;
  }

  /** Normalising a record changes its address only. */
  lemma RewrittenKeeps(url: Url, a: Agent)
    ensures Rewritten(url, a) == a.(target := Rewritten(url, a).target)
    ensures TrimSpace(a.target) != "" ==> NormalizeTarget(url, a.target) == Some(Rewritten(url, a).target)
  {
    BlankFails(url, a);
    hide TrimSpace, NormalizeTarget;
  }

  /** Exactly when a list can be sanitised: no address is blank. */
  lemma {:induction false} SanitizeExactly(url: Url, agents: seq<Agent>)
    ensures Sanitize(url, agents).Some? <==> forall i :: 0 <= i < |agents| ==> TrimSpace(agents[i].target) != ""
  {
    hide TrimSpace, NormalizeAgent, NormalizeTarget;
    if agents != [] {
      var init := agents[..|agents| - 1];
      SanitizeExactly(url, init);
      BlankFails(url, agents[|agents| - 1]);
      assert forall i :: 0 <= i < |init| ==> init[i] == agents[i];
    }
  }

  /** The records as a write stores them, if all can be normalised. */
  ghost predicate NormalizedTo(url: Url, agents: seq<Agent>, ns: seq<Agent>) {
    && NormalizeAll(url, agents) == Some(ns) && |ns| == |agents|
    && forall i :: 0 <= i < |agents| ==> NormalizeAgent(url, agents[i]) == Some(ns[i])
  }

  lemma {:induction false} NormalizeEach(url: Url, agents: seq<Agent>) returns (ns: seq<Agent>)
    requires forall i :: 0 <= i < |agents| ==> NormalizeAgent(url, agents[i]).Some?
    ensures NormalizedTo(url, agents, ns)
  {
    hide NormalizeAgent;
    ns := [];
    if agents != [] {
      var init := agents[..|agents| - 1];
      assert forall i :: 0 <= i < |init| ==> init[i] == agents[i];
      ns := NormalizeEach(url, init);
      ns := ns + [NormalizeAgent(url, agents[|agents| - 1]).value];
    }
  }

  /** Any records that can be normalised: hosts become distinct, and each host
      finds its last record, whatever the addresses look like. */
  lemma SanitizeLookup(url: Url, agents: seq<Agent>) returns (ns: seq<Agent>)
    requires forall i :: 0 <= i < |agents| ==> NormalizeAgent(url, agents[i]).Some?
    ensures NormalizedTo(url, agents, ns) && Sanitize(url, agents).Some?
    ensures var r := Sanitize(url, agents).value;
            && DistinctHosts(url, r) && (forall a :: a in r ==> a in ns)
            && forall h :: Lookup(url, r, h) == var i := LastAt(url, ns, h); if i < 0 then None else Some(ns[i])
  {
    hide HostOf, NormalizeAgent, Lookup, LastAt;
    ns := NormalizeEach(url, agents);
    MergedAgents(url, ns);
    forall h
      ensures Lookup(url, Sanitize(url, agents).value, h) ==
                var i := LastAt(url, ns, h); if i < 0 then None else Some(ns[i])
    {
      MergedLookup(url, ns, h);
    }
  }

  lemma {:induction false} NormalizeAllFixed(url: Url, agents: seq<Agent>)
    requires forall i :: 0 <= i < |agents| ==> Settled(url, agents[i].target)
    ensures NormalizeAll(url, agents) == Some(agents)
  {
    hide Hostname, NoSpace;
    if agents != [] {
      NormalizeAllFixed(url, agents[..|agents| - 1]);
      assert agents == agents[..|agents| - 1] + [agents[|agents| - 1]];
    }
  }

  /** A registry in order is left alone. */
  lemma SanitizeFixed(url: Url, agents: seq<Agent>)
    requires RegistryOk(url, agents)
    ensures Sanitize(url, agents) == Some(agents)
  {
    hide HostOf, Settled;
    NormalizeAllFixed(url, agents);
    var r := AgentRules(url);
    assert forall i :: 0 <= i < |agents| ==> r.key(agents[i]) == HostOf(url, agents[i]);
    MergedFixed(r, agents);
  }

  /** Writing steady records: they settle, and each host finds its last one. */
  lemma WriteBack(url: Url, agents: seq<Agent>)
    requires forall i :: 0 <= i < |agents| ==> Steady(url, agents[i].target)
    ensures Sanitize(url, agents).Some? && RegistryOk(url, Sanitize(url, agents).value)
    ensures forall h :: Lookup(url, Sanitize(url, agents).value, h) ==
              var i := LastAt(url, agents, h); if i < 0 then None else Some(Rewritten(url, agents[i]))
  {
    hide HostOf, Steady, Settled, NormalizeAgent, Lookup, Sanitize, Rewritten, LastAt;
    forall i | 0 <= i < |agents|
      ensures NormalizeAgent(url, agents[i]) == Some(Rewritten(url, agents[i]))
          && Settled(url, Rewritten(url, agents[i]).target)
      ensures HostOf(url, Rewritten(url, agents[i])) == HostOf(url, agents[i])
    {
      SteadySettles(url, agents[i]);
    }
    var ns := SanitizeLookup(url, agents);
    var r := Sanitize(url, agents).value;
    forall i | 0 <= i < |r| ensures Settled(url, r[i].target) {
      assert r[i] in ns;
    }
    forall h
      ensures Lookup(url, r, h) ==
                var i := LastAt(url, agents, h); if i < 0 then None else Some(Rewritten(url, agents[i]))
    {
      SameLast(url, agents, ns, h);
    }
  }

  lemma SameLast(url: Url, xs: seq<Agent>, ys: seq<Agent>, h: string)
    requires |xs| == |ys| && forall i :: 0 <= i < |xs| ==> HostOf(url, xs[i]) == HostOf(url, ys[i])
    ensures LastAt(url, xs, h) == LastAt(url, ys, h)
  {
    hide HostOf;
    var i, j := LastAt(url, xs, h), LastAt(url, ys, h);
  }

  /** Reading any list of addresses without spaces: hosts become distinct, each
      finds its last record, normalised, at a steady address. Sanitising again
      only rewrites addresses, and from then on nothing changes. */
  lemma SanitizeTheorem(url: Url, agents: seq<Agent>) returns (ns: seq<Agent>)
    requires UrlLaws(url) && forall i :: 0 <= i < |agents| ==> Spaceless(agents[i].target)
    ensures NormalizedTo(url, agents, ns) && Sanitize(url, agents).Some?
    ensures var r := Sanitize(url, agents).value;
            && AgentsOk(url, r)
            && (forall h :: Lookup(url, r, h) == var i := LastAt(url, ns, h); if i < 0 then None else Some(ns[i]))
            && Sanitize(url, r).Some?
            && var s := Sanitize(url, r).value;
               && RegistryOk(url, s) && Sanitize(url, s) == Some(s)
               && forall h :: Lookup(url, s, h) == Rewrite(url, Lookup(url, r, h))
  {
    hide HostOf, Steady, Settled, NormalizeAgent, Lookup, Sanitize, Rewritten, UrlLaws, Spaceless, LastAt;
    forall i | 0 <= i < |agents|
      ensures NormalizeAgent(url, agents[i]).Some? && Steady(url, NormalizeAgent(url, agents[i]).value.target)
    {
      NormalSteady(url, agents[i]);
    }
    ns := SanitizeLookup(url, agents);
    var r := Sanitize(url, agents).value;
    forall i | 0 <= i < |r| ensures Steady(url, r[i].target) {
      assert r[i] in ns;
    }
    WriteBack(url, r);
    SanitizeFixed(url, Sanitize(url, r).value);
    forall h ensures Lookup(url, Sanitize(url, r).value, h) == Rewrite(url, Lookup(url, r, h)) {
      LookupUnique(url, r, h);
    }
  }

  // ----- operations on a sanitised registry -----

  function Create(url: Url, agents: seq<Agent>, a: Agent): Option<seq<Agent>> {
    match NormalizeAgent(url, a)
    case None => None
    case Some(n) =>
      if FindTarget(agents, n.target) < |agents| || FindHost(url, agents, HostOf(url, n)) < |agents| then None
      else Sanitize(url, agents + [n])
  }

  function Upsert(url: Url, agents: seq<Agent>, hostname: string, a: Agent): Option<seq<Agent>> {
    match NormalizeAgent(url, a)
    case None => None
    case Some(n) =>
      var i := FindHost(url, agents, LookupName(url, hostname));
      Sanitize(url, if i < |agents| then agents[i := n] else agents + [n])
  }

  function Update(url: Url, agents: seq<Agent>, target: string, a: Agent): Option<seq<Agent>> {
    match (NormalizeTarget(url, target), NormalizeAgent(url, a))
    case (Some(t), Some(n)) =>
      var i, j, k := FindTarget(agents, t), FindTarget(agents, n.target), FindHost(url, agents, HostOf(url, n));
      if i == |agents| || (j < |agents| && j != i) || (k < |agents| && k != i) then None
      else Sanitize(url, agents[i := n])
    case _ => None
  }

  function Delete(url: Url, agents: seq<Agent>, target: string): Option<seq<Agent>> {
    match NormalizeTarget(url, target)
    case None => None
    case Some(t) =>
      var i := Designated(url, agents, t);
      if i == |agents| then None else Sanitize(url, agents[..i] + agents[i + 1..])
  }

  /** The record with this address, else the one with its host. */
  function Designated(url: Url, agents: seq<Agent>, t: string): (i: nat)
    ensures i <= |agents|
    ensures i < |agents| <==> FindTarget(agents, t) < |agents| || FindHost(url, agents, Hostname(url, t)) < |agents|
    ensures i < |agents| ==> TrimSpace(agents[i].target) == t || HostOf(url, agents[i]) == Hostname(url, t)
  {
    hide HostOf, Hostname, TrimSpace;
    var j := FindTarget(agents, t);
    if j < |agents| then j else FindHost(url, agents, Hostname(url, t))
  }

  lemma LookupUnique(url: Url, agents: seq<Agent>, h: string)
    requires DistinctHosts(url, agents)
    ensures Lookup(url, agents, h) == var i := LastAt(url, agents, h); if i < 0 then None else Some(agents[i])
  {
    hide HostOf;
    var i, j := LastAt(url, agents, h), FindHost(url, agents, h);
    if i >= 0 {
      assert j <= i;
    }
  }

  /** Creating succeeds exactly when the host is new; it adds that host and
      changes no other lookup. */
  lemma CreateTheorem(url: Url, agents: seq<Agent>, a: Agent)
    requires UrlLaws(url) && AgentsOk(url, agents) && Spaceless(a.target)
    ensures var n := Rewritten(url, a);
            && (Create(url, agents, a).Some? <==> Lookup(url, agents, HostOf(url, n)).None?)
            && (Create(url, agents, a).Some? ==>
                  var r := Create(url, agents, a).value;
                  && RegistryOk(url, r)
                  && forall h :: Lookup(url, r, h) ==
                      Rewrite(url, if h == HostOf(url, n) then Some(n) else Lookup(url, agents, h)))
  {
    hide HostOf, Steady, Settled, Spaceless, NormalizeAgent, UrlLaws, Sanitize, FindTarget, FindHost;
    NormalSteady(url, a);
    var n := NormalizeAgent(url, a).value;
    TargetIsHost(url, agents, n);
    if Create(url, agents, a).Some? {
      var s := agents + [n];
      WriteBack(url, s);
      assert s[..|agents|] == agents;
      forall h
        ensures Lookup(url, Create(url, agents, a).value, h) ==
                  Rewrite(url, if h == HostOf(url, n) then Some(n) else Lookup(url, agents, h))
      {
        LookupUnique(url, agents, h);
      }
    } else {
      WriteBack(url, agents + [n]);
    }
  }

  lemma {:induction false} ReplaceLast(url: Url, agents: seq<Agent>, i: nat, n: Agent, h: string)
    requires DistinctHosts(url, agents) && i < |agents|
    ensures var before, after := LastAt(url, agents, h), LastAt(url, agents[i := n], h);
            && (h != HostOf(url, n) ==> after == if before == i then -1 else before)
            && (h == HostOf(url, n) ==> after == if before > i then before else i)
  {
    hide HostOf;
    var s := agents[i := n];
    var before, after := LastAt(url, agents, h), LastAt(url, s, h);
    assert s[i] == n && forall j :: 0 <= j < |agents| && j != i ==> s[j] == agents[j];
    assert before >= 0 ==> forall j :: 0 <= j < |agents| && j != before ==> HostOf(url, agents[j]) != h;
  }

  /** What a lookup finds after an upsert under some host's name. */
  function Upserted(url: Url, agents: seq<Agent>, name: string, n: Agent, h: string): Option<Agent> {
    var i, j := FindHost(url, agents, name), LastAt(url, agents, HostOf(url, n));
    if h == HostOf(url, n) then (if i < |agents| && j > i then Some(agents[j]) else Some(n))
    else if h == name then None
    else Lookup(url, agents, h)
  }

  /** Upserting always succeeds. The named host is gone unless it is the
      agent's own, the agent's own host finds the agent unless the named host
      is registered and a later record has the agent's host, and no other
      lookup changes. */
  lemma UpsertTheorem(url: Url, agents: seq<Agent>, hostname: string, a: Agent)
    requires UrlLaws(url) && AgentsOk(url, agents) && Spaceless(a.target)
    ensures Upsert(url, agents, hostname, a).Some?
    ensures var r, n, name := Upsert(url, agents, hostname, a).value, Rewritten(url, a), LookupName(url, hostname);
            RegistryOk(url, r) && forall h :: Lookup(url, r, h) == Rewrite(url, Upserted(url, agents, name, n, h))
  {
    hide HostOf, Steady, Settled, Spaceless, NormalizeAgent, UrlLaws, Sanitize, LookupName, Lookup, FindHost;
    NormalSteady(url, a);
    var n, name := NormalizeAgent(url, a).value, LookupName(url, hostname);
    var i := FindHost(url, agents, name);
    WriteBack(url, if i < |agents| then agents[i := n] else agents + [n]);
    forall h
      ensures Lookup(url, Upsert(url, agents, hostname, a).value, h) == Rewrite(url, Upserted(url, agents, name, n, h))
    {
      LookupUnique(url, agents, h);
      if i < |agents| {
        ReplaceLast(url, agents, i, n, h);
        assert h == name ==> LastAt(url, agents, h) == i;
        assert LastAt(url, agents, h) == i ==> h == name;
      } else {
        assert (agents + [n])[..|agents|] == agents;
        assert h == name ==> LastAt(url, agents, h) < 0;
      }
    }
  }

  /** For its own host, or under a host name that is not registered: that agent
      is found at its host and no other lookup changes. */
  lemma UpsertPlain(url: Url, agents: seq<Agent>, name: string, n: Agent, h: string)
    requires DistinctHosts(url, agents) && (name == HostOf(url, n) || Lookup(url, agents, name).None?)
    ensures Upserted(url, agents, name, n, h) == if h == HostOf(url, n) then Some(n) else Lookup(url, agents, h)
  {
    hide HostOf;
    LookupUnique(url, agents, HostOf(url, n));
  }

  /** A named host that is registered makes way for an agent of a new host. */
  lemma UpsertMoves(url: Url, agents: seq<Agent>, name: string, n: Agent, h: string)
    requires DistinctHosts(url, agents) && name != HostOf(url, n) && Lookup(url, agents, HostOf(url, n)).None?
    ensures Upserted(url, agents, name, n, h) ==
              if h == HostOf(url, n) then Some(n) else if h == name then None else Lookup(url, agents, h)
  {
    hide HostOf;
  }

  /** Upserting under one registered host's name an agent of another one: the
      new agent is lost exactly when its host stands later in the list. */
  lemma UpsertLost(url: Url, agents: seq<Agent>, name: string, n: Agent)
    requires DistinctHosts(url, agents) && name != HostOf(url, n)
    requires Lookup(url, agents, name).Some? && Lookup(url, agents, HostOf(url, n)).Some?
    ensures var i, j := FindHost(url, agents, name), FindHost(url, agents, HostOf(url, n));
            Upserted(url, agents, name, n, HostOf(url, n)) == if j > i then Some(agents[j]) else Some(n)
    ensures Upserted(url, agents, name, n, name) == None
  {
    hide HostOf;
    LookupUnique(url, agents, HostOf(url, n));
    var j, k := FindHost(url, agents, HostOf(url, n)), LastAt(url, agents, HostOf(url, n));
    assert j == k;
  }

  /** Updating succeeds exactly when the address is registered and the new host
      is its own or new; the old host is replaced, other lookups stay. */
  lemma UpdateTheorem(url: Url, agents: seq<Agent>, target: string, a: Agent)
    requires UrlLaws(url) && AgentsOk(url, agents) && Spaceless(a.target)
    ensures var t, n := NormalizeTarget(url, target), Rewritten(url, a);
            && (Update(url, agents, target, a).Some? <==> t.Some? && Replaces(url, agents, t.value, n))
            && (Update(url, agents, target, a).Some? ==>
                  var r, was := Update(url, agents, target, a).value, Hostname(url, t.value);
                  && RegistryOk(url, r)
                  && forall h :: Lookup(url, r, h) ==
                       Rewrite(url,
                               if h == HostOf(url, n) then Some(n)
                               else if h == was then None
                               else Lookup(url, agents, h)))
  {
    hide HostOf, Steady, Settled, Spaceless, NormalizeAgent, NormalizeTarget, UrlLaws, Sanitize, FindTarget, FindHost;
    NormalSteady(url, a);
    var n := NormalizeAgent(url, a).value;
    if NormalizeTarget(url, target).Some? {
      var t := NormalizeTarget(url, target).value;
      UpdateGuard(url, agents, t, n);
      var i := FindTarget(agents, t);
      if i < |agents| {
        WriteBack(url, agents[i := n]);
      }
      if Update(url, agents, target, a).Some? {
        forall h
          ensures Lookup(url, Update(url, agents, target, a).value, h) ==
                    Rewrite(url,
                            if h == HostOf(url, n) then Some(n)
                            else if h == Hostname(url, t) then None
                            else Lookup(url, agents, h))
        {
          UpdateLookup(url, agents, i, n, h);
        }
      }
    }
  }

  /** The address is registered, and the new agent's host is its host or new. */
  predicate Replaces(url: Url, agents: seq<Agent>, t: string, n: Agent) {
    var found := Lookup(url, agents, Hostname(url, t));
    && found.Some? && found.value.target == t
    && (HostOf(url, n) == Hostname(url, t) || Lookup(url, agents, HostOf(url, n)).None?)
  }

  lemma UpdateGuard(url: Url, agents: seq<Agent>, t: string, n: Agent)
    requires AgentsOk(url, agents) && Steady(url, n.target)
    ensures var i, j, k := FindTarget(agents, t), FindTarget(agents, n.target), FindHost(url, agents, HostOf(url, n));
            && (!(i == |agents| || (j < |agents| && j != i) || (k < |agents| && k != i)) <==>
                Replaces(url, agents, t, n))
            && (i < |agents| ==> HostOf(url, agents[i]) == Hostname(url, t))
  {
    TargetAtHost(url, agents, t);
    TargetIsHost(url, agents, n);
    hide Steady, Hostname, FindTarget, FindHost;
  }

  lemma UpdateLookup(url: Url, agents: seq<Agent>, i: nat, n: Agent, h: string)
    requires DistinctHosts(url, agents) && i < |agents|
    requires HostOf(url, n) == HostOf(url, agents[i]) || Lookup(url, agents, HostOf(url, n)).None?
    ensures var k := LastAt(url, agents[i := n], h);
            (if k < 0 then None else Some(agents[i := n][k])) ==
            if h == HostOf(url, n) then Some(n)
            else if h == HostOf(url, agents[i]) then None
            else Lookup(url, agents, h)
  {
    hide HostOf;
    ReplaceLast(url, agents, i, n, h);
    LookupUnique(url, agents, h);
    LookupUnique(url, agents, HostOf(url, n));
  }

  /** Deleting succeeds exactly when the host of the address is registered; it
      removes that host and changes no other lookup. */
  lemma DeleteTheorem(url: Url, agents: seq<Agent>, target: string)
    requires AgentsOk(url, agents)
    ensures var t := NormalizeTarget(url, target);
            && (Delete(url, agents, target).Some? <==> t.Some? && Lookup(url, agents, Hostname(url, t.value)).Some?)
            && (Delete(url, agents, target).Some? ==>
                  var r := Delete(url, agents, target).value;
                  && RegistryOk(url, r)
                  && forall h :: Lookup(url, r, h) ==
                      Rewrite(url, if h == Hostname(url, t.value) then None else Lookup(url, agents, h)))
  {
    hide HostOf, Steady, Settled, NormalizeTarget, Sanitize, Designated, FindHost;
    if NormalizeTarget(url, target).Some? {
      var t := NormalizeTarget(url, target).value;
      DesignatedHost(url, agents, t);
      var i := Designated(url, agents, t);
      if i < |agents| {
        var s := agents[..i] + agents[i + 1..];
        DropOne(url, agents, i, "");
        WriteBack(url, s);
        forall h
          ensures Lookup(url, Delete(url, agents, target).value, h) ==
                    Rewrite(url, if h == Hostname(url, t) then None else Lookup(url, agents, h))
        {
          DropOne(url, agents, i, h);
          LookupUnique(url, s, h);
        }
      }
    }
  }

  lemma DesignatedHost(url: Url, agents: seq<Agent>, t: string)
    requires AgentsOk(url, agents)
    ensures var i := Designated(url, agents, t);
            && (i < |agents| <==> Lookup(url, agents, Hostname(url, t)).Some?)
            && (i < |agents| ==> HostOf(url, agents[i]) == Hostname(url, t))
  {
    TargetAtHost(url, agents, t);
    hide Steady, Hostname, FindTarget, FindHost;
  }

  /** A record found by its address is the one found by its host. */
  lemma TargetAtHost(url: Url, agents: seq<Agent>, t: string)
    requires AgentsOk(url, agents)
    ensures var i, k := FindTarget(agents, t), FindHost(url, agents, Hostname(url, t));
            && (i < |agents| <==> k < |agents| && agents[k].target == t)
            && (i < |agents| ==> i == k)
  {
    var i, k := FindTarget(agents, t), FindHost(url, agents, Hostname(url, t));
    forall j | 0 <= j < |agents| ensures TrimSpace(agents[j].target) == agents[j].target {
      NoSpaceTrim(agents[j].target);
    }
    hide Hostname, TrimSpace, NormalizeTarget, NoSpace;
    if i < |agents| {
      assert agents[i].target == t && HostOf(url, agents[i]) == Hostname(url, t);
    }
  }

  lemma TargetIsHost(url: Url, agents: seq<Agent>, n: Agent)
    requires AgentsOk(url, agents)
    ensures var i, k := FindTarget(agents, n.target), FindHost(url, agents, HostOf(url, n));
            i < |agents| ==> i == k
  {
    TargetAtHost(url, agents, n.target);
  }

  lemma DropOne(url: Url, agents: seq<Agent>, i: nat, h: string)
    requires DistinctHosts(url, agents) && i < |agents|
    ensures var s := agents[..i] + agents[i + 1..];
            forall k :: 0 <= k < |s| ==> s[k] == if k < i then agents[k] else agents[k + 1]
    ensures var s := agents[..i] + agents[i + 1..];
            && DistinctHosts(url, s)
            && Lookup(url, s, h) == if h == HostOf(url, agents[i]) then None else Lookup(url, agents, h)
  {
    hide HostOf;
    var s := agents[..i] + agents[i + 1..];
    assert forall k :: 0 <= k < |s| ==> s[k] == if k < i then agents[k] else agents[k + 1];
    var at, now := FindHost(url, agents, h), FindHost(url, s, h);
    if at < |agents| && at != i {
      assert s[if at < i then at else at - 1] == agents[at];
    }
  }

  // ----- runs -----

  datatype Op =
    | OpCreate(agent: Agent)
    | OpUpsert(hostname: string, agent: Agent)
    | OpUpdate(target: string, agent: Agent)
    | OpDelete(target: string)

  /** What a command makes of a sanitised registry, none when it fails. */
  function Outcome(url: Url, agents: seq<Agent>, op: Op): Option<seq<Agent>> {
    match op
    case OpCreate(a) => Create(url, agents, a)
    case OpUpsert(h, a) => Upsert(url, agents, h, a)
    case OpUpdate(t, a) => Update(url, agents, t, a)
    case OpDelete(t) => Delete(url, agents, t)
  }

  /** The command succeeds on what is stored. */
  predicate Succeeds(url: Url, stored: seq<Agent>, op: Op) {
    Sanitize(url, stored).Some? && Outcome(url, Sanitize(url, stored).value, op).Some?
  }

  /** One command on the stored registry: a failed one leaves it as it is. */
  function Apply(url: Url, stored: seq<Agent>, op: Op): seq<Agent> {
    if Succeeds(url, stored, op) then Outcome(url, Sanitize(url, stored).value, op).value else stored
  }

  function Run(url: Url, stored: seq<Agent>, ops: seq<Op>): seq<Agent> {
    if ops == [] then stored else Apply(url, Run(url, stored, ops[..|ops| - 1]), ops[|ops| - 1])
  }

  predicate OpSpaceless(op: Op) {
    op.OpDelete? || NoSpace(TrimSpace(op.agent.target))
  }

  /** The command brings an agent whose address is blank; it fails. */
  predicate Blank(url: Url, op: Op) {
    !op.OpDelete? && NormalizeAgent(url, op.agent).None?
  }

  /** A stored registry that reads as one with each host once. */
  ghost predicate Readable(url: Url, stored: seq<Agent>) {
    Sanitize(url, stored).Some? && AgentsOk(url, Sanitize(url, stored).value)
  }

  lemma SuccessOk(url: Url, agents: seq<Agent>, op: Op)
    requires UrlLaws(url) && AgentsOk(url, agents) && OpSpaceless(op) && Outcome(url, agents, op).Some?
    ensures RegistryOk(url, Outcome(url, agents, op).value)
  {
    hide RegistryOk, AgentsOk, UrlLaws, NormalizeTarget, Lookup, TrimSpace, NoSpace;
    if !op.OpDelete? {
      BlankFails(url, op.agent);
    }
    hide Create, Upsert, Update, Delete;
    match op {
      case OpCreate(a) => CreateTheorem(url, agents, a);
      case OpUpsert(h, a) => UpsertTheorem(url, agents, h, a);
      case OpUpdate(t, a) => UpdateTheorem(url, agents, t, a);
      case OpDelete(t) => DeleteTheorem(url, agents, t);
    }
  }

  lemma OkIsReadable(url: Url, agents: seq<Agent>)
    requires RegistryOk(url, agents)
    ensures AgentsOk(url, agents) && Sanitize(url, agents) == Some(agents)
  {
    hide HostOf, NormalizeTarget, Hostname, Sanitize;
    SanitizeFixed(url, agents);
  }

  /** Over any run of commands with addresses free of spaces the registry stays
      readable with each host once; as soon as a command has written, what is
      stored is in order and reads back as itself. */
  lemma {:induction false} RunReadable(url: Url, stored: seq<Agent>, ops: seq<Op>)
    requires UrlLaws(url) && (forall i :: 0 <= i < |stored| ==> Spaceless(stored[i].target))
    requires forall i :: 0 <= i < |ops| ==> OpSpaceless(ops[i])
    ensures var after := Run(url, stored, ops);
            Readable(url, after) && (after == stored || (RegistryOk(url, after) && Sanitize(url, after) == Some(after)))
  {
    hide Sanitize, RegistryOk, AgentsOk, UrlLaws, Spaceless, Outcome;
    if ops == [] {
      var _ := SanitizeTheorem(url, stored);
    } else {
      var init, op := ops[..|ops| - 1], ops[|ops| - 1];
      RunReadable(url, stored, init);
      var before := Run(url, stored, init);
      if Succeeds(url, before, op) {
        SuccessOk(url, Sanitize(url, before).value, op);
        OkIsReadable(url, Apply(url, before, op));
      }
    }
  }

  // ----- the registry as a map -----

  /** A map with every address normalised once more, as writing does. */
  function Write(url: Url, m: map<string, Agent>): map<string, Agent> {
    map h | h in m :: Rewritten(url, m[h])
  }

  /** What each command means for a map from host name to agent. */
  function MapStep(url: Url, m: map<string, Agent>, op: Op): map<string, Agent> {
    if Blank(url, op) then m else MapChange(url, m, op)
  }

  function MapChange(url: Url, m: map<string, Agent>, op: Op): map<string, Agent> {
    match op
    case OpCreate(a) =>
      var n := Rewritten(url, a);
      if HostOf(url, n) in m then m else Write(url, m[HostOf(url, n) := n])
    case OpUpsert(hostname, a) =>
      var n, name := Rewritten(url, a), LookupName(url, hostname);
      Write(url, PutFor(url, m, name, n))
    case OpUpdate(target, a) =>
      (match NormalizeTarget(url, target)
       case None => m
       case Some(t) =>
         var n, was := Rewritten(url, a), Hostname(url, t);
         var now := HostOf(url, n);
         if was in m && m[was].target == t && (now == was || now !in m) then Write(url, (m - {was})[now := n]) else m)
    case OpDelete(target) =>
      (match NormalizeTarget(url, target)
       case None => m
       case Some(t) => if Hostname(url, t) in m then Write(url, m - {Hostname(url, t)}) else m)
  }

  function MapRun(url: Url, m: map<string, Agent>, ops: seq<Op>): map<string, Agent> {
    if ops == [] then m else MapStep(url, MapRun(url, m, ops[..|ops| - 1]), ops[|ops| - 1])
  }

  function Get(m: map<string, Agent>, h: string): Option<Agent> {
    if h in m then Some(m[h]) else None
  }

  /** The registry answers every lookup as the map does. */
  ghost predicate Refines(url: Url, agents: seq<Agent>, m: map<string, Agent>) {
    AgentsOk(url, agents) && forall h :: Lookup(url, agents, h) == Get(m, h)
  }

  /** Not an upsert under one registered host's name of an agent that runs on
      another registered host. */
  predicate OneHost(url: Url, m: map<string, Agent>, op: Op) {
    op.OpUpsert? && !Blank(url, op) ==>
      var name, own := LookupName(url, op.hostname), HostOf(url, Rewritten(url, op.agent));
      name == own || name !in m || own !in m
  }

  /** A step that gives the map's lookups, rewritten, refines the written map. */
  lemma WrittenRefines(url: Url, r: seq<Agent>, m: map<string, Agent>)
    requires RegistryOk(url, r) && forall h :: Lookup(url, r, h) == Rewrite(url, Get(m, h))
    ensures Refines(url, r, Write(url, m))
  {
    hide Lookup, Rewritten, NormalizeTarget, Hostname;
    forall h ensures Lookup(url, r, h) == Get(Write(url, m), h) {
      assert Lookup(url, r, h) == Rewrite(url, Get(m, h));
    }
  }

  lemma CreateRefines(url: Url, agents: seq<Agent>, m: map<string, Agent>, a: Agent)
    requires UrlLaws(url) && Refines(url, agents, m) && Spaceless(a.target)
    ensures var r := Create(url, agents, a);
            Refines(url, if r.Some? then r.value else agents, MapChange(url, m, OpCreate(a)))
  {
    hide Lookup, Create, UrlLaws, Spaceless, HostOf, AgentsOk, RegistryOk, Rewritten, Write;
    CreateTheorem(url, agents, a);
    var n := Rewritten(url, a);
    assert Lookup(url, agents, HostOf(url, n)) == Get(m, HostOf(url, n));
    if Create(url, agents, a).Some? {
      var next := m[HostOf(url, n) := n];
      forall h ensures Lookup(url, Create(url, agents, a).value, h) == Rewrite(url, Get(next, h)) {
        assert Lookup(url, agents, h) == Get(m, h);
      }
      WrittenRefines(url, Create(url, agents, a).value, next);
    }
  }

  /** The map in which the named host makes way for the agent's own. */
  function PutFor(url: Url, m: map<string, Agent>, name: string, n: Agent): map<string, Agent> {
    (if name == HostOf(url, n) then m else m - {name})[HostOf(url, n) := n]
  }

  lemma UpsertedGet(url: Url, agents: seq<Agent>, m: map<string, Agent>, name: string, n: Agent, h: string)
    requires Refines(url, agents, m) && (name == HostOf(url, n) || name !in m || HostOf(url, n) !in m)
    ensures Upserted(url, agents, name, n, h) == Get(PutFor(url, m, name, n), h)
  {
    hide Lookup, HostOf, Upserted, Steady;
    assert Lookup(url, agents, h) == Get(m, h) && Lookup(url, agents, name) == Get(m, name);
    assert Lookup(url, agents, HostOf(url, n)) == Get(m, HostOf(url, n));
    if name == HostOf(url, n) || name !in m {
      UpsertPlain(url, agents, name, n, h);
    } else {
      UpsertMoves(url, agents, name, n, h);
    }
  }

  lemma UpsertRefines(url: Url, agents: seq<Agent>, m: map<string, Agent>, hostname: string, a: Agent)
    requires UrlLaws(url) && Refines(url, agents, m) && Spaceless(a.target)
    requires NormalizeAgent(url, a).Some? && OneHost(url, m, OpUpsert(hostname, a))
    ensures var r := Upsert(url, agents, hostname, a);
            Refines(url, if r.Some? then r.value else agents, MapChange(url, m, OpUpsert(hostname, a)))
  {
    var n, name := Rewritten(url, a), LookupName(url, hostname);
    hide NormalizeAgent, LookupName, Lookup, Upsert, UrlLaws, Spaceless, HostOf, Rewritten, Write, AgentsOk,
        RegistryOk, Upserted;
    UpsertTheorem(url, agents, hostname, a);
    var r, next := Upsert(url, agents, hostname, a).value, PutFor(url, m, name, n);
    assert MapChange(url, m, OpUpsert(hostname, a)) == Write(url, next);
    hide PutFor, MapChange;
    forall h ensures Lookup(url, r, h) == Rewrite(url, Get(next, h)) {
      UpsertedGet(url, agents, m, name, n, h);
    }
    hide Refines;
    WrittenRefines(url, r, next);
  }

  lemma UpdateRefines(url: Url, agents: seq<Agent>, m: map<string, Agent>, target: string, a: Agent)
    requires UrlLaws(url) && Refines(url, agents, m) && Spaceless(a.target)
    ensures var r := Update(url, agents, target, a);
            Refines(url, if r.Some? then r.value else agents, MapChange(url, m, OpUpdate(target, a)))
  {
    hide Lookup, Update, UrlLaws, Spaceless, HostOf, Hostname, AgentsOk, RegistryOk, Rewritten, Write, NormalizeTarget;
    UpdateTheorem(url, agents, target, a);
    if NormalizeTarget(url, target).Some? {
      var t, n := NormalizeTarget(url, target).value, Rewritten(url, a);
      var was, now := Hostname(url, t), HostOf(url, n);
      assert Lookup(url, agents, was) == Get(m, was) && Lookup(url, agents, now) == Get(m, now);
      if Update(url, agents, target, a).Some? {
        var next := (m - {was})[now := n];
        forall h ensures Lookup(url, Update(url, agents, target, a).value, h) == Rewrite(url, Get(next, h)) {
          assert Lookup(url, agents, h) == Get(m, h);
        }
        WrittenRefines(url, Update(url, agents, target, a).value, next);
      }
    }
  }

  lemma DeleteRefines(url: Url, agents: seq<Agent>, m: map<string, Agent>, target: string)
    requires Refines(url, agents, m)
    ensures var r := Delete(url, agents, target);
            Refines(url, if r.Some? then r.value else agents, MapChange(url, m, OpDelete(target)))
  {
    hide Lookup, Delete, Hostname, AgentsOk, RegistryOk, Rewritten, Write, NormalizeTarget;
    DeleteTheorem(url, agents, target);
    if NormalizeTarget(url, target).Some? {
      var was := Hostname(url, NormalizeTarget(url, target).value);
      assert Lookup(url, agents, was) == Get(m, was);
      if Delete(url, agents, target).Some? {
        forall h ensures Lookup(url, Delete(url, agents, target).value, h) == Rewrite(url, Get(m - {was}, h)) {
          assert Lookup(url, agents, h) == Get(m, h);
        }
        WrittenRefines(url, Delete(url, agents, target).value, m - {was});
      }
    }
  }

  lemma StepRefines(url: Url, stored: seq<Agent>, agents: seq<Agent>, m: map<string, Agent>, op: Op)
    requires UrlLaws(url) && Sanitize(url, stored) == Some(agents) && Refines(url, agents, m)
    requires OpSpaceless(op) && OneHost(url, m, op)
    ensures var after := Sanitize(url, Apply(url, stored, op));
            after.Some? && Refines(url, after.value, MapStep(url, m, op))
  {
    assert AgentsOk(url, agents);
    hide Sanitize, RegistryOk, AgentsOk, Lookup, UrlLaws, MapChange, OneHost, Refines, TrimSpace, NoSpace;
    if Blank(url, op) {
      assert Outcome(url, agents, op).None?;
    } else {
      if !op.OpDelete? {
        BlankFails(url, op.agent);
      }
      hide Create, Upsert, Update, Delete;
      match op {
        case OpCreate(a) => CreateRefines(url, agents, m, a);
        case OpUpsert(h, a) => UpsertRefines(url, agents, m, h, a);
        case OpUpdate(t, a) => UpdateRefines(url, agents, m, t, a);
        case OpDelete(t) => DeleteRefines(url, agents, m, t);
      }
    }
    if Succeeds(url, stored, op) {
      SuccessOk(url, agents, op);
      OkIsReadable(url, Apply(url, stored, op));
    }
  }

  /** Over any run of commands with addresses free of spaces, no upsert joining
      two registered hosts, the stored list answers every lookup as the map
      built by the same puts and deletes. */
  lemma {:induction false} RunRefines(url: Url, stored: seq<Agent>, m: map<string, Agent>, ops: seq<Op>)
    requires UrlLaws(url) && Sanitize(url, stored).Some? && Refines(url, Sanitize(url, stored).value, m)
    requires forall i :: 0 <= i < |ops| ==> OpSpaceless(ops[i]) && OneHost(url, MapRun(url, m, ops[..i]), ops[i])
    ensures var after := Sanitize(url, Run(url, stored, ops));
            after.Some? && Refines(url, after.value, MapRun(url, m, ops))
  {
    hide Sanitize, Refines, UrlLaws, OpSpaceless, OneHost, MapStep, Apply;
    if ops != [] {
      var init := ops[..|ops| - 1];
      forall i | 0 <= i < |init| ensures OpSpaceless(init[i]) && OneHost(url, MapRun(url, m, init[..i]), init[i]) {
        assert init[i] == ops[i] && init[..i] == ops[..i];
      }
      RunRefines(url, stored, m, init);
      var before := Run(url, stored, init);
      StepRefines(url, before, Sanitize(url, before).value, MapRun(url, m, init), ops[|ops| - 1]);
    }
  }

  /** Every registry of addresses without spaces refines some map, so the runs
      above start anywhere; once settled, writing changes no record. */
  lemma ReadAsMap(url: Url, stored: seq<Agent>) returns (m: map<string, Agent>)
    requires UrlLaws(url) && forall i :: 0 <= i < |stored| ==> Spaceless(stored[i].target)
    ensures Sanitize(url, stored).Some? && Refines(url, Sanitize(url, stored).value, m)
    ensures Write(url, Write(url, m)) == Write(url, m)
  {
    hide Sanitize, UrlLaws, Spaceless, Lookup, LastAt;
    var _ := SanitizeTheorem(url, stored);
    var agents := Sanitize(url, stored).value;
    m := AsMap(url, agents);
    forall h ensures Lookup(url, agents, h) == Get(m, h) {
      AsMapLookup(url, agents, h);
    }
    forall h | h in m ensures Rewritten(url, Rewritten(url, m[h])) == Rewritten(url, m[h]) {
      AsMapLookup(url, agents, h);
      LookupIn(url, agents, h);
      SteadySettles(url, m[h]);
    }
  }

  function AsMap(url: Url, agents: seq<Agent>): map<string, Agent> {
    if agents == [] then map[] else AsMap(url, agents[1..])[HostOf(url, agents[0]) := agents[0]]
  }

  lemma {:induction false} AsMapLookup(url: Url, agents: seq<Agent>, h: string)
    ensures Lookup(url, agents, h) == Get(AsMap(url, agents), h)
  {
    hide HostOf;
    if agents != [] {
      AsMapLookup(url, agents[1..], h);
    }
  }

  lemma LookupIn(url: Url, agents: seq<Agent>, h: string)
    requires Lookup(url, agents, h).Some?
    ensures Lookup(url, agents, h).value in agents
  {
  }

  /** The stored registry and the commands that rewrite it. */
  class Registry {
    const url: Url
    var stored: seq<Agent>

    constructor (url: Url, stored: seq<Agent>)
      ensures this.url == url && this.stored == stored
    {
      this.url, this.stored := url, stored;
    }

    method WriteAgents(agents: seq<Agent>) returns (ok: bool)
      modifies this
      ensures ok <==> Sanitize(url, agents).Some?
      ensures stored == if ok then Sanitize(url, agents).value else old(stored)
    {
      var r := SanitizeAgents(url, agents);
      if r.None? {
        return false;
      }
      stored := r.value;
      return true;
    }

    method CreateAgent(a: Agent) returns (ok: bool)
      modifies this
      ensures ok <==> Succeeds(url, old(stored), OpCreate(a))
      ensures stored == Apply(url, old(stored), OpCreate(a))
    {
      hide Sanitize, HostOf, NormalizeAgent;
      var agents := SanitizeAgents(url, stored);
      var n := NormalizeAgent(url, a);
      if agents.None? || n.None? || FindTarget(agents.value, n.value.target) < |agents.value| {
        return false;
      }
      if FindHost(url, agents.value, HostOf(url, n.value)) < |agents.value| {
        return false;
      }
      ok := WriteAgents(agents.value + [n.value]);
    }

    method UpsertAgent(hostname: string, a: Agent) returns (ok: bool)
      modifies this
      ensures ok <==> Succeeds(url, old(stored), OpUpsert(hostname, a))
      ensures stored == Apply(url, old(stored), OpUpsert(hostname, a))
    {
      hide Sanitize, HostOf, NormalizeAgent, LookupName;
      var agents := SanitizeAgents(url, stored);
      var n := NormalizeAgent(url, a);
      if agents.None? || n.None? {
        return false;
      }
      var i := FindHost(url, agents.value, LookupName(url, hostname));
      ok := WriteAgents(if i < |agents.value| then agents.value[i := n.value] else agents.value + [n.value]);
    }

    method UpdateAgent(target: string, a: Agent) returns (ok: bool)
      modifies this
      ensures ok <==> Succeeds(url, old(stored), OpUpdate(target, a))
      ensures stored == Apply(url, old(stored), OpUpdate(target, a))
    {
      hide Sanitize, HostOf, NormalizeAgent, NormalizeTarget;
      var agents := SanitizeAgents(url, stored);
      var t, n := NormalizeTarget(url, target), NormalizeAgent(url, a);
      if agents.None? || t.None? || n.None? {
        return false;
      }
      var i := FindTarget(agents.value, t.value);
      if i == |agents.value| {
        return false;
      }
      var j, k := FindTarget(agents.value, n.value.target), FindHost(url, agents.value, HostOf(url, n.value));
      if (j < |agents.value| && j != i) || (k < |agents.value| && k != i) {
        return false;
      }
      ok := WriteAgents(agents.value[i := n.value]);
    }

    method DeleteAgent(target: string) returns (ok: bool)
      modifies this
      ensures ok <==> Succeeds(url, old(stored), OpDelete(target))
      ensures stored == Apply(url, old(stored), OpDelete(target))
    {
      hide Sanitize, HostOf, NormalizeTarget, Hostname;
      var agents := SanitizeAgents(url, stored);
      var t := NormalizeTarget(url, target);
      if agents.None? || t.None? {
        return false;
      }
      var i := FindTarget(agents.value, t.value);
      if i == |agents.value| {
        i := FindHost(url, agents.value, Hostname(url, t.value));
      }
      if i == |agents.value| {
        return false;
      }
      ok := WriteAgents(agents.value[..i] + agents.value[i + 1..]);
    }

    /** The address registered for a host, "" when there is none. */
    method AgentAddress(hostname: string) returns (address: string, ok: bool)
      ensures ok <==> Sanitize(url, stored).Some?
      ensures ok ==> address == TargetOf(Lookup(url, Sanitize(url, stored).value, LookupName(url, hostname)))
    {
      hide Sanitize, HostOf, LookupName;
      var agents := SanitizeAgents(url, stored);
      if agents.None? {
        return "", false;
      }
      var i := FindHost(url, agents.value, LookupName(url, hostname));
      return if i < |agents.value| then agents.value[i].target else "", true;
    }
  }
}
