/** The client's side of artifact staging: cutting an artifact into chunks,
    uploading it, and staging a whole deployment plan. */
module ArtifactClient {
  import opened Text
  import opened Identifiers
  import opened StagingPaths
  import opened ArtifactServer

  // ----- cutting into chunks -----

  /** The chunks of one upload: they carry exactly the data, each starts where
      the earlier ones end, the first alone names project and descriptor, and
      the last alone finishes. */
  ghost predicate Carries(sent: seq<Chunk>, project: string, id: string, d: Descriptor, data: Bytes) {
    && sent != [] && Content(sent) == data
    && sent[0].project == project && sent[0].descriptor == Some(d)
    && (forall i :: 0 <= i < |sent| ==> sent[i].uploadId == id && (sent[i].finish <==> i == |sent| - 1))
    && (forall i :: 1 <= i < |sent| ==> sent[i].project == "" && sent[i].descriptor.None?)
    && (forall i :: 0 <= i < |sent| ==> OffsetOk(sent, i))
  }

  lemma ChunksSnoc(cs: seq<Chunk>, c: Chunk)
    requires c.offset == |Content(cs)| && forall i :: 0 <= i < |cs| ==> OffsetOk(cs, i)
    ensures Content(cs + [c]) == Content(cs) + c.content
    ensures forall i :: 0 <= i < |cs| + 1 ==> OffsetOk(cs + [c], i)
  {
    var more := cs + [c];
    assert more[..|cs|] == cs;
    forall i: nat | i < |more| ensures OffsetOk(more, i) {
      assert i < |cs| ==> OffsetOk(cs, i) && more[..i] == cs[..i];
    }
  }

  /** The loop's state before it sends more: the data up to offset is sent. */
  ghost predicate Sending(sent: seq<Chunk>, project: string, id: string, d: Descriptor, data: Bytes, size: nat,
      offset: nat) {
    && offset <= |data| && Content(sent) == data[..offset]
    && (offset == 0 <==> sent == [])
    && (sent != [] ==> offset < |data| && sent[0].project == project && sent[0].descriptor == Some(d))
    && (forall i :: 0 <= i < |sent| ==> sent[i].uploadId == id && !sent[i].finish && |sent[i].content| <= size)
    && (forall i :: 1 <= i < |sent| ==> sent[i].project == "" && sent[i].descriptor.None?)
    && (forall i :: 0 <= i < |sent| ==> OffsetOk(sent, i))
  }

  function NextChunk(project: string, id: string, d: Descriptor, data: Bytes, size: nat, offset: nat): Chunk
    requires offset <= |data|
  {
    var end := if offset + size > |data| then |data| else offset + size;
    var described := if offset == 0 then Some(d) else None;
    Chunk(if offset == 0 then project else "", id, described, offset, data[offset..end], end == |data|)
  }

  lemma SendStep(sent: seq<Chunk>, project: string, id: string, d: Descriptor, data: Bytes, size: nat, offset: nat)
    requires size >= 1 && Sending(sent, project, id, d, data, size, offset)
    ensures var next := sent + [NextChunk(project, id, d, data, size, offset)];
            if offset + size >= |data|
            then Carries(next, project, id, d, data) && (forall i :: 0 <= i < |next| ==> |next[i].content| <= size)
            else Sending(next, project, id, d, data, size, offset + size)
  {
    var c := NextChunk(project, id, d, data, size, offset);
    var end := if offset + size > |data| then |data| else offset + size;
    ChunksSnoc(sent, c);
    assert data[..offset] + data[offset..end] == data[..end] && data[..|data|] == data;
    assert sent == [] ==> (sent + [c])[0] == c;
    assert sent != [] ==> (sent + [c])[0] == sent[0];
  }

  /** The upload loop, for any data and any chunk size. */
  method CutIntoChunks(project: string, id: string, d: Descriptor, data: Bytes, size: nat) returns (sent: seq<Chunk>)
    requires size >= 1
    ensures Carries(sent, project, id, d, data)
    ensures forall i :: 0 <= i < |sent| ==> |sent[i].content| <= size
  {
    sent := [];
    var offset, sentAny := 0, false;
    assert Sending(sent, project, id, d, data, size, offset);
    while offset < |data| || !sentAny
      invariant Sending(sent, project, id, d, data, size, offset)
      invariant sentAny ==> offset < |data|
      decreases |data| - offset, !sentAny
    {
      hide Sending, Carries;
      SendStep(sent, project, id, d, data, size, offset);
      var end := if offset + size > |data| then |data| else offset + size;
      var chunk := Chunk("", id, None, offset, data[offset..end], end == |data|);
      if offset == 0 {
        chunk := chunk.(project := project, descriptor := Some(d));
      }
      sent := sent + [chunk];
      sentAny := true;
      if end == |data| {
        return;
      }
      offset := end;
    }
  }

  /** The server accepts what the client cuts, for any data: the stream is read
      to its end and reassembles to the data, whatever the connection does after
      the last chunk. */
  lemma ChunksAccepted(
    staging: string, digest: Bytes -> string, sent: seq<Chunk>, project: string, id: string, d: Descriptor,
        data: Bytes, broken: bool)
    requires Carries(sent, project, id, d, data)
    ensures Taken(sent) == |sent| && Content(sent[..Taken(sent)]) == data
    ensures Accepted(staging, digest, Stream(sent, broken)) <==>
              FirstCheck(staging, sent[0]).Some? && SizeOk(d, data) && DigestOk(d, data, digest)
  {
    hide FirstCheck;
    assert Taken(sent) == |sent| by {
      TakenExactly(sent, |sent|);
    }
    assert sent[..|sent|] == sent;
  }

  /** A connection that breaks before the last chunk is never accepted. */
  lemma ChunksLost(
    staging: string, digest: Bytes -> string, sent: seq<Chunk>, project: string, id: string, d: Descriptor,
        data: Bytes, k: nat)
    requires Carries(sent, project, id, d, data) && k < |sent|
    ensures !Accepted(staging, digest, Stream(sent[..k], true))
  {
    hide FirstCheck;
    var part := sent[..k];
    assert Taken(part) == k by {
      TakenExactly(part, k);
    }
    assert part[..k] == part;
  }

  lemma {:induction false} ContentBound(cs: seq<Chunk>, size: nat)
    requires forall i :: 0 <= i < |cs| ==> |cs[i].content| <= size
    ensures |Content(cs)| <= |cs| * size
  {
    if cs != [] {
      ContentBound(cs[..|cs| - 1], size);
      assert |cs| * size == (|cs| - 1) * size + size;
    }
  }

  // ----- one upload -----

  datatype Candidate = Candidate(descriptor: Descriptor, data: Bytes)

  function PathOf(staging: string, project: string, identifier: string): string {
    ArtifactPath(staging, project, identifier)
  }

  /** The descriptor the client makes for its data, under a canonical identifier. */
  ghost predicate Described(c: Candidate, digest: Bytes -> string) {
    c.descriptor.size == |c.data| && c.descriptor.digest == digest(c.data) &&
    NormalizeIdentifier(c.descriptor.identifier) == Ok(c.descriptor.identifier)
  }

  lemma FirstCheckDescribed(staging: string, project: string, c: Candidate, digest: Bytes -> string, chunk: Chunk)
    requires Described(c, digest) && chunk.project == project && chunk.descriptor == Some(c.descriptor)
    ensures FirstCheck(staging, chunk) ==
              if ValidName(project)
              then Some(Staged(c.descriptor.identifier, PathOf(staging, project, c.descriptor.identifier)))
              else None
  {
    hide Resolve;
    assert NormalizeIdentifier("") == Err(Required);
    ResolveTotal(staging, project, c.descriptor.identifier);
    hide NormalizeIdentifier, ValidName;
    assert !ValidName("") by {
      EmptyNameInvalid();
    }
  }

  lemma EmptyNameInvalid()
    ensures !ValidName("")
  {
  }

  const NO_FAULTS := Faults(false, false, None, false, false, false, false)

  /** The chunks that reach the server, and whether the connection then breaks. */
  function Arriving(sent: seq<Chunk>, lost: Option<nat>): Stream {
    match lost
    case None => Stream(sent, false)
    case Some(k) => Stream(if k < |sent| then sent[..k] else sent, true)
  }

  /** One upload as the client sees it; the connection may break after any
      number of chunks. When it succeeds the destination holds exactly the data.
      When it fails the file system is unchanged, unless the reply was lost or
      the connection broke after the last chunk; without faults it succeeds. */
  method Upload(server: Server, project: string, c: Candidate, size: nat, id: string, temp: string, lost: Option<nat>,
      faults: Faults)
    returns (ok: bool)
    requires size >= 1
    modifies server`fs
    ensures lost.Some? ==> !ok
    ensures lost.Some? && (lost.value == 0 || lost.value * size < |c.data|) ==> server.fs == old(server.fs)
    ensures Described(c, server.digest) ==>
              var path := PathOf(server.staging, project, c.descriptor.identifier);
              && (ok ==> server.fs == old(server.fs)[path := c.data])
              && (!ok ==>
                    || server.fs == old(server.fs)
                    || ((faults.reply || lost.Some?) && server.fs == old(server.fs)[path := c.data]))
              && (ValidName(project) && lost.None? && faults == NO_FAULTS && temp !in old(server.fs) ==> ok)
  {
    hide FirstCheck, ValidName, NormalizeIdentifier, NoFault;
    var sent := CutIntoChunks(project, id, c.descriptor, c.data, size);
    ChunksAccepted(server.staging, server.digest, sent, project, id, c.descriptor, c.data, lost.Some?);
    if Described(c, server.digest) {
      FirstCheckDescribed(server.staging, project, c, server.digest, sent[0]);
    }
    if lost.Some? && lost.value < |sent| {
      ChunksLost(server.staging, server.digest, sent, project, id, c.descriptor, c.data, lost.value);
    }
    if lost.Some? && (lost.value == 0 || lost.value * size < |c.data|) {
      TooFew(sent, c.data, size, lost.value);
    }
    NoFaultsAtAll(|sent|);
    hide Accepted, Carries;
    var reply, _ := server.UploadArtifact(Arriving(sent, lost), temp, faults);
    if lost.Some? || reply.Failed? {
      return false;
    }
    return reply.descriptor.digest == c.descriptor.digest;
  }

  lemma NoFaultsAtAll(n: nat)
    ensures NoFault(NO_FAULTS, n)
  {
  }

  lemma TooFew(sent: seq<Chunk>, data: Bytes, size: nat, k: nat)
    requires sent != [] && Content(sent) == data && forall i :: 0 <= i < |sent| ==> |sent[i].content| <= size
    requires k == 0 || k * size < |data|
    ensures k < |sent|
  {
    ContentBound(sent, size);
    Times(|sent|, k, size);
  }

  lemma Times(a: nat, b: nat, c: nat)
    ensures a <= b ==> a * c <= b * c
  {
  }

  // ----- staging a plan -----

  ghost predicate Injective(digest: Bytes -> string) {
    (forall a, b :: digest(a) == digest(b) ==> a == b) && forall a :: digest(a) != ""
  }

  ghost predicate DistinctIds(cs: seq<Candidate>) {
    forall i, j :: 0 <= i < j < |cs| ==> cs[i].descriptor.identifier != cs[j].descriptor.identifier
  }

  /** A plan as the client builds it: described data, no identifier twice. */
  ghost predicate Planned(cs: seq<Candidate>, digest: Bytes -> string) {
    DistinctIds(cs) && forall i :: 0 <= i < |cs| ==> Described(cs[i], digest)
  }

  function Descriptors(cs: seq<Candidate>): (ds: seq<Descriptor>)
    ensures |ds| == |cs|
  {
    seq(|cs|, i requires 0 <= i < |cs| => cs[i].descriptor)
  }

  ghost predicate There(fs: FileSystem, staging: string, project: string, c: Candidate) {
    var path := PathOf(staging, project, c.descriptor.identifier);
    path in fs && fs[path] == c.data
  }

  lemma PreparedDescribed(fs: FileSystem, staging: string, digest: Bytes -> string, project: string, c: Candidate)
    requires Described(c, digest) && ValidName(project) && Injective(digest)
    ensures Prepared(fs, staging, digest, project, c.descriptor) == Some((c.descriptor, There(fs, staging, project, c)))
  {
    hide Resolve;
    ResolveTotal(staging, project, c.descriptor.identifier);
    hide NormalizeIdentifier, ValidName;
  }

  /** The candidates that are not there yet, in order. */
  ghost function Absent(fs: FileSystem, staging: string, project: string, cs: seq<Candidate>): seq<Candidate> {
    if cs == [] then []
    else
      var last := cs[|cs| - 1];
      Absent(fs, staging, project, cs[..|cs| - 1]) + (if There(fs, staging, project, last) then [] else [last])
  }

  /** Preparing asks for exactly the candidates whose bytes are not there. */
  lemma {:induction false} PrepareMissing(fs: FileSystem, staging: string, digest: Bytes -> string, project: string,
      cs: seq<Candidate>)
    requires ValidName(project) && Injective(digest) && forall i :: 0 <= i < |cs| ==> Described(cs[i], digest)
    ensures var p := Prepare(fs, staging, digest, project, Descriptors(cs));
            p.Some? && p.value.missing == Descriptors(Absent(fs, staging, project, cs))
  {
    hide ValidName, NormalizeIdentifier, There, Prepared, Described, Injective;
    if cs != [] {
      var init, c := cs[..|cs| - 1], cs[|cs| - 1];
      PrepareMissing(fs, staging, digest, project, init);
      PreparedDescribed(fs, staging, digest, project, c);
      assert Descriptors(cs)[..|cs| - 1] == Descriptors(init);
      var before := Absent(fs, staging, project, init);
      assert Descriptors(before + [c]) == Descriptors(before) + [c.descriptor];
      assert before + [] == before;
    }
  }

  lemma {:induction false} AbsentMembers(fs: FileSystem, staging: string, project: string, cs: seq<Candidate>)
    ensures forall c :: c in Absent(fs, staging, project, cs) <==> c in cs && !There(fs, staging, project, c)
  {
    hide There;
    if cs != [] {
      AbsentMembers(fs, staging, project, cs[..|cs| - 1]);
      assert cs == cs[..|cs| - 1] + [cs[|cs| - 1]];
    }
  }

  lemma {:induction false} AbsentDistinct(fs: FileSystem, staging: string, project: string, cs: seq<Candidate>)
    requires DistinctIds(cs)
    ensures DistinctIds(Absent(fs, staging, project, cs))
  {
    hide There;
    if cs != [] {
      var init := cs[..|cs| - 1];
      AbsentDistinct(fs, staging, project, init);
      AbsentMembers(fs, staging, project, init);
      var before := Absent(fs, staging, project, init);
      assert forall i :: 0 <= i < |before| ==> before[i] in before && before[i] in init;
    }
  }

  lemma {:induction false} AbsentNone(fs: FileSystem, staging: string, project: string, cs: seq<Candidate>)
    requires forall i :: 0 <= i < |cs| ==> There(fs, staging, project, cs[i])
    ensures Absent(fs, staging, project, cs) == []
  {
    if cs != [] {
      AbsentNone(fs, staging, project, cs[..|cs| - 1]);
    }
  }

  /** Staging one candidate leaves every other candidate as it was. */
  lemma UploadKeeps(fs: FileSystem, staging: string, project: string, c: Candidate, other: Candidate)
    ensures There(fs[PathOf(staging, project, c.descriptor.identifier) := c.data], staging, project, c)
    ensures other.descriptor.identifier != c.descriptor.identifier ==>
              There(fs[PathOf(staging, project, c.descriptor.identifier) := c.data], staging, project, other) ==
              There(fs, staging, project, other)
  {
    var stem := PathOf(staging, project, "");
    assert PathOf(staging, project, c.descriptor.identifier) == stem + c.descriptor.identifier;
    assert PathOf(staging, project, other.descriptor.identifier) == stem + other.descriptor.identifier;
    assert c.descriptor.identifier == (stem + c.descriptor.identifier)[|stem|..];
    assert other.descriptor.identifier == (stem + other.descriptor.identifier)[|stem|..];
  }

  /** The first k absent candidates are there, and so are the others. */
  ghost predicate StagedSoFar(fs: FileSystem, staging: string, project: string, plan: seq<Candidate>,
      absent: seq<Candidate>, k: nat) {
    && k <= |absent|
    && (forall j :: 0 <= j < k ==> There(fs, staging, project, absent[j]))
    && (forall i :: 0 <= i < |plan| && plan[i] !in absent ==> There(fs, staging, project, plan[i]))
  }

  lemma StageStep(fs: FileSystem, staging: string, project: string, plan: seq<Candidate>, absent: seq<Candidate>,
      k: nat)
    requires k < |absent| && StagedSoFar(fs, staging, project, plan, absent, k)
    requires DistinctIds(plan) && DistinctIds(absent) && forall c :: c in absent ==> c in plan
    ensures StagedSoFar(fs[PathOf(staging, project, absent[k].descriptor.identifier) := absent[k].data], staging,
        project, plan, absent, k + 1)
  {
    hide There, PathOf;
    var c := absent[k];
    assert c in absent;
    var m :| 0 <= m < |plan| && plan[m] == c;
    var after := fs[PathOf(staging, project, c.descriptor.identifier) := c.data];
    forall j | 0 <= j < k + 1 ensures There(after, staging, project, absent[j]) {
      UploadKeeps(fs, staging, project, c, absent[j]);
    }
    forall i | 0 <= i < |plan| && plan[i] !in absent ensures There(after, staging, project, plan[i]) {
      UploadKeeps(fs, staging, project, c, plan[i]);
    }
  }

  lemma StageDone(fs: FileSystem, staging: string, project: string, plan: seq<Candidate>, absent: seq<Candidate>)
    requires StagedSoFar(fs, staging, project, plan, absent, |absent|)
    ensures forall i :: 0 <= i < |plan| ==> There(fs, staging, project, plan[i])
  {
    forall i | 0 <= i < |plan| ensures There(fs, staging, project, plan[i]) {
      if plan[i] in absent {
        var j :| 0 <= j < |absent| && absent[j] == plan[i];
      }
    }
  }

  /** The temporary names clash with no file and no destination. */
  ghost predicate FreshNames(temps: nat -> string, fs: FileSystem, staging: string, project: string,
      plan: seq<Candidate>) {
    forall k :: temps(k) !in fs && !IsDestination(temps(k), staging, project, plan)
  }

  ghost predicate IsDestination(path: string, staging: string, project: string, plan: seq<Candidate>) {
    exists i :: 0 <= i < |plan| && path == PathOf(staging, project, plan[i].descriptor.identifier)
  }

  ghost predicate Calm(lost: nat -> Option<nat>, faults: nat -> Faults) {
    forall k :: faults(k) == NO_FAULTS && lost(k) == None
  }

  /** Stages a plan: asks what is missing and uploads that. On success every
      candidate is staged, so a second request finds nothing missing; when
      nothing is missing nothing is uploaded; when nothing fails it succeeds;
      and in every case only destinations of the plan are written. */
  method Stage(server: Server, project: string, plan: seq<Candidate>, size: nat, id: string, temps: nat -> string,
    lost: nat -> Option<nat>, faults: nat -> Faults) returns (ok: bool, uploads: nat)
    requires size >= 1 && Planned(plan, server.digest) && Injective(server.digest)
    modifies server`fs
    ensures ok ==> forall i :: 0 <= i < |plan| ==> There(server.fs, server.staging, project, plan[i])
    ensures ok ==> plan == [] || ValidName(project)
    ensures ValidName(project) && (forall i :: 0 <= i < |plan| ==>
        There(old(server.fs), server.staging, project, plan[i])) ==>
              ok && uploads == 0 && server.fs == old(server.fs)
    ensures ValidName(project) && Calm(lost, faults) ==>
              FreshNames(temps, old(server.fs), server.staging, project, plan) ==> ok
    ensures OnlyDestinations(old(server.fs), server.fs, server.staging, project, plan)
  {
    hide NormalizeIdentifier, ValidName, There, Absent, Injective, Prepare, FreshNames, PathOf;
    assert OnlyDestinations(server.fs, server.fs, server.staging, project, plan);
    hide OnlyDestinations;
    uploads := 0;
    if plan == [] {
      return true, 0;
    }
    var byId: map<string, Candidate> := map[];
    for i := 0 to |plan|
      invariant forall j :: 0 <= j < i ==>
          plan[j].descriptor.identifier in byId && byId[plan[j].descriptor.identifier] == plan[j]
    {
      byId := byId[plan[i].descriptor.identifier := plan[i]];
    }
    var response := server.PrepareArtifacts(project, Descriptors(plan));
    if response.None? {
      if ValidName(project) {
        PrepareMissing(server.fs, server.staging, server.digest, project, plan);
      }
      return false, 0;
    }
    PrepareNeedsName(server.fs, server.staging, server.digest, project, Descriptors(plan));
    PrepareMissing(server.fs, server.staging, server.digest, project, plan);
    ghost var absent := Absent(server.fs, server.staging, project, plan);
    AbsentMembers(server.fs, server.staging, project, plan);
    AbsentDistinct(server.fs, server.staging, project, plan);
    if forall i :: 0 <= i < |plan| ==> There(server.fs, server.staging, project, plan[i]) {
      AbsentNone(server.fs, server.staging, project, plan);
    }
    var missing := response.value.missing;
    assert StagedSoFar(server.fs, server.staging, project, plan, absent, 0);
    hide StagedSoFar;
    for k := 0 to |missing|
      invariant uploads == k
      invariant k == 0 ==> server.fs == old(server.fs)
      invariant StagedSoFar(server.fs, server.staging, project, plan, absent, k)
      invariant OnlyDestinations(old(server.fs), server.fs, server.staging, project, plan)
    {
      assert absent[k] in plan && missing[k] == absent[k].descriptor;
      if missing[k].identifier !in byId {
        return false, uploads;
      }
      var c := byId[missing[k].identifier];
      assert c == absent[k];
      ghost var before := server.fs;
      DestinationWritten(old(server.fs), before, server.staging, project, plan, c, temps, k);
      var sent := Upload(server, project, c, size, id, temps(k), lost(k), faults(k));
      if !sent {
        return false, uploads;
      }
      StageStep(before, server.staging, project, plan, absent, k);
      uploads := uploads + 1;
    }
    StageDone(server.fs, server.staging, project, plan, absent);
    return true, uploads;
  }

  /** Outside the plan's destinations the file systems agree. */
  ghost predicate OnlyDestinations(before: FileSystem, after: FileSystem, staging: string, project: string,
      plan: seq<Candidate>) {
    forall p :: !IsDestination(p, staging, project, plan) ==>
        (p in after <==> p in before) && (p in before ==> after[p] == before[p])
  }

  lemma DestinationWritten(
    start: FileSystem, fs: FileSystem, staging: string, project: string, plan: seq<Candidate>, c: Candidate,
        temps: nat -> string, k: nat)
    requires c in plan && OnlyDestinations(start, fs, staging, project, plan)
    ensures OnlyDestinations(start, fs[PathOf(staging, project, c.descriptor.identifier) := c.data], staging, project,
        plan)
    ensures FreshNames(temps, start, staging, project, plan) ==> temps(k) !in fs
  {
    hide PathOf;
    var i :| 0 <= i < |plan| && plan[i] == c;
    assert IsDestination(PathOf(staging, project, c.descriptor.identifier), staging, project, plan);
  }

  lemma {:induction false} PrepareNeedsName(fs: FileSystem, staging: string, digest: Bytes -> string, project: string,
      ds: seq<Descriptor>)
    ensures Prepare(fs, staging, digest, project, ds).Some? ==> ValidName(project)
  {
  }

  /** What is staged is what the agent serves. */
  lemma FetchStaged(fs: FileSystem, staging: string, digest: Bytes -> string, project: string, c: Candidate)
    requires ValidName(project) && Described(c, digest) && There(fs, staging, project, c)
    ensures Fetch(fs, staging, project, c.descriptor.identifier) == Some(c.data)
  {
    ResolveTotal(staging, project, c.descriptor.identifier);
  }

  /** End to end: after a successful staging the agent serves the exact bytes of
      every candidate, and staging the same plan again uploads nothing. */
  method StageThenServe(server: Server, project: string, plan: seq<Candidate>, size: nat, id: string,
    temps: nat -> string, lost: nat -> Option<nat>, faults: nat -> Faults)
    returns (ok: bool, served: seq<Option<Bytes>>, again: bool, uploads: nat)
    requires size >= 1 && plan != [] && Planned(plan, server.digest) && Injective(server.digest)
    modifies server`fs
    ensures !ok ==> served == [] && uploads == 0
    ensures ValidName(project) && Calm(lost, faults) ==>
              FreshNames(temps, old(server.fs), server.staging, project, plan) ==> ok
    ensures OnlyDestinations(old(server.fs), server.fs, server.staging, project, plan)
    ensures ok ==>
              && again && uploads == 0 && |served| == |plan|
              && forall i :: 0 <= i < |plan| ==>
                   && served[i] == Some(plan[i].data)
                   && Fetch(server.fs, server.staging, project, plan[i].descriptor.identifier) == Some(plan[i].data)
  {
    hide NormalizeIdentifier, ValidName, There, Injective, Fetch, Described, Calm, FreshNames, OnlyDestinations;
    served, again, uploads := [], false, 0;
    var count: nat;
    ok, count := Stage(server, project, plan, size, id, temps, lost, faults);
    if ok {
      ghost var staged := server.fs;
      for i := 0 to |plan|
        invariant |served| == i && server.fs == staged
        invariant forall j :: 0 <= j < i ==> served[j] == Some(plan[j].data)
        invariant forall j :: 0 <= j < i ==>
                    Fetch(server.fs, server.staging, project, plan[j].descriptor.identifier) == Some(plan[j].data)
      {
        var bytes := server.FetchFile(project, plan[i].descriptor.identifier);
        FetchStaged(server.fs, server.staging, server.digest, project, plan[i]);
        served := served + [bytes];
      }
      again, uploads := Stage(server, project, plan, size, id, temps, lost, faults);
    }
  }
}
