/** The agent's side of artifact staging: preparing, receiving one upload as a
    stream of chunks, and reading staged files back. */
module ArtifactServer {
  import opened Text
  import opened Identifiers
  import opened Paths
  import opened StagingPaths

  datatype Descriptor = Descriptor(identifier: string, kind: string, size: int, digest: string)

  datatype Chunk = Chunk(
    project: string, uploadId: string, descriptor: Option<Descriptor>, offset: int, content: Bytes, finish: bool)

  /** What the receive loop sees: chunks, then end of stream or a broken connection. */
  datatype Stream = Stream(chunks: seq<Chunk>, broken: bool)

  /** Operating system failures; a write may fail at one chunk. */
  datatype Faults = Faults(mkdir: bool, create: bool, write: Option<nat>, close: bool, read: bool, rename: bool,
      reply: bool)

  datatype Status = InvalidArgument | Internal | DataLoss

  datatype Reply = Received(descriptor: Descriptor) | Failed(status: Status)

  // ----- checks on chunks -----

  /** The normalised identifier and destination named by a first chunk, if valid. */
  function FirstCheck(staging: string, c: Chunk): Option<Staged> {
    if c.project == "" || !ValidName(c.project) || c.descriptor.None? || c.descriptor.value.identifier == ""
        || c.descriptor.value.size < 0
    then None
    else
      match NormalizeIdentifier(c.descriptor.value.identifier)
      case Err(_) => None
      case Ok(n) =>
        match Resolve(staging, c.project, n)
        case None => None
        case Some(artifact) => Some(Staged(n, artifact.path))
  }

  predicate NextCheck(first: Chunk, c: Chunk) {
    && (c.project == "" || c.project == first.project)
    && (c.uploadId == "" || first.uploadId == "" || c.uploadId == first.uploadId)
    && c.descriptor.None?
  }

  /** The checks one chunk passes through, given the first chunk and the bytes so far. */
  predicate ChunkOk(staging: string, first: Option<Chunk>, written: nat, c: Chunk) {
    (if first.None? then FirstCheck(staging, c).Some? else NextCheck(first.value, c)) && c.offset == written
  }

  predicate Unused(fs: FileSystem, temp: string) {
    temp !in fs
  }

  predicate CanCreate(f: Faults, fs: FileSystem, temp: string) {
    !f.mkdir && !f.create && Unused(fs, temp)
  }

  predicate SizeOk(d: Descriptor, data: Bytes) {
    d.size <= 0 || d.size == |data|
  }

  predicate DigestOk(d: Descriptor, data: Bytes, digest: Bytes -> string) {
    d.digest == "" || d.digest == digest(data)
  }

  // ----- which streams are accepted, and what they carry -----

  /** How many chunks are read: up to the first finish, or all. */
  function Taken(cs: seq<Chunk>): (n: nat)
    ensures n <= |cs|
    ensures forall i :: 0 <= i < n - 1 ==> !cs[i].finish
    ensures n < |cs| ==> n > 0 && cs[n - 1].finish
    ensures cs != [] ==> n > 0
  {
    if cs == [] then 0 else if cs[0].finish then 1 else 1 + Taken(cs[1..])
  }

  function Content(cs: seq<Chunk>): Bytes {
    if cs == [] then [] else Content(cs[..|cs| - 1]) + cs[|cs| - 1].content
  }

  /** The chunk starts where the earlier ones end. */
  predicate OffsetOk(cs: seq<Chunk>, i: nat)
    requires i < |cs|
  {
    cs[i].offset == |Content(cs[..i])|
  }

  /** Well-formed chunks whose offsets continue one another. */
  ghost predicate Consecutive(staging: string, cs: seq<Chunk>) {
    && cs != []
    && FirstCheck(staging, cs[0]).Some?
    && (forall i :: 1 <= i < |cs| ==> NextCheck(cs[0], cs[i]))
    && (forall i :: 0 <= i < |cs| ==> OffsetOk(cs, i))
  }

  /** The part of the stream that is read is complete and consecutive. */
  ghost predicate Streamed(staging: string, s: Stream) {
    var t := Taken(s.chunks);
    Consecutive(staging, s.chunks[..t]) && (s.chunks[t - 1].finish || !s.broken)
  }

  ghost predicate Accepted(staging: string, digest: Bytes -> string, s: Stream) {
    var cs := s.chunks[..Taken(s.chunks)];
    && Streamed(staging, s)
    && SizeOk(cs[0].descriptor.value, Content(cs))
    && DigestOk(cs[0].descriptor.value, Content(cs), digest)
  }

  ghost predicate NoReceiveFault(f: Faults, taken: nat) {
    !f.mkdir && !f.create && (f.write.None? || f.write.value >= taken)
  }

  ghost predicate NoFault(f: Faults, taken: nat) {
    NoReceiveFault(f, taken) && !f.close && !f.read && !f.rename
  }

  lemma TakenBeyond(cs: seq<Chunk>, n: nat)
    requires n < |cs| && forall i :: 0 <= i < n ==> !cs[i].finish
    ensures Taken(cs) > n
  {
  }

  lemma TakenExactly(cs: seq<Chunk>, n: nat)
    requires n <= |cs| && (n < |cs| ==> n > 0)
    requires forall i :: 0 <= i < n - 1 ==> !cs[i].finish
    requires n == |cs| || cs[n - 1].finish
    ensures Taken(cs) == n
  {
  }

  lemma ContentSnoc(cs: seq<Chunk>, n: nat)
    requires n < |cs|
    ensures Content(cs[..n + 1]) == Content(cs[..n]) + cs[n].content
  {
    assert cs[..n + 1][..n] == cs[..n];
  }

  /** Prefixes of prefixes: consecutive streams have consecutive beginnings. */
  lemma SlicePrefix(cs: seq<Chunk>, t: nat, i: nat)
    requires i <= t <= |cs|
    ensures cs[..t][..i] == cs[..i]
  {
  }

  // ----- why an upload fails -----

  /** The first n chunks were received without a problem. */
  ghost predicate Fine(staging: string, cs: seq<Chunk>, n: nat, faults: Faults, unused: bool) {
    && n <= |cs| && (faults.write.None? || faults.write.value >= n)
    && (n > 0 ==> Consecutive(staging, cs[..n]) && !faults.mkdir && !faults.create && unused)
  }

  /** The problem with a chunk, if any: its fields, then the temporary file that
      the first one creates, then its offset, then writing it. */
  function ChunkFailure(staging: string, cs: seq<Chunk>, n: nat, faults: Faults, unused: bool): Option<Status>
    requires n < |cs|
  {
    if n == 0 && FirstCheck(staging, cs[0]).None? then Some(InvalidArgument)
    else if n > 0 && !NextCheck(cs[0], cs[n]) then Some(InvalidArgument)
    else if n == 0 && (faults.mkdir || faults.create || !unused) then Some(Internal)
    else if !OffsetOk(cs, n) then Some(InvalidArgument)
    else if faults.write == Some(n) then Some(Internal)
    else None
  }

  /** Receiving fails with this status: at the first chunk with a problem, or
      because the connection broke, or because nothing came. */
  ghost predicate ReceiveFails(staging: string, s: Stream, faults: Faults, unused: bool, status: Status) {
    var cs, t := s.chunks, Taken(s.chunks);
    || (exists n: nat ::
          && n < t && Fine(staging, cs, n, faults, unused)
          && ChunkFailure(staging, cs, n, faults, unused) == Some(status))
    || (Fine(staging, cs, t, faults, unused) && (t == 0 || !cs[t - 1].finish)
        && if s.broken then status == Internal else t == 0 && status == InvalidArgument)
  }

  /** The problem after everything was received: closing, size, reading back,
      digest, renaming. */
  function FinishFailure(d: Descriptor, data: Bytes, digest: Bytes -> string, faults: Faults): Option<Status> {
    if faults.close then Some(Internal)
    else if d.size > 0 && d.size != |data| then Some(DataLoss)
    else if faults.read then Some(Internal)
    else if d.digest != "" && d.digest != digest(data) then Some(DataLoss)
    else if faults.rename then Some(Internal)
    else None
  }

  /** An upload that changed nothing failed with this status. */
  ghost predicate UploadFails(staging: string, digest: Bytes -> string, s: Stream, faults: Faults, unused: bool,
      status: Status) {
    var cs := s.chunks[..Taken(s.chunks)];
    if Streamed(staging, s) && NoReceiveFault(faults, Taken(s.chunks)) && unused
    then FinishFailure(cs[0].descriptor.value, Content(cs), digest, faults) == Some(status)
    else ReceiveFails(staging, s, faults, unused, status)
  }

  // ----- what an accepted stream looks like, field by field -----

  /** The identifier is accepted, and so is its normal form, which is what the
      path is made from. */
  predicate Storable(identifier: string) {
    NormalizeIdentifier(identifier).Ok? && NormalizeIdentifier(NormalizeIdentifier(identifier).value).Ok?
  }

  /** The chunks of one upload: the first names a valid project and a descriptor
      with a storable identifier and no negative size; the others name no other
      project or upload and no descriptor; each starts where the earlier end. */
  ghost predicate OneUpload(cs: seq<Chunk>) {
    && cs != [] && ValidName(cs[0].project) && cs[0].descriptor.Some? && cs[0].descriptor.value.size >= 0
    && Storable(cs[0].descriptor.value.identifier)
    && (forall i :: 1 <= i < |cs| ==>
          && cs[i].descriptor == None && cs[i].project in {"", cs[0].project}
          && (cs[i].uploadId != "" && cs[0].uploadId != "" ==> cs[i].uploadId == cs[0].uploadId))
    && forall i :: 0 <= i < |cs| ==> cs[i].offset == |Content(cs[..i])|
  }

  /** Where an upload goes. */
  function Target(staging: string, project: string, identifier: string): string
    requires Storable(identifier)
  {
    JoinPaths([staging, project]) + "/" + NormalizeIdentifier(NormalizeIdentifier(identifier).value).value
  }

  lemma FirstExactly(staging: string, c: Chunk)
    ensures FirstCheck(staging, c) ==
              if ValidName(c.project) && c.descriptor.Some? && c.descriptor.value.size >= 0
                 && Storable(c.descriptor.value.identifier)
              then
                var id := c.descriptor.value.identifier;
                Some(Staged(NormalizeIdentifier(id).value, Target(staging, c.project, id)))
              else None
  {
    NothingValid();
    hide NormalizeIdentifier, ValidName, Resolve;
    if c.descriptor.Some? && NormalizeIdentifier(c.descriptor.value.identifier).Ok? {
      ResolveTotal(staging, c.project, NormalizeIdentifier(c.descriptor.value.identifier).value);
    }
  }

  lemma NothingValid()
    ensures NormalizeIdentifier("").Err? && !ValidName("")
  {
    assert TrimSpace("") == "";
  }

  /** A stream is consecutive exactly when it is one upload. */
  lemma ConsecutiveExactly(staging: string, cs: seq<Chunk>)
    ensures Consecutive(staging, cs) <==> OneUpload(cs)
  {
    hide FirstCheck, ValidName, Storable, Content;
    if cs != [] {
      FirstExactly(staging, cs[0]);
      if OneUpload(cs) {
        forall i: nat | i < |cs| ensures OffsetOk(cs, i) {
        }
      }
      if Consecutive(staging, cs) {
        forall i | 0 <= i < |cs| ensures cs[i].offset == |Content(cs[..i])| {
          assert OffsetOk(cs, i);
        }
      }
    }
  }

  /** Exactly which streams are accepted. */
  lemma AcceptedExactly(staging: string, digest: Bytes -> string, s: Stream)
    ensures var cs := s.chunks[..Taken(s.chunks)];
            Accepted(staging, digest, s) <==>
              && OneUpload(cs) && (cs[|cs| - 1].finish || !s.broken)
              && var d, data := cs[0].descriptor.value, Content(cs);
                 (d.size == 0 || d.size == |data|) && (d.digest == "" || d.digest == digest(data))
  {
    ConsecutiveExactly(staging, s.chunks[..Taken(s.chunks)]);
    hide Consecutive, Content, ValidName, Storable;
  }

  // ----- reading -----

  predicate Matches(fs: FileSystem, path: string, d: Descriptor, digest: Bytes -> string) {
    path in fs && SizeOk(d, fs[path]) && DigestOk(d, fs[path], digest)
  }

  function Fetch(fs: FileSystem, staging: string, project: string, identifier: string): Option<Bytes> {
    match Resolve(staging, project, identifier)
    case None => None
    case Some(artifact) => if artifact.path in fs then Some(fs[artifact.path]) else None
  }

  /** One descriptor of a prepare request: its normal form and whether it is there. */
  function Prepared(fs: FileSystem, staging: string, digest: Bytes -> string, project: string,
      d: Descriptor): Option<(Descriptor, bool)> {
    match NormalizeIdentifier(d.identifier)
    case Err(_) => None
    case Ok(n) =>
      match Resolve(staging, project, n)
      case None => None
      case Some(artifact) => Some((d.(identifier := n), Matches(fs, artifact.path, d.(identifier := n), digest)))
  }

  datatype Preparation = Preparation(found: seq<Descriptor>, missing: seq<Descriptor>)

  function Prepare(fs: FileSystem, staging: string, digest: Bytes -> string, project: string,
      ds: seq<Descriptor>): Option<Preparation>
  {
    if !ValidName(project) then None
    else if ds == [] then Some(Preparation([], []))
    else
      match (Prepare(fs, staging, digest, project, ds[..|ds| - 1]),
          Prepared(fs, staging, digest, project, ds[|ds| - 1]))
      case (Some(p), Some((d, true))) => Some(p.(found := p.found + [d]))
      case (Some(p), Some((d, false))) => Some(p.(missing := p.missing + [d]))
      case _ => None
  }

  /** One descriptor of a prepare request, exactly: it comes back under its
      normal identifier, as found iff its place holds bytes of the declared size
      and digest. */
  lemma PreparedExactly(fs: FileSystem, staging: string, digest: Bytes -> string, project: string, d: Descriptor)
    ensures Prepared(fs, staging, digest, project, d).Some? <==> ValidName(project) && Storable(d.identifier)
    ensures Prepared(fs, staging, digest, project, d).Some? ==>
              var path := Target(staging, project, d.identifier);
              var here := && path in fs && (d.size <= 0 || d.size == |fs[path]|)
                          && (d.digest == "" || d.digest == digest(fs[path]));
              Prepared(fs, staging, digest, project, d).value ==
              (d.(identifier := NormalizeIdentifier(d.identifier).value), here)
  {
    hide NormalizeIdentifier, ValidName, Resolve;
    if NormalizeIdentifier(d.identifier).Ok? {
      ResolveTotal(staging, project, NormalizeIdentifier(d.identifier).value);
    }
  }

  /** A prepare request goes descriptor by descriptor, in order, and fails as a
      whole when one of them does. */
  lemma {:induction false} PrepareConcat(
    fs: FileSystem, staging: string, digest: Bytes -> string, project: string, ds: seq<Descriptor>, es: seq<Descriptor>)
    ensures var p, q, r := Prepare(fs, staging, digest, project, ds), Prepare(fs, staging, digest, project, es),
                           Prepare(fs, staging, digest, project, ds + es);
            && (r.Some? <==> p.Some? && q.Some?)
            && (r.Some? ==> r.value == Preparation(p.value.found + q.value.found, p.value.missing + q.value.missing))
  {
    hide Prepared, ValidName;
    if es == [] {
      assert ds + es == ds;
    } else {
      var init := es[..|es| - 1];
      assert (ds + es)[..|ds + es| - 1] == ds + init;
      PrepareConcat(fs, staging, digest, project, ds, init);
    }
  }

  lemma PrepareOne(fs: FileSystem, staging: string, digest: Bytes -> string, project: string, d: Descriptor)
    ensures var p, one := Prepare(fs, staging, digest, project, [d]), Prepared(fs, staging, digest, project, d);
            && (p.Some? <==> one.Some?)
            && (p.Some? ==> p.value == if one.value.1 then Preparation([one.value.0], [])
                else Preparation([], [one.value.0]))
  {
    PreparedExactly(fs, staging, digest, project, d);
    hide Prepared, ValidName;
    assert [d][..0] == [];
  }

  /** What the agent serves: exactly the bytes at the place of the identifier. */
  lemma FetchExactly(fs: FileSystem, staging: string, project: string, identifier: string, data: Bytes)
    ensures Fetch(fs, staging, project, identifier) == Some(data) <==>
              && ValidName(project) && NormalizeIdentifier(identifier).Ok?
              && var path := JoinPaths([staging, project]) + "/" + NormalizeIdentifier(identifier).value;
                 path in fs && fs[path] == data
  {
    ResolveTotal(staging, project, identifier);
    hide Resolve, NormalizeIdentifier, ValidName;
  }

  class Server {
    const staging: string
    const digest: Bytes -> string
    var fs: FileSystem

    constructor (staging: string, digest: Bytes -> string, fs: FileSystem)
      ensures this.staging == staging && this.digest == digest && this.fs == fs
    {
      this.staging, this.digest, this.fs := staging, digest, fs;
    }

    method PrepareArtifacts(project: string, ds: seq<Descriptor>) returns (r: Option<Preparation>)
      ensures r == Prepare(fs, staging, digest, project, ds)
    {
      if !ValidName(project) {
        return None;
      }
      var found: seq<Descriptor>, missing: seq<Descriptor> := [], [];
      for n := 0 to |ds|
        invariant Prepare(fs, staging, digest, project, ds[..n]) == Some(Preparation(found, missing))
      {
        assert ds[..n + 1][..n] == ds[..n];
        var prepared := Prepared(fs, staging, digest, project, ds[n]);
        if prepared.None? {
          PrepareFails(fs, staging, digest, project, ds, n + 1);
          return None;
        }
        if prepared.value.1 {
          found := found + [prepared.value.0];
        } else {
          missing := missing + [prepared.value.0];
        }
      }
      assert ds[..|ds|] == ds;
      return Some(Preparation(found, missing));
    }

    method FetchFile(project: string, identifier: string) returns (r: Option<Bytes>)
      ensures r == Fetch(fs, staging, project, identifier)
    {
      var artifact := Resolve(staging, project, identifier);
      if artifact.None? || artifact.value.path !in fs {
        return None;
      }
      return Some(fs[artifact.value.path]);
    }

    /** One chunk: checked, then appended to the temporary file, which the
        first chunk creates and any failure removes. */
    method ReceiveChunk(chunk: Chunk, n: nat, first: Option<Chunk>, written: nat, temp: string, faults: Faults)
      returns (failure: Option<Status>)
      requires first.Some? ==> temp in fs
      modifies this`fs
      ensures failure.None? <==>
                && ChunkOk(staging, first, written, chunk) && faults.write != Some(n)
                && (first.None? ==> CanCreate(faults, old(fs), temp))
      ensures failure.Some? ==>
                failure.value == FailureOf(staging, first, written, chunk, faults, Unused(old(fs), temp))
      ensures failure.Some? ==> fs == if first.Some? then old(fs) - {temp} else old(fs)
      ensures failure.None? ==> fs == old(fs)[temp := (if first.Some? then old(fs)[temp] else []) + chunk.content]
    {
      hide FirstCheck, NextCheck;
      if first.None? {
        if FirstCheck(staging, chunk).None? {
          return Some(InvalidArgument);
        }
        if faults.mkdir || faults.create || temp in fs {
          return Some(Internal);
        }
        fs := fs[temp := []];
      } else if !NextCheck(first.value, chunk) {
        fs := fs - {temp};
        return Some(InvalidArgument);
      }
      if chunk.offset != written {
        fs := fs - {temp};
        return Some(InvalidArgument);
      }
      if faults.write == Some(n) {
        fs := fs - {temp};
        return Some(Internal);
      }
      fs := fs[temp := fs[temp] + chunk.content];
      return None;
    }

    /** The receive loop: the temporary file holds the contents so far. */
    method Receive(stream: Stream, temp: string, faults: Faults)
      returns (failure: Option<Status>, first: Option<Chunk>, written: nat)
      modifies this`fs
      ensures ReceiveOutcome(staging, stream, faults, temp, old(fs), fs, failure, first, written)
    {
      hide Receiving, ReceiveOutcome, ChunkOk, FirstCheck, NextCheck, CanCreate, Taken, Content;
      var cs := stream.chunks;
      var n, finished := 0, false;
      first, written, failure := None, 0, None;
      ghost var before := fs;
      NothingReceived(staging, cs, before, temp, faults);
      while n < |cs| && !finished
        invariant n <= |cs|
        invariant Receiving(staging, cs, n, finished, first, written, fs, before, temp, faults)
        decreases |cs| - n
      {
        ReceivingStep(staging, stream, n, first, written, fs, before, temp, faults);
        failure := ReceiveChunk(cs[n], n, first, written, temp, faults);
        if failure.Some? {
          return failure, None, 0;
        }
        first := if first.None? then Some(cs[n]) else first;
        written := written + |cs[n].content|;
        finished := cs[n].finish;
        n := n + 1;
      }
      ReceivingDone(staging, stream, n, finished, first, written, fs, before, temp, faults);
      if !finished && stream.broken {
        if first.Some? {
          fs := fs - {temp};
        }
        return Some(Internal), None, 0;
      }
      failure := if first.None? then Some(InvalidArgument) else None;
    }

    /** One upload. The destination is replaced exactly when the stream is
        accepted and nothing fails before the rename is done; its new bytes are
        the contents up to the first finish or the end of the stream. In every
        other case the file system is as before, temporary file included. A
        lost reply comes after the rename. */
    method UploadArtifact(stream: Stream, temp: string, faults: Faults) returns (r: Reply, committed: bool)
      modifies this`fs
      ensures committed <==>
                Accepted(staging, digest, stream) && NoFault(faults, Taken(stream.chunks)) && temp !in old(fs)
      ensures !committed ==>
                && fs == old(fs) && r.Failed?
                && UploadFails(staging, digest, stream, faults, Unused(old(fs), temp), r.status)
      ensures committed ==>
                var cs := stream.chunks[..Taken(stream.chunks)];
                var to, data := FirstCheck(staging, cs[0]).value, Content(cs);
                && fs == old(fs)[to.path := data]
                && (faults.reply ==> r == Failed(Internal))
                && (!faults.reply ==>
                      r == Received(Descriptor(to.identifier, cs[0].descriptor.value.kind, |data|, digest(data))))
    {
      hide Resolve, NormalizeIdentifier, ValidName;
      var failure, first, written := Receive(stream, temp, faults);
      if failure.Some? {
        return Failed(failure.value), false;
      }
      var d := first.value.descriptor.value;
      if faults.close {
        fs := fs - {temp};
        return Failed(Internal), false;
      }
      if d.size > 0 && d.size != written {
        fs := fs - {temp};
        return Failed(DataLoss), false;
      }
      if faults.read {
        fs := fs - {temp};
        return Failed(Internal), false;
      }
      var computed := digest(fs[temp]);
      if d.digest != "" && d.digest != computed {
        fs := fs - {temp};
        return Failed(DataLoss), false;
      }
      if faults.rename {
        fs := fs - {temp};
        return Failed(Internal), false;
      }
      var to := FirstCheck(staging, first.value);
      fs := (fs - {temp})[to.value.path := fs[temp]];
      if faults.reply {
        return Failed(Internal), true;
      }
      return Received(Descriptor(to.value.identifier, d.kind, written, computed)), true;
    }
  }

  /** The status of a chunk that does not pass. */
  function FailureOf(staging: string, first: Option<Chunk>, written: nat, c: Chunk, faults: Faults,
      unused: bool): Status {
    if first.None? && FirstCheck(staging, c).None? then InvalidArgument
    else if first.Some? && !NextCheck(first.value, c) then InvalidArgument
    else if first.None? && (faults.mkdir || faults.create || !unused) then Internal
    else if c.offset != written then InvalidArgument
    else Internal
  }

  /** What the receive loop leaves: all of an acceptable stream in the temporary
      file, or a failure and no file. */
  ghost predicate ReceiveOutcome(
    staging: string, s: Stream, faults: Faults, temp: string, before: FileSystem,
    fs: FileSystem, failure: Option<Status>, first: Option<Chunk>, written: nat)
  {
    var cs := s.chunks[..Taken(s.chunks)];
    && (failure.None? <==> Streamed(staging, s) && NoReceiveFault(faults, Taken(s.chunks)) && temp !in before)
    && (failure.Some? ==> fs == before && ReceiveFails(staging, s, faults, Unused(before, temp), failure.value))
    && (failure.None? ==> first == Some(cs[0]) && written == |Content(cs)| && fs == before[temp := Content(cs)])
  }

  /** The receive loop's state after n chunks. */
  ghost predicate Receiving(
    staging: string, cs: seq<Chunk>, n: nat, finished: bool, first: Option<Chunk>, written: nat,
    fs: FileSystem, before: FileSystem, temp: string, faults: Faults)
  {
    && n <= |cs|
    && (finished ==> n > 0 && cs[n - 1].finish)
    && (forall i :: 0 <= i < (if finished then n - 1 else n) ==> !cs[i].finish)
    && first == (if n == 0 then None else Some(cs[0]))
    && (n > 0 ==> Consecutive(staging, cs[..n]) && CanCreate(faults, before, temp))
    && fs == (if n == 0 then before else before[temp := Content(cs[..n])])
    && (faults.write.None? || faults.write.value >= n)
    && written == |Content(cs[..n])|
  }

  lemma NothingReceived(staging: string, cs: seq<Chunk>, before: FileSystem, temp: string, faults: Faults)
    ensures Receiving(staging, cs, 0, false, None, 0, before, before, temp, faults)
  {
    hide FirstCheck, NextCheck, Consecutive, OffsetOk;
    assert Content(cs[..0]) == [];
  }

  /** The temporary file during the loop: the contents so far, and no trace of
      it once removed. */
  lemma ReceivingFile(
    staging: string, cs: seq<Chunk>, n: nat, finished: bool, first: Option<Chunk>, written: nat,
    fs: FileSystem, before: FileSystem, temp: string, faults: Faults, next: Bytes)
    requires Receiving(staging, cs, n, finished, first, written, fs, before, temp, faults)
    ensures first.Some? ==> temp in fs && fs[temp] == Content(cs[..n])
    ensures (if first.Some? then fs - {temp} else fs) == before
    ensures fs[temp := next] == before[temp := next]
  {
    hide FirstCheck, NextCheck, Consecutive, OffsetOk, Content;
  }

  /** A chunk that passes extends what was received. */
  lemma ReceivingMore(
    staging: string, s: Stream, n: nat, first: Option<Chunk>, written: nat,
    fs: FileSystem, before: FileSystem, temp: string, faults: Faults)
    requires n < |s.chunks| && Receiving(staging, s.chunks, n, false, first, written, fs, before, temp, faults)
    requires ChunkOk(staging, first, written, s.chunks[n]) && faults.write != Some(n)
    requires first.None? ==> CanCreate(faults, fs, temp)
    ensures var c := s.chunks[n];
            Receiving(staging, s.chunks, n + 1, c.finish, if first.None? then Some(c) else first, written + |c.content|,
                      before[temp := Content(s.chunks[..n + 1])], before, temp, faults)
    ensures Content(s.chunks[..n + 1]) == Content(s.chunks[..n]) + s.chunks[n].content
  {
    hide FirstCheck, NextCheck, Consecutive, OffsetOk;
    ConsecutiveStep(staging, s.chunks, n + 1, n);
    hide Content, ChunkOk;
  }

  /** A chunk that does not pass ends the upload, and the stream is not one
      that is accepted. */
  lemma ReceivingFails(
    staging: string, s: Stream, n: nat, first: Option<Chunk>, written: nat,
    fs: FileSystem, before: FileSystem, temp: string, faults: Faults, status: Status)
    requires n < |s.chunks| && Receiving(staging, s.chunks, n, false, first, written, fs, before, temp, faults)
    requires !(ChunkOk(staging, first, written, s.chunks[n]) && faults.write != Some(n)
        && (first.None? ==> CanCreate(faults, fs, temp)))
    requires status == FailureOf(staging, first, written, s.chunks[n], faults, Unused(fs, temp))
    ensures ReceiveOutcome(staging, s, faults, temp, before, before, Some(status), None, 0)
  {
    hide FirstCheck, NextCheck, Consecutive;
    TakenBeyond(s.chunks, n);
    ConsecutiveStep(staging, s.chunks, Taken(s.chunks), n);
    hide Content, Taken;
    assert Fine(staging, s.chunks, n, faults, Unused(before, temp));
    assert ChunkFailure(staging, s.chunks, n, faults, Unused(before, temp)) == Some(status);
    assert ReceiveFails(staging, s, faults, Unused(before, temp), status);
    hide ReceiveFails;
  }

  lemma ReceivingStep(
    staging: string, s: Stream, n: nat, first: Option<Chunk>, written: nat,
    fs: FileSystem, before: FileSystem, temp: string, faults: Faults)
    requires n < |s.chunks| && Receiving(staging, s.chunks, n, false, first, written, fs, before, temp, faults)
    ensures first.Some? ==> temp in fs
    ensures var c := s.chunks[n];
            var held := if first.Some? then fs[temp] else [];
            var ok := ChunkOk(staging, first, written, c) && faults.write != Some(n)
                && (first.None? ==> CanCreate(faults, fs, temp));
            var next := if first.None? then Some(c) else first;
            && (ok ==> Receiving(staging, s.chunks, n + 1, c.finish, next, written + |c.content|,
                                 fs[temp := held + c.content], before, temp, faults))
            && (!ok ==>
                  var status := FailureOf(staging, first, written, c, faults, Unused(fs, temp));
                  ReceiveOutcome(staging, s, faults, temp, before, before, Some(status), None, 0))
    ensures (if first.Some? then fs - {temp} else fs) == before
  {
    ReceivingFile(staging, s.chunks, n, false, first, written, fs, before, temp, faults, Content(s.chunks[..n + 1]));
    ReceivingStarts(staging, s.chunks, n, first, written, fs, before, temp, faults);
    hide Receiving, ReceiveOutcome, ChunkOk, CanCreate, Content;
    var c := s.chunks[n];
    if ChunkOk(staging, first, written, c) && faults.write != Some(n) && (first.None? ==> CanCreate(faults, fs, temp)) {
      ReceivingMore(staging, s, n, first, written, fs, before, temp, faults);
    } else {
      var status := FailureOf(staging, first, written, c, faults, Unused(fs, temp));
      ReceivingFails(staging, s, n, first, written, fs, before, temp, faults, status);
    }
  }

  lemma ReceivingStarts(
    staging: string, cs: seq<Chunk>, n: nat, first: Option<Chunk>, written: nat,
    fs: FileSystem, before: FileSystem, temp: string, faults: Faults)
    requires Receiving(staging, cs, n, false, first, written, fs, before, temp, faults)
    ensures first.None? ==> Content(cs[..n]) == []
  {
    hide FirstCheck, NextCheck, Consecutive, OffsetOk;
    assert Content([]) == [];
  }

  lemma ReceivingDone(
    staging: string, s: Stream, n: nat, finished: bool, first: Option<Chunk>, written: nat,
    fs: FileSystem, before: FileSystem, temp: string, faults: Faults)
    requires Receiving(staging, s.chunks, n, finished, first, written, fs, before, temp, faults)
    requires n == |s.chunks| || finished
    ensures (if first.Some? then fs - {temp} else fs) == before
    ensures if !finished && s.broken
            then ReceiveOutcome(staging, s, faults, temp, before, before, Some(Internal), None, 0)
            else
              var failure := if first.None? then Some(InvalidArgument) else None;
              ReceiveOutcome(staging, s, faults, temp, before, fs, failure, first, written)
  {
    hide FirstCheck, NextCheck, OffsetOk, ChunkFailure;
    TakenExactly(s.chunks, n);
    TempFile(before, temp, Content(s.chunks[..n]), []);
  }

  /** A temporary file with a fresh name leaves no trace once removed. */
  lemma TempFile(fs: FileSystem, temp: string, held: Bytes, next: Bytes)
    ensures temp !in fs ==> fs[temp := held] - {temp} == fs
    ensures fs[temp := held][temp := next] == fs[temp := next]
  {
  }

  /** What a consecutive stream says of its next chunk: the beginning of a
      consecutive stream is extended exactly by a chunk that passes the checks. */
  lemma ConsecutiveStep(staging: string, cs: seq<Chunk>, t: nat, n: nat)
    requires n < t <= |cs| && (n > 0 ==> Consecutive(staging, cs[..n]))
    ensures var ok := ChunkOk(staging, if n == 0 then None else Some(cs[0]), |Content(cs[..n])|, cs[n]);
            && (Consecutive(staging, cs[..t]) ==> ok)
            && (ok ==> Consecutive(staging, cs[..n + 1]))
    ensures Content(cs[..n + 1]) == Content(cs[..n]) + cs[n].content
  {
    ContentSnoc(cs, n);
    if Consecutive(staging, cs[..t]) {
      assert OffsetOk(cs[..t], n);
      SlicePrefix(cs, t, n);
    }
    if ChunkOk(staging, if n == 0 then None else Some(cs[0]), |Content(cs[..n])|, cs[n]) {
      ConsecutiveSnoc(staging, cs, n);
    }
  }

  lemma ConsecutiveSnoc(staging: string, cs: seq<Chunk>, n: nat)
    requires n < |cs| && cs[n].offset == |Content(cs[..n])|
    requires n == 0 ==> FirstCheck(staging, cs[0]).Some?
    requires n > 0 ==> Consecutive(staging, cs[..n]) && NextCheck(cs[0], cs[n])
    ensures Consecutive(staging, cs[..n + 1])
  {
    hide FirstCheck, NextCheck;
    var more := cs[..n + 1];
    forall i: nat | i < n + 1 ensures OffsetOk(more, i) {
      SlicePrefix(cs, n + 1, i);
      if i < n {
        SlicePrefix(cs, n, i);
        assert OffsetOk(cs[..n], i);
      }
    }
    forall i | 1 <= i < n + 1 ensures NextCheck(more[0], more[i]) {
      if i < n {
        assert NextCheck(cs[..n][0], cs[..n][i]);
      }
    }
  }

  /** A failed descriptor fails the request whatever follows. */
  lemma {:induction false} PrepareFails(fs: FileSystem, staging: string, digest: Bytes -> string, project: string,
      ds: seq<Descriptor>, k: nat)
    requires k <= |ds| && Prepare(fs, staging, digest, project, ds[..k]).None?
    ensures Prepare(fs, staging, digest, project, ds).None?
    decreases |ds| - k
  {
    if k < |ds| {
      assert ds[..k + 1][..k] == ds[..k];
      PrepareFails(fs, staging, digest, project, ds, k + 1);
    } else {
      assert ds[..k] == ds;
    }
  }
}
