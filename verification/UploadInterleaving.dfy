/** Many uploads at once, stepped chunk by chunk against one file system. */
module UploadInterleaving {
  import opened Text
  import opened Paths
  import opened StagingPaths
  import opened ArtifactServer

  datatype Phase = Receiving | Complete | Verified

  /** A live upload. The chunks received are kept for the statements only; the
      program keeps their number of bytes and the file. */
  datatype Session = Session(phase: Phase, temp: string, written: nat, chunks: seq<Chunk>)

  /** A rename that took place. */
  datatype Commit = Commit(session: nat, path: string, data: Bytes, chunks: seq<Chunk>)

  datatype System = System(fs: FileSystem, sessions: map<nat, Session>, commits: seq<Commit>)

  datatype Event =
    | Begin(s: nat, chunk: Chunk, temp: string, fails: bool)
    | More(s: nat, chunk: Chunk, fails: bool)
    | End(s: nat)
    | Break(s: nat)
    | Verify(s: nat, fails: bool)
    | Rename(s: nat, fails: bool)

  const TEMP_PREFIX := ".upload-"

  /** The name of a temporary upload file. */
  predicate TempName(path: string) {
    var parts := Split(path, SEP);
    HasPrefix(parts[|parts| - 1], TEMP_PREFIX)
  }

  function Destination(staging: string, chunks: seq<Chunk>): Option<string> {
    if chunks == [] then None
    else match FirstCheck(staging, chunks[0]) case None => None case Some(to) => Some(to.path)
  }

  function After(c: Chunk): Phase {
    if c.finish then Complete else Receiving
  }

  /** A failed upload removes its temporary file and is gone. */
  function Abort(sys: System, s: nat): System
    requires s in sys.sessions
  {
    sys.(fs := sys.fs - {sys.sessions[s].temp}, sessions := sys.sessions - {s})
  }

  function Checked(chunks: seq<Chunk>, data: Bytes, written: nat, digest: Bytes -> string): bool {
    && chunks != [] && chunks[0].descriptor.Some?
    && (chunks[0].descriptor.value.size <= 0 || chunks[0].descriptor.value.size == written)
    && DigestOk(chunks[0].descriptor.value, data, digest)
  }

  function Step(staging: string, digest: Bytes -> string, sys: System, e: Event): System {
    match e
    case Begin(s, c, temp, fails) =>
      if s in sys.sessions || !ChunkOk(staging, None, 0, c) || fails then sys
      else sys.(fs := sys.fs[temp := c.content],
          sessions := sys.sessions[s := Session(After(c), temp, |c.content|, [c])])
    case More(s, c, fails) =>
      if s !in sys.sessions || sys.sessions[s].phase != Receiving then sys
      else
        var x := sys.sessions[s];
        if x.chunks == [] || x.temp !in sys.fs || !ChunkOk(staging, Some(x.chunks[0]), x.written, c) || fails
        then Abort(sys, s)
        else
          var y := Session(After(c), x.temp, x.written + |c.content|, x.chunks + [c]);
          sys.(fs := sys.fs[x.temp := sys.fs[x.temp] + c.content], sessions := sys.sessions[s := y])
    case End(s) =>
      if s !in sys.sessions || sys.sessions[s].phase != Receiving then sys
      else sys.(sessions := sys.sessions[s := sys.sessions[s].(phase := Complete)])
    case Break(s) =>
      if s !in sys.sessions || sys.sessions[s].phase != Receiving then sys else Abort(sys, s)
    case Verify(s, fails) =>
      if s !in sys.sessions || sys.sessions[s].phase != Complete then sys
      else
        var x := sys.sessions[s];
        if fails || x.temp !in sys.fs || !Checked(x.chunks, sys.fs[x.temp], x.written, digest) then Abort(sys, s)
        else sys.(sessions := sys.sessions[s := x.(phase := Verified)])
    case Rename(s, fails) =>
      if s !in sys.sessions || sys.sessions[s].phase != Verified then sys
      else
        var x := sys.sessions[s];
        var to := Destination(staging, x.chunks);
        if fails || x.temp !in sys.fs || to.None? then Abort(sys, s)
        else
          var data := sys.fs[x.temp];
          var commit := Commit(s, to.value, data, x.chunks);
          System((sys.fs - {x.temp})[to.value := data], sys.sessions - {s}, sys.commits + [commit])
  }

  /** Temporary names are fresh, and destinations are not temporary names. */
  predicate Allowed(staging: string, sys: System, e: Event) {
    e.Begin? ==>
      && TempName(e.temp) && e.temp !in sys.fs
      && (Destination(staging, [e.chunk]).Some? ==> !TempName(Destination(staging, [e.chunk]).value))
  }

  function Run(staging: string, digest: Bytes -> string, sys: System, es: seq<Event>): System {
    if es == [] then sys else Step(staging, digest, Run(staging, digest, sys, es[..|es| - 1]), es[|es| - 1])
  }

  ghost predicate AllowedRun(staging: string, digest: Bytes -> string, sys: System, es: seq<Event>) {
    forall i :: 0 <= i < |es| ==> Allowed(staging, Run(staging, digest, sys, es[..i]), es[i])
  }

  // ----- what every run keeps -----

  /** The last rename to a path, or -1. */
  function LastTo(commits: seq<Commit>, path: string): (i: int)
    ensures -1 <= i < |commits|
    ensures i >= 0 ==> commits[i].path == path
    ensures forall j :: i < j < |commits| ==> commits[j].path != path
  {
    if commits == [] then -1
    else if commits[|commits| - 1].path == path then |commits| - 1
    else LastTo(commits[..|commits| - 1], path)
  }

  /** The bytes of the last rename to a path, or what was there at the start. */
  function Latest(init: FileSystem, commits: seq<Commit>, path: string): Option<Bytes> {
    var i := LastTo(commits, path);
    if i < 0 then Lookup(init, path) else Some(commits[i].data)
  }

  lemma LatestSnoc(init: FileSystem, commits: seq<Commit>, c: Commit, path: string)
    ensures Latest(init, commits + [c], path) == if c.path == path then Some(c.data) else Latest(init, commits, path)
  {
    assert (commits + [c])[..|commits|] == commits;
  }

  function Lookup(fs: FileSystem, path: string): Option<Bytes> {
    if path in fs then Some(fs[path]) else None
  }

  /** A live session owns its file, which holds exactly what it received. */
  ghost predicate SessionOk(staging: string, digest: Bytes -> string, fs: FileSystem, x: Session) {
    && TempName(x.temp) && Lookup(fs, x.temp) == Some(Content(x.chunks))
    && Consecutive(staging, x.chunks) && x.written == |Content(x.chunks)|
    && Destination(staging, x.chunks).Some? && !TempName(Destination(staging, x.chunks).value)
    && (x.phase == Verified ==> Whole(x.chunks, digest))
  }

  /** The declared size and digest match the received bytes. */
  ghost predicate Whole(chunks: seq<Chunk>, digest: Bytes -> string) {
    && chunks != [] && chunks[0].descriptor.Some?
    && SizeOk(chunks[0].descriptor.value, Content(chunks))
        && DigestOk(chunks[0].descriptor.value, Content(chunks), digest)
  }

  ghost predicate CommitOk(staging: string, digest: Bytes -> string, c: Commit) {
    Consecutive(staging, c.chunks) && Whole(c.chunks, digest) &&
    c.data == Content(c.chunks) && Destination(staging, c.chunks) == Some(c.path)
  }

  ghost predicate Sessions(staging: string, digest: Bytes -> string, sys: System) {
    && (forall s :: s in sys.sessions ==> SessionOk(staging, digest, sys.fs, sys.sessions[s]))
    && (forall s, t :: s in sys.sessions && t in sys.sessions && s != t ==>
        sys.sessions[s].temp != sys.sessions[t].temp)
  }

  /** Destinations hold the last committed bytes; temporary files are the
      initial ones, unchanged, and those of live sessions. */
  ghost predicate Files(init: FileSystem, sys: System) {
    && (forall p :: !TempName(p) ==> Lookup(sys.fs, p) == Latest(init, sys.commits, p))
    && (forall p :: TempName(p) && p in init ==> Lookup(sys.fs, p) == Some(init[p]))
    && (forall p :: TempName(p) && p in sys.fs && p !in init ==>
        exists s :: s in sys.sessions && sys.sessions[s].temp == p)
    && (forall s :: s in sys.sessions ==> sys.sessions[s].temp !in init)
  }

  ghost predicate Commits(staging: string, digest: Bytes -> string, sys: System) {
    forall i :: 0 <= i < |sys.commits| ==> CommitOk(staging, digest, sys.commits[i])
  }

  ghost predicate Inv(staging: string, digest: Bytes -> string, init: FileSystem, sys: System) {
    Sessions(staging, digest, sys) && Files(init, sys) && Commits(staging, digest, sys)
  }

  /** A session depends on its own file only. */
  lemma SessionFrame(staging: string, digest: Bytes -> string, fs: FileSystem, other: FileSystem, x: Session)
    requires SessionOk(staging, digest, fs, x) && Lookup(fs, x.temp) == Lookup(other, x.temp)
    ensures SessionOk(staging, digest, other, x) && TempName(x.temp) && x.temp in fs
  {
    hide TempName, Whole, Consecutive, Destination, Content;
  }

  /** A session's file is its own, or still fresh. */
  ghost predicate OwnFile(sys: System, s: nat, temp: string) {
    if s in sys.sessions then temp == sys.sessions[s].temp else temp !in sys.fs && TempName(temp)
  }

  lemma PutSessions(staging: string, digest: Bytes -> string, sys: System, s: nat, x: Session, data: Bytes)
    requires Sessions(staging, digest, sys) && OwnFile(sys, s, x.temp)
    requires SessionOk(staging, digest, sys.fs[x.temp := data], x)
    ensures Sessions(staging, digest, sys.(fs := sys.fs[x.temp := data], sessions := sys.sessions[s := x]))
  {
    hide TempName, SessionOk;
    var fs := sys.fs[x.temp := data];
    forall t | t in sys.sessions && t != s
      ensures sys.sessions[t].temp != x.temp && SessionOk(staging, digest, fs, sys.sessions[t])
    {
      SessionFrame(staging, digest, sys.fs, sys.fs, sys.sessions[t]);
      SessionFrame(staging, digest, sys.fs, fs, sys.sessions[t]);
    }
  }

  lemma PutFiles(init: FileSystem, sys: System, s: nat, x: Session, data: Bytes)
    requires Files(init, sys) && OwnFile(sys, s, x.temp) && TempName(x.temp)
    ensures Files(init, sys.(fs := sys.fs[x.temp := data], sessions := sys.sessions[s := x]))
  {
    hide TempName, Latest;
    var next := sys.(fs := sys.fs[x.temp := data], sessions := sys.sessions[s := x]);
    assert x.temp !in init;
    forall p | TempName(p) && p in next.fs && p !in init
      ensures exists t :: t in next.sessions && next.sessions[t].temp == p
    {
      if p == x.temp {
        assert next.sessions[s].temp == p;
      } else {
        var t :| t in sys.sessions && sys.sessions[t].temp == p;
        assert t != s && next.sessions[t].temp == p;
      }
    }
  }

  /** Writing one's own file keeps everybody else. */
  lemma PutSession(staging: string, digest: Bytes -> string, init: FileSystem, sys: System, s: nat, x: Session,
      data: Bytes)
    requires Inv(staging, digest, init, sys) && OwnFile(sys, s, x.temp)
    requires SessionOk(staging, digest, sys.fs[x.temp := data], x)
    ensures Inv(staging, digest, init, sys.(fs := sys.fs[x.temp := data], sessions := sys.sessions[s := x]))
  {
    hide TempName, SessionOk, CommitOk, Files, Sessions, OwnFile;
    SessionFrame(staging, digest, sys.fs[x.temp := data], sys.fs[x.temp := data], x);
    PutSessions(staging, digest, sys, s, x, data);
    PutFiles(init, sys, s, x, data);
  }

  lemma AbortKeeps(staging: string, digest: Bytes -> string, init: FileSystem, sys: System, s: nat)
    requires Inv(staging, digest, init, sys) && s in sys.sessions
    ensures Inv(staging, digest, init, Abort(sys, s))
  {
    hide TempName, SessionOk, CommitOk, Latest;
    var next := Abort(sys, s);
    SessionFrame(staging, digest, sys.fs, sys.fs, sys.sessions[s]);
    forall t | t in next.sessions ensures SessionOk(staging, digest, next.fs, next.sessions[t]) {
      SessionFrame(staging, digest, sys.fs, next.fs, sys.sessions[t]);
    }
    forall p | TempName(p) && p in next.fs && p !in init
      ensures exists t :: t in next.sessions && next.sessions[t].temp == p
    {
      var t :| t in sys.sessions && sys.sessions[t].temp == p;
      assert t != s && next.sessions[t].temp == p;
    }
    assert Files(init, next);
  }

  lemma RenameKeeps(staging: string, digest: Bytes -> string, init: FileSystem, sys: System, s: nat)
    requires Inv(staging, digest, init, sys) && s in sys.sessions && sys.sessions[s].phase == Verified
    ensures Inv(staging, digest, init, Step(staging, digest, sys, Rename(s, false)))
  {
    hide TempName, Whole, Consecutive, Destination, Content, FirstCheck, Latest;
    var x := sys.sessions[s];
    assert SessionOk(staging, digest, sys.fs, x);
    AbortKeeps(staging, digest, init, sys, s);
    var gone := Abort(sys, s);
    var c := Commit(s, Destination(staging, x.chunks).value, sys.fs[x.temp], x.chunks);
    assert Step(staging, digest, sys, Rename(s, false)) ==
        gone.(fs := gone.fs[c.path := c.data], commits := gone.commits + [c]);
    CommitKeeps(staging, digest, init, gone, c);
  }

  /** Putting checked bytes at a destination keeps every session and file. */
  lemma CommitKeeps(staging: string, digest: Bytes -> string, init: FileSystem, sys: System, c: Commit)
    requires Inv(staging, digest, init, sys) && CommitOk(staging, digest, c) && !TempName(c.path)
    ensures Inv(staging, digest, init, sys.(fs := sys.fs[c.path := c.data], commits := sys.commits + [c]))
  {
    hide TempName, SessionOk, Latest, CommitOk;
    var next := sys.(fs := sys.fs[c.path := c.data], commits := sys.commits + [c]);
    forall t | t in next.sessions ensures SessionOk(staging, digest, next.fs, next.sessions[t]) {
      SessionFrame(staging, digest, sys.fs, sys.fs, sys.sessions[t]);
      SessionFrame(staging, digest, sys.fs, next.fs, sys.sessions[t]);
    }
    forall p | !TempName(p) ensures Lookup(next.fs, p) == Latest(init, next.commits, p) {
      LatestSnoc(init, sys.commits, c, p);
    }
  }

  lemma SessionBegin(staging: string, digest: Bytes -> string, fs: FileSystem, c: Chunk, temp: string)
    requires ChunkOk(staging, None, 0, c) && TempName(temp)
    requires Destination(staging, [c]).Some? ==> !TempName(Destination(staging, [c]).value)
    ensures SessionOk(staging, digest, fs[temp := c.content], Session(After(c), temp, |c.content|, [c]))
  {
    hide FirstCheck, TempName, NextCheck, Whole;
    var cs := [c];
    assert cs[..0] == [] && cs[..1] == cs && Content(cs) == c.content;
    ConsecutiveSnoc(staging, cs, 0);
    hide Consecutive, Content;
  }

  lemma BeginKeeps(staging: string, digest: Bytes -> string, init: FileSystem, sys: System, e: Event)
    requires Inv(staging, digest, init, sys) && e.Begin? && Allowed(staging, sys, e)
    ensures Inv(staging, digest, init, Step(staging, digest, sys, e))
  {
    hide Inv, SessionOk, ChunkOk, TempName, Destination;
    if e.s !in sys.sessions && ChunkOk(staging, None, 0, e.chunk) && !e.fails {
      SessionBegin(staging, digest, sys.fs, e.chunk, e.temp);
      PutSession(staging, digest, init, sys, e.s, Session(After(e.chunk), e.temp, |e.chunk.content|, [e.chunk]),
          e.chunk.content);
    }
  }

  lemma MoreKeeps(staging: string, digest: Bytes -> string, init: FileSystem, sys: System, s: nat, c: Chunk)
    requires Inv(staging, digest, init, sys) && s in sys.sessions && sys.sessions[s].phase == Receiving
    requires sys.sessions[s].chunks != []
        && ChunkOk(staging, Some(sys.sessions[s].chunks[0]), sys.sessions[s].written, c)
    ensures Inv(staging, digest, init, Step(staging, digest, sys, More(s, c, false)))
  {
    hide Inv, SessionOk, ChunkOk;
    var x := sys.sessions[s];
    var y := Session(After(c), x.temp, x.written + |c.content|, x.chunks + [c]);
    LiveSession(staging, digest, init, sys, s);
    SessionMore(staging, digest, sys.fs, x, c);
    PutSession(staging, digest, init, sys, s, y, sys.fs[x.temp] + c.content);
  }

  lemma SessionMore(staging: string, digest: Bytes -> string, fs: FileSystem, x: Session, c: Chunk)
    requires SessionOk(staging, digest, fs, x) && ChunkOk(staging, Some(x.chunks[0]), x.written, c)
    ensures SessionOk(staging, digest, fs[x.temp := fs[x.temp] + c.content],
                      Session(After(c), x.temp, x.written + |c.content|, x.chunks + [c]))
  {
    hide TempName, FirstCheck, NextCheck, Whole;
    var cs := x.chunks + [c];
    assert cs[..|x.chunks|] == x.chunks && cs[..|cs|] == cs;
    ConsecutiveSnoc(staging, cs, |x.chunks|);
    ContentSnoc(cs, |x.chunks|);
    hide Consecutive, Content;
  }

  lemma PhaseKeeps(staging: string, digest: Bytes -> string, init: FileSystem, sys: System, s: nat, phase: Phase)
    requires Inv(staging, digest, init, sys) && s in sys.sessions
    requires phase == Verified ==> Whole(sys.sessions[s].chunks, digest)
    ensures Inv(staging, digest, init, sys.(sessions := sys.sessions[s := sys.sessions[s].(phase := phase)]))
  {
    hide TempName, FirstCheck, Consecutive, Content;
    var x := sys.sessions[s];
    assert SessionOk(staging, digest, sys.fs, x);
    assert sys.fs[x.temp := sys.fs[x.temp]] == sys.fs;
    PutSession(staging, digest, init, sys, s, x.(phase := phase), sys.fs[x.temp]);
  }

  lemma StepKeeps(staging: string, digest: Bytes -> string, init: FileSystem, sys: System, e: Event)
    requires Inv(staging, digest, init, sys) && Allowed(staging, sys, e)
    ensures Inv(staging, digest, init, Step(staging, digest, sys, e))
  {
    hide Inv, TempName, FirstCheck, Consecutive, ChunkOk;
    if e.Begin? {
      BeginKeeps(staging, digest, init, sys, e);
    } else if e.s in sys.sessions {
      var s, x := e.s, sys.sessions[e.s];
      LiveSession(staging, digest, init, sys, s);
      AbortKeeps(staging, digest, init, sys, s);
      match e
      case More(_, c, fails) =>
        if x.phase == Receiving && x.chunks != [] && ChunkOk(staging, Some(x.chunks[0]), x.written, c) {
          MoreKeeps(staging, digest, init, sys, s, c);
        }
      case End(_) => PhaseKeeps(staging, digest, init, sys, s, Complete);
      case Break(_) =>
      case Verify(_, fails) =>
        if Checked(x.chunks, sys.fs[x.temp], x.written, digest) {
          PhaseKeeps(staging, digest, init, sys, s, Verified);
        }
      case Rename(_, fails) =>
        if x.phase == Verified {
          RenameKeeps(staging, digest, init, sys, s);
        }
    }
  }

  /** What the program knows of a live session: the bytes counted are the bytes
      received, so its checks are checks of the received bytes. */
  lemma LiveSession(staging: string, digest: Bytes -> string, init: FileSystem, sys: System, s: nat)
    requires Inv(staging, digest, init, sys) && s in sys.sessions
    ensures SessionOk(staging, digest, sys.fs, sys.sessions[s])
    ensures var x := sys.sessions[s];
            x.temp in sys.fs && sys.fs[x.temp] == Content(x.chunks) && x.written == |Content(x.chunks)|
  {
    assert SessionOk(staging, digest, sys.fs, sys.sessions[s]);
  }

  lemma {:induction false} RunKeeps(staging: string, digest: Bytes -> string, init: FileSystem, es: seq<Event>)
    requires AllowedRun(staging, digest, System(init, map[], []), es)
    ensures Inv(staging, digest, init, Run(staging, digest, System(init, map[], []), es))
  {
    var start := System(init, map[], []);
    if es != [] {
      var before := es[..|es| - 1];
      forall i | 0 <= i < |before| ensures Allowed(staging, Run(staging, digest, start, before[..i]), before[i]) {
        assert before[..i] == es[..i];
      }
      RunKeeps(staging, digest, init, before);
      assert Allowed(staging, Run(staging, digest, start, es[..|es| - 1]), es[|es| - 1]);
      StepKeeps(staging, digest, init, Run(staging, digest, start, before), es[|es| - 1]);
    }
  }

  /** After any interleaving, every path that is not a temporary name holds its
      initial bytes, or the checked bytes of the last upload renamed to it. */
  lemma DestinationsHold(staging: string, digest: Bytes -> string, init: FileSystem, es: seq<Event>, path: string)
    requires AllowedRun(staging, digest, System(init, map[], []), es) && !TempName(path)
    ensures var sys := Run(staging, digest, System(init, map[], []), es);
            var i := LastTo(sys.commits, path);
            if i < 0 then Lookup(sys.fs, path) == Lookup(init, path)
            else
              && CommitOk(staging, digest, sys.commits[i])
              && Lookup(sys.fs, path) == Some(Content(sys.commits[i].chunks))
  {
    hide TempName, Run, AllowedRun, Whole, Consecutive, Destination, Content;
    RunKeeps(staging, digest, init, es);
  }

  /** No upload leaves its temporary file behind: after any interleaving the
      temporary files are the initial ones, untouched, and those of uploads
      still in progress. */
  lemma NoLeftovers(staging: string, digest: Bytes -> string, init: FileSystem, es: seq<Event>, path: string)
    requires AllowedRun(staging, digest, System(init, map[], []), es) && TempName(path)
    ensures var sys := Run(staging, digest, System(init, map[], []), es);
            && (path in init ==> Lookup(sys.fs, path) == Some(init[path]))
            && (path in sys.fs && path !in init ==> exists s :: s in sys.sessions && sys.sessions[s].temp == path)
  {
    hide TempName, Run, AllowedRun;
    RunKeeps(staging, digest, init, es);
  }

  // ----- what every event achieves when nothing fails -----

  /** A first chunk that passes opens a session on its file; a further one is
      appended; the end of the stream or the checks, when size and digest match,
      move the session on; and a rename puts its bytes at its destination. */
  lemma StepAdvances(staging: string, digest: Bytes -> string, init: FileSystem, sys: System, e: Event)
    requires Inv(staging, digest, init, sys)
    ensures var next := Step(staging, digest, sys, e);
            match e
            case Begin(s, c, temp, fails) =>
              s !in sys.sessions && ChunkOk(staging, None, 0, c) && !fails ==>
                s in next.sessions && next.sessions[s].chunks == [c] && Lookup(next.fs, temp) == Some(c.content)
            case More(s, c, fails) =>
              s in sys.sessions && sys.sessions[s].phase == Receiving && !fails
              && ChunkOk(staging, Some(sys.sessions[s].chunks[0]), |Content(sys.sessions[s].chunks)|, c) ==>
                && s in next.sessions && next.sessions[s].chunks == sys.sessions[s].chunks + [c]
                && Lookup(next.fs, sys.sessions[s].temp) == Some(Content(sys.sessions[s].chunks) + c.content)
            case End(s) =>
              s in sys.sessions && sys.sessions[s].phase == Receiving ==>
                next.fs == sys.fs && s in next.sessions && next.sessions[s] == sys.sessions[s].(phase := Complete)
            case Break(s) =>
              s in sys.sessions && sys.sessions[s].phase == Receiving ==>
                s !in next.sessions && next.fs == sys.fs - {sys.sessions[s].temp}
            case Verify(s, fails) =>
              s in sys.sessions && sys.sessions[s].phase == Complete ==>
                && (!fails && Whole(sys.sessions[s].chunks, digest) ==>
                      next.fs == sys.fs && s in next.sessions
                          && next.sessions[s] == sys.sessions[s].(phase := Verified))
                && (!Whole(sys.sessions[s].chunks, digest) ==>
                      s !in next.sessions && next.fs == sys.fs - {sys.sessions[s].temp})
            case Rename(s, fails) =>
              s in sys.sessions && sys.sessions[s].phase == Verified && !fails ==>
                && s !in next.sessions && sys.sessions[s].temp !in next.fs
                && Lookup(next.fs, Destination(staging, sys.sessions[s].chunks).value) ==
                    Some(Content(sys.sessions[s].chunks))
                && |next.commits| == |sys.commits| + 1
  {
    hide TempName, FirstCheck, Consecutive, Content, ChunkOk, Latest, LastTo;
    if e.s in sys.sessions {
      LiveSession(staging, digest, init, sys, e.s);
      assert SessionOk(staging, digest, sys.fs, sys.sessions[e.s]);
      SessionNonEmpty(staging, sys.sessions[e.s].chunks);
    }
    hide Inv;
  }

  lemma SessionNonEmpty(staging: string, chunks: seq<Chunk>)
    ensures Consecutive(staging, chunks) ==> chunks != [] && chunks[0].descriptor.Some?
  {
    hide NextCheck, OffsetOk, Content;
  }
}
