/** Where committed bytes come from: the events of one upload, from its first
    chunk to its rename. */
module UploadHistory {
  import opened Text
  import opened StagingPaths
  import opened ArtifactServer
  import opened UploadInterleaving

  /** A run of the agent from some files. */
  datatype Trace = Trace(staging: string, digest: Bytes -> string, init: FileSystem, events: seq<Event>)

  /** The system after the first n events. */
  function State(t: Trace, n: nat): System
    requires n <= |t.events|
  {
    Run(t.staging, t.digest, System(t.init, map[], []), t.events[..n])
  }

  lemma StateStep(t: Trace, n: nat)
    requires n < |t.events|
    ensures State(t, n + 1) == Step(t.staging, t.digest, State(t, n), t.events[n])
  {
    assert t.events[..n + 1][..n] == t.events[..n];
  }

  /** The event brings a chunk, and its session lives on with it. */
  predicate Takes(t: Trace, n: nat)
    requires n < |t.events|
  {
    var e, sys := t.events[n], State(t, n);
    && e.s in Step(t.staging, t.digest, sys, e).sessions
    && ((e.Begin? && e.s !in sys.sessions) || (e.More? && e.s in sys.sessions && sys.sessions[e.s].phase == Receiving))
  }

  /** The chunks accepted from a session by the events from b up to n, in order. */
  function Heard(t: Trace, s: nat, b: nat, n: nat): seq<Chunk>
    requires n <= |t.events|
  {
    if n <= b then []
    else Heard(t, s, b, n - 1) + (if t.events[n - 1].s == s && Takes(t, n - 1) then [t.events[n - 1].chunk] else [])
  }

  /** Session s began with event b and has lived ever since, up to event n. */
  ghost predicate LivesSince(t: Trace, s: nat, b: nat, n: nat) {
    && b < n <= |t.events| && t.events[b].Begin? && t.events[b].s == s && s !in State(t, b).sessions
    && forall k :: b < k <= n ==> s in State(t, k).sessions
  }

  /** The stream of session s was ended between events b and n. */
  ghost predicate Ended(t: Trace, s: nat, b: nat, n: nat)
    requires n <= |t.events|
  {
    exists k :: b < k < n && t.events[k] == End(s)
  }

  /** No chunk but the last finishes. */
  ghost predicate NoEarlyFinish(cs: seq<Chunk>) {
    forall i :: 0 <= i < |cs| - 1 ==> !cs[i].finish
  }

  /** The whole stream of one session: its accepted chunks since it began, the
      last of which finishes, or the stream was ended after it. */
  ghost predicate WholeStream(t: Trace, s: nat, b: nat, n: nat, cs: seq<Chunk>) {
    && LivesSince(t, s, b, n) && cs == Heard(t, s, b, n) && cs != [] && NoEarlyFinish(cs)
    && (cs[|cs| - 1].finish || Ended(t, s, b, n))
  }

  ghost predicate LiveFrom(t: Trace, s: nat, b: nat, n: nat) {
    && LivesSince(t, s, b, n)
    && var x := State(t, n).sessions[s];
       if x.phase == Receiving
       then x.chunks == Heard(t, s, b, n) && x.chunks != [] && forall i :: 0 <= i < |x.chunks| ==> !x.chunks[i].finish
       else WholeStream(t, s, b, n, x.chunks)
  }

  /** The i-th rename was event r, of a session that began with event b. */
  ghost predicate RenamedAt(t: Trace, i: nat, n: nat, b: nat, r: nat) {
    && n <= |t.events| && i < |State(t, n).commits| && r < n
    && var c := State(t, n).commits[i];
       && t.events[r] == Rename(c.session, false) && State(t, r).commits == State(t, n).commits[..i]
       && WholeStream(t, c.session, b, r, c.chunks)
  }

  ghost predicate Renamed(t: Trace, i: nat, n: nat) {
    exists b, r :: RenamedAt(t, i, n, b, r)
  }

  ghost predicate History(t: Trace, n: nat) {
    && n <= |t.events|
    && (forall s :: s in State(t, n).sessions ==> exists b :: LiveFrom(t, s, b, n))
    && (forall i :: 0 <= i < |State(t, n).commits| ==> Renamed(t, i, n))
  }

  // ----- what one step does -----

  lemma OtherSessions(staging: string, digest: Bytes -> string, sys: System, e: Event, s: nat)
    requires s != e.s
    ensures var next := Step(staging, digest, sys, e);
            (s in next.sessions <==> s in sys.sessions) && (s in sys.sessions ==> next.sessions[s] == sys.sessions[s])
  {
    hide ChunkOk, Destination, Checked;
  }

  /** An event that brings no chunk to its session leaves the chunks as they are. */
  lemma OwnSession(staging: string, digest: Bytes -> string, sys: System, e: Event)
    ensures var next := Step(staging, digest, sys, e);
            e.s in next.sessions ==>
              var y := next.sessions[e.s];
              if e.Begin? && e.s !in sys.sessions then y.chunks == [e.chunk] && y.phase == After(e.chunk)
              else
                && e.s in sys.sessions
                && var x := sys.sessions[e.s];
                   if e.More? && x.phase == Receiving then y.chunks == x.chunks + [e.chunk] && y.phase == After(e.chunk)
                   else
                     && y.chunks == x.chunks
                     && (x.phase == Receiving ==> y.phase == Receiving || (e.End? && y.phase == Complete))
                     && (x.phase != Receiving ==> y.phase != Receiving)
  {
    hide ChunkOk, Destination, Checked;
  }

  lemma NewCommit(staging: string, digest: Bytes -> string, sys: System, e: Event)
    ensures var next := Step(staging, digest, sys, e);
            next.commits == sys.commits
            || (&& e == Rename(e.s, false) && e.s in sys.sessions && sys.sessions[e.s].phase == Verified
                && |next.commits| == |sys.commits| + 1 && next.commits[..|sys.commits|] == sys.commits
                && next.commits[|sys.commits|].session == e.s
                    && next.commits[|sys.commits|].chunks == sys.sessions[e.s].chunks)
  {
    hide ChunkOk, Destination, Checked;
  }

  // ----- every run -----

  lemma LivesOn(t: Trace, s: nat, b: nat, n: nat)
    requires LivesSince(t, s, b, n) && n < |t.events| && s in State(t, n + 1).sessions
    ensures LivesSince(t, s, b, n + 1)
  {
    hide State;
  }

  lemma EndedOn(t: Trace, s: nat, b: nat, n: nat)
    requires n < |t.events| && Ended(t, s, b, n)
    ensures Ended(t, s, b, n + 1)
  {
  }

  /** A session untouched by an event keeps its history. */
  lemma LiveStays(t: Trace, s: nat, b: nat, n: nat)
    requires n < |t.events| && LiveFrom(t, s, b, n) && s in State(t, n + 1).sessions
        && !(t.events[n].s == s && Takes(t, n))
    requires State(t, n + 1).sessions[s].chunks == State(t, n).sessions[s].chunks
    requires var x, y := State(t, n).sessions[s], State(t, n + 1).sessions[s];
             && (x.phase == Receiving ==> y.phase == Receiving || t.events[n] == End(s))
             && (x.phase != Receiving ==> y.phase != Receiving)
    ensures LiveFrom(t, s, b, n + 1)
  {
    hide State, Takes;
    LivesOn(t, s, b, n);
    assert Heard(t, s, b, n + 1) == Heard(t, s, b, n);
    hide Heard, LivesSince;
    var x, y := State(t, n).sessions[s], State(t, n + 1).sessions[s];
    if x.phase == Receiving {
      assert y.phase != Receiving ==> b < n && t.events[n] == End(s) by {
        BeganBefore(t, s, b, n);
      }
      assert y.phase != Receiving ==> Ended(t, s, b, n + 1);
    } else if Ended(t, s, b, n) {
      EndedOn(t, s, b, n);
    }
  }

  lemma BeganBefore(t: Trace, s: nat, b: nat, n: nat)
    requires LivesSince(t, s, b, n)
    ensures b < n
  {
  }

  /** What an accepted chunk does to its session. */
  lemma TakesFacts(t: Trace, n: nat)
    requires n < |t.events| && Takes(t, n)
    ensures var e := t.events[n];
            && e.s in State(t, n + 1).sessions && (e.Begin? || e.More?) && (e.Begin? <==> e.s !in State(t, n).sessions)
            && var y := State(t, n + 1).sessions[e.s];
               && y.phase == After(e.chunk)
               && (e.Begin? ==> y.chunks == [e.chunk])
               && (e.More? ==>
                     && State(t, n).sessions[e.s].phase == Receiving
                     && y.chunks == State(t, n).sessions[e.s].chunks + [e.chunk])
  {
    StateStep(t, n);
    OwnSession(t.staging, t.digest, State(t, n), t.events[n]);
    hide State, Step;
  }

  lemma HeardStep(t: Trace, s: nat, b: nat, n: nat)
    requires b <= n < |t.events|
    ensures Heard(t, s, b, n + 1) ==
              Heard(t, s, b, n) + (if t.events[n].s == s && Takes(t, n) then [t.events[n].chunk] else [])
    ensures Heard(t, s, n, n) == []
  {
  }

  /** A first chunk starts a history. */
  lemma LiveBegins(t: Trace, n: nat)
    requires n < |t.events| && Takes(t, n) && t.events[n].Begin?
    ensures LiveFrom(t, t.events[n].s, n, n + 1)
  {
    hide State, Takes, Heard, WholeStream, Ended;
    var e := t.events[n];
    TakesFacts(t, n);
    HeardStep(t, e.s, n, n);
    assert [] + [e.chunk] == [e.chunk];
    assert LivesSince(t, e.s, n, n + 1);
    hide LivesSince;
    var x := State(t, n + 1).sessions[e.s];
    assert x.chunks == Heard(t, e.s, n, n + 1) && x.phase == (if e.chunk.finish then Complete else Receiving);
    if e.chunk.finish {
      WholeFinished(t, e.s, n, n + 1, x.chunks);
    }
  }

  lemma WholeFinished(t: Trace, s: nat, b: nat, n: nat, cs: seq<Chunk>)
    requires LivesSince(t, s, b, n) && cs == Heard(t, s, b, n) && cs != [] && NoEarlyFinish(cs) && cs[|cs| - 1].finish
    ensures WholeStream(t, s, b, n, cs)
  {
    hide LivesSince, Heard;
  }

  /** A further chunk extends it. */
  lemma LiveGrows(t: Trace, b: nat, n: nat)
    requires n < |t.events| && Takes(t, n) && t.events[n].More? && LiveFrom(t, t.events[n].s, b, n)
    ensures LiveFrom(t, t.events[n].s, b, n + 1)
  {
    hide State, Takes, Heard;
    var e := t.events[n];
    TakesFacts(t, n);
    LivesOn(t, e.s, b, n);
    BeganBefore(t, e.s, b, n);
    HeardStep(t, e.s, b, n);
    hide LivesSince;
  }

  lemma LiveKeeps(t: Trace, s: nat, n: nat) returns (b: nat)
    requires n < |t.events| && History(t, n) && s in State(t, n + 1).sessions
    ensures LiveFrom(t, s, b, n + 1)
  {
    StateStep(t, n);
    var e := t.events[n];
    hide State, LiveFrom;
    if e.s == s && e.Begin? && Takes(t, n) {
      LiveBegins(t, n);
      b := n;
    } else {
      OtherSession(t, s, n);
      b :| LiveFrom(t, s, b, n);
      if e.s == s && Takes(t, n) {
        LiveGrows(t, b, n);
      } else {
        LiveStays(t, s, b, n);
      }
    }
  }

  /** A session that did not just begin was there before, and changed only as
      far as the event is its own. */
  lemma OtherSession(t: Trace, s: nat, n: nat)
    requires n < |t.events| && s in State(t, n + 1).sessions
        && !(t.events[n].s == s && t.events[n].Begin? && Takes(t, n))
    ensures s in State(t, n).sessions
    ensures !(t.events[n].s == s && Takes(t, n)) ==>
              var x, y := State(t, n).sessions[s], State(t, n + 1).sessions[s];
              && y.chunks == x.chunks
              && (x.phase == Receiving ==> y.phase == Receiving || t.events[n] == End(s))
              && (x.phase != Receiving ==> y.phase != Receiving)
  {
    StateStep(t, n);
    var e := t.events[n];
    if e.s == s {
      OwnSession(t.staging, t.digest, State(t, n), e);
    } else {
      OtherSessions(t.staging, t.digest, State(t, n), e, s);
    }
    hide State, Step;
  }

  /** An earlier rename keeps its history. */
  lemma OldCommit(t: Trace, i: nat, n: nat)
    requires n < |t.events| && Renamed(t, i, n) && i < |State(t, n).commits| <= |State(t, n + 1).commits|
    requires State(t, n + 1).commits[..|State(t, n).commits|] == State(t, n).commits
    ensures Renamed(t, i, n + 1)
  {
    hide State, WholeStream;
    var b, r :| RenamedAt(t, i, n, b, r);
    var before, after := State(t, n).commits, State(t, n + 1).commits;
    assert after[i] == after[..|before|][i] && after[..i] == after[..|before|][..i];
    assert RenamedAt(t, i, n + 1, b, r);
  }

  /** A rename ends the history of its session. */
  lemma FreshCommit(t: Trace, n: nat, s: nat)
    requires n < |t.events| && t.events[n] == Rename(s, false) && s in State(t, n).sessions
        && State(t, n).sessions[s].phase == Verified
    requires exists b :: LiveFrom(t, s, b, n)
    requires var before, after := State(t, n).commits, State(t, n + 1).commits;
             && |after| == |before| + 1 && after[..|before|] == before
             && after[|before|].session == s && after[|before|].chunks == State(t, n).sessions[s].chunks
    ensures Renamed(t, |State(t, n).commits|, n + 1)
  {
    hide State, WholeStream;
    var b :| LiveFrom(t, s, b, n);
    assert RenamedAt(t, |State(t, n).commits|, n + 1, b, n);
  }

  lemma CommitKeepsHistory(t: Trace, i: nat, n: nat)
    requires n < |t.events| && History(t, n) && i < |State(t, n + 1).commits|
    ensures Renamed(t, i, n + 1)
  {
    hide State, Step, LiveFrom, Renamed;
    StateStep(t, n);
    NewCommit(t.staging, t.digest, State(t, n), t.events[n]);
    if i < |State(t, n).commits| {
      OldCommit(t, i, n);
    } else {
      FreshCommit(t, n, t.events[n].s);
    }
  }

  lemma HistoryStarts(t: Trace)
    ensures History(t, 0)
  {
    assert t.events[..0] == [];
    assert State(t, 0) == System(t.init, map[], []);
    hide State;
  }

  lemma HistoryStep(t: Trace, n: nat, next: nat)
    requires next == n + 1 <= |t.events| && History(t, n)
    ensures History(t, next)
  {
    hide State, LiveFrom, Renamed;
    forall s | s in State(t, next).sessions ensures exists b :: LiveFrom(t, s, b, next) {
      var b := LiveKeeps(t, s, n);
    }
    forall i | 0 <= i < |State(t, next).commits| ensures Renamed(t, i, next) {
      CommitKeepsHistory(t, i, n);
    }
  }

  lemma {:induction false} RunHistory(t: Trace, n: nat)
    requires n <= |t.events|
    ensures History(t, n)
  {
    hide History;
    if n == 0 {
      HistoryStarts(t);
    } else {
      RunHistory(t, n - 1);
      HistoryStep(t, n - 1, n);
    }
  }

  /** Uploads never mix: after any interleaving, every path that is not a
      temporary name holds its initial bytes, or, when some upload was renamed
      to it, the checked bytes of the last such upload. Those bytes are the
      contents of one session: of exactly the chunks accepted from it since it
      began, in order, only the last of which may finish, and which either
      finishes or was followed by the end of that session's stream. */
  lemma NeverMixed(t: Trace, path: string)
    requires AllowedRun(t.staging, t.digest, System(t.init, map[], []), t.events) && !TempName(path)
    ensures var sys := State(t, |t.events|);
            var i := LastTo(sys.commits, path);
            if i < 0 then Lookup(sys.fs, path) == Lookup(t.init, path)
            else
              && CommitOk(t.staging, t.digest, sys.commits[i])
              && exists b, r :: RenamedAt(t, i, |t.events|, b, r)
                                && Lookup(sys.fs, path) == Some(Content(Heard(t, sys.commits[i].session, b, r)))
  {
    hide TempName, AllowedRun, Content, CommitOk, Lookup, Run;
    var n := |t.events|;
    assert t.events[..n] == t.events;
    DestinationsHold(t.staging, t.digest, t.init, t.events, path);
    RunHistory(t, n);
    var i := LastTo(State(t, n).commits, path);
    if i >= 0 {
      assert Renamed(t, i, n);
      var b, r :| RenamedAt(t, i, n, b, r);
      assert State(t, n).commits[i].chunks == Heard(t, State(t, n).commits[i].session, b, r);
    }
  }
}
