/** Where the agent keeps the staged artifacts of each project. */
module StagingPaths {
  import opened Text
  import opened Paths
  import opened Identifiers

  predicate AlphaNum(c: char) {
    'a' <= c <= 'z' || 'A' <= c <= 'Z' || '0' <= c <= '9'
  }

  /** Names the agent accepts for projects and containers. */
  predicate ValidName(v: string) {
    && TrimSpace(v) != "" && v != "" && AlphaNum(v[0])
    && forall i :: 1 <= i < |v| ==> AlphaNum(v[i]) || v[i] in {'_', '.', '-'}
  }

  function ProjectRoot(staging: string, project: string): Option<string> {
    if ValidName(project) then Some(JoinPaths([staging, project])) else None
  }

  datatype Staged = Staged(identifier: string, path: string)

  function Resolve(staging: string, project: string, identifier: string): Option<Staged> {
    match (ProjectRoot(staging, project), NormalizeIdentifier(identifier))
    case (Some(root), Ok(normalized)) =>
      var resolved := JoinPaths([root] + Split(normalized, SEP));
      (match Rel(root, resolved)
       case None => None
       case Some(rel) => if rel == ".." || HasPrefix(rel, "../") then None else Some(Staged(normalized, resolved)))
    case _ => None
  }

  lemma ValidNamePlain(v: string)
    requires ValidName(v)
    ensures Plain(v)
  {
    assert forall i :: 0 <= i < |v| ==> AlphaNum(v[i]) || v[i] in {'_', '.', '-'};
  }

  function RootSegs(staging: string, project: string): seq<string> {
    Segs(staging) + [project]
  }

  lemma RootForm(staging: string, project: string)
    requires ValidName(project)
    ensures JoinPaths([staging, project]) == Render(Rooted(staging), RootSegs(staging, project))
    ensures Cleaned(Rooted(staging), RootSegs(staging, project))
  {
    ValidNamePlain(project);
    SplitParts(staging, SEP);
    CleanSegsCleaned(Rooted(staging), Split(staging, SEP));
    SplitPlain(project, SEP);
    assert [staging, project][1..] == [project];
    if staging == "" {
      assert Split(staging, SEP) == [""];
      assert [""][..0] == [] && CleanSegs(false, [""]) == [];
      CleanSegsFixed(false, [project]);
      assert project[0] in project;
      assert Clean(project) == project;
    } else {
      var p := staging + [SEP] + project;
      assert Join([staging, project], SEP) == p && Rooted(p) == Rooted(staging);
      SplitConcat(staging, SEP, project);
      CleanSegsAppend(Rooted(staging), Split(staging, SEP), [project]);
    }
  }

  /** The path of an accepted artifact, as text. */
  function ArtifactPath(staging: string, project: string, normalized: string): string {
    JoinPaths([staging, project]) + "/" + normalized
  }

  lemma ResolveForm(staging: string, project: string, normalized: string)
    requires ValidName(project) && Proper(normalized)
    ensures var root := JoinPaths([staging, project]);
            && JoinPaths([root] + Split(normalized, SEP)) == ArtifactPath(staging, project, normalized)
            && Rel(root, ArtifactPath(staging, project, normalized)) == Some(normalized)
  {
    hide ValidName, Split;
    var rooted, dir, segs := Rooted(staging), RootSegs(staging, project), Split(normalized, SEP);
    RootForm(staging, project);
    JoinSplit(normalized, SEP);
    JoinBelow(rooted, dir, segs);
    RenderBelow(rooted, dir, segs);
    RelBelow(rooted, dir, segs);
  }

  /** Every accepted pair resolves strictly below its project's directory, so
      the escape check after cleaning never rejects anything. */
  lemma ResolveTotal(staging: string, project: string, identifier: string)
    ensures Resolve(staging, project, identifier) ==
              if ValidName(project) && NormalizeIdentifier(identifier).Ok? then
                var n := NormalizeIdentifier(identifier).value;
                Some(Staged(n, ArtifactPath(staging, project, n)))
              else None
  {
    hide ValidName, NormalizeIdentifier, Split;
    if ValidName(project) && NormalizeIdentifier(identifier).Ok? {
      var n := NormalizeIdentifier(identifier).value;
      NormalizedProper(identifier);
      ResolveForm(staging, project, n);
      ProperClean(n);
    }
  }

  predicate Below(root: string, path: string) {
    HasPrefix(path, root + "/")
  }

  /** Everything of a root's parent up to the last segment. */
  function Stem(staging: string): string {
    if Segs(staging) == [] then (if Rooted(staging) then "/" else "") else Render(Rooted(staging), Segs(staging)) + "/"
  }

  lemma RootStem(staging: string, project: string)
    requires ValidName(project)
    ensures JoinPaths([staging, project]) == Stem(staging) + project
  {
    RootForm(staging, project);
    if Segs(staging) != [] {
      RenderBelow(Rooted(staging), Segs(staging), [project]);
    } else {
      assert RootSegs(staging, project) == [project];
    }
  }

  /** The trees of two projects have nothing in common. */
  lemma TreesDisjoint(staging: string, p: string, q: string, path: string)
    requires ValidName(p) && ValidName(q)
    requires Below(JoinPaths([staging, p]), path) && Below(JoinPaths([staging, q]), path)
    ensures p == q
  {
    RootStem(staging, p);
    RootStem(staging, q);
    ValidNamePlain(p);
    ValidNamePlain(q);
    SamePart(Stem(staging), p, q, path);
  }

  lemma SamePart(stem: string, p: string, q: string, path: string)
    requires SEP !in p && SEP !in q
    requires HasPrefix(path, stem + p + "/") && HasPrefix(path, stem + q + "/")
    ensures p == q
  {
    var n := |stem|;
    assert path[n + |p|] == (stem + p + "/")[n + |p|] == SEP;
    assert path[n + |q|] == (stem + q + "/")[n + |q|] == SEP;
    assert forall i :: 0 <= i < |p| ==> p[i] == (stem + p + "/")[n + i] == path[n + i];
    assert forall i :: 0 <= i < |q| ==> q[i] == (stem + q + "/")[n + i] == path[n + i];
    assert |p| == |q|;
  }

  newtype byte = x: int | 0 <= x < 256

  type Bytes = seq<byte>

  type FileSystem = map<string, Bytes>

  /** Removing a directory tree. */
  function RemoveAll(fs: FileSystem, root: string): FileSystem {
    map p | p in fs && p != root && !Below(root, p) :: fs[p]
  }

  /** Deleting a project's staging removes all of its artifacts and leaves
      every artifact of every other project. */
  lemma DeleteStaging(fs: FileSystem, staging: string, project: string, other: string, identifier: string)
    requires ValidName(project) && Resolve(staging, other, identifier).Some?
    ensures var path := Resolve(staging, other, identifier).value.path;
            var after := RemoveAll(fs, JoinPaths([staging, project]));
            && (other == project ==> path !in after)
            && (other != project ==> (path in after <==> path in fs) && (path in fs ==> after[path] == fs[path]))
  {
    hide ValidName, NormalizeIdentifier, Resolve;
    ResolveTotal(staging, other, identifier);
    var path := Resolve(staging, other, identifier).value.path;
    var root := JoinPaths([staging, project]);
    var mine := JoinPaths([staging, other]);
    assert path == mine + "/" + NormalizeIdentifier(identifier).value;
    assert Below(mine, path);
    if other != project {
      if Below(root, path) {
        TreesDisjoint(staging, project, other, path);
      }
      RootNotArtifact(staging, project, other, path);
    }
  }

  lemma StemApart(stem: string, project: string, other: string, path: string)
    requires SEP !in project && HasPrefix(path, stem + other + "/")
    ensures path != stem + project
  {
    var n, mine, root := |stem|, stem + other + "/", stem + project;
    assert path[n + |other|] == mine[n + |other|] == SEP;
    assert forall i :: 0 <= i < |project| ==> root[n + i] == project[i] && project[i] in project;
  }

  lemma RootNotArtifact(staging: string, project: string, other: string, path: string)
    requires ValidName(project) && ValidName(other) && Below(JoinPaths([staging, other]), path)
    ensures path != JoinPaths([staging, project])
  {
    hide ValidName, Stem, JoinPaths;
    RootStem(staging, project);
    RootStem(staging, other);
    ValidNamePlain(project);
    StemApart(Stem(staging), project, other, path);
  }
}
