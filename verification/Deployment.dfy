/** Deploying the artifacts of a configuration: which ones it asks for, and what
    the agent serves afterwards. */
module Deployment {
  import opened Text
  import opened Paths
  import opened PercentEncoding
  import opened Identifiers
  import opened StagingPaths
  import opened ArtifactServer
  import opened ArtifactClient
  import opened ArtifactPlan

  // ----- the artifacts of a configuration -----

  const DOCKERFILE := "dockerfile"
  const AUTH := "auth"
  const PUB_KEY := "pub_key"

  /** The last element of a slash-separated path. */
  function Base(p: string): string {
    var t := TrimRight(p, {SEP});
    if p == "" then "." else if t == "" then "/" else var parts := Split(t, SEP); parts[|parts| - 1]
  }

  /** The identifier of the Dockerfile at a path, in either slash style. */
  function DockerfileIdentifier(p: string): Option<string> {
    var name := Base(ReplaceAll(p, '\\', "/"));
    if name == "." || name == "/" || TrimSpace(name) == "" then None
    else match ResourceIdentifier(DOCKERFILE, name) case Ok(id) => Some(id) case Err(_) => None
  }

  /** A default source: absent, unusable, or a file that may still fail to read. */
  datatype Source = Absent | Unusable | Present(data: Option<Bytes>)

  /** The parts of a configuration that name artifacts. */
  datatype Config = Config(
    dockerfile: Option<string>, resolvable: bool, dockerfileData: Option<Bytes>, auth: Source, authorizedKeys: Source)

  function CollectDockerfile(c: Config): Option<seq<Required>> {
    match c.dockerfile
    case None => Some([])
    case Some(p) =>
      if TrimSpace(p) == "" || DockerfileIdentifier(p).None? || !c.resolvable then None
      else Some([Required.Required(DockerfileIdentifier(p).value, c.dockerfileData)])
  }

  function CollectDefault(kind: string, source: Source): Option<seq<Required>> {
    match source
    case Absent => Some([])
    case Unusable => None
    case Present(data) =>
      match ResourceIdentifier(kind, kind) case Ok(id) => Some([Required.Required(id, data)]) case Err(_) => None
  }

  function Collectors(c: Config): seq<Option<seq<Required>>> {
    [CollectDockerfile(c), CollectDefault(AUTH, c.auth), CollectDefault(PUB_KEY, c.authorizedKeys)]
  }

  lemma BaseFacts(p: string)
    requires IsBytes(p)
    ensures IsBytes(Base(p)) && Base(p) != ""
  {
    var t := TrimRight(p, {SEP});
    TrimRightPrefix(p, {SEP});
    if p != "" && t != "" {
      SplitBytes(t);
      var parts := Split(t, SEP);
      if parts[|parts| - 1] == "" {
        JoinSplit(t, SEP);
        LastOfJoin(parts);
      }
    }
  }

  /** A joined path whose last part is empty ends in a slash, or is empty. */
  lemma {:induction false} LastOfJoin(parts: seq<string>)
    requires parts != [] && parts[|parts| - 1] == ""
    ensures var j := Join(parts, SEP); j == "" || j[|j| - 1] == SEP
  {
    if |parts| > 1 {
      LastOfJoin(parts[1..]);
    }
  }

  lemma {:induction false} ReplaceBytes(s: string, c: char, r: string)
    requires IsBytes(s) && IsBytes(r)
    ensures IsBytes(ReplaceAll(s, c, r))
  {
    if s != "" {
      ReplaceBytes(s[1..], c, r);
    }
  }

  lemma KindValid(k: string)
    requires k != "" && Trimmed(k) && SEP !in k && k != "." && k != ".."
    ensures NormalizeKind(k) == Ok(k) && TrimSpace(k) == k
  {
    TrimSpaceFixed(k);
  }

  lemma KindsValid()
    ensures NormalizeKind(DOCKERFILE) == Ok(DOCKERFILE) && NormalizeKind(AUTH) == Ok(AUTH)
        && NormalizeKind(PUB_KEY) == Ok(PUB_KEY)
    ensures IsBytes(AUTH) && IsBytes(PUB_KEY)
    ensures TrimSpace(DOCKERFILE) == DOCKERFILE && TrimSpace(AUTH) == AUTH && TrimSpace(PUB_KEY) == PUB_KEY
  {
    hide TrimSpace, NormalizeKind;
    KindValid(DOCKERFILE);
    KindValid(AUTH);
    KindValid(PUB_KEY);
  }

  /** Every Dockerfile gets an identifier in normal form, ".." included, and
      none of another kind. */
  lemma DockerfileIssued(p: string)
    requires IsBytes(p) && DockerfileIdentifier(p).Some?
    ensures var id := DockerfileIdentifier(p).value;
            && NormalizeIdentifier(id) == Ok(id)
            && Ok(id) != ResourceIdentifier(AUTH, AUTH) && Ok(id) != ResourceIdentifier(PUB_KEY, PUB_KEY)
  {
    var name := Base(ReplaceAll(p, '\\', "/"));
    ReplaceBytes(p, '\\', "/");
    BaseFacts(ReplaceAll(p, '\\', "/"));
    KindsValid();
    hide NormalizeIdentifier, TrimSpace, IsBytes, Base, ReplaceAll, NormalizeKind, ResourceIdentifier;
    ResourceFixedPoint(DOCKERFILE, name);
    ResourceInjective(DOCKERFILE, name, AUTH, AUTH);
    ResourceInjective(DOCKERFILE, name, PUB_KEY, PUB_KEY);
  }

  lemma DefaultIssued()
    ensures var auth, key := ResourceIdentifier(AUTH, AUTH), ResourceIdentifier(PUB_KEY, PUB_KEY);
            && auth.Ok? && key.Ok? && auth != key
            && NormalizeIdentifier(auth.value) == Ok(auth.value) && NormalizeIdentifier(key.value) == Ok(key.value)
  {
    KindsValid();
    hide NormalizeIdentifier, TrimSpace, IsBytes, NormalizeKind;
    assert ResourceIdentifier(AUTH, AUTH).Ok? && ResourceIdentifier(PUB_KEY, PUB_KEY).Ok?;
    hide ResourceIdentifier;
    ResourceFixedPoint(AUTH, AUTH);
    ResourceFixedPoint(PUB_KEY, PUB_KEY);
    ResourceInjective(AUTH, AUTH, PUB_KEY, PUB_KEY);
  }

  /** The identifier of the managed key. */
  function KeyId(): string {
    match ResourceIdentifier(PUB_KEY, PUB_KEY) case Ok(id) => id case Err(_) => ""
  }

  /** At most one artifact, with that identifier. */
  ghost predicate AtMost(rs: seq<Required>, id: string) {
    rs == [] || (|rs| == 1 && rs[0].identifier == id)
  }

  lemma ConcatThree(a: seq<Required>, b: seq<Required>, c: seq<Required>)
    ensures Concat([Some(a), Some(b), Some(c)]) == a + b + c
  {
    var o := [Some(a), Some(b), Some(c)];
    assert o[..2] == [Some(a), Some(b)] && [Some(a), Some(b)][..1] == [Some(a)] && [Some(a)][..0] == [];
    assert Concat([Some(a)]) == [] + a;
    assert Concat([Some(a), Some(b)]) == [] + a + b;
    assert [] + a + b + c == a + b + c;
  }

  lemma ThreeDistinct(a: seq<Required>, b: seq<Required>, c: seq<Required>, x: string, y: string, z: string)
    requires AtMost(a, x) && AtMost(b, y) && AtMost(c, z) && x != y && y != z && x != z
    requires NormalizeIdentifier(z) == Ok(z)
    requires a != [] ==> NormalizeIdentifier(x) == Ok(x)
    requires b != [] ==> NormalizeIdentifier(y) == Ok(y)
    ensures CanonicalIds(a + b + c, z)
  {
    hide NormalizeIdentifier;
  }

  lemma OutputsAre(c: Config)
    requires forall i :: 0 <= i < 3 ==> Collectors(c)[i].Some?
    ensures var o := Collectors(c);
            && o == [Some(o[0].value), Some(o[1].value), Some(o[2].value)]
            && (o[0].value == [] || (c.dockerfile.Some? && DockerfileIdentifier(c.dockerfile.value).Some?))
            && AtMost(o[0].value, if o[0].value == [] then "" else DockerfileIdentifier(c.dockerfile.value).value)
            && (ResourceIdentifier(AUTH, AUTH).Ok? ==> AtMost(o[1].value, ResourceIdentifier(AUTH, AUTH).value))
    ensures AtMost(Collectors(c)[2].value, KeyId())
  {
    hide ResourceIdentifier, DockerfileIdentifier, TrimSpace;
  }

  /** Whatever the configuration says, the collected identifiers are distinct
      and canonical: an identifier is never refused as repeated. */
  lemma CollectedCanonical(c: Config)
    requires c.dockerfile.Some? ==> IsBytes(c.dockerfile.value)
    requires forall i :: 0 <= i < 3 ==> Collectors(c)[i].Some?
    ensures CanonicalIds(Concat(Collectors(c)), KeyId())
  {
    DefaultIssued();
    OutputsAre(c);
    assert Ok(KeyId()) == ResourceIdentifier(PUB_KEY, PUB_KEY);
    hide NormalizeIdentifier, ResourceIdentifier, DockerfileIdentifier, IsBytes, Collectors, CanonicalIds, Concat,
        KeyId;
    var o := Collectors(c);
    var auth := ResourceIdentifier(AUTH, AUTH).value;
    ConcatThree(o[0].value, o[1].value, o[2].value);
    if o[0].value != [] {
      DockerfileIssued(c.dockerfile.value);
      ThreeDistinct(o[0].value, o[1].value, o[2].value, DockerfileIdentifier(c.dockerfile.value).value, auth, KeyId());
    } else {
      var other := auth + KeyId() + "x";
      ThreeDistinct(o[0].value, o[1].value, o[2].value, other, auth, KeyId());
    }
  }

  /** Every collector succeeds. */
  ghost predicate Collected(c: Config) {
    forall i :: 0 <= i < 3 ==> Collectors(c)[i].Some?
  }

  /** The artifacts a configuration asks for. */
  ghost function RequiredBy(c: Config): seq<Required>
    requires Collected(c)
  {
    Concat(Collectors(c))
  }

  lemma CanonicalDistinct(required: seq<Required>, keyId: string)
    requires CanonicalIds(required, keyId)
    ensures DistinctRequired(required)
  {
  }

  lemma CollectorCount(c: Config)
    ensures |Collectors(c)| == 3
  {
  }

  // ----- what a configuration means -----

  predicate IsSlash(c: char) {
    c == '/' || c == '\\'
  }

  /** The path is a directory part, a last name without slashes, and slashes. */
  ghost predicate Placed(p: string, dir: string, name: string, tail: string) {
    && p == dir + name + tail && name != ""
    && (dir == "" || IsSlash(dir[|dir| - 1]))
    && (forall i :: 0 <= i < |name| ==> !IsSlash(name[i]))
    && forall i :: 0 <= i < |tail| ==> IsSlash(tail[i])
  }

  /** The last name in a path, in either slash style. */
  ghost predicate LastName(p: string, name: string) {
    exists dir, tail :: Placed(p, dir, name, tail)
  }

  lemma {:induction false} ReplaceSlashes(s: string)
    ensures |ReplaceAll(s, '\\', "/")| == |s|
    ensures forall i :: 0 <= i < |s| ==> ReplaceAll(s, '\\', "/")[i] == if IsSlash(s[i]) then '/' else s[i]
  {
    if s != "" {
      ReplaceSlashes(s[1..]);
    }
  }

  lemma {:induction false} TrimTail(s: string, tail: string)
    requires s != "" && s[|s| - 1] != SEP && forall i :: 0 <= i < |tail| ==> tail[i] == SEP
    ensures TrimRight(s + tail, {SEP}) == s
  {
    if tail == "" {
      assert s + tail == s;
    } else {
      assert (s + tail)[..|s + tail| - 1] == s + tail[..|tail| - 1];
      TrimTail(s, tail[..|tail| - 1]);
    }
  }

  lemma BaseText(dir: string, name: string, tail: string)
    requires name != "" && SEP !in name && (dir == "" || dir[|dir| - 1] == SEP)
    requires forall i :: 0 <= i < |tail| ==> tail[i] == SEP
    ensures Base(dir + name + tail) == name
  {
    assert name[|name| - 1] in name;
    TrimTail(dir + name, tail);
    SplitPlain(name, SEP);
    hide Split, TrimRight;
    if dir == "" {
      assert dir + name == name;
    } else {
      var before := dir[..|dir| - 1];
      assert dir + name == before + [SEP] + name;
      SplitConcat(before, SEP, name);
    }
  }

  /** The base of a path is its last name. */
  lemma BaseOfPlaced(p: string, dir: string, name: string, tail: string)
    requires Placed(p, dir, name, tail)
    ensures Base(ReplaceAll(p, '\\', "/")) == name && SEP !in name
  {
    ReplaceSlashes(p);
    hide Base, ReplaceAll;
    var q, n := ReplaceAll(p, '\\', "/"), |dir| + |name|;
    assert forall i :: 0 <= i < |dir| ==> p[i] == dir[i];
    assert forall i :: 0 <= i < |name| ==> p[|dir| + i] == name[i];
    assert forall i :: 0 <= i < |tail| ==> p[n + i] == tail[i];
    assert q[|dir|..n] == name;
    assert q == q[..|dir|] + name + q[n..];
    BaseText(q[..|dir|], name, q[n..]);
  }

  /** A path that is not all slashes has a last name. */
  lemma {:induction false} FindName(p: string) returns (dir: string, name: string, tail: string)
    requires exists i :: 0 <= i < |p| && !IsSlash(p[i])
    ensures Placed(p, dir, name, tail)
  {
    var last := |p| - 1;
    if IsSlash(p[last]) {
      var i :| 0 <= i < |p| && !IsSlash(p[i]);
      assert p[..last][i] == p[i];
      dir, name, tail := FindName(p[..last]);
      tail := tail + [p[last]];
    } else if last == 0 || IsSlash(p[last - 1]) {
      dir, name, tail := p[..last], [p[last]], "";
      assert dir + name + tail == p;
    } else {
      assert p[..last][last - 1] == p[last - 1];
      var t: string;
      dir, name, t := FindName(p[..last]);
      NoTail(p[..last], dir, name, t);
      name, tail := name + [p[last]], "";
    }
  }

  lemma NoTail(p: string, dir: string, name: string, tail: string)
    requires Placed(p, dir, name, tail)
    ensures tail != "" ==> IsSlash(p[|p| - 1])
  {
    if tail != "" {
      assert p[|p| - 1] == tail[|tail| - 1];
    }
  }

  /** A path has one last name, or none when it is all slashes, and then its
      base is not a file name. */
  lemma LastNameIsBase(p: string, name: string)
    ensures LastName(p, name) <==> name == Base(ReplaceAll(p, '\\', "/")) && exists i :: 0 <= i < |p| && !IsSlash(p[i])
    ensures (forall i :: 0 <= i < |p| ==> IsSlash(p[i])) ==> Base(ReplaceAll(p, '\\', "/")) in {".", "/"}
  {
    if exists i :: 0 <= i < |p| && !IsSlash(p[i]) {
      var dir, n, tail := FindName(p);
      BaseOfPlaced(p, dir, n, tail);
    } else {
      AllSlashes(p);
    }
    if LastName(p, name) {
      var dir, tail :| Placed(p, dir, name, tail);
      BaseOfPlaced(p, dir, name, tail);
      assert p[|dir|] == name[0];
    }
    hide Base, ReplaceAll;
  }

  lemma AllSlashes(p: string)
    requires forall i :: 0 <= i < |p| ==> IsSlash(p[i])
    ensures Base(ReplaceAll(p, '\\', "/")) in {".", "/"}
  {
    ReplaceSlashes(p);
    TrimAll(ReplaceAll(p, '\\', "/"));
  }

  lemma {:induction false} TrimAll(s: string)
    requires forall i :: 0 <= i < |s| ==> s[i] == SEP
    ensures TrimRight(s, {SEP}) == ""
  {
    if s != "" {
      TrimAll(s[..|s| - 1]);
    }
  }

  const AUTH_ID := "resource/auth/auth"
  const KEY_ID := "resource/pub_key/pub_key"

  /** Where a Dockerfile of that name is staged. */
  function DockerfileId(name: string): string {
    if name == ".." then "resource" else "resource/dockerfile/" + Escape(name)
  }

  /** A file name: not blank, and not the directory itself. */
  predicate FileName(name: string) {
    name != "." && TrimSpace(name) != ""
  }

  lemma {:induction false} EscapeSame(s: string)
    requires forall i :: 0 <= i < |s| ==> Unescaped(s[i])
    ensures Escape(s) == s
  {
    if s != "" {
      EscapeSame(s[1..]);
      assert [s[0]] + s[1..] == s;
    }
  }

  lemma SingletonId(kind: string)
    requires NormalizeKind(kind) == Ok(kind) && kind != "" && TrimSpace(kind) == kind && kind != "." && kind != ".."
    requires forall i :: 0 <= i < |kind| ==> Unescaped(kind[i])
    ensures ResourceIdentifier(kind, kind) == Ok("resource" + "/" + kind + "/" + kind)
  {
    hide NormalizeKind, TrimSpace, ResourceIdentifier;
    ResourceForm(kind, kind);
    EscapeSame(kind);
    hide Escape;
  }

  lemma SingletonIds()
    ensures ResourceIdentifier(AUTH, AUTH) == Ok(AUTH_ID) && ResourceIdentifier(PUB_KEY, PUB_KEY) == Ok(KEY_ID)
    ensures KeyId() == KEY_ID
  {
    KindsValid();
    hide NormalizeKind, TrimSpace, ResourceIdentifier;
    SingletonId(AUTH);
    SingletonId(PUB_KEY);
    assert "resource" + "/" + AUTH + "/" + AUTH == AUTH_ID;
    assert "resource" + "/" + PUB_KEY + "/" + PUB_KEY == KEY_ID;
  }

  /** The identifier of a Dockerfile, from its last name. */
  lemma DockerfileExactly(p: string, name: string)
    ensures DockerfileIdentifier(p).Some? ==> exists n :: LastName(p, n) && FileName(n)
    ensures LastName(p, name) ==> (DockerfileIdentifier(p).Some? <==> FileName(name))
    ensures LastName(p, name) && FileName(name) ==> DockerfileIdentifier(p) == Some(DockerfileId(name))
  {
    var base := Base(ReplaceAll(p, '\\', "/"));
    LastNameIsBase(p, name);
    LastNameIsBase(p, base);
    KindsValid();
    hide LastName, Base, ReplaceAll, TrimSpace, NormalizeKind, ResourceIdentifier, Escape;
    if LastName(p, name) {
      NoSlashName(p, name);
      if FileName(name) {
        ResourceForm(DOCKERFILE, name);
        assert NAMESPACE + "/" + DOCKERFILE + "/" == "resource/dockerfile/";
      }
    }
    if base != "." && base != "/" && TrimSpace(base) != "" {
      assert LastName(p, base) && FileName(base);
      ResourceForm(DOCKERFILE, base);
    }
  }

  lemma NoSlashName(p: string, name: string)
    requires LastName(p, name)
    ensures name != "/"
  {
    var dir, tail :| Placed(p, dir, name, tail);
    assert !IsSlash(name[0]);
  }

  /** Everything a deployment needs is there: a Dockerfile, if configured, has a
      file name, a place and contents; default sources are usable, the auth file
      readable; and the managed key is there. */
  ghost predicate Deployable(c: Config, publicKey: Option<Bytes>) {
    && (c.dockerfile.Some? ==>
          && c.resolvable && c.dockerfileData.Some?
          && exists name :: LastName(c.dockerfile.value, name) && FileName(name))
    && c.auth != Unusable && c.auth != Present(None) && c.authorizedKeys != Unusable && publicKey.Some?
  }

  /** What a deployment must serve: the managed key, the auth file, and the
      Dockerfile under its last name. */
  ghost predicate Wants(c: Config, publicKey: Option<Bytes>, id: string, data: Bytes) {
    || (id == "resource/pub_key/pub_key" && publicKey == Some(data))
    || (id == "resource/auth/auth" && c.auth == Present(Some(data)))
    || (c.dockerfile.Some? && c.dockerfileData == Some(data)
        && exists name :: LastName(c.dockerfile.value, name) && FileName(name) && id == DockerfileId(name))
  }

  /** The required artifact is the configured Dockerfile, or a default one. */
  ghost predicate Asked(c: Config, r: Required) {
    || (c.dockerfile.Some? && r.source == c.dockerfileData
        && exists name :: LastName(c.dockerfile.value, name) && FileName(name) && r.identifier == DockerfileId(name))
    || (r.identifier == AUTH_ID && c.auth == Present(r.source))
    || (r.identifier == KEY_ID && c.authorizedKeys == Present(r.source))
  }

  lemma DockerfileAsked(c: Config)
    ensures CollectDockerfile(c).Some? <==>
              (c.dockerfile.Some? ==>
                 c.resolvable && exists name :: LastName(c.dockerfile.value, name) && FileName(name))
    ensures CollectDockerfile(c).Some? ==>
              forall r :: r in CollectDockerfile(c).value <==>
                && c.dockerfile.Some? && r.source == c.dockerfileData
                && exists name ::
                     LastName(c.dockerfile.value, name) && FileName(name) && r.identifier == DockerfileId(name)
  {
    if c.dockerfile.Some? {
      var p := c.dockerfile.value;
      DockerfileExactly(p, "");
      if name :| LastName(p, name) && FileName(name) {
        DockerfileExactly(p, name);
        NotBlankPath(p, name);
      }
      hide TrimSpace, FileName, LastName, DockerfileIdentifier, DockerfileId;
      forall name | LastName(p, name) && FileName(name) ensures DockerfileIdentifier(p) == Some(DockerfileId(name)) {
        DockerfileExactly(p, name);
      }
    }
  }

  lemma NotBlankPath(p: string, name: string)
    requires LastName(p, name) && FileName(name)
    ensures TrimSpace(p) != ""
  {
    var dir, tail :| Placed(p, dir, name, tail);
    BlankText(p);
    BlankText(name);
    hide TrimSpace;
    assert forall i :: 0 <= i < |name| ==> p[|dir| + i] == name[i];
  }

  lemma DefaultAsked(kind: string, id: string, source: Source)
    requires ResourceIdentifier(kind, kind) == Ok(id)
    ensures CollectDefault(kind, source).Some? <==> source != Unusable
    ensures source != Unusable ==>
              forall r :: r in CollectDefault(kind, source).value <==> r.identifier == id && source == Present(r.source)
  {
    hide ResourceIdentifier;
  }

  /** The Dockerfile, if any, has a place and a file name. */
  ghost predicate DockerfileFound(c: Config) {
    c.dockerfile.Some? ==> c.resolvable && exists name :: LastName(c.dockerfile.value, name) && FileName(name)
  }

  lemma CollectedParts(c: Config)
    ensures Collected(c) <==>
              CollectDockerfile(c).Some? && CollectDefault(AUTH, c.auth).Some?
                  && CollectDefault(PUB_KEY, c.authorizedKeys).Some?
  {
    hide CollectDockerfile, CollectDefault;
    var o := Collectors(c);
    assert o[0] == CollectDockerfile(c) && o[1] == CollectDefault(AUTH, c.auth);
    assert o[2] == CollectDefault(PUB_KEY, c.authorizedKeys);
  }

  lemma CollectedExactly(c: Config)
    ensures Collected(c) <==> DockerfileFound(c) && c.auth != Unusable && c.authorizedKeys != Unusable
  {
    hide LastName, FileName, CollectDockerfile, CollectDefault, ResourceIdentifier, Collected, DockerfileId, KeyId;
    SingletonIds();
    CollectedParts(c);
    DefaultAsked(AUTH, AUTH_ID, c.auth);
    DefaultAsked(PUB_KEY, KEY_ID, c.authorizedKeys);
    DockerfileAsked(c);
  }

  lemma RequiredParts(c: Config)
    requires Collected(c)
    ensures CollectDockerfile(c).Some? && CollectDefault(AUTH, c.auth).Some?
        && CollectDefault(PUB_KEY, c.authorizedKeys).Some?
    ensures RequiredBy(c) ==
            CollectDockerfile(c).value + CollectDefault(AUTH, c.auth).value
                + CollectDefault(PUB_KEY, c.authorizedKeys).value
  {
    hide CollectDockerfile, CollectDefault, Concat;
    var o := Collectors(c);
    assert o[0].Some? && o[1].Some? && o[2].Some?;
    assert o == [Some(o[0].value), Some(o[1].value), Some(o[2].value)];
    ConcatThree(o[0].value, o[1].value, o[2].value);
  }

  /** Exactly which artifacts a configuration requires, and when it can tell. */
  lemma RequiredAsked(c: Config)
    ensures Collected(c) <==> DockerfileFound(c) && c.auth != Unusable && c.authorizedKeys != Unusable
    ensures Collected(c) ==> forall r :: r in RequiredBy(c) <==> Asked(c, r)
  {
    hide LastName, FileName, DockerfileId, CollectDockerfile, CollectDefault, ResourceIdentifier, RequiredBy, Collected,
         DockerfileFound;
    CollectedExactly(c);
    if Collected(c) {
      SingletonIds();
      DockerfileAsked(c);
      DefaultAsked(AUTH, AUTH_ID, c.auth);
      DefaultAsked(PUB_KEY, KEY_ID, c.authorizedKeys);
      RequiredParts(c);
    }
  }

  lemma {:induction false} PlanMembers(required: seq<Required>, keyId: string, kinds: Bytes -> string,
      digest: Bytes -> string, d: Candidate)
    requires Readable(required, keyId)
    ensures d in Plan(required, keyId, kinds, digest) <==>
              exists i :: 0 <= i < |required| && required[i].identifier != keyId
                          && required[i].source.Some?
                          && d == Describe(required[i].identifier, required[i].source.value, kinds, digest)
  {
    if required != [] {
      var init := required[..|required| - 1];
      assert forall i :: 0 <= i < |init| ==> init[i] == required[i];
      PlanMembers(init, keyId, kinds, digest, d);
    }
  }

  lemma ReadableAsked(c: Config, publicKey: Option<Bytes>)
    requires Collected(c)
    ensures Readable(RequiredBy(c), KEY_ID) && publicKey.Some? <==> Deployable(c, publicKey)
  {
    RequiredAsked(c);
    hide LastName, FileName, DockerfileId, Collected, RequiredBy;
    var rs := RequiredBy(c);
    if Deployable(c, publicKey) {
      forall i | 0 <= i < |rs| && rs[i].identifier != KEY_ID ensures rs[i].source.Some? {
        assert rs[i] in rs && Asked(c, rs[i]);
      }
    }
    if Readable(rs, KEY_ID) && publicKey.Some? {
      if c.dockerfile.Some? {
        var name :| LastName(c.dockerfile.value, name) && FileName(name);
        var r := Required.Required(DockerfileId(name), c.dockerfileData);
        assert Asked(c, r) && r in rs;
        NotKey(name);
      }
      if c.auth.Present? {
        var r := Required.Required(AUTH_ID, c.auth.data);
        assert Asked(c, r) && r in rs;
      }
    }
  }

  lemma NotKey(name: string)
    ensures DockerfileId(name) != KEY_ID
  {
    assert KEY_ID[9] == 'p';
    if name != ".." {
      assert DockerfileId(name)[9] == "resource/dockerfile/"[9] == 'd';
    }
  }

  /** The plan has exactly the wanted artifacts. */
  ghost predicate Covers(plan: seq<Candidate>, c: Config, publicKey: Option<Bytes>) {
    forall id, data ::
      (exists i :: 0 <= i < |plan| && plan[i].descriptor.identifier == id && plan[i].data == data) <==>
          Wants(c, publicKey, id, data)
  }

  lemma PlanCovers(c: Config, publicKey: Option<Bytes>, kinds: Bytes -> string, digest: Bytes -> string)
    requires Collected(c) && Readable(RequiredBy(c), KEY_ID) && publicKey.Some?
    ensures var key := Describe(KEY_ID, publicKey.value, kinds, digest);
            Covers(Plan(RequiredBy(c), KEY_ID, kinds, digest) + [key], c, publicKey)
  {
    RequiredAsked(c);
    hide LastName, FileName, DockerfileId, Collected, RequiredBy;
    var rs := RequiredBy(c);
    var front := Plan(rs, KEY_ID, kinds, digest);
    var plan := front + [Describe(KEY_ID, publicKey.value, kinds, digest)];
    forall id, data
      ensures (exists i :: 0 <= i < |plan| && plan[i].descriptor.identifier == id && plan[i].data == data) <==>
          Wants(c, publicKey, id, data)
    {
      if i :| 0 <= i < |plan| && plan[i].descriptor.identifier == id && plan[i].data == data {
        PlannedWanted(c, publicKey, rs, kinds, digest, plan, i);
      }
      if Wants(c, publicKey, id, data) {
        WantedPlanned(c, publicKey, rs, kinds, digest, plan, id, data);
      }
    }
  }

  lemma PlannedWanted(c: Config, publicKey: Option<Bytes>, rs: seq<Required>, kinds: Bytes -> string,
      digest: Bytes -> string, plan: seq<Candidate>, i: nat)
    requires Readable(rs, KEY_ID) && publicKey.Some? && (forall r :: r in rs <==> Asked(c, r)) && i < |plan|
    requires plan == Plan(rs, KEY_ID, kinds, digest) + [Describe(KEY_ID, publicKey.value, kinds, digest)]
    ensures Wants(c, publicKey, plan[i].descriptor.identifier, plan[i].data)
  {
    hide LastName, FileName, DockerfileId, Plan;
    if i < |plan| - 1 {
      var d := plan[i];
      assert d in Plan(rs, KEY_ID, kinds, digest);
      PlanMembers(rs, KEY_ID, kinds, digest, d);
      var k :| 0 <= k < |rs| && rs[k].identifier != KEY_ID
               && rs[k].source.Some? && d == Describe(rs[k].identifier, rs[k].source.value, kinds, digest);
      assert rs[k] in rs && Asked(c, rs[k]);
    }
  }

  lemma WantedPlanned(c: Config, publicKey: Option<Bytes>, rs: seq<Required>, kinds: Bytes -> string,
      digest: Bytes -> string, plan: seq<Candidate>, id: string, data: Bytes)
    requires Readable(rs, KEY_ID) && publicKey.Some? && (forall r :: r in rs <==> Asked(c, r))
    requires plan == Plan(rs, KEY_ID, kinds, digest) + [Describe(KEY_ID, publicKey.value, kinds, digest)]
    requires Wants(c, publicKey, id, data)
    ensures exists i :: 0 <= i < |plan| && plan[i].descriptor.identifier == id && plan[i].data == data
  {
    var front := Plan(rs, KEY_ID, kinds, digest);
    if id == KEY_ID && publicKey == Some(data) {
      assert plan[|plan| - 1] == Describe(KEY_ID, data, kinds, digest);
    } else {
      assert id != KEY_ID by {
        WantedNotKey(c, publicKey, id, data);
      }
      hide LastName, FileName, DockerfileId, Plan;
      var r, d := Required.Required(id, Some(data)), Describe(id, data, kinds, digest);
      assert Asked(c, r) && r in rs;
      var k :| 0 <= k < |rs| && rs[k] == r;
      PlanMembers(rs, KEY_ID, kinds, digest, d);
      assert d in front;
      var i :| 0 <= i < |front| && front[i] == d;
      assert plan[i] == d;
    }
  }

  lemma WantedNotKey(c: Config, publicKey: Option<Bytes>, id: string, data: Bytes)
    requires Wants(c, publicKey, id, data) && !(id == KEY_ID && publicKey == Some(data))
    ensures id != KEY_ID
  {
    assert AUTH_ID[9] == 'a' && KEY_ID[9] == 'p';
    if name :| c.dockerfile.Some? && LastName(c.dockerfile.value, name) && FileName(name) && id == DockerfileId(name) {
      NotKey(name);
    }
  }

  /** Planning succeeds exactly when everything needed is there. The plan has
      exactly the wanted artifacts, and is fit for staging. */
  method PlanDeployment(c: Config, publicKey: Option<Bytes>, kinds: Bytes -> string, digest: Bytes -> string)
    returns (plan: Option<seq<Candidate>>)
    requires c.dockerfile.Some? ==> IsBytes(c.dockerfile.value)
    ensures plan.Some? <==> Deployable(c, publicKey)
    ensures plan.Some? ==> Planned(plan.value, digest) && plan.value != [] && Covers(plan.value, c, publicKey)
  {
    CollectorCount(c);
    SingletonIds();
    RequiredAsked(c);
    hide Collectors, KeyId, IsBytes, Concat, Planned, CanonicalIds, DistinctRequired, Readable, Plan, Describe, Asked,
        LastName, FileName, Covers;
    var required := RunCollectors(Collectors(c));
    if Collected(c) {
      CollectedCanonical(c);
      CanonicalDistinct(RequiredBy(c), KeyId());
      ReadableAsked(c, publicKey);
    }
    if required.None? {
      return None;
    }
    plan := CollectCandidates(required.value, KeyId(), publicKey, kinds, digest);
    if plan.Some? {
      PlanCovers(c, publicKey, kinds, digest);
    }
  }

  /** A path that some wanted artifact is staged at. */
  ghost predicate StagedAt(path: string, staging: string, project: string, c: Config, publicKey: Option<Bytes>) {
    exists id, data :: Wants(c, publicKey, id, data) && path == ArtifactPath(staging, project, id)
  }

  lemma DestinationWanted(path: string, staging: string, project: string, plan: seq<Candidate>, c: Config,
      publicKey: Option<Bytes>)
    requires Covers(plan, c, publicKey)
    ensures IsDestination(path, staging, project, plan) <==> StagedAt(path, staging, project, c, publicKey)
  {
    hide Wants, ArtifactPath;
    if i :| 0 <= i < |plan| && path == PathOf(staging, project, plan[i].descriptor.identifier) {
      assert Wants(c, publicKey, plan[i].descriptor.identifier, plan[i].data);
    }
    if id, data :| Wants(c, publicKey, id, data) && path == ArtifactPath(staging, project, id) {
      var i :| 0 <= i < |plan| && plan[i].descriptor.identifier == id && plan[i].data == data;
      assert path == PathOf(staging, project, plan[i].descriptor.identifier);
    }
  }

  /** The temporary names clash with no file and nothing to be staged. */
  ghost predicate FreshFor(temps: nat -> string, fs: FileSystem, staging: string, project: string, c: Config,
      publicKey: Option<Bytes>) {
    forall k :: temps(k) !in fs && !StagedAt(temps(k), staging, project, c, publicKey)
  }

  /** Outside what is staged the file systems agree. */
  ghost predicate OnlyStaged(before: FileSystem, after: FileSystem, staging: string, project: string, c: Config,
      publicKey: Option<Bytes>) {
    forall p :: !StagedAt(p, staging, project, c, publicKey) ==>
      (p in after <==> p in before) && (p in before ==> after[p] == before[p])
  }

  lemma PlanDestinations(temps: nat -> string, before: FileSystem, after: FileSystem, staging: string, project: string,
      plan: seq<Candidate>, c: Config, publicKey: Option<Bytes>)
    requires Covers(plan, c, publicKey)
    ensures FreshFor(temps, before, staging, project, c, publicKey) ==>
        FreshNames(temps, before, staging, project, plan)
    ensures OnlyDestinations(before, after, staging, project, plan) ==>
        OnlyStaged(before, after, staging, project, c, publicKey)
  {
    hide Covers;
    forall path
      ensures IsDestination(path, staging, project, plan) <==> StagedAt(path, staging, project, c, publicKey)
    {
      DestinationWanted(path, staging, project, plan, c, publicKey);
    }
    hide IsDestination, StagedAt;
  }

  /** Deploying the artifacts of a configuration, end to end. It reaches the
      agent exactly when everything needed is there. When staging succeeds the
      agent serves every wanted artifact byte for byte, and staging again uploads
      nothing; when nothing fails it succeeds; and only the places of wanted
      artifacts are ever written. */
  method Deploy(
    server: Server, project: string, c: Config, publicKey: Option<Bytes>, kinds: Bytes -> string, size: nat, id: string,
    temps: nat -> string, lost: nat -> Option<nat>, faults: nat -> Faults)
    returns (planned: bool, ok: bool, served: seq<Option<Bytes>>, again: bool, uploads: nat)
    requires size >= 1 && Injective(server.digest) && (c.dockerfile.Some? ==> IsBytes(c.dockerfile.value))
    modifies server`fs
    ensures planned <==> Deployable(c, publicKey)
    ensures !planned ==> !ok && server.fs == old(server.fs)
    ensures ok ==>
              && again && uploads == 0
              && forall id, data :: Wants(c, publicKey, id, data) ==>
                  Fetch(server.fs, server.staging, project, id) == Some(data)
    ensures planned && ValidName(project) && Calm(lost, faults) ==>
              FreshFor(temps, old(server.fs), server.staging, project, c, publicKey) ==> ok
    ensures OnlyStaged(old(server.fs), server.fs, server.staging, project, c, publicKey)
  {
    hide Injective, Fetch, IsBytes, Planned, Covers, Deployable, Wants, ValidName, Calm, FreshNames, FreshFor, StagedAt,
         OnlyDestinations;
    served, again, uploads := [], false, 0;
    var plan := PlanDeployment(c, publicKey, kinds, server.digest);
    if plan.None? {
      return false, false, served, again, uploads;
    }
    planned := true;
    ghost var before := server.fs;
    PlanDestinations(temps, before, before, server.staging, project, plan.value, c, publicKey);
    ok, served, again, uploads := StageThenServe(server, project, plan.value, size, id, temps, lost, faults);
    PlanDestinations(temps, before, server.fs, server.staging, project, plan.value, c, publicKey);
    hide OnlyStaged;
    if ok {
      forall wanted, data | Wants(c, publicKey, wanted, data)
        ensures Fetch(server.fs, server.staging, project, wanted) == Some(data)
      {
        var i := CoveredAt(plan.value, c, publicKey, wanted, data);
      }
    }
  }

  lemma CoveredAt(plan: seq<Candidate>, c: Config, publicKey: Option<Bytes>, id: string, data: Bytes) returns (i: nat)
    requires Covers(plan, c, publicKey) && Wants(c, publicKey, id, data)
    ensures i < |plan| && plan[i].descriptor.identifier == id && plan[i].data == data
  {
    hide Wants;
    i :| 0 <= i < |plan| && plan[i].descriptor.identifier == id && plan[i].data == data;
  }
}
