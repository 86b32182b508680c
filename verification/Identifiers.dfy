/** Artifact identifiers: the canonical form of one logical resource, and the
    normalisation that every identifier passes through. */
module Identifiers {
  import opened Text
  import opened Paths
  import opened PathLaws
  import opened PercentEncoding

  const NAMESPACE := "resource"

  datatype IdError =
    | Required | KindRequired | KindInvalid | KindSeparator | NameRequired
    | NotThreeParts | BadEscape | NotRelative | EscapesStaging

  datatype Result = Ok(value: string) | Err(error: IdError)

  function NormalizeKind(kind: string): Result {
    var k := TrimSpace(kind);
    if k == "" then Err(KindRequired)
    else if k == "." || k == ".." then Err(KindInvalid)
    else if SEP in k then Err(KindSeparator)
    else Ok(k)
  }

  function ResourceIdentifier(kind: string, name: string): Result {
    match NormalizeKind(kind)
    case Err(e) => Err(e)
    case Ok(k) => if TrimSpace(name) == "" then Err(NameRequired) else Ok(JoinPaths([NAMESPACE, k, Escape(name)]))
  }

  /** An identifier that claims the resource namespace. */
  function NormalizeResource(id: string): Result {
    var parts := Split(id, SEP);
    if |parts| != 3 then Err(NotThreeParts)
    else
      match NormalizeKind(parts[1])
      case Err(e) => Err(e)
      case Ok(k) =>
        match Unescape(parts[2])
        case None => Err(BadEscape)
        case Some(name) => if name == "" then Err(NameRequired) else ResourceIdentifier(k, name)
  }

  function NormalizePlain(id: string): Result {
    var p := Clean(id);
    if p == "." then Err(Required)
    else if HasPrefix(p, "/") then Err(NotRelative)
    else if p == ".." || HasPrefix(p, "../") then Err(EscapesStaging)
    else Ok(p)
  }

  predicate InNamespace(id: string) {
    HasPrefix(id, NAMESPACE + "/")
  }

  function NormalizeIdentifier(identifier: string): Result {
    var id := TrimSpace(identifier);
    if id == "" then Err(Required)
    else if InNamespace(id) then NormalizeResource(id)
    else NormalizePlain(id)
  }

  /** The canonical spelling of a resource. */
  function Canonical(kind: string, name: string): string {
    NAMESPACE + "/" + kind + "/" + Escape(name)
  }

  // ----- what resource identifiers look like -----

  lemma KindFacts(kind: string)
    requires NormalizeKind(kind).Ok?
    ensures var k := NormalizeKind(kind).value; Plain(k) && TrimSpace(k) == k && NormalizeKind(k) == Ok(k)
  {
    TrimSpaceFixed(kind);
  }

  /** Exactly which kinds are valid. */
  lemma KindExactly(kind: string)
    ensures NormalizeKind(kind) == Ok(TrimSpace(kind)) <==> Plain(TrimSpace(kind))
    ensures NormalizeKind(kind).Ok? ==> Plain(TrimSpace(kind))
  {
    hide TrimSpace;
  }

  lemma JoinTwo(a: string, b: string)
    ensures Join([a, b], SEP) == a + "/" + b
  {
    assert [a, b][1..] == [b];
  }

  lemma JoinThree(a: string, b: string, c: string)
    ensures Join([a, b, c], SEP) == a + "/" + b + "/" + c
  {
    assert [a, b, c][1..] == [b, c] && [b, c][1..] == [c];
    assert Join([b, c], SEP) == b + "/" + c;
    assert a + [SEP] + (b + "/" + c) == a + "/" + b + "/" + c;
  }

  lemma JoinSegs(segs: seq<string>)
    requires segs != [] && segs[0] != ""
    ensures JoinPaths(segs) == Clean(Join(segs, SEP))
  {
  }

  /** Three proper parts stay as they are; a last part "." or ".." collapses. */
  lemma CleanThree(k: string, e: string)
    requires Plain(k) && e != "" && SEP !in e
    ensures Clean(NAMESPACE + "/" + k + "/" + e) ==
              if e == "." then NAMESPACE + "/" + k else if e == ".." then NAMESPACE else NAMESPACE + "/" + k + "/" + e
  {
    var p := NAMESPACE + "/" + k + "/" + e;
    JoinThree(NAMESPACE, k, e);
    SplitJoin([NAMESPACE, k, e], SEP);
    assert !Rooted(p);
    assert [NAMESPACE, k, e][..2] == [NAMESPACE, k];
    CleanSegsFixed(false, [NAMESPACE, k]);
    assert Segs(p) == Step(false, [NAMESPACE, k], e);
    JoinTwo(NAMESPACE, k);
    assert [NAMESPACE, k][..1] == [NAMESPACE] && [NAMESPACE, k] + [e] == [NAMESPACE, k, e];
  }

  /** Exactly which identifier a resource gets. */
  lemma ResourceForm(kind: string, name: string)
    requires NormalizeKind(kind).Ok? && TrimSpace(name) != ""
    ensures var k := NormalizeKind(kind).value;
            ResourceIdentifier(kind, name) ==
              Ok(if name == "." then NAMESPACE + "/" + k else if name == ".." then NAMESPACE else Canonical(k, name))
  {
    var k := NormalizeKind(kind).value;
    KindFacts(kind);
    EscapeDots(name);
    assert name != "";
    JoinThree(NAMESPACE, k, Escape(name));
    JoinSegs([NAMESPACE, k, Escape(name)]);
    CleanThree(k, Escape(name));
  }

  lemma CanonicalParts(k: string, name: string)
    requires Plain(k) && name != ""
    ensures Split(Canonical(k, name), SEP) == [NAMESPACE, k, Escape(name)]
    ensures InNamespace(Canonical(k, name))
    ensures TrimSpace(Canonical(k, name)) == Canonical(k, name)
  {
    var e := Escape(name);
    EscapeDots(name);
    assert e[|e| - 1] in e;
    hide Split, TrimSpace, Escape;
    ThreeParts(k, e);
    var rest := k + "/" + e;
    assert rest[|rest| - 1] == e[|e| - 1];
    NamespaceText(rest);
    hide Plain, InNamespace;
    BelowNamespace(k, e);
  }

  lemma BelowNamespace(k: string, e: string)
    ensures NAMESPACE + "/" + (k + "/" + e) == NAMESPACE + "/" + k + "/" + e
  {
  }

  lemma ThreeParts(k: string, e: string)
    requires Plain(k) && SEP !in e
    ensures Split(NAMESPACE + "/" + k + "/" + e, SEP) == [NAMESPACE, k, e]
  {
    assert SEP !in NAMESPACE;
    hide Split, Join;
    JoinThree(NAMESPACE, k, e);
    SplitJoin([NAMESPACE, k, e], SEP);
  }

  /** The canonical form decodes back to what it was made from and is left
      alone by normalisation. */
  lemma CanonicalRoundTrip(kind: string, name: string)
    requires NormalizeKind(kind).Ok? && TrimSpace(name) != "" && IsBytes(name) && name != "." && name != ".."
    ensures var k := NormalizeKind(kind).value;
            var id := Canonical(k, name);
            && ResourceIdentifier(kind, name) == Ok(id)
            && NormalizeIdentifier(id) == Ok(id)
            && Split(id, SEP) == [NAMESPACE, k, Escape(name)]
            && Unescape(Split(id, SEP)[2]) == Some(name)
  {
    var k := NormalizeKind(kind).value;
    KindFacts(kind);
    assert name != "";
    ResourceForm(kind, name);
    ResourceForm(k, name);
    CanonicalParts(k, name);
    UnescapeEscape(name);
  }

  lemma DotCollapses(k: string)
    requires Plain(k) && TrimSpace(k) == k
    ensures NormalizeIdentifier(NAMESPACE + "/" + k) == Err(NotThreeParts)
  {
    var id := NAMESPACE + "/" + k;
    JoinTwo(NAMESPACE, k);
    SplitJoin([NAMESPACE, k], SEP);
    TrimSpaceFixed(k);
    NamespaceText(k);
    assert |Split(id, SEP)| == 2;
    hide Split, TrimSpace, Plain;
  }

  /** Text below the namespace that ends without a space is in its trimmed form. */
  lemma NamespaceText(rest: string)
    requires rest != "" && rest[|rest| - 1] !in SPACES
    ensures var id := NAMESPACE + "/" + rest; TrimSpace(id) == id && InNamespace(id) && id != ""
  {
    var id := NAMESPACE + "/" + rest;
    assert id[0] == 'r' && id[|id| - 1] == rest[|rest| - 1];
    TrimSpaceFixed(id);
    hide TrimSpace;
    assert id[..9] == NAMESPACE + "/";
  }

  lemma ProperNormal(p: string)
    requires Proper(p) && Trimmed(p) && !InNamespace(p)
    ensures NormalizeIdentifier(p) == Ok(p)
  {
    TrimSpaceFixed(p);
    ProperClean(p);
    assert Split("", SEP) == [""];
  }

  lemma BareNamespace()
    ensures NormalizeIdentifier(NAMESPACE) == Ok(NAMESPACE)
  {
    hide NormalizeIdentifier;
    ProperJoin([NAMESPACE]);
    ProperNormal(NAMESPACE);
  }

  /** A resource identifier is a fixed point of normalisation exactly when the
      logical name is not ".". */
  lemma ResourceFixedPoint(kind: string, name: string)
    requires NormalizeKind(kind).Ok? && TrimSpace(name) != "" && IsBytes(name)
    ensures var id := ResourceIdentifier(kind, name).value; NormalizeIdentifier(id) == Ok(id) <==> name != "."
  {
    hide NormalizeIdentifier, TrimSpace, ResourceIdentifier, Escape;
    KindFacts(kind);
    ResourceForm(kind, name);
    if name == "." {
      DotCollapses(NormalizeKind(kind).value);
    } else if name == ".." {
      BareNamespace();
    } else {
      CanonicalRoundTrip(kind, name);
    }
  }

  /** Exactly when two resources share an identifier: for the name ".." the kind
      is lost, otherwise kind and name are the same. */
  lemma ResourceInjective(kind: string, name: string, kind': string, name': string)
    requires NormalizeKind(kind).Ok? && TrimSpace(name) != "" && IsBytes(name)
    requires NormalizeKind(kind').Ok? && TrimSpace(name') != "" && IsBytes(name')
    ensures ResourceIdentifier(kind, name) == ResourceIdentifier(kind', name') <==>
              (name == ".." && name' == "..") || (TrimSpace(kind) == TrimSpace(kind') && name == name')
  {
    KindIs(kind);
    KindIs(kind');
    hide NormalizeKind, TrimSpace, ResourceIdentifier, Canonical, IsBytes;
    ResourceForm(kind, name);
    ResourceForm(kind', name');
    KindFacts(kind);
    KindFacts(kind');
    FormInjective(NormalizeKind(kind).value, name, NormalizeKind(kind').value, name');
  }

  lemma KindIs(kind: string)
    requires NormalizeKind(kind).Ok?
    ensures NormalizeKind(kind).value == TrimSpace(kind)
  {
  }

  /** The identifier of a kind and name, dots included. */
  function Form(k: string, name: string): string {
    if name == "." then NAMESPACE + "/" + k else if name == ".." then NAMESPACE else Canonical(k, name)
  }

  lemma FormInjective(k: string, name: string, k': string, name': string)
    requires Plain(k) && Plain(k') && name != "" && name' != "" && IsBytes(name) && IsBytes(name')
    ensures Form(k, name) == Form(k', name') <==> (name == ".." && name' == "..") || (k == k' && name == name')
  {
    FormParts(k, name);
    FormParts(k', name');
    UnescapeEscape(name);
    UnescapeEscape(name');
    hide Form, Escape, Unescape, Split, Plain, IsBytes;
    if Form(k, name) == Form(k', name') {
      var p, q := Split(Form(k, name), SEP), Split(Form(k', name'), SEP);
      assert |p| == 3 ==> p[2] == Escape(name) && q[2] == Escape(name');
      assert |p| >= 2 ==> p[1] == k && q[1] == k';
    }
  }

  lemma FormParts(k: string, name: string)
    requires Plain(k) && name != ""
    ensures Split(Form(k, name), SEP) ==
              if name == "." then [NAMESPACE, k] else if name == ".." then [NAMESPACE] else [NAMESPACE, k, Escape(name)]
  {
    CanonicalParts(k, name);
    JoinTwo(NAMESPACE, k);
    SplitJoin([NAMESPACE, k], SEP);
    SplitPlain(NAMESPACE, SEP);
    hide Canonical, Split, Escape;
  }

  /** The kind and decoded name that an accepted three-part spelling stands for. */
  function Meaning(id: string): Option<(string, string)> {
    var parts := Split(TrimSpace(id), SEP);
    if !InNamespace(TrimSpace(id)) || |parts| != 3 then None
    else
      match (NormalizeKind(parts[1]), Unescape(parts[2]))
      case (Ok(k), Some(name)) => if TrimSpace(name) == "" then None else Some((k, name))
      case _ => None
  }

  lemma {:induction false} UnescapeBytes(s: string)
    requires IsBytes(s)
    ensures Unescape(s).Some? ==> IsBytes(Unescape(s).value)
  {
    if s != "" {
      if s[0] != '%' {
        UnescapeBytes(s[1..]);
      } else if |s| >= 3 {
        UnescapeBytes(s[3..]);
      }
    }
  }

  /** A spelling in the namespace is accepted exactly when it has a meaning, and
      then normalises to the identifier of that meaning. */
  lemma NormalizeMeaning(id: string)
    requires InNamespace(TrimSpace(id))
    ensures NormalizeIdentifier(id).Ok? <==> Meaning(id).Some?
    ensures Meaning(id).Some? ==>
        NormalizeIdentifier(id) == ResourceIdentifier(Meaning(id).value.0, Meaning(id).value.1)
  {
    var t := TrimSpace(id);
    var parts := Split(t, SEP);
    assert t != "";
    assert TrimSpace("") == "";
    if |parts| == 3 && NormalizeKind(parts[1]).Ok? {
      KindFacts(parts[1]);
    }
  }

  /** Exactly when two accepted spellings normalise alike: they mean the same,
      or both mean a resource named "..", whose kind is lost. */
  lemma SpellingsAgree(a: string, b: string)
    requires InNamespace(TrimSpace(a)) && InNamespace(TrimSpace(b)) && IsBytes(a) && IsBytes(b)
    requires Meaning(a).Some? && Meaning(b).Some?
    ensures NormalizeIdentifier(a) == NormalizeIdentifier(b) <==>
              Meaning(a) == Meaning(b) || (Meaning(a).value.1 == ".." && Meaning(b).value.1 == "..")
  {
    hide NormalizeIdentifier, ResourceIdentifier, TrimSpace, IsBytes, Meaning, NormalizeKind;
    NormalizeMeaning(a);
    NormalizeMeaning(b);
    MeaningFacts(a);
    MeaningFacts(b);
    ResourceInjective(Meaning(a).value.0, Meaning(a).value.1, Meaning(b).value.0, Meaning(b).value.1);
  }

  lemma MeaningFacts(id: string)
    requires IsBytes(id) && Meaning(id).Some?
    ensures var (k, name) := Meaning(id).value;
            NormalizeKind(k) == Ok(k) && TrimSpace(k) == k && IsBytes(name) && TrimSpace(name) != ""
  {
    var t := TrimSpace(id);
    var parts := Split(t, SEP);
    KindFacts(parts[1]);
    TrimLeftSuffix(id, SPACES);
    TrimRightPrefix(TrimLeft(id, SPACES), SPACES);
    assert IsBytes(t);
    SplitBytes(t);
    UnescapeBytes(parts[2]);
  }

  lemma {:induction false} SplitBytes(s: string)
    requires IsBytes(s)
    ensures forall i :: 0 <= i < |Split(s, SEP)| ==> IsBytes(Split(s, SEP)[i])
  {
    if s != "" {
      SplitBytes(s[1..]);
    }
  }

  // ----- every normalised identifier is a proper relative path -----

  /** Some non-empty list of plain segments, joined. */
  ghost predicate Proper(p: string) {
    Split(p, SEP) != [] && AllPlain(Split(p, SEP))
  }

  lemma ProperJoin(segs: seq<string>)
    requires segs != [] && AllPlain(segs)
    ensures Proper(Join(segs, SEP)) && Split(Join(segs, SEP), SEP) == segs
  {
    SplitJoin(segs, SEP);
  }

  /** How a cleaned path begins. */
  lemma CleanHead(id: string)
    ensures Rooted(id) ==> HasPrefix(Clean(id), "/")
    ensures !Rooted(id) && Segs(id) == [] ==> Clean(id) == "."
    ensures !Rooted(id) && Segs(id) != [] && Segs(id)[0] == ".." ==> Clean(id) == ".." || HasPrefix(Clean(id), "../")
    ensures !Rooted(id) && Segs(id) != [] ==> Clean(id) == Join(Segs(id), SEP)
  {
    var segs, p := Segs(id), Clean(id);
    if !Rooted(id) && |segs| > 1 && segs[0] == ".." {
      assert p == ".." + [SEP] + Join(segs[1..], SEP);
      assert p[..3] == "../";
    }
  }

  lemma PlainIdentifierProper(id: string)
    requires NormalizePlain(id).Ok?
    ensures Proper(NormalizePlain(id).value)
  {
    SplitParts(id, SEP);
    CleanSegsCleaned(Rooted(id), Split(id, SEP));
    CleanHead(id);
    assert Plain(Segs(id)[0]);
    ProperJoin(Segs(id));
  }

  /** Which identifiers outside the namespace are accepted, and as what: one
      that climbs out of the staging directory is refused, one of which nothing
      survives is blank, an absolute one is refused, and any other is accepted
      as the segments that no ".." takes back. */
  lemma PlainExactly(identifier: string)
    requires var id := TrimSpace(identifier); id != "" && !InNamespace(id)
    ensures var id := TrimSpace(identifier);
            var segs := Split(id, SEP);
            NormalizeIdentifier(identifier) ==
              if id[0] == '/' then Err(NotRelative)
              else if Climbs(segs) then Err(EscapesStaging)
              else if Survivors(segs, 0) == [] then Err(Required)
              else Ok(Join(Survivors(segs, 0), SEP))
  {
    hide TrimSpace, Split, Climbs, Survivors, Join, Segs, Clean;
    var id := TrimSpace(identifier);
    var segs := Split(id, SEP);
    CleanHead(id);
    var p := Clean(id);
    assert Rooted(id) ==> p[0] == '/';
    if !Rooted(id) {
      CleanExactly(id);
      if Climbs(segs) {
        assert p[0] == '.' && |p| >= 2;
      } else if Survivors(segs, 0) != [] {
        ProperJoin(Survivors(segs, 0));
        ProperClean(p);
      }
    }
  }

  lemma ResourceProper(k: string, name: string)
    requires NormalizeKind(k) == Ok(k) && TrimSpace(name) != ""
    ensures Proper(ResourceIdentifier(k, name).value)
  {
    assert TrimSpace("") == "";
    hide ResourceIdentifier, TrimSpace, Escape, NormalizeKind, Join;
    KindFacts(k);
    ResourceForm(k, name);
    EscapeDots(name);
    NamespacePlain();
    FormProper(k, name);
  }

  lemma NamespacePlain()
    ensures Plain(NAMESPACE)
  {
  }

  /** The segments of a resource's identifier are proper ones. */
  lemma FormProper(k: string, name: string)
    requires Plain(k) && name != ""
    ensures Proper(Form(k, name))
  {
    hide Proper, Join, Escape;
    NamespacePlain();
    EscapeDots(name);
    JoinTwo(NAMESPACE, k);
    JoinThree(NAMESPACE, k, Escape(name));
    OnePart(NAMESPACE);
    if name == "." {
      ProperJoin([NAMESPACE, k]);
    } else if name == ".." {
      ProperJoin([NAMESPACE]);
    } else {
      ProperJoin([NAMESPACE, k, Escape(name)]);
    }
  }

  lemma OnePart(s: string)
    ensures Join([s], SEP) == s
  {
  }

  /** Whatever is accepted, the result is a relative path of plain segments: it
      never leaves the directory it is put under. */
  lemma NormalizedProper(identifier: string)
    requires NormalizeIdentifier(identifier).Ok?
    ensures Proper(NormalizeIdentifier(identifier).value)
  {
    hide TrimSpace, ResourceIdentifier, Proper;
    var id := TrimSpace(identifier);
    if InNamespace(id) {
      NormalizeMeaning(identifier);
      KindFacts(Split(id, SEP)[1]);
      ResourceProper(Meaning(identifier).value.0, Meaning(identifier).value.1);
    } else {
      PlainIdentifierProper(id);
    }
  }

  /** A proper path without outer spaces and outside the namespace is a fixed
      point; one that cleaning moved into the namespace is one exactly when it
      is the canonical spelling of some meaning. */
  lemma ProperFixedPoint(p: string)
    requires Proper(p) && IsBytes(p)
    ensures NormalizeIdentifier(p) == Ok(p) <==>
              Trimmed(p) && (InNamespace(p) ==>
                  Meaning(p).Some? && Canonical(Meaning(p).value.0, Meaning(p).value.1) == p)
  {
    TrimSpaceFixed(p);
    assert Split("", SEP) == [""];
    if Trimmed(p) {
      if InNamespace(p) {
        NormalizeMeaning(p);
        if Meaning(p).Some? {
          InNamespaceFixed(p);
        }
      } else {
        ProperNormal(p);
      }
    } else if NormalizeIdentifier(p) == Ok(p) {
      UntrimmedMoves(p);
    }
  }

  lemma UpPrefix(p: string)
    ensures HasPrefix(p, "../") ==> Split(p, SEP)[0] == ".."
  {
    if HasPrefix(p, "../") {
      assert p == ".." + [SEP] + p[3..];
      SplitConcat("..", SEP, p[3..]);
      SplitPlain("..", SEP);
    }
  }

  lemma ProperClean(p: string)
    requires Proper(p)
    ensures Clean(p) == p && p != "." && p != ".." && !HasPrefix(p, "/") && !HasPrefix(p, "../")
    ensures NormalizePlain(p) == Ok(p)
  {
    var segs := Split(p, SEP);
    JoinSplit(p, SEP);
    JoinFirst(segs);
    assert segs[0][0] in segs[0];
    CleanSegsFixed(false, segs);
    UpPrefix(p);
    SplitPlain(".", SEP);
    SplitPlain("..", SEP);
  }

  lemma InNamespaceFixed(p: string)
    requires IsBytes(p) && Proper(p) && Trimmed(p) && InNamespace(p) && Meaning(p).Some?
    ensures NormalizeIdentifier(p) == Ok(p) <==> Canonical(Meaning(p).value.0, Meaning(p).value.1) == p
  {
    TrimSpaceFixed(p);
    NormalizeMeaning(p);
    MeaningFacts(p);
    var (k, name) := Meaning(p).value;
    ResourceForm(k, name);
    KindFacts(k);
    var parts := Split(p, SEP);
    assert |parts| == 3;
    if name == "." || name == ".." {
      EscapeDots(name);
      assert name != "";
      CanonicalParts(k, name);
      assert !Plain(Escape(name));
      SplitPlain(NAMESPACE, SEP);
      SplitConcat(NAMESPACE, SEP, k);
      SplitPlain(k, SEP);
      assert NAMESPACE + [SEP] + k == NAMESPACE + "/" + k;
    }
  }

  /** A spaced identifier is never its own normal form. */
  lemma UntrimmedMoves(p: string)
    requires Proper(p) && IsBytes(p) && !Trimmed(p)
    ensures NormalizeIdentifier(p) != Ok(p)
  {
    var t := TrimSpace(p);
    TrimSpaceFixed(p);
    TrimLeftSuffix(p, SPACES);
    TrimRightPrefix(TrimLeft(p, SPACES), SPACES);
    assert |t| < |p|;
    if t != "" && InNamespace(t) {
      NormalizeMeaning(p);
      if Meaning(p).Some? {
        MeaningFacts(p);
        var (k, name) := Meaning(p).value;
        ResourceForm(k, name);
        KindFacts(k);
        ResourceTrimmed(k, name);
      }
    } else if t != "" {
      CleanHead(t);
      if !Rooted(t) {
        CleanShrinks(t);
      }
    }
  }

  lemma ResourceTrimmed(k: string, name: string)
    requires Plain(k) && TrimSpace(k) == k && name != ""
    ensures Trimmed(Canonical(k, name)) && Trimmed(NAMESPACE + "/" + k) && Trimmed(NAMESPACE)
  {
    CanonicalParts(k, name);
    TrimSpaceFixed(Canonical(k, name));
    TrimSpaceFixed(k);
    var id := NAMESPACE + "/" + k;
    assert id[0] == 'r' && id[|id| - 1] == k[|k| - 1];
  }

  lemma {:induction false} CleanSegsShrink(rooted: bool, segs: seq<string>)
    ensures Size(CleanSegs(rooted, segs)) <= Size(segs)
  {
    if segs != [] {
      var init, x := segs[..|segs| - 1], segs[|segs| - 1];
      CleanSegsShrink(rooted, init);
      var out := CleanSegs(rooted, init);
      SizeSnoc(out, x);
      SizeSnoc(init, x);
      assert segs == init + [x];
      if out != [] {
        assert out == out[..|out| - 1] + [out[|out| - 1]];
        SizeSnoc(out[..|out| - 1], out[|out| - 1]);
      }
    }
  }

  /** Characters of the segments, with one separator each. */
  function Size(segs: seq<string>): nat {
    if segs == [] then 0 else |segs[0]| + 1 + Size(segs[1..])
  }

  lemma {:induction false} SizeSnoc(segs: seq<string>, x: string)
    ensures Size(segs + [x]) == Size(segs) + |x| + 1
  {
    if segs != [] {
      assert (segs + [x])[1..] == segs[1..] + [x];
      SizeSnoc(segs[1..], x);
    } else {
      assert [x][1..] == [];
    }
  }

  lemma {:induction false} JoinSize(segs: seq<string>)
    requires segs != []
    ensures |Join(segs, SEP)| == Size(segs) - 1
  {
    if |segs| > 1 {
      JoinSize(segs[1..]);
    } else {
      assert segs[1..] == [];
    }
  }

  lemma CleanShrinks(p: string)
    requires p != "" && !Rooted(p)
    ensures |Clean(p)| <= |p|
  {
    JoinSplit(p, SEP);
    JoinSize(Split(p, SEP));
    CleanSegsShrink(false, Split(p, SEP));
    if Segs(p) != [] {
      JoinSize(Segs(p));
    }
  }
}
