/** Which artifacts a deployment uploads: the collectors' results in order,
    each identifier once, with the managed public key in place of a collected one. */
module ArtifactPlan {
  import opened Text
  import opened Paths
  import opened PercentEncoding
  import opened Identifiers
  import opened StagingPaths
  import opened ArtifactServer
  import opened ArtifactClient

  /** A required artifact; its bytes are missing when its source cannot be read. */
  datatype Required = Required(identifier: string, source: Option<Bytes>)

  ghost predicate DistinctRequired(rs: seq<Required>) {
    forall i, j :: 0 <= i < j < |rs| ==> rs[i].identifier != rs[j].identifier
  }

  function Concat(outputs: seq<Option<seq<Required>>>): seq<Required>
    requires forall i :: 0 <= i < |outputs| ==> outputs[i].Some?
  {
    if outputs == [] then [] else Concat(outputs[..|outputs| - 1]) + outputs[|outputs| - 1].value
  }

  lemma {:induction false} ConcatPrefix(outputs: seq<Option<seq<Required>>>, n: nat)
    requires n <= |outputs| && forall i :: 0 <= i < |outputs| ==> outputs[i].Some?
    ensures Concat(outputs[..n]) <= Concat(outputs)
  {
    if n < |outputs| {
      assert outputs[..|outputs| - 1][..n] == outputs[..n];
      ConcatPrefix(outputs[..|outputs| - 1], n);
    } else {
      assert outputs[..n] == outputs;
    }
  }

  /** The collectors' results in order, rejected as soon as a collector fails
      or an identifier comes up twice. */
  method RunCollectors(outputs: seq<Option<seq<Required>>>) returns (r: Option<seq<Required>>)
    ensures r.Some? <==> (forall i :: 0 <= i < |outputs| ==> outputs[i].Some?) && DistinctRequired(Concat(outputs))
    ensures r.Some? ==> r.value == Concat(outputs)
  {
    var all: seq<Required>, seen: set<string> := [], {};
    for n := 0 to |outputs|
      invariant forall i :: 0 <= i < n ==> outputs[i].Some?
      invariant all == Concat(outputs[..n]) && DistinctRequired(all)
      invariant forall k :: k in seen <==> exists i :: 0 <= i < |all| && all[i].identifier == k
    {
      assert outputs[..n + 1][..n] == outputs[..n];
      if outputs[n].None? {
        return None;
      }
      var got := outputs[n].value;
      ghost var before := all;
      for k := 0 to |got|
        invariant all == before + got[..k] && DistinctRequired(all)
        invariant forall x :: x in seen <==> exists i :: 0 <= i < |all| && all[i].identifier == x
      {
        assert got[..k + 1] == got[..k] + [got[k]];
        if got[k].identifier in seen {
          Repeats(outputs, n, all, got, k);
          return None;
        }
        ghost var was := all;
        seen := seen + {got[k].identifier};
        all := all + [got[k]];
        forall x ensures x in seen <==> exists i :: 0 <= i < |all| && all[i].identifier == x {
          if i :| 0 <= i < |was| && was[i].identifier == x {
            assert all[i] == was[i];
          }
          assert all[|was|] == got[k];
        }
      }
      assert got[..|got|] == got;
    }
    assert outputs[..|outputs|] == outputs;
    return Some(all);
  }

  /** A repeated identifier stays repeated in the whole concatenation. */
  lemma Repeats(outputs: seq<Option<seq<Required>>>, n: nat, all: seq<Required>, got: seq<Required>, k: nat)
    requires n < |outputs| && outputs[n] == Some(got) && k < |got| && forall i :: 0 <= i < n ==> outputs[i].Some?
    requires all == Concat(outputs[..n]) + got[..k]
    requires exists i :: 0 <= i < |all| && all[i].identifier == got[k].identifier
    ensures (forall i :: 0 <= i < |outputs| ==> outputs[i].Some?) ==> !DistinctRequired(Concat(outputs))
  {
    hide Concat, DistinctRequired;
    if forall i :: 0 <= i < |outputs| ==> outputs[i].Some? {
      ConcatPrefix(outputs, n + 1);
      ConcatNext(outputs, n);
      RepeatsIn(Concat(outputs[..n]), got, k, Concat(outputs));
    }
  }

  lemma ConcatNext(outputs: seq<Option<seq<Required>>>, n: nat)
    requires n < |outputs| && forall i :: 0 <= i <= n ==> outputs[i].Some?
    ensures Concat(outputs[..n + 1]) == Concat(outputs[..n]) + outputs[n].value
  {
    assert outputs[..n + 1][..n] == outputs[..n];
  }

  lemma RepeatsIn(before: seq<Required>, got: seq<Required>, k: nat, all: seq<Required>)
    requires before + got <= all && k < |got|
    requires var part := before + got[..k]; exists i :: 0 <= i < |part| && part[i].identifier == got[k].identifier
    ensures !DistinctRequired(all)
  {
    var part := before + got[..k];
    var i :| 0 <= i < |part| && part[i].identifier == got[k].identifier;
    assert all[i] == (before + got)[i] == part[i];
    assert all[|part|] == (before + got)[|part|] == got[k];
  }

  function Describe(identifier: string, data: Bytes, kinds: Bytes -> string, digest: Bytes -> string): Candidate {
    Candidate(Descriptor(identifier, kinds(data), |data|, digest(data)), data)
  }

  /** Every artifact other than the public key has a readable source. */
  ghost predicate Readable(required: seq<Required>, keyId: string) {
    forall i :: 0 <= i < |required| && required[i].identifier != keyId ==> required[i].source.Some?
  }

  /** The described artifacts in order, without the collected public key. */
  ghost function Plan(required: seq<Required>, keyId: string, kinds: Bytes -> string,
      digest: Bytes -> string): seq<Candidate>
    requires Readable(required, keyId)
  {
    if required == [] then []
    else
      var last := required[|required| - 1];
      assert forall i :: 0 <= i < |required| - 1 ==> required[..|required| - 1][i] == required[i];
      Plan(required[..|required| - 1], keyId, kinds, digest)
      + if last.identifier == keyId then [] else [Describe(last.identifier, last.source.value, kinds, digest)]
  }

  /** The upload plan: a collected public key is replaced by the managed one. It
      fails exactly when some other artifact or the managed key cannot be read,
      and from distinct canonical identifiers the plan is fit for staging. */
  method CollectCandidates(required: seq<Required>, keyId: string, publicKey: Option<Bytes>, kinds: Bytes -> string,
      digest: Bytes -> string)
    returns (r: Option<seq<Candidate>>)
    ensures r.Some? <==> Readable(required, keyId) && publicKey.Some?
    ensures r.Some? ==>
              r.value == Plan(required, keyId, kinds, digest) + [Describe(keyId, publicKey.value, kinds, digest)]
    ensures r.Some? && CanonicalIds(required, keyId) ==> Planned(r.value, digest)
  {
    var plan: seq<Candidate> := [];
    for n := 0 to |required|
      invariant Readable(required[..n], keyId)
      invariant plan == Plan(required[..n], keyId, kinds, digest)
    {
      assert required[..n + 1][..n] == required[..n] && required[..n + 1][n] == required[n];
      if required[n].identifier != keyId {
        if required[n].source.None? {
          return None;
        }
        plan := plan + [Describe(required[n].identifier, required[n].source.value, kinds, digest)];
      }
      assert Readable(required[..n + 1], keyId);
    }
    assert required[..|required|] == required;
    if publicKey.None? {
      return None;
    }
    if CanonicalIds(required, keyId) {
      PlanReady(required, keyId, publicKey.value, kinds, digest);
    }
    return Some(plan + [Describe(keyId, publicKey.value, kinds, digest)]);
  }

  /** Distinct identifiers, each in its normal form. */
  ghost predicate CanonicalIds(required: seq<Required>, keyId: string) {
    && DistinctRequired(required) && NormalizeIdentifier(keyId) == Ok(keyId)
    && forall i :: 0 <= i < |required| ==> NormalizeIdentifier(required[i].identifier) == Ok(required[i].identifier)
  }

  /** The candidate describes its own bytes under the identifier of a required
      artifact that is not the key. */
  ghost predicate Describes(c: Candidate, required: seq<Required>, keyId: string, digest: Bytes -> string) {
    && c.descriptor.size == |c.data| && c.descriptor.digest == digest(c.data) && c.descriptor.identifier != keyId
    && exists i :: 0 <= i < |required| && required[i].identifier == c.descriptor.identifier
  }

  lemma {:induction false} PlanDescribes(required: seq<Required>, keyId: string, kinds: Bytes -> string,
      digest: Bytes -> string)
    requires Readable(required, keyId) && DistinctRequired(required)
    ensures forall c :: c in Plan(required, keyId, kinds, digest) ==> Describes(c, required, keyId, digest)
    ensures DistinctIds(Plan(required, keyId, kinds, digest))
  {
    if required != [] {
      var n := |required| - 1;
      assert forall i :: 0 <= i < n ==> required[..n][i] == required[i];
      PlanDescribes(required[..n], keyId, kinds, digest);
      var before := Plan(required[..n], keyId, kinds, digest);
      forall c | c in before
        ensures Describes(c, required, keyId, digest) && c.descriptor.identifier != required[n].identifier
      {
        var i :| 0 <= i < n && required[..n][i].identifier == c.descriptor.identifier;
        assert required[i].identifier == c.descriptor.identifier;
      }
      assert forall i :: 0 <= i < |before| ==> before[i] in before;
    }
  }

  /** What the plan hands to staging is fit for it. */
  lemma PlanReady(required: seq<Required>, keyId: string, publicKey: Bytes, kinds: Bytes -> string,
      digest: Bytes -> string)
    requires Readable(required, keyId) && CanonicalIds(required, keyId)
    ensures Planned(Plan(required, keyId, kinds, digest) + [Describe(keyId, publicKey, kinds, digest)], digest)
  {
    hide NormalizeIdentifier;
    PlanDescribes(required, keyId, kinds, digest);
    var plan := Plan(required, keyId, kinds, digest);
    assert forall i :: 0 <= i < |plan| ==> plan[i] in plan;
  }
}
