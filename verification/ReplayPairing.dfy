/** Replayed stages: recorded artefacts matched to the work derived locally. */
module ReplayPairing {
  import opened CreateOnlyFiles
  import opened TupleOrder

  datatype ArtifactRef = ArtifactRef(requestSha: string, artifactId: string, artifactSha: string, locator: string)

  function ShaKey(sha: string): Key { [Codes(sha)] }

  function RequestShas(refs: seq<ArtifactRef>): (shas: seq<string>)
    ensures |shas| == |refs|
    ensures forall i :: 0 <= i < |refs| ==> shas[i] == refs[i].requestSha
  {
    seq(|refs|, i requires 0 <= i < |refs| => refs[i].requestSha)
  }

  lemma ShaKeyInjective(a: string, b: string)
    requires ShaKey(a) == ShaKey(b)
    ensures a == b
  {
    assert ShaKey(a)[0] == ShaKey(b)[0];
    CodesInjective(a, b);
  }

  predicate Repeats(shas: seq<string>) { exists i, j :: 0 <= i < j < |shas| && shas[i] == shas[j] }

  lemma ExactIsExpected(observed: seq<string>, workload: seq<string>)
    requires StrictlyOrdered(observed, ShaKey) && multiset(observed) == multiset(workload)
    ensures observed == Sort(workload, ShaKey) && !Repeats(observed)
  {
    SortIsSorted(workload, ShaKey);
    ArrangementUnique(observed, Sort(workload, ShaKey), ShaKey);
    forall i, j | 0 <= i < j < |observed| ensures observed[i] != observed[j] {
      LessTotal(ShaKey(observed[i]), ShaKey(observed[j]));
    }
  }

  /** The stage is accepted exactly when its request SHAs are the distinct workload SHAs, in increasing order. */
  method RequireExactStage(refs: seq<ArtifactRef>, workload: seq<string>) returns (accepted: Option<seq<ArtifactRef>>)
    ensures accepted.Some? ==> accepted.value == refs
    ensures accepted.Some? <==>
      StrictlyOrdered(RequestShas(refs), ShaKey) && multiset(RequestShas(refs)) == multiset(workload)
  {
    var observed := RequestShas(refs);
    var expected := Sort(workload, ShaKey);
    SortIsSorted(workload, ShaKey);
    if StrictlyOrdered(observed, ShaKey) && multiset(observed) == multiset(workload) {
      ExactIsExpected(observed, workload);
    }
    if observed != expected || Repeats(expected) { return None; }
    forall i, j | 0 <= i < j < |expected| ensures ShaKey(expected[i]) != ShaKey(expected[j]) {
      if ShaKey(expected[i]) == ShaKey(expected[j]) { ShaKeyInjective(expected[i], expected[j]); }
    }
    OrderedDistinct(expected, ShaKey);
    accepted := Some(refs);
  }

  /** What `RequireExactStage` accepts. */
  ghost predicate ExactStage(refs: seq<ArtifactRef>, workload: seq<string>) {
    StrictlyOrdered(RequestShas(refs), ShaKey) && multiset(RequestShas(refs)) == multiset(workload)
  }

  /** Zipping accepted artefacts with the workload by position pairs every shard with its own recording
    exactly when the workload lists its shards in increasing SHA order. */
  lemma PositionalPairingExactlyWhenSorted(refs: seq<ArtifactRef>, workload: seq<string>)
    requires ExactStage(refs, workload)
    ensures |refs| == |workload|
    ensures (forall i :: 0 <= i < |refs| ==> refs[i].requestSha == workload[i]) <==> StrictlyOrdered(workload, ShaKey)
  {
    var observed := RequestShas(refs);
    assert |multiset(observed)| == |observed| && |multiset(workload)| == |workload|;
    if forall i :: 0 <= i < |refs| ==> refs[i].requestSha == workload[i] {
      assert observed == workload;
    }
    if StrictlyOrdered(workload, ShaKey) {
      forall i, j | 0 <= i < j < |observed| ensures !Less(ShaKey(observed[j]), ShaKey(observed[i])) {
        LessTotal(ShaKey(observed[i]), ShaKey(observed[j]));
      }
      ArrangementUnique(workload, observed, ShaKey);
    }
  }

  /** A workload in any other order is accepted all the same, and then mispaired. */
  lemma UnsortedWorkloadIsMispaired(refs: seq<ArtifactRef>, workload: seq<string>)
    requires ExactStage(refs, workload) && !StrictlyOrdered(workload, ShaKey)
    ensures exists i :: 0 <= i < |refs| && i < |workload| && refs[i].requestSha != workload[i]
  {
    PositionalPairingExactlyWhenSorted(refs, workload);
  }

  /** Two shards listed as b, a: the stage is exact, and the zip gives shard b the recording of a. */
  lemma TwoShardsSwapped(a: ArtifactRef, b: ArtifactRef)
    requires a.requestSha == "a" && b.requestSha == "b"
    ensures ExactStage([a, b], ["b", "a"]) && [a, b][0].requestSha != ["b", "a"][0]
  {
    var observed := RequestShas([a, b]);
    assert observed == ["a", "b"];
    assert ShaKey("a")[0] == [97] && ShaKey("b")[0] == [98];
    assert Less(ShaKey("a"), ShaKey("b"));
    assert multiset(observed) == multiset(["b", "a"]);
  }

  // ----- downstream: explicit binding -----

  /** The shard an execution record was really made for. */
  datatype Shard = Shard(id: string, sha: string)

  datatype Source = Source(shard: Shard, receipt: ArtifactRef)

  /** Sources are compared by shard; the receipts are never reached, since the shards of an exact stage differ. */
  function SourceKey(s: Source): Key { [Codes(s.shard.id), Codes(s.shard.sha)] }

  lemma SourceOrderIs(s: Source, t: Source)
    ensures Less(SourceKey(s), SourceKey(t)) <==>
      if s.shard.id != t.shard.id then Below(Codes(s.shard.id), Codes(t.shard.id))
      else s.shard.sha != t.shard.sha && Below(Codes(s.shard.sha), Codes(t.shard.sha))
  {
    if Codes(s.shard.id) == Codes(t.shard.id) { CodesInjective(s.shard.id, t.shard.id); }
    if Codes(s.shard.sha) == Codes(t.shard.sha) { CodesInjective(s.shard.sha, t.shard.sha); }
    var a, b := SourceKey(s), SourceKey(t);
    assert a[1..] == [Codes(s.shard.sha)] && b[1..] == [Codes(t.shard.sha)] && a[1..][1..] == [] && b[1..][1..] == [];
    LessFirst(a, b);
    LessFirst(a[1..], b[1..]);
  }

  lemma SourcesDiffer(refs: seq<ArtifactRef>, reopen: ArtifactRef -> Shard)
    requires ExactStage(refs, ShardShas(Bindings(refs, reopen)))
    ensures DistinctKeys(Bindings(refs, reopen), SourceKey)
  {
    var b, observed := Bindings(refs, reopen), RequestShas(refs);
    forall i, j | 0 <= i < j < |observed| ensures ShaKey(observed[i]) != ShaKey(observed[j]) {
      LessTotal(ShaKey(observed[i]), ShaKey(observed[j]));
    }
    DistinctPermuted(observed, ShardShas(b), ShaKey);
    forall i, j | 0 <= i < j < |b| ensures SourceKey(b[i]) != SourceKey(b[j]) {
      assert SourceKey(b[i])[1] == ShaKey(ShardShas(b)[i])[0] && SourceKey(b[j])[1] == ShaKey(ShardShas(b)[j])[0];
      assert ShaKey(ShardShas(b)[i]) != ShaKey(ShardShas(b)[j]);
    }
  }

  function ShardShas(sources: seq<Source>): (shas: seq<string>)
    ensures |shas| == |sources|
    ensures forall i :: 0 <= i < |sources| ==> shas[i] == sources[i].shard.sha
  {
    seq(|sources|, i requires 0 <= i < |sources| => sources[i].shard.sha)
  }

  function Bindings(refs: seq<ArtifactRef>, reopen: ArtifactRef -> Shard): (b: seq<Source>)
    ensures |b| == |refs|
    ensures forall i :: 0 <= i < |refs| ==> b[i] == Source(reopen(refs[i]), refs[i])
  {
    seq(|refs|, i requires 0 <= i < |refs| => Source(reopen(refs[i]), refs[i]))
  }

  /** Every receipt is bound to the shard it was reopened with, and nothing else is. */
  ghost predicate BoundToOwnShards(sources: seq<Source>, refs: seq<ArtifactRef>, reopen: ArtifactRef -> Shard) {
    && (forall s :: s in sources ==> s.shard == reopen(s.receipt) && s.receipt in refs)
    && (forall r :: r in refs ==> Source(reopen(r), r) in sources)
  }

  lemma PermutedBindings(sources: seq<Source>, refs: seq<ArtifactRef>, reopen: ArtifactRef -> Shard)
    requires multiset(sources) == multiset(Bindings(refs, reopen))
    ensures BoundToOwnShards(sources, refs, reopen)
  {
    var b := Bindings(refs, reopen);
    forall s | s in sources ensures s.shard == reopen(s.receipt) && s.receipt in refs {
      assert s in multiset(b);
    }
    forall r | r in refs ensures Source(reopen(r), r) in sources {
      var i :| 0 <= i < |refs| && refs[i] == r;
      assert b[i] in multiset(sources);
    }
  }

  /** The stage is checked against the shards all together, never reference by reference.  An accepted reference
    names the digest of the very shard its receipt reopens to, for every reference, exactly when the reopened
    digests, read in the order of the references, are in increasing order already. */
  lemma OwnDigestsExactlyWhenSorted(refs: seq<ArtifactRef>, reopen: ArtifactRef -> Shard)
    requires ExactStage(refs, ShardShas(Bindings(refs, reopen)))
    ensures (forall r :: r in refs ==> r.requestSha == reopen(r).sha) <==> StrictlyOrdered(ShardShas(Bindings(refs, reopen)), ShaKey)
  {
    var shas := ShardShas(Bindings(refs, reopen));
    PositionalPairingExactlyWhenSorted(refs, shas);
    assert forall i :: 0 <= i < |refs| ==> shas[i] == reopen(refs[i]).sha;
  }

  /** Otherwise references are accepted crossed: the receipt recorded for a reopens to shard b, and the reverse. */
  lemma CrossedReceiptsAreAccepted(a: ArtifactRef, b: ArtifactRef, reopen: ArtifactRef -> Shard)
    requires a.requestSha == "a" && b.requestSha == "b" && reopen(a).sha == "b" && reopen(b).sha == "a"
    ensures ExactStage([a, b], ShardShas(Bindings([a, b], reopen)))
  {
    TwoShardsSwapped(a, b);
    assert ShardShas(Bindings([a, b], reopen)) == ["b", "a"];
  }

  /** Reopen every receipt, check the stage against the shards so found, and order the explicit bindings:
    unlike the positional zip, this gives every receipt its own shard, in whatever order the shards come. */
  method ReplaySources(refs: seq<ArtifactRef>, reopen: ArtifactRef -> Shard) returns (sources: Option<seq<Source>>)
    ensures sources.Some? <==> ExactStage(refs, ShardShas(Bindings(refs, reopen)))
    ensures sources.Some? ==>
      && StrictlyOrdered(sources.value, SourceKey)
      && multiset(sources.value) == multiset(Bindings(refs, reopen))
      && BoundToOwnShards(sources.value, refs, reopen)
      && ((forall s :: s in sources.value ==> s.receipt.requestSha == s.shard.sha) <==> StrictlyOrdered(ShardShas(Bindings(refs, reopen)), ShaKey))
  {
    var reopened: seq<Source> := [];
    for i := 0 to |refs|
      invariant reopened == Bindings(refs, reopen)[..i]
    {
      reopened := reopened + [Source(reopen(refs[i]), refs[i])];
    }
    assert reopened == Bindings(refs, reopen);
    var accepted := RequireExactStage(refs, ShardShas(reopened));
    if accepted.None? { return None; }
    var ordered := Sort(reopened, SourceKey);
    SortIsSorted(reopened, SourceKey);
    PermutedBindings(ordered, refs, reopen);
    OwnDigestsExactlyWhenSorted(refs, reopen);
    SourcesDiffer(refs, reopen);
    DistinctPermuted(reopened, ordered, SourceKey);
    OrderedDistinct(ordered, SourceKey);
    sources := Some(ordered);
  }
}
