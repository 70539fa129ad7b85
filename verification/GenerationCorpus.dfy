/** The complete corpus of generation one: the base of generation zero, overlaid with the current entries of
  the managed projection. */
module GenerationCorpus {
  import opened CreateOnlyFiles
  import opened TupleOrder

  datatype Note = Note(relPath: string, content: seq<int>, workspace: string, supporting: seq<string>)

  datatype Entry = Entry(entryId: string, logicalPath: string, included: bool)

  datatype Managed = Managed(entry: Entry, content: seq<int>, workspace: string)

  /** Parsing and validation of notes: the documents' paths, or a rejection. */
  type Prepare = seq<Note> -> Option<seq<string>>

  function PathKey(n: Note): Key { [Codes(n.relPath)] }

  lemma PathKeyInjective(a: Note, b: Note)
    requires PathKey(a) == PathKey(b)
    ensures a.relPath == b.relPath
  {
    assert PathKey(a)[0] == PathKey(b)[0];
    CodesInjective(a.relPath, b.relPath);
  }

  predicate PathsDistinct(notes: seq<Note>) {
    forall i, j :: 0 <= i < j < |notes| ==> notes[i].relPath != notes[j].relPath
  }

  function Paths(notes: seq<Note>): set<string> { set n | n in notes :: n.relPath }

  /** Support files of the note that had this path in the base. */
  function PriorAt(base: seq<Note>, path: string): Option<Note> {
    if base == [] then None
    else if base[|base| - 1].relPath == path then Some(base[|base| - 1])
    else PriorAt(base[..|base| - 1], path)
  }

  /** A current entry as an index note: its own content, with support files carried from its base path. */
  function Candidate(base: seq<Note>, m: Managed): Note {
    var prior := PriorAt(base, m.entry.logicalPath);
    var supporting := if prior.Some? then prior.value.supporting else [];
    Note(m.entry.logicalPath, m.content, if prior.Some? && supporting != [] then prior.value.workspace else m.workspace, supporting)
  }

  function Current(managed: seq<Managed>): seq<Managed>
    decreases |managed|
  {
    if managed == [] then []
    else
      var init := Current(managed[..|managed| - 1]);
      if managed[|managed| - 1].entry.included then init + [managed[|managed| - 1]] else init
  }

  function EntryIds(managed: seq<Managed>): seq<string> {
    seq(|managed|, i requires 0 <= i < |managed| => managed[i].entry.entryId)
  }

  function Candidates(base: seq<Note>, current: seq<Managed>): (c: seq<Note>)
    ensures |c| == |current|
    ensures forall i :: 0 <= i < |current| ==> c[i] == Candidate(base, current[i])
  {
    seq(|current|, i requires 0 <= i < |current| => Candidate(base, current[i]))
  }

  /** Base notes whose path the projection never mentions. */
  function Untouched(base: seq<Note>, projected: set<string>): seq<Note>
    decreases |base|
  {
    if base == [] then []
    else
      var init := Untouched(base[..|base| - 1], projected);
      if base[|base| - 1].relPath !in projected then init + [base[|base| - 1]] else init
  }

  /** The corpus before it is sorted. */
  function Overlay(base: seq<Note>, projected: set<string>, current: seq<Managed>): seq<Note> {
    Untouched(base, projected) + Candidates(base, current)
  }

  /** Every condition under which the reconstruction is accepted. */
  ghost predicate Admissible(base: seq<Note>, projected: set<string>, serving: seq<string>, managed: seq<Managed>, prepare: Prepare) {
    var current := Current(managed);
    var overlay := Overlay(base, projected, current);
    var sorted := Sort(overlay, PathKey);
    && PathsDistinct(base)
    && EntryIds(current) == serving
    && (forall i :: 0 <= i < |current| ==> prepare([Candidate(base, current[i])]).Some?)
    && PathsDistinct(overlay)
    && prepare(sorted).Some?
    && (set p | p in prepare(sorted).value) == Paths(overlay)
  }

  method SelectCurrent(managed: seq<Managed>) returns (current: seq<Managed>)
    ensures current == Current(managed)
  {
    current := [];
    for i := 0 to |managed|
      invariant current == Current(managed[..i])
    {
      assert managed[..i + 1][..i] == managed[..i];
      if managed[i].entry.included { current := current + [managed[i]]; }
    }
    assert managed[..|managed|] == managed;
  }

  method KeepUntouched(base: seq<Note>, projected: set<string>) returns (kept: seq<Note>)
    ensures kept == Untouched(base, projected)
  {
    kept := [];
    for i := 0 to |base|
      invariant kept == Untouched(base[..i], projected)
    {
      assert base[..i + 1][..i] == base[..i];
      if base[i].relPath !in projected { kept := kept + [base[i]]; }
    }
    assert base[..|base|] == base;
  }

  method Complete(
    workspaceOrigin: bool, baseNotes: Option<seq<Note>>, projected: set<string>, serving: seq<string>,
    managed: seq<Managed>, prepare: Prepare)
    returns (corpus: Option<seq<Note>>)
    ensures corpus.Some? <==>
      workspaceOrigin == baseNotes.Some? && Admissible(BaseOf(baseNotes), projected, serving, managed, prepare)
    ensures corpus.Some? ==> IsOverlay(corpus.value, BaseOf(baseNotes), projected, Current(managed))
  {
    if workspaceOrigin != baseNotes.Some? { return None; }
    var base := BaseOf(baseNotes);
    if !PathsDistinct(base) { return None; }
    var current := SelectCurrent(managed);
    if EntryIds(current) != serving { return None; }
    var complete := KeepUntouched(base, projected);
    for i := 0 to |current|
      invariant complete == Untouched(base, projected) + Candidates(base, current)[..i]
      invariant forall j :: 0 <= j < i ==> prepare([Candidate(base, current[j])]).Some?
    {
      var candidate := Candidate(base, current[i]);
      if prepare([candidate]).None? { return None; }
      complete := complete + [candidate];
    }
    assert complete == Overlay(base, projected, current);
    var result := Sort(complete, PathKey);
    SortIsSorted(complete, PathKey);
    var prepared := prepare(result);
    if prepared.None? { return None; }
    var expected := Paths(Untouched(base, projected)) + Paths(Candidates(base, current));
    PathsOfConcat(Untouched(base, projected), Candidates(base, current));
    PathsOfPermutation(result, complete);
    DistinctByCount(complete);
    if Paths(result) != expected || (set p | p in prepared.value) != expected || |result| != |expected| { return None; }
    SortedOverlay(result, base, projected, current);
    corpus := Some(result);
  }

  function BaseOf(baseNotes: Option<seq<Note>>): seq<Note> { if baseNotes.None? then [] else baseNotes.value }

  /** Strictly ordered by path, and as a map the base without every projected path, overridden by the current
    entries: a projected path has exactly the content of its current entry, or is gone. */
  ghost predicate IsOverlay(corpus: seq<Note>, base: seq<Note>, projected: set<string>, current: seq<Managed>) {
    && StrictlyOrdered(corpus, PathKey)
    && (forall n :: n in corpus <==> (n in base && n.relPath !in projected) || FromCurrent(n, base, current))
  }

  /** Note `n` is what the corpus must hold for this entry: its path and its content; the support files of the base
    note at its path, with that note's workspace, if there are any, and else no support files and its own
    workspace. */
  ghost predicate IsEntryOf(n: Note, m: Managed, base: seq<Note>) {
    && n.relPath == m.entry.logicalPath && n.content == m.content
    && (if exists b :: b in base && b.relPath == n.relPath && b.supporting != []
        then exists b :: b in base && b.relPath == n.relPath && n.supporting == b.supporting && n.workspace == b.workspace
        else n.supporting == [] && n.workspace == m.workspace)
  }

  lemma {:induction false} PriorIs(base: seq<Note>, path: string)
    requires PathsDistinct(base)
    ensures forall b :: b in base && b.relPath == path <==> PriorAt(base, path) == Some(b)
    decreases |base|
  {
    if base != [] {
      var init, last := base[..|base| - 1], base[|base| - 1];
      PriorIs(init, path);
      assert base == init + [last];
      forall b | b in init ensures b.relPath != last.relPath {
        var i :| 0 <= i < |init| && init[i] == b;
        assert base[i].relPath != base[|base| - 1].relPath;
      }
    }
  }

  lemma CandidateIs(base: seq<Note>, m: Managed, n: Note)
    requires PathsDistinct(base)
    ensures n == Candidate(base, m) <==> IsEntryOf(n, m, base)
  {
    PriorIs(base, m.entry.logicalPath);
  }

  /** These are the places of the entries that are served, in order. */
  ghost predicate Picks(at: seq<nat>, managed: seq<Managed>, current: seq<Managed>) {
    && |at| == |current|
    && (forall k :: 0 <= k < |at| ==> at[k] < |managed| && current[k] == managed[at[k]] && managed[at[k]].entry.included)
    && (forall j, k :: 0 <= j < k < |at| ==> at[j] < at[k])
    && (forall i: nat :: i < |managed| && managed[i].entry.included ==> i in at)
  }

  lemma PicksNext(at: seq<nat>, managed: seq<Managed>, current: seq<Managed>, m: Managed)
    requires Picks(at, managed, current)
    ensures if m.entry.included then Picks(at + [|managed|], managed + [m], current + [m]) else Picks(at, managed + [m], current)
  {
    forall i: nat | i < |managed + [m]| && (managed + [m])[i].entry.included && i < |managed| ensures i in at {
      assert managed[i].entry.included;
    }
  }

  lemma {:induction false} CurrentAre(managed: seq<Managed>) returns (at: seq<nat>)
    ensures Picks(at, managed, Current(managed))
    decreases |managed|
  {
    at := [];
    if managed != [] {
      var init, last := managed[..|managed| - 1], managed[|managed| - 1];
      at := CurrentAre(init);
      PicksNext(at, init, Current(init), last);
      assert managed == init + [last];
      if last.entry.included { at := at + [|init|]; }
    }
  }

  /** The corpus, written out: the base notes at paths that the projection does not mention, and one note for each
    entry that is served. */
  lemma CorpusIs(corpus: seq<Note>, base: seq<Note>, projected: set<string>, managed: seq<Managed>, n: Note)
    requires PathsDistinct(base) && IsOverlay(corpus, base, projected, Current(managed))
    ensures n in corpus <==>
      || (n in base && n.relPath !in projected)
      || exists m :: m in managed && m.entry.included && IsEntryOf(n, m, base)
  {
    var at := CurrentAre(managed);
    forall m ensures m in Current(managed) <==> m in managed && m.entry.included {
      if m in managed && m.entry.included {
        var i: nat :| i < |managed| && managed[i] == m;
        assert i in at;
        var k :| 0 <= k < |at| && at[k] == i;
        assert Current(managed)[k] == m;
      }
      if m in Current(managed) {
        var k :| 0 <= k < |at| && Current(managed)[k] == m;
        assert at[k] in at;
      }
    }
    forall m ensures n == Candidate(base, m) <==> IsEntryOf(n, m, base) { CandidateIs(base, m, n); }
    assert FromCurrent(n, base, Current(managed)) <==> exists m :: m in Current(managed) && n == Candidate(base, m);
  }

  ghost predicate FromCurrent(n: Note, base: seq<Note>, current: seq<Managed>) {
    exists i :: 0 <= i < |current| && n == Candidate(base, current[i])
  }

  /** A corpus is reconstructed only if the included entries are those that are served, in that order, each can be
    prepared by itself, and all notes together, and the documents that come of it are at exactly the paths of the
    corpus. */
  lemma ReconstructedIsPrepared(
    corpus: seq<Note>, base: seq<Note>, projected: set<string>, serving: seq<string>, managed: seq<Managed>, prepare: Prepare)
    requires Admissible(base, projected, serving, managed, prepare) && IsOverlay(corpus, base, projected, Current(managed))
    ensures |serving| == |Current(managed)| && forall i :: 0 <= i < |serving| ==> serving[i] == Current(managed)[i].entry.entryId
    ensures forall m, n :: m in Current(managed) && IsEntryOf(n, m, base) ==> prepare([n]).Some?
    ensures prepare(corpus).Some? && forall path :: path in prepare(corpus).value <==> exists n :: n in corpus && n.relPath == path
  {
    var current, overlay := Current(managed), Overlay(base, projected, Current(managed));
    forall m, n | m in current && IsEntryOf(n, m, base) ensures prepare([n]).Some? {
      CandidateIs(base, m, n);
      var i :| 0 <= i < |current| && current[i] == m;
      assert prepare([Candidate(base, current[i])]).Some?;
    }
    assert EntryIds(current) == serving;
    var sorted := Sort(overlay, PathKey);
    SortIsSorted(overlay, PathKey);
    PathsOfPermutation(sorted, overlay);
    DistinctByCount(overlay);
    SortedOverlay(sorted, base, projected, current);
    SameMembers(corpus, sorted, PathKey);
    forall path ensures path in prepare(corpus).value <==> exists n :: n in corpus && n.relPath == path {
      assert path in prepare(sorted).value <==> path in (set p | p in prepare(sorted).value);
      assert path in Paths(overlay) <==> path in Paths(sorted);
    }
  }

  /** No predecessor content survives at a projected path. */
  lemma NoPredecessorSurvives(corpus: seq<Note>, base: seq<Note>, projected: set<string>, current: seq<Managed>, n: Note)
    requires IsOverlay(corpus, base, projected, current) && n in corpus && n.relPath in projected
    ensures exists i :: 0 <= i < |current| && current[i].entry.logicalPath == n.relPath && n.content == current[i].content
  {
    assert FromCurrent(n, base, current);
    var i :| 0 <= i < |current| && n == Candidate(base, current[i]);
    assert current[i].entry.logicalPath == n.relPath;
  }

  lemma PathsOfConcat(a: seq<Note>, b: seq<Note>)
    ensures Paths(a + b) == Paths(a) + Paths(b)
  {
    assert forall n :: n in a + b <==> n in a || n in b;
  }

  lemma PathsOfPermutation(a: seq<Note>, b: seq<Note>)
    requires multiset(a) == multiset(b)
    ensures Paths(a) == Paths(b) && |a| == |b|
  {
    assert forall n :: n in a <==> n in multiset(a);
    assert forall n :: n in b <==> n in multiset(b);
    assert |multiset(a)| == |a| && |multiset(b)| == |b|;
  }

  lemma PathsNext(notes: seq<Note>, last: Note)
    ensures Paths(notes + [last]) == Paths(notes) + {last.relPath}
    ensures PathsDistinct(notes + [last]) <==> PathsDistinct(notes) && last.relPath !in Paths(notes)
  {
    var more := notes + [last];
    assert forall n :: n in more <==> n in notes || n == last;
    assert forall i :: 0 <= i < |notes| ==> more[i] == notes[i];
    if last.relPath in Paths(notes) {
      var i :| 0 <= i < |notes| && notes[i].relPath == last.relPath;
      assert more[i].relPath == more[|notes|].relPath;
    } else {
      assert forall i :: 0 <= i < |notes| ==> notes[i].relPath in Paths(notes);
    }
  }

  lemma {:induction false} DistinctByCount(notes: seq<Note>)
    ensures |Paths(notes)| <= |notes|
    ensures |Paths(notes)| == |notes| <==> PathsDistinct(notes)
    decreases |notes|
  {
    if notes != [] {
      var init, last := notes[..|notes| - 1], notes[|notes| - 1];
      DistinctByCount(init);
      PathsNext(init, last);
      assert notes == init + [last];
      assert last.relPath in Paths(init) ==> Paths(notes) == Paths(init);
    }
  }

  lemma {:induction false} UntouchedMembers(base: seq<Note>, projected: set<string>, n: Note)
    ensures n in Untouched(base, projected) <==> n in base && n.relPath !in projected
    decreases |base|
  {
    if base != [] {
      UntouchedMembers(base[..|base| - 1], projected, n);
      assert base == base[..|base| - 1] + [base[|base| - 1]];
    }
  }

  lemma OverlayMembers(base: seq<Note>, projected: set<string>, current: seq<Managed>, n: Note)
    ensures n in Overlay(base, projected, current) <==>
      (n in base && n.relPath !in projected) || FromCurrent(n, base, current)
  {
    UntouchedMembers(base, projected, n);
    var candidates := Candidates(base, current);
    if FromCurrent(n, base, current) {
      var i :| 0 <= i < |current| && n == Candidate(base, current[i]);
      assert candidates[i] == n;
    }
    if n in candidates {
      var i :| 0 <= i < |candidates| && candidates[i] == n;
      assert n == Candidate(base, current[i]);
    }
  }

  lemma SortedOverlay(result: seq<Note>, base: seq<Note>, projected: set<string>, current: seq<Managed>)
    requires multiset(result) == multiset(Overlay(base, projected, current)) && Ordered(result, PathKey)
    requires |Paths(result)| == |result|
    ensures IsOverlay(result, base, projected, current)
  {
    DistinctByCount(result);
    forall i, j | 0 <= i < j < |result| ensures PathKey(result[i]) != PathKey(result[j]) {
      if PathKey(result[i]) == PathKey(result[j]) { PathKeyInjective(result[i], result[j]); }
    }
    OrderedDistinct(result, PathKey);
    var overlay := Overlay(base, projected, current);
    forall n ensures n in result <==> (n in base && n.relPath !in projected) || FromCurrent(n, base, current) {
      OverlayMembers(base, projected, current, n);
      assert n in result <==> n in multiset(result);
      assert n in overlay <==> n in multiset(overlay);
    }
  }
}
