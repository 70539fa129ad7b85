/** What the records of a start are: their order, the calls before each stage, what each link and index names,
  and which of them a kill can leave behind. */
module SagaRecords {
  import opened CreateOnlyFiles
  import opened StartSaga
  import opened SagaAttempts
  import opened SagaRecovery

  // ----- the order of the records -----

  const MECHANICAL_RUN := [
    IncomingBundle, IncomingIndex, IncomingRow, SuiteRow, IncomingLink, SuiteLink,
    BaselineReceipt, BaselineIndex, BaselineRow, BaselineLink, AnalysisRow, ClassificationBatch, ClassificationIndex,
    MechanicalReceipt, MechanicalLink]

  const TEMPORAL_RUN := [
    IncomingBundle, IncomingIndex, IncomingRow, SuiteRow, IncomingLink, SuiteLink,
    BaselineReceipt, BaselineIndex, BaselineRow, BaselineLink, AnalysisRow, ClassificationBatch, ClassificationIndex,
    DependencyBatch, DependencyIndex, Manifest, TemporalIndex, TemporalCommit, ProposalLink, ReviewRow, ReviewLink]

  predicate IsCall(slot: Slot) { slot.ClaimOf? || slot.AnswerOf? }

  /** The slots of the records that are not provider calls. */
  function Spine(t: seq<Rec>): seq<Slot> {
    if t == [] then []
    else
      var init := Spine(t[..|t| - 1]);
      if IsCall(t[|t| - 1].slot) then init else init + [t[|t| - 1].slot]
  }

  /** The first record of a stage that is not a call. */
  function EvidenceOf(stage: Stage): Slot {
    match stage
    case Extraction => IncomingBundle
    case Baseline => BaselineReceipt
    case Classification => ClassificationBatch
    case Dependency => DependencyBatch
  }

  /** The saga is at record `k` of this run, or at the calls before it. */
  predicate At(run: seq<Slot>, k: nat, pc: Pc) {
    match pc
    case Done => k == |run|
    case Writing(slot) => k < |run| && slot == run[k]
    case Calling(stage, _, _) => k < |run| && EvidenceOf(stage) == run[k]
    case Answering(stage, _, _) => k < |run| && EvidenceOf(stage) == run[k]
  }

  lemma AtNext(w: World, run: seq<Slot>, k: nat, seen: seq<Rec>)
    requires (run == MECHANICAL_RUN || run == TEMPORAL_RUN) && k < |run|
    ensures var next := Advance(w, Writing(run[k]), seen);
      if k == 12 then At(MECHANICAL_RUN, 13, next) || At(TEMPORAL_RUN, 13, next) else At(run, k + 1, next)
  {
  }

  lemma SameBeginning()
    ensures MECHANICAL_RUN[..13] == TEMPORAL_RUN[..13]
  {
  }

  /** The saga has written the beginning `done` of this run. */
  ghost predicate Along(run: seq<Slot>, done: seq<Slot>, pc: Pc) { done <= run && At(run, |done|, pc) }

  lemma AlongNext(w: World, run: seq<Slot>, done: seq<Slot>, pc: Pc, seen: seq<Rec>)
    requires run == MECHANICAL_RUN || run == TEMPORAL_RUN
    requires Along(run, done, pc) && pc.Writing?
    ensures var next, more := Advance(w, pc, seen), done + [pc.slot];
      Along(MECHANICAL_RUN, more, next) || Along(TEMPORAL_RUN, more, next)
  {
    AtNext(w, run, |done|, seen);
    SameBeginning();
    assert done + [pc.slot] == run[..|done| + 1];
  }

  lemma {:induction false} ChainAlong(w: World, t: seq<Rec>)
    requires Chain(w, t)
    ensures Along(MECHANICAL_RUN, Spine(t), PcAfter(w, t)) || Along(TEMPORAL_RUN, Spine(t), PcAfter(w, t))
    decreases |t|
  {
    if t != [] {
      var n := |t| - 1;
      ChainPrefix(w, t, n);
      ChainAlong(w, t[..n]);
      ChainStep(w, t, n);
      SlotsBefore(w, t[..n]);
      var pc := PcAfter(w, t[..n]);
      assert t[..n + 1] == t;
      if pc.Writing? {
        if Along(MECHANICAL_RUN, Spine(t[..n]), pc) { AlongNext(w, MECHANICAL_RUN, Spine(t[..n]), pc, t); }
        else { AlongNext(w, TEMPORAL_RUN, Spine(t[..n]), pc, t); }
      }
    }
  }

  lemma {:induction false} SpineHas(t: seq<Rec>, slot: Slot)
    ensures slot in Spine(t) <==> Has(t, slot) && !IsCall(slot)
    decreases |t|
  {
    if t != [] {
      var u := t[..|t| - 1];
      SpineHas(u, slot);
      assert Has(t, slot) <==> Has(u, slot) || Last(t) == slot by {
        if Has(u, slot) { var i :| 0 <= i < |u| && u[i].slot == slot; assert t[i].slot == slot; }
        if Has(t, slot) { var i :| 0 <= i < |t| && t[i].slot == slot; if i < |u| { assert u[i].slot == slot; } }
        if Last(t) == slot { assert t[|t| - 1].slot == slot; }
      }
    }
  }

  /** After any history of kills and retries the durable records, calls apart, are the first ones of one of two
    runs; an attempt that completes leaves a whole run. */
  lemma RecordsComeInOrder(w: World, events: seq<Event>)
    ensures exists run, n: nat :: (run == MECHANICAL_RUN || run == TEMPORAL_RUN) && n <= |run| && FirstOf(run, n, After(w, map[], events))
  {
    var t, torn := AfterContinues(w, map[], [], false, events);
    var run := HoldsFirst(w, After(w, map[], events), t, torn);
  }

  lemma CompletedHasAll(w: World, events: seq<Event>, input: Slot -> int, life: Life)
    ensures var r := Attempt(w, After(w, map[], events), input, life);
      r.outcome == Completed ==> FirstOf(MECHANICAL_RUN, |MECHANICAL_RUN|, r.store) || FirstOf(TEMPORAL_RUN, |TEMPORAL_RUN|, r.store)
  {
    var t, torn := AfterContinues(w, map[], [], false, events);
    var t', torn' := AttemptContinues(w, After(w, map[], events), t, torn, input, life);
    var run := HoldsFirst(w, Attempt(w, After(w, map[], events), input, life).store, t', torn');
  }

  ghost predicate FirstOf(run: seq<Slot>, n: nat, m: Store)
    requires n <= |run|
  {
    forall slot :: !IsCall(slot) ==> (slot in m <==> slot in run[..n])
  }

  lemma HoldsFirst(w: World, m: Store, t: seq<Rec>, torn: bool) returns (run: seq<Slot>)
    requires Chain(w, t) && Holds(m, t, torn)
    ensures (run == MECHANICAL_RUN || run == TEMPORAL_RUN) && |Spine(t)| <= |run| && FirstOf(run, |Spine(t)|, m)
    ensures PcAfter(w, t).Done? ==> |Spine(t)| == |run|
  {
    ChainAlong(w, t);
    run := if Along(MECHANICAL_RUN, Spine(t), PcAfter(w, t)) then MECHANICAL_RUN else TEMPORAL_RUN;
    assert run[..|Spine(t)|] == Spine(t);
    forall slot | !IsCall(slot) ensures slot in m <==> slot in Spine(t) {
      SpineHas(t, slot);
      if Has(t, slot) {
        var i :| 0 <= i < |t| && t[i].slot == slot;
        assert HoldsAt(m, t[i], torn && i == |t| - 1);
      }
    }
  }

  // ----- the calls before a stage -----

  /** The last records are `i` calls of this stage, each claimed and answered in turn, and `n` is how many calls
    the code made of what was known before the first of them. */
  ghost predicate Called(w: World, t: seq<Rec>, stage: Stage, i: nat, n: nat) {
    && 2 * i <= |t| && n == w.calls(stage, t[..|t| - 2 * i])
    && forall j :: 0 <= j < i ==> CalledAt(t, stage, |t| - 2 * i + 2 * j, j)
  }

  ghost predicate CalledAt(t: seq<Rec>, stage: Stage, k: int, j: nat) {
    0 <= k < |t| - 1 && t[k].slot == ClaimOf(stage, j) && t[k + 1].slot == AnswerOf(stage, j)
  }

  ghost predicate CallsSoFar(w: World, t: seq<Rec>, pc: Pc) {
    match pc
    case Calling(stage, i, n) => Called(w, t, stage, i, n)
    case Answering(stage, i, n) => t != [] && Last(t) == ClaimOf(stage, i) && Called(w, t[..|t| - 1], stage, i, n)
    case Writing(slot) => forall stage :: slot == EvidenceOf(stage) ==> exists n :: Called(w, t, stage, n, n)
    case Done => true
  }

  lemma CalledNext(w: World, t: seq<Rec>, stage: Stage, i: nat, n: nat)
    requires |t| >= 2 && Called(w, t[..|t| - 2], stage, i, n)
    requires t[|t| - 2].slot == ClaimOf(stage, i) && t[|t| - 1].slot == AnswerOf(stage, i)
    ensures Called(w, t, stage, i + 1, n)
  {
    var u := t[..|t| - 2];
    assert t[..|t| - 2 * (i + 1)] == u[..|u| - 2 * i];
    forall j | 0 <= j < i + 1 ensures CalledAt(t, stage, |t| - 2 * (i + 1) + 2 * j, j) {
      if j < i { assert CalledAt(u, stage, |u| - 2 * i + 2 * j, j); }
    }
  }

  lemma NoneCalled(w: World, t: seq<Rec>, stage: Stage)
    ensures Called(w, t, stage, 0, w.calls(stage, t))
  {
    assert t[..|t|] == t;
  }

  lemma CallsAdvance(w: World, t: seq<Rec>, pc: Pc)
    requires t != [] && !pc.Done? && WellFormed(pc) && CallsSoFar(w, t[..|t| - 1], pc) && Last(t) == SlotAt(pc)
    ensures CallsSoFar(w, t, Advance(w, pc, t))
  {
    match pc
    case Calling(stage, i, n) =>
    case Answering(stage, i, n) =>
      var u := t[..|t| - 1];
      assert u[..|u| - 1] == t[..|t| - 2];
      CalledNext(w, t, stage, i, n);
    case Writing(slot) =>
      NoneCalled(w, t, Baseline);
      NoneCalled(w, t, Classification);
      NoneCalled(w, t, Dependency);
  }

  lemma {:induction false} ChainCalls(w: World, t: seq<Rec>)
    requires Chain(w, t)
    ensures CallsSoFar(w, t, PcAfter(w, t))
    decreases |t|
  {
    if t == [] {
      NoneCalled(w, t, Extraction);
    } else {
      var n := |t| - 1;
      ChainPrefix(w, t, n);
      ChainCalls(w, t[..n]);
      ChainStep(w, t, n);
      SlotsBefore(w, t[..n]);
      assert t[..n + 1] == t;
      CallsAdvance(w, t, PcAfter(w, t[..n]));
    }
  }

  /** A stage's evidence comes right after all its calls, each claimed and answered before the next is claimed;
    so does each claim after the calls before it. */
  lemma CallsComeInTurn(w: World, t: seq<Rec>, k: nat)
    requires Chain(w, t) && k < |t|
    ensures forall stage :: t[k].slot == EvidenceOf(stage) ==> exists n :: Called(w, t[..k], stage, n, n)
    ensures t[k].slot.ClaimOf? ==> exists n :: t[k].slot.i < n && Called(w, t[..k], t[k].slot.stage, t[k].slot.i, n)
    ensures t[k].slot.AnswerOf? ==> k > 0 && t[k - 1].slot == ClaimOf(t[k].slot.stage, t[k].slot.i)
  {
    ChainPrefix(w, t, k);
    ChainCalls(w, t[..k]);
    ChainStep(w, t, k);
    SlotsBefore(w, t[..k]);
  }

  // ----- what links and indexes name -----

  /** The record that a link, an index or a review request is for. */
  function TargetOf(slot: Slot): Option<Slot> {
    match slot
    case IncomingIndex => Some(IncomingBundle)
    case IncomingLink => Some(IncomingRow)
    case SuiteLink => Some(SuiteRow)
    case BaselineIndex => Some(BaselineReceipt)
    case BaselineLink => Some(BaselineReceipt)
    case ClassificationIndex => Some(ClassificationBatch)
    case DependencyIndex => Some(DependencyBatch)
    case MechanicalLink => Some(MechanicalReceipt)
    case TemporalIndex => Some(Manifest)
    case ProposalLink => Some(TemporalCommit)
    case ReviewRow => Some(TemporalCommit)
    case ReviewLink => Some(ReviewRow)
    case _ => None
  }

  lemma TargetIsEarlier(run: seq<Slot>, n: nat)
    requires (run == MECHANICAL_RUN || run == TEMPORAL_RUN) && n < |run| && TargetOf(run[n]).Some?
    ensures TargetOf(run[n]).value in run[..n]
  {
    var back := if run[n] == BaselineLink then 3 else if run[n] in {IncomingLink, SuiteLink, ReviewRow} then 2 else 1;
    assert run[..n][n - back] == TargetOf(run[n]).value;
  }

  /** A durable link or index names the durable record it is for, as that record is, after any history. */
  lemma LinksNameTheirRecords(w: World, events: seq<Event>, slot: Slot)
    requires TargetOf(slot).Some? && slot in After(w, map[], events)
    ensures var m, target := After(w, map[], events), TargetOf(slot).value;
      target in m && m[slot].sem == Identity(target, m[target].sem, m[target].captured)
  {
    var m := After(w, map[], events);
    var t, torn := AfterContinues(w, map[], [], false, events);
    assert Has(t, slot);
    var k :| 0 <= k < |t| && t[k].slot == slot;
    var i := TargetFound(w, t, k);
    IdentityStored(w, m, t, torn, i, k);
    ChainStep(w, t, k);
    assert HoldsAt(m, t[k], torn && k == |t| - 1);
    NamesItsTarget(w, slot, t[..k]);
  }

  lemma NamesItsTarget(w: World, slot: Slot, seen: seq<Rec>)
    requires TargetOf(slot).Some?
    ensures Sem(w, slot, seen) == IdentityIn(seen, TargetOf(slot).value)
  {
  }

  lemma TargetFound(w: World, t: seq<Rec>, k: nat) returns (i: nat)
    requires Chain(w, t) && k < |t| && TargetOf(t[k].slot).Some?
    ensures i < k && t[i].slot == TargetOf(t[k].slot).value
  {
    var u := t[..k];
    ChainPrefix(w, t, k);
    ChainAlong(w, u);
    ChainStep(w, t, k);
    var run := if Along(MECHANICAL_RUN, Spine(u), PcAfter(w, u)) then MECHANICAL_RUN else TEMPORAL_RUN;
    TargetIsEarlier(run, |Spine(u)|);
    assert run[..|Spine(u)|] == Spine(u);
    SpineHas(u, TargetOf(t[k].slot).value);
    i :| 0 <= i < |u| && u[i].slot == TargetOf(t[k].slot).value;
  }

  // ----- what a kill can leave behind -----

  /** The records that are files. */
  predicate IsFile(slot: Slot) {
    || IsCall(slot)
    || slot in {
         IncomingBundle, IncomingIndex, BaselineReceipt, BaselineIndex, ClassificationBatch, ClassificationIndex,
         MechanicalReceipt, DependencyBatch, DependencyIndex, Manifest, TemporalIndex}
  }

  /** Residue is of one file, the last record. */
  lemma ResidueIsOfOneFile(w: World, events: seq<Event>, slot: Slot, other: Slot)
    requires slot in After(w, map[], events) && After(w, map[], events)[slot].torn
    ensures IsFile(slot)
    ensures other in After(w, map[], events) && After(w, map[], events)[other].torn ==> other == slot
  {
    var t, torn := AfterContinues(w, map[], [], false, events);
    var m := After(w, map[], events);
    TornIsLast(m, t, torn, slot);
    if other in m && m[other].torn { TornIsLast(m, t, torn, other); }
  }

  lemma TornIsLast(m: Store, t: seq<Rec>, torn: bool, slot: Slot)
    requires Holds(m, t, torn) && slot in m && m[slot].torn
    ensures torn && slot == Last(t)
  {
    assert Has(t, slot);
    var i :| 0 <= i < |t| && t[i].slot == slot;
    assert HoldsAt(m, t[i], torn && i == |t| - 1);
  }

  /** And every file can be the one: a start killed between its link and its unlink leaves it. */
  lemma EveryFileCanBeTorn(w: World, t: seq<Rec>, r: Rec) returns (input: Slot -> int, n: nat)
    requires Chain(w, t + [r]) && IsFile(r.slot)
    ensures Holds(After(w, map[], [Start(input, Effects(n))]), t + [r], true)
  {
    var u := t + [r];
    input := InputsOf(w, u);
    forall i | 0 <= i < |t| ensures input(t[i].slot) == t[i].captured { assert u[i] == t[i]; }
    assert u[..|t|] == t;
    ChainPrefix(w, u, |t|);
    var m;
    m, n := StartToEnd(w, t, input, 1);
    assert u[|t|] == r;
    var m' := TornNext(w, m, t, r, input);
  }

  lemma TornNext(w: World, m: Store, t: seq<Rec>, r: Rec, input: Slot -> int) returns (m': Store)
    requires Chain(w, t + [r]) && Holds(m, t, false) && IsFile(r.slot) && r.captured == input(r.slot) && WellFormed(PcAfter(w, t))
    ensures m' == Walk(w, m, t, PcAfter(w, t), input, Effects(1)).store && Holds(m', t + [r], true)
  {
    var u := t + [r];
    assert u[..|t|] == t && u[|t|] == r;
    ChainPrefix(w, u, |t|);
    ChainStep(w, u, |t|);
    HoldsNext(w, m, t, r, true);
    WalkFresh(w, m, t, PcAfter(w, t), input, Effects(1));
    m' := m[r.slot := Cell(r.sem, r.captured, true)];
  }

  /** What other runs clean, and what they do not. */
  lemma OthersCleanExactly(w: World, m: Store, slot: Slot)
    requires slot in m
    ensures var healed := After(w, m, [Heal]);
      && slot in healed && healed[slot].sem == m[slot].sem && healed[slot].captured == m[slot].captured
      && (IsFile(slot) ==> (healed[slot].torn <==> m[slot].torn && (Permanent(slot) || slot in {IncomingBundle, Manifest})))
  {
    assert After(w, m, [Heal]) == After(w, Healed(m), [Heal][1..]);
  }

  // ----- what a record went through -----

  /** Every durable record passed the checks before it, and every recorded answer was accepted. */
  lemma RecordsPassedTheirChecks(w: World, t: seq<Rec>, k: nat)
    requires Chain(w, t) && k < |t|
    ensures t[k].slot == IncomingIndex ==> w.incomingMatches(t[..k])
    ensures t[k].slot == Manifest ==> w.support(t[..k]).Rationale? && w.support(t[..k]).length <= 4000
    ensures t[k].slot.AnswerOf? ==> !w.rejects(t[k].slot, t[..k], t[k].captured)
    ensures !t[k].slot.AnswerOf? && t[k].slot !in {MechanicalLink, ProposalLink, ReviewRow, ReviewLink} ==> !w.objects(t[k].slot, t[..k])
  {
    ChainStep(w, t, k);
  }

  /** A stage is entered only with an exact replay, whether calls come first or its evidence does. */
  lemma StagesAreEnteredExact(w: World, t: seq<Rec>, k: nat, stage: Stage)
    requires Chain(w, t) && k < |t|
    requires t[k].slot == ClaimOf(stage, 0) || (t[k].slot == EvidenceOf(stage) && (k == 0 || !t[k - 1].slot.AnswerOf?))
    ensures w.exactStage(stage, t[..k])
  {
    ChainStep(w, t, k);
    assert k > 0 ==> t[..k][|t[..k]| - 1] == t[k - 1];
    assert Enters(stage, t[k].slot, t[..k]);
  }

  /** Behind the classification comes the dependency stage or the no-change receipt, as the superseding
    classifications have it, and neither without the one predecessor. */
  lemma ClassificationDecides(w: World, t: seq<Rec>, k: nat)
    requires Chain(w, t) && 0 < k < |t| && t[k - 1].slot == ClassificationIndex
    ensures w.predecessors(t[..k]) == 1
    ensures t[k].slot == MechanicalReceipt <==> !w.supersedes(t[..k])
    ensures t[k].slot == ClaimOf(Dependency, 0) || t[k].slot == DependencyBatch <==> w.supersedes(t[..k])
  {
    ChainStep(w, t, k);
    AfterClassification(w, t, k);
    assert LastIs(t[..k], ClassificationIndex);
  }

  lemma AfterClassification(w: World, t: seq<Rec>, k: nat)
    requires Chain(w, t) && 0 < k < |t| && t[k - 1].slot == ClassificationIndex
    ensures PcAfter(w, t[..k]) == if w.supersedes(t[..k]) then Enter(w, Dependency, t[..k]) else Writing(MechanicalReceipt)
  {
    ChainStep(w, t, k - 1);
    ChainPrefix(w, t, k - 1);
    SlotsBefore(w, t[..k - 1]);
    assert PcAfter(w, t[..k - 1]) == Writing(ClassificationIndex);
  }
}
