/** Starts that replay their provider calls: how each ends, and two histories of them. */
module SagaReplays {
  import opened CreateOnlyFiles
  import opened StartSaga
  import opened SagaAttempts
  import opened SagaRecovery
  import opened SagaRecords
  import opened SagaRefusals

  /** No provider is called, and only the checks with a name of their own can object. */
  ghost predicate Offline(w: World) {
    && (forall stage, seen :: w.calls(stage, seen) == 0)
    && (forall slot, seen :: !w.objects(slot, seen))
  }

  /** Offline, and up to the classification every check passes. */
  ghost predicate Replayed(w: World) {
    && Offline(w)
    && (forall stage, seen :: w.exactStage(stage, seen))
    && (forall seen :: w.incomingMatches(seen))
  }

  /** The first `k` records of a run. */
  function RunOf(w: World, run: seq<Slot>, k: nat, input: Slot -> int): (t: seq<Rec>)
    requires k <= |run|
    ensures |t| == k
    ensures forall i :: 0 <= i < k ==> t[i].slot == run[i] && t[i].captured == input(run[i])
  {
    if k == 0 then []
    else
      var t := RunOf(w, run, k - 1, input);
      t + [Rec(run[k - 1], Sem(w, run[k - 1], t), input(run[k - 1]))]
  }

  /** The checks before record `k` of a run without calls. */
  function CheckAt(w: World, run: seq<Slot>, k: nat, seen: seq<Rec>): Objection {
    if k == 0 then if w.exactStage(Extraction, seen) then NoObjection else ReplayMismatch
    else if k == 1 then if w.incomingMatches(seen) then NoObjection else ReplayMismatch
    else if k == 6 then if w.exactStage(Baseline, seen) then NoObjection else ReplayMismatch
    else if k == 11 then if w.exactStage(Classification, seen) then NoObjection else ReplayMismatch
    else if k == 13 then
      if w.predecessors(seen) != 1 then NoSinglePredecessor
      else if run == TEMPORAL_RUN && !w.exactStage(Dependency, seen) then ReplayMismatch
      else NoObjection
    else if k == 15 then
      match w.support(seen)
      case Unsupported => NoSupport
      case Rationale(length) => if length > 4000 then RationaleTooLong else NoObjection
    else NoObjection
  }

  /** The stage that is entered at record `k`. */
  function EnteredAt(run: seq<Slot>, k: nat): Option<Stage> {
    if k == 0 then Some(Extraction)
    else if k == 6 then Some(Baseline)
    else if k == 11 then Some(Classification)
    else if k == 13 && run == TEMPORAL_RUN then Some(Dependency)
    else None
  }

  lemma EntersAt(run: seq<Slot>, k: nat, seen: seq<Rec>, stage: Stage)
    requires (run == MECHANICAL_RUN || run == TEMPORAL_RUN) && k < |run| && |seen| == k
    requires k > 0 ==> Last(seen) == run[k - 1]
    ensures Enters(stage, run[k], seen) <==> EnteredAt(run, k) == Some(stage)
  {
  }

  lemma ObjectionAt(w: World, run: seq<Slot>, k: nat, seen: seq<Rec>)
    requires Offline(w) && (run == MECHANICAL_RUN || run == TEMPORAL_RUN) && k < |run| && |seen| == k
    requires k > 0 ==> Last(seen) == run[k - 1]
    ensures ObjectionTo(w, run[k], seen) == CheckAt(w, run, k, seen)
  {
    forall stage ensures Enters(stage, run[k], seen) <==> EnteredAt(run, k) == Some(stage) { EntersAt(run, k, seen, stage); }
    assert LastIs(seen, ClassificationIndex) <==> k == 13;
    assert run[k] == IncomingIndex <==> k == 1;
    assert run[k] == Manifest <==> k == 15;
  }

  lemma NextOfRun(w: World, run: seq<Slot>, k: nat, seen: seq<Rec>)
    requires Offline(w) && (run == MECHANICAL_RUN || run == TEMPORAL_RUN) && k < |run|
    requires k == 12 ==> (w.supersedes(seen) <==> run == TEMPORAL_RUN)
    ensures Advance(w, Writing(run[k]), seen) == if k + 1 < |run| then Writing(run[k + 1]) else Done
  {
  }

  /** The first `k` records are a chain that comes to the next one. */
  ghost predicate Runs(w: World, run: seq<Slot>, k: nat, input: Slot -> int)
    requires k <= |run|
  {
    var t := RunOf(w, run, k, input);
    Chain(w, t) && Captures(t, 0, input) && PcAfter(w, t) == if k < |run| then Writing(run[k]) else Done
  }

  lemma NoCallInRun(run: seq<Slot>, k: nat)
    requires (run == MECHANICAL_RUN || run == TEMPORAL_RUN) && k < |run|
    ensures !IsCall(run[k])
  {
  }

  /** Nothing speaks against record `k`, and it leads to the next one. */
  ghost predicate GoesOn(w: World, run: seq<Slot>, k: nat, input: Slot -> int)
    requires k < |run|
  {
    && !IsCall(run[k])
    && ObjectionTo(w, run[k], RunOf(w, run, k, input)) == NoObjection
    && Advance(w, Writing(run[k]), RunOf(w, run, k + 1, input)) == if k + 1 < |run| then Writing(run[k + 1]) else Done
  }

  lemma GoesOnUnchecked(w: World, run: seq<Slot>, k: nat, input: Slot -> int)
    requires Offline(w) && (run == MECHANICAL_RUN || run == TEMPORAL_RUN) && k < |run|
    requires CheckAt(w, run, k, RunOf(w, run, k, input)) == NoObjection
    requires k == 12 ==> (w.supersedes(RunOf(w, run, 13, input)) <==> run == TEMPORAL_RUN)
    ensures GoesOn(w, run, k, input)
  {
    ObjectionAt(w, run, k, RunOf(w, run, k, input));
    NoCallInRun(run, k);
    NextOfRun(w, run, k, RunOf(w, run, k + 1, input));
  }

  lemma {:induction false} RunsOn(w: World, run: seq<Slot>, k: nat, input: Slot -> int)
    requires k <= |run| && run != [] && PcAfter(w, []) == Writing(run[0]) && forall j :: 0 <= j < k ==> GoesOn(w, run, j, input)
    ensures Runs(w, run, k, input)
  {
    if k > 0 {
      RunsOn(w, run, k - 1, input);
      assert GoesOn(w, run, k - 1, input);
      var t := RunOf(w, run, k - 1, input);
      ChainExtend(w, t, Rec(run[k - 1], Sem(w, run[k - 1], t), input(run[k - 1])));
    }
  }

  /** As long as no check objects, the first records of a run are a chain. */
  lemma RunIsChain(w: World, run: seq<Slot>, k: nat, input: Slot -> int)
    requires Offline(w) && (run == MECHANICAL_RUN || run == TEMPORAL_RUN) && k <= |run|
    requires forall j :: 0 <= j < k ==> CheckAt(w, run, j, RunOf(w, run, j, input)) == NoObjection
    requires k >= 13 ==> (w.supersedes(RunOf(w, run, 13, input)) <==> run == TEMPORAL_RUN)
    ensures Runs(w, run, k, input)
  {
    forall j | 0 <= j < k ensures GoesOn(w, run, j, input) { GoesOnUnchecked(w, run, j, input); }
    RunsOn(w, run, k, input);
  }

  /** The beginning that both runs have in common. */
  lemma {:induction false} SameStart(w: World, k: nat, input: Slot -> int)
    requires k <= 13
    ensures RunOf(w, MECHANICAL_RUN, k, input) == RunOf(w, TEMPORAL_RUN, k, input)
  {
    if k > 0 {
      SameStart(w, k - 1, input);
      assert MECHANICAL_RUN[k - 1] == TEMPORAL_RUN[k - 1];
    }
  }

  /** The attempt is refused where the first check objects. */
  lemma RefusedAt(w: World, run: seq<Slot>, k: nat, input: Slot -> int)
    requires Offline(w) && (run == MECHANICAL_RUN || run == TEMPORAL_RUN) && k < |run|
    requires forall j :: 0 <= j < k ==> CheckAt(w, run, j, RunOf(w, run, j, input)) == NoObjection
    requires k >= 13 ==> (w.supersedes(RunOf(w, run, 13, input)) <==> run == TEMPORAL_RUN)
    requires CheckAt(w, run, k, RunOf(w, run, k, input)) != NoObjection
    ensures var r := Attempt(w, map[], input, Forever);
      r.outcome == Failed(Refused(CheckAt(w, run, k, RunOf(w, run, k, input)))) && Holds(r.store, RunOf(w, run, k, input), false)
  {
    var t := RunOf(w, run, k, input);
    RunIsChain(w, run, k, input);
    ObjectionAt(w, run, k, t);
    CrashFreeTwin(w, t, input, Failed(Refused(CheckAt(w, run, k, t))));
  }

  lemma CompletesAs(w: World, run: seq<Slot>, input: Slot -> int)
    requires Offline(w) && (run == MECHANICAL_RUN || run == TEMPORAL_RUN)
    requires forall j :: 0 <= j < |run| ==> CheckAt(w, run, j, RunOf(w, run, j, input)) == NoObjection
    requires w.supersedes(RunOf(w, run, 13, input)) <==> run == TEMPORAL_RUN
    ensures var r := Attempt(w, map[], input, Forever);
      r.outcome == Completed && Holds(r.store, RunOf(w, run, |run|, input), false)
  {
    RunIsChain(w, run, |run|, input);
    CrashFreeTwin(w, RunOf(w, run, |run|, input), input, Completed);
  }

  /** What the checks from record `k` on make of a run. */
  function EndFrom(w: World, run: seq<Slot>, k: nat, input: Slot -> int): Outcome
    requires k <= |run|
    decreases |run| - k
  {
    if k == |run| then Completed
    else
      var objection := CheckAt(w, run, k, RunOf(w, run, k, input));
      if objection == NoObjection then EndFrom(w, run, k + 1, input) else Failed(Refused(objection))
  }

  lemma {:induction false} EndsAsChecked(w: World, run: seq<Slot>, k: nat, input: Slot -> int)
    requires Offline(w) && (run == MECHANICAL_RUN || run == TEMPORAL_RUN) && k <= |run|
    requires forall j :: 0 <= j < k ==> CheckAt(w, run, j, RunOf(w, run, j, input)) == NoObjection
    requires w.supersedes(RunOf(w, run, 13, input)) <==> run == TEMPORAL_RUN
    ensures Attempt(w, map[], input, Forever).outcome == EndFrom(w, run, k, input)
    decreases |run| - k
  {
    if k == |run| { CompletesAs(w, run, input); }
    else if CheckAt(w, run, k, RunOf(w, run, k, input)) != NoObjection { RefusedAt(w, run, k, input); }
    else { EndsAsChecked(w, run, k + 1, input); }
  }

  predicate HasCheck(k: int) { k in {0, 1, 6, 11, 13, 15} }

  /** There is nothing to check from record `j` up to record `k`. */
  lemma {:induction false} Unchecked(w: World, run: seq<Slot>, j: nat, k: nat, input: Slot -> int)
    requires j <= k <= |run| && forall i :: j <= i < k ==> !HasCheck(i)
    ensures EndFrom(w, run, j, input) == EndFrom(w, run, k, input)
    decreases k - j
  {
    if j < k {
      assert !HasCheck(j);
      Unchecked(w, run, j + 1, k, input);
    }
  }

  lemma EndOfAdmission(w: World, run: seq<Slot>, input: Slot -> int)
    requires run == MECHANICAL_RUN || run == TEMPORAL_RUN
    ensures EndFrom(w, run, 0, input) ==
      if !w.exactStage(Extraction, []) || !w.incomingMatches(RunOf(w, run, 1, input)) then Failed(Refused(ReplayMismatch))
      else if !w.exactStage(Baseline, RunOf(w, run, 6, input)) || !w.exactStage(Classification, RunOf(w, run, 11, input))
      then Failed(Refused(ReplayMismatch))
      else EndFrom(w, run, 13, input)
  {
    Unchecked(w, run, 2, 6, input);
    Unchecked(w, run, 7, 11, input);
    Unchecked(w, run, 12, 13, input);
  }

  lemma EndOfMechanical(w: World, input: Slot -> int)
    ensures EndFrom(w, MECHANICAL_RUN, 13, input) ==
      if w.predecessors(RunOf(w, MECHANICAL_RUN, 13, input)) != 1 then Failed(Refused(NoSinglePredecessor)) else Completed
  {
    Unchecked(w, MECHANICAL_RUN, 14, 15, input);
  }

  lemma EndOfDependency(w: World, input: Slot -> int)
    ensures var t := RunOf(w, TEMPORAL_RUN, 13, input);
      EndFrom(w, TEMPORAL_RUN, 13, input) ==
        if w.predecessors(t) != 1 then Failed(Refused(NoSinglePredecessor))
        else if !w.exactStage(Dependency, t) then Failed(Refused(ReplayMismatch))
        else EndFrom(w, TEMPORAL_RUN, 15, input)
  {
    Unchecked(w, TEMPORAL_RUN, 14, 15, input);
  }

  lemma EndOfTemporal(w: World, input: Slot -> int)
    ensures var objection := CheckAt(w, TEMPORAL_RUN, 15, RunOf(w, TEMPORAL_RUN, 15, input));
      EndFrom(w, TEMPORAL_RUN, 15, input) == if objection == NoObjection then Completed else Failed(Refused(objection))
  {
    Unchecked(w, TEMPORAL_RUN, 16, 21, input);
  }

  /** How a replayed start ends that nobody kills: the first of its checks to object refuses it, in this order,
    and otherwise it completes, with or without dependencies. */
  lemma ReplayedStartEnds(w: World, input: Slot -> int)
    requires Offline(w)
    ensures var after := (k: nat) requires k <= |TEMPORAL_RUN| => RunOf(w, TEMPORAL_RUN, k, input);
      Attempt(w, map[], input, Forever).outcome ==
        if !w.exactStage(Extraction, []) || !w.incomingMatches(after(1)) then Failed(Refused(ReplayMismatch))
        else if !w.exactStage(Baseline, after(6)) || !w.exactStage(Classification, after(11)) then Failed(Refused(ReplayMismatch))
        else if w.predecessors(after(13)) != 1 then Failed(Refused(NoSinglePredecessor))
        else if !w.supersedes(after(13)) then Completed
        else if !w.exactStage(Dependency, after(13)) then Failed(Refused(ReplayMismatch))
        else if w.support(after(15)).Unsupported? then Failed(Refused(NoSupport))
        else if w.support(after(15)).length > 4000 then Failed(Refused(RationaleTooLong))
        else Completed
  {
    SameStart(w, 1, input);
    SameStart(w, 6, input);
    SameStart(w, 11, input);
    SameStart(w, 13, input);
    if w.supersedes(RunOf(w, TEMPORAL_RUN, 13, input)) {
      EndsAsChecked(w, TEMPORAL_RUN, 0, input);
      EndOfAdmission(w, TEMPORAL_RUN, input);
      EndOfDependency(w, input);
      EndOfTemporal(w, input);
    } else {
      EndsAsChecked(w, MECHANICAL_RUN, 0, input);
      EndOfAdmission(w, MECHANICAL_RUN, input);
      EndOfMechanical(w, input);
    }
  }

  /** An admitted source whose family has no current note, or several: a start with it that nobody kills comes to
    rest behind its classification, with no residue and every call answered, and stays there for good. */
  lemma NoPredecessorIsRefused(w: World, input: Slot -> int, more: seq<Event>)
    requires Replayed(w) && forall seen :: w.predecessors(seen) != 1
    ensures var r := Attempt(w, map[], input, Forever);
      && r.outcome == Failed(Refused(NoSinglePredecessor))
      && ClassificationIndex in r.store && !Blocked(r.store) && !Unanswered(r.store)
      && DeadEnd(w, r.store, Refused(NoSinglePredecessor)) && After(w, r.store, more) == r.store
  {
    var run := if w.supersedes(RunOf(w, TEMPORAL_RUN, 13, input)) then TEMPORAL_RUN else MECHANICAL_RUN;
    SameStart(w, 13, input);
    RestsBehindClassification(w, run, input, more);
  }

  lemma RestsBehindClassification(w: World, run: seq<Slot>, input: Slot -> int, more: seq<Event>)
    requires Replayed(w) && (run == MECHANICAL_RUN || run == TEMPORAL_RUN)
    requires w.supersedes(RunOf(w, run, 13, input)) <==> run == TEMPORAL_RUN
    requires w.predecessors(RunOf(w, run, 13, input)) != 1
    ensures var r := Attempt(w, map[], input, Forever);
      && r.outcome == Failed(Refused(NoSinglePredecessor))
      && ClassificationIndex in r.store && !Blocked(r.store) && !Unanswered(r.store)
      && DeadEnd(w, r.store, Refused(NoSinglePredecessor)) && After(w, r.store, more) == r.store
  {
    var t := RunOf(w, run, 13, input);
    assert run[12] == ClassificationIndex;
    AdmissionPasses(w, run, 13, input);
    RunIsChain(w, run, 13, input);
    ObjectionAt(w, run, 13, t);
    CrashFreeTwin(w, t, input, Failed(Refused(NoSinglePredecessor)));
    var m := Attempt(w, map[], input, Forever).store;
    assert HoldsAt(m, t[12], false);
    RefusedForever(w, m, t, more);
  }

  lemma AdmissionPasses(w: World, run: seq<Slot>, k: nat, input: Slot -> int)
    requires Replayed(w) && k <= 13 <= |run|
    ensures forall j :: 0 <= j < k ==> CheckAt(w, run, j, RunOf(w, run, j, input)) == NoObjection
  {
  }

  /** No history of kills and retries helps such a start: no attempt ever completes. */
  lemma NoPredecessorNeverFinishes(w: World, events: seq<Event>, input: Slot -> int)
    requires Replayed(w) && forall seen :: w.predecessors(seen) != 1
    ensures var m := After(w, map[], events);
      Attempt(w, m, input, Forever).outcome ==
        Failed(if Blocked(m) then Failure.Unreadable else if Unanswered(m) then Indeterminate else Refused(NoSinglePredecessor))
  {
    RetryEndsExactlyAs(w, events, input);
    NoPredecessorIsRefused(w, Recaptured(After(w, map[], events), input), []);
  }

  // ----- residue -----

  /** Wherever a run stands, a kill inside the next write of a record that nobody cleans for it wedges the run:
    nothing ever changes the store again, and no retry gets past it. */
  lemma KilledWriteWedges(w: World, t: seq<Rec>, r: Rec, retry: Slot -> int, more: seq<Event>) returns (input: Slot -> int, n: nat)
    requires Chain(w, t + [r]) && Permanent(r.slot)
    ensures var m := After(w, map[], [Start(input, Effects(n))]);
      && Holds(m, t + [r], true)
      && After(w, m, more) == m
      && Attempt(w, m, retry, Forever) == Result(m, Failed(Failure.Unreadable))
  {
    input, n := EveryFileCanBeTorn(w, t, r);
    var events := [Start(input, Effects(n))];
    var m := After(w, map[], events);
    assert HoldsAt(m, (t + [r])[|t|], true);
    WedgedForever(w, events, more, r.slot);
    RetryEndsExactlyAs(w, events, retry);
    WedgedForever(w, events, [Start(retry, Forever)], r.slot);
    AppliedOnce(w, m, Start(retry, Forever));
  }

  lemma AppliedOnce(w: World, m: Store, e: Event)
    ensures After(w, m, [e]) == Apply(w, m, e)
  {
    assert [e][1..] == [];
  }

  /** No provider call is needed for that: a replayed start killed just after linking its first lifecycle index
    has no claim outstanding, yet no retry of it can ever complete. */
  lemma KilledIndexWriteWedges(w: World, retry: Slot -> int, more: seq<Event>) returns (input: Slot -> int, n: nat)
    requires Replayed(w)
    ensures var m := After(w, map[], [Start(input, Effects(n))]);
      && m.Keys == {IncomingBundle, IncomingIndex} && !Unanswered(m)
      && After(w, m, more) == m
      && Attempt(w, m, retry, Forever) == Result(m, Failed(Failure.Unreadable))
  {
    AdmissionPasses(w, TEMPORAL_RUN, 2, _ => 0);
    RunIsChain(w, TEMPORAL_RUN, 2, _ => 0);
    var u := RunOf(w, TEMPORAL_RUN, 2, _ => 0);
    assert u == u[..1] + [u[1]];
    input, n := KilledWriteWedges(w, u[..1], u[1], retry, more);
    OnlyTheBundle(After(w, map[], [Start(input, Effects(n))]), u);
  }

  lemma OnlyTheBundle(m: Store, t: seq<Rec>)
    requires Holds(m, t, true) && |t| == 2 && t[0].slot == IncomingBundle && t[1].slot == IncomingIndex
    ensures m.Keys == {IncomingBundle, IncomingIndex} && !Unanswered(m)
  {
    assert HoldsAt(m, t[0], false) && HoldsAt(m, t[1], true);
    forall slot | slot in m ensures slot == IncomingBundle || slot == IncomingIndex { assert Has(t, slot); }
  }
}
