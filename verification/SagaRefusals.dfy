/** How attempts end of their own accord, when a retry completes, and what is permanent. */
module SagaRefusals {
  import opened StartSaga
  import opened SagaAttempts
  import opened SagaRecovery

  /** Chains that captured the same inputs do not branch. */
  lemma {:induction false} ChainsAgree(w: World, t: seq<Rec>, u: seq<Rec>, input: Slot -> int)
    requires Chain(w, t) && Chain(w, u) && Captures(t, 0, input) && Captures(u, 0, input) && |t| <= |u|
    ensures t == u[..|t|]
    decreases |t|
  {
    if t != [] {
      var n := |t| - 1;
      ChainPrefix(w, t, n);
      ChainsAgree(w, t[..n], u, input);
      ChainStep(w, t, n);
      ChainStep(w, u, n);
      assert t == t[..n] + [t[n]] && u[..|t|] == u[..n] + [u[n]];
    }
  }

  /** A beginning of the crash-free run with these inputs, and the record that it comes to next. */
  ghost predicate Comes(w: World, t: seq<Rec>, input: Slot -> int) {
    Chain(w, t) && Captures(t, 0, input) && !PcAfter(w, t).Done?
  }

  /** The run with these inputs comes to a check that objects. */
  ghost predicate MeetsObjection(w: World, input: Slot -> int, why: Objection) {
    why != NoObjection && exists t :: Comes(w, t, input) && ObjectionTo(w, SlotAt(PcAfter(w, t)), t) == why
  }

  /** The run with these inputs comes to a call whose answer is rejected. */
  ghost predicate MeetsRejection(w: World, input: Slot -> int) {
    exists t :: Comes(w, t, input) && ObjectionTo(w, SlotAt(PcAfter(w, t)), t) == NoObjection
      && SlotAt(PcAfter(w, t)).AnswerOf? && w.rejects(SlotAt(PcAfter(w, t)), t, input(SlotAt(PcAfter(w, t))))
  }

  /** The run with these inputs stops in one place only. */
  lemma StopsOnce(w: World, t: seq<Rec>, u: seq<Rec>, input: Slot -> int, outcome: Outcome)
    requires Chain(w, t) && Captures(t, 0, input) && EndsAs(w, t, input, outcome)
    requires Comes(w, u, input) && !Accepts(w, SlotAt(PcAfter(w, u)), u, input(SlotAt(PcAfter(w, u))))
    ensures t == u
  {
    if |u| < |t| {
      ChainsAgree(w, u, t, input);
      ChainStep(w, t, |u|);
    } else {
      ChainsAgree(w, t, u, input);
      assert u[..|u|] == u;
      if |t| < |u| { ChainStep(w, u, |t|); }
    }
  }

  /** The three ends of an attempt from nothing, each with its exact condition on the inputs. */
  lemma CrashFreeEndsExactlyWhen(w: World, input: Slot -> int, why: Objection)
    ensures var outcome := Attempt(w, map[], input, Forever).outcome;
      && (outcome == Completed <==> !MeetsRejection(w, input) && forall o :: !MeetsObjection(w, input, o))
      && (outcome == Failed(Rejected) <==> MeetsRejection(w, input))
      && (why != NoObjection ==> (outcome == Failed(Refused(why)) <==> MeetsObjection(w, input, why)))
  {
    var outcome := Attempt(w, map[], input, Forever).outcome;
    var t := FreshAttemptEnds(w, input);
    if MeetsRejection(w, input) {
      var u :| Comes(w, u, input) && ObjectionTo(w, SlotAt(PcAfter(w, u)), u) == NoObjection
        && SlotAt(PcAfter(w, u)).AnswerOf? && w.rejects(SlotAt(PcAfter(w, u)), u, input(SlotAt(PcAfter(w, u))));
      StopsOnce(w, t, u, input, outcome);
    }
    forall o | MeetsObjection(w, input, o) ensures outcome == Failed(Refused(o)) {
      var u :| Comes(w, u, input) && ObjectionTo(w, SlotAt(PcAfter(w, u)), u) == o;
      StopsOnce(w, t, u, input, outcome);
    }
    if outcome.Failed? { EndsWhereItStops(w, t, input, outcome); }
  }

  lemma EndsWhereItStops(w: World, t: seq<Rec>, input: Slot -> int, outcome: Outcome)
    requires Chain(w, t) && Captures(t, 0, input) && EndsAs(w, t, input, outcome) && OwnEnd(outcome) && outcome.Failed?
    ensures match outcome.why
      case Refused(why) => MeetsObjection(w, input, why)
      case _ => MeetsRejection(w, input)
  {
    assert Comes(w, t, input);
  }

  // ----- refusals and rejections are permanent -----

  lemma NotInTail(w: World, m: Store, t: seq<Rec>)
    requires Chain(w, t) && Holds(m, t, false)
    requires !PcAfter(w, t).Done? && !Settled(SlotAt(PcAfter(w, t)))
    ensures MechanicalReceipt !in m && TemporalCommit !in m
  {
    TailsAreStraight(w);
    if MechanicalReceipt in m {
      assert Has(t, MECHANICAL_TAIL[0]);
      var step := EndsInTail(w, t, MECHANICAL_TAIL);
    }
    if TemporalCommit in m {
      assert Has(t, TEMPORAL_TAIL[0]);
      var step := EndsInTail(w, t, TEMPORAL_TAIL);
    }
  }

  /** Records that are all in order are read back one after the other, at no cost. */
  lemma {:induction false} ReadThrough(w: World, m: Store, t: seq<Rec>, k: nat, n: nat, input: Slot -> int, life: Life)
    requires Chain(w, t) && Holds(m, t, false) && k <= n <= |t| && TemporalCommit !in m && WellFormed(PcAfter(w, t[..k]))
    requires n == |t| ==> !(t != [] && Last(t).ClaimOf?)
    ensures WellFormed(PcAfter(w, t[..n]))
    ensures Walk(w, m, t[..k], PcAfter(w, t[..k]), input, life) == Walk(w, m, t[..n], PcAfter(w, t[..n]), input, life)
    decreases n - k
  {
    if k < n {
      var pc := PcAfter(w, t[..k]);
      ChainStep(w, t, k);
      assert HoldsAt(m, t[k], false);
      if t[k].slot.ClaimOf? { AnswerFollowsClaim(w, m, t, false, k); }
      WalkBack(w, m, t[..k], pc, input, life);
      ReadThrough(w, m, t, k + 1, n, input, life);
    }
  }

  /** Nothing at all can follow these records: every attempt, killed or not, ends here with this failure. */
  ghost predicate DeadEnd(w: World, m: Store, failure: Failure) {
    forall input: Slot -> int, life :: Attempt(w, m, input, life) == Result(m, Failed(failure))
  }

  lemma RefusedIsDeadEnd(w: World, m: Store, t: seq<Rec>)
    requires Chain(w, t) && Holds(m, t, false) && !PcAfter(w, t).Done? && ObjectionTo(w, SlotAt(PcAfter(w, t)), t) != NoObjection
    ensures DeadEnd(w, m, Refused(ObjectionTo(w, SlotAt(PcAfter(w, t)), t)))
  {
    var why := ObjectionTo(w, SlotAt(PcAfter(w, t)), t);
    NotInTail(w, m, t);
    SlotsBefore(w, []);
    SlotsBefore(w, t);
    assert t[..0] == [] && t[..|t|] == t;
    if t != [] && Last(t).ClaimOf? { ClaimThenAnswer(w, t); }
    forall input: Slot -> int, life ensures Attempt(w, m, input, life) == Result(m, Failed(Refused(why))) {
      ReadThrough(w, m, t, 0, |t|, input, life);
      if TemporalIndex in m { NothingTorn(m, t, TemporalIndex); }
      WalkEnds(w, m, t, input, life, Failed(Refused(why)));
    }
  }

  lemma UnansweredIsDeadEnd(w: World, m: Store, t: seq<Rec>)
    requires Chain(w, t) && Holds(m, t, false) && t != [] && Last(t).ClaimOf?
    ensures DeadEnd(w, m, Indeterminate)
  {
    ClaimThenAnswer(w, t);
    NotInTail(w, m, t);
    forall input: Slot -> int, life ensures Attempt(w, m, input, life) == Result(m, Failed(Indeterminate)) {
      WalkToClaim(w, m, t, input, life);
      if TemporalIndex in m { NothingTorn(m, t, TemporalIndex); }
    }
  }

  lemma WalkToClaim(w: World, m: Store, t: seq<Rec>, input: Slot -> int, life: Life)
    requires Chain(w, t) && Holds(m, t, false) && t != [] && Last(t).ClaimOf? && TemporalCommit !in m
    ensures WellFormed(Enter(w, Extraction, []))
    ensures Walk(w, m, [], Enter(w, Extraction, []), input, life) == Result(m, Failed(Indeterminate))
  {
    var n := |t| - 1;
    SlotsBefore(w, []);
    assert t[..0] == [];
    ReadThrough(w, m, t, 0, n, input, life);
    ChainStep(w, t, n);
    AnswerFollowsClaim(w, m, t, false, n);
    assert HoldsAt(m, t[n], false);
    WalkStops(w, m, t[..n], PcAfter(w, t[..n]), input, life);
  }

  lemma ClaimThenAnswer(w: World, t: seq<Rec>)
    requires Chain(w, t) && t != [] && Last(t).ClaimOf?
    ensures !PcAfter(w, t).Done? && SlotAt(PcAfter(w, t)).AnswerOf?
  {
    var n := |t| - 1;
    ChainStep(w, t, n);
    ChainPrefix(w, t, n);
    SlotsBefore(w, t[..n]);
    assert t[..n + 1] == t;
  }

  lemma NothingTorn(m: Store, t: seq<Rec>, slot: Slot)
    requires Holds(m, t, false) && slot in m
    ensures !m[slot].torn
  {
    assert Has(t, slot);
    var i :| 0 <= i < |t| && t[i].slot == slot;
    assert HoldsAt(m, t[i], false);
  }

  lemma NothingToHeal(m: Store, t: seq<Rec>)
    requires Holds(m, t, false)
    ensures Healed(m) == m
  {
    forall slot | slot in m ensures !m[slot].torn { NothingTorn(m, t, slot); }
  }

  lemma {:induction false} DeadEndIsForever(w: World, m: Store, failure: Failure, more: seq<Event>)
    requires DeadEnd(w, m, failure) && Healed(m) == m
    ensures After(w, m, more) == m
    decreases |more|
  {
    if more != [] {
      assert Apply(w, m, more[0]) == m;
      DeadEndIsForever(w, m, failure, more[1..]);
    }
  }

  /** A refusal is permanent: it depends only on what is durable by then, so every later attempt, whatever its
    inputs, is refused for the same reason, and the store never changes again.  A rejected answer is permanent
    in its own way: its claim stays, and every later attempt finds it indeterminate. */
  lemma OwnFailureIsForever(w: World, events: seq<Event>, input: Slot -> int, more: seq<Event>)
    requires var o := Attempt(w, After(w, map[], events), input, Forever).outcome; OwnEnd(o) && o.Failed?
    ensures var r := Attempt(w, After(w, map[], events), input, Forever);
      && DeadEnd(w, r.store, if r.outcome.why.Rejected? then Indeterminate else r.outcome.why)
      && After(w, r.store, more) == r.store
  {
    var m := After(w, map[], events);
    var r := Attempt(w, m, input, Forever);
    var t, torn := AfterContinues(w, map[], [], false, events);
    var t', torn' := AttemptContinues(w, m, t, torn, input, Forever);
    if r.outcome.why.Rejected? {
      BeforeAnAnswer(w, t');
      UnansweredIsDeadEnd(w, r.store, t');
    } else {
      RefusedIsDeadEnd(w, r.store, t');
    }
    NothingToHeal(r.store, t');
    DeadEndIsForever(w, r.store, if r.outcome.why.Rejected? then Indeterminate else r.outcome.why, more);
  }

  lemma BeforeAnAnswer(w: World, t: seq<Rec>)
    requires Chain(w, t) && !PcAfter(w, t).Done? && SlotAt(PcAfter(w, t)).AnswerOf?
    ensures t != [] && Last(t).ClaimOf?
  {
    SlotsBefore(w, t);
    if t != [] {
      var n := |t| - 1;
      ChainPrefix(w, t, n);
      SlotsBefore(w, t[..n]);
      ChainStep(w, t, n);
      assert t[..n + 1] == t;
      AnswerAfterClaim(w, PcAfter(w, t[..n]), t);
    }
  }

  lemma AnswerAfterClaim(w: World, pc: Pc, seen: seq<Rec>)
    requires !pc.Done? && WellFormed(pc) && Advance(w, pc, seen).Answering?
    ensures pc.Calling?
  {
  }

  // ----- the exact condition -----

  /** A retry that is not killed completes exactly when no record it must read carries the residue of a kill, no
    provider claim is indeterminate, no check objects to what the captured inputs lead to, and no further
    answer is rejected. */
  lemma RetryCompletesExactlyWhen(w: World, events: seq<Event>, input: Slot -> int)
    ensures var m := After(w, map[], events);
      var captured := Recaptured(m, input);
      Attempt(w, m, input, Forever).outcome == Completed <==>
        !Blocked(m) && !Unanswered(m) && !MeetsRejection(w, captured) && forall why :: !MeetsObjection(w, captured, why)
  {
    RetryEndsExactlyAs(w, events, input);
    CrashFreeEndsExactlyWhen(w, Recaptured(After(w, map[], events), input), OtherObjection);
  }

  lemma RefusedForever(w: World, m: Store, t: seq<Rec>, more: seq<Event>)
    requires Chain(w, t) && Holds(m, t, false) && !PcAfter(w, t).Done?
    requires t != [] && !Last(t).ClaimOf? && ObjectionTo(w, SlotAt(PcAfter(w, t)), t) != NoObjection
    ensures !Blocked(m) && !Unanswered(m)
    ensures DeadEnd(w, m, Refused(ObjectionTo(w, SlotAt(PcAfter(w, t)), t))) && After(w, m, more) == m
  {
    BlockedMeansTorn(m, t, false);
    UnansweredMeansLast(w, m, t, false);
    RefusedIsDeadEnd(w, m, t);
    NothingToHeal(m, t);
    DeadEndIsForever(w, m, Refused(ObjectionTo(w, SlotAt(PcAfter(w, t)), t)), more);
  }
}
