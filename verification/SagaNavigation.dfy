/** Every link set the start saga can leave, and what the read model makes of it. */
module SagaNavigation {
  import opened StartSaga
  import opened SagaAttempts
  import opened SagaRecovery
  import opened SagaRecords
  import opened SagaReplays
  import opened StartNavigation

  /** The links of a run: those of its bootstrap, and those the saga has recorded. */
  function LinksOf(m: Store): set<Link> {
    BASE_LINKS
    + (if IncomingLink in m then {IncomingSource} else {})
    + (if SuiteLink in m then {RegressionSuite} else {})
    + (if BaselineLink in m then {GenerationZeroBaseline} else {})
    + (if ProposalLink in m then {TemporalProposal} else {})
    + (if ReviewLink in m then {TemporalReviewRequest} else {})
    + (if MechanicalLink in m then {MechanicalNoChange} else {})
  }

  /** Which links have been written, one flag for each, by where the saga stands. */
  ghost predicate LinksMatch(incoming: bool, suite: bool, baseline: bool, proposal: bool, review: bool, mechanical: bool, pc: Pc) {
    && (incoming <==> PcRank(pc) < 21)
    && (suite <==> PcRank(pc) < 20)
    && (baseline <==> PcRank(pc) < 15)
    && (proposal <==> pc == Writing(ReviewRow) || pc == Writing(ReviewLink) || review)
    && (review ==> pc.Done?)
    && (mechanical <==> pc.Done? && !review)
  }

  /** The flags of a chain. */
  ghost predicate LinksByPosition(t: seq<Rec>, pc: Pc) {
    LinksMatch(
      Has(t, IncomingLink), Has(t, SuiteLink), Has(t, BaselineLink), Has(t, ProposalLink), Has(t, ReviewLink), Has(t, MechanicalLink), pc)
  }

  lemma LinksAdvance(w: World, pc: Pc, seen: seq<Rec>, incoming: bool, suite: bool, baseline: bool, proposal: bool, review: bool, mechanical: bool)
    requires WellFormed(pc) && !pc.Done? && LinksMatch(incoming, suite, baseline, proposal, review, mechanical, pc)
    ensures var slot := SlotAt(pc);
      LinksMatch(
        incoming || slot == IncomingLink, suite || slot == SuiteLink, baseline || slot == BaselineLink,
        proposal || slot == ProposalLink, review || slot == ReviewLink, mechanical || slot == MechanicalLink,
        Advance(w, pc, seen))
  {
  }

  lemma HasExtend(t: seq<Rec>, slot: Slot)
    requires t != []
    ensures Has(t, slot) <==> Has(t[..|t| - 1], slot) || Last(t) == slot
  {
    var u := t[..|t| - 1];
    if Has(u, slot) {
      var i :| 0 <= i < |u| && u[i].slot == slot;
      assert t[i].slot == slot;
    }
    if Has(t, slot) {
      var i :| 0 <= i < |t| && t[i].slot == slot;
      if i < |u| { assert u[i].slot == slot; }
    }
    if Last(t) == slot { assert t[|t| - 1].slot == slot; }
  }

  lemma {:induction false} ChainLinks(w: World, t: seq<Rec>)
    requires Chain(w, t)
    ensures LinksByPosition(t, PcAfter(w, t))
    decreases |t|
  {
    if t != [] {
      var n := |t| - 1;
      ChainPrefix(w, t, n);
      ChainLinks(w, t[..n]);
      SlotsBefore(w, t[..n]);
      assert Follows(w, t, n);
      HasExtend(t, IncomingLink);
      HasExtend(t, SuiteLink);
      HasExtend(t, BaselineLink);
      HasExtend(t, ProposalLink);
      HasExtend(t, ReviewLink);
      HasExtend(t, MechanicalLink);
      var u := t[..n];
      LinksAdvance(w, PcAfter(w, u), t,
        Has(u, IncomingLink), Has(u, SuiteLink), Has(u, BaselineLink), Has(u, ProposalLink), Has(u, ReviewLink), Has(u, MechanicalLink));
    }
  }

  /** The link sets of the start saga, in order, and the phase each one derives. */
  datatype Progress = Admitting(links: nat) | ProposalLinked | ReviewLinked | NoChangeLinked

  function LinksAt(p: Progress): set<Link> {
    match p
    case Admitting(0) => BASE_LINKS
    case Admitting(1) => BASE_LINKS + {IncomingSource}
    case Admitting(2) => BASE_LINKS + {IncomingSource, RegressionSuite}
    case Admitting(_) => BASE_LINKS + ADMISSION_LINKS
    case ProposalLinked => BASE_LINKS + ADMISSION_LINKS + {TemporalProposal}
    case ReviewLinked => BASE_LINKS + ADMISSION_LINKS + TEMPORAL_OPEN_LINKS
    case NoChangeLinked => BASE_LINKS + ADMISSION_LINKS + {MechanicalNoChange}
  }

  function PhaseAt(p: Progress): Phase {
    if p.ReviewLinked? then AwaitingTemporalReview else if p.NoChangeLinked? then CompletedNoOp else Bootstrapped
  }

  function ProgressOf(m: Store): Progress {
    if MechanicalLink in m then NoChangeLinked
    else if ReviewLink in m then ReviewLinked
    else if ProposalLink in m then ProposalLinked
    else if BaselineLink in m then Admitting(3)
    else if SuiteLink in m then Admitting(2)
    else if IncomingLink in m then Admitting(1)
    else Admitting(0)
  }

  lemma StoredExactly(m: Store, t: seq<Rec>, torn: bool, slot: Slot)
    requires Holds(m, t, torn)
    ensures slot in m <==> Has(t, slot)
  {
    if Has(t, slot) {
      var i :| 0 <= i < |t| && t[i].slot == slot;
      assert HoldsAt(m, t[i], torn && i == |t| - 1);
    }
  }

  /** Each link is only there with the links before it, and the two endings exclude each other. */
  ghost predicate LinksOrdered(m: Store) {
    && (SuiteLink in m ==> IncomingLink in m)
    && (BaselineLink in m ==> SuiteLink in m)
    && (ProposalLink in m ==> BaselineLink in m)
    && (ReviewLink in m ==> ProposalLink in m)
    && (MechanicalLink in m ==> BaselineLink in m && ProposalLink !in m)
  }

  lemma HeldLinksAreOrdered(w: World, m: Store, t: seq<Rec>, torn: bool)
    requires Chain(w, t) && Holds(m, t, torn)
    ensures LinksOrdered(m)
  {
    ChainLinks(w, t);
    StoredExactly(m, t, torn, IncomingLink);
    StoredExactly(m, t, torn, SuiteLink);
    StoredExactly(m, t, torn, BaselineLink);
    StoredExactly(m, t, torn, ProposalLink);
    StoredExactly(m, t, torn, ReviewLink);
    StoredExactly(m, t, torn, MechanicalLink);
  }

  lemma ReachableLinksAreOrdered(w: World, events: seq<Event>)
    ensures LinksOrdered(After(w, map[], events))
  {
    var t, torn := AfterContinues(w, map[], [], false, events);
    HeldLinksAreOrdered(w, After(w, map[], events), t, torn);
  }

  lemma OrderedLinks(m: Store)
    requires LinksOrdered(m)
    ensures LinksOf(m) == LinksAt(ProgressOf(m))
  {
  }

  /** After any history of kills and retries the links are one of seven sets, without a gap, never both a
    no-change link and a temporal one. */
  lemma ReachableLinks(w: World, events: seq<Event>)
    ensures var m := After(w, map[], events);
      && LinksOf(m) == LinksAt(ProgressOf(m))
      && GapFree(LinksOf(m))
      && !(MechanicalNoChange in LinksOf(m) && (TemporalProposal in LinksOf(m) || TemporalReviewRequest in LinksOf(m)))
  {
    ReachableLinksAreOrdered(w, events);
    OrderedLinks(After(w, map[], events));
    LinksAtExclude(ProgressOf(After(w, map[], events)));
  }

  lemma LinksAtExclude(p: Progress)
    ensures !(MechanicalNoChange in LinksAt(p) && (TemporalProposal in LinksAt(p) || TemporalReviewRequest in LinksAt(p)))
  {
  }

  /** The read model derives one phase from them, leaves it alone, and accepts their shape. */
  lemma ReachableLinksAreAccepted(w: World, events: seq<Event>, decided: Decided)
    ensures var m := After(w, map[], events);
      var phase := PhaseAt(ProgressOf(m));
      && phase == (if MechanicalLink in m then CompletedNoOp else if ReviewLink in m then AwaitingTemporalReview else Bootstrapped)
      && DerivePhase(LinksOf(m), NoRequest, decided) == Derived.Phase(phase)
      && PublicPhase(LinksOf(m), phase) == phase
      && ShapeOk(LinksOf(m), phase)
  {
    ReachableLinks(w, events);
    ProgressIsAccepted(ProgressOf(After(w, map[], events)), decided);
  }

  lemma ProgressIsAccepted(p: Progress, decided: Decided)
    ensures DerivePhase(LinksAt(p), NoRequest, decided) == Derived.Phase(PhaseAt(p))
    ensures PublicPhase(LinksAt(p), PhaseAt(p)) == PhaseAt(p)
    ensures ShapeOk(LinksAt(p), PhaseAt(p))
  {
    var links := LinksAt(p);
    assert links * DOWNSTREAM_LINKS == {} || TemporalProposal in links;
    assert TemporalReviewDecision !in links;
    assert p.NoChangeLinked? ==> links * DOWNSTREAM_LINKS == {};
  }

  /** The projected status passes the public validator exactly when the linked baseline covers the admitted
    suite, an open review is undecided, and, until the start has finished, no successor generation is
    active for the aggregate. */
  lemma ReachableStatusIsValidExactlyWhen(w: World, events: seq<Event>, e: Evidence)
    requires e.temporal.Review?
    ensures var m := After(w, map[], events);
      var p := ProgressOf(m);
      LifecycleOk(Project(LinksOf(m), PhaseAt(p), e)) <==>
        && (BaselineLink in m ==> e.baselineCases == e.suiteCases)
        && (p.ReviewLinked? ==> !e.temporal.decided)
        && (!p.ReviewLinked? && !p.NoChangeLinked? ==> e.current.generationNumber == 0)
  {
    var m := After(w, map[], events);
    ReachableLinksAreOrdered(w, events);
    ReachableLinks(w, events);
    StatusIsValidExactlyWhen(ProgressOf(m), e);
    assert BaselineLink in m <==> GenerationZeroBaseline in LinksAt(ProgressOf(m));
  }

  lemma StatusIsValidExactlyWhen(p: Progress, e: Evidence)
    requires e.temporal.Review?
    ensures LifecycleOk(Project(LinksAt(p), PhaseAt(p), e)) <==>
        && (GenerationZeroBaseline in LinksAt(p) ==> e.baselineCases == e.suiteCases)
        && (p.ReviewLinked? ==> !e.temporal.decided)
        && (!p.ReviewLinked? && !p.NoChangeLinked? ==> e.current.generationNumber == 0)
  {
    assert ManagedReviewRequest !in LinksAt(p) && ActivationOperation !in LinksAt(p);
  }

  /** The status condition at one input: a replayed start killed right after recording its first link leaves a
    run that cannot be presented once generation one is active. */
  lemma UnfinishedStartCannotBePresented(w: World, e: Evidence) returns (input: Slot -> int, n: nat)
    requires Replayed(w) && e.temporal.Review? && e.current.generationNumber == 1
    ensures var m := After(w, map[], [Start(input, Effects(n))]);
      LinksOf(m) == BASE_LINKS + {IncomingSource} && !LifecycleOk(Project(LinksOf(m), PhaseAt(ProgressOf(m)), e))
  {
    input, n := FirstLinkReached(w);
    OneLinkCannotBePresented(w, [Start(input, Effects(n))], e);
  }

  lemma OneLinkCannotBePresented(w: World, events: seq<Event>, e: Evidence)
    requires var m := After(w, map[], events); ProgressOf(m) == Admitting(1)
    requires e.temporal.Review? && e.current.generationNumber == 1
    ensures var m := After(w, map[], events);
      LinksOf(m) == BASE_LINKS + {IncomingSource} && !LifecycleOk(Project(LinksOf(m), PhaseAt(ProgressOf(m)), e))
  {
    ReachableLinks(w, events);
    ReachableStatusIsValidExactlyWhen(w, events, e);
  }

  lemma FirstLinkReached(w: World) returns (input: Slot -> int, n: nat)
    requires Replayed(w)
    ensures ProgressOf(After(w, map[], [Start(input, Effects(n))])) == Admitting(1)
  {
    RunIsChain(w, TEMPORAL_RUN, 5, _ => 0);
    var t := RunOf(w, TEMPORAL_RUN, 5, _ => 0);
    input, n := EveryPrefixIsReachable(w, t);
    FirstLinkOnly(After(w, map[], [Start(input, Effects(n))]), t);
  }

  lemma FirstLinkOnly(m: Store, t: seq<Rec>)
    requires Holds(m, t, false) && |t| == 5 && forall i :: 0 <= i < 5 ==> t[i].slot == TEMPORAL_RUN[i]
    ensures ProgressOf(m) == Admitting(1)
  {
    StoredExactly(m, t, false, IncomingLink);
    StoredExactly(m, t, false, SuiteLink);
    StoredExactly(m, t, false, BaselineLink);
    StoredExactly(m, t, false, ProposalLink);
    StoredExactly(m, t, false, ReviewLink);
    StoredExactly(m, t, false, MechanicalLink);
    assert t[4].slot == IncomingLink;
  }
}
