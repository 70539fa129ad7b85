/** Navigation links, the phase derived from them, the shape the read model demands, and the public status. */
module StartNavigation {

  datatype Link =
    | BootstrapIntent | WorkspaceInventory | LegacyIndexReadiness | GenerationZeroAuthority
    | IncomingSource | RegressionSuite | GenerationZeroBaseline
    | TemporalProposal | TemporalReviewRequest | TemporalReviewDecision
    | ImpactEvidence | RevisionPlanning | ManagedReviewRequest | ManagedReviewDecision
    | ActivationOperation | MechanicalNoChange | Regression | Report

  datatype Phase =
    | Bootstrapped | AwaitingTemporalReview | AwaitingManagedReview | ReadyToActivate
    | Activated | RejectedNoOp | CompletedNoOp

  const BASE_LINKS := {BootstrapIntent, WorkspaceInventory, LegacyIndexReadiness, GenerationZeroAuthority}
  const ADMISSION_LINKS := {IncomingSource, RegressionSuite, GenerationZeroBaseline}
  const TEMPORAL_OPEN_LINKS := {TemporalProposal, TemporalReviewRequest}
  const MANAGED_WORK_LINKS := {ImpactEvidence, RevisionPlanning}
  const DOWNSTREAM_LINKS := {
    TemporalProposal, TemporalReviewRequest, TemporalReviewDecision, ImpactEvidence, RevisionPlanning,
    ManagedReviewRequest, ManagedReviewDecision, ActivationOperation}

  // ----- phase derivation -----

  /** The managed review of a run, as its own records have it. */
  datatype Managed = NoRequest | OpenRequest | ActivationReceipt | BundleRejected | NoActivationPlan | PlanReady

  /** The temporal decision and the planning it led to, as their own records have them. */
  datatype Decided = AllRejected | PlanningNoWork | PlanningWork

  datatype Derived = Phase(phase: Phase) | Corrupt

  function DerivePhase(links: set<Link>, managed: Managed, decided: Decided): Derived {
    match managed
    case OpenRequest => Phase(AwaitingManagedReview)
    case ActivationReceipt => Phase(Activated)
    case BundleRejected => Phase(RejectedNoOp)
    case NoActivationPlan => Phase(CompletedNoOp)
    case PlanReady => Phase(ReadyToActivate)
    case NoRequest =>
      if MechanicalNoChange in links then
        if links * DOWNSTREAM_LINKS != {} then Corrupt else Phase(CompletedNoOp)
      else if TemporalReviewDecision in links then
        if decided.AllRejected? then Phase(RejectedNoOp)
        else if RevisionPlanning in links && decided.PlanningNoWork? then Phase(CompletedNoOp)
        else Phase(AwaitingManagedReview)
      else if TemporalReviewRequest in links then Phase(AwaitingTemporalReview)
      else Phase(Bootstrapped)
  }

  /** The two corrections the read model makes before it checks the shape. */
  function PublicPhase(links: set<Link>, phase: Phase): Phase {
    if phase == AwaitingTemporalReview && TemporalReviewRequest !in links then Bootstrapped
    else if phase == Activated && ActivationOperation !in links then ReadyToActivate
    else phase
  }

  // ----- shape -----

  function AllowedLinks(phase: Phase): set<Link> {
    BASE_LINKS + ADMISSION_LINKS +
    match phase
    case Bootstrapped => {TemporalProposal}
    case AwaitingTemporalReview => TEMPORAL_OPEN_LINKS
    case AwaitingManagedReview => TEMPORAL_OPEN_LINKS + {TemporalReviewDecision} + MANAGED_WORK_LINKS + {ManagedReviewRequest}
    case ReadyToActivate => DOWNSTREAM_LINKS - {ActivationOperation}
    case RejectedNoOp => DOWNSTREAM_LINKS - {ActivationOperation}
    case Activated => DOWNSTREAM_LINKS
    case CompletedNoOp => TEMPORAL_OPEN_LINKS + {TemporalReviewDecision} + MANAGED_WORK_LINKS + {MechanicalNoChange}
  }

  /** The same, link by link: the phases in which a run may have it. */
  lemma LinksByPhase(phase: Phase)
    ensures var allowed := AllowedLinks(phase);
      var open := phase != Bootstrapped;
      var later := open && phase != AwaitingTemporalReview;
      var decided := phase in {ReadyToActivate, Activated, RejectedNoOp};
      && BASE_LINKS <= allowed && ADMISSION_LINKS <= allowed && TemporalProposal in allowed
      && (TemporalReviewRequest in allowed <==> open)
      && (TemporalReviewDecision in allowed <==> later) && (ImpactEvidence in allowed <==> later) && (RevisionPlanning in allowed <==> later)
      && (ManagedReviewRequest in allowed <==> later && phase != CompletedNoOp)
      && (ManagedReviewDecision in allowed <==> decided)
      && (ActivationOperation in allowed <==> phase == Activated)
      && (MechanicalNoChange in allowed <==> phase == CompletedNoOp)
      && Regression !in allowed && Report !in allowed
  {
  }

  const ORDERED_PREFIX := [IncomingSource, RegressionSuite, GenerationZeroBaseline, TemporalProposal]

  /** No link of the ordered prefix is present without all links before it. */
  ghost predicate GapFree(links: set<Link>) {
    forall i, j :: 0 <= i < j < |ORDERED_PREFIX| && ORDERED_PREFIX[j] in links ==> ORDERED_PREFIX[i] in links
  }

  predicate KindsOk(links: set<Link>, phase: Phase) {
    BASE_LINKS <= links <= AllowedLinks(phase) && (phase != Bootstrapped ==> ADMISSION_LINKS <= links)
  }

  /** A run without work ends with nothing but its admission and its terminal link. */
  predicate MechanicalOk(links: set<Link>) {
    MechanicalNoChange in links ==> links == BASE_LINKS + ADMISSION_LINKS + {MechanicalNoChange}
  }

  ghost predicate ShapeOk(links: set<Link>, phase: Phase) {
    KindsOk(links, phase) && MechanicalOk(links) && GapFree(links)
  }

  /** The shape, written out link by link. */
  lemma ShapeExactlyWhen(links: set<Link>, phase: Phase)
    ensures ShapeOk(links, phase) <==>
      && BootstrapIntent in links && WorkspaceInventory in links && LegacyIndexReadiness in links && GenerationZeroAuthority in links
      && links <= AllowedLinks(phase)
      && (phase != Bootstrapped ==> IncomingSource in links && RegressionSuite in links && GenerationZeroBaseline in links)
      && (MechanicalNoChange in links ==>
            && IncomingSource in links && RegressionSuite in links && GenerationZeroBaseline in links
            && links !! {
                 TemporalProposal, TemporalReviewRequest, TemporalReviewDecision, ImpactEvidence, RevisionPlanning,
                 ManagedReviewRequest, ManagedReviewDecision, ActivationOperation, Regression, Report})
      && (RegressionSuite in links ==> IncomingSource in links)
      && (GenerationZeroBaseline in links ==> RegressionSuite in links)
      && (TemporalProposal in links ==> GenerationZeroBaseline in links)
  {
    assert ORDERED_PREFIX[0] == IncomingSource && ORDERED_PREFIX[1] == RegressionSuite;
    assert ORDERED_PREFIX[2] == GenerationZeroBaseline && ORDERED_PREFIX[3] == TemporalProposal;
    forall l | l in links && MechanicalOk(links) && MechanicalNoChange in links
      ensures l in BASE_LINKS + ADMISSION_LINKS + {MechanicalNoChange} { }
  }

  datatype ShapeError = LacksBootstrap | SurplusLinks | PartialAdmission | MechanicalSurplus | EvidenceGap

  datatype Verdict = Accepted | Rejected(error: ShapeError)

  /** The read model's check, with the allowed links and the gap flag built up as it goes. */
  method RequireShape(links: set<Link>, phase: Phase) returns (verdict: Verdict)
    ensures verdict == Accepted <==> ShapeOk(links, phase)
    // the first violated condition is the one reported
    ensures verdict == Rejected(LacksBootstrap) <==> !(BASE_LINKS <= links)
    ensures verdict == Rejected(SurplusLinks) <==> BASE_LINKS <= links && !(links <= AllowedLinks(phase))
    ensures verdict == Rejected(PartialAdmission) <==>
      BASE_LINKS <= links <= AllowedLinks(phase) && phase != Bootstrapped && !(ADMISSION_LINKS <= links)
    ensures verdict == Rejected(MechanicalSurplus) <==> KindsOk(links, phase) && !MechanicalOk(links)
    ensures verdict == Rejected(EvidenceGap) <==> KindsOk(links, phase) && MechanicalOk(links) && !GapFree(links)
  {
    if !(links >= BASE_LINKS) { return Rejected(LacksBootstrap); }
    var allowed := BASE_LINKS;
    if phase == Bootstrapped {
      allowed := allowed + ADMISSION_LINKS + {TemporalProposal};
    } else {
      allowed := allowed + ADMISSION_LINKS;
    }
    if phase in {AwaitingTemporalReview, AwaitingManagedReview, ReadyToActivate, Activated, RejectedNoOp, CompletedNoOp} {
      allowed := allowed + TEMPORAL_OPEN_LINKS;
    }
    if phase in {AwaitingManagedReview, ReadyToActivate, Activated, RejectedNoOp, CompletedNoOp} {
      allowed := allowed + TEMPORAL_OPEN_LINKS + {TemporalReviewDecision};
    }
    if phase in {AwaitingManagedReview, ReadyToActivate, Activated, RejectedNoOp} {
      allowed := allowed + MANAGED_WORK_LINKS + {ManagedReviewRequest};
    }
    if phase == CompletedNoOp {
      allowed := allowed + MANAGED_WORK_LINKS + {MechanicalNoChange};
    }
    if phase in {ReadyToActivate, Activated, RejectedNoOp} {
      allowed := allowed + MANAGED_WORK_LINKS + {ManagedReviewRequest, ManagedReviewDecision};
    }
    if phase == Activated {
      allowed := allowed + {ActivationOperation};
    }
    assert allowed == AllowedLinks(phase);
    if !(links <= allowed) { return Rejected(SurplusLinks); }
    if phase != Bootstrapped && !(links >= ADMISSION_LINKS) { return Rejected(PartialAdmission); }
    if MechanicalNoChange in links && links != BASE_LINKS + ADMISSION_LINKS + {MechanicalNoChange} {
      return Rejected(MechanicalSurplus);
    }
    var seenGap := false;
    for k := 0 to |ORDERED_PREFIX|
      invariant seenGap <==> exists i :: 0 <= i < k && ORDERED_PREFIX[i] !in links
      invariant forall i, j :: 0 <= i < j < k && ORDERED_PREFIX[j] in links ==> ORDERED_PREFIX[i] in links
    {
      if ORDERED_PREFIX[k] !in links {
        seenGap := true;
      } else if seenGap {
        return Rejected(EvidenceGap);
      }
    }
    verdict := Accepted;
  }

  /** The ordered check covers the proposal but not the review request: a link set with a review request and
    no proposal passes, so the shape alone does not say that the temporal links form a chain. */
  lemma ShapeAdmitsReviewWithoutProposal()
    ensures var links := BASE_LINKS + ADMISSION_LINKS + {TemporalReviewRequest};
      && TemporalProposal !in links
      && DerivePhase(links, NoRequest, PlanningWork) == Phase(AwaitingTemporalReview)
      && ShapeOk(links, AwaitingTemporalReview)
  {
    var links := BASE_LINKS + ADMISSION_LINKS + {TemporalReviewRequest};
    assert TemporalReviewRequest in links;
    assert MechanicalNoChange !in links && TemporalReviewDecision !in links;
  }

  // ----- public status -----

  datatype RunOutcome = InProgress | OutcomeActivated | OutcomeRejected | OutcomeCompleted
  datatype NextAction = Resume | SubmitTemporalReview | SubmitManagedReview | Activate | NoAction

  function OutcomeOf(phase: Phase): RunOutcome {
    match phase
    case Activated => OutcomeActivated
    case RejectedNoOp => OutcomeRejected
    case CompletedNoOp => OutcomeCompleted
    case _ => InProgress
  }

  function NextActionOf(phase: Phase): NextAction {
    match phase
    case Bootstrapped => Resume
    case AwaitingTemporalReview => SubmitTemporalReview
    case AwaitingManagedReview => SubmitManagedReview
    case ReadyToActivate => Activate
    case _ => NoAction
  }

  datatype Summary = Absent | Cases(count: nat)

  datatype Review = NoReview | Review(subjects: nat, decided: bool)

  datatype Activation = NotActivated | ActivatedAs(generationId: string)

  datatype Authority = Authority(generationId: string, generationNumber: nat, active: bool)

  datatype Completeness = Completeness(
    incoming: bool, suite: bool, baseline: bool, temporal: bool, managed: bool, activation: bool,
    regressionCases: nat, temporalSubjects: nat, managedSubjects: nat)

  datatype Status = Status(
    phase: Phase, outcome: RunOutcome, nextAction: NextAction, current: Authority,
    incoming: bool, suite: Summary, baseline: Summary, temporal: Review, managed: Review, activation: Activation,
    completeness: Completeness)

  /** What the linked records contain. */
  datatype Evidence = Evidence(
    suiteCases: nat, baselineCases: nat, temporal: Review, managed: Review, activatedAs: string, current: Authority)

  function Subjects(review: Review): nat { if review.NoReview? then 0 else review.subjects }

  predicate IsDecided(review: Review) { review.Review? && review.decided }

  function Project(links: set<Link>, phase: Phase, e: Evidence): Status {
    var suite := if RegressionSuite in links then Cases(e.suiteCases) else Absent;
    var baseline := if GenerationZeroBaseline in links then Cases(e.baselineCases) else Absent;
    var temporal := if TemporalReviewRequest in links then e.temporal else NoReview;
    var managed := if ManagedReviewRequest in links then e.managed else NoReview;
    var activation := if ActivationOperation in links then ActivatedAs(e.activatedAs) else NotActivated;
    Status(
      phase, OutcomeOf(phase), NextActionOf(phase), e.current, IncomingSource in links, suite, baseline, temporal, managed,
      activation,
      Completeness(
        IncomingSource in links, suite.Cases?, baseline.Cases?, IsDecided(temporal), IsDecided(managed),
        activation.ActivatedAs?, if suite.Cases? then suite.count else 0, Subjects(temporal), Subjects(managed)))
  }

  predicate PhaseInvariant(phase: Phase, outcome: RunOutcome, action: NextAction) {
    if phase in {Activated, RejectedNoOp, CompletedNoOp} then outcome == OutcomeOf(phase) && action == NoAction
    else
      && outcome == InProgress
      && (phase == Bootstrapped ==> action == Resume)
      && (phase == AwaitingTemporalReview ==> action == SubmitTemporalReview)
      && (phase == AwaitingManagedReview ==> action == SubmitManagedReview)
      && (phase == ReadyToActivate ==> action == Activate)
  }

  /** The public contract's validator. */
  predicate LifecycleOk(s: Status) {
    var c := s.completeness;
    var baseEvidence := s.incoming && s.suite.Cases? && s.baseline.Cases?;
    && PhaseInvariant(s.phase, s.outcome, s.nextAction)
    && c.incoming == s.incoming && c.suite == s.suite.Cases? && c.baseline == s.baseline.Cases?
    && c.temporal == IsDecided(s.temporal) && c.managed == IsDecided(s.managed) && c.activation == s.activation.ActivatedAs?
    && c.regressionCases == (if s.suite.Cases? then s.suite.count else 0)
    && (s.baseline.Cases? ==> s.baseline.count == c.regressionCases)
    && c.temporalSubjects == Subjects(s.temporal) && c.managedSubjects == Subjects(s.managed)
    && match s.phase
       case Bootstrapped => s.activation.NotActivated? && s.current.generationNumber == 0
       case AwaitingTemporalReview =>
         baseEvidence && s.temporal.Review? && !IsDecided(s.temporal) && s.managed.NoReview? && s.activation.NotActivated?
       case AwaitingManagedReview =>
         baseEvidence && IsDecided(s.temporal) && s.managed.Review? && !IsDecided(s.managed) && s.activation.NotActivated?
       case ReadyToActivate => baseEvidence && IsDecided(s.temporal) && IsDecided(s.managed) && s.activation.NotActivated?
       case Activated =>
         && baseEvidence && IsDecided(s.temporal) && IsDecided(s.managed)
         && s.activation == ActivatedAs(s.current.generationId) && s.current.generationNumber == 1 && s.current.active
       case _ => baseEvidence && s.activation.NotActivated?
  }

  /** The status of a run is valid exactly under these conditions on its links and on what the linked records
    contain: nothing else that the validator compares can differ. */
  lemma ProjectedStatusIsValidExactlyWhen(links: set<Link>, phase: Phase, e: Evidence)
    ensures var temporal, managed := TemporalReviewRequest in links && e.temporal.Review?, ManagedReviewRequest in links && e.managed.Review?;
      var admitted := IncomingSource in links && RegressionSuite in links && GenerationZeroBaseline in links;
      var activated := ActivationOperation in links;
      LifecycleOk(Project(links, phase, e)) <==>
        && (GenerationZeroBaseline in links ==> e.baselineCases == if RegressionSuite in links then e.suiteCases else 0)
        && match phase
           case Bootstrapped => !activated && e.current.generationNumber == 0
           case AwaitingTemporalReview => admitted && !activated && temporal && !e.temporal.decided && !managed
           case AwaitingManagedReview =>
             admitted && !activated && temporal && e.temporal.decided && managed && !e.managed.decided
           case ReadyToActivate => admitted && !activated && temporal && e.temporal.decided && managed && e.managed.decided
           case Activated =>
             && admitted && activated && temporal && e.temporal.decided && managed && e.managed.decided
             && e.activatedAs == e.current.generationId && e.current.generationNumber == 1 && e.current.active
           case RejectedNoOp => admitted && !activated
           case CompletedNoOp => admitted && !activated
  {
  }

  /** What the operator of a run is told to do next, and how the run is said to have ended, from the links and
    the records of its reviews alone. */
  lemma OperatorIsTold(links: set<Link>, managed: Managed, decided: Decided, e: Evidence)
    ensures var idle := managed.NoRequest? && MechanicalNoChange !in links;
      var done := TemporalReviewDecision in links;
      var noWork := RevisionPlanning in links && decided.PlanningNoWork?;
      match DerivePhase(links, managed, decided)
      case Corrupt => managed.NoRequest? && MechanicalNoChange in links && exists l :: l in DOWNSTREAM_LINKS && l in links
      case Phase(derived) =>
        var status := Project(links, PublicPhase(links, derived), e);
        && (managed.NoRequest? && MechanicalNoChange in links ==> links !! DOWNSTREAM_LINKS)
        && (status.nextAction == Resume <==> idle && !done && TemporalReviewRequest !in links)
        && (status.nextAction == SubmitTemporalReview <==> idle && !done && TemporalReviewRequest in links)
        && (status.nextAction == SubmitManagedReview <==> managed.OpenRequest? || (idle && done && !decided.AllRejected? && !noWork))
        && (status.nextAction == Activate <==> managed.PlanReady? || (managed.ActivationReceipt? && ActivationOperation !in links))
        && (status.outcome == OutcomeActivated <==> managed.ActivationReceipt? && ActivationOperation in links)
        && (status.outcome == OutcomeRejected <==> managed.BundleRejected? || (idle && done && decided.AllRejected?))
        && (status.outcome == OutcomeCompleted <==>
              || managed.NoActivationPlan? || (managed.NoRequest? && MechanicalNoChange in links)
              || (idle && done && !decided.AllRejected? && noWork))
        && (status.nextAction == NoAction <==> status.outcome != InProgress)
  {
    assert forall l :: l in links && l in DOWNSTREAM_LINKS ==> l in links * DOWNSTREAM_LINKS;
    if links * DOWNSTREAM_LINKS != {} {
      var l :| l in links * DOWNSTREAM_LINKS;
      assert l in DOWNSTREAM_LINKS && l in links;
    }
  }

  /** What the validator demands of any status, projected or not: the action and the outcome follow from the phase,
    and the flags and counts are those of the evidence beside them. */
  lemma ValidatorDemands(s: Status)
    requires LifecycleOk(s)
    ensures s.nextAction == match s.phase
      case Bootstrapped => Resume
      case AwaitingTemporalReview => SubmitTemporalReview
      case AwaitingManagedReview => SubmitManagedReview
      case ReadyToActivate => Activate
      case _ => NoAction
    ensures s.outcome == match s.phase
      case Activated => OutcomeActivated
      case RejectedNoOp => OutcomeRejected
      case CompletedNoOp => OutcomeCompleted
      case _ => InProgress
    ensures s.completeness == Completeness(
      s.incoming, s.suite.Cases?, s.baseline.Cases?, s.temporal.Review? && s.temporal.decided, s.managed.Review? && s.managed.decided,
      s.activation.ActivatedAs?, if s.suite.Cases? then s.suite.count else 0,
      if s.temporal.Review? then s.temporal.subjects else 0, if s.managed.Review? then s.managed.subjects else 0)
    ensures s.baseline.Cases? ==> s.baseline.count == if s.suite.Cases? then s.suite.count else 0
  {
  }
}
