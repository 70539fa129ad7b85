/** The resumable start saga: a fixed order of create-only records, each computed from the records before
  it, written by attempts that may be killed after any durable effect and started again from the top. */
module StartSaga {

  /** Stages whose provider calls are claimed one by one before each is made. */
  datatype Stage = Extraction | Baseline | Classification | Dependency

  /** Everything one start makes durable, in the order it is first written. */
  datatype Slot =
    | ClaimOf(stage: Stage, i: nat) | AnswerOf(stage: Stage, i: nat)
    | IncomingBundle | IncomingIndex | IncomingRow | SuiteRow | IncomingLink | SuiteLink
    | BaselineReceipt | BaselineIndex | BaselineRow | BaselineLink | AnalysisRow
    | ClassificationBatch | ClassificationIndex
    | MechanicalReceipt | MechanicalLink
    | DependencyBatch | DependencyIndex | Manifest | TemporalIndex | TemporalCommit
    | ProposalLink | ReviewRow | ReviewLink

  /** How a record reaches the disk.  A `Row` is one SQLite transaction.  The others are linked and then
    unlinked from a pending name; readers of a `Guarded` one refuse the residue of a kill in between, those of
    a `SelfCleaning` one remove it. */
  datatype Kind = Row | SelfCleaning | Guarded

  function KindOf(slot: Slot): Kind {
    match slot
    case IncomingBundle => SelfCleaning
    case Manifest => SelfCleaning
    case IncomingIndex => Guarded
    case BaselineIndex => Guarded
    case ClassificationIndex => Guarded
    case DependencyIndex => Guarded
    case TemporalIndex => Guarded
    case ClaimOf(stage, _) => Guarded
    case AnswerOf(stage, _) => Guarded
    case BaselineReceipt => Guarded
    case ClassificationBatch => Guarded
    case DependencyBatch => Guarded
    case MechanicalReceipt => Guarded
    case _ => Row
  }

  /** Directories shared with other runs, which clean them: the call journals with their own writes, the
    evidence batches also when they reopen a batch of theirs. */
  predicate Healable(slot: Slot) {
    || ((slot.ClaimOf? || slot.AnswerOf?) && slot.stage != Baseline)
    || slot in {ClassificationBatch, DependencyBatch}
  }

  /** What a record means, apart from the time or provider output it captured: something computed, or the
    exact identity of an earlier record. */
  datatype Value = Derived(code: int) | Identity(slot: Slot, sem: Value, captured: int) | CommitOf(owner: Value)

  /** One record: its meaning, and the captured input (`captured`) nobody could have predicted. */
  datatype Rec = Rec(slot: Slot, sem: Value, captured: int)

  /** The accepted classifications that tie the incoming document to its predecessor. */
  datatype Support = Unsupported | Rationale(length: nat)

  const MAX_RATIONALE: nat := 4000

  /** The deterministic parts of the code, as functions of everything read so far.  `rejects` alone looks at a
    provider's answer before it is recorded; `objects` stands for every check without a name of its own. */
  datatype World = World(
    calls: (Stage, seq<Rec>) -> nat,
    derive: (Slot, seq<Rec>) -> int,
    supersedes: seq<Rec> -> bool,
    incomingMatches: seq<Rec> -> bool,
    exactStage: (Stage, seq<Rec>) -> bool,
    predecessors: seq<Rec> -> nat,
    support: seq<Rec> -> Support,
    objects: (Slot, seq<Rec>) -> bool,
    rejects: (Slot, seq<Rec>, int) -> bool)

  // ----- refusals -----

  datatype Objection =
    | NoObjection | ReplayMismatch | NoSinglePredecessor | NoSupport | RationaleTooLong | OtherObjection

  /** What a repair path writes after the decisive record, without looking at the evidence again. */
  predicate Settled(slot: Slot) { slot in {MechanicalLink, ProposalLink, ReviewRow, ReviewLink} }

  predicate LastIs(seen: seq<Rec>, slot: Slot) { seen != [] && seen[|seen| - 1].slot == slot }

  /** The stage that is entered with this record: its first claim, or, without calls, its first evidence. */
  predicate Enters(stage: Stage, slot: Slot, seen: seq<Rec>) {
    slot == ClaimOf(stage, 0) || (slot == AfterCalls(stage).slot && !(seen != [] && seen[|seen| - 1].slot.AnswerOf?))
  }

  /** Why the code goes no further, given what it has read, although nothing durable is in its way. */
  function ObjectionTo(w: World, slot: Slot, seen: seq<Rec>): Objection {
    if Settled(slot) || slot.AnswerOf? then NoObjection
    else if slot == IncomingIndex && !w.incomingMatches(seen) then ReplayMismatch
    else if LastIs(seen, ClassificationIndex) && w.predecessors(seen) != 1 then NoSinglePredecessor
    else if exists stage :: Enters(stage, slot, seen) && !w.exactStage(stage, seen) then ReplayMismatch
    else if slot == Manifest && w.support(seen).Unsupported? then NoSupport
    else if slot == Manifest && w.support(seen).length > MAX_RATIONALE then RationaleTooLong
    else if w.objects(slot, seen) then OtherObjection
    else NoObjection
  }

  /** Nothing speaks against this record, and its answer, if it is one, is accepted. */
  predicate Accepts(w: World, slot: Slot, seen: seq<Rec>, captured: int) {
    ObjectionTo(w, slot, seen) == NoObjection && !(slot.AnswerOf? && w.rejects(slot, seen, captured))
  }

  function IdentityIn(seen: seq<Rec>, slot: Slot): Value
    decreases |seen|
  {
    if seen == [] then Derived(0)
    else
      var last := seen[|seen| - 1];
      if last.slot == slot then Identity(slot, last.sem, last.captured) else IdentityIn(seen[..|seen| - 1], slot)
  }

  function Sem(w: World, slot: Slot, seen: seq<Rec>): Value {
    match slot
    case IncomingIndex => IdentityIn(seen, IncomingBundle)
    case IncomingLink => IdentityIn(seen, IncomingRow)
    case SuiteLink => IdentityIn(seen, SuiteRow)
    case BaselineIndex => IdentityIn(seen, BaselineReceipt)
    case BaselineLink => IdentityIn(seen, BaselineReceipt)
    case ClassificationIndex => IdentityIn(seen, ClassificationBatch)
    case DependencyIndex => IdentityIn(seen, DependencyBatch)
    case MechanicalLink => IdentityIn(seen, MechanicalReceipt)
    case TemporalIndex => IdentityIn(seen, Manifest)
    case TemporalCommit => CommitOf(IdentityIn(seen, Manifest))
    case ProposalLink => IdentityIn(seen, TemporalCommit)
    case ReviewRow => IdentityIn(seen, TemporalCommit)
    case ReviewLink => IdentityIn(seen, ReviewRow)
    case _ => Derived(w.derive(slot, seen))
  }

  // ----- the order of the records -----

  datatype Pc = Calling(stage: Stage, i: nat, n: nat) | Answering(stage: Stage, i: nat, n: nat) | Writing(slot: Slot) | Done

  function SlotAt(pc: Pc): Slot
    requires !pc.Done?
  {
    match pc
    case Calling(stage, i, _) => ClaimOf(stage, i)
    case Answering(stage, i, _) => AnswerOf(stage, i)
    case Writing(slot) => slot
  }

  function AfterCalls(stage: Stage): Pc {
    match stage
    case Extraction => Writing(IncomingBundle)
    case Baseline => Writing(BaselineReceipt)
    case Classification => Writing(ClassificationBatch)
    case Dependency => Writing(DependencyBatch)
  }

  function Enter(w: World, stage: Stage, seen: seq<Rec>): Pc {
    var n := w.calls(stage, seen);
    if n > 0 then Calling(stage, 0, n) else AfterCalls(stage)
  }

  /** Where the saga goes after the record at `pc`, the last of `seen`. */
  function Advance(w: World, pc: Pc, seen: seq<Rec>): Pc {
    match pc
    case Calling(stage, i, n) => Answering(stage, i, n)
    case Answering(stage, i, n) => if i + 1 < n then Calling(stage, i + 1, n) else AfterCalls(stage)
    case Done => Done
    case Writing(slot) =>
      match slot
      case IncomingBundle => Writing(IncomingIndex)
      case IncomingIndex => Writing(IncomingRow)
      case IncomingRow => Writing(SuiteRow)
      case SuiteRow => Writing(IncomingLink)
      case IncomingLink => Writing(SuiteLink)
      case SuiteLink => Enter(w, Baseline, seen)
      case BaselineReceipt => Writing(BaselineIndex)
      case BaselineIndex => Writing(BaselineRow)
      case BaselineRow => Writing(BaselineLink)
      case BaselineLink => Writing(AnalysisRow)
      case AnalysisRow => Enter(w, Classification, seen)
      case ClassificationBatch => Writing(ClassificationIndex)
      case ClassificationIndex => if w.supersedes(seen) then Enter(w, Dependency, seen) else Writing(MechanicalReceipt)
      case MechanicalReceipt => Writing(MechanicalLink)
      case DependencyBatch => Writing(DependencyIndex)
      case DependencyIndex => Writing(Manifest)
      case Manifest => Writing(TemporalIndex)
      case TemporalIndex => Writing(TemporalCommit)
      case TemporalCommit => Writing(ProposalLink)
      case ProposalLink => Writing(ReviewRow)
      case ReviewRow => Writing(ReviewLink)
      case _ => Done
  }

  /** Position of a slot, counted down to the end of the saga. */
  function Rank(slot: Slot): nat {
    match slot
    case ClaimOf(stage, _) => StageRank(stage)
    case AnswerOf(stage, _) => StageRank(stage)
    case IncomingBundle => 25
    case IncomingIndex => 24
    case IncomingRow => 23
    case SuiteRow => 22
    case IncomingLink => 21
    case SuiteLink => 20
    case BaselineReceipt => 18
    case BaselineIndex => 17
    case BaselineRow => 16
    case BaselineLink => 15
    case AnalysisRow => 14
    case ClassificationBatch => 12
    case ClassificationIndex => 11
    case MechanicalReceipt => 10
    case MechanicalLink => 9
    case DependencyBatch => 9
    case DependencyIndex => 8
    case Manifest => 7
    case TemporalIndex => 6
    case TemporalCommit => 5
    case ProposalLink => 4
    case ReviewRow => 3
    case ReviewLink => 2
  }

  function StageRank(stage: Stage): nat {
    match stage case Extraction => 26 case Baseline => 19 case Classification => 13 case Dependency => 10
  }

  function PcRank(pc: Pc): nat { if pc.Done? then 0 else Rank(SlotAt(pc)) }

  function CallsLeft(pc: Pc): nat {
    match pc
    case Calling(_, i, n) => if i < n then 2 * (n - i) else 0
    case Answering(_, i, n) => if i < n then 2 * (n - i) - 1 else 0
    case _ => 0
  }

  predicate WellFormed(pc: Pc) {
    match pc
    case Calling(_, i, n) => i < n
    case Answering(_, i, n) => i < n
    case Writing(slot) => !slot.ClaimOf? && !slot.AnswerOf?
    case Done => true
  }

  lemma AdvanceDescends(w: World, pc: Pc, seen: seq<Rec>)
    requires WellFormed(pc) && !pc.Done?
    ensures var next := Advance(w, pc, seen);
      && WellFormed(next)
      && (PcRank(next) < PcRank(pc) || (PcRank(next) == PcRank(pc) && CallsLeft(next) < CallsLeft(pc)))
  {
  }

  function PcAfter(w: World, t: seq<Rec>): Pc
    decreases |t|
  {
    if t == [] then Enter(w, Extraction, []) else Advance(w, PcAfter(w, t[..|t| - 1]), t)
  }

  /** Record `i` is the one the saga writes after the records before it. */
  ghost predicate Follows(w: World, t: seq<Rec>, i: int)
    requires 0 <= i < |t|
  {
    var pc := PcAfter(w, t[..i]);
    && !pc.Done? && t[i].slot == SlotAt(pc) && t[i].sem == Sem(w, t[i].slot, t[..i])
    && Accepts(w, t[i].slot, t[..i], t[i].captured)
  }

  /** `t` is what some crash-free run has written by some moment; the captured inputs are arbitrary, as far as
    they are accepted. */
  ghost predicate Chain(w: World, t: seq<Rec>) {
    forall i :: 0 <= i < |t| ==> Follows(w, t, i)
  }

  lemma ChainPrefix(w: World, t: seq<Rec>, k: nat)
    requires Chain(w, t) && k <= |t|
    ensures Chain(w, t[..k])
  {
    forall i | 0 <= i < k ensures Follows(w, t[..k], i) {
      assert t[..k][..i] == t[..i];
      assert Follows(w, t, i);
    }
  }

  lemma ChainExtend(w: World, t: seq<Rec>, r: Rec)
    requires Chain(w, t) && !PcAfter(w, t).Done?
    requires r.slot == SlotAt(PcAfter(w, t)) && r.sem == Sem(w, r.slot, t) && Accepts(w, r.slot, t, r.captured)
    ensures Chain(w, t + [r]) && PcAfter(w, t + [r]) == Advance(w, PcAfter(w, t), t + [r])
  {
    var u := t + [r];
    assert u[..|t|] == t;
    forall i | 0 <= i < |u| ensures Follows(w, u, i) {
      if i < |t| {
        assert u[..i] == t[..i];
        assert Follows(w, t, i);
      }
    }
  }

  /** Strictly earlier in the saga than the record at `pc`. */
  predicate Before(slot: Slot, pc: Pc) {
    || Rank(slot) > PcRank(pc)
    || (pc.Calling? && (slot.ClaimOf? || slot.AnswerOf?) && slot.stage == pc.stage && slot.i < pc.i)
    || (pc.Answering? && (slot.ClaimOf? || slot.AnswerOf?) && slot.stage == pc.stage && (slot.i < pc.i || slot == ClaimOf(pc.stage, pc.i)))
  }

  lemma {:induction false} SlotsBefore(w: World, t: seq<Rec>)
    requires Chain(w, t)
    ensures WellFormed(PcAfter(w, t))
    ensures forall i :: 0 <= i < |t| ==> Before(t[i].slot, PcAfter(w, t))
    decreases |t|
  {
    if t != [] {
      var n := |t| - 1;
      ChainPrefix(w, t, n);
      SlotsBefore(w, t[..n]);
      assert Follows(w, t, n);
      var pc := PcAfter(w, t[..n]);
      AdvanceDescends(w, pc, t);
      forall i | 0 <= i < |t| ensures Before(t[i].slot, PcAfter(w, t)) {
        if i < n { assert t[..n][i] == t[i]; }
      }
    }
  }

  /** No slot is written twice. */
  lemma SlotsDistinct(w: World, t: seq<Rec>, i: nat, j: nat)
    requires Chain(w, t) && i < j < |t|
    ensures t[i].slot != t[j].slot
  {
    ChainPrefix(w, t, j);
    SlotsBefore(w, t[..j]);
    assert t[..j][i] == t[i];
    assert Follows(w, t, j);
  }
}
