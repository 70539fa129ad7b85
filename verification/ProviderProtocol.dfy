/** Any number of callers running the bridge against one shared journal.

  Every durable effect is one step, a caller may be killed before any of them, and callers interleave
  freely except where the repository lock keeps them out.  A read is taken together with the durable
  effect that follows it, which only the lock holder could have disturbed. */
module ProviderProtocol {
  import opened CreateOnlyFiles
  import opened ProviderCalls

  type Pid = int

  /** What a caller does next.  `begin` runs under the lock from `Reading` to `UnlinkingClaim`, and
    `complete` from `Checking` to `UnlinkingPointer`. */
  datatype Pc =
    | Idle
    | Reading(claim: Claim)
    | LinkingClaim(claim: Claim)
    | UnlinkingClaim(claim: Claim)
    | Fresh(claim: Claim)
    | Answered(claim: Claim, result: CallResult)
    | Checking(claim: Claim, completion: Completion)
    | LinkingResult(claim: Claim, completion: Completion)
    | UnlinkingResult(claim: Claim, completion: Completion)
    | CleaningPointers(claim: Claim, completion: Completion)
    | LinkingPointer(claim: Claim, completion: Completion)
    | UnlinkingPointer(claim: Claim, completion: Completion)
    | Finished(outcome: Outcome)
  {
    predicate InBegin() { Reading? || LinkingClaim? || UnlinkingClaim? }

    predicate InComplete() { Checking? || Publishing() }

    predicate Publishing() {
      LinkingResult? || UnlinkingResult? || CleaningPointers? || LinkingPointer? || UnlinkingPointer?
    }

    predicate Locked() { InBegin() || InComplete() }

    /** This caller created the durable claim and still acts for it. */
    predicate Owner() { UnlinkingClaim? || Fresh? || Answered? || InComplete() }

    predicate ResultStored() { CleaningPointers? || LinkingPointer? || UnlinkingPointer? }
  }

  /** One invocation of the provider and what it answered. */
  datatype Call = Call(claim: Claim, result: CallResult)

  /** What one step of one caller does to the store, to the caller, and to the log of invocations. */
  datatype Reaction = Reaction(store: Store, pc: Pc, calls: seq<Call>)

  datatype Event =
    | Begin(pid: Pid, claim: Claim)
    | Advance(pid: Pid)
    | CallProvider(pid: Pid, answer: CallResult)
    | Complete(pid: Pid, completedAt: string)
    | Kill(pid: Pid)

  function AdvanceBegin(st: Store, pc: Pc): Reaction
    requires pc.InBegin()
  {
    match pc
    case Reading(claim) =>
      (match DecideBegin(st, claim)
       case TakeClaim => Reaction(st.(claims := Cleanup(st.claims)), LinkingClaim(claim), [])
       case Finish(outcome) => Reaction(st, Finished(outcome), []))
    case LinkingClaim(claim) =>
      Reaction(st.(claims := st.claims[claim.CallKey() := File(claim, true)]), UnlinkingClaim(claim), [])
    case UnlinkingClaim(claim) =>
      Reaction(st.(claims := st.claims[claim.CallKey() := File(claim, false)]), Fresh(claim), [])
  }

  function AdvanceComplete(st: Store, pc: Pc): Reaction
    requires pc.InComplete()
  {
    match pc
    case Checking(claim, completion) =>
      (match DecideComplete(st, claim, completion)
       case Publish => Reaction(st.(results := Cleanup(st.results)), LinkingResult(claim, completion), [])
       case FinishComplete(outcome) => Reaction(st, Finished(outcome), []))
    case LinkingResult(claim, completion) =>
      var digest := Sha256(completion);
      if digest !in st.results then
        Reaction(st.(results := st.results[digest := File(completion, true)]), UnlinkingResult(claim, completion), [])
      else if st.results[digest].content == completion then Reaction(st, CleaningPointers(claim, completion), [])
      else Reaction(st, Finished(IntegrityError), [])
    case UnlinkingResult(claim, completion) =>
      Reaction(st.(results := st.results[Sha256(completion) := File(completion, false)]),
               CleaningPointers(claim, completion), [])
    case CleaningPointers(claim, completion) =>
      Reaction(st.(pointers := Cleanup(st.pointers)), LinkingPointer(claim, completion), [])
    case LinkingPointer(claim, completion) =>
      var key := claim.CallKey();
      if key !in st.pointers then
        Reaction(st.(pointers := st.pointers[key := File(Sha256(completion), true)]),
                 UnlinkingPointer(claim, completion), [])
      else if st.pointers[key].content == Sha256(completion) then
        Reaction(st, Finished(Reopen(st, claim, completion)), [])
      else Reaction(st, Finished(IntegrityError), [])
    case UnlinkingPointer(claim, completion) =>
      var st' := st.(pointers := st.pointers[claim.CallKey() := File(Sha256(completion), false)]);
      Reaction(st', Finished(Reopen(st', claim, completion)), [])
  }

  function Reopen(st: Store, claim: Claim, completion: Completion): Outcome {
    if ReadCompletion(st, claim.CallKey()) == Completed(completion) then Returned(completion.result)
    else IntegrityError
  }

  /** The bridge rejects an answer that breaks the raw-output contract after the call has been made. */
  function Answer(st: Store, claim: Claim, answer: CallResult): Reaction {
    var pc := if KeepsContract(claim, answer) then Answered(claim, answer) else Finished(ContractError);
    Reaction(st, pc, [Call(claim, answer)])
  }

  /** One step of one caller.  An event that is not enabled changes nothing. */
  function React(st: Store, pc: Pc, free: bool, e: Event): Reaction {
    match e
    case Begin(_, claim) =>
      Reaction(st, if (pc.Idle? || pc.Finished?) && free then Reading(claim) else pc, [])
    case CallProvider(_, answer) =>
      if pc.Fresh? then Answer(st, pc.claim, answer) else Reaction(st, pc, [])
    case Complete(_, completedAt) =>
      Reaction(st, if pc.Answered? && free then Checking(pc.claim, CompletionOf(pc.claim, pc.result, completedAt)) else pc, [])
    case Kill(_) => Reaction(st, Idle, [])
    case Advance(_) =>
      if pc.InBegin() then AdvanceBegin(st, pc)
      else if pc.InComplete() then AdvanceComplete(st, pc)
      else Reaction(st, pc, [])
  }

  datatype System = System(store: Store, lock: Option<Pid>, procs: map<Pid, Pc>, calls: seq<Call>)

  const INITIAL := System(EMPTY_STORE, None, map[], [])

  function PcOf(s: System, p: Pid): Pc { if p in s.procs then s.procs[p] else Idle }

  /** The kernel releases the lock of a caller that leaves its locked section or dies in it. */
  function Step(s: System, e: Event): System {
    var r := React(s.store, PcOf(s, e.pid), s.lock == None, e);
    var lock := if r.pc.Locked() then Some(e.pid) else if s.lock == Some(e.pid) then None else s.lock;
    System(r.store, lock, s.procs[e.pid := r.pc], s.calls + r.calls)
  }

  function Run(s: System, events: seq<Event>): System
    decreases |events|
  {
    if events == [] then s else Run(Step(s, events[0]), events[1..])
  }

  // ----- the inductive invariant -----

  ghost predicate LockInv(s: System) {
    forall p :: PcOf(s, p).Locked() <==> s.lock == Some(p)
  }

  ghost predicate ClaimStored(st: Store, c: Claim) {
    c.CallKey() in st.claims && st.claims[c.CallKey()].content == c
  }

  /** A published pointer leads to a readable result of the claim stored under the same key, which the
    provider really returned for that claim. */
  ghost predicate PointerOk(st: Store, calls: seq<Call>, k: Key)
    requires k in st.pointers
  {
    var d := st.pointers[k].content;
    && d in st.results
    && !st.results[d].doubled
    && d.of.CallKey() == k
    && k in st.claims
    && d.of.claimId == Sha256(st.claims[k].content)
    && Call(st.claims[k].content, d.of.result) in calls
  }

  /** Every file sits under the name its content determines, and every pointer is sound. */
  ghost predicate FilesInv(st: Store, calls: seq<Call>) {
    && (forall k :: k in st.claims ==> st.claims[k].content.CallKey() == k)
    && (forall d :: d in st.results ==> d == Sha256(st.results[d].content) && ClaimStored(st, d.of.claimId.of))
    && (forall k :: k in st.pointers ==> PointerOk(st, calls, k))
  }

  /** Provider invocations have pairwise different keys, each made for the exact claim stored under it. */
  ghost predicate CallsInv(st: Store, calls: seq<Call>) {
    && (forall i :: 0 <= i < |calls| ==> ClaimStored(st, calls[i].claim))
    && (forall i, j :: 0 <= i < j < |calls| ==> calls[i].claim.CallKey() != calls[j].claim.CallKey())
  }

  ghost predicate NotCalled(calls: seq<Call>, key: Key) {
    forall i :: 0 <= i < |calls| ==> calls[i].claim.CallKey() != key
  }

  /** What the program counter of one caller says about the store and the calls made so far. */
  ghost predicate ProcessInv(st: Store, calls: seq<Call>, pc: Pc) {
    && (pc.LinkingClaim? ==> pc.claim.CallKey() !in st.claims)
    && (pc.Owner() ==> ClaimStored(st, pc.claim))
    && (pc.Owner() && !pc.UnlinkingClaim? ==> !st.claims[pc.claim.CallKey()].doubled)
    && ((pc.UnlinkingClaim? || pc.Fresh?) ==> NotCalled(calls, pc.claim.CallKey()))
    && (pc.Answered? ==> Call(pc.claim, pc.result) in calls)
    && (pc.InComplete() ==> Call(pc.claim, pc.completion.result) in calls && Describes(pc.claim, pc.completion))
    && (pc.Owner() && !pc.UnlinkingPointer? ==> pc.claim.CallKey() !in st.pointers)
    && (pc.Owner() && !pc.UnlinkingResult? && !pc.ResultStored() ==> NoResultOf(st, pc.claim))
    && (pc.Publishing() ==> ResultInv(st, pc))
  }

  ghost predicate Describes(claim: Claim, completion: Completion) {
    completion == CompletionOf(claim, completion.result, completion.completedAt)
  }

  ghost predicate ResultInv(st: Store, pc: Pc)
    requires pc.Publishing()
  {
    var d := Sha256(pc.completion);
    && (pc.LinkingResult? ==> forall k :: k in st.results ==> !st.results[k].doubled)
    && (pc.UnlinkingResult? ==> d in st.results)
    && (pc.ResultStored() ==> d in st.results && st.results[d] == File(pc.completion, false))
    && (pc.UnlinkingPointer? ==> pc.claim.CallKey() in st.pointers && st.pointers[pc.claim.CallKey()].content == d)
  }

  /** No result of this claim has been written, not even as an orphan. */
  ghost predicate NoResultOf(st: Store, claim: Claim) {
    forall d :: d in st.results ==> d.of.claimId != Sha256(claim)
  }

  ghost predicate ProcessesInv(s: System) {
    && (forall p :: ProcessInv(s.store, s.calls, PcOf(s, p)))
    && (forall p, q :: p != q && PcOf(s, p).Owner() && PcOf(s, q).Owner() ==>
          PcOf(s, p).claim.CallKey() != PcOf(s, q).claim.CallKey())
  }

  ghost predicate Inv(s: System) {
    LockInv(s) && FilesInv(s.store, s.calls) && CallsInv(s.store, s.calls) && ProcessesInv(s)
  }

  // ----- what one reaction guarantees to everyone else -----

  /** A reaction touches only its own key, and takes ownership only of a key nobody has claimed. */
  ghost predicate Local(st: Store, pc: Pc, r: Reaction) {
    && Extends(st.claims, r.store.claims)
    && Extends(st.results, r.store.results)
    && Extends(st.pointers, r.store.pointers)
    && (r.store != st ==> pc.Locked())
    && (forall k :: k in r.store.pointers && k !in st.pointers ==> pc.Owner() && k == pc.claim.CallKey())
    && (forall d :: d in r.store.results && d !in st.results ==> pc.Owner() && d.of.claimId == Sha256(pc.claim))
    && (r.calls != [] ==> pc.Owner() && |r.calls| == 1 && r.calls[0].claim == pc.claim)
    && (r.pc.Owner() ==> (pc.Owner() || (pc.LinkingClaim? && pc.claim.CallKey() !in st.claims)) && r.pc.claim == pc.claim)
  }

  ghost predicate Sound(st: Store, calls: seq<Call>, r: Reaction) {
    && FilesInv(r.store, calls + r.calls)
    && CallsInv(r.store, calls + r.calls)
    && ProcessInv(r.store, calls + r.calls, r.pc)
  }

  ghost predicate Ready(st: Store, calls: seq<Call>, pc: Pc) {
    FilesInv(st, calls) && CallsInv(st, calls) && ProcessInv(st, calls, pc)
  }

  ghost predicate Good(st: Store, calls: seq<Call>, pc: Pc, r: Reaction) {
    Local(st, pc, r) && Sound(st, calls, r)
  }

  /** Pointers stay sound while results and claims only grow. */
  lemma PointersStaySound(st: Store, st': Store, calls: seq<Call>, more: seq<Call>)
    requires FilesInv(st, calls)
    requires Extends(st.claims, st'.claims) && Extends(st.results, st'.results)
    ensures forall k :: k in st.pointers && k in st'.pointers && st'.pointers[k].content == st.pointers[k].content ==>
              PointerOk(st', calls + more, k)
  {
    forall k | k in st.pointers && k in st'.pointers && st'.pointers[k].content == st.pointers[k].content
      ensures PointerOk(st', calls + more, k)
    {
      assert PointerOk(st, calls, k);
    }
  }

  lemma CallsStaySound(st: Store, st': Store, calls: seq<Call>)
    requires CallsInv(st, calls) && Extends(st.claims, st'.claims)
    ensures CallsInv(st', calls)
  {
    forall i | 0 <= i < |calls| ensures ClaimStored(st', calls[i].claim) {
      assert ClaimStored(st, calls[i].claim);
    }
  }

  lemma ReadingReaction(st: Store, calls: seq<Call>, pc: Pc)
    requires pc.Reading? && Ready(st, calls, pc)
    ensures Good(st, calls, pc, AdvanceBegin(st, pc))
  {
    var r := AdvanceBegin(st, pc);
    assert calls + r.calls == calls;
    assert Local(st, pc, r);
    assert CallsInv(r.store, calls) by { CallsStaySound(st, r.store, calls); }
    assert FilesInv(r.store, calls) by { PointersStaySound(st, r.store, calls, []); }
  }

  /** A key without a durable claim has no pointer and no call. */
  lemma UnclaimedKey(st: Store, calls: seq<Call>, key: Key)
    requires FilesInv(st, calls) && CallsInv(st, calls) && key !in st.claims
    ensures key !in st.pointers && NotCalled(calls, key)
  {
    assert key in st.pointers ==> PointerOk(st, calls, key);
    forall i | 0 <= i < |calls| ensures calls[i].claim.CallKey() != key {
      assert ClaimStored(st, calls[i].claim);
    }
  }

  lemma LinkingClaimReaction(st: Store, calls: seq<Call>, pc: Pc)
    requires pc.LinkingClaim? && Ready(st, calls, pc)
    ensures Good(st, calls, pc, AdvanceBegin(st, pc))
  {
    var r := AdvanceBegin(st, pc);
    assert calls + r.calls == calls;
    UnclaimedKey(st, calls, pc.claim.CallKey());
    assert FilesInv(r.store, calls) by { PointersStaySound(st, r.store, calls, []); }
    assert CallsInv(r.store, calls) by { CallsStaySound(st, r.store, calls); }
  }

  lemma UnlinkingClaimReaction(st: Store, calls: seq<Call>, pc: Pc)
    requires pc.UnlinkingClaim? && Ready(st, calls, pc)
    ensures Good(st, calls, pc, AdvanceBegin(st, pc))
  {
    var r := AdvanceBegin(st, pc);
    assert calls + r.calls == calls;
    CallsStaySound(st, r.store, calls);
    PointersStaySound(st, r.store, calls, []);
  }

  lemma CheckingReaction(st: Store, calls: seq<Call>, pc: Pc)
    requires pc.Checking? && Ready(st, calls, pc)
    ensures Good(st, calls, pc, AdvanceComplete(st, pc))
  {
    var r := AdvanceComplete(st, pc);
    assert calls + r.calls == calls;
    PointersStaySound(st, r.store, calls, []);
  }

  lemma LinkingResultReaction(st: Store, calls: seq<Call>, pc: Pc)
    requires pc.LinkingResult? && Ready(st, calls, pc)
    ensures Good(st, calls, pc, AdvanceComplete(st, pc))
  {
    assert Sha256(pc.completion) !in st.results;
    var r := AdvanceComplete(st, pc);
    assert calls + r.calls == calls;
    assert FilesInv(r.store, calls) by { PointersStaySound(st, r.store, calls, []); }
    assert CallsInv(r.store, calls) by { CallsStaySound(st, r.store, calls); }
  }

  lemma UnlinkingResultReaction(st: Store, calls: seq<Call>, pc: Pc)
    requires pc.UnlinkingResult? && Ready(st, calls, pc)
    ensures Good(st, calls, pc, AdvanceComplete(st, pc))
  {
    var r := AdvanceComplete(st, pc);
    assert calls + r.calls == calls;
    assert FilesInv(r.store, calls) by { PointersStaySound(st, r.store, calls, []); }
    assert CallsInv(r.store, calls) by { CallsStaySound(st, r.store, calls); }
  }

  lemma CleaningPointersReaction(st: Store, calls: seq<Call>, pc: Pc)
    requires pc.CleaningPointers? && Ready(st, calls, pc)
    ensures Good(st, calls, pc, AdvanceComplete(st, pc))
  {
    var r := AdvanceComplete(st, pc);
    assert calls + r.calls == calls;
    PointersStaySound(st, r.store, calls, []);
  }

  lemma LinkingPointerReaction(st: Store, calls: seq<Call>, pc: Pc)
    requires pc.LinkingPointer? && Ready(st, calls, pc)
    ensures Good(st, calls, pc, AdvanceComplete(st, pc))
  {
    var r := AdvanceComplete(st, pc);
    assert calls + r.calls == calls;
    PointersStaySound(st, r.store, calls, []);
    assert PointerOk(r.store, calls, pc.claim.CallKey());
  }

  lemma UnlinkingPointerReaction(st: Store, calls: seq<Call>, pc: Pc, outcome: Outcome)
    requires pc.UnlinkingPointer? && Ready(st, calls, pc)
    ensures var pointers := st.pointers[pc.claim.CallKey() := File(Sha256(pc.completion), false)];
      Good(st, calls, pc, Reaction(st.(pointers := pointers), Finished(outcome), []))
  {
    var st' := st.(pointers := st.pointers[pc.claim.CallKey() := File(Sha256(pc.completion), false)]);
    assert calls + [] == calls;
    PointersStaySound(st, st', calls, []);
    assert PointerOk(st', calls, pc.claim.CallKey());
  }

  lemma CallReaction(st: Store, calls: seq<Call>, pc: Pc, answer: CallResult)
    requires pc.Fresh? && Ready(st, calls, pc)
    ensures Good(st, calls, pc, Answer(st, pc.claim, answer))
  {
    var r := Answer(st, pc.claim, answer);
    assert Local(st, pc, r);
    PointersStaySound(st, st, calls, r.calls);
    assert Call(pc.claim, answer) in calls + r.calls;
  }

  lemma CompleteReaction(st: Store, calls: seq<Call>, pc: Pc, completedAt: string)
    requires pc.Answered? && Ready(st, calls, pc)
    ensures Good(st, calls, pc, React(st, pc, true, Complete(0, completedAt)))
  {
    assert calls + [] == calls;
  }

  lemma StandingReaction(st: Store, calls: seq<Call>, pc: Pc)
    requires Ready(st, calls, pc)
    ensures Good(st, calls, pc, Reaction(st, pc, []))
  {
    assert calls + [] == calls;
  }

  lemma OwnerlessReaction(st: Store, calls: seq<Call>, pc: Pc, pc': Pc)
    requires Ready(st, calls, pc)
    requires !pc'.Owner() && !pc'.LinkingClaim?
    ensures Good(st, calls, pc, Reaction(st, pc', []))
  {
    assert calls + [] == calls;
  }

  lemma QuietReaction(st: Store, calls: seq<Call>, pc: Pc, free: bool, e: Event)
    requires Ready(st, calls, pc)
    requires e.Begin? || e.Kill? || React(st, pc, free, e) == Reaction(st, pc, [])
    ensures Good(st, calls, pc, React(st, pc, free, e))
  {
    var r := React(st, pc, free, e);
    assert r.store == st && r.calls == [];
    if r.pc == pc {
      StandingReaction(st, calls, pc);
    } else {
      OwnerlessReaction(st, calls, pc, r.pc);
    }
  }

  lemma ReactionIsSound(st: Store, calls: seq<Call>, pc: Pc, free: bool, e: Event)
    requires Ready(st, calls, pc)
    ensures Good(st, calls, pc, React(st, pc, free, e))
  {
    if e.Advance? && pc.Locked() {
      match pc
      case Reading(_) => ReadingReaction(st, calls, pc);
      case LinkingClaim(_) => LinkingClaimReaction(st, calls, pc);
      case UnlinkingClaim(_) => UnlinkingClaimReaction(st, calls, pc);
      case Checking(_, _) => CheckingReaction(st, calls, pc);
      case LinkingResult(_, _) => LinkingResultReaction(st, calls, pc);
      case UnlinkingResult(_, _) => UnlinkingResultReaction(st, calls, pc);
      case CleaningPointers(_, _) => CleaningPointersReaction(st, calls, pc);
      case LinkingPointer(_, _) => LinkingPointerReaction(st, calls, pc);
      case UnlinkingPointer(_, _) => UnlinkingPointerReaction(st, calls, pc, React(st, pc, free, e).pc.outcome);
    } else if e.CallProvider? && pc.Fresh? {
      CallReaction(st, calls, pc, e.answer);
    } else if e.Complete? && pc.Answered? && free {
      CompleteReaction(st, calls, pc, e.completedAt);
    } else {
      QuietReaction(st, calls, pc, free, e);
    }
  }

  // ----- whole runs -----

  lemma StandingProcess(st: Store, calls: seq<Call>, pc: Pc, r: Reaction, other: Pc)
    requires Local(st, pc, r) && Ready(st, calls, other)
    requires !(pc.Locked() && other.Locked())
    requires pc.Owner() && other.Owner() ==> pc.claim.CallKey() != other.claim.CallKey()
    ensures ProcessInv(r.store, calls + r.calls, other)
  {
    if r.calls == [] {
      assert calls + r.calls == calls;
    }
  }

  lemma LockStep(s: System, e: Event)
    requires LockInv(s)
    requires React(s.store, PcOf(s, e.pid), s.lock == None, e).pc.Locked() ==> PcOf(s, e.pid).Locked() || s.lock == None
    ensures LockInv(Step(s, e))
  {
    var t := Step(s, e);
    forall q ensures PcOf(t, q).Locked() <==> t.lock == Some(q) {
      assert PcOf(s, q).Locked() <==> s.lock == Some(q);
      assert PcOf(s, e.pid).Locked() <==> s.lock == Some(e.pid);
    }
  }

  lemma ReactRespectsLock(st: Store, pc: Pc, free: bool, e: Event)
    ensures React(st, pc, free, e).pc.Locked() ==> pc.Locked() || free
  {
  }

  lemma OwnersStep(s: System, e: Event, r: Reaction, p: Pid)
    requires Inv(s) && r == React(s.store, PcOf(s, e.pid), s.lock == None, e) && Local(s.store, PcOf(s, e.pid), r)
    requires p != e.pid && PcOf(s, p).Owner() && r.pc.Owner()
    ensures PcOf(s, p).claim.CallKey() != r.pc.claim.CallKey()
  {
    assert ProcessInv(s.store, s.calls, PcOf(s, p));
    if PcOf(s, e.pid).Owner() {
      assert PcOf(s, p).claim.CallKey() != PcOf(s, e.pid).claim.CallKey();
    } else {
      assert ClaimStored(s.store, PcOf(s, p).claim);
    }
  }

  lemma ProcessesStep(s: System, e: Event, r: Reaction, q: Pid)
    requires Inv(s) && r == React(s.store, PcOf(s, e.pid), s.lock == None, e) && Local(s.store, PcOf(s, e.pid), r)
    requires q != e.pid
    ensures ProcessInv(r.store, s.calls + r.calls, PcOf(s, q))
  {
    var pc := PcOf(s, e.pid);
    assert ProcessInv(s.store, s.calls, PcOf(s, q));
    assert PcOf(s, q).Locked() <==> s.lock == Some(q);
    assert pc.Locked() <==> s.lock == Some(e.pid);
    StandingProcess(s.store, s.calls, pc, r, PcOf(s, q));
  }

  lemma OwnersStayApart(s: System, e: Event, r: Reaction)
    requires Inv(s) && r == React(s.store, PcOf(s, e.pid), s.lock == None, e) && Local(s.store, PcOf(s, e.pid), r)
    ensures var t := Step(s, e);
      forall p, q :: p != q && PcOf(t, p).Owner() && PcOf(t, q).Owner() ==>
        PcOf(t, p).claim.CallKey() != PcOf(t, q).claim.CallKey()
  {
    var t := Step(s, e);
    forall p, q | p != q && PcOf(t, p).Owner() && PcOf(t, q).Owner()
      ensures PcOf(t, p).claim.CallKey() != PcOf(t, q).claim.CallKey()
    {
      if p == e.pid {
        OwnersStep(s, e, r, q);
      } else if q == e.pid {
        OwnersStep(s, e, r, p);
      } else {
        assert PcOf(t, p) == PcOf(s, p) && PcOf(t, q) == PcOf(s, q);
      }
    }
  }

  lemma StepInv(s: System, e: Event)
    requires Inv(s)
    ensures Inv(Step(s, e))
  {
    var t := Step(s, e);
    var pc := PcOf(s, e.pid);
    var r := React(s.store, pc, s.lock == None, e);
    assert ProcessInv(s.store, s.calls, pc);
    ReactionIsSound(s.store, s.calls, pc, s.lock == None, e);
    assert LockInv(t) by {
      ReactRespectsLock(s.store, pc, s.lock == None, e);
      LockStep(s, e);
    }
    forall q ensures ProcessInv(t.store, t.calls, PcOf(t, q)) {
      if q != e.pid { ProcessesStep(s, e, r, q); }
    }
    OwnersStayApart(s, e, r);
  }

  lemma {:induction false} RunInv(s: System, events: seq<Event>)
    requires Inv(s)
    ensures Inv(Run(s, events))
    decreases |events|
  {
    if events != [] {
      StepInv(s, events[0]);
      RunInv(Step(s, events[0]), events[1..]);
    }
  }

  lemma InitialInv()
    ensures Inv(INITIAL)
  {
  }

  /** At most once: however callers interleave and wherever they are killed, no two invocations of the
    provider are for the same owner, run and request. */
  lemma AtMostOnce(events: seq<Event>)
    ensures var calls := Run(INITIAL, events).calls;
      forall i, j ::
        && 0 <= i < |calls| && 0 <= j < |calls|
        && calls[i].claim.ownerId == calls[j].claim.ownerId && calls[i].claim.runId == calls[j].claim.runId
        && calls[i].claim.requestSha == calls[j].claim.requestSha
        ==> i == j
  {
    InitialInv();
    RunInv(INITIAL, events);
    var calls := Run(INITIAL, events).calls;
    forall i, j |
      && 0 <= i < |calls| && 0 <= j < |calls|
      && calls[i].claim.ownerId == calls[j].claim.ownerId && calls[i].claim.runId == calls[j].claim.runId
      && calls[i].claim.requestSha == calls[j].claim.requestSha
      ensures i == j
    {
      ClaimsAgreeExactlyWhen(calls[i].claim, calls[j].claim);
    }
  }

  /** Nobody calls the provider for a key that another claim owns: every invocation is for the exact claim
    that is durable under its key from then on. */
  lemma OnlyTheClaimantCalls(events: seq<Event>, more: seq<Event>, i: nat)
    requires i < |Run(INITIAL, events).calls|
    ensures var s := Run(Run(INITIAL, events), more);
      && i < |s.calls|
      && s.calls[i] == Run(INITIAL, events).calls[i]
      && ClaimStored(s.store, s.calls[i].claim)
  {
    InitialInv();
    RunInv(INITIAL, events);
    RunGrows(Run(INITIAL, events), more);
  }

  /** Files are never rebound and invocations never forgotten. */
  ghost predicate Grows(s: System, t: System) {
    && Extends(s.store.claims, t.store.claims)
    && Extends(s.store.results, t.store.results)
    && Extends(s.store.pointers, t.store.pointers)
    && s.calls <= t.calls
  }

  lemma StepGrows(s: System, e: Event)
    requires Inv(s)
    ensures Grows(s, Step(s, e))
  {
    var pc := PcOf(s, e.pid);
    assert ProcessInv(s.store, s.calls, pc);
    ReactionIsSound(s.store, s.calls, pc, s.lock == None, e);
  }

  lemma GrowsTransitive(s: System, t: System, u: System)
    requires Grows(s, t) && Grows(t, u)
    ensures Grows(s, u)
  {
  }

  lemma {:induction false} RunGrows(s: System, events: seq<Event>)
    requires Inv(s)
    ensures Inv(Run(s, events)) && Grows(s, Run(s, events))
    decreases |events|
  {
    if events != [] {
      StepGrows(s, events[0]);
      StepInv(s, events[0]);
      RunGrows(Step(s, events[0]), events[1..]);
      GrowsTransitive(s, Step(s, events[0]), Run(s, events));
    }
  }

  /** What `begin` answers in any reachable state, read off the files of its own key alone; claims agree when they
    differ in nothing but the time.  None of the
    journal's corruption errors is reachable; only the residue of a kill makes it refuse. */
  function BeginAnswer(st: Store, claim: Claim): Decision {
    var key := claim.CallKey();
    if key !in st.claims then TakeClaim
    else if st.claims[key].doubled then Finish(IntegrityError)
    else if st.claims[key].content != claim.(claimedAt := st.claims[key].content.claimedAt) then Finish(Conflict)
    else if key !in st.pointers then Finish(Indeterminate)
    else if st.pointers[key].doubled then Finish(IntegrityError)
    else Finish(Returned(st.pointers[key].content.of.result))
  }

  lemma BeginIsExact(s: System, claim: Claim)
    requires Inv(s)
    ensures DecideBegin(s.store, claim) == BeginAnswer(s.store, claim)
  {
    var key := claim.CallKey();
    if key in s.store.claims { ClaimsAgreeExactlyWhen(s.store.claims[key].content, claim); }
    if key in s.store.claims && key in s.store.pointers {
      assert PointerOk(s.store, s.calls, key);
    }
  }

  /** A completion is forever: once a key has its pointer, every later `begin` with the same semantic inputs
    returns the one result the provider returned to that claim, unless the claim or the pointer still
    carries the residue of a kill. */
  lemma CompletionIsForever(events: seq<Event>, more: seq<Event>, claim: Claim)
    requires claim.CallKey() in Run(INITIAL, events).store.pointers
    ensures var key := claim.CallKey();
      var s, t := Run(INITIAL, events), Run(Run(INITIAL, events), more);
      && key in s.store.claims && key in t.store.claims && key in t.store.pointers
      && t.store.claims[key].content == s.store.claims[key].content
      && var result := s.store.pointers[key].content.of.result;
        && Call(t.store.claims[key].content, result) in s.calls
        && DecideBegin(t.store, claim) ==
           (if t.store.claims[key].doubled then Finish(IntegrityError)
            else if t.store.claims[key].content != claim.(claimedAt := t.store.claims[key].content.claimedAt) then Finish(Conflict)
            else if t.store.pointers[key].doubled then Finish(IntegrityError)
            else Finish(Returned(result)))
  {
    InitialInv();
    RunInv(INITIAL, events);
    var s := Run(INITIAL, events);
    RunGrows(s, more);
    assert PointerOk(s.store, s.calls, claim.CallKey());
    BeginIsExact(Run(s, more), claim);
  }

  // ----- orphans -----

  /** The key is claimed, has no pointer, and its claimant is gone; there may be a result file all the same. */
  ghost predicate Abandoned(s: System, key: Key) {
    && key in s.store.claims && key !in s.store.pointers
    && forall p :: PcOf(s, p).Owner() ==> PcOf(s, p).claim.CallKey() != key
  }

  /** A claimant killed anywhere before its pointer is linked, also after its result file is, abandons its key. */
  lemma KillAbandons(s: System, p: Pid)
    requires Inv(s) && PcOf(s, p).Owner() && PcOf(s, p).claim.CallKey() !in s.store.pointers
    ensures Abandoned(Step(s, Kill(p)), PcOf(s, p).claim.CallKey())
  {
    var key, t := PcOf(s, p).claim.CallKey(), Step(s, Kill(p));
    assert ProcessInv(s.store, s.calls, PcOf(s, p));
    forall q | PcOf(t, q).Owner() ensures PcOf(t, q).claim.CallKey() != key {
      assert q != p && PcOf(t, q) == PcOf(s, q);
    }
  }

  lemma StepIsLocal(s: System, e: Event)
    requires Inv(s)
    ensures Local(s.store, PcOf(s, e.pid), React(s.store, PcOf(s, e.pid), s.lock == None, e))
  {
    assert ProcessInv(s.store, s.calls, PcOf(s, e.pid));
    ReactionIsSound(s.store, s.calls, PcOf(s, e.pid), s.lock == None, e);
  }

  ghost predicate NoCallsFor(key: Key, calls: seq<Call>, from: nat) {
    from <= |calls| && forall i :: from <= i < |calls| ==> calls[i].claim.CallKey() != key
  }

  /** Nobody takes an abandoned key up again: no pointer is linked for it and no call is made. */
  lemma StepStaysAbandoned(s: System, e: Event, key: Key)
    requires Abandoned(s, key)
    requires Local(s.store, PcOf(s, e.pid), React(s.store, PcOf(s, e.pid), s.lock == None, e))
    ensures Abandoned(Step(s, e), key) && NoCallsFor(key, Step(s, e).calls, |s.calls|)
  {
    var t := Step(s, e);
    forall p | PcOf(t, p).Owner() ensures PcOf(t, p).claim.CallKey() != key {
      assert p != e.pid ==> PcOf(t, p) == PcOf(s, p);
    }
  }

  lemma NoCallsAppend(key: Key, calls: seq<Call>, from: nat, more: seq<Call>)
    requires NoCallsFor(key, calls, from) && calls <= more && NoCallsFor(key, more, |calls|)
    ensures NoCallsFor(key, more, from)
  {
  }

  lemma {:induction false} RunStaysAbandoned(s: System, events: seq<Event>, key: Key)
    requires Inv(s) && Abandoned(s, key)
    ensures Abandoned(Run(s, events), key) && NoCallsFor(key, Run(s, events).calls, |s.calls|)
    decreases |events|
  {
    if events != [] {
      var u := Step(s, events[0]);
      StepIsLocal(s, events[0]);
      StepStaysAbandoned(s, events[0], key);
      assert Inv(u) by { StepInv(s, events[0]); }
      RunStaysAbandoned(u, events[1..], key);
      assert u.calls <= Run(s, events).calls by { RunGrows(u, events[1..]); }
      NoCallsAppend(key, u.calls, |s.calls|, Run(s, events).calls);
    }
  }

  /** An orphan stays hidden: once a claimant is killed before its pointer, no continuation ever returns a
    result for its key, whatever result file it left behind, and the provider is not called for it again. */
  lemma OrphanStaysHidden(events: seq<Event>, more: seq<Event>, claim: Claim)
    requires Abandoned(Run(INITIAL, events), claim.CallKey())
    ensures var s, t := Run(INITIAL, events), Run(Run(INITIAL, events), more);
      var key := claim.CallKey();
      && key in t.store.claims && key !in t.store.pointers
      && DecideBegin(t.store, claim) ==
         (if t.store.claims[key].doubled then Finish(IntegrityError)
          else if t.store.claims[key].content != claim.(claimedAt := t.store.claims[key].content.claimedAt) then Finish(Conflict)
          else Finish(Indeterminate))
      && NoCallsFor(key, t.calls, |s.calls|)
  {
    InitialInv();
    RunInv(INITIAL, events);
    RunStaysAbandoned(Run(INITIAL, events), more, claim.CallKey());
    RunInv(Run(INITIAL, events), more);
    BeginIsExact(Run(Run(INITIAL, events), more), claim);
  }
}
