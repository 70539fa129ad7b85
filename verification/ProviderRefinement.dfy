/** The interleaved protocol, the repository object and the abstract register are three views of one
  journal: an undisturbed locked section of the protocol is one method of the object, killed or not, and
  every step of the protocol moves the register of every key legally. */
module ProviderRefinement {
  import opened CreateOnlyFiles
  import opened ProviderCalls
  import opened ProviderProtocol
  import OneShotRegister
  import Journal = ProviderJournal

  function AdvanceTimes(s: System, p: Pid, n: nat): System
    decreases n
  {
    if n == 0 then s else AdvanceTimes(Step(s, Advance(p)), p, n - 1)
  }

  /** A caller that begins and is left alone for `n` steps has done what `begin` does with `n` effects to
    live; with three it holds its lease or its answer. */
  lemma BeginSession(s: System, p: Pid, claim: Claim, n: nat)
    requires s.lock == None && (PcOf(s, p).Idle? || PcOf(s, p).Finished?) && n <= 3
    ensures var t := AdvanceTimes(Step(s, Begin(p, claim)), p, n);
      var effect := Journal.BeginEffect(s.store, claim, n);
      && t.store == effect.store
      && (n == 3 ==> (PcOf(t, p) == Fresh(claim) <==> effect.reply == Journal.Answered(Journal.FreshLease(claim))))
      && (n == 3 ==> forall o :: PcOf(t, p) == Finished(o) <==> effect.reply == Journal.Answered(Journal.Settled(o)))
      && (n == 3 ==> t.lock == None)
  {
    var s0 := Step(s, Begin(p, claim));
    var s1 := Step(s0, Advance(p));
    var s2 := Step(s1, Advance(p));
    assert AdvanceTimes(s0, p, 0) == s0;
    assert n >= 1 ==> AdvanceTimes(s0, p, n) == AdvanceTimes(s1, p, n - 1);
    assert n >= 2 ==> AdvanceTimes(s1, p, n - 1) == AdvanceTimes(s2, p, n - 2);
    assert n == 3 ==> AdvanceTimes(s2, p, 1) == AdvanceTimes(Step(s2, Advance(p)), p, 0);
  }

  lemma ResultSession(s: System, p: Pid, n: nat)
    requires PcOf(s, p).Checking? && n <= 3
    requires Sha256(PcOf(s, p).completion) !in s.store.results
    ensures var pc := PcOf(s, p);
      var t := AdvanceTimes(s, p, n);
      && (DecideComplete(s.store, pc.claim, pc.completion).FinishComplete? ==> t.store == s.store)
      && (DecideComplete(s.store, pc.claim, pc.completion).Publish? ==>
            var w := CreateOnly(s.store.results, Sha256(pc.completion), pc.completion, n);
            && t.store == s.store.(results := w.dir)
            && (n == 3 ==> w == Stored(t.store.results, 0) && PcOf(t, p) == CleaningPointers(pc.claim, pc.completion)))
  {
    var s1 := Step(s, Advance(p));
    var s2 := Step(s1, Advance(p));
    assert AdvanceTimes(s, p, 0) == s;
    assert n >= 1 ==> AdvanceTimes(s, p, n) == AdvanceTimes(s1, p, n - 1);
    assert n >= 2 ==> AdvanceTimes(s1, p, n - 1) == AdvanceTimes(s2, p, n - 2);
    assert n == 3 ==> AdvanceTimes(s2, p, 1) == AdvanceTimes(Step(s2, Advance(p)), p, 0);
  }

  lemma PointerSession(s: System, p: Pid, n: nat)
    requires PcOf(s, p).CleaningPointers? && n <= 3
    requires PcOf(s, p).claim.CallKey() !in s.store.pointers
    ensures var pc := PcOf(s, p);
      var t := AdvanceTimes(s, p, n);
      var w := CreateOnly(s.store.pointers, pc.claim.CallKey(), Sha256(pc.completion), n);
      && t.store == s.store.(pointers := w.dir)
      && (n == 3 ==> w == Stored(t.store.pointers, 0) && PcOf(t, p) == Finished(Reopen(t.store, pc.claim, pc.completion)))
  {
    var s1 := Step(s, Advance(p));
    var s2 := Step(s1, Advance(p));
    assert AdvanceTimes(s, p, 0) == s;
    assert n >= 1 ==> AdvanceTimes(s, p, n) == AdvanceTimes(s1, p, n - 1);
    assert n >= 2 ==> AdvanceTimes(s1, p, n - 1) == AdvanceTimes(s2, p, n - 2);
    assert n == 3 ==> AdvanceTimes(s2, p, 1) == AdvanceTimes(Step(s2, Advance(p)), p, 0);
  }

  lemma {:induction false} AdvanceTimesAdd(s: System, p: Pid, m: nat, n: nat)
    ensures AdvanceTimes(s, p, m + n) == AdvanceTimes(AdvanceTimes(s, p, m), p, n)
    decreases m
  {
    if m > 0 {
      AdvanceTimesAdd(Step(s, Advance(p)), p, m - 1, n);
    }
  }

  /** A longer life changes nothing about a write that already succeeded, except what is left of it. */
  lemma LongerLife<K, T>(dir: Directory<K, T>, name: K, content: T, n: nat)
    requires name !in dir
    ensures n >= 3 ==> CreateOnly(dir, name, content, n) == Stored(Cleanup(dir)[name := File(content, false)], n - 3)
  {
  }

  /** Both write sessions in a row, from the check that nothing has been recorded. */
  lemma CheckedSession(c: System, p: Pid, n: nat)
    requires PcOf(c, p).Checking? && 3 <= n <= 6
    requires DecideComplete(c.store, PcOf(c, p).claim, PcOf(c, p).completion) == Publish
    requires Sha256(PcOf(c, p).completion) !in c.store.results && PcOf(c, p).claim.CallKey() !in c.store.pointers
    ensures var pc := PcOf(c, p);
      var t := AdvanceTimes(c, p, n);
      var effect := Journal.CompleteEffect(c.store, pc.claim, pc.completion, n);
      && t.store == effect.store
      && (n == 6 ==>
            && t.store == Recorded(c.store, pc.claim, pc.completion)
            && PcOf(t, p) == Finished(Reopen(t.store, pc.claim, pc.completion))
            && effect.reply == Journal.Answered(Reopen(t.store, pc.claim, pc.completion)))
  {
    var pc := PcOf(c, p);
    LongerLife(c.store.results, Sha256(pc.completion), pc.completion, n);
    var d := AfterResult(c, p);
    AdvanceTimesAdd(c, p, 3, n - 3);
    PointerSession(d, p, n - 3);
    LongerLife(c.store.pointers, pc.claim.CallKey(), Sha256(pc.completion), n - 3);
  }

  lemma BrokenSession(c: System, p: Pid, n: nat)
    requires PcOf(c, p).Checking? && n < 3
    requires DecideComplete(c.store, PcOf(c, p).claim, PcOf(c, p).completion) == Publish
    requires Sha256(PcOf(c, p).completion) !in c.store.results
    ensures AdvanceTimes(c, p, n).store == Journal.CompleteEffect(c.store, PcOf(c, p).claim, PcOf(c, p).completion, n).store
  {
    ResultSession(c, p, n);
  }

  lemma AfterResult(c: System, p: Pid) returns (d: System)
    requires PcOf(c, p).Checking? && Sha256(PcOf(c, p).completion) !in c.store.results
    requires DecideComplete(c.store, PcOf(c, p).claim, PcOf(c, p).completion) == Publish
    ensures var pc := PcOf(c, p);
      && d == AdvanceTimes(c, p, 3)
      && d.store == c.store.(results := Cleanup(c.store.results)[Sha256(pc.completion) := File(pc.completion, false)])
      && PcOf(d, p) == CleaningPointers(pc.claim, pc.completion)
  {
    d := AdvanceTimes(c, p, 3);
    ResultSession(c, p, 3);
    LongerLife(c.store.results, Sha256(PcOf(c, p).completion), PcOf(c, p).completion, 3);
  }

  /** The store with this completion recorded and pointed to. */
  function Recorded(st: Store, claim: Claim, completion: Completion): Store {
    var digest := Sha256(completion);
    st.(results := Cleanup(st.results)[digest := File(completion, false)],
        pointers := Cleanup(st.pointers)[claim.CallKey() := File(digest, false)])
  }

  lemma RecordedIsReturned(st: Store, claim: Claim, completion: Completion)
    requires ClaimStored(st, claim) && !st.claims[claim.CallKey()].doubled && Describes(claim, completion)
    ensures Reopen(Recorded(st, claim, completion), claim, completion) == Returned(completion.result)
    ensures DecideBegin(Recorded(st, claim, completion), claim) == Finish(Returned(completion.result))
  {
  }

  /** A caller holding an answer that begins to record it, in any reachable state, and is left alone for `n`
    steps has done what `complete` does with `n` effects to live; with six, the answer is recorded, its
    caller returns it, and so does every later `begin` for that claim. */
  lemma CompleteSession(s: System, p: Pid, completedAt: string, n: nat)
    requires Inv(s) && s.lock == None && PcOf(s, p).Answered? && n <= 6
    ensures var pc := PcOf(s, p);
      var completion := CompletionOf(pc.claim, pc.result, completedAt);
      var t := AdvanceTimes(Step(s, Complete(p, completedAt)), p, n);
      var effect := Journal.CompleteEffect(s.store, pc.claim, completion, n);
      && t.store == effect.store
      && (n == 6 ==>
            && PcOf(t, p) == Finished(Returned(pc.result))
            && effect.reply == Journal.Answered(Returned(pc.result))
            && DecideBegin(t.store, pc.claim) == Finish(Returned(pc.result)))
  {
    var pc := PcOf(s, p);
    assert ProcessInv(s.store, s.calls, pc);
    var completion := CompletionOf(pc.claim, pc.result, completedAt);
    var c := Step(s, Complete(p, completedAt));
    assert DecideComplete(c.store, pc.claim, completion) == Publish;
    assert Sha256(completion) !in c.store.results by {
      assert Sha256(completion).of.claimId == Sha256(pc.claim);
    }
    if n < 3 { BrokenSession(c, p, n); } else { CheckedSession(c, p, n); }
    RecordedIsReturned(s.store, pc.claim, completion);
  }

  lemma AdvanceCallsNobody(s: System, p: Pid)
    ensures Step(s, Advance(p)).calls == s.calls
  {
  }

  lemma {:induction false} AdvanceTimesKeeps(s: System, p: Pid, n: nat)
    requires Inv(s)
    ensures Inv(AdvanceTimes(s, p, n)) && AdvanceTimes(s, p, n).calls == s.calls
    decreases n
  {
    if n > 0 {
      StepInv(s, Advance(p));
      AdvanceCallsNobody(s, p);
      AdvanceTimesKeeps(Step(s, Advance(p)), p, n - 1);
    }
  }

  /** The system after a caller has begun a claim on a free key, and asked the provider. */
  function Asked(s: System, p: Pid, claim: Claim, answer: CallResult): System {
    Step(AdvanceTimes(Step(s, Begin(p, claim)), p, 3), CallProvider(p, answer))
  }

  lemma CallStep(s: System, p: Pid, claim: Claim, answer: CallResult)
    requires s.lock == None && PcOf(s, p) == Fresh(claim)
    ensures var t := Step(s, CallProvider(p, answer));
      && t.lock == None && t.store == s.store && t.calls == s.calls + [Call(claim, answer)]
      && PcOf(t, p) == if KeepsContract(claim, answer) then Answered(claim, answer) else Finished(ContractError)
  {
  }

  lemma AskedSession(s: System, p: Pid, claim: Claim, answer: CallResult)
    requires Inv(s) && s.lock == None && (PcOf(s, p).Idle? || PcOf(s, p).Finished?) && claim.CallKey() !in s.store.claims
    ensures var asked, begun := Asked(s, p, claim, answer), Journal.BeginEffect(s.store, claim, 10);
      && Inv(asked) && asked.lock == None && asked.calls == s.calls + [Call(claim, answer)] && asked.store == begun.store
      && begun.reply == Journal.Answered(Journal.FreshLease(claim)) && begun.left == 7
      && PcOf(asked, p) == if KeepsContract(claim, answer) then Answered(claim, answer) else Finished(ContractError)
  {
    var begun := AdvanceTimes(Step(s, Begin(p, claim)), p, 3);
    BeginSession(s, p, claim, 3);
    StepInv(s, Begin(p, claim));
    AdvanceTimesKeeps(Step(s, Begin(p, claim)), p, 3);
    LongerLife(s.store.claims, claim.CallKey(), claim, 3);
    LongerLife(s.store.claims, claim.CallKey(), claim, 10);
    CallStep(begun, p, claim, answer);
    StepInv(begun, CallProvider(p, answer));
  }

  lemma CompletingCallsNobody(s: System, p: Pid, completedAt: string)
    ensures Step(s, Complete(p, completedAt)).calls == s.calls
  {
  }

  /** The whole use of the bridge by one caller, on a key that nobody has claimed: exactly one call is made, and
    unless its answer breaks the contract it is recorded and returned. */
  lemma BridgeSession(s: System, p: Pid, claim: Claim, answer: CallResult, completedAt: string)
    requires Inv(s) && s.lock == None && (PcOf(s, p).Idle? || PcOf(s, p).Finished?) && claim.CallKey() !in s.store.claims
    ensures var asked := Asked(s, p, claim, answer);
      var t := AdvanceTimes(Step(asked, Complete(p, completedAt)), p, 6);
      var bridged := Journal.BridgeEffect(s.store, claim, answer, completedAt, 10);
      && asked.calls == s.calls + [Call(claim, answer)] && t.calls == asked.calls
      && if answer.model == claim.model && answer.provider == claim.provider && answer.providerRequestId != "" then
           t.store == bridged.store && PcOf(t, p) == Finished(Returned(answer)) && bridged.reply == Journal.Answered(Returned(answer))
         else
           asked.store == bridged.store && PcOf(asked, p) == Finished(ContractError) && bridged.reply == Journal.Answered(ContractError)
  {
    var asked := Asked(s, p, claim, answer);
    AskedSession(s, p, claim, answer);
    Journal.BridgeAfterBegin(s.store, claim, answer, completedAt, 10);
    StepInv(asked, Complete(p, completedAt));
    CompletingCallsNobody(asked, p, completedAt);
    AdvanceTimesKeeps(Step(asked, Complete(p, completedAt)), p, 6);
    if KeepsContract(claim, answer) { CompleteSession(asked, p, completedAt, 6); }
  }

  // ----- the abstract register -----

  function RegisterOf(st: Store, key: Key): OneShotRegister.Register<Claim, CallResult> {
    if key !in st.claims then OneShotRegister.Empty
    else if key !in st.pointers then OneShotRegister.Claimed(st.claims[key].content)
    else OneShotRegister.Done(st.claims[key].content, st.pointers[key].content.of.result)
  }

  /** One step of one caller moves every register legally. */
  lemma StepMovesRegister(s: System, e: Event, key: Key)
    requires Inv(s)
    ensures OneShotRegister.Moves(RegisterOf(s.store, key), RegisterOf(Step(s, e).store, key))
  {
    var pc := PcOf(s, e.pid);
    assert ProcessInv(s.store, s.calls, pc);
    ReactionIsSound(s.store, s.calls, pc, s.lock == None, e);
    if key in s.store.pointers {
      assert PointerOk(s.store, s.calls, key);
    }
  }

  lemma {:induction false} RunLeadsRegister(s: System, events: seq<Event>, key: Key)
    requires Inv(s)
    ensures OneShotRegister.Leads(RegisterOf(s.store, key), RegisterOf(Run(s, events).store, key))
    decreases |events|
  {
    if events != [] {
      StepMovesRegister(s, events[0], key);
      StepInv(s, events[0]);
      RunLeadsRegister(Step(s, events[0]), events[1..], key);
      OneShotRegister.MovesThenLeads(
        RegisterOf(s.store, key), RegisterOf(Step(s, events[0]).store, key), RegisterOf(Run(s, events).store, key));
    }
  }

  function Decided(answer: OneShotRegister.Answer<CallResult>): Decision {
    match answer
    case Fresh => TakeClaim
    case Completed(result) => Finish(Returned(result))
    case Indeterminate => Finish(Indeterminate)
    case Conflict => Finish(Conflict)
    case Unreadable => Finish(IntegrityError)
  }

  /** In every reachable state `begin` answers as the register does, or refuses because a file it must read
    still carries the residue of a kill. */
  lemma BeginReadsRegister(events: seq<Event>, claim: Claim)
    ensures var st := Run(INITIAL, events).store;
      var key := claim.CallKey();
      var agrees := key in st.claims && st.claims[key].content == claim.(claimedAt := st.claims[key].content.claimedAt);
      var residue := (key in st.claims && st.claims[key].doubled) || (agrees && key in st.pointers && st.pointers[key].doubled);
      DecideBegin(st, claim) ==
        (if residue then Finish(IntegrityError) else Decided(OneShotRegister.Begin(RegisterOf(st, key), agrees)))
  {
    InitialInv();
    RunInv(INITIAL, events);
    BeginIsExact(Run(INITIAL, events), claim);
  }
}
