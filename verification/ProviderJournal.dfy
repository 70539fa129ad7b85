/** The journal as the code runs it: a repository object whose two operations write files one after the
  other, and the bridge that calls the provider between them.  `life` is the number of durable effects
  the process survives. */
module ProviderJournal {
  import opened CreateOnlyFiles
  import opened ProviderCalls

  datatype Reply<+T> = Answered(value: T) | Died

  /** The lease that `begin` hands out. */
  datatype Lease = FreshLease(claim: Claim) | Settled(outcome: Outcome)

  datatype Effect<T> = Effect(store: Store, reply: Reply<T>, left: nat)

  function BeginEffect(st: Store, claim: Claim, life: nat): Effect<Lease> {
    match DecideBegin(st, claim)
    case Finish(outcome) => Effect(st, Answered(Settled(outcome)), life)
    case TakeClaim =>
      match CreateOnly(st.claims, claim.CallKey(), claim, life)
      case Stored(dir, left) => Effect(st.(claims := dir), Answered(FreshLease(claim)), left)
      case Differs(dir) => Effect(st.(claims := dir), Answered(Settled(IntegrityError)), life)
      case Killed(dir) => Effect(st.(claims := dir), Died, 0)
  }

  function CompleteEffect(st: Store, claim: Claim, completion: Completion, life: nat): Effect<Outcome> {
    match DecideComplete(st, claim, completion)
    case FinishComplete(outcome) => Effect(st, Answered(outcome), life)
    case Publish =>
      match CreateOnly(st.results, Sha256(completion), completion, life)
      case Differs(dir) => Effect(st.(results := dir), Answered(IntegrityError), life)
      case Killed(dir) => Effect(st.(results := dir), Died, 0)
      case Stored(results, left) =>
        match CreateOnly(st.pointers, claim.CallKey(), Sha256(completion), left)
        case Differs(dir) => Effect(st.(results := results, pointers := dir), Answered(IntegrityError), left)
        case Killed(dir) => Effect(st.(results := results, pointers := dir), Died, 0)
        case Stored(pointers, left) =>
          var st' := st.(results := results, pointers := pointers);
          var outcome := if ReadCompletion(st', claim.CallKey()) == Completed(completion)
                         then Returned(completion.result) else IntegrityError;
          Effect(st', Answered(outcome), left)
  }

  class ProviderCallJournal {
    var claims: Directory<Key, Claim>
    var results: Directory<Sha256<Completion>, Completion>
    var pointers: Directory<Key, Sha256<Completion>>

    function Contents(): Store
      reads this
    {
      Store(claims, results, pointers)
    }

    method Begin(claim: Claim, life: nat) returns (reply: Reply<Lease>, left: nat)
      modifies this
      ensures Effect(Contents(), reply, left) == BeginEffect(old(Contents()), claim, life)
    {
      left := life;
      var decision := DecideBegin(Contents(), claim);
      if decision.Finish? {
        return Answered(Settled(decision.outcome)), left;
      }
      var written := CreateOnly(claims, claim.CallKey(), claim, left);
      claims := written.dir;
      match written {
        case Killed(_) => reply, left := Died, 0;
        case Differs(_) => reply := Answered(Settled(IntegrityError));
        case Stored(_, remaining) => reply, left := Answered(FreshLease(claim)), remaining;
      }
    }

    method Complete(claim: Claim, completion: Completion, life: nat) returns (reply: Reply<Outcome>, left: nat)
      modifies this
      ensures Effect(Contents(), reply, left) == CompleteEffect(old(Contents()), claim, completion, life)
    {
      left := life;
      var decision := DecideComplete(Contents(), claim, completion);
      if decision.FinishComplete? {
        return Answered(decision.outcome), left;
      }
      var result := CreateOnly(results, Sha256(completion), completion, left);
      results := result.dir;
      if result.Killed? { return Died, 0; }
      if result.Differs? { return Answered(IntegrityError), left; }
      left := result.left;
      var pointer := CreateOnly(pointers, claim.CallKey(), Sha256(completion), left);
      pointers := pointer.dir;
      if pointer.Killed? { return Died, 0; }
      if pointer.Differs? { return Answered(IntegrityError), left; }
      left := pointer.left;
      if ReadCompletion(Contents(), claim.CallKey()) == Completed(completion) {
        reply := Answered(Returned(completion.result));
      } else {
        reply := Answered(IntegrityError);
      }
    }
  }

  /** What one use of the bridge leaves and replies, and whether it asked the provider. */
  datatype Bridged = Bridged(store: Store, reply: Reply<Outcome>, asked: bool)

  /** A fresh lease is spent on one call; a rejected answer is not recorded, any other one is completed as far
    as the caller lives.  `answer` is what the provider would say if it were asked now. */
  function BridgeEffect(st: Store, claim: Claim, answer: CallResult, completedAt: string, life: nat): Bridged {
    var begun := BeginEffect(st, claim, life);
    if begun.reply.Died? then Bridged(begun.store, Died, false)
    else if begun.reply.value.Settled? then Bridged(begun.store, Answered(begun.reply.value.outcome), false)
    else if begun.left == 0 then Bridged(begun.store, Died, false)
    else if !KeepsContract(claim, answer) then Bridged(begun.store, Answered(ContractError), true)
    else
      var completed := CompleteEffect(begun.store, claim, CompletionOf(claim, answer, completedAt), begun.left - 1);
      Bridged(completed.store, completed.reply, true)
  }

  /** The provider is asked exactly where no claim was, by a process that lives through the claim.  Its answer is
    refused exactly when it names another model or provider or no request of its own; a value is returned only
    if it is the recorded one: recorded before and returned without a call, or the answer to the one call and
    readable from now on, together with the claim that it answers. */
  lemma ReturnedIsRecorded(st: Store, claim: Claim, answer: CallResult, completedAt: string, life: nat)
    ensures var b := BridgeEffect(st, claim, answer, completedAt, life);
      && (b.asked <==> claim.CallKey() !in st.claims && life >= 4)
      && (b.asked ==> ReadOptional(b.store.claims, claim.CallKey()) == Present(claim))
      && (!b.asked && b.reply.Answered? ==> DecideBegin(st, claim) == Finish(b.reply.value) && b.store == st)
      && (b.asked ==>
            (b.reply == Answered(ContractError) <==>
              answer.model != claim.model || answer.provider != claim.provider || answer.providerRequestId == ""))
      && (b.asked && b.reply.Answered? && b.reply.value.Returned? ==>
            && b.reply.value == Returned(answer)
            && ReadCompletion(b.store, claim.CallKey()) == Completed(
                 Completion(Sha256(claim), claim.ownerId, claim.runId, claim.requestId, claim.requestSha, answer, completedAt)))
  {
    CreateOnlyIsWriteOnce(st.claims, claim.CallKey(), claim, life);
  }

  /** What completing a claim does, told from the files of its key alone: nothing, unless exactly this claim is
    readable there and no pointer is; a recorded answer is returned only to the very same completion. */
  lemma CompleteIsExact(st: Store, claim: Claim, completion: Completion, life: nat)
    ensures var key := claim.CallKey();
      var effect := CompleteEffect(st, claim, completion, life);
      var held := key in st.claims && st.claims[key] == File(claim, false);
      && (effect.store != st ==> held && key !in st.pointers)
      && (key !in st.claims ==> effect.reply == Answered(Conflict))
      && (key in st.claims && st.claims[key].doubled ==> effect.reply == Answered(IntegrityError))
      && (key in st.claims && !st.claims[key].doubled && !held ==> effect.reply == Answered(Conflict))
      && (held && key in st.pointers && ReadCompletion(st, key).Completed? ==>
            effect.reply == Answered(
              if ReadCompletion(st, key).completion == completion then Returned(completion.result) else Conflict))
      && (held && key in st.pointers && !ReadCompletion(st, key).Completed? ==> effect.reply == Answered(IntegrityError))
      && (held && key !in st.pointers ==> !(effect.reply == Answered(Conflict)))
      && (effect.reply.Answered? && effect.reply.value.Returned? ==>
            effect.reply.value.result == completion.result && ReadCompletion(effect.store, key) == Completed(completion))
  {
  }

  lemma BridgeAfterBegin(st: Store, claim: Claim, answer: CallResult, completedAt: string, life: nat)
    requires BeginEffect(st, claim, life).reply == Answered(FreshLease(claim)) && BeginEffect(st, claim, life).left > 0
    ensures var begun := BeginEffect(st, claim, life);
      var completed := CompleteEffect(begun.store, claim, CompletionOf(claim, answer, completedAt), begun.left - 1);
      BridgeEffect(st, claim, answer, completedAt, life) ==
        if KeepsContract(claim, answer) then Bridged(completed.store, completed.reply, true)
        else Bridged(begun.store, Answered(ContractError), true)
  {
  }

  /** A completion that is recorded in full: a first answer, a process that lives, and directories without a file
    in the way. */
  lemma FirstAnswerIsReturned(st: Store, claim: Claim, answer: CallResult, completedAt: string, life: nat)
    requires claim.CallKey() !in st.claims && claim.CallKey() !in st.pointers && life >= 10
    requires answer.model == claim.model && answer.provider == claim.provider && answer.providerRequestId != ""
    requires Sha256(CompletionOf(claim, answer, completedAt)) !in st.results
    ensures var b := BridgeEffect(st, claim, answer, completedAt, life);
      && b.asked && b.reply == Answered(Returned(answer))
      && forall retry: Claim :: retry == claim.(claimedAt := retry.claimedAt) ==>
           DecideBegin(b.store, retry) == Finish(Returned(answer))
  {
    var b := BridgeEffect(st, claim, answer, completedAt, life);
    forall retry: Claim | retry == claim.(claimedAt := retry.claimedAt) ensures DecideBegin(b.store, retry) == Finish(Returned(answer)) {
      ClaimsAgreeExactlyWhen(retry, claim);
    }
  }

  /** The bridge: claim, then at most one call to the configured provider, then publication. */
  class RecordedProvider {
    const journal: ProviderCallJournal
    var calls: seq<(Claim, CallResult)>

    constructor (journal: ProviderCallJournal)
      ensures this.journal == journal && calls == []
    {
      this.journal := journal;
      calls := [];
    }

    method Complete(claim: Claim, answer: CallResult, completedAt: string, life: nat) returns (reply: Reply<Outcome>)
      modifies this, journal
      ensures var b := BridgeEffect(old(journal.Contents()), claim, answer, completedAt, life);
        && journal.Contents() == b.store && reply == b.reply
        && calls == old(calls) + (if b.asked then [(claim, answer)] else [])
    {
      var lease, left := journal.Begin(claim, life);
      ghost var begun := BeginEffect(old(journal.Contents()), claim, life);
      assert journal.Contents() == begun.store && lease == begun.reply && left == begun.left;
      if lease.Died? { return Died; }
      if lease.value.Settled? { return Answered(lease.value.outcome); }
      if left == 0 { return Died; }
      calls := calls + [(claim, answer)];
      left := left - 1;
      if !KeepsContract(claim, answer) { return Answered(ContractError); }
      var completion := CompletionOf(claim, answer, completedAt);
      ghost var completed := CompleteEffect(begun.store, claim, completion, left);
      reply, left := journal.Complete(claim, completion, left);
      assert BridgeEffect(old(journal.Contents()), claim, answer, completedAt, life) == Bridged(completed.store, completed.reply, true);
    }
  }
}
