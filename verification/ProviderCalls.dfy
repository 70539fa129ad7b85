/** The provider-call journal: its records, its durable store, and what `begin` and `complete` read. */
module ProviderCalls {
  import opened CreateOnlyFiles

  /** The journal key: the digest of owner, run and request SHA, injective in all three. */
  datatype Key = Key(ownerId: string, runId: string, requestSha: string)

  datatype Claim = Claim(
    ownerId: string, runId: string, provider: string, model: string,
    requestId: string, requestSha: string, requestByteCount: nat, claimedAt: string)
  {
    function CallKey(): Key { Key(ownerId, runId, requestSha) }

    /** Everything but the claim time; the claim's own identifiers are digests of the rest. */
    function SemanticKey(): Claim { this.(claimedAt := "") }
  }

  /** Claims agree exactly when they differ in nothing but the time, and share a key exactly when they are for the
    same request of the same run of the same owner. */
  lemma ClaimsAgreeExactlyWhen(a: Claim, b: Claim)
    ensures a.SemanticKey() == b.SemanticKey() <==> a == b.(claimedAt := a.claimedAt)
    ensures a.CallKey() == b.CallKey() <==> a.ownerId == b.ownerId && a.runId == b.runId && a.requestSha == b.requestSha
  {
  }

  datatype CallResult = CallResult(provider: string, model: string, providerRequestId: string, rawOutput: string)

  datatype Completion = Completion(
    claimId: Sha256<Claim>, ownerId: string, runId: string,
    requestId: string, requestSha: string, result: CallResult, completedAt: string)
  {
    function CallKey(): Key { Key(ownerId, runId, requestSha) }
  }

  /** The raw-output contract, which is checked after the call. */
  predicate KeepsContract(claim: Claim, answer: CallResult) {
    answer.model == claim.model && answer.provider == claim.provider && answer.providerRequestId != ""
  }

  function CompletionOf(claim: Claim, result: CallResult, completedAt: string): Completion {
    Completion(Sha256(claim), claim.ownerId, claim.runId, claim.requestId, claim.requestSha, result, completedAt)
  }

  datatype Store = Store(
    claims: Directory<Key, Claim>,
    results: Directory<Sha256<Completion>, Completion>,
    pointers: Directory<Key, Sha256<Completion>>)

  const EMPTY_STORE := Store(map[], map[], map[])

  datatype CompletionReading = NoCompletion | Completed(completion: Completion) | Broken

  /** Follow the pointer of one key to its result file and check that they belong together. */
  function ReadCompletion(s: Store, key: Key): CompletionReading {
    match ReadOptional(s.pointers, key)
    case Absent => NoCompletion
    case Unreadable => Broken
    case Present(digest) =>
      match ReadOptional(s.results, digest)
      case Present(value) =>
        if Sha256(value) == digest && value.CallKey() == key then Completed(value) else Broken
      case _ => Broken
  }

  /** A completion is read exactly if the pointer and the file that it names are readable, and the file is a
    completion of this key; without a pointer there is none, and anything else is broken. */
  lemma ReadsExactly(s: Store, key: Key)
    ensures ReadCompletion(s, key) == NoCompletion <==> key !in s.pointers
    ensures forall completion :: ReadCompletion(s, key) == Completed(completion) <==>
      && key in s.pointers && s.pointers[key] == File(Sha256(completion), false)
      && Sha256(completion) in s.results && s.results[Sha256(completion)] == File(completion, false)
      && completion.ownerId == key.ownerId && completion.runId == key.runId && completion.requestSha == key.requestSha
  {
  }

  datatype Outcome =
    | Returned(result: CallResult)
    | Indeterminate
    | Conflict
    | IntegrityError
    | ContractError

  datatype Decision = TakeClaim | Finish(outcome: Outcome)

  /** What `begin` does once it holds the repository lock. */
  function DecideBegin(s: Store, claim: Claim): Decision {
    var key := claim.CallKey();
    match ReadOptional(s.claims, key)
    case Unreadable => Finish(IntegrityError)
    case Absent => TakeClaim
    case Present(existing) =>
      if existing.SemanticKey() != claim.SemanticKey() then Finish(Conflict)
      else match ReadCompletion(s, key)
           case NoCompletion => Finish(Indeterminate)
           case Broken => Finish(IntegrityError)
           case Completed(completion) =>
             if completion.claimId != Sha256(existing) then Finish(IntegrityError)
             else Finish(Returned(completion.result))
  }

  datatype CompleteDecision = Publish | FinishComplete(outcome: Outcome)

  /** What `complete` does once it holds the repository lock. */
  function DecideComplete(s: Store, claim: Claim, completion: Completion): CompleteDecision {
    var key := claim.CallKey();
    match ReadOptional(s.claims, key)
    case Unreadable => FinishComplete(IntegrityError)
    case Absent => FinishComplete(Conflict)
    case Present(existing) =>
      if existing != claim then FinishComplete(Conflict)
      else match ReadCompletion(s, key)
           case Broken => FinishComplete(IntegrityError)
           case Completed(existing) =>
             if existing != completion then FinishComplete(Conflict)
             else FinishComplete(Returned(existing.result))
           case NoCompletion => Publish
  }
}
