/** The second one-shot journal, for generic extraction, and the client that claims, calls and completes. */
module ExtractionCalls {
  import opened CreateOnlyFiles
  import OneShotRegister

  datatype RetryKey = RetryKey(startCommandId: string, requestSha: string)

  datatype Request = Request(
    startCommandId: string, requestSha: string, sourceSha: string, provider: string, model: string,
    promptSha: string, responseSchemaSha: string, claimedAt: string)
  {
    function CallKey(): RetryKey { RetryKey(startCommandId, requestSha) }

    function SemanticKey(): Request { this.(claimedAt := "") }
  }

  /** Requests agree exactly when they differ in nothing but the time, and share a key exactly when they are for
    the same request of the same start. */
  lemma RequestsAgreeExactlyWhen(a: Request, b: Request)
    ensures a.SemanticKey() == b.SemanticKey() <==> a == b.(claimedAt := a.claimedAt)
    ensures a.CallKey() == b.CallKey() <==> a.startCommandId == b.startCommandId && a.requestSha == b.requestSha
  {
  }

  datatype Result = Result(
    callId: Sha256<Request>, requestSha: string, sourceSha: string, provider: string, model: string,
    promptSha: string, responseSchemaSha: string, providerRequestId: string,
    contract: string, claims: seq<string>, completedAt: string)

  /** The result names the exact request it answers. */
  predicate Answers(result: Result, request: Request) {
    && result.callId == Sha256(request)
    && result.requestSha == request.requestSha
    && result.sourceSha == request.sourceSha
    && result.provider == request.provider
    && result.model == request.model
    && result.promptSha == request.promptSha
    && result.responseSchemaSha == request.responseSchemaSha
  }

  datatype Store = Store(
    claims: Directory<RetryKey, Request>,
    results: Directory<Sha256<Result>, Result>,
    pointers: Directory<RetryKey, Sha256<Result>>)

  const EMPTY_STORE := Store(map[], map[], map[])

  datatype ResultReading = NoResult | Completed(result: Result) | Broken

  /** A call identity never equals a start-command identity, so the result is always compared with the
    claim stored under the key. */
  function ReadResultFor(st: Store, key: RetryKey): ResultReading {
    match ReadOptional(st.pointers, key)
    case Absent => NoResult
    case Unreadable => Broken
    case Present(digest) =>
      match ReadOptional(st.results, digest)
      case Present(value) =>
        if Sha256(value) != digest then Broken
        else (match ReadOptional(st.claims, key)
              case Present(claim) => if value.callId == Sha256(claim) then Completed(value) else Broken
              case _ => Broken)
      case _ => Broken
  }

  /** A result is read exactly if the pointer, the file that it names and the claim are readable, and the file
    answers that claim; without a pointer there is none, and anything else is broken. */
  lemma ReadsExactly(st: Store, key: RetryKey)
    ensures ReadResultFor(st, key) == NoResult <==> key !in st.pointers
    ensures forall result :: ReadResultFor(st, key) == Completed(result) <==>
      && key in st.pointers && st.pointers[key] == File(Sha256(result), false)
      && Sha256(result) in st.results && st.results[Sha256(result)] == File(result, false)
      && key in st.claims && !st.claims[key].doubled && result.callId == Sha256(st.claims[key].content)
  {
  }

  datatype Outcome =
    | FreshLease
    | Returned(result: Result)
    | Indeterminate
    | Conflict
    | IntegrityError
    | ContractError
    | Died

  function DecideBegin(st: Store, request: Request): Outcome {
    match ReadOptional(st.claims, request.CallKey())
    case Unreadable => IntegrityError
    case Absent => FreshLease
    case Present(existing) =>
      if existing.SemanticKey() != request.SemanticKey() then Conflict
      else match ReadResultFor(st, request.CallKey())
           case NoResult => Indeterminate
           case Broken => IntegrityError
           case Completed(result) => Returned(result)
  }

  datatype Effect = Effect(store: Store, outcome: Outcome, left: nat)

  function BeginEffect(st: Store, request: Request, life: nat): Effect {
    var decision := DecideBegin(st, request);
    if decision != FreshLease then Effect(st, decision, life)
    else match CreateOnly(st.claims, request.CallKey(), request, life)
         case Stored(dir, left) => Effect(st.(claims := dir), FreshLease, left)
         case Differs(dir) => Effect(st.(claims := dir), IntegrityError, life)
         case Killed(dir) => Effect(st.(claims := dir), Died, 0)
  }

  function CompleteEffect(st: Store, request: Request, result: Result, life: nat): Effect {
    var key := request.CallKey();
    if !Answers(result, request) then Effect(st, Conflict, life)
    else match ReadOptional(st.claims, key)
         case Unreadable => Effect(st, IntegrityError, life)
         case Absent => Effect(st, Conflict, life)
         case Present(claimed) =>
           if claimed != request then Effect(st, Conflict, life)
           else match ReadResultFor(st, key)
                case Broken => Effect(st, IntegrityError, life)
                case Completed(existing) =>
                  Effect(st, if existing == result then Returned(existing) else Conflict, life)
                case NoResult => PublishEffect(st, key, result, life)
  }

  function PublishEffect(st: Store, key: RetryKey, result: Result, life: nat): Effect {
    match CreateOnly(st.results, Sha256(result), result, life)
    case Differs(dir) => Effect(st.(results := dir), IntegrityError, life)
    case Killed(dir) => Effect(st.(results := dir), Died, 0)
    case Stored(results, left) =>
      match CreateOnly(st.pointers, key, Sha256(result), left)
      case Differs(dir) => Effect(st.(results := results, pointers := dir), IntegrityError, left)
      case Killed(dir) => Effect(st.(results := results, pointers := dir), Died, 0)
      case Stored(pointers, left) =>
        var st' := st.(results := results, pointers := pointers);
        Effect(st', if ReadResultFor(st', key) == Completed(result) then Returned(result) else IntegrityError, left)
  }

  class ExtractionRepository {
    var claims: Directory<RetryKey, Request>
    var results: Directory<Sha256<Result>, Result>
    var pointers: Directory<RetryKey, Sha256<Result>>

    function Contents(): Store
      reads this
    {
      Store(claims, results, pointers)
    }

    method Begin(request: Request, life: nat) returns (outcome: Outcome, left: nat)
      modifies this
      ensures Effect(Contents(), outcome, left) == BeginEffect(old(Contents()), request, life)
    {
      outcome, left := DecideBegin(Contents(), request), life;
      if outcome == FreshLease {
        var written := CreateOnly(claims, request.CallKey(), request, life);
        claims := written.dir;
        match written {
          case Stored(_, remaining) => left := remaining;
          case Differs(_) => outcome := IntegrityError;
          case Killed(_) => outcome, left := Died, 0;
        }
      }
    }

    method CompleteLive(request: Request, result: Result, life: nat) returns (outcome: Outcome, left: nat)
      modifies this
      ensures Effect(Contents(), outcome, left) == CompleteEffect(old(Contents()), request, result, life)
    {
      var key := request.CallKey();
      if !Answers(result, request) { return Conflict, life; }
      var claimed := ReadOptional(claims, key);
      if claimed.Unreadable? { return IntegrityError, life; }
      if claimed.Absent? || claimed.content != request { return Conflict, life; }
      var existing := ReadResultFor(Contents(), key);
      if existing.Broken? { return IntegrityError, life; }
      if existing.Completed? {
        return if existing.result == result then Returned(existing.result) else Conflict, life;
      }
      var stored := CreateOnly(results, Sha256(result), result, life);
      results := stored.dir;
      if stored.Killed? { return Died, 0; }
      if stored.Differs? { return IntegrityError, life; }
      var pointer := CreateOnly(pointers, key, Sha256(result), stored.left);
      pointers := pointer.dir;
      if pointer.Killed? { return Died, 0; }
      if pointer.Differs? { return IntegrityError, stored.left; }
      left := pointer.left;
      outcome := if ReadResultFor(Contents(), key) == Completed(result) then Returned(result) else IntegrityError;
    }
  }

  /** What the provider said, before grounding. */
  datatype Response = Response(parsed: bool, model: string, requestId: string, text: string)

  /** The structured-output contract that the client checks after the call. */
  predicate KeepsContract(request: Request, response: Response) {
    !response.parsed && response.model == request.model && response.requestId != ""
  }

  function ResultOf(request: Request, response: Response, claims: seq<string>, completedAt: string): Result {
    Result(
      Sha256(request), request.requestSha, request.sourceSha, request.provider, request.model, request.promptSha,
      request.responseSchemaSha, response.requestId, response.text, claims, completedAt)
  }

  /** What one execution leaves and returns, and whether it asked the provider. */
  datatype Executed = Executed(store: Store, outcome: Outcome, asked: bool)

  /** `ground` verifies provider text against the admitted source and extracts its claims; `response` is what
    the provider would say if it were asked now. */
  function ExecuteEffect(
    st: Store, ground: string -> Option<seq<string>>, request: Request, response: Response, completedAt: string, life: nat): Executed
  {
    var begun := BeginEffect(st, request, life);
    if begun.outcome.Returned? then
      var kept := ground(begun.outcome.result.contract) == Some(begun.outcome.result.claims);
      Executed(begun.store, if kept then begun.outcome else ContractError, false)
    else if begun.outcome != FreshLease then Executed(begun.store, begun.outcome, false)
    else if begun.left == 0 then Executed(begun.store, Died, false)
    else
      var grounded := ground(response.text);
      if !KeepsContract(request, response) || grounded == None then Executed(begun.store, ContractError, true)
      else
        var result := ResultOf(request, response, grounded.value, completedAt);
        var completed := CompleteEffect(begun.store, request, result, begun.left - 1);
        Executed(completed.store, completed.outcome, true)
  }

  /** What completing a request does, told from the files of its key alone: nothing, unless the result answers
    exactly this request, which is readable there, and no pointer is; a recorded result is returned only for
    the very same result. */
  lemma CompleteIsExact(st: Store, request: Request, result: Result, life: nat)
    ensures var key := request.CallKey();
      var effect := CompleteEffect(st, request, result, life);
      var answers := result == Result(
        Sha256(request), request.requestSha, request.sourceSha, request.provider, request.model, request.promptSha,
        request.responseSchemaSha, result.providerRequestId, result.contract, result.claims, result.completedAt);
      var held := key in st.claims && st.claims[key] == File(request, false);
      && (effect.store != st ==> answers && held && key !in st.pointers)
      && (!answers || key !in st.claims ==> effect.outcome == Conflict)
      && (answers && key in st.claims && st.claims[key].doubled ==> effect.outcome == IntegrityError)
      && (answers && key in st.claims && !st.claims[key].doubled && !held ==> effect.outcome == Conflict)
      && (answers && held && key in st.pointers && ReadResultFor(st, key).Completed? ==>
            effect.outcome == if ReadResultFor(st, key).result == result then Returned(result) else Conflict)
      && (answers && held && key in st.pointers && !ReadResultFor(st, key).Completed? ==> effect.outcome == IntegrityError)
      && (answers && held && key !in st.pointers ==> effect.outcome != Conflict)
      && (effect.outcome.Returned? ==> effect.outcome.result == result && ReadResultFor(effect.store, key) == Completed(result))
  {
  }

  /** The provider is asked exactly where no claim was, by a process that lives through the claim.  Its answer is
    refused exactly when it is not plain text of the asked model with an id of its own, or does not ground.  A
    recorded result escapes only if it still grounds to the recorded claims, a fresh one only once it is
    durable, and it is the grounded answer to exactly this request. */
  lemma ReturnedIsGrounded(st: Store, ground: string -> Option<seq<string>>, request: Request, response: Response, completedAt: string, life: nat)
    ensures var e := ExecuteEffect(st, ground, request, response, completedAt, life);
      && (e.asked <==> request.CallKey() !in st.claims && life >= 4)
      && (e.asked ==> ReadOptional(e.store.claims, request.CallKey()) == Present(request))
      && (e.asked ==>
            (e.outcome == ContractError <==>
              response.parsed || response.model != request.model || response.requestId == "" || ground(response.text) == None))
      && (!e.asked && e.outcome == ContractError ==>
            DecideBegin(st, request).Returned?
            && ground(DecideBegin(st, request).result.contract) != Some(DecideBegin(st, request).result.claims))
      && (e.outcome.Returned? ==>
            var result := e.outcome.result;
            && ground(result.contract) == Some(result.claims)
            && ReadResultFor(e.store, request.CallKey()) == Completed(result)
            && (if e.asked then result == Result(
                  Sha256(request), request.requestSha, request.sourceSha, request.provider, request.model, request.promptSha,
                  request.responseSchemaSha, response.requestId, response.text, result.claims, completedAt)
                else DecideBegin(st, request) == e.outcome && e.store == st))
  {
    CreateOnlyIsWriteOnce(st.claims, request.CallKey(), request, life);
  }

  /** A first answer, to a process that lives, with no file in its way, is recorded and returned, and so it is to
    every retry with another clock. */
  lemma FirstAnswerIsReturned(st: Store, ground: string -> Option<seq<string>>, request: Request, response: Response, completedAt: string, life: nat)
    requires request.CallKey() !in st.claims && request.CallKey() !in st.pointers && life >= 10 && ground(response.text).Some?
    requires !response.parsed && response.model == request.model && response.requestId != ""
    requires Sha256(ResultOf(request, response, ground(response.text).value, completedAt)) !in st.results
    ensures var e := ExecuteEffect(st, ground, request, response, completedAt, life);
      && e.asked && e.outcome.Returned?
      && forall retry: Request :: retry == request.(claimedAt := retry.claimedAt) ==> DecideBegin(e.store, retry) == e.outcome
  {
    var e := ExecuteEffect(st, ground, request, response, completedAt, life);
    forall retry: Request | retry == request.(claimedAt := retry.claimedAt) ensures DecideBegin(e.store, retry) == e.outcome {
      RequestsAgreeExactlyWhen(retry, request);
    }
  }

  /** The client. */
  class LiveExtraction {
    const repository: ExtractionRepository
    const ground: string -> Option<seq<string>>
    var calls: seq<Request>

    constructor (repository: ExtractionRepository, ground: string -> Option<seq<string>>)
      ensures this.repository == repository && this.ground == ground && calls == []
    {
      this.repository, this.ground := repository, ground;
      calls := [];
    }

    method Execute(request: Request, response: Response, completedAt: string, life: nat) returns (outcome: Outcome)
      modifies this, repository
      ensures var e := ExecuteEffect(old(repository.Contents()), ground, request, response, completedAt, life);
        && repository.Contents() == e.store && outcome == e.outcome
        && calls == old(calls) + (if e.asked then [request] else [])
    {
      var left;
      outcome, left := repository.Begin(request, life);
      ghost var begun := BeginEffect(old(repository.Contents()), request, life);
      assert repository.Contents() == begun.store && outcome == begun.outcome && left == begun.left;
      if outcome.Returned? {
        if ground(outcome.result.contract) != Some(outcome.result.claims) { outcome := ContractError; }
        return;
      }
      if outcome != FreshLease { return; }
      if left == 0 { return Died; }
      calls := calls + [request];
      left := left - 1;
      if !KeepsContract(request, response) { return ContractError; }
      var grounded := ground(response.text);
      if grounded == None { return ContractError; }
      var result := ResultOf(request, response, grounded.value, completedAt);
      ghost var completed := CompleteEffect(begun.store, request, result, left);
      outcome, left := repository.CompleteLive(request, result, left);
      assert ExecuteEffect(old(repository.Contents()), ground, request, response, completedAt, life)
        == Executed(completed.store, completed.outcome, true);
    }
  }
}
