/** Whole histories of the extraction journal.  The repository lock serialises its operations, and a kill
  inside one releases the lock, so a history is any sequence of operations, each with its own life. */
module ExtractionHistory {
  import opened CreateOnlyFiles
  import opened ExtractionCalls
  import OneShotRegister

  datatype Operation =
    | Begin(request: Request, life: nat)
    | Complete(request: Request, result: Result, life: nat)

  function Apply(st: Store, op: Operation): Effect {
    match op
    case Begin(request, life) => BeginEffect(st, request, life)
    case Complete(request, result, life) => CompleteEffect(st, request, result, life)
  }

  function After(st: Store, ops: seq<Operation>): Store
    decreases |ops|
  {
    if ops == [] then st else After(Apply(st, ops[0]).store, ops[1..])
  }

  ghost predicate PointerOk(st: Store, key: RetryKey)
    requires key in st.pointers
  {
    var d := st.pointers[key].content;
    && d in st.results && !st.results[d].doubled && st.results[d].content == d.of
    && key in st.claims && Answers(d.of, st.claims[key].content)
  }

  ghost predicate Inv(st: Store) {
    && (forall k :: k in st.claims ==> st.claims[k].content.CallKey() == k)
    && (forall d :: d in st.results ==> st.results[d].content == d.of)
    && (forall k :: k in st.pointers ==> PointerOk(st, k))
  }

  function RegisterOf(st: Store, key: RetryKey): OneShotRegister.Register<Request, Result> {
    if key !in st.claims then OneShotRegister.Empty
    else if key !in st.pointers then OneShotRegister.Claimed(st.claims[key].content)
    else OneShotRegister.Done(st.claims[key].content, st.pointers[key].content.of)
  }

  lemma GrowingKeepsPointers(st: Store, st': Store)
    requires Inv(st)
    requires Extends(st.claims, st'.claims) && Extends(st.results, st'.results)
    ensures forall k :: k in st.pointers && k in st'.pointers && st'.pointers[k].content == st.pointers[k].content ==>
              PointerOk(st', k)
  {
    forall k | k in st.pointers && k in st'.pointers && st'.pointers[k].content == st.pointers[k].content
      ensures PointerOk(st', k)
    {
      assert PointerOk(st, k);
    }
  }

  lemma BeginKeeps(st: Store, request: Request, life: nat)
    requires Inv(st)
    ensures var st' := BeginEffect(st, request, life).store;
      Inv(st') && forall k :: OneShotRegister.Moves(RegisterOf(st, k), RegisterOf(st', k))
  {
    var st' := BeginEffect(st, request, life).store;
    CreateOnlyIsWriteOnce(st.claims, request.CallKey(), request, life);
    GrowingKeepsPointers(st, st');
    forall k ensures OneShotRegister.Moves(RegisterOf(st, k), RegisterOf(st', k)) {
      assert k in st.pointers ==> PointerOk(st, k);
    }
  }

  lemma PublishKeeps(st: Store, key: RetryKey, result: Result, life: nat)
    requires Inv(st) && key in st.claims && Answers(result, st.claims[key].content) && key !in st.pointers
    ensures var st' := PublishEffect(st, key, result, life).store;
      Inv(st') && forall k :: OneShotRegister.Moves(RegisterOf(st, k), RegisterOf(st', k))
  {
    var e := PublishEffect(st, key, result, life);
    PublishShape(st, key, result, life);
    GrowingKeepsPointers(st, e.store);
    forall k | k in e.store.pointers ensures PointerOk(e.store, k) {
    }
  }

  /** Publication adds at most one result and, only once that is readable, at most one pointer. */
  lemma PublishShape(st: Store, key: RetryKey, result: Result, life: nat)
    requires key !in st.pointers
    ensures var st' := PublishEffect(st, key, result, life).store;
      && st'.claims == st.claims && Extends(st.results, st'.results) && Extends(st.pointers, st'.pointers)
      && (forall d :: d in st'.results && d !in st.results ==> d == Sha256(result) && st'.results[d].content == result)
      && (forall k :: k in st'.pointers && k !in st.pointers ==>
            (k == key && st'.pointers[k].content == Sha256(result)
             && ReadOptional(st'.results, Sha256(result)) == Present(result)))
  {
    var w := CreateOnly(st.results, Sha256(result), result, life);
    CreateOnlyIsWriteOnce(st.results, Sha256(result), result, life);
    if w.Stored? {
      CreateOnlyIsWriteOnce(st.pointers, key, Sha256(result), w.left);
    }
  }

  /** Every operation keeps the store sound and makes at most one legal move of every register. */
  lemma OperationRefinesRegister(st: Store, op: Operation)
    requires Inv(st)
    ensures Inv(Apply(st, op).store)
    ensures forall k :: OneShotRegister.Moves(RegisterOf(st, k), RegisterOf(Apply(st, op).store, k))
  {
    match op
    case Begin(request, life) => BeginKeeps(st, request, life);
    case Complete(request, result, life) =>
      if Apply(st, op).store != st {
        PublishKeeps(st, request.CallKey(), result, life);
      }
  }

  lemma {:induction false} HistoryLeads(st: Store, ops: seq<Operation>, key: RetryKey)
    requires Inv(st)
    ensures Inv(After(st, ops))
    ensures OneShotRegister.Leads(RegisterOf(st, key), RegisterOf(After(st, ops), key))
    decreases |ops|
  {
    if ops != [] {
      var st' := Apply(st, ops[0]).store;
      OperationRefinesRegister(st, ops[0]);
      HistoryLeads(st', ops[1..], key);
      OneShotRegister.MovesThenLeads(RegisterOf(st, key), RegisterOf(st', key), RegisterOf(After(st, ops), key));
    }
  }

  function Answered(answer: OneShotRegister.Answer<Result>): Outcome {
    match answer
    case Fresh => FreshLease
    case Completed(result) => Returned(result)
    case Indeterminate => Outcome.Indeterminate
    case Conflict => Outcome.Conflict
    case Unreadable => IntegrityError
  }

  /** After any history `begin` answers as the register does, or refuses because of the residue of a kill:
    the same object, and the same theorem, as for the provider journal. */
  lemma BeginReadsRegister(ops: seq<Operation>, request: Request)
    ensures var st := After(EMPTY_STORE, ops);
      var key := request.CallKey();
      var agrees := key in st.claims && st.claims[key].content == request.(claimedAt := st.claims[key].content.claimedAt);
      var residue := (key in st.claims && st.claims[key].doubled) || (agrees && key in st.pointers && st.pointers[key].doubled);
      DecideBegin(st, request) ==
        (if residue then IntegrityError else Answered(OneShotRegister.Begin(RegisterOf(st, key), agrees)))
  {
    HistoryLeads(EMPTY_STORE, ops, request.CallKey());
    var st := After(EMPTY_STORE, ops);
    if request.CallKey() in st.claims { RequestsAgreeExactlyWhen(st.claims[request.CallKey()].content, request); }
    if request.CallKey() in st.pointers {
      assert PointerOk(st, request.CallKey());
    }
  }

  lemma {:induction false} AfterAppend(st: Store, ops: seq<Operation>, more: seq<Operation>)
    ensures After(st, ops + more) == After(After(st, ops), more)
    decreases |ops|
  {
    if ops == [] {
      assert ops + more == more;
    } else {
      assert (ops + more)[1..] == ops[1..] + more;
      AfterAppend(Apply(st, ops[0]).store, ops[1..], more);
    }
  }

  lemma SplitHistory(st: Store, ops: seq<Operation>, i: nat, j: nat)
    requires i < j <= |ops|
    ensures After(st, ops[..j]) == After(Apply(After(st, ops[..i]), ops[i]).store, ops[i + 1..j])
  {
    assert ops[..j] == ops[..i] + ([ops[i]] + ops[i + 1..j]);
    AfterAppend(st, ops[..i], [ops[i]] + ops[i + 1..j]);
    assert ([ops[i]] + ops[i + 1..j])[1..] == ops[i + 1..j];
  }

  /** At most one `begin` of a key is ever told that its lease is fresh, in any history, so at most one
    caller may ask the provider for it. */
  lemma AtMostOneFreshLease(ops: seq<Operation>, i: nat, j: nat)
    requires i < j < |ops| && ops[i].Begin? && ops[j].Begin?
    requires ops[i].request.startCommandId == ops[j].request.startCommandId && ops[i].request.requestSha == ops[j].request.requestSha
    requires Apply(After(EMPTY_STORE, ops[..i]), ops[i]).outcome == FreshLease
    ensures Apply(After(EMPTY_STORE, ops[..j]), ops[j]).outcome != FreshLease
  {
    var key := ops[i].request.CallKey();
    var before := After(EMPTY_STORE, ops[..i]);
    HistoryLeads(EMPTY_STORE, ops[..i], key);
    var st := Apply(before, ops[i]).store;
    CreateOnlyIsWriteOnce(before.claims, key, ops[i].request, ops[i].life);
    OperationRefinesRegister(before, ops[i]);
    HistoryLeads(st, ops[i + 1..j], key);
    SplitHistory(EMPTY_STORE, ops, i, j);
  }

  /** A recorded result is final: every later `begin` with its inputs, whatever its clock, returns it, one with
    other inputs is a conflict, and only the residue of a kill makes it refuse. */
  lemma ResultIsForever(ops: seq<Operation>, more: seq<Operation>, request: Request)
    requires request.CallKey() in After(EMPTY_STORE, ops).pointers
    ensures var st := After(EMPTY_STORE, ops + more);
      var result := After(EMPTY_STORE, ops).pointers[request.CallKey()].content.of;
      && RegisterOf(st, request.CallKey()) == RegisterOf(After(EMPTY_STORE, ops), request.CallKey())
      && request.CallKey() in st.claims && request.CallKey() in st.pointers
      && DecideBegin(st, request) ==
         (if st.claims[request.CallKey()].doubled then IntegrityError
          else if st.claims[request.CallKey()].content != request.(claimedAt := st.claims[request.CallKey()].content.claimedAt) then Conflict
          else if st.pointers[request.CallKey()].doubled then IntegrityError
          else Returned(result))
  {
    var key := request.CallKey();
    AfterAppend(EMPTY_STORE, ops, more);
    HistoryLeads(EMPTY_STORE, ops, key);
    HistoryLeads(After(EMPTY_STORE, ops), more, key);
    assert PointerOk(After(EMPTY_STORE, ops), key);
    BeginReadsRegister(ops + more, request);
  }
}
