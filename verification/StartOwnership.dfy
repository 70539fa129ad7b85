/** Start attempts end to end: the operation row pins the start time, then both indexes are claimed. */
module StartOwnership {
  import opened CreateOnlyFiles
  import opened StartCommand

  /** `pins` holds one row per operation: the semantic inputs and the time of its first claim. */
  datatype State = State(pins: map<string, Command>, indexes: Indexes)

  const INITIAL := State(map[], Indexes(map[], map[]))

  datatype Attempt = Attempt(command: Command, life: nat)

  datatype Result = Result(state: State, outcome: Outcome)

  /** One attempt of `start_change`, up to its claim: `attempt.command` carries the attempt's own clock. */
  function AttemptEffect(s: State, attempt: Attempt): Result {
    var command := attempt.command;
    var operation := command.operationId;
    if operation in s.pins then
      if s.pins[operation].SemanticKey() != command.SemanticKey() then Result(s, Refused)
      else
        var e := ClaimEffect(s.indexes, s.pins[operation], attempt.life);
        Result(s.(indexes := e.indexes), e.outcome)
    else if attempt.life == 0 then Result(s, Died)
    else
      var e := ClaimEffect(s.indexes, command, attempt.life - 1);
      Result(State(s.pins[operation := command], e.indexes), e.outcome)
  }

  class StartFacade {
    const repository: StartCommandRepository
    var pins: map<string, Command>

    constructor (repository: StartCommandRepository)
      ensures this.repository == repository && pins == map[]
    {
      this.repository, pins := repository, map[];
    }

    function Contents(): State
      reads this, repository
    {
      State(pins, repository.Contents())
    }

    method StartChange(command: Command, life: nat) returns (outcome: Outcome)
      modifies this, repository
      ensures Result(Contents(), outcome) == AttemptEffect(old(Contents()), Attempt(command, life))
    {
      var pinned, left := command, life;
      if command.operationId in pins {
        if pins[command.operationId].SemanticKey() != command.SemanticKey() { return Refused; }
        pinned := pins[command.operationId];
      } else if life == 0 {
        return Died;
      } else {
        pins, left := pins[command.operationId := command], life - 1;
      }
      outcome := repository.Claim(pinned, left);
    }
  }

  function After(s: State, attempts: seq<Attempt>): State
    decreases |attempts|
  {
    if attempts == [] then s else After(AttemptEffect(s, attempts[0]).state, attempts[1..])
  }

  /** Every index file is its operation's pinned command, and a run is never indexed before its operation. */
  ghost predicate Inv(s: State) {
    && (forall o :: o in s.pins ==> s.pins[o].operationId == o)
    && (forall o :: o in s.indexes.byOperation ==> o in s.pins && s.indexes.byOperation[o].content == s.pins[o])
    && (forall r :: r in s.indexes.byRun ==> RunOk(s, r))
  }

  ghost predicate RunOk(s: State, r: string)
    requires r in s.indexes.byRun
  {
    var c := s.indexes.byRun[r].content;
    && c.runId == r
    && c.operationId in s.indexes.byOperation
    && s.indexes.byOperation[c.operationId].content == c
  }

  ghost predicate Grows(s: State, t: State) {
    && (forall o :: o in s.pins ==> o in t.pins && t.pins[o] == s.pins[o])
    && Extends(s.indexes.byOperation, t.indexes.byOperation)
    && Extends(s.indexes.byRun, t.indexes.byRun)
  }

  /** `after` has at most one file more, of this name and content. */
  ghost predicate AddsOnly(before: Directory<string, Command>, after: Directory<string, Command>, name: string, content: Command) {
    Extends(before, after) && forall k :: k in after && k !in before ==> k == name && after[k].content == content
  }

  /** A claim adds at most its own two files, the operation first, and touches nothing else. */
  lemma ClaimShape(ix: Indexes, command: Command, life: nat)
    ensures var ix' := ClaimEffect(ix, command, life).indexes;
      && AddsOnly(ix.byOperation, ix'.byOperation, command.operationId, command)
      && AddsOnly(ix.byRun, ix'.byRun, command.runId, command)
      && (ix'.byRun.Keys != ix.byRun.Keys ==>
            command.operationId in ix'.byOperation
            && ix'.byOperation[command.operationId].content.SemanticKey() == command.SemanticKey())
  {
    CreateOnlyIsWriteOnce(ix.byOperation, command.operationId, command, life);
    var first := if command.operationId in ix.byOperation then Stored(ix.byOperation, life)
      else CreateOnly(ix.byOperation, command.operationId, command, life);
    if first.Stored? { CreateOnlyIsWriteOnce(ix.byRun, command.runId, command, first.left); }
  }

  lemma ClaimKeeps(pins: map<string, Command>, ix: Indexes, command: Command, life: nat)
    requires Inv(State(pins, ix)) && command.operationId in pins && pins[command.operationId] == command
    ensures var t := State(pins, ClaimEffect(ix, command, life).indexes); Inv(t) && Grows(State(pins, ix), t)
  {
    ClaimShape(ix, command, life);
    var s, t := State(pins, ix), State(pins, ClaimEffect(ix, command, life).indexes);
    forall r | r in t.indexes.byRun ensures RunOk(t, r) {
      if r in ix.byRun { assert RunOk(s, r); }
    }
  }

  lemma PinKeeps(s: State, command: Command)
    requires Inv(s) && command.operationId !in s.pins
    ensures var t := s.(pins := s.pins[command.operationId := command]); Inv(t) && Grows(s, t)
  {
    var t := s.(pins := s.pins[command.operationId := command]);
    forall r | r in t.indexes.byRun ensures RunOk(t, r) { assert RunOk(s, r); }
  }

  lemma AttemptKeeps(s: State, attempt: Attempt)
    requires Inv(s)
    ensures Inv(AttemptEffect(s, attempt).state) && Grows(s, AttemptEffect(s, attempt).state)
  {
    var command := attempt.command;
    var t := AttemptEffect(s, attempt).state;
    if t != s {
      if command.operationId in s.pins {
        ClaimKeeps(s.pins, s.indexes, s.pins[command.operationId], attempt.life);
      } else {
        PinKeeps(s, command);
        ClaimKeeps(s.pins[command.operationId := command], s.indexes, command, attempt.life - 1);
      }
    }
  }

  lemma {:induction false} AfterKeeps(s: State, attempts: seq<Attempt>)
    requires Inv(s)
    ensures Inv(After(s, attempts)) && Grows(s, After(s, attempts))
    decreases |attempts|
  {
    if attempts != [] {
      AttemptKeeps(s, attempts[0]);
      AfterKeeps(AttemptEffect(s, attempts[0]).state, attempts[1..]);
    }
  }

  /** Operation `o` and run `r` own each other: both index files are there, with equal bytes. */
  ghost predicate Matched(s: State, o: string, r: string) {
    && o in s.indexes.byOperation && r in s.indexes.byRun
    && s.indexes.byOperation[o].content == s.indexes.byRun[r].content
  }

  /** In any history the matched pairs are one-to-one, permanent, and name each other. */
  lemma OneToOneForever(attempts: seq<Attempt>, more: seq<Attempt>, o: string, r: string, o': string, r': string)
    requires Matched(After(INITIAL, attempts), o, r)
    ensures var t := After(After(INITIAL, attempts), more);
      && Matched(t, o, r)
      && t.indexes.byOperation[o].content.operationId == o && t.indexes.byRun[r].content.runId == r
      && (Matched(t, o', r') ==> (o == o' <==> r == r'))
  {
    AfterKeeps(INITIAL, attempts);
    AfterKeeps(After(INITIAL, attempts), more);
    var t := After(After(INITIAL, attempts), more);
    assert RunOk(t, r);
    if Matched(t, o', r') { assert RunOk(t, r'); }
  }

  /** What an attempt that lives to its end returns after any history, read off the files alone.  With the
    start time pinned, a retry after any kills ends with equal bytes in both indexes unless its operation
    was used for other inputs, another operation owns the run, or a file still carries residue. */
  lemma RetryFinishesExactlyWhen(attempts: seq<Attempt>, command: Command, life: nat)
    requires life >= 7
    ensures var s := After(INITIAL, attempts);
      var e := AttemptEffect(s, Attempt(command, life));
      var o, r := command.operationId, command.runId;
      var pinned := if o in s.pins then s.pins[o] else command;
      var ix := s.indexes;
      if pinned != command.(claimedAt := pinned.claimedAt) then e == Result(s, Refused)
      else if (o in ix.byOperation && ix.byOperation[o].doubled) || (r in ix.byRun && ix.byRun[r].doubled)
           then e.outcome == IntegrityError
      else if r in ix.byRun && ix.byRun[r].content.operationId != o then e.outcome == Conflict
      else e.outcome == Owned(pinned) && Matched(e.state, o, r)
  {
    AfterKeeps(INITIAL, attempts);
    var s := After(INITIAL, attempts);
    var o, r := command.operationId, command.runId;
    var pinned := if o in s.pins then s.pins[o] else command;
    if r in s.indexes.byRun { assert RunOk(s, r); }
    CommandsAgree(command);
    if pinned.SemanticKey() == command.SemanticKey() {
      ClaimSucceedsExactlyWhen(s.indexes, pinned, if o in s.pins then life else life - 1);
      assert pinned.runId == r && pinned.operationId == o by {
        assert pinned.SemanticKey().runId == r && pinned.SemanticKey().operationId == o;
      }
    }
  }

  /** The residue case at one input: a first attempt killed just after linking its operation index.  No retry
    of it, however long it lives, cleans that file or gets past it; the claim of any other start cleans the
    directory, and the next retry finishes with the time of the first. */
  lemma ResidueWaitsForAnotherStart(command: Command, other: Command, at: string, life: nat)
    requires other.operationId != command.operationId && other.runId != command.runId && life >= 7
    ensures var s := AttemptEffect(INITIAL, Attempt(command, 3)).state;
      var retry := Attempt(command.(claimedAt := at), life);
      && AttemptEffect(s, retry) == Result(s, IntegrityError)
      && AttemptEffect(AttemptEffect(s, Attempt(other, 7)).state, retry).outcome == Owned(command)
  {
    var o, r := command.operationId, command.runId;
    var s := AttemptEffect(INITIAL, Attempt(command, 3)).state;
    assert Cleanup<string, Command>(map[]) == map[];
    assert s == State(map[o := command], Indexes(map[o := File(command, true)], map[]));
    var retry := command.(claimedAt := at);
    assert retry.SemanticKey() == command.SemanticKey();
    var t := AttemptEffect(s, Attempt(other, 7)).state;
    assert t.pins == map[o := command][other.operationId := other];
    assert Cleanup(map[o := File(command, true)]) == map[o := File(command, false)];
    assert t.indexes.byOperation == map[o := File(command, false)][other.operationId := File(other, false)];
    assert t.indexes.byRun == map[other.runId := File(other, false)];
    ClaimSucceedsExactlyWhen(t.indexes, command, life);
  }
}
