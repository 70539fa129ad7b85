/** Ownership of one public start: an operation claim that pins the start time, and a pair of create-only
  indexes, by operation and by run, written one after the other. */
module StartCommand {
  import opened CreateOnlyFiles

  /** `inputs` stands for every immutable field other than the two identities. */
  datatype Command = Command(operationId: string, runId: string, inputs: string, claimedAt: string) {
    function SemanticKey(): Command { this.(claimedAt := "") }
  }

  datatype Indexes = Indexes(byOperation: Directory<string, Command>, byRun: Directory<string, Command>)

  datatype Outcome = Owned(command: Command) | Conflict | IntegrityError | Refused | Died

  datatype Effect = Effect(indexes: Indexes, outcome: Outcome)

  predicate OtherInputs(owner: Reading<Command>, command: Command) {
    owner.Present? && owner.content.SemanticKey() != command.SemanticKey()
  }

  /** `claim` under the repository lock, by a process that lives for `life` durable effects. */
  function ClaimEffect(ix: Indexes, command: Command, life: nat): Effect {
    var operationOwner := ReadOptional(ix.byOperation, command.operationId);
    var runOwner := ReadOptional(ix.byRun, command.runId);
    if operationOwner.Unreadable? || runOwner.Unreadable? then Effect(ix, IntegrityError)
    else if OtherInputs(operationOwner, command) || OtherInputs(runOwner, command) then Effect(ix, Conflict)
    else
      var first := if operationOwner.Absent? then CreateOnly(ix.byOperation, command.operationId, command, life)
                   else Stored(ix.byOperation, life);
      var ix1 := ix.(byOperation := first.dir);
      if !first.Stored? then Effect(ix1, if first.Killed? then Died else IntegrityError)
      else
        var second := if runOwner.Absent? then CreateOnly(ix.byRun, command.runId, command, first.left)
                      else Stored(ix.byRun, first.left);
        var ix2 := ix1.(byRun := second.dir);
        if !second.Stored? then Effect(ix2, if second.Killed? then Died else IntegrityError)
        else Effect(ix2, Reopened(ix2, command))
  }

  /** Both indexes must reopen, with equal bytes. */
  function Reopened(ix: Indexes, command: Command): Outcome {
    match (ReadOptional(ix.byOperation, command.operationId), ReadOptional(ix.byRun, command.runId))
    case (Present(a), Present(b)) => if a == b then Owned(a) else IntegrityError
    case _ => IntegrityError
  }

  class StartCommandRepository {
    var byOperation: Directory<string, Command>
    var byRun: Directory<string, Command>

    function Contents(): Indexes
      reads this
    {
      Indexes(byOperation, byRun)
    }

    method Claim(command: Command, life: nat) returns (outcome: Outcome)
      modifies this
      ensures Effect(Contents(), outcome) == ClaimEffect(old(Contents()), command, life)
    {
      var operationOwner := ReadOptional(byOperation, command.operationId);
      var runOwner := ReadOptional(byRun, command.runId);
      if operationOwner.Unreadable? || runOwner.Unreadable? { return IntegrityError; }
      if OtherInputs(operationOwner, command) || OtherInputs(runOwner, command) { return Conflict; }
      var left := life;
      if operationOwner.Absent? {
        var written := CreateOnly(byOperation, command.operationId, command, left);
        byOperation := written.dir;
        if !written.Stored? { return if written.Killed? then Died else IntegrityError; }
        left := written.left;
      }
      if runOwner.Absent? {
        var written := CreateOnly(byRun, command.runId, command, left);
        byRun := written.dir;
        if !written.Stored? { return if written.Killed? then Died else IntegrityError; }
      }
      outcome := Reopened(Contents(), command);
    }
  }

  /** How a claim that lives to its end ends: it fails when a file it reads carries the residue of a kill, is a
    conflict when a present owner differs from it in anything but the time, and otherwise succeeds exactly when
    the owners that will be there afterwards have equal bytes. */
  lemma ClaimSucceedsExactlyWhen(ix: Indexes, command: Command, life: nat)
    requires life >= 6
    ensures var o := ReadOptional(ix.byOperation, command.operationId);
      var r := ReadOptional(ix.byRun, command.runId);
      var owner := if o.Present? then o.content else command;
      ClaimEffect(ix, command, life).outcome ==
        if o.Unreadable? || r.Unreadable? then IntegrityError
        else if o.Present? && o.content != command.(claimedAt := o.content.claimedAt) then Conflict
        else if r.Present? && r.content != command.(claimedAt := r.content.claimedAt) then Conflict
        else if owner == (if r.Present? then r.content else command) then Owned(owner)
        else IntegrityError
  {
    CommandsAgree(command);
  }

  lemma CommandsAgree(command: Command)
    ensures forall c: Command :: c.SemanticKey() == command.SemanticKey() <==> c == command.(claimedAt := c.claimedAt)
  {
  }

  /** Without a pinned time the pair can be wedged for good: a claim killed between its two writes and
    retried a second later leaves two different owners, and no later claim of that start ever succeeds. */
  lemma UnpinnedRetryWedges(command: Command, later: string, retry: nat)
    requires command.claimedAt != later && retry >= 3
    ensures var killed := ClaimEffect(Indexes(map[], map[]), command, 3);
      var retried := ClaimEffect(killed.indexes, command.(claimedAt := later), retry);
      && killed.outcome == Died
      && retried.outcome == IntegrityError
      && forall at: string, life: nat ::
           ClaimEffect(retried.indexes, command.(claimedAt := at), life) == Effect(retried.indexes, IntegrityError)
  {
    var first := map[command.operationId := File(command, false)];
    var killed := ClaimEffect(Indexes(map[], map[]), command, 3);
    assert Cleanup<string, Command>(map[]) == map[];
    assert killed.indexes == Indexes(first, map[]);
    var second := command.(claimedAt := later);
    var retried := ClaimEffect(killed.indexes, second, retry);
    assert retried.indexes == Indexes(first, map[command.runId := File(second, false)]);
  }
}
