/** The lifecycle index: one write-once record per run and stage.

  Unlike the evidence repository it never cleans its directory, so a process killed between linking a
  record and unlinking the pending name leaves that record unreadable for good. */
module LifecycleIndex {
  import opened CreateOnlyFiles

  datatype Stage = Incoming | Temporal | Impact | Planning | Baseline | Classification | Dependency | Activation

  datatype Owner = Owner(kind: string, id: string, sha: string, locator: string)

  datatype Slot = Slot(runId: string, stage: Stage)

  datatype Record = Record(slot: Slot, owners: seq<Owner>, recordedAt: string) {
    function SemanticKey(): (Slot, seq<Owner>) { (slot, owners) }
  }

  type Index = Directory<Slot, Record>

  datatype Outcome = Kept(record: Record) | Missing | Conflict | IntegrityError | Died

  datatype Operation = Persist(record: Record, life: nat) | Reopen(slot: Slot) {
    function Slot(): Slot { match this case Persist(record, _) => record.slot case Reopen(slot) => slot }
  }

  function ReopenOutcome(index: Index, slot: Slot): Outcome {
    match ReadOptional(index, slot)
    case Absent => Missing
    case Unreadable => IntegrityError
    case Present(record) => Kept(record)
  }

  datatype Effect = Effect(index: Index, outcome: Outcome)

  /** The two visible effects are the link and the unlink; the pending file before them is never read. */
  function PersistEffect(index: Index, record: Record, life: nat): Effect {
    match ReadOptional(index, record.slot)
    case Unreadable => Effect(index, IntegrityError)
    case Present(existing) =>
      Effect(index, if existing.SemanticKey() == record.SemanticKey() then Kept(existing) else Conflict)
    case Absent =>
      if life == 0 then Effect(index, Died)
      else if life == 1 then Effect(index[record.slot := File(record, true)], Died)
      else Effect(index[record.slot := File(record, false)], Kept(record))
  }

  class FilesystemLifecycleIndex {
    var index: Index

    method Persist(record: Record, life: nat) returns (outcome: Outcome)
      modifies this
      ensures Effect(index, outcome) == PersistEffect(old(index), record, life)
    {
      var existing := ReadOptional(index, record.slot);
      if existing.Unreadable? { return IntegrityError; }
      if existing.Present? {
        if existing.content.SemanticKey() != record.SemanticKey() { return Conflict; }
        return Kept(existing.content);
      }
      if life == 0 { return Died; }
      index := index[record.slot := File(record, true)];
      if life == 1 { return Died; }
      index := index[record.slot := File(record, false)];
      var reopened := ReadOptional(index, record.slot);
      outcome := if reopened == Present(record) then Kept(record) else IntegrityError;
    }

    method Reopen(slot: Slot) returns (outcome: Outcome)
      ensures outcome.Kept? ==> slot in index && index[slot] == File(outcome.record, false)
      ensures outcome == Missing <==> slot !in index
      ensures outcome == IntegrityError <==> slot in index && index[slot].doubled
      ensures outcome == ReopenOutcome(index, slot)
    {
      var existing := ReadOptional(index, slot);
      match existing {
        case Absent => outcome := Missing;
        case Unreadable => outcome := IntegrityError;
        case Present(record) => outcome := Kept(record);
      }
    }
  }

  function Apply(index: Index, op: Operation): Effect {
    match op
    case Persist(record, life) => PersistEffect(index, record, life)
    case Reopen(slot) => Effect(index, ReopenOutcome(index, slot))
  }

  function After(index: Index, ops: seq<Operation>): Index
    decreases |ops|
  {
    if ops == [] then index else After(Apply(index, ops[0]).index, ops[1..])
  }

  ghost predicate Inv(index: Index) {
    forall slot :: slot in index ==> index[slot].content.slot == slot
  }

  lemma {:induction false} AfterKeeps(index: Index, ops: seq<Operation>)
    requires Inv(index)
    ensures Inv(After(index, ops))
    ensures forall slot :: slot in index ==> slot in After(index, ops) && After(index, ops)[slot] == index[slot]
    decreases |ops|
  {
    if ops != [] {
      AfterKeeps(Apply(index, ops[0]).index, ops[1..]);
    }
  }

  lemma {:induction false} AfterAppend(index: Index, ops: seq<Operation>, more: seq<Operation>)
    ensures After(index, ops + more) == After(After(index, ops), more)
    decreases |ops|
  {
    if ops == [] {
      assert ops + more == more;
    } else {
      assert (ops + more)[1..] == ops[1..] + more;
      AfterAppend(Apply(index, ops[0]).index, ops[1..], more);
    }
  }

  lemma SplitHistory(ops: seq<Operation>, i: nat, j: nat)
    requires i < j <= |ops|
    ensures After(map[], ops[..j]) == After(Apply(After(map[], ops[..i]), ops[i]).index, ops[i + 1..j])
  {
    assert ops[..j] == ops[..i] + ([ops[i]] + ops[i + 1..j]);
    AfterAppend(map[], ops[..i], [ops[i]] + ops[i + 1..j]);
    assert ([ops[i]] + ops[i + 1..j])[1..] == ops[i + 1..j];
  }

  function OutcomeAt(ops: seq<Operation>, i: nat): Outcome
    requires i < |ops|
  {
    Apply(After(map[], ops[..i]), ops[i]).outcome
  }

  /** Once one operation has returned a record for a slot, every later operation on that slot returns the
    identical record, bytes and time included, or refuses inputs with another semantic key. */
  lemma OneRecordForever(ops: seq<Operation>, i: nat, j: nat)
    requires i < j < |ops| && ops[i].Slot() == ops[j].Slot() && OutcomeAt(ops, i).Kept?
    ensures OutcomeAt(ops, j) ==
      (if ops[j].Persist? && ops[j].record.owners != OutcomeAt(ops, i).record.owners then Conflict
       else OutcomeAt(ops, i))
  {
    var before := After(map[], ops[..i]);
    AfterKeeps(map[], ops[..i]);
    AfterKeeps(Apply(before, ops[i]).index, ops[i + 1..j]);
    SplitHistory(ops, i, j);
  }

  /** A process killed after linking a new record and before unlinking its pending name wedges the slot:
    every later operation on it, with any inputs, fails closed and nothing ever repairs it. */
  lemma KilledBetweenLinkAndUnlinkWedges(ops: seq<Operation>, i: nat, j: nat)
    requires i < j < |ops| && ops[i].Slot() == ops[j].Slot()
    requires ops[i].Persist? && ops[i].life == 1 && ops[i].Slot() !in After(map[], ops[..i])
    ensures OutcomeAt(ops, j) == IntegrityError
  {
    var before := After(map[], ops[..i]);
    AfterKeeps(map[], ops[..i]);
    AfterKeeps(Apply(before, ops[i]).index, ops[i + 1..j]);
    SplitHistory(ops, i, j);
  }

  /** The residue has no other origin: a slot is unreadable exactly when its first link was followed by a
    kill, and what a slot holds is always one whole record that some `persist` was given. */
  lemma {:induction false} EveryRecordWasPersisted(ops: seq<Operation>, slot: Slot)
    ensures slot in After(map[], ops) ==>
      exists i :: 0 <= i < |ops| && LinkedAt(ops, i, slot)
        && After(map[], ops)[slot] == File(ops[i].record, ops[i].life == 1)
    decreases |ops|
  {
    if ops != [] {
      var n := |ops| - 1;
      AfterKeeps(map[], ops[..n]);
      EveryRecordWasPersisted(ops[..n], slot);
      assert ops == ops[..n] + [ops[n]];
      AfterAppend(map[], ops[..n], [ops[n]]);
      var before := After(map[], ops[..n]);
      if slot in before {
        var i :| 0 <= i < n && LinkedAt(ops[..n], i, slot) && before[slot] == File(ops[..n][i].record, ops[..n][i].life == 1);
        assert ops[..n][..i] == ops[..i];
        assert LinkedAt(ops, i, slot);
      } else if slot in After(map[], ops) {
        assert LinkedAt(ops, n, slot);
      }
    }
  }

  lemma LinkedStays(ops: seq<Operation>, i: nat, slot: Slot)
    requires i < |ops| && LinkedAt(ops, i, slot)
    ensures slot in After(map[], ops) && After(map[], ops)[slot] == File(ops[i].record, ops[i].life == 1)
  {
    var before := After(map[], ops[..i]);
    AfterKeeps(map[], ops[..i]);
    AfterKeeps(Apply(before, ops[i]).index, ops[i + 1..]);
    SplitHistory(ops, i, |ops|);
    assert ops[..|ops|] == ops && ops[i + 1..|ops|] == ops[i + 1..];
  }

  /** What reopening says after any history: a record comes back exactly if one `persist` linked it as the
    first of its slot and lived to unlink its pending name; nothing, exactly if nobody linked one; a failure,
    exactly if the first to link one was killed there. */
  lemma ReopenExactlyWhen(ops: seq<Operation>, slot: Slot, record: Record)
    ensures var outcome := ReopenOutcome(After(map[], ops), slot);
      && (outcome == Kept(record) <==> exists i: nat :: LinkedAt(ops, i, slot) && ops[i].record == record && ops[i].life >= 2)
      && (outcome == IntegrityError <==> exists i: nat :: LinkedAt(ops, i, slot) && ops[i].life == 1)
      && (outcome == Missing <==> forall i: nat :: !LinkedAt(ops, i, slot))
  {
    EveryRecordWasPersisted(ops, slot);
    forall i: nat | LinkedAt(ops, i, slot)
      ensures slot in After(map[], ops) && After(map[], ops)[slot] == File(ops[i].record, ops[i].life == 1)
    {
      LinkedStays(ops, i, slot);
    }
  }

  /** Operation `i` is the one that linked the record of this slot. */
  ghost predicate LinkedAt(ops: seq<Operation>, i: int, slot: Slot) {
    && 0 <= i < |ops| && ops[i].Persist? && ops[i].record.slot == slot && ops[i].life >= 1
    && slot !in After(map[], ops[..i])
  }
}
