/** One attempt of the start saga over whatever earlier attempts left behind. */
module SagaAttempts {
  import opened StartSaga

  /** A durable record; a torn one still carries its pending name, so readers refuse it. */
  datatype Cell = Cell(sem: Value, captured: int, torn: bool)

  type Store = map<Slot, Cell>

  /** How long the process lives: for good, or for so many durable effects. */
  datatype Life = Forever | Effects(n: nat)

  function Spend(life: Life, k: nat): Life {
    match life case Forever => Forever case Effects(n) => Effects(if n < k then 0 else n - k)
  }

  predicate DiesWithin(life: Life, k: nat) { life.Effects? && life.n < k }

  datatype Failure = Unreadable | Conflict | Indeterminate | Stale | Refused(why: Objection) | Rejected

  datatype Outcome = Completed | Failed(why: Failure) | Died

  datatype Result = Result(store: Store, outcome: Outcome)

  /** What one durable write leaves, and whether the process survived it. */
  datatype Write = Write(store: Store, survived: bool, life: Life)

  function Record(m: Store, slot: Slot, sem: Value, captured: int, life: Life): Write {
    if DiesWithin(life, 1) then Write(m, false, life)
    else if KindOf(slot) == Row then Write(m[slot := Cell(sem, captured, false)], true, Spend(life, 1))
    else if DiesWithin(life, 2) then Write(m[slot := Cell(sem, captured, true)], false, life)
    else Write(m[slot := Cell(sem, captured, false)], true, Spend(life, 2))
  }

  /** What stops an attempt at a record that is already there. */
  function Obstacle(m: Store, slot: Slot, sem: Value): Outcome
    requires slot in m
  {
    if m[slot].torn && KindOf(slot) != SelfCleaning then Failed(Unreadable)
    else if m[slot].sem != sem then Failed(Conflict)
    else if slot.ClaimOf? && AnswerOf(slot.stage, slot.i) !in m then Failed(Indeterminate)
    else Completed
  }

  /** The ordinary path from `pc`, with the records `seen` so far in this attempt.  Analysis accepts only
    the revisions before the temporal commit.  A rejected answer leaves its claim behind and nothing else. */
  function Walk(w: World, m: Store, seen: seq<Rec>, pc: Pc, input: Slot -> int, life: Life): Result
    requires WellFormed(pc)
    decreases PcRank(pc), CallsLeft(pc)
  {
    if pc.Done? then Result(m, Completed)
    else
      var slot := SlotAt(pc);
      var sem := Sem(w, slot, seen);
      if ObjectionTo(w, slot, seen) != NoObjection then Result(m, Failed(Refused(ObjectionTo(w, slot, seen))))
      else if slot == AnalysisRow && TemporalCommit in m then Result(m, Failed(Stale))
      else if slot !in m && slot.AnswerOf? && w.rejects(slot, seen, input(slot)) then Result(m, Failed(Rejected))
      else if slot in m && Obstacle(m, slot, sem) != Completed then Result(m, Obstacle(m, slot, sem))
      else if slot in m && m[slot].torn && DiesWithin(life, 1) then Result(m, Died)
      else
        var write := if slot !in m then Record(m, slot, sem, input(slot), life)
                     else if m[slot].torn then Write(m[slot := m[slot].(torn := false)], true, Spend(life, 1))
                     else Write(m, true, life);
        if !write.survived then Result(write.store, Died)
        else
          var seen' := seen + [Rec(slot, sem, write.store[slot].captured)];
          AdvanceDescends(w, pc, seen');
          Walk(w, write.store, seen', Advance(w, pc, seen'), input, write.life)
  }

  function IdentityAt(m: Store, slot: Slot): Value
    requires slot in m
  {
    Identity(slot, m[slot].sem, m[slot].captured)
  }

  /** Put one record of a repair path: replay it if it is there with this meaning, else write it. */
  function Put(m: Store, slot: Slot, sem: Value, input: Slot -> int, life: Life): (Write, Outcome) {
    if slot in m then (Write(m, true, life), if m[slot].sem == sem then Completed else Failed(Conflict))
    else
      var write := Record(m, slot, sem, input(slot), life);
      (write, if write.survived then Completed else Died)
  }

  /** Repair of a lost terminal link from the no-change receipt. */
  function ResumeMechanical(m: Store, input: Slot -> int, life: Life): Result
    requires MechanicalReceipt in m
  {
    if m[MechanicalReceipt].torn then Result(m, Failed(Unreadable))
    else
      var (write, outcome) := Put(m, MechanicalLink, IdentityAt(m, MechanicalReceipt), input, life);
      Result(write.store, outcome)
  }

  /** Repair of the navigation after a durable temporal commit. */
  function ResumeTemporal(m: Store, input: Slot -> int, life: Life): Result
    requires TemporalCommit in m
  {
    var commit := IdentityAt(m, TemporalCommit);
    var (proposal, outcome) := Put(m, ProposalLink, commit, input, life);
    if outcome != Completed then Result(proposal.store, outcome)
    else OpenReview(proposal.store, commit, input, proposal.life)
  }

  /** The review request is opened for the commit, then linked. */
  function OpenReview(m: Store, commit: Value, input: Slot -> int, life: Life): Result {
    var (review, o1) := Put(m, ReviewRow, commit, input, life);
    if o1 != Completed then Result(review.store, o1)
    else
      var (link, o2) := Put(review.store, ReviewLink, IdentityAt(review.store, ReviewRow), input, review.life);
      Result(link.store, o2)
  }

  /** The commit of this run's temporal evidence is durable. */
  predicate Committed(m: Store) {
    TemporalIndex in m && TemporalCommit in m && m[TemporalCommit].sem == CommitOf(m[TemporalIndex].sem)
  }

  function Attempt(w: World, m: Store, input: Slot -> int, life: Life): Result {
    if MechanicalReceipt in m then ResumeMechanical(m, input, life)
    else if TemporalIndex in m && m[TemporalIndex].torn then Result(m, Failed(Unreadable))
    else if Committed(m) then ResumeTemporal(m, input, life)
    else Walk(w, m, [], Enter(w, Extraction, []), input, life)
  }

  /** The saga as the code runs it: stores updated in place, one record after another. */
  class StartLifecycle {
    const w: World
    var cells: Store

    constructor (w: World)
      ensures this.w == w && cells == map[]
    {
      this.w, cells := w, map[];
    }

    method Run(input: Slot -> int, life: Life) returns (outcome: Outcome)
      modifies this
      ensures Result(cells, outcome) == Attempt(w, old(cells), input, life)
    {
      if MechanicalReceipt in cells {
        var repaired := ResumeMechanical(cells, input, life);
        cells := repaired.store;
        return repaired.outcome;
      }
      if TemporalIndex in cells && cells[TemporalIndex].torn { return Failed(Unreadable); }
      if Committed(cells) {
        var repaired := ResumeTemporal(cells, input, life);
        cells := repaired.store;
        return repaired.outcome;
      }
      var seen, pc, left := [], Enter(w, Extraction, []), life;
      while !pc.Done?
        invariant WellFormed(pc)
        invariant Attempt(w, old(cells), input, life) == Walk(w, cells, seen, pc, input, left)
        decreases PcRank(pc), CallsLeft(pc)
      {
        var slot := SlotAt(pc);
        var sem := Sem(w, slot, seen);
        var objection := ObjectionTo(w, slot, seen);
        if objection != NoObjection { return Failed(Refused(objection)); }
        if slot == AnalysisRow && TemporalCommit in cells { return Failed(Stale); }
        if slot in cells {
          var obstacle := Obstacle(cells, slot, sem);
          if obstacle != Completed { return obstacle; }
          if cells[slot].torn {
            if DiesWithin(left, 1) { return Died; }
            cells, left := cells[slot := cells[slot].(torn := false)], Spend(left, 1);
          }
        } else {
          if slot.AnswerOf? && w.rejects(slot, seen, input(slot)) { return Failed(Rejected); }
          var write := Record(cells, slot, sem, input(slot), left);
          cells, left := write.store, write.life;
          if !write.survived { return Died; }
        }
        seen := seen + [Rec(slot, sem, cells[slot].captured)];
        AdvanceDescends(w, pc, seen);
        pc := Advance(w, pc, seen);
      }
      outcome := Completed;
    }
  }
}
