/** Killed attempts and retries leave exactly what one crash-free attempt leaves. */
module SagaRecovery {
  import opened StartSaga
  import opened SagaAttempts

  /** The store holds exactly the records of `t`; only the last of them can be torn. */
  ghost predicate Holds(m: Store, t: seq<Rec>, torn: bool) {
    && (torn ==> t != [] && KindOf(Last(t)) != Row)
    && (forall i :: 0 <= i < |t| ==> HoldsAt(m, t[i], torn && i == |t| - 1))
    && (forall slot :: slot in m ==> Has(t, slot))
  }

  ghost predicate HoldsAt(m: Store, r: Rec, torn: bool) {
    r.slot in m && m[r.slot] == Cell(r.sem, r.captured, torn)
  }

  ghost predicate Has(t: seq<Rec>, slot: Slot) { exists i :: 0 <= i < |t| && t[i].slot == slot }

  function Last(t: seq<Rec>): Slot
    requires t != []
  {
    t[|t| - 1].slot
  }

  lemma HoldsNext(w: World, m: Store, t: seq<Rec>, r: Rec, torn: bool)
    requires Chain(w, t) && Holds(m, t, false) && !PcAfter(w, t).Done? && r.slot == SlotAt(PcAfter(w, t))
    requires torn ==> KindOf(r.slot) != Row
    ensures r.slot !in m
    ensures Holds(m[r.slot := Cell(r.sem, r.captured, torn)], t + [r], torn)
  {
    SlotsBefore(w, t);
    var m' := m[r.slot := Cell(r.sem, r.captured, torn)];
    var u := t + [r];
    forall i | 0 <= i < |u| ensures HoldsAt(m', u[i], torn && i == |u| - 1) {
      if i < |t| { assert HoldsAt(m, t[i], false); }
    }
    forall slot | slot in m' ensures Has(u, slot) {
      if slot == r.slot { assert u[|t|].slot == slot; }
      else {
        assert Has(t, slot);
        var i :| 0 <= i < |t| && t[i].slot == slot;
        assert u[i].slot == slot;
      }
    }
  }

  lemma HoldsHealed(m: Store, t: seq<Rec>, slot: Slot)
    requires Holds(m, t, true) && slot == Last(t)
    requires forall i :: 0 <= i < |t| - 1 ==> t[i].slot != slot
    ensures slot in m && Holds(m[slot := m[slot].(torn := false)], t, false)
  {
    var m' := m[slot := m[slot].(torn := false)];
    assert HoldsAt(m, t[|t| - 1], true);
    forall i | 0 <= i < |t| ensures HoldsAt(m', t[i], false) {
      assert HoldsAt(m, t[i], i == |t| - 1);
    }
    forall x | x in m' ensures Has(t, x) { assert x in m; }
  }

  lemma HeldIsBefore(w: World, m: Store, t: seq<Rec>, torn: bool, slot: Slot)
    requires Chain(w, t) && Holds(m, t, torn)
    ensures slot in m ==> Before(slot, PcAfter(w, t))
  {
    SlotsBefore(w, t);
    if slot in m {
      assert Has(t, slot);
      var i :| 0 <= i < |t| && t[i].slot == slot;
      assert Before(t[i].slot, PcAfter(w, t));
    }
  }

  /** After a claim comes its answer. */
  lemma AnswerFollowsClaim(w: World, m: Store, t: seq<Rec>, torn: bool, k: nat)
    requires Chain(w, t) && Holds(m, t, torn) && k < |t| && t[k].slot.ClaimOf?
    ensures AnswerOf(t[k].slot.stage, t[k].slot.i) in m <==> k < |t| - 1
  {
    var answer := AnswerOf(t[k].slot.stage, t[k].slot.i);
    assert Follows(w, t, k);
    ChainPrefix(w, t, k);
    SlotsBefore(w, t[..k]);
    assert t[..k + 1][..k] == t[..k];
    assert PcAfter(w, t[..k + 1]) == Advance(w, PcAfter(w, t[..k]), t[..k + 1]);
    if k < |t| - 1 {
      assert Follows(w, t, k + 1);
      assert HoldsAt(m, t[k + 1], torn && k + 1 == |t| - 1);
    } else {
      assert t[..k + 1] == t;
      HeldIsBefore(w, m, t, torn, answer);
    }
  }

  /** Where, and why, a path stops of its own accord after the records `t`: a check refuses what they say, or the
    answer to the next call is rejected. */
  ghost predicate StopsAt(w: World, t: seq<Rec>, input: Slot -> int, outcome: Outcome) {
    var pc := PcAfter(w, t);
    && !pc.Done?
    && if ObjectionTo(w, SlotAt(pc), t) != NoObjection then outcome == Failed(Refused(ObjectionTo(w, SlotAt(pc), t)))
       else outcome == Failed(Rejected) && SlotAt(pc).AnswerOf? && w.rejects(SlotAt(pc), t, input(SlotAt(pc)))
  }

  /** The records from `k` on captured these inputs. */
  ghost predicate Captures(t: seq<Rec>, k: nat, input: Slot -> int) {
    forall i :: k <= i < |t| ==> t[i].captured == input(t[i].slot)
  }

  /** What stands in the way of a retry, read off the records alone; Completed for nothing. */
  function Verdict(t: seq<Rec>, torn: bool): Outcome
    requires torn ==> t != []
  {
    if torn && KindOf(Last(t)) != SelfCleaning then Failed(Unreadable)
    else if t != [] && Last(t).ClaimOf? then Failed(Indeterminate)
    else Completed
  }

  /** The chain after an attempt extends the chain before it.  The attempt fails with the verdict if there is
    one; otherwise it is killed, or stops of its own accord, or runs to the end. */
  ghost predicate Continues(
    w: World, m: Store, t: seq<Rec>, torn: bool, input: Slot -> int, life: Life, r: Result, t': seq<Rec>, torn': bool)
    requires torn ==> t != []
  {
    && Chain(w, t') && Holds(r.store, t', torn') && t <= t' && Captures(t', |t|, input)
    && (r.outcome.Completed? ==> !torn' && PcAfter(w, t').Done? && Verdict(t, torn) == Completed)
    && (r.outcome.Failed? ==>
          if Verdict(t, torn).Failed? then r.outcome == Verdict(t, torn) && t' == t && torn' == torn
          else !torn' && StopsAt(w, t', input, r.outcome))
    && (r.outcome.Died? ==> life.Effects?)
    && (torn && Verdict(t, torn).Failed? ==> r == Result(m, Verdict(t, torn)))
  }

  // ----- single steps of the ordinary path -----

  /** Record `k` is the next one after the first `k`, and leads on from there. */
  lemma ChainStep(w: World, t: seq<Rec>, k: nat)
    requires Chain(w, t) && k < |t|
    ensures var pc := PcAfter(w, t[..k]);
      && !pc.Done? && SlotAt(pc) == t[k].slot && Sem(w, t[k].slot, t[..k]) == t[k].sem
      && Accepts(w, t[k].slot, t[..k], t[k].captured)
      && t[..k] + [Rec(t[k].slot, t[k].sem, t[k].captured)] == t[..k + 1]
      && PcAfter(w, t[..k + 1]) == Advance(w, pc, t[..k + 1])
  {
    assert Follows(w, t, k);
    assert t[..k + 1][..k] == t[..k];
  }

  lemma WalkFresh(w: World, m: Store, seen: seq<Rec>, pc: Pc, input: Slot -> int, life: Life)
    requires WellFormed(pc) && !pc.Done? && SlotAt(pc) !in m && !(SlotAt(pc) == AnalysisRow && TemporalCommit in m)
    requires Accepts(w, SlotAt(pc), seen, input(SlotAt(pc)))
    ensures var r := Rec(SlotAt(pc), Sem(w, SlotAt(pc), seen), input(SlotAt(pc)));
      var write := Record(m, r.slot, r.sem, r.captured, life);
      && WellFormed(Advance(w, pc, seen + [r]))
      && Walk(w, m, seen, pc, input, life) ==
        (if write.survived then Walk(w, write.store, seen + [r], Advance(w, pc, seen + [r]), input, write.life)
         else Result(write.store, Died))
  {
    AdvanceDescends(w, pc, seen + [Rec(SlotAt(pc), Sem(w, SlotAt(pc), seen), input(SlotAt(pc)))]);
  }

  lemma WalkStops(w: World, m: Store, seen: seq<Rec>, pc: Pc, input: Slot -> int, life: Life)
    requires WellFormed(pc) && !pc.Done? && SlotAt(pc) in m && !(SlotAt(pc) == AnalysisRow && TemporalCommit in m)
    requires ObjectionTo(w, SlotAt(pc), seen) == NoObjection
    ensures var obstacle := Obstacle(m, SlotAt(pc), Sem(w, SlotAt(pc), seen));
      && (obstacle != Completed ==> Walk(w, m, seen, pc, input, life) == Result(m, obstacle))
      && (obstacle == Completed && m[SlotAt(pc)].torn && DiesWithin(life, 1) ==> Walk(w, m, seen, pc, input, life) == Result(m, Died))
  {
  }

  lemma WalkBack(w: World, m: Store, seen: seq<Rec>, pc: Pc, input: Slot -> int, life: Life)
    requires WellFormed(pc) && !pc.Done? && SlotAt(pc) in m && !(SlotAt(pc) == AnalysisRow && TemporalCommit in m)
    requires ObjectionTo(w, SlotAt(pc), seen) == NoObjection
    requires Obstacle(m, SlotAt(pc), Sem(w, SlotAt(pc), seen)) == Completed
    requires m[SlotAt(pc)].torn ==> !DiesWithin(life, 1)
    ensures var slot := SlotAt(pc);
      var seen' := seen + [Rec(slot, Sem(w, slot, seen), m[slot].captured)];
      && WellFormed(Advance(w, pc, seen'))
      && Walk(w, m, seen, pc, input, life) ==
        (if m[slot].torn then Walk(w, m[slot := m[slot].(torn := false)], seen', Advance(w, pc, seen'), input, Spend(life, 1))
         else Walk(w, m, seen', Advance(w, pc, seen'), input, life))
  {
    AdvanceDescends(w, pc, seen + [Rec(SlotAt(pc), Sem(w, SlotAt(pc), seen), m[SlotAt(pc)].captured)]);
  }

  lemma WalkEnds(w: World, m: Store, t: seq<Rec>, input: Slot -> int, life: Life, outcome: Outcome)
    requires Chain(w, t) && Holds(m, t, false) && WellFormed(PcAfter(w, t)) && StopsAt(w, t, input, outcome)
    ensures Walk(w, m, t, PcAfter(w, t), input, life) == Result(m, outcome)
  {
    HeldIsBefore(w, m, t, false, SlotAt(PcAfter(w, t)));
  }

  /** What writing from the end of a chain leaves. */
  ghost predicate Writes(w: World, t: seq<Rec>, input: Slot -> int, life: Life, r: Result, t': seq<Rec>, torn': bool) {
    && Chain(w, t') && t <= t' && Captures(t', |t|, input) && Holds(r.store, t', torn')
    && (r.outcome.Completed? ==> !torn' && PcAfter(w, t').Done?)
    && (r.outcome.Failed? ==> !torn' && StopsAt(w, t', input, r.outcome))
    && (r.outcome.Died? ==> life.Effects?)
  }

  lemma WritesBefore(w: World, t: seq<Rec>, r: Rec, input: Slot -> int, life: Life, rest: Life, result: Result, t': seq<Rec>, torn': bool)
    requires Writes(w, t + [r], input, rest, result, t', torn') && r.captured == input(r.slot) && (rest.Effects? ==> life.Effects?)
    ensures Writes(w, t, input, life, result, t', torn')
  {
    assert t'[|t|] == (t + [r])[|t|];
    assert t <= t + [r] <= t';
  }

  /** The next record of the ordinary path, written or not. */
  lemma WriteOne(w: World, m: Store, t: seq<Rec>, input: Slot -> int, life: Life)
    returns (r: Rec, write: Write, t': seq<Rec>, torn': bool)
    requires Chain(w, t) && Holds(m, t, false) && WellFormed(PcAfter(w, t)) && !PcAfter(w, t).Done?
    requires Accepts(w, SlotAt(PcAfter(w, t)), t, input(SlotAt(PcAfter(w, t))))
    ensures r.captured == input(r.slot) && (write.life.Effects? <==> life.Effects?)
    ensures write.survived ==>
      && Chain(w, t + [r]) && Holds(write.store, t + [r], false) && WellFormed(PcAfter(w, t + [r]))
      && PcAfter(w, t + [r]) == Advance(w, PcAfter(w, t), t + [r])
      && Walk(w, m, t, PcAfter(w, t), input, life) == Walk(w, write.store, t + [r], PcAfter(w, t + [r]), input, write.life)
    ensures !write.survived ==> Writes(w, t, input, life, Walk(w, m, t, PcAfter(w, t), input, life), t', torn')
  {
    r := NextRecord(w, m, t, input);
    WalkFresh(w, m, t, PcAfter(w, t), input, life);
    write := Record(m, r.slot, r.sem, r.captured, life);
    t', torn' := t, false;
    if write.survived {
      assert Holds(write.store, t + [r], false) by { HoldsNext(w, m, t, r, false); }
    } else {
      t', torn' := KilledWriting(w, m, t, r, input, life, write);
    }
  }

  lemma NextRecord(w: World, m: Store, t: seq<Rec>, input: Slot -> int) returns (r: Rec)
    requires Chain(w, t) && Holds(m, t, false) && WellFormed(PcAfter(w, t)) && !PcAfter(w, t).Done?
    requires Accepts(w, SlotAt(PcAfter(w, t)), t, input(SlotAt(PcAfter(w, t))))
    ensures var slot := SlotAt(PcAfter(w, t)); r == Rec(slot, Sem(w, slot, t), input(slot))
    ensures r.slot !in m && !(r.slot == AnalysisRow && TemporalCommit in m)
    ensures Chain(w, t + [r]) && PcAfter(w, t + [r]) == Advance(w, PcAfter(w, t), t + [r])
  {
    var slot := SlotAt(PcAfter(w, t));
    r := Rec(slot, Sem(w, slot, t), input(slot));
    HeldIsBefore(w, m, t, false, slot);
    if slot == AnalysisRow { NotYetCommitted(w, m, t, false); }
    ChainExtend(w, t, r);
  }

  lemma KilledWriting(w: World, m: Store, t: seq<Rec>, r: Rec, input: Slot -> int, life: Life, write: Write)
    returns (t': seq<Rec>, torn': bool)
    requires Chain(w, t) && Chain(w, t + [r]) && Holds(m, t, false) && r.captured == input(r.slot)
    requires !PcAfter(w, t).Done? && r.slot == SlotAt(PcAfter(w, t))
    requires write == Record(m, r.slot, r.sem, r.captured, life) && !write.survived
    ensures Writes(w, t, input, life, Result(write.store, Died), t', torn')
  {
    if DiesWithin(life, 1) {
      t', torn' := t, false;
    } else {
      HoldsNext(w, m, t, r, true);
      t', torn' := t + [r], true;
    }
  }

  /** The ordinary path writing new records from the end of the chain. */
  lemma {:induction false} WalkWrites(w: World, m: Store, t: seq<Rec>, input: Slot -> int, life: Life)
    returns (t': seq<Rec>, torn': bool)
    requires Chain(w, t) && Holds(m, t, false) && WellFormed(PcAfter(w, t))
    ensures Writes(w, t, input, life, Walk(w, m, t, PcAfter(w, t), input, life), t', torn')
    decreases PcRank(PcAfter(w, t)), CallsLeft(PcAfter(w, t))
  {
    var pc := PcAfter(w, t);
    t', torn' := t, false;
    if pc.Done? { return; }
    var slot := SlotAt(pc);
    if Accepts(w, slot, t, input(slot)) {
      var r, write;
      r, write, t', torn' := WriteOne(w, m, t, input, life);
      if write.survived {
        AdvanceDescends(w, pc, t + [r]);
        t', torn' := WalkWrites(w, write.store, t + [r], input, write.life);
        WritesBefore(w, t, r, input, life, write.life, Walk(w, m, t, pc, input, life), t', torn');
      }
    } else {
      var objection := ObjectionTo(w, slot, t);
      WalkEnds(w, m, t, input, life, if objection != NoObjection then Failed(Refused(objection)) else Failed(Rejected));
    }
  }

  /** The temporal commit is never durable before the analysis that precedes it. */
  lemma NotYetCommitted(w: World, m: Store, t: seq<Rec>, torn: bool)
    requires Chain(w, t) && Holds(m, t, torn) && !PcAfter(w, t).Done? && SlotAt(PcAfter(w, t)) == AnalysisRow
    ensures TemporalCommit !in m
  {
    HeldIsBefore(w, m, t, torn, TemporalCommit);
  }

  /** Record `k` read back: it stops the attempt, or residue of it is cleaned, or nothing happens. */
  lemma ReadOne(w: World, m: Store, t: seq<Rec>, torn: bool, k: nat, input: Slot -> int, life: Life)
    returns (stops: bool, m': Store, rest: Life)
    requires Chain(w, t) && Holds(m, t, torn) && k < |t| && TemporalCommit !in m && WellFormed(PcAfter(w, t[..k]))
    ensures stops ==> Continues(w, m, t, torn, input, life, Walk(w, m, t[..k], PcAfter(w, t[..k]), input, life), t, torn)
    ensures !stops ==>
      && WellFormed(PcAfter(w, t[..k + 1])) && TemporalCommit !in m' && !(k == |t| - 1 && Last(t).ClaimOf?)
      && Walk(w, m, t[..k], PcAfter(w, t[..k]), input, life) == Walk(w, m', t[..k + 1], PcAfter(w, t[..k + 1]), input, rest)
      && (if torn && k == |t| - 1 then KindOf(Last(t)) == SelfCleaning && Holds(m', t, false) && rest == Spend(life, 1)
          else m' == m && rest == life)
  {
    var pc, slot := PcAfter(w, t[..k]), t[k].slot;
    ChainStep(w, t, k);
    assert HoldsAt(m, t[k], torn && k == |t| - 1);
    if slot.ClaimOf? { AnswerFollowsClaim(w, m, t, torn, k); }
    WalkStops(w, m, t[..k], pc, input, life);
    stops := Obstacle(m, slot, t[k].sem) != Completed || (m[slot].torn && DiesWithin(life, 1));
    m', rest := m, life;
    if !stops {
      WalkBack(w, m, t[..k], pc, input, life);
      if m[slot].torn {
        forall i | 0 <= i < |t| - 1 ensures t[i].slot != slot { SlotsDistinct(w, t, i, k); }
        HoldsHealed(m, t, slot);
        m', rest := m[slot := m[slot].(torn := false)], Spend(life, 1);
      }
    }
  }

  /** The ordinary path reading records back, then writing on. */
  lemma {:induction false} WalkReads(w: World, m: Store, t: seq<Rec>, torn: bool, k: nat, input: Slot -> int, life: Life)
    returns (t': seq<Rec>, torn': bool)
    requires Chain(w, t) && Holds(m, t, torn) && k <= |t| && (torn ==> k < |t|)
    requires t != [] && Last(t).ClaimOf? ==> k < |t|
    requires TemporalCommit !in m && WellFormed(PcAfter(w, t[..k]))
    ensures Continues(w, m, t, torn, input, life, Walk(w, m, t[..k], PcAfter(w, t[..k]), input, life), t', torn')
    decreases |t| - k
  {
    if k == |t| {
      assert t[..k] == t;
      t', torn' := WalkWrites(w, m, t, input, life);
      WritesContinue(w, m, t, input, life, Walk(w, m, t, PcAfter(w, t), input, life), t', torn');
      return;
    }
    var stops, m', rest := ReadOne(w, m, t, torn, k, input, life);
    if stops {
      t', torn' := t, torn;
    } else if torn && k == |t| - 1 {
      t', torn' := WalkReads(w, m', t, false, k + 1, input, rest);
      ContinuesFromClean(w, m, m', t, input, life, Walk(w, m, t[..k], PcAfter(w, t[..k]), input, life), t', torn');
    } else {
      t', torn' := WalkReads(w, m, t, torn, k + 1, input, life);
    }
  }

  lemma WritesContinue(w: World, m: Store, t: seq<Rec>, input: Slot -> int, life: Life, r: Result, t': seq<Rec>, torn': bool)
    requires Writes(w, t, input, life, r, t', torn') && Verdict(t, false) == Completed
    ensures Continues(w, m, t, false, input, life, r, t', torn')
  {
  }

  /** Cleaning the residue of the last record on the way does not change what the attempt amounts to. */
  lemma ContinuesFromClean(w: World, m: Store, healed: Store, t: seq<Rec>, input: Slot -> int, life: Life, r: Result, t': seq<Rec>, torn': bool)
    requires t != [] && KindOf(Last(t)) == SelfCleaning && Continues(w, healed, t, false, input, Spend(life, 1), r, t', torn')
    ensures Continues(w, m, t, true, input, life, r, t', torn')
  {
  }

  // ----- the two repair paths -----

  lemma {:induction false} IdentityFound(w: World, t: seq<Rec>, i: nat, j: nat)
    requires Chain(w, t) && i < j <= |t|
    ensures IdentityIn(t[..j], t[i].slot) == Identity(t[i].slot, t[i].sem, t[i].captured)
    decreases j
  {
    assert t[..j][..j - 1] == t[..j - 1];
    if i < j - 1 {
      SlotsDistinct(w, t, i, j - 1);
      IdentityFound(w, t, i, j - 1);
    }
  }

  /** `step` records after a record of slot `x`, with `x` the first of a fixed tail of slots. */
  ghost predicate InTail(w: World, t: seq<Rec>, tail: seq<Slot>, step: nat) {
    && step < |tail| && step < |t|
    && (forall k :: 0 <= k <= step ==> t[|t| - 1 - step + k].slot == tail[k])
    && PcAfter(w, t) == (if step + 1 < |tail| then Writing(tail[step + 1]) else Done)
  }

  /** The saga runs straight from one slot of `tail` to the next, and then ends. */
  ghost predicate Straight(w: World, tail: seq<Slot>) {
    && tail != []
    && (forall k :: 0 <= k < |tail| ==> !tail[k].ClaimOf? && !tail[k].AnswerOf?)
    && (forall k, seen :: 0 <= k < |tail| ==>
          Advance(w, Writing(tail[k]), seen) == (if k + 1 < |tail| then Writing(tail[k + 1]) else Done))
  }

  const MECHANICAL_TAIL := [MechanicalReceipt, MechanicalLink]
  const TEMPORAL_TAIL := [TemporalCommit, ProposalLink, ReviewRow, ReviewLink]

  lemma {:induction false} EndsInTail(w: World, t: seq<Rec>, tail: seq<Slot>) returns (step: nat)
    requires Chain(w, t) && Straight(w, tail) && Has(t, tail[0])
    ensures InTail(w, t, tail, step)
    decreases |t|
  {
    var n := |t| - 1;
    ChainPrefix(w, t, n);
    assert Follows(w, t, n);
    var u := t[..n];
    if t[n].slot == tail[0] {
      step := 0;
    } else {
      var i :| 0 <= i < |t| && t[i].slot == tail[0];
      assert u[i].slot == tail[0];
      var before := EndsInTail(w, u, tail);
      step := before + 1;
      forall k | 0 <= k <= step ensures t[|t| - 1 - step + k].slot == tail[k] {
        if k < step { assert u[|u| - 1 - before + k] == t[|t| - 1 - step + k]; }
      }
    }
  }

  /** The record at position `i`, and its identity as either the chain or the store gives it. */
  lemma IdentityStored(w: World, m: Store, t: seq<Rec>, torn: bool, i: nat, j: nat)
    requires Chain(w, t) && Holds(m, t, torn) && i < j <= |t|
    ensures t[i].slot in m && IdentityAt(m, t[i].slot) == IdentityIn(t[..j], t[i].slot)
  {
    assert HoldsAt(m, t[i], torn && i == |t| - 1);
    IdentityFound(w, t, i, j);
  }

  /** A repair path finds its next record missing and writes it, as the ordinary path would. */
  lemma PutNext(w: World, m: Store, t: seq<Rec>, input: Slot -> int, life: Life)
    returns (t': seq<Rec>)
    requires Chain(w, t) && Holds(m, t, false) && PcAfter(w, t).Writing? && KindOf(PcAfter(w, t).slot) == Row
    requires Settled(PcAfter(w, t).slot)
    ensures var slot := PcAfter(w, t).slot;
      var (write, outcome) := Put(m, slot, Sem(w, slot, t), input, life);
      && Chain(w, t') && Holds(write.store, t', false)
      && (outcome == Completed || (outcome == Died && life.Effects?))
      && (outcome == Completed ==> t' == t + [Rec(slot, Sem(w, slot, t), input(slot))] && PcAfter(w, t') == Advance(w, Writing(slot), t'))
      && (outcome == Died ==> t' == t)
  {
    var slot := PcAfter(w, t).slot;
    SlotsBefore(w, t);
    var r := Rec(slot, Sem(w, slot, t), input(slot));
    HoldsNext(w, m, t, r, false);
    ChainExtend(w, t, r);
    if DiesWithin(life, 1) { t' := t; } else { t' := t + [r]; }
  }

  /** A repair path finds its next record there and replays it. */
  lemma PutAgain(w: World, m: Store, t: seq<Rec>, i: nat, input: Slot -> int, life: Life)
    requires Chain(w, t) && Holds(m, t, false) && i < |t|
    ensures Put(m, t[i].slot, Sem(w, t[i].slot, t[..i]), input, life) == (Write(m, true, life), Completed)
  {
    assert HoldsAt(m, t[i], false);
    assert Follows(w, t, i);
  }

  /** Slot `k` of a tail names the record at slot `l` of the tail, and is one row. */
  ghost predicate Names(w: World, tail: seq<Slot>, k: nat, l: nat) {
    && l < k < |tail| && KindOf(tail[k]) == Row && Settled(tail[k])
    && forall seen :: Sem(w, tail[k], seen) == IdentityIn(seen, tail[l])
  }

  lemma TailGrows(w: World, t: seq<Rec>, r: Rec, tail: seq<Slot>, step: nat)
    requires Straight(w, tail) && InTail(w, t, tail, step) && step + 1 < |tail| && r.slot == tail[step + 1]
    requires PcAfter(w, t + [r]) == Advance(w, Writing(tail[step + 1]), t + [r])
    ensures InTail(w, t + [r], tail, step + 1)
  {
    var u := t + [r];
    forall j | 0 <= j <= step + 1 ensures u[|u| - 1 - (step + 1) + j].slot == tail[j] {
      if j <= step { assert t[|t| - 1 - step + j].slot == tail[j]; }
    }
  }

  lemma TailPutNext(w: World, m: Store, t: seq<Rec>, tail: seq<Slot>, step: nat, sem: Value, input: Slot -> int, life: Life)
    returns (t': seq<Rec>, step': nat)
    requires Chain(w, t) && Holds(m, t, false) && Straight(w, tail) && InTail(w, t, tail, step) && step + 1 < |tail|
    requires KindOf(tail[step + 1]) == Row && Settled(tail[step + 1]) && sem == Sem(w, tail[step + 1], t)
    ensures Rests(w, t, tail, step + 1, input, Put(m, tail[step + 1], sem, input, life), life, t', step')
  {
    t' := PutNext(w, m, t, input, life);
    step' := step + 1;
    if t' != t {
      TailGrows(w, t, t'[|t|], tail, step);
    }
  }

  /** What one step of a repair path leaves behind. */
  ghost predicate Rests(
    w: World, t: seq<Rec>, tail: seq<Slot>, k: nat, input: Slot -> int, put: (Write, Outcome), life: Life, t': seq<Rec>, step': nat)
  {
    var (write, outcome) := put;
    && Chain(w, t') && Holds(write.store, t', false) && t <= t' && Captures(t', |t|, input)
    && (outcome == Completed || (outcome == Died && life.Effects?))
    && (outcome == Completed ==> InTail(w, t', tail, step') && k <= step')
    && (life.Forever? ==> write.life.Forever?)
  }

  /** One step of a repair path: whether its record is already there or not, it leaves the chain that the
    ordinary path leaves. */
  lemma TailPut(w: World, m: Store, t: seq<Rec>, tail: seq<Slot>, step: nat, k: nat, l: nat, input: Slot -> int, life: Life)
    returns (t': seq<Rec>, step': nat)
    requires Chain(w, t) && Holds(m, t, false) && Straight(w, tail) && InTail(w, t, tail, step)
    requires Names(w, tail, k, l) && k - 1 <= step
    ensures tail[l] in m
    ensures Rests(w, t, tail, k, input, Put(m, tail[k], IdentityAt(m, tail[l]), input, life), life, t', step')
  {
    var base := |t| - 1 - step;
    assert t[base + l].slot == tail[l];
    IdentityStored(w, m, t, false, base + l, base + k);
    if k <= step {
      assert t[base + k].slot == tail[k];
      assert Sem(w, tail[k], t[..base + k]) == IdentityIn(t[..base + k], tail[l]);
      PutAgain(w, m, t, base + k, input, life);
      t', step' := t, step;
    } else {
      assert t[..base + k] == t;
      assert Sem(w, tail[k], t) == IdentityIn(t, tail[l]);
      t', step' := TailPutNext(w, m, t, tail, step, IdentityAt(m, tail[l]), input, life);
    }
  }

  lemma TailsAreStraight(w: World)
    ensures Straight(w, MECHANICAL_TAIL) && Straight(w, TEMPORAL_TAIL)
    ensures Names(w, MECHANICAL_TAIL, 1, 0)
    ensures Names(w, TEMPORAL_TAIL, 1, 0) && Names(w, TEMPORAL_TAIL, 2, 0) && Names(w, TEMPORAL_TAIL, 3, 2)
  {
  }

  /** The repair of the terminal link is the ordinary path resumed from the receipt. */
  lemma MechanicalRepair(w: World, m: Store, t: seq<Rec>, torn: bool, input: Slot -> int, life: Life)
    returns (t': seq<Rec>, torn': bool)
    requires Chain(w, t) && Holds(m, t, torn) && MechanicalReceipt in m
    ensures Continues(w, m, t, torn, input, life, ResumeMechanical(m, input, life), t', torn')
  {
    TailsAreStraight(w);
    var step := EndsInTail(w, t, MECHANICAL_TAIL);
    var at := |t| - 1 - step;
    assert t[at].slot == MECHANICAL_TAIL[0] && t[at + step].slot == MECHANICAL_TAIL[step];
    assert HoldsAt(m, t[at], torn && at == |t| - 1);
    torn' := torn;
    if torn {
      t' := t;
    } else {
      t', step := TailPut(w, m, t, MECHANICAL_TAIL, step, 1, 0, input, life);
    }
  }

  lemma ReviewRepair(w: World, m: Store, t: seq<Rec>, step: nat, input: Slot -> int, life: Life)
    returns (t': seq<Rec>)
    requires Chain(w, t) && Holds(m, t, false) && InTail(w, t, TEMPORAL_TAIL, step) && 1 <= step
    ensures TemporalCommit in m
    ensures var r := OpenReview(m, IdentityAt(m, TemporalCommit), input, life);
      && Chain(w, t') && Holds(r.store, t', false) && t <= t' && Captures(t', |t|, input)
      && (r.outcome == Completed || (r.outcome == Died && life.Effects?))
      && (r.outcome == Completed ==> PcAfter(w, t').Done?)
  {
    TailsAreStraight(w);
    var at: nat;
    t', at := TailPut(w, m, t, TEMPORAL_TAIL, step, 2, 0, input, life);
    var (review, outcome) := Put(m, ReviewRow, IdentityAt(m, TemporalCommit), input, life);
    if outcome == Completed {
      t', at := TailPut(w, review.store, t', TEMPORAL_TAIL, at, 3, 2, input, review.life);
    }
  }

  /** The repair of the temporal navigation is the ordinary path resumed from the commit. */
  lemma TemporalRepair(w: World, m: Store, t: seq<Rec>, torn: bool, input: Slot -> int, life: Life)
    returns (t': seq<Rec>)
    requires Chain(w, t) && Holds(m, t, torn) && TemporalCommit in m
    ensures !torn && Continues(w, m, t, torn, input, life, ResumeTemporal(m, input, life), t', false)
  {
    TailsAreStraight(w);
    var step := EndsInTail(w, t, TEMPORAL_TAIL);
    assert t[|t| - 1].slot == TEMPORAL_TAIL[step];
    var (proposal, outcome) := Put(m, ProposalLink, IdentityAt(m, TemporalCommit), input, life);
    t', step := TailPut(w, m, t, TEMPORAL_TAIL, step, 1, 0, input, life);
    if outcome == Completed {
      assert IdentityAt(proposal.store, TemporalCommit) == IdentityAt(m, TemporalCommit);
      t' := ReviewRepair(w, proposal.store, t', step, input, proposal.life);
    }
  }

  lemma BeforeTheCommit(w: World, pc: Pc, seen: seq<Rec>)
    requires Advance(w, pc, seen) == Writing(TemporalCommit)
    ensures pc == Writing(TemporalIndex)
  {
  }

  lemma CommitFollowsIndex(w: World, t: seq<Rec>, i: nat)
    requires Chain(w, t) && i < |t| && t[i].slot == TemporalCommit
    ensures i > 0 && t[i - 1].slot == TemporalIndex && t[i].sem == CommitOf(t[i - 1].sem)
  {
    ChainStep(w, t, i);
    ChainPrefix(w, t, i);
    SlotsBefore(w, t[..i]);
    assert t[..0] == [] && PcAfter(w, []) == Enter(w, Extraction, []);
    ChainStep(w, t, i - 1);
    BeforeTheCommit(w, PcAfter(w, t[..i - 1]), t[..i]);
    assert t[..i][..i - 1] == t[..i - 1];
  }

  /** A durable temporal commit is always the commit of the indexed evidence. */
  lemma CommitIsOfTheIndex(w: World, m: Store, t: seq<Rec>, torn: bool)
    requires Chain(w, t) && Holds(m, t, torn) && TemporalCommit in m
    ensures Committed(m)
  {
    assert Has(t, TemporalCommit);
    var i :| 0 <= i < |t| && t[i].slot == TemporalCommit;
    CommitFollowsIndex(w, t, i);
    assert HoldsAt(m, t[i], torn && i == |t| - 1) && HoldsAt(m, t[i - 1], false);
  }

  /** One attempt over any store a history can leave. */
  lemma AttemptContinues(w: World, m: Store, t: seq<Rec>, torn: bool, input: Slot -> int, life: Life)
    returns (t': seq<Rec>, torn': bool)
    requires Chain(w, t) && Holds(m, t, torn)
    ensures Continues(w, m, t, torn, input, life, Attempt(w, m, input, life), t', torn')
  {
    if MechanicalReceipt in m {
      t', torn' := MechanicalRepair(w, m, t, torn, input, life);
    } else if TemporalIndex in m && m[TemporalIndex].torn {
      assert Has(t, TemporalIndex);
      var i :| 0 <= i < |t| && t[i].slot == TemporalIndex;
      assert HoldsAt(m, t[i], torn && i == |t| - 1);
      t', torn' := t, torn;
    } else if Committed(m) {
      t' := TemporalRepair(w, m, t, torn, input, life);
      torn' := false;
    } else {
      if TemporalCommit in m { CommitIsOfTheIndex(w, m, t, torn); }
      assert t[..0] == [];
      SlotsBefore(w, []);
      t', torn' := WalkReads(w, m, t, torn, 0, input, life);
    }
  }

  // ----- histories -----

  /** A start attempt, or another run cleaning the directories it shares with this one. */
  datatype Event = Start(input: Slot -> int, life: Life) | Heal

  function Healed(m: Store): Store {
    map slot | slot in m :: if Healable(slot) then m[slot].(torn := false) else m[slot]
  }

  function Apply(w: World, m: Store, e: Event): Store {
    match e case Start(input, life) => Attempt(w, m, input, life).store case Heal => Healed(m)
  }

  function After(w: World, m: Store, events: seq<Event>): Store
    decreases |events|
  {
    if events == [] then m else After(w, Apply(w, m, events[0]), events[1..])
  }

  lemma HealKeeps(m: Store, t: seq<Rec>, torn: bool)
    requires Holds(m, t, torn)
    ensures Holds(Healed(m), t, torn && !Healable(Last(t)))
  {
    forall i | 0 <= i < |t| ensures HoldsAt(Healed(m), t[i], torn && !Healable(Last(t)) && i == |t| - 1) {
      assert HoldsAt(m, t[i], torn && i == |t| - 1);
    }
    forall slot | slot in Healed(m) ensures Has(t, slot) { assert slot in m; }
  }

  lemma {:induction false} AfterContinues(w: World, m: Store, t: seq<Rec>, torn: bool, events: seq<Event>)
    returns (t': seq<Rec>, torn': bool)
    requires Chain(w, t) && Holds(m, t, torn)
    ensures Chain(w, t') && Holds(After(w, m, events), t', torn') && t <= t'
    decreases |events|
  {
    if events == [] {
      t', torn' := t, torn;
    } else {
      var u, tear;
      match events[0] {
        case Start(input, life) => u, tear := AttemptContinues(w, m, t, torn, input, life);
        case Heal => HealKeeps(m, t, torn); u, tear := t, torn && !Healable(Last(t));
      }
      t', torn' := AfterContinues(w, Apply(w, m, events[0]), u, tear, events[1..]);
    }
  }

  /** Whatever was killed, the durable records are the first records of some crash-free run. */
  lemma HistoryIsCrashFreePrefix(w: World, events: seq<Event>)
    ensures exists t: seq<Rec>, torn: bool :: Chain(w, t) && Holds(After(w, map[], events), t, torn)
  {
    var t, torn := AfterContinues(w, map[], [], false, events);
  }

  /** No stage owner and no link target is ever rebound. */
  lemma NeverRebound(w: World, events: seq<Event>, more: seq<Event>, slot: Slot)
    requires slot in After(w, map[], events)
    ensures var m, m' := After(w, map[], events), After(w, After(w, map[], events), more);
      slot in m' && m'[slot].sem == m[slot].sem && m'[slot].captured == m[slot].captured
  {
    var t, torn := AfterContinues(w, map[], [], false, events);
    var t', torn' := AfterContinues(w, After(w, map[], events), t, torn, more);
    assert Has(t, slot);
    var i :| 0 <= i < |t| && t[i].slot == slot;
    assert HoldsAt(After(w, map[], events), t[i], torn && i == |t| - 1);
    assert t'[i] == t[i];
    assert HoldsAt(After(w, After(w, map[], events), more), t'[i], torn' && i == |t'| - 1);
  }

  function InputOf(t: seq<Rec>, slot: Slot): int
    decreases |t|
  {
    if t == [] then 0 else if t[|t| - 1].slot == slot then t[|t| - 1].captured else InputOf(t[..|t| - 1], slot)
  }

  lemma {:induction false} InputFound(w: World, t: seq<Rec>, i: nat)
    requires Chain(w, t) && i < |t|
    ensures InputOf(t, t[i].slot) == t[i].captured
    decreases |t|
  {
    var n := |t| - 1;
    if i < n {
      SlotsDistinct(w, t, i, n);
      ChainPrefix(w, t, n);
      InputFound(w, t[..n], i);
      assert t[..n][i] == t[i];
    }
  }

  lemma InputsOf(w: World, t: seq<Rec>) returns (input: Slot -> int)
    requires Chain(w, t)
    ensures forall i :: 0 <= i < |t| ==> input(t[i].slot) == t[i].captured
  {
    input := slot => InputOf(t, slot);
    forall i | 0 <= i < |t| ensures input(t[i].slot) == t[i].captured { InputFound(w, t, i); }
  }

  /** The ordinary path writes the next record of a chain whose inputs it is given, if it lives to. */
  lemma WalkOn(w: World, m: Store, t: seq<Rec>, k: nat, input: Slot -> int, life: Life, rest: Life) returns (m': Store)
    requires Chain(w, t) && k < |t| && WellFormed(PcAfter(w, t[..k])) && Holds(m, t[..k], false)
    requires input(t[k].slot) == t[k].captured
    requires Record(m, t[k].slot, t[k].sem, t[k].captured, life) == Write(m[t[k].slot := Cell(t[k].sem, t[k].captured, false)], true, rest)
    ensures WellFormed(PcAfter(w, t[..k + 1])) && Holds(m', t[..k + 1], false)
    ensures Walk(w, m, t[..k], PcAfter(w, t[..k]), input, life) == Walk(w, m', t[..k + 1], PcAfter(w, t[..k + 1]), input, rest)
  {
    m' := m[t[k].slot := Cell(t[k].sem, t[k].captured, false)];
    ChainPrefix(w, t, k);
    ChainStep(w, t, k);
    if t[k].slot == AnalysisRow { NotYetCommitted(w, m, t[..k], false); }
    HoldsNext(w, m, t[..k], t[k], false);
    WalkFresh(w, m, t[..k], PcAfter(w, t[..k]), input, life);
  }

  /** Where a path that is never killed ends, and how. */
  ghost predicate EndsAs(w: World, t: seq<Rec>, input: Slot -> int, outcome: Outcome) {
    if PcAfter(w, t).Done? then outcome == Completed else StopsAt(w, t, input, outcome)
  }

  lemma {:induction false} CrashFreeWalk(w: World, m: Store, t: seq<Rec>, k: nat, input: Slot -> int, outcome: Outcome)
    requires Chain(w, t) && k <= |t| && EndsAs(w, t, input, outcome) && WellFormed(PcAfter(w, t[..k]))
    requires Holds(m, t[..k], false) && Captures(t, 0, input)
    ensures var r := Walk(w, m, t[..k], PcAfter(w, t[..k]), input, Forever);
      r.outcome == outcome && Holds(r.store, t, false)
    decreases |t| - k
  {
    ChainPrefix(w, t, k);
    if k == |t| {
      assert t[..k] == t;
      if !PcAfter(w, t).Done? { WalkEnds(w, m, t, input, Forever, outcome); }
    } else {
      var m' := WalkOn(w, m, t, k, input, Forever, Forever);
      CrashFreeWalk(w, m', t, k + 1, input, outcome);
    }
  }

  /** What the write of one record costs a process, and of all records from `k` on. */
  function CostOf(slot: Slot): nat { if KindOf(slot) == Row then 1 else 2 }

  function CostFrom(t: seq<Rec>, k: nat): nat
    requires k <= |t|
    decreases |t| - k
  {
    if k == |t| then 0 else CostOf(t[k].slot) + CostFrom(t, k + 1)
  }

  lemma Affordable(m: Store, slot: Slot, sem: Value, captured: int, rest: nat)
    ensures Record(m, slot, sem, captured, Effects(CostOf(slot) + rest)) == Write(m[slot := Cell(sem, captured, false)], true, Effects(rest))
  {
  }

  lemma DeadWalk(w: World, m: Store, t: seq<Rec>, input: Slot -> int)
    requires Chain(w, t) && Holds(m, t, false) && WellFormed(PcAfter(w, t))
    ensures Walk(w, m, t, PcAfter(w, t), input, Effects(0)).store == m
  {
    var pc := PcAfter(w, t);
    if !pc.Done? { HeldIsBefore(w, m, t, false, SlotAt(pc)); }
  }

  /** A process that lives for the rest of a chain and `rest` effects more comes to the end of the chain. */
  lemma {:induction false} WalkToEnd(w: World, m: Store, t: seq<Rec>, k: nat, input: Slot -> int, life: Life, rest: nat)
    returns (m': Store)
    requires Chain(w, t) && k <= |t| && WellFormed(PcAfter(w, t[..k])) && Holds(m, t[..k], false)
    requires life == Effects(CostFrom(t, k) + rest)
    requires forall i :: 0 <= i < |t| ==> input(t[i].slot) == t[i].captured
    ensures Holds(m', t, false) && WellFormed(PcAfter(w, t))
    ensures Walk(w, m, t[..k], PcAfter(w, t[..k]), input, life) == Walk(w, m', t, PcAfter(w, t), input, Effects(rest))
    decreases |t| - k
  {
    if k == |t| {
      assert t[..k] == t;
      m' := m;
    } else {
      Affordable(m, t[k].slot, t[k].sem, t[k].captured, CostFrom(t, k + 1) + rest);
      var left := Effects(CostFrom(t, k + 1) + rest);
      var next := WalkOn(w, m, t, k, input, life, left);
      m' := WalkToEnd(w, next, t, k + 1, input, left, rest);
    }
  }

  /** A first start with the inputs of a chain, killed `rest` effects after the chain. */
  lemma StartToEnd(w: World, t: seq<Rec>, input: Slot -> int, rest: nat) returns (m: Store, n: nat)
    requires Chain(w, t) && forall i :: 0 <= i < |t| ==> input(t[i].slot) == t[i].captured
    ensures Holds(m, t, false) && WellFormed(PcAfter(w, t))
    ensures After(w, map[], [Start(input, Effects(n))]) == Walk(w, m, t, PcAfter(w, t), input, Effects(rest)).store
  {
    assert t[..0] == [];
    SlotsBefore(w, []);
    n := CostFrom(t, 0) + rest;
    m := WalkToEnd(w, map[], t, 0, input, Effects(n), rest);
    var e := Start(input, Effects(n));
    assert After(w, map[], [e]) == After(w, Apply(w, map[], e), [e][1..]);
  }

  /** The converse of the prefix property: every beginning of a crash-free run is what one killed start leaves,
    so the untorn stores that histories reach are exactly these. */
  lemma EveryPrefixIsReachable(w: World, t: seq<Rec>) returns (input: Slot -> int, n: nat)
    requires Chain(w, t)
    ensures Holds(After(w, map[], [Start(input, Effects(n))]), t, false)
  {
    input := InputsOf(w, t);
    var m;
    m, n := StartToEnd(w, t, input, 0);
    DeadWalk(w, m, t, input);
  }

  lemma HoldsUnique(m: Store, m': Store, t: seq<Rec>)
    requires Holds(m, t, false) && Holds(m', t, false)
    ensures m == m'
  {
    forall slot ensures slot in m <==> slot in m' {
      if slot in m { assert Has(t, slot); var i :| 0 <= i < |t| && t[i].slot == slot; assert HoldsAt(m', t[i], false); }
      if slot in m' { assert Has(t, slot); var i :| 0 <= i < |t| && t[i].slot == slot; assert HoldsAt(m, t[i], false); }
    }
    forall slot | slot in m ensures m[slot] == m'[slot] {
      assert Has(t, slot);
      var i :| 0 <= i < |t| && t[i].slot == slot;
      assert HoldsAt(m, t[i], false) && HoldsAt(m', t[i], false);
    }
  }

  /** From nothing, the inputs that a chain captured lead to that chain, and to its end, without a crash. */
  lemma CrashFreeTwin(w: World, t: seq<Rec>, captured: Slot -> int, outcome: Outcome)
    requires Chain(w, t) && Captures(t, 0, captured) && EndsAs(w, t, captured, outcome)
    ensures var r := Attempt(w, map[], captured, Forever); r.outcome == outcome && Holds(r.store, t, false)
  {
    assert t[..0] == [];
    SlotsBefore(w, []);
    CrashFreeWalk(w, map[], t, 0, captured, outcome);
  }

  /** The inputs already captured, and these for the rest. */
  function Recaptured(m: Store, input: Slot -> int): Slot -> int {
    slot => if slot in m then m[slot].captured else input(slot)
  }

  lemma RecapturedByChain(w: World, m: Store, t: seq<Rec>, torn: bool, t': seq<Rec>, input: Slot -> int)
    requires Chain(w, t') && Holds(m, t, torn) && t <= t' && Captures(t', |t|, input)
    ensures Captures(t', 0, Recaptured(m, input))
    ensures PcAfter(w, t').Done? || Recaptured(m, input)(SlotAt(PcAfter(w, t'))) == input(SlotAt(PcAfter(w, t')))
  {
    forall i | 0 <= i < |t'| ensures t'[i].captured == Recaptured(m, input)(t'[i].slot) {
      if i < |t| {
        assert HoldsAt(m, t[i], torn && i == |t| - 1);
      } else if t'[i].slot in m {
        assert Has(t, t'[i].slot);
        var j :| 0 <= j < |t| && t[j].slot == t'[i].slot;
        SlotsDistinct(w, t', j, i);
      }
    }
    SlotsBefore(w, t');
    if !PcAfter(w, t').Done? {
      var slot := SlotAt(PcAfter(w, t'));
      forall j | 0 <= j < |t| ensures t[j].slot != slot {
        assert t[j] == t'[j] && Before(t'[j].slot, PcAfter(w, t'));
      }
      assert slot in m ==> Has(t, slot);
    }
  }

  /** The attempt ran to its end, or stopped of its own accord, and was neither killed nor hindered by what
    earlier attempts left. */
  predicate OwnEnd(outcome: Outcome) {
    outcome.Completed? || (outcome.Failed? && (outcome.why.Refused? || outcome.why.Rejected?))
  }

  /** Crash equivalence: an attempt that comes to its own end after any history of killed attempts leaves exactly
    the store, and reports exactly the outcome, of the single attempt from nothing that is never killed and is
    given the inputs already captured. */
  lemma CrashEquivalence(w: World, events: seq<Event>, input: Slot -> int, life: Life)
    requires OwnEnd(Attempt(w, After(w, map[], events), input, life).outcome)
    ensures var m := After(w, map[], events);
      Attempt(w, map[], Recaptured(m, input), Forever) == Attempt(w, m, input, life)
  {
    var m := After(w, map[], events);
    var t, torn := AfterContinues(w, map[], [], false, events);
    var t', torn' := AttemptContinues(w, m, t, torn, input, life);
    OwnEndIsChainEnd(w, m, t, torn, t', torn', input, life, Attempt(w, m, input, life));
    CrashFreeTwin(w, t', Recaptured(m, input), Attempt(w, m, input, life).outcome);
    HoldsUnique(Attempt(w, map[], Recaptured(m, input), Forever).store, Attempt(w, m, input, life).store, t');
  }

  lemma OwnEndIsChainEnd(
    w: World, m: Store, t: seq<Rec>, torn: bool, t': seq<Rec>, torn': bool, input: Slot -> int, life: Life, r: Result)
    requires Holds(m, t, torn) && Continues(w, m, t, torn, input, life, r, t', torn') && OwnEnd(r.outcome)
    ensures !torn' && Captures(t', 0, Recaptured(m, input)) && EndsAs(w, t', Recaptured(m, input), r.outcome)
  {
    RecapturedByChain(w, m, t, torn, t', input);
  }

  /** A record whose residue stops every reader. */
  ghost predicate Blocked(m: Store) {
    exists slot :: slot in m && m[slot].torn && slot !in {IncomingBundle, Manifest}
  }

  /** A provider call that was claimed and has no durable answer. */
  ghost predicate Unanswered(m: Store) {
    exists stage, i :: ClaimOf(stage, i) in m && AnswerOf(stage, i) !in m
  }

  /** How a retry that is not killed ends: it fails closed if a record it must read carries the residue of a
    kill, or a provider claim is indeterminate; otherwise it ends as the attempt from nothing with the captured
    inputs does, and that one completes, or is refused by a check, or has an answer rejected.  It never meets a
    conflict or a stale analysis. */
  lemma RetryEndsExactlyAs(w: World, events: seq<Event>, input: Slot -> int)
    ensures var m := After(w, map[], events);
      var crashFree := Attempt(w, map[], Recaptured(m, input), Forever).outcome;
      && OwnEnd(crashFree)
      && Attempt(w, m, input, Forever).outcome ==
        (if Blocked(m) then Failed(Unreadable) else if Unanswered(m) then Failed(Indeterminate) else crashFree)
  {
    var m := After(w, map[], events);
    var t, torn := AfterContinues(w, map[], [], false, events);
    var t', torn' := AttemptContinues(w, m, t, torn, input, Forever);
    BlockedMeansTorn(m, t, torn);
    UnansweredMeansLast(w, m, t, torn);
    var u := FreshAttemptEnds(w, Recaptured(m, input));
    if Verdict(t, torn) == Completed { CrashEquivalence(w, events, input, Forever); }
  }

  lemma FreshAttemptEnds(w: World, input: Slot -> int) returns (t: seq<Rec>)
    ensures var r := Attempt(w, map[], input, Forever);
      OwnEnd(r.outcome) && Chain(w, t) && Captures(t, 0, input) && EndsAs(w, t, input, r.outcome) && Holds(r.store, t, false)
  {
    var torn;
    t, torn := AttemptContinues(w, map[], [], false, input, Forever);
  }

  lemma BlockedMeansTorn(m: Store, t: seq<Rec>, torn: bool)
    requires Holds(m, t, torn)
    ensures Blocked(m) <==> torn && KindOf(Last(t)) != SelfCleaning
  {
    if Blocked(m) {
      var slot :| slot in m && m[slot].torn && slot !in {IncomingBundle, Manifest};
      assert Has(t, slot);
      var i :| 0 <= i < |t| && t[i].slot == slot;
      assert HoldsAt(m, t[i], torn && i == |t| - 1);
    }
    if torn { assert HoldsAt(m, t[|t| - 1], true); }
  }

  lemma UnansweredMeansLast(w: World, m: Store, t: seq<Rec>, torn: bool)
    requires Chain(w, t) && Holds(m, t, torn)
    ensures Unanswered(m) <==> t != [] && Last(t).ClaimOf?
  {
    if Unanswered(m) {
      var stage, i :| ClaimOf(stage, i) in m && AnswerOf(stage, i) !in m;
      assert Has(t, ClaimOf(stage, i));
      var k :| 0 <= k < |t| && t[k].slot == ClaimOf(stage, i);
      AnswerFollowsClaim(w, m, t, torn, k);
    }
    if t != [] && Last(t).ClaimOf? {
      assert HoldsAt(m, t[|t| - 1], torn);
      AnswerFollowsClaim(w, m, t, torn, |t| - 1);
    }
  }

  /** Records whose residue nobody ever cleans: readers refuse it, and no other run writes to the directory. */
  predicate Permanent(slot: Slot) {
    || slot in {IncomingIndex, BaselineIndex, ClassificationIndex, DependencyIndex, TemporalIndex, BaselineReceipt, MechanicalReceipt}
    || ((slot.ClaimOf? || slot.AnswerOf?) && slot.stage == Baseline)
  }

  /** That residue is permanent: nothing that happens later changes the store. */
  lemma {:induction false} WedgedForever(w: World, events: seq<Event>, more: seq<Event>, slot: Slot)
    requires slot in After(w, map[], events) && After(w, map[], events)[slot].torn && Permanent(slot)
    ensures After(w, After(w, map[], events), more) == After(w, map[], events)
  {
    var t, torn := AfterContinues(w, map[], [], false, events);
    var m := After(w, map[], events);
    assert Has(t, slot);
    var i :| 0 <= i < |t| && t[i].slot == slot;
    assert HoldsAt(m, t[i], torn && i == |t| - 1);
    StaysWedged(w, m, t, more);
  }

  lemma {:induction false} StaysWedged(w: World, m: Store, t: seq<Rec>, more: seq<Event>)
    requires Chain(w, t) && Holds(m, t, true) && KindOf(Last(t)) != SelfCleaning && !Healable(Last(t))
    ensures After(w, m, more) == m
    decreases |more|
  {
    if more != [] {
      match more[0] {
        case Start(input, life) =>
          var t', torn' := AttemptContinues(w, m, t, true, input, life);
        case Heal =>
          forall slot | slot in m ensures Healed(m)[slot] == m[slot] {
            assert Has(t, slot);
            var i :| 0 <= i < |t| && t[i].slot == slot;
            assert HoldsAt(m, t[i], i == |t| - 1);
          }
          assert Healed(m) == m;
      }
      StaysWedged(w, m, t, more[1..]);
    }
  }
}
