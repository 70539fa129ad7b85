/** The abstract object both call journals implement: per key, a register that moves only from empty to
  claimed to done, and whose claim and result never change once set. */
module OneShotRegister {

  datatype Register<C, R> = Empty | Claimed(claim: C) | Done(claim: C, result: R)

  datatype Answer<R> = Fresh | Completed(result: R) | Indeterminate | Conflict | Unreadable

  /** What `begin` answers, given whether the caller's immutable inputs agree with the stored claim. */
  function Begin<C, R>(reg: Register<C, R>, agrees: bool): Answer<R> {
    match reg
    case Empty => Fresh
    case Claimed(_) => if agrees then Indeterminate else Conflict
    case Done(_, result) => if agrees then Completed(result) else Conflict
  }

  ghost predicate Moves<C, R>(a: Register<C, R>, b: Register<C, R>) {
    || a == b
    || (a.Empty? && b.Claimed?)
    || (a.Claimed? && b.Done? && b.claim == a.claim)
  }

  /** `b` can follow `a` after any number of moves. */
  ghost predicate Leads<C, R>(a: Register<C, R>, b: Register<C, R>) {
    || a.Empty?
    || (a.Claimed? && !b.Empty? && b.claim == a.claim)
    || a == b
  }

  lemma MovesThenLeads<C, R>(a: Register<C, R>, b: Register<C, R>, c: Register<C, R>)
    requires Moves(a, b) && Leads(b, c)
    ensures Leads(a, c)
  {
  }
}
