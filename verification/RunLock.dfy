/** The lifecycle lock of one run.

  Processes lock whatever file the lock path names, while anyone may unlink, move or replace that path and
  the filesystem may reuse the inode number of a file that nobody links or holds open.  One durable row
  records the inode number the first claimant saw. */
module RunLock {
  import opened CreateOnlyFiles

  type Pid = int

  /** A file as the kernel knows it; inode numbers are reused, files are not. */
  type Inode = int

  datatype Pc =
    | Idle
    | Candidate(number: int)
    | Ready
    | Opened(file: Inode)
    | Checked(file: Inode)
    | Flocked(file: Inode)
    | Inside(file: Inode)
    | Left(clean: bool)
  {
    predicate HasFile() { Opened? || Checked? || Flocked? || Inside? }

    predicate HoldsLock() { Flocked? || Inside? }
  }

  datatype State = State(
    entry: Option<Inode>,       // what the lock path names
    aside: multiset<Inode>,     // files linked under other names, once for each name
    number: map<Inode, int>,    // inode numbers of all files ever created
    next: Inode,                // the next file to be created
    authority: Option<int>,     // the durable row
    procs: map<Pid, Pc>)

  const INITIAL := State(None, multiset{}, map[], 0, None, map[])

  datatype Event =
    | Prepare(pid: Pid, number: int)   // open with O_CREAT and report the inode; `number` is used if it is created
    | ClaimAuthority(pid: Pid)
    | Open(pid: Pid)
    | Check(pid: Pid)
    | Flock(pid: Pid)
    | Verify(pid: Pid)
    | Leave(pid: Pid)
    | Kill(pid: Pid)
    | Unlink
    | MoveAside
    | Create(created: int)
    | Link(file: Inode)
    | PutBack(file: Inode)
    | Drop(file: Inode)

  function PcOf(s: State, p: Pid): Pc { if p in s.procs then s.procs[p] else Idle }

  /** The link count. */
  function Links(s: State, f: Inode): nat { s.aside[f] + if s.entry == Some(f) then 1 else 0 }

  predicate Linked(s: State, f: Inode) { Links(s, f) > 0 }

  /** Linked somewhere or held open by somebody, so its inode number is taken. */
  ghost predicate Alive(s: State, f: Inode) {
    Linked(s, f) || exists p :: PcOf(s, p).HasFile() && PcOf(s, p).file == f
  }

  ghost predicate NumberFree(s: State, n: int) {
    forall f :: f in s.number && Alive(s, f) ==> s.number[f] != n
  }

  /** The signature check: this number, and a link count of one. */
  predicate Matches(s: State, f: Inode) {
    f in s.number && Some(s.number[f]) == s.authority && Links(s, f) == 1
  }

  predicate PathMatches(s: State) { s.entry.Some? && Matches(s, s.entry.value) }

  ghost predicate LockFree(s: State, f: Inode) {
    forall q :: PcOf(s, q).HoldsLock() ==> PcOf(s, q).file != f
  }

  function Goto(s: State, p: Pid, pc: Pc): State { s.(procs := s.procs[p := pc]) }

  function NewEntry(s: State, n: int): State {
    s.(entry := Some(s.next), number := s.number[s.next := n], next := s.next + 1)
  }

  /** One step of a process; a step that is not enabled changes nothing. */
  ghost function ProcessStep(s: State, e: Event, p: Pid, pc: Pc): State {
    match e
    case Prepare(_, n) =>
      if !(pc.Idle? || pc.Left?) then s
      else if s.authority.Some? then Goto(s, p, Ready)
      else if s.entry.Some? && s.entry.value in s.number && Links(s, s.entry.value) == 1 then
        Goto(s, p, Candidate(s.number[s.entry.value]))
      else if s.entry.None? && NumberFree(s, n) then Goto(NewEntry(s, n), p, Candidate(n))
      else Goto(s, p, Idle)
    case ClaimAuthority(_) =>
      if !pc.Candidate? then s
      else if s.authority.None? then Goto(s.(authority := Some(pc.number)), p, Ready)
      else Goto(s, p, if s.authority == Some(pc.number) then Ready else Idle)
    case Open(_) =>
      if pc.Ready? && s.entry.Some? then Goto(s, p, Opened(s.entry.value)) else s
    case Check(_) =>
      if !pc.Opened? then s
      else Goto(s, p, if Matches(s, pc.file) && PathMatches(s) then Checked(pc.file) else Idle)
    case Flock(_) =>
      if pc.Checked? && LockFree(s, pc.file) then Goto(s, p, Flocked(pc.file)) else s
    case Verify(_) =>
      if !pc.Flocked? then s
      else Goto(s, p, if Matches(s, pc.file) && PathMatches(s) then Inside(pc.file) else Idle)
    case Leave(_) =>
      if !pc.Inside? then s else Goto(s, p, Left(Matches(s, pc.file) && PathMatches(s)))
    case Kill(_) => Goto(s, p, Idle)
    case _ => s
  }

  /** What anybody with access to the directory may do to names. */
  ghost function NameStep(s: State, e: Event): State {
    match e
    case Unlink => s.(entry := None)
    case MoveAside => if s.entry.Some? then s.(entry := None, aside := s.aside + multiset{s.entry.value}) else s
    case Create(n) => if s.entry.None? && NumberFree(s, n) then NewEntry(s, n) else s
    case Link(f) => if Linked(s, f) then s.(aside := s.aside + multiset{f}) else s
    case PutBack(f) => if s.entry.None? && f in s.aside then s.(entry := Some(f), aside := s.aside - multiset{f}) else s
    case Drop(f) => s.(aside := s.aside - multiset{f})
    case _ => s
  }

  predicate ByProcess(e: Event) {
    !(e.Unlink? || e.MoveAside? || e.Create? || e.Link? || e.PutBack? || e.Drop?)
  }

  ghost function Step(s: State, e: Event): State {
    if ByProcess(e) then ProcessStep(s, e, e.pid, PcOf(s, e.pid)) else NameStep(s, e)
  }

  ghost function Run(s: State, events: seq<Event>): State
    decreases |events|
  {
    if events == [] then s else Run(Step(s, events[0]), events[1..])
  }

  /** Living files have different numbers. */
  ghost predicate FilesInv(s: State) {
    && (forall f :: f in s.number ==> f < s.next)
    && (forall f :: Alive(s, f) ==> f in s.number)
    && (forall f, g :: Alive(s, f) && Alive(s, g) && f != g && f in s.number && g in s.number ==> s.number[f] != s.number[g])
  }

  /** Every process past its check holds a file with the recorded number, and no two hold one file's lock. */
  ghost predicate ProcessesInv(s: State) {
    && (forall p :: ProcessInv(s, PcOf(s, p)))
    && (forall p, q :: p != q && PcOf(s, p).HoldsLock() && PcOf(s, q).HoldsLock() ==> PcOf(s, p).file != PcOf(s, q).file)
  }

  ghost predicate ProcessInv(s: State, pc: Pc) {
    pc.Checked? || pc.HoldsLock() ==> pc.file in s.number && Some(s.number[pc.file]) == s.authority
  }

  ghost predicate Inv(s: State) { FilesInv(s) && ProcessesInv(s) }

  /** Nothing comes alive but a file that was alive, or one created with a free number. */
  ghost predicate Arises(s: State, t: State) {
    && s.next <= t.next
    && (forall f :: f in s.number ==> f in t.number && t.number[f] == s.number[f])
    && (forall f :: f in t.number && f !in s.number ==> f == s.next && f < t.next && NumberFree(s, t.number[f]))
    && (forall f :: Alive(t, f) ==> Alive(s, f) || (f in t.number && f !in s.number))
  }

  lemma ArisesKeepsFiles(s: State, t: State)
    requires FilesInv(s) && Arises(s, t)
    ensures FilesInv(t)
  {
    forall f | f in t.number ensures f < t.next {
      assert f in s.number || f !in s.number;
    }
  }

  lemma NameStepKeepsProcesses(s: State, e: Event)
    ensures NameStep(s, e).procs == s.procs && NameStep(s, e).authority == s.authority
  {
  }

  lemma NameStepArises(s: State, e: Event)
    requires FilesInv(s) && !ByProcess(e)
    ensures Arises(s, Step(s, e))
  {
    var t := Step(s, e);
    NameStepKeepsProcesses(s, e);
    forall f | Alive(t, f) ensures Alive(s, f) || (f in t.number && f !in s.number) {
      if !Linked(t, f) {
        var p :| PcOf(t, p).HasFile() && PcOf(t, p).file == f;
        assert PcOf(s, p).HasFile() && PcOf(s, p).file == f;
      }
    }
  }

  lemma ProcessStepArises(s: State, e: Event)
    requires FilesInv(s) && ByProcess(e)
    ensures Arises(s, Step(s, e))
  {
    var t := Step(s, e);
    forall f | Alive(t, f) ensures Alive(s, f) || (f in t.number && f !in s.number) {
      if !Linked(t, f) {
        var p :| PcOf(t, p).HasFile() && PcOf(t, p).file == f;
        assert p != e.pid ==> PcOf(s, p) == PcOf(t, p);
        assert p == e.pid && !PcOf(s, p).HasFile() ==> Linked(s, f);
      }
    }
  }

  lemma StepKeepsChecks(s: State, e: Event, p: Pid)
    requires Inv(s) && Arises(s, Step(s, e))
    ensures ProcessInv(Step(s, e), PcOf(Step(s, e), p))
  {
    assert ProcessInv(s, PcOf(s, p));
    if !ByProcess(e) { NameStepKeepsProcesses(s, e); }
    else if p != e.pid { assert PcOf(Step(s, e), p) == PcOf(s, p); }
  }

  /** A lock is kept by its holder or taken while it is free; nobody else's locks change. */
  lemma LockTaken(s: State, e: Event, p: Pid)
    requires PcOf(Step(s, e), p).HoldsLock()
    ensures var f := PcOf(Step(s, e), p).file;
      (PcOf(s, p).HoldsLock() && PcOf(s, p).file == f) || (ByProcess(e) && p == e.pid && LockFree(s, f))
  {
    assert !ByProcess(e) || p != e.pid ==> PcOf(Step(s, e), p) == PcOf(s, p);
  }

  lemma StepKeepsExclusion(s: State, e: Event, p: Pid, q: Pid)
    requires Inv(s) && p != q && PcOf(Step(s, e), p).HoldsLock() && PcOf(Step(s, e), q).HoldsLock()
    ensures PcOf(Step(s, e), p).file != PcOf(Step(s, e), q).file
  {
    LockTaken(s, e, p);
    LockTaken(s, e, q);
  }

  lemma StepInv(s: State, e: Event)
    requires Inv(s)
    ensures Inv(Step(s, e))
    ensures s.authority.Some? ==> Step(s, e).authority == s.authority
  {
    if ByProcess(e) { ProcessStepArises(s, e); } else { NameStepArises(s, e); }
    ArisesKeepsFiles(s, Step(s, e));
    var t := Step(s, e);
    forall p ensures ProcessInv(t, PcOf(t, p)) { StepKeepsChecks(s, e, p); }
    forall p, q | p != q && PcOf(t, p).HoldsLock() && PcOf(t, q).HoldsLock()
      ensures PcOf(t, p).file != PcOf(t, q).file
    {
      StepKeepsExclusion(s, e, p, q);
    }
  }

  lemma {:induction false} RunInv(s: State, events: seq<Event>)
    requires Inv(s)
    ensures Inv(Run(s, events))
    ensures s.authority.Some? ==> Run(s, events).authority == s.authority
    decreases |events|
  {
    if events != [] {
      StepInv(s, events[0]);
      RunInv(Step(s, events[0]), events[1..]);
    }
  }

  /** At most one process is inside the lifecycle section, whatever was killed and whatever happened to the
    lock path, and it holds a file with the recorded number: a second holder's file would be alive with the
    same number, hence the same file, hence the same lock. */
  lemma MutualExclusion(events: seq<Event>, p: Pid, q: Pid)
    requires PcOf(Run(INITIAL, events), p).Inside? && PcOf(Run(INITIAL, events), q).Inside?
    ensures p == q
    ensures var s := Run(INITIAL, events);
      PcOf(s, p).file in s.number && Some(s.number[PcOf(s, p).file]) == s.authority
  {
    RunInv(INITIAL, events);
    var s := Run(INITIAL, events);
    assert ProcessInv(s, PcOf(s, p)) && ProcessInv(s, PcOf(s, q));
    assert Alive(s, PcOf(s, p).file) && Alive(s, PcOf(s, q).file);
  }

  /** The durable row never changes, so every holder there will ever be holds a file of one number. */
  lemma AuthorityIsForever(events: seq<Event>, more: seq<Event>)
    requires Run(INITIAL, events).authority.Some?
    ensures Run(Run(INITIAL, events), more).authority == Run(INITIAL, events).authority
  {
    RunInv(INITIAL, events);
    RunInv(Run(INITIAL, events), more);
  }

  /** A file with the recorded number that some process holds open is what the path names, or the path does not
    match: another file there with that number would be alive beside it. */
  lemma PathIsHeldFile(s: State, f: Inode)
    requires Inv(s) && Alive(s, f) && f in s.number && Some(s.number[f]) == s.authority
    ensures Matches(s, f) && PathMatches(s) <==> s.entry == Some(f) && f !in s.aside
  {
    assert s.entry.Some? ==> Alive(s, s.entry.value);
  }

  /** The three steps into the section, after any history: the first check passes exactly when the opened file
    has the recorded number and the path still names it alone, the lock is taken exactly when nobody else
    holds it, and the second check passes, and lets the process in, exactly when the path still names the
    locked file alone. */
  lemma EntersExactlyWhen(events: seq<Event>, p: Pid)
    ensures var s := Run(INITIAL, events);
      var pc := PcOf(s, p);
      && (pc.Opened? ==>
            && pc.file in s.number
            && PcOf(Step(s, Check(p)), p) ==
               if s.entry == Some(pc.file) && pc.file !in s.aside && Some(s.number[pc.file]) == s.authority then Checked(pc.file) else Idle)
      && (pc.Checked? ==>
            PcOf(Step(s, Flock(p)), p) ==
              if exists q :: PcOf(s, q).HoldsLock() && PcOf(s, q).file == pc.file then pc else Flocked(pc.file))
      && (pc.Flocked? ==>
            PcOf(Step(s, Verify(p)), p) == if s.entry == Some(pc.file) && pc.file !in s.aside then Inside(pc.file) else Idle)
  {
    RunInv(INITIAL, events);
    var s := Run(INITIAL, events);
    if PcOf(s, p).Opened? { CheckPasses(s, p); }
    if PcOf(s, p).Flocked? { VerifyEnters(s, p); }
  }

  lemma CheckPasses(s: State, p: Pid)
    requires Inv(s) && PcOf(s, p).Opened?
    ensures var f := PcOf(s, p).file;
      && f in s.number
      && PcOf(Step(s, Check(p)), p) ==
         if s.entry == Some(f) && f !in s.aside && Some(s.number[f]) == s.authority then Checked(f) else Idle
  {
    var f := PcOf(s, p).file;
    assert Alive(s, f);
    if Some(s.number[f]) == s.authority { PathIsHeldFile(s, f); }
  }

  lemma VerifyEnters(s: State, p: Pid)
    requires Inv(s) && PcOf(s, p).Flocked?
    ensures var f := PcOf(s, p).file;
      PcOf(Step(s, Verify(p)), p) == if s.entry == Some(f) && f !in s.aside then Inside(f) else Idle
  {
    assert ProcessInv(s, PcOf(s, p));
    assert Alive(s, PcOf(s, p).file);
    PathIsHeldFile(s, PcOf(s, p).file);
  }

  /** The first steps, in any state.  A process is ready at once if there is a record; else it reports the number of
    the one file that the path names, or of the new one that it creates there, and otherwise gives up.  With a
    number it is ready exactly if the record is, or now becomes, that number. */
  lemma GetsReadyExactlyWhen(s: State, p: Pid, n: int)
    ensures PcOf(s, p).Idle? || PcOf(s, p).Left? ==>
      var t := Step(s, Prepare(p, n));
      && t.authority == s.authority
      && (s.authority.Some? ==> PcOf(t, p) == Ready && t.entry == s.entry)
      && (s.authority.None? && s.entry.Some? && s.entry.value in s.number ==>
            t.entry == s.entry && PcOf(t, p) == if s.entry.value !in s.aside then Candidate(s.number[s.entry.value]) else Idle)
      && (s.authority.None? && s.entry.None? && NumberFree(s, n) ==>
            t.entry == Some(s.next) && t.number == s.number[s.next := n] && PcOf(t, p) == Candidate(n))
    ensures PcOf(s, p).Candidate? ==>
      var t := Step(s, ClaimAuthority(p));
      && t.authority == (if s.authority.None? then Some(PcOf(s, p).number) else s.authority)
      && PcOf(t, p) == if t.authority == Some(PcOf(s, p).number) then Ready else Idle
    ensures PcOf(s, p).Ready? && s.entry.Some? ==> PcOf(Step(s, Open(p)), p) == Opened(s.entry.value)
  {
  }

  // ----- undisturbed starts -----

  function FirstStart(p: Pid, n: int): seq<Event> { [Prepare(p, n), ClaimAuthority(p), Open(p), Check(p), Flock(p), Verify(p)] }

  function LaterStart(p: Pid, n: int): seq<Event> { [Prepare(p, n), Open(p), Check(p), Flock(p), Verify(p)] }

  lemma Runs(s: State, e: Event, more: seq<Event>)
    ensures Run(s, [e] + more) == Run(Step(s, e), more)
  {
    assert ([e] + more)[1..] == more;
  }

  /** Where a lone process stands: everything else is as it was. */
  function With(s: State, p: Pid, pc: Pc): State { s.(procs := s.procs[p := pc]) }

  lemma OthersStay(s: State, p: Pid, pc: Pc, f: Inode)
    requires LockFree(s, f) && !pc.HoldsLock()
    ensures LockFree(With(s, p, pc), f)
  {
    forall q | PcOf(With(s, p, pc), q).HoldsLock() ensures PcOf(With(s, p, pc), q).file != f {
      assert PcOf(With(s, p, pc), q) == PcOf(s, q);
    }
  }

  lemma ReadyEnters(s: State, p: Pid, f: Inode)
    requires LockFree(s, f) && s.entry == Some(f) && f !in s.aside && f in s.number && s.authority == Some(s.number[f])
    ensures Run(With(s, p, Ready), [Open(p), Check(p), Flock(p), Verify(p)]) == With(s, p, Inside(f))
  {
    ReadySteps(s, p, f);
    Runs(With(s, p, Ready), Open(p), [Check(p), Flock(p), Verify(p)]);
    Runs(With(s, p, Opened(f)), Check(p), [Flock(p), Verify(p)]);
    Runs(With(s, p, Checked(f)), Flock(p), [Verify(p)]);
    Runs(With(s, p, Flocked(f)), Verify(p), []);
  }

  lemma ReadySteps(s: State, p: Pid, f: Inode)
    requires LockFree(s, f) && s.entry == Some(f) && f !in s.aside && f in s.number && s.authority == Some(s.number[f])
    ensures Step(With(s, p, Ready), Open(p)) == With(s, p, Opened(f))
    ensures Step(With(s, p, Opened(f)), Check(p)) == With(s, p, Checked(f))
    ensures Step(With(s, p, Checked(f)), Flock(p)) == With(s, p, Flocked(f))
    ensures Step(With(s, p, Flocked(f)), Verify(p)) == With(s, p, Inside(f))
  {
    OthersStay(s, p, Checked(f), f);
  }

  /** A start that nobody disturbs enters once the path names one file with the recorded number, whose lock is
    free. */
  lemma LaterStartEnters(s: State, p: Pid, n: int, f: Inode)
    requires (PcOf(s, p).Idle? || PcOf(s, p).Left?) && LockFree(s, f)
    requires s.entry == Some(f) && f !in s.aside && f in s.number && s.authority == Some(s.number[f])
    ensures Run(s, LaterStart(p, n)) == With(s, p, Inside(f))
  {
    Runs(s, Prepare(p, n), [Open(p), Check(p), Flock(p), Verify(p)]);
    ReadyEnters(s, p, f);
  }

  /** The very first one does, too, and records the number of the file it has created. */
  lemma FirstStartEnters(p: Pid, n: int)
    ensures Run(INITIAL, FirstStart(p, n)) == State(Some(0), multiset{}, map[0 := n], 1, Some(n), map[p := Inside(0)])
  {
    var claimed := State(Some(0), multiset{}, map[0 := n], 1, Some(n), map[]);
    assert NumberFree(INITIAL, n);
    Runs(INITIAL, Prepare(p, n), [ClaimAuthority(p), Open(p), Check(p), Flock(p), Verify(p)]);
    var s1 := Step(INITIAL, Prepare(p, n));
    assert s1 == State(Some(0), multiset{}, map[0 := n], 1, None, map[p := Candidate(n)]);
    Runs(s1, ClaimAuthority(p), [Open(p), Check(p), Flock(p), Verify(p)]);
    assert Step(s1, ClaimAuthority(p)) == With(claimed, p, Ready);
    ReadyEnters(claimed, p, 0);
  }

  /** A holder that is killed gives the lock up: the next start that nobody disturbs enters in its place. */
  lemma KilledHolderIsReplaced(events: seq<Event>, p: Pid, q: Pid, n: int)
    requires var s := Run(INITIAL, events);
      PcOf(s, p).Inside? && s.entry == Some(PcOf(s, p).file) && PcOf(s, p).file !in s.aside && (PcOf(s, q).Idle? || PcOf(s, q).Left? || q == p)
    ensures var s := Run(INITIAL, events);
      Run(Step(s, Kill(p)), LaterStart(q, n)) == With(With(s, p, Idle), q, Inside(PcOf(s, p).file))
  {
    RunInv(INITIAL, events);
    var s := Run(INITIAL, events);
    assert ProcessInv(s, PcOf(s, p));
    KillFreesLock(s, p);
    LaterStartEnters(With(s, p, Idle), q, n, PcOf(s, p).file);
  }

  lemma KillFreesLock(s: State, p: Pid)
    requires Inv(s) && PcOf(s, p).Inside?
    ensures Step(s, Kill(p)) == With(s, p, Idle) && LockFree(With(s, p, Idle), PcOf(s, p).file)
  {
    forall r | PcOf(With(s, p, Idle), r).HoldsLock() ensures PcOf(With(s, p, Idle), r).file != PcOf(s, p).file {
      assert r != p && PcOf(With(s, p, Idle), r) == PcOf(s, r);
    }
  }

  /** The record is of a number, not of a file: once the run is over, another file that is given the same number
    is accepted in its place. */
  lemma ReusedNumberIsAccepted(p: Pid, q: Pid, n: int)
    ensures var s := Run(INITIAL, FirstStart(p, n));
      var replaced := Step(Step(Step(s, Leave(p)), Unlink), Create(n));
      && PcOf(s, p) == Inside(0) && PcOf(Step(s, Leave(p)), p) == Left(true)
      && replaced.entry == Some(1)
      && PcOf(Run(replaced, LaterStart(q, n)), q) == Inside(1)
  {
    FirstStartEnters(p, n);
    var s := Run(INITIAL, FirstStart(p, n));
    var left := Step(s, Leave(p));
    assert left == s.(procs := map[p := Left(true)]);
    var gone := Step(left, Unlink);
    assert NumberFree(gone, n);
    var replaced := Step(gone, Create(n));
    assert replaced == State(Some(1), multiset{}, map[0 := n, 1 := n], 2, Some(n), map[p := Left(true)]);
    LaterStartEnters(replaced, q, n, 1);
  }

  /** Moving the file aside and back changes nothing. */
  lemma PutBackRestores(s: State, f: Inode)
    requires s.entry == Some(f)
    ensures Step(s, MoveAside).entry == None && Links(Step(s, MoveAside), f) == Links(s, f)
    ensures Step(Step(s, MoveAside), PutBack(f)) == s
  {
    assert s.aside + multiset{f} - multiset{f} == s.aside;
  }

  /** A process leaves cleanly exactly when the lock path names the very file whose lock it holds, and that
    file has no other name; a file of the recorded number put in its place could only be that same file. */
  lemma CleanExitExactlyWhen(events: seq<Event>, p: Pid)
    requires PcOf(Run(INITIAL, events), p).Inside?
    ensures var s := Run(INITIAL, events);
      PcOf(Step(s, Leave(p)), p) == Left(s.entry == Some(PcOf(s, p).file) && PcOf(s, p).file !in s.aside)
  {
    RunInv(INITIAL, events);
    CleanLeave(Run(INITIAL, events), p);
  }

  lemma CleanLeave(s: State, p: Pid)
    requires Inv(s) && PcOf(s, p).Inside?
    ensures PcOf(Step(s, Leave(p)), p) == Left(s.entry == Some(PcOf(s, p).file) && PcOf(s, p).file !in s.aside)
  {
    assert ProcessInv(s, PcOf(s, p));
    PathIsHeldFile(s, PcOf(s, p).file);
  }

  /** Anybody can spoil a clean exit without ever touching the lock path or letting a second holder in: a
    second name for the lock file is enough, until that name is dropped again. */
  lemma SecondNameSpoilsExit(events: seq<Event>, p: Pid)
    requires var s := Run(INITIAL, events); PcOf(s, p).Inside? && PcOf(Step(s, Leave(p)), p) == Left(true)
    ensures var s := Run(INITIAL, events);
      var linked := Step(s, Link(PcOf(s, p).file));
      && linked.entry == s.entry
      && PcOf(Step(linked, Leave(p)), p) == Left(false)
      && Step(linked, Drop(PcOf(s, p).file)) == s
  {
    CleanExitExactlyWhen(events, p);
    var s := Run(INITIAL, events);
    var f := PcOf(s, p).file;
    RunAppends(INITIAL, events, Link(f));
    CleanExitExactlyWhen(events + [Link(f)], p);
  }

  lemma {:induction false} RunAppends(s: State, events: seq<Event>, e: Event)
    ensures Run(s, events + [e]) == Step(Run(s, events), e)
    decreases |events|
  {
    if events == [] {
      assert events + [e] == [e];
      assert Run(Step(s, e), []) == Step(s, e);
    } else {
      assert (events + [e])[1..] == events[1..] + [e];
      RunAppends(Step(s, events[0]), events[1..], e);
    }
  }
}
