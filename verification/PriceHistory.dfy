/** The price in effect at a date: a stable sort by effective date and a scan that stops early. */
module PriceHistory {
  import opened CreateOnlyFiles
  import opened TupleOrder

  datatype Entry = Entry(effective: string, price: real)

  function DateKey(date: string): Key { [Codes(date)] }

  function EntryKey(e: Entry): Key { DateKey(e.effective) }

  /** Dates compare as text. */
  predicate Earlier(a: string, b: string) { Less(DateKey(a), DateKey(b)) }

  predicate InEffect(e: Entry, date: string) { !Earlier(date, e.effective) }

  /** An entry is in effect on its own date and after it. */
  lemma InEffectExactlyWhen(e: Entry, date: string)
    ensures InEffect(e, date) <==> e.effective == date || Below(Codes(e.effective), Codes(date))
    ensures Earlier(e.effective, date) <==> e.effective != date && Below(Codes(e.effective), Codes(date))
  {
    if Codes(e.effective) == Codes(date) { CodesInjective(e.effective, date); }
    BelowTotal(Codes(e.effective), Codes(date));
    assert DateKey(e.effective)[1..] == [] && DateKey(date)[1..] == [];
    LessFirst(DateKey(date), DateKey(e.effective));
    LessFirst(DateKey(e.effective), DateKey(date));
  }

  // ----- what is meant, in the original order -----

  /** Entry `i` is in effect, none in effect is later, and none listed after it has the same date. */
  ghost predicate Latest(history: seq<Entry>, date: string, i: nat) {
    && i < |history| && InEffect(history[i], date)
    && (forall j :: 0 <= j < |history| && InEffect(history[j], date) ==> !Earlier(history[i].effective, history[j].effective))
    && (forall j :: i < j < |history| && InEffect(history[j], date) ==> Earlier(history[j].effective, history[i].effective))
  }

  /** Entry `i` has the earliest date, and is the first listed that has it. */
  ghost predicate Earliest(history: seq<Entry>, i: nat) {
    && i < |history|
    && (forall j :: 0 <= j < |history| ==> !Earlier(history[j].effective, history[i].effective))
    && (forall j :: 0 <= j < i ==> Earlier(history[i].effective, history[j].effective))
  }

  ghost predicate LatestPrice(history: seq<Entry>, date: string, price: real) {
    exists i: nat :: Latest(history, date, i) && price == history[i].price
  }

  ghost predicate EarliestPrice(history: seq<Entry>, price: real) {
    exists i: nat :: Earliest(history, i) && price == history[i].price
  }

  // ----- the same, along the recursion of the sort -----

  function Best(history: seq<Entry>, date: string): Option<Entry> {
    if history == [] then None
    else
      var rest := Best(history[1..], date);
      if InEffect(history[0], date) && (rest.None? || Earlier(rest.value.effective, history[0].effective))
      then Some(history[0]) else rest
  }

  function First(history: seq<Entry>): Entry
    requires history != []
  {
    if |history| == 1 then history[0]
    else
      var rest := First(history[1..]);
      if Earlier(rest.effective, history[0].effective) then rest else history[0]
  }

  lemma EarlierChain(a: string, b: string, c: string)
    ensures Earlier(a, b) && Earlier(b, c) ==> Earlier(a, c)
    ensures Earlier(a, b) && !Earlier(c, b) ==> Earlier(a, c)
    ensures !Earlier(b, a) && Earlier(b, c) ==> Earlier(a, c)
    ensures !Earlier(b, a) && !Earlier(c, b) ==> !Earlier(c, a)
  {
    LessTotal(DateKey(a), DateKey(b));
    LessTotal(DateKey(b), DateKey(c));
    LessTotal(DateKey(a), DateKey(c));
    if Earlier(a, b) && Earlier(b, c) { LessTransitive(DateKey(a), DateKey(b), DateKey(c)); }
  }

  lemma {:induction false} BestIsLatest(history: seq<Entry>, date: string) returns (i: nat)
    ensures Best(history, date).None? ==> forall j :: 0 <= j < |history| ==> !InEffect(history[j], date)
    ensures Best(history, date).Some? ==> Latest(history, date, i) && Best(history, date).value == history[i]
    decreases |history|
  {
    i := 0;
    if history != [] {
      var rest := history[1..];
      var k := BestIsLatest(rest, date);
      assert forall j :: 1 <= j < |history| ==> history[j] == rest[j - 1];
      var b := Best(rest, date);
      if b.Some? {
        forall j | 0 <= j < |rest| && InEffect(rest[j], date)
          ensures !Earlier(rest[k].effective, rest[j].effective)
        {
        }
        if InEffect(history[0], date) && Earlier(rest[k].effective, history[0].effective) {
          forall j | 0 < j < |history| && InEffect(history[j], date)
            ensures Earlier(history[j].effective, history[0].effective)
          {
            EarlierChain(rest[j - 1].effective, rest[k].effective, history[0].effective);
          }
          LatestHead(history, date);
        } else {
          i := k + 1;
        }
      } else if InEffect(history[0], date) {
        LatestHead(history, date);
      }
    }
  }

  lemma LatestHead(history: seq<Entry>, date: string)
    requires history != [] && InEffect(history[0], date)
    requires forall j :: 0 < j < |history| && InEffect(history[j], date) ==> Earlier(history[j].effective, history[0].effective)
    ensures Latest(history, date, 0)
  {
    forall j | 0 <= j < |history| && InEffect(history[j], date)
      ensures !Earlier(history[0].effective, history[j].effective)
    {
      LessTotal(DateKey(history[0].effective), DateKey(history[j].effective));
    }
  }

  lemma {:induction false} FirstIsEarliest(history: seq<Entry>) returns (i: nat)
    requires history != []
    ensures Earliest(history, i) && First(history) == history[i]
    decreases |history|
  {
    i := 0;
    if |history| == 1 {
      LessTotal(EntryKey(history[0]), EntryKey(history[0]));
    } else {
      var rest := history[1..];
      var k := FirstIsEarliest(rest);
      assert forall j :: 1 <= j < |history| ==> history[j] == rest[j - 1];
      if Earlier(rest[k].effective, history[0].effective) {
        i := k + 1;
        LessTotal(EntryKey(history[0]), EntryKey(rest[k]));
      } else {
        forall j | 0 <= j < |history| ensures !Earlier(history[j].effective, history[0].effective) {
          if j == 0 {
            LessTotal(EntryKey(history[0]), EntryKey(history[0]));
          } else {
            EarlierChain(history[0].effective, rest[k].effective, rest[j - 1].effective);
          }
        }
      }
    }
  }

  // ----- the sorted list -----

  /** The last entry in effect of an ordered list: where the scan ends. */
  function LastInEffect(sorted: seq<Entry>, date: string): Option<Entry> {
    if sorted == [] || !InEffect(sorted[0], date) then None
    else
      var later := LastInEffect(sorted[1..], date);
      if later.Some? then later else Some(sorted[0])
  }

  lemma {:induction false} LastIsNotEarlier(sorted: seq<Entry>, date: string)
    requires Ordered(sorted, EntryKey) && sorted != [] && LastInEffect(sorted, date).Some?
    ensures !Earlier(LastInEffect(sorted, date).value.effective, sorted[0].effective)
    decreases |sorted|
  {
    LessTotal(EntryKey(sorted[0]), EntryKey(sorted[0]));
    if |sorted| > 1 && LastInEffect(sorted[1..], date).Some? {
      LastIsNotEarlier(sorted[1..], date);
      assert !Less(EntryKey(sorted[1]), EntryKey(sorted[0]));
      EarlierChain(sorted[0].effective, sorted[1].effective, LastInEffect(sorted[1..], date).value.effective);
    }
  }

  /** Stable insertion takes over only if the new entry is in effect and strictly later. */
  lemma {:induction false} InsertLast(x: Entry, sorted: seq<Entry>, date: string)
    requires Ordered(sorted, EntryKey)
    ensures var was := LastInEffect(sorted, date);
      LastInEffect(Insert(x, sorted, EntryKey), date)
      == if InEffect(x, date) && (was.None? || Earlier(was.value.effective, x.effective)) then Some(x) else was
    decreases |sorted|
  {
    if sorted != [] {
      if Less(EntryKey(sorted[0]), EntryKey(x)) {
        InsertLast(x, sorted[1..], date);
        EarlierChain(sorted[0].effective, x.effective, date);
        EarlierChain(date, sorted[0].effective, x.effective);
        assert Insert(x, sorted, EntryKey)[1..] == Insert(x, sorted[1..], EntryKey);
      } else {
        assert Insert(x, sorted, EntryKey)[1..] == sorted;
        EarlierChain(x.effective, sorted[0].effective, date);
        if LastInEffect(sorted, date).Some? {
          LastIsNotEarlier(sorted, date);
          EarlierChain(x.effective, sorted[0].effective, LastInEffect(sorted, date).value.effective);
        }
        EarlierChain(date, x.effective, sorted[0].effective);
      }
    }
  }

  lemma {:induction false} SortedLast(history: seq<Entry>, date: string)
    ensures LastInEffect(Sort(history, EntryKey), date) == Best(history, date)
    decreases |history|
  {
    if history != [] {
      SortedLast(history[1..], date);
      SortIsSorted(history[1..], EntryKey);
      InsertLast(history[0], Sort(history[1..], EntryKey), date);
    }
  }

  lemma {:induction false} SortedFirst(history: seq<Entry>)
    requires history != []
    ensures Sort(history, EntryKey) != [] && Sort(history, EntryKey)[0] == First(history)
    decreases |history|
  {
    if |history| > 1 { SortedFirst(history[1..]); }
  }

  /** The scan with its early exit. */
  method Scan(sorted: seq<Entry>, date: string) returns (chosen: real)
    requires sorted != [] && Ordered(sorted, EntryKey)
    ensures var last := LastInEffect(sorted, date); chosen == if last.Some? then last.value.price else sorted[0].price
  {
    chosen := sorted[0].price;
    var i := 0;
    while i < |sorted|
      invariant 0 <= i <= |sorted|
      invariant var last, rest := LastInEffect(sorted, date), LastInEffect(sorted[i..], date);
        (if last.Some? then last.value.price else sorted[0].price) == if rest.Some? then rest.value.price else chosen
    {
      assert sorted[i..][1..] == sorted[i + 1..];
      if InEffect(sorted[i], date) {
        chosen := sorted[i].price;
      } else {
        return;
      }
      i := i + 1;
    }
  }

  /** The price at a date: of the last listed entry among those with the greatest effective date not after it;
    before all history, and without a date, of the first listed entry with the earliest date. */
  method PriceAt(history: seq<Entry>, date: Option<string>) returns (price: Option<real>)
    ensures price.None? <==> history == []
    ensures price.Some? && date.None? ==> EarliestPrice(history, price.value)
    ensures price.Some? && date.Some? ==>
      if exists j :: 0 <= j < |history| && InEffect(history[j], date.value)
      then LatestPrice(history, date.value, price.value)
      else EarliestPrice(history, price.value)
    ensures price.Some? ==> price.value in AllPrices(history)
  {
    var sorted := Sort(history, EntryKey);
    SortIsSorted(history, EntryKey);
    if |sorted| == 0 { return None; }
    SortedFirst(history);
    ghost var first := FirstIsEarliest(history);
    if date.None? { return Some(sorted[0].price); }
    var chosen := Scan(sorted, date.value);
    SortedLast(history, date.value);
    ghost var last := BestIsLatest(history, date.value);
    price := Some(chosen);
  }

  function AllPrices(history: seq<Entry>): set<real> { set e | e in history :: e.price }

  /** What the price is does not depend on how the history is read: at most one entry is the latest. */
  lemma LatestUnique(history: seq<Entry>, date: string, i: nat, j: nat)
    requires Latest(history, date, i) && Latest(history, date, j)
    ensures i == j
  {
  }
}
