/** Invoice arithmetic over exact reals: line items, the printed summary, and what a clean check implies. */
module InvoiceArithmetic {
  import opened CreateOnlyFiles

  datatype Label = Subtotal | Discount | Shipping | Tax | TotalDue

  /** A line of text: the summary label it starts with and the amount it ends with. */
  datatype Line = Line(tag: Option<Label>, amount: Option<real>)

  datatype Item = Item(qty: real, unit: real, total: real)

  datatype Finding = BadLine(item: Item) | BadSubtotal(sum: real) | BadTotal(calculated: real)

  const TOLERANCE: real := 0.02

  function Abs(x: real): real { if x < 0.0 then -x else x }

  // ----- the summary block -----

  predicate Labelled(lines: seq<Line>, i: nat) { i < |lines| && lines[i].tag.Some? }

  /** Lines `from` up to but not including `to`. */
  datatype Block = Block(from: nat, to: nat)

  /** These lines belong to the label on the first of them. */
  ghost predicate IsBlock(lines: seq<Line>, s: Block) {
    && s.from < s.to <= |lines|
    && lines[s.from].tag.Some?
    && (forall i: nat {:trigger Labelled(lines, i)} :: s.from < i < s.to ==> !Labelled(lines, i))
    && (s.to < |lines| ==> lines[s.to].tag.Some?)
  }

  /** The last amount in a range of lines. */
  function LastAmount(lines: seq<Line>, from: nat, to: nat): Option<real>
    requires from <= to <= |lines|
  {
    if from == to then None
    else if lines[to - 1].amount.Some? then lines[to - 1].amount
    else LastAmount(lines, from, to - 1)
  }

  /** The label lines before line `n`, in order. */
  ghost predicate LabelLines(lines: seq<Line>, at: seq<nat>, n: nat) {
    && (forall j :: 0 <= j < |at| ==> at[j] < n && Labelled(lines, at[j]))
    && (forall j, k :: 0 <= j < k < |at| ==> at[j] < at[k])
    && (forall i: nat :: i < n && Labelled(lines, i) ==> i in at)
  }

  method FindLabels(lines: seq<Line>) returns (at: seq<nat>)
    ensures LabelLines(lines, at, |lines|)
  {
    at := [];
    for i := 0 to |lines|
      invariant LabelLines(lines, at, i)
    {
      if Labelled(lines, i) { at := at + [i]; }
    }
  }

  /** The line that a reader of the first `j` blocks has reached. */
  function Reached(lines: seq<Line>, at: seq<nat>, j: nat): nat {
    if j < |at| then at[j] else |lines|
  }

  function BlockAt(lines: seq<Line>, at: seq<nat>, j: nat): Block
    requires j < |at|
  {
    Block(at[j], Reached(lines, at, j + 1))
  }

  lemma LabelsCutBlocks(lines: seq<Line>, at: seq<nat>, j: nat)
    requires LabelLines(lines, at, |lines|) && j < |at|
    ensures IsBlock(lines, BlockAt(lines, at, j))
  {
    var s := BlockAt(lines, at, j);
    forall i | s.from < i < s.to ensures lines[i].tag.None? {
      forall k | 0 <= k < |at| ensures at[k] != i {
        assert k < j ==> at[k] < at[j];
        assert k > j + 1 ==> at[j + 1] < at[k];
      }
      assert !Labelled(lines, i);
    }
  }

  /** The last amount on these lines is this one. */
  ghost predicate EndsWith(lines: seq<Line>, s: Block, value: real) {
    && s.to <= |lines|
    && exists k :: s.from <= k < s.to && lines[k].amount == Some(value) && forall j :: k < j < s.to ==> lines[j].amount.None?
  }

  ghost predicate HasAmount(lines: seq<Line>, s: Block) { s.to <= |lines| && exists k :: s.from <= k < s.to && lines[k].amount.Some? }

  lemma {:induction false} LastAmountIs(lines: seq<Line>, s: Block, value: real)
    requires s.from <= s.to <= |lines|
    ensures LastAmount(lines, s.from, s.to) == Some(value) <==> EndsWith(lines, s, value)
    ensures LastAmount(lines, s.from, s.to).Some? <==> HasAmount(lines, s)
    decreases s.to
  {
    if s.from < s.to {
      var init := Block(s.from, s.to - 1);
      LastAmountIs(lines, init, value);
      if lines[s.to - 1].amount.None? && EndsWith(lines, init, value) {
        var k :| s.from <= k < s.to - 1 && lines[k].amount == Some(value) && forall j :: k < j < s.to - 1 ==> lines[j].amount.None?;
        assert EndsWith(lines, s, value);
      }
      if EndsWith(lines, s, value) && lines[s.to - 1].amount.None? {
        var k :| s.from <= k < s.to && lines[k].amount == Some(value) && forall j :: k < j < s.to ==> lines[j].amount.None?;
        assert EndsWith(lines, init, value);
      }
    }
  }

  /** Each of the first `n` blocks has an amount. */
  ghost predicate HaveAmounts(lines: seq<Line>, at: seq<nat>, n: nat)
    requires n <= |at|
  {
    forall j :: 0 <= j < n ==> HasAmount(lines, BlockAt(lines, at, j))
  }

  lemma HaveNext(lines: seq<Line>, at: seq<nat>, j: nat)
    requires j < |at|
    ensures HaveAmounts(lines, at, j + 1) <==> HaveAmounts(lines, at, j) && HasAmount(lines, BlockAt(lines, at, j))
    ensures HaveAmounts(lines, at, |at|) ==> HasAmount(lines, BlockAt(lines, at, j))
  {
  }

  lemma NothingBefore(lines: seq<Line>, at: seq<nat>)
    requires LabelLines(lines, at, |lines|) && at != []
    ensures Summarizes(map[], lines, at[0])
  {
    forall i | 0 <= i < at[0] ensures lines[i].tag.None? {
      forall k | 0 <= k < |at| ensures at[k] != i {
        assert k > 0 ==> at[0] < at[k];
      }
      assert !Labelled(lines, i);
    }
  }

  /** This block is the last to carry the label, and its last amount is the value. */
  ghost predicate CarriesAt(lines: seq<Line>, tag: Label, value: real, n: nat, s: Block)
    requires n <= |lines|
  {
    && IsBlock(lines, s) && s.to <= n && lines[s.from].tag == Some(tag)
    && EndsWith(lines, s, value)
    && forall i: nat {:trigger Labelled(lines, i)} :: s.from < i < n && Labelled(lines, i) ==> lines[i].tag != Some(tag)
  }

  ghost predicate Carries(lines: seq<Line>, tag: Label, value: real, n: nat)
    requires n <= |lines|
  {
    exists s :: CarriesAt(lines, tag, value, n, s)
  }

  /** The labels up to line `n` and their values. */
  ghost predicate Summarizes(vals: map<Label, real>, lines: seq<Line>, n: nat)
    requires n <= |lines|
  {
    && (forall tag :: tag in vals ==> Carries(lines, tag, vals[tag], n))
    && (forall i: nat {:trigger Labelled(lines, i)} :: i < n && Labelled(lines, i) ==> lines[i].tag.value in vals)
  }

  lemma CarriesOn(lines: seq<Line>, tag: Label, value: real, s: Block)
    requires IsBlock(lines, s) && Carries(lines, tag, value, s.from) && lines[s.from].tag != Some(tag)
    ensures Carries(lines, tag, value, s.to)
  {
    var b :| CarriesAt(lines, tag, value, s.from, b);
    assert CarriesAt(lines, tag, value, s.to, b);
  }

  lemma SummarizesNext(vals: map<Label, real>, lines: seq<Line>, s: Block)
    requires IsBlock(lines, s) && Summarizes(vals, lines, s.from) && LastAmount(lines, s.from, s.to).Some?
    ensures Summarizes(vals[lines[s.from].tag.value := LastAmount(lines, s.from, s.to).value], lines, s.to)
  {
    var tag, value := lines[s.from].tag.value, LastAmount(lines, s.from, s.to).value;
    LastAmountIs(lines, s, value);
    var more := vals[tag := value];
    forall t | t in more ensures Carries(lines, t, more[t], s.to) {
      if t == tag {
        assert CarriesAt(lines, tag, value, s.to, s);
      } else {
        CarriesOn(lines, t, vals[t], s);
      }
    }
  }

  /** Read one block: its last amount becomes the value of its label. */
  method ReadBlock(found: map<Label, real>, lines: seq<Line>, at: seq<nat>, j: nat) returns (next: Option<map<Label, real>>)
    requires LabelLines(lines, at, |lines|) && j < |at| && Summarizes(found, lines, Reached(lines, at, j))
    ensures next.Some? <==> HasAmount(lines, BlockAt(lines, at, j))
    ensures Reached(lines, at, j + 1) <= |lines|
    ensures next.Some? ==> Summarizes(next.value, lines, Reached(lines, at, j + 1))
  {
    var s := BlockAt(lines, at, j);
    LabelsCutBlocks(lines, at, j);
    var val := LastAmountIn(lines, s);
    LastAmountIs(lines, s, 0.0);
    if val.None? { return None; }
    SummarizesNext(found, lines, s);
    next := Some(found[lines[s.from].tag.value := val.value]);
  }

  /** Read the summary.  It is missing when there are fewer than five label lines or one has no amount before
    the next; repeated labels count towards the five, so that a summary need not hold all of them. */
  method ParseSummary(lines: seq<Line>) returns (vals: Option<map<Label, real>>, at: seq<nat>)
    ensures LabelLines(lines, at, |lines|)
    ensures vals.Some? <==> |at| >= 5 && HaveAmounts(lines, at, |at|)
    ensures vals.Some? ==> Summarizes(vals.value, lines, |lines|)
  {
    at := FindLabels(lines);
    if |at| < 5 { return None, at; }
    NothingBefore(lines, at);
    vals := Some(map[]);
    for j := 0 to |at|
      invariant vals.Some? && Reached(lines, at, j) <= |lines| && Summarizes(vals.value, lines, Reached(lines, at, j))
      invariant HaveAmounts(lines, at, j)
    {
      vals := ReadBlock(vals.value, lines, at, j);
      HaveNext(lines, at, j);
      if vals.None? { return; }
    }
  }

  method LastAmountIn(lines: seq<Line>, s: Block) returns (val: Option<real>)
    requires s.from <= s.to <= |lines|
    ensures val == LastAmount(lines, s.from, s.to)
  {
    val := None;
    for k := s.from to s.to
      invariant val == LastAmount(lines, s.from, k)
    {
      if lines[k].amount.Some? { val := lines[k].amount; }
    }
  }

  // ----- the check -----

  function LineSum(items: seq<Item>): real {
    if items == [] then 0.0 else LineSum(items[..|items| - 1]) + items[|items| - 1].total
  }

  /** Sum of quantity times unit price. */
  function Value(items: seq<Item>): real {
    if items == [] then 0.0
    else Value(items[..|items| - 1]) + items[|items| - 1].qty * items[|items| - 1].unit
  }

  predicate LineFits(item: Item) { Abs(item.qty * item.unit - item.total) < TOLERANCE }

  /** The printed line total is off by 0.02 or more. */
  predicate IsOff(item: Item) { item.qty * item.unit - item.total >= 0.02 || item.total - item.qty * item.unit >= 0.02 }

  lemma OffDoesNotFit(item: Item)
    ensures IsOff(item) <==> !LineFits(item)
  {
  }

  ghost predicate LinesFit(items: seq<Item>) { forall item :: item in items ==> LineFits(item) }

  lemma LinesFitNext(items: seq<Item>, item: Item)
    ensures LinesFit(items + [item]) <==> LinesFit(items) && LineFits(item)
  {
    assert (items + [item])[|items|] == item && forall x :: x in items ==> x in items + [item];
  }

  predicate Complete(vals: map<Label, real>) { {Subtotal, Discount, Shipping, Tax, TotalDue} <= vals.Keys }

  datatype Checked = Checked(findings: seq<Finding>, missing: bool)

  /** The total that the printed subtotal comes to. */
  function Calculated(vals: map<Label, real>): real
    requires Complete(vals)
  {
    vals[Subtotal] - vals[Discount] + vals[Shipping] + vals[Tax]
  }

  predicate Within(x: real, y: real) { Abs(x - y) < TOLERANCE }

  /** What a check without findings has established. */
  ghost predicate AddsUp(items: seq<Item>, vals: map<Label, real>)
    requires Complete(vals)
  {
    LinesFit(items) && Within(LineSum(items), vals[Subtotal]) && Within(Calculated(vals), vals[TotalDue])
  }

  /** The findings about lines: one for each that does not fit, in order. */
  function LineFindings(items: seq<Item>): (findings: seq<Finding>)
    ensures findings == [] <==> LinesFit(items)
  {
    if items == [] then []
    else
      var init, last := items[..|items| - 1], items[|items| - 1];
      assert items == init + [last];
      LinesFitNext(init, last);
      LineFindings(init) + if LineFits(last) then [] else [BadLine(last)]
  }

  /** The findings about the summary, as far as its labels go. */
  function SummaryFindings(sum: real, vals: map<Label, real>): seq<Finding> {
    (if Subtotal in vals && !Within(sum, vals[Subtotal]) then [BadSubtotal(sum)] else [])
    + (if Complete(vals) && !Within(Calculated(vals), vals[TotalDue]) then [BadTotal(Calculated(vals))] else [])
  }

  /** These are the places of the items that do not fit, in order, and these the findings about them. */
  ghost predicate Reports(at: seq<nat>, items: seq<Item>, findings: seq<Finding>, fits: Item -> bool) {
    && |at| == |findings|
    && (forall k :: 0 <= k < |at| ==> at[k] < |items| && findings[k] == BadLine(items[at[k]]) && !fits(items[at[k]]))
    && (forall j, k :: 0 <= j < k < |at| ==> at[j] < at[k])
    && (forall i: nat :: i < |items| && !fits(items[i]) ==> i in at)
  }

  function Misfits(items: seq<Item>, fits: Item -> bool): seq<Finding> {
    if items == [] then []
    else Misfits(items[..|items| - 1], fits) + if fits(items[|items| - 1]) then [] else [BadLine(items[|items| - 1])]
  }

  lemma ReportsNext(at: seq<nat>, items: seq<Item>, findings: seq<Finding>, item: Item, fits: Item -> bool)
    requires Reports(at, items, findings, fits)
    ensures if fits(item) then Reports(at, items + [item], findings, fits)
      else Reports(at + [|items|], items + [item], findings + [BadLine(item)], fits)
  {
    forall i: nat | i < |items + [item]| && !fits((items + [item])[i]) && i < |items| ensures i in at {
      assert !fits(items[i]);
    }
  }

  lemma {:induction false} MisfitsAre(items: seq<Item>, fits: Item -> bool) returns (at: seq<nat>)
    ensures Reports(at, items, Misfits(items, fits), fits)
    decreases |items|
  {
    at := [];
    if items != [] {
      var init, last := items[..|items| - 1], items[|items| - 1];
      at := MisfitsAre(init, fits);
      ReportsNext(at, init, Misfits(init, fits), last, fits);
      assert items == init + [last];
      if !fits(last) { at := at + [|init|]; }
    }
  }

  lemma {:induction false} LineFindingsAreMisfits(items: seq<Item>)
    ensures LineFindings(items) == Misfits(items, LineFits)
    decreases |items|
  {
    if items != [] { LineFindingsAreMisfits(items[..|items| - 1]); }
  }

  /** The lines that are reported are, in their order, those that do not fit. */
  lemma LineFindingsAre(items: seq<Item>) returns (at: seq<nat>)
    ensures Reports(at, items, LineFindings(items), LineFits)
  {
    at := MisfitsAre(items, LineFits);
    LineFindingsAreMisfits(items);
  }

  lemma LinesNext(items: seq<Item>, item: Item)
    ensures LineSum(items + [item]) == LineSum(items) + item.total
    ensures LineFindings(items + [item]) == LineFindings(items) + if LineFits(item) then [] else [BadLine(item)]
  {
    assert (items + [item])[..|items|] == items;
  }

  method CheckLines(items: seq<Item>) returns (sum: real, findings: seq<Finding>)
    ensures sum == LineSum(items) && findings == LineFindings(items)
  {
    sum, findings := 0.0, [];
    ghost var read: seq<Item> := [];
    for i := 0 to |items|
      invariant read == items[..i] && sum == LineSum(read) && findings == LineFindings(read)
    {
      assert items[..i + 1] == items[..i] + [items[i]];
      LinesNext(read, items[i]);
      read := read + [items[i]];
      sum := sum + items[i].total;
      if !LineFits(items[i]) { findings := findings + [BadLine(items[i])]; }
    }
    assert read == items;
  }

  method CheckSummary(sum: real, vals: map<Label, real>) returns (checked: Checked)
    ensures checked == Checked(SummaryFindings(sum, vals), !Complete(vals))
  {
    if Subtotal !in vals { return Checked([], true); }
    var findings := if Within(sum, vals[Subtotal]) then [] else [BadSubtotal(sum)];
    if !({Discount, Shipping, Tax} <= vals.Keys) || TotalDue !in vals { return Checked(findings, true); }
    var calculated := vals[Subtotal] - vals[Discount] + vals[Shipping] + vals[Tax];
    if !Within(calculated, vals[TotalDue]) { findings := findings + [BadTotal(calculated)]; }
    checked := Checked(findings, false);
  }

  lemma LineFindingsSay(items: seq<Item>)
    ensures forall x :: BadLine(x) in LineFindings(items) <==> x in items && IsOff(x)
    ensures forall f :: f in LineFindings(items) ==> f.BadLine?
  {
    var at := LineFindingsAre(items);
    forall x | x in items && IsOff(x) ensures BadLine(x) in LineFindings(items) {
      OffDoesNotFit(x);
      var i: nat :| i < |items| && items[i] == x;
      assert i in at;
      var k :| 0 <= k < |at| && at[k] == i;
      assert LineFindings(items)[k] == BadLine(x);
    }
    forall f | f in LineFindings(items) ensures f.BadLine? && f.item in items && IsOff(f.item) {
      var k :| 0 <= k < |at| && LineFindings(items)[k] == f;
      assert at[k] in at;
      OffDoesNotFit(f.item);
    }
  }

  lemma FindingsSay(items: seq<Item>, vals: map<Label, real>)
    ensures var findings := SummaryFindings(LineSum(items), vals);
      && (forall x :: BadLine(x) !in findings)
      && (forall x :: BadSubtotal(x) in findings <==> Subtotal in vals && x == LineSum(items) && !(-0.02 < x - vals[Subtotal] < 0.02))
      && (Complete(vals) ==> forall x :: BadTotal(x) in findings <==>
           (x == vals[Subtotal] - vals[Discount] + vals[Shipping] + vals[Tax] && !(-0.02 < x - vals[TotalDue] < 0.02)))
  {
  }

  /** Check an invoice against its summary.  Every line that does not fit is reported, then the subtotal, then
    the total; a label that the summary lacks ends the check with an error. */
  method CheckInvoice(hasTable: bool, items: seq<Item>, summary: Option<map<Label, real>>) returns (checked: Checked)
    ensures !hasTable ==> checked == Checked([], false)
    ensures checked.missing <==> hasTable && summary.Some? && !Complete(summary.value)
    ensures hasTable && summary.None? ==> checked.findings == LineFindings(items)
    ensures hasTable && summary.Some? ==>
      checked.findings == LineFindings(items) + SummaryFindings(LineSum(items), summary.value)
    ensures hasTable ==> forall x :: BadLine(x) in checked.findings <==> x in items && IsOff(x)
    ensures hasTable && summary.Some? ==> forall x ::
      BadSubtotal(x) in checked.findings <==>
        Subtotal in summary.value && x == LineSum(items) && !(-0.02 < x - summary.value[Subtotal] < 0.02)
    ensures hasTable && summary.Some? && Complete(summary.value) ==> forall x, vals | vals == summary.value ::
      BadTotal(x) in checked.findings <==>
        x == vals[Subtotal] - vals[Discount] + vals[Shipping] + vals[Tax] && !(-0.02 < x - vals[TotalDue] < 0.02)
    ensures hasTable && summary.Some? && Complete(summary.value) ==>
      (checked.findings == [] <==> AddsUp(items, summary.value))
  {
    if !hasTable { return Checked([], false); }
    var sum, findings := CheckLines(items);
    LineFindingsSay(items);
    if summary.None? { return Checked(findings, false); }
    var rest := CheckSummary(sum, summary.value);
    FindingsSay(items, summary.value);
    checked := Checked(findings + rest.findings, rest.missing);
  }

  // ----- what it is worth -----

  lemma {:induction false} LinesAreClose(items: seq<Item>)
    requires LinesFit(items)
    ensures items != [] ==> Abs(Value(items) - LineSum(items)) < TOLERANCE * |items| as real
    ensures items == [] ==> Value(items) == LineSum(items)
    decreases |items|
  {
    if items != [] {
      var init, last := items[..|items| - 1], items[|items| - 1];
      assert last in items && forall item :: item in init ==> item in items;
      LinesAreClose(init);
      assert LineFits(last);
    }
  }

  /** A clean invoice of n lines: the printed total is within 0.02 for each line, 0.02 for the subtotal and
    0.02 for the total of what the quantities and unit prices come to. */
  lemma CleanTotal(items: seq<Item>, vals: map<Label, real>)
    requires Complete(vals) && AddsUp(items, vals)
    ensures var due := Value(items) - vals[Discount] + vals[Shipping] + vals[Tax];
      -0.02 * (|items| + 2) as real < due - vals[TotalDue] < 0.02 * (|items| + 2) as real
  {
    LinesAreClose(items);
  }

  /** A line of one unit, printed at one but priced `d` above. */
  function Skewed(d: real): Item { Item(1.0, 1.0 + d, 1.0) }

  function Copies(item: Item, n: nat): (items: seq<Item>)
    ensures |items| == n && forall x :: x in items ==> x == item
  {
    if n == 0 then [] else Copies(item, n - 1) + [item]
  }

  lemma SumsNext(items: seq<Item>, item: Item)
    ensures LineSum(items + [item]) == LineSum(items) + item.total
    ensures Value(items + [item]) == Value(items) + item.qty * item.unit
  {
    assert (items + [item])[..|items|] == items;
  }

  lemma SkewedValue(d: real)
    ensures Skewed(d).qty * Skewed(d).unit == 1.0 + d
  {
  }

  /** `d`, `n` times. */
  function Times(d: real, n: nat): real { if n == 0 then 0.0 else Times(d, n - 1) + d }

  lemma Distribute(d: real, x: real)
    ensures d * (x + 1.0) == d * x + d
  {
  }

  lemma {:induction false} TimesIsProduct(d: real, n: nat)
    ensures Times(d, n) == d * n as real
  {
    if n > 0 {
      var k := (n - 1) as real;
      TimesIsProduct(d, n - 1);
      Distribute(d, k);
      assert n as real == k + 1.0;
    }
  }

  lemma {:induction false} SkewAddsUp(d: real, n: nat)
    ensures Value(Copies(Skewed(d), n)) - LineSum(Copies(Skewed(d), n)) == Times(d, n)
    decreases n
  {
    if n > 0 {
      SkewAddsUp(d, n - 1);
      SumsNext(Copies(Skewed(d), n - 1), Skewed(d));
      SkewedValue(d);
    }
  }

  lemma SkewFits(d: real, n: nat)
    requires 0.0 <= d < TOLERANCE
    ensures LinesFit(Copies(Skewed(d), n))
  {
    assert LineFits(Skewed(d));
    forall x | x in Copies(Skewed(d), n) ensures LineFits(x) {
      assert x == Skewed(d);
    }
  }

  /** A summary that is off by `d` at the subtotal and once more at the total. */
  function SkewedSummary(sum: real, d: real, discount: real, shipping: real, tax: real): map<Label, real> {
    map[
      Subtotal := sum - d, Discount := discount, Shipping := shipping, Tax := tax,
      TotalDue := sum - d - discount + shipping + tax - d]
  }

  lemma SkewedSummaryAddsUp(items: seq<Item>, d: real, discount: real, shipping: real, tax: real)
    requires 0.0 <= d < 0.02 && LinesFit(items)
    ensures var vals := SkewedSummary(LineSum(items), d, discount, shipping, tax);
      && Complete(vals) && AddsUp(items, vals)
      && Value(items) - vals[Discount] + vals[Shipping] + vals[Tax] - vals[TotalDue] == Value(items) - LineSum(items) + 2.0 * d
  {
  }

  /** The bound cannot be improved: for every number of lines, and any discount, shipping and tax, every
    difference below it occurs. */
  lemma CleanTotalIsTight(n: nat, d: real, discount: real, shipping: real, tax: real)
    returns (items: seq<Item>, vals: map<Label, real>)
    requires 0.0 <= d < 0.02
    ensures |items| == n && Complete(vals) && AddsUp(items, vals)
    ensures vals[Discount] == discount && vals[Shipping] == shipping && vals[Tax] == tax
    ensures Value(items) - discount + shipping + tax - vals[TotalDue] == d * (n + 2) as real
  {
    items := Copies(Skewed(d), n);
    vals := SkewedSummary(LineSum(items), d, discount, shipping, tax);
    SkewFits(d, n);
    SkewedSummaryAddsUp(items, d, discount, shipping, tax);
    assert Value(items) - LineSum(items) + 2.0 * d == d * (n + 2) as real by {
      SkewAddsUp(d, n);
      assert Times(d, n + 2) == Times(d, n) + d + d;
      TimesIsProduct(d, n + 2);
    }
  }
}
