/** How a document's lines are cut into blocks: line ranges, each decided by the kinds of its lines. */
module LineRuns {

  datatype LineKind = Blank | SubHeading | PlainHeading | Bar | Item | Text

  /** Lines `from` up to but not including `to`. */
  datatype Span = Span(from: nat, to: nat)

  predicate Inside(s: Span, i: nat) { s.from <= i < s.to }

  ghost predicate Covered(spans: seq<Span>, i: nat) { exists k :: 0 <= k < |spans| && Inside(spans[k], i) }

  ghost predicate InOrder(spans: seq<Span>, end: nat) {
    && (forall k :: 0 <= k < |spans| ==> spans[k].from < spans[k].to <= end)
    && (forall k, l :: 0 <= k < l < |spans| ==> spans[k].to <= spans[l].from)
  }

  /** The ranges are in order, do not overlap and hold exactly the non-blank lines before `end`. */
  ghost predicate Partition(kinds: seq<LineKind>, spans: seq<Span>, end: nat) {
    && end <= |kinds|
    && InOrder(spans, end)
    && (forall i {:trigger Covered(spans, i)} :: 0 <= i < end ==> (kinds[i] != Blank <==> Covered(spans, i)))
  }

  /** A run of lines of one kind that the next line does not continue. */
  ghost predicate WholeRun(kinds: seq<LineKind>, s: Span, kind: LineKind) {
    && s.from < s.to <= |kinds|
    && (forall i :: s.from <= i < s.to ==> kinds[i] == kind)
    && (s.to < |kinds| ==> kinds[s.to] != kind)
  }

  /** Bars and text run on; every other line is a block of its own. */
  ghost predicate BodyShape(kinds: seq<LineKind>, s: Span) {
    && s.from < s.to <= |kinds|
    && kinds[s.from] != Blank
    && (if kinds[s.from] in {Bar, Text} then WholeRun(kinds, s, kinds[s.from]) else s.to == s.from + 1)
  }

  /** The title is line 0; the metadata, if any, runs from line 1 to the body, which starts at `m`. */
  ghost predicate Shape(kinds: seq<LineKind>, m: nat, s: Span) {
    if s.from == 0 then s.to == 1
    else if s.from < m then s == Span(1, m)
    else BodyShape(kinds, s)
  }

  ghost predicate Shaped(kinds: seq<LineKind>, m: nat, spans: seq<Span>) {
    forall k :: 0 <= k < |spans| ==> Shape(kinds, m, spans[k])
  }

  lemma PartitionSkips(kinds: seq<LineKind>, spans: seq<Span>, end: nat)
    requires Partition(kinds, spans, end) && end < |kinds| && kinds[end] == Blank
    ensures Partition(kinds, spans, end + 1)
  {
  }

  lemma PartitionGrows(kinds: seq<LineKind>, spans: seq<Span>, s: Span)
    requires Partition(kinds, spans, s.from) && s.from < s.to <= |kinds|
    requires forall i :: s.from <= i < s.to ==> kinds[i] != Blank
    ensures Partition(kinds, spans + [s], s.to)
  {
    var more := spans + [s];
    forall i | 0 <= i < s.to ensures kinds[i] != Blank <==> Covered(more, i) {
      if i < s.from {
        if Covered(spans, i) {
          var k :| 0 <= k < |spans| && Inside(spans[k], i);
          assert Inside(more[k], i);
        }
        if Covered(more, i) {
          var k :| 0 <= k < |more| && Inside(more[k], i);
          assert Inside(spans[k], i);
        }
      } else {
        assert Inside(more[|spans|], i);
      }
    }
  }

  // ----- one reading only -----

  /** Some block of one cut starts no later than, and reaches into, any block of another. */
  lemma Meets(kinds: seq<LineKind>, a: seq<Span>, b: seq<Span>, k: nat) returns (l: nat)
    requires Partition(kinds, a, |kinds|) && Partition(kinds, b, |kinds|) && k < |b|
    ensures l < |a| && Inside(a[l], b[k].from)
  {
    assert Inside(b[k], b[k].from) && Covered(b, b[k].from);
    assert Covered(a, b[k].from);
    l :| 0 <= l < |a| && Inside(a[l], b[k].from);
  }

  lemma SameStart(kinds: seq<LineKind>, a: seq<Span>, b: seq<Span>, k: nat)
    requires Partition(kinds, a, |kinds|) && Partition(kinds, b, |kinds|)
    requires k < |a| && k < |b| && forall i :: 0 <= i < k ==> a[i] == b[i]
    ensures a[k].from <= b[k].from
  {
    var l := Meets(kinds, a, b, k);
  }

  lemma NoMore(kinds: seq<LineKind>, a: seq<Span>, b: seq<Span>)
    requires Partition(kinds, a, |kinds|) && Partition(kinds, b, |kinds|)
    requires forall i :: 0 <= i < |a| && i < |b| ==> a[i] == b[i]
    ensures |b| <= |a|
  {
    if |a| < |b| {
      var l := Meets(kinds, a, b, |a|);
    }
  }

  lemma SameShape(kinds: seq<LineKind>, m: nat, s: Span, t: Span)
    requires s.from == t.from && Shape(kinds, m, s) && Shape(kinds, m, t)
    ensures s == t
  {
  }

  /** What decides how a document is cut: the kinds of its lines, and where its body starts. */
  datatype Outline = Outline(kinds: seq<LineKind>, body: nat)

  /** A complete cut. */
  ghost predicate Cut(o: Outline, spans: seq<Span>) {
    match o
    case Outline(kinds, body) => Partition(kinds, spans, |kinds|) && Shaped(kinds, body, spans)
  }

  lemma SameNext(o: Outline, a: seq<Span>, b: seq<Span>, k: nat)
    requires Cut(o, a) && Cut(o, b) && k < |a| && k < |b| && forall i :: 0 <= i < k ==> a[i] == b[i]
    ensures a[k] == b[k]
  {
    var s, t := a[k], b[k];
    assert Shape(o.kinds, o.body, s) && Shape(o.kinds, o.body, t);
    assert s.from == t.from by {
      SameStart(o.kinds, a, b, k);
      SameStart(o.kinds, b, a, k);
    }
    SameShape(o.kinds, o.body, s, t);
  }

  lemma {:induction false} SamePrefix(o: Outline, a: seq<Span>, b: seq<Span>, k: nat)
    requires Cut(o, a) && Cut(o, b) && k <= |a| && k <= |b|
    ensures forall i :: 0 <= i < k ==> a[i] == b[i]
  {
    if k > 0 {
      SamePrefix(o, a, b, k - 1);
      SameNext(o, a, b, k - 1);
    }
  }

  /** The outline leaves one way to cut a document. */
  lemma CutUnique(o: Outline, a: seq<Span>, b: seq<Span>)
    requires Cut(o, a) && Cut(o, b)
    ensures a == b
  {
    SamePrefix(o, a, b, if |a| <= |b| then |a| else |b|);
    NoMore(o.kinds, a, b);
    NoMore(o.kinds, b, a);
  }

  // ----- tables -----

  /** A maximal run of table lines in the body. */
  ghost predicate TableRun(kinds: seq<LineKind>, m: nat, s: Span) {
    m <= s.from && WholeRun(kinds, s, Bar) && (s.from == m || kinds[s.from - 1] != Bar)
  }

  /** Every run that ends by `end` fits. */
  ghost predicate TablesFit(kinds: seq<LineKind>, m: nat, end: nat, fits: Span -> bool) {
    forall s :: TableRun(kinds, m, s) && s.to <= end ==> fits(s)
  }

  /** No run of bars straddles `end`. */
  ghost predicate Boundary(kinds: seq<LineKind>, m: nat, end: nat) {
    m <= end <= |kinds| && (end == m || end == |kinds| || kinds[end - 1] != Bar || kinds[end] != Bar)
  }

  lemma TablesFitSkips(kinds: seq<LineKind>, m: nat, end: nat, next: nat, fits: Span -> bool)
    requires TablesFit(kinds, m, end, fits) && Boundary(kinds, m, end) && end <= next <= |kinds|
    requires forall i :: end <= i < next ==> kinds[i] != Bar
    ensures TablesFit(kinds, m, next, fits) && Boundary(kinds, m, next)
  {
    forall s | TableRun(kinds, m, s) && s.to <= next ensures fits(s) {
      assert kinds[s.to - 1] == Bar;
    }
  }

  lemma TablesFitGrows(kinds: seq<LineKind>, m: nat, s: Span, fits: Span -> bool)
    requires TablesFit(kinds, m, s.from, fits) && Boundary(kinds, m, s.from) && WholeRun(kinds, s, Bar)
    ensures TableRun(kinds, m, s)
    ensures fits(s) ==> TablesFit(kinds, m, s.to, fits) && Boundary(kinds, m, s.to)
  {
    assert kinds[s.from] == Bar;
    forall t | TableRun(kinds, m, t) && s.from < t.to <= s.to ensures t == s {
    }
  }

  lemma NoBarAfterBar(kinds: seq<LineKind>, s: Span)
    requires BodyShape(kinds, s) && s.to < |kinds|
    ensures kinds[s.to] == Bar ==> kinds[s.to - 1] != Bar
  {
  }

  /** The block that ends where another one starts, if the line before is not blank. */
  lemma BlockBefore(kinds: seq<LineKind>, m: nat, spans: seq<Span>, k: nat) returns (t: Span)
    requires 1 <= m && Partition(kinds, spans, |kinds|) && Shaped(kinds, m, spans)
    requires k < |spans| && m < spans[k].from && kinds[spans[k].from - 1] != Blank
    ensures BodyShape(kinds, t) && t.to == spans[k].from
  {
    assert Covered(spans, spans[k].from - 1);
    var l :| 0 <= l < |spans| && Inside(spans[l], spans[k].from - 1);
    t := spans[l];
    assert Shape(kinds, m, t);
    assert l < k;
  }

  /** A table block is a maximal run: nothing of it was left to the block before. */
  lemma BarSpanIsTableRun(kinds: seq<LineKind>, m: nat, spans: seq<Span>, k: nat)
    requires 1 <= m && Partition(kinds, spans, |kinds|) && Shaped(kinds, m, spans)
    requires k < |spans| && m <= spans[k].from && kinds[spans[k].from] == Bar
    ensures TableRun(kinds, m, spans[k])
  {
    assert Shape(kinds, m, spans[k]);
    if m < spans[k].from && kinds[spans[k].from - 1] != Blank {
      var t := BlockBefore(kinds, m, spans, k);
      NoBarAfterBar(kinds, t);
    }
  }

  lemma TableBlockFits(kinds: seq<LineKind>, m: nat, spans: seq<Span>, k: nat, fits: Span -> bool)
    requires 1 <= m && Partition(kinds, spans, |kinds|) && Shaped(kinds, m, spans) && TablesFit(kinds, m, |kinds|, fits)
    requires k < |spans| && m <= spans[k].from && kinds[spans[k].from] == Bar
    ensures fits(spans[k])
  {
    BarSpanIsTableRun(kinds, m, spans, k);
  }

  // ----- reading on -----

  /** The state of a reader that has passed `end`. */
  ghost predicate Reading(kinds: seq<LineKind>, m: nat, spans: seq<Span>, end: nat, fits: Span -> bool) {
    && Partition(kinds, spans, end)
    && Shaped(kinds, m, spans)
    && TablesFit(kinds, m, end, fits)
    && Boundary(kinds, m, end)
  }

  lemma ReadingStarts(kinds: seq<LineKind>, m: nat, spans: seq<Span>, fits: Span -> bool)
    requires 1 <= m <= |kinds| && forall i :: 0 <= i < m ==> kinds[i] != Blank
    requires spans == if m == 1 then [Span(0, 1)] else [Span(0, 1), Span(1, m)]
    ensures Reading(kinds, m, spans, m, fits)
  {
    PartitionGrows(kinds, [], Span(0, 1));
    assert [] + [Span(0, 1)] == [Span(0, 1)];
    if m > 1 {
      PartitionGrows(kinds, [Span(0, 1)], Span(1, m));
      assert [Span(0, 1)] + [Span(1, m)] == spans;
    }
  }

  lemma ReadingSkips(kinds: seq<LineKind>, m: nat, spans: seq<Span>, end: nat, fits: Span -> bool)
    requires Reading(kinds, m, spans, end, fits) && end < |kinds| && kinds[end] == Blank
    ensures Reading(kinds, m, spans, end + 1, fits)
  {
    PartitionSkips(kinds, spans, end);
    TablesFitSkips(kinds, m, end, end + 1, fits);
  }

  lemma ShapedGrows(kinds: seq<LineKind>, m: nat, spans: seq<Span>, s: Span)
    requires Shaped(kinds, m, spans) && 1 <= m <= s.from && BodyShape(kinds, s)
    ensures Shaped(kinds, m, spans + [s])
  {
  }

  lemma TablesFitNext(kinds: seq<LineKind>, m: nat, s: Span, fits: Span -> bool)
    requires TablesFit(kinds, m, s.from, fits) && Boundary(kinds, m, s.from) && BodyShape(kinds, s)
    requires kinds[s.from] == Bar ==> fits(s)
    ensures TablesFit(kinds, m, s.to, fits) && Boundary(kinds, m, s.to)
  {
    if kinds[s.from] == Bar {
      TablesFitGrows(kinds, m, s, fits);
    } else {
      TablesFitSkips(kinds, m, s.from, s.to, fits);
    }
  }

  lemma ReadingGrows(kinds: seq<LineKind>, m: nat, spans: seq<Span>, s: Span, fits: Span -> bool)
    requires 1 <= m && Reading(kinds, m, spans, s.from, fits) && BodyShape(kinds, s)
    requires kinds[s.from] == Bar ==> fits(s)
    ensures Reading(kinds, m, spans + [s], s.to, fits)
  {
    TablesFitNext(kinds, m, s, fits);
    ShapedGrows(kinds, m, spans, s);
    PartitionGrows(kinds, spans, s);
  }
}
