/** What the Markdown reader makes of a whole document that was rendered from its parts: the very same parts. */
module MarkdownDocuments {
  import opened SourceText
  import opened LineRuns
  import opened MarkdownBlocks
  import opened MarkdownRoundTrip

  datatype Field = Field(name: string, value: string)

  /** An element, and whether a blank line comes before it. */
  datatype Piece = Piece(gap: bool, element: Element)

  datatype Document = Document(prefix: string, title: string, fields: seq<Field>, pieces: seq<Piece>)

  /** Lines of this kind run on into lines of the same kind. */
  predicate RunsOn(kind: LineKind) { kind == Bar || kind == Text }

  ghost predicate ProperDocument(d: Document) {
    && Trimmed(d.prefix) && Trimmed(d.title) && d.title != "" && ':' !in d.prefix && (d.prefix == "" ==> ':' !in d.title)
    && (forall f :: f in d.fields ==> Trimmed(f.name) && Trimmed(f.value) && ':' !in f.name)
    && (forall k :: 0 <= k < |d.pieces| ==> Proper(d.pieces[k].element) && (d.pieces[k].gap || MayFollow(d, k)))
  }

  /** Piece `k` needs no blank line before it: it is not the first, and does not continue the one before. */
  predicate MayFollow(d: Document, k: nat)
    requires k < |d.pieces|
  {
    k > 0 && !(RunsOn(KindFor(d.pieces[k].element)) && KindFor(d.pieces[k - 1].element) == KindFor(d.pieces[k].element))
  }

  function FieldLines(fields: seq<Field>): (lines: seq<string>)
    ensures |lines| == |fields| && forall i :: 0 <= i < |fields| ==> lines[i] == FieldLine(fields[i].name, fields[i].value)
  {
    seq(|fields|, i requires 0 <= i < |fields| => FieldLine(fields[i].name, fields[i].value))
  }

  function GapLines(gap: bool): seq<string> { if gap then [""] else [] }

  /** The elements, with or without blank lines between them. */
  function BodyLines(pieces: seq<Piece>): seq<string> {
    if pieces == [] then []
    else BodyLines(pieces[..|pieces| - 1]) + GapLines(pieces[|pieces| - 1].gap) + Render(pieces[|pieces| - 1].element)
  }

  function LinesOf(d: Document): (lines: seq<string>)
    ensures lines != []
  {
    Head(d) + BodyLines(d.pieces)
  }

  function FieldTable(fields: seq<Field>): (rows: Rows)
    ensures |rows| == |fields| + 1
  {
    [["Field", "Value"]] + seq(|fields|, i requires 0 <= i < |fields| => [fields[i].name, fields[i].value])
  }

  function PieceBlocks(pieces: seq<Piece>): (blocks: seq<RawBlock>)
    ensures |blocks| == |pieces| && forall i :: 0 <= i < |pieces| ==> blocks[i] == BlockFor(pieces[i].element)
  {
    seq(|pieces|, i requires 0 <= i < |pieces| => BlockFor(pieces[i].element))
  }

  /** The title and, if there is metadata, its table. */
  function OpeningBlocks(d: Document): seq<RawBlock> {
    [Prose(Title, d.title)]
    + if d.fields == [] then [] else [TableBlock(Join(Flat(FieldTable(d.fields)), " | "), FieldTable(d.fields))]
  }

  /** The blocks that a document is to be read as. */
  function BlocksOf(d: Document): seq<RawBlock> { OpeningBlocks(d) + PieceBlocks(d.pieces) }

  lemma {:induction false} BodyPrefix(pieces: seq<Piece>, k: nat)
    requires k <= |pieces|
    ensures BodyLines(pieces[..k]) <= BodyLines(pieces)
    decreases |pieces|
  {
    if k == |pieces| {
      assert pieces[..k] == pieces;
    } else {
      var init := pieces[..|pieces| - 1];
      BodyPrefix(init, k);
      assert init[..k] == pieces[..k];
    }
  }

  /** Where piece `k` begins, and where its element does. */
  function At(d: Document, k: nat): nat
    requires k <= |d.pieces|
  {
    1 + |d.fields| + |BodyLines(d.pieces[..k])|
  }

  function From(d: Document, k: nat): nat
    requires k < |d.pieces|
  {
    At(d, k) + if d.pieces[k].gap then 1 else 0
  }

  lemma BodyNext(pieces: seq<Piece>, k: nat)
    requires k < |pieces|
    ensures BodyLines(pieces[..k + 1]) == BodyLines(pieces[..k]) + GapLines(pieces[k].gap) + Render(pieces[k].element)
  {
    assert pieces[..k + 1][..k] == pieces[..k];
  }

  lemma SliceOf(head: seq<string>, a: seq<string>, gap: seq<string>, run: seq<string>, all: seq<string>, lines: seq<string>, at: nat, from: nat)
    requires a + gap + run <= all && lines == head + all && at == |head| + |a| && from == at + |gap|
    ensures from + |run| <= |lines| && lines[at..from] == gap && lines[from..from + |run|] == run
  {
    var part := a + gap + run;
    assert forall i :: 0 <= i < |part| ==> lines[|head| + i] == part[i];
    assert forall i :: 0 <= i < |gap| ==> part[|a| + i] == gap[i];
    assert forall i :: 0 <= i < |run| ==> part[|a| + |gap| + i] == run[i];
  }

  function Head(d: Document): (head: seq<string>)
    ensures |head| == 1 + |d.fields|
  {
    [TitleLine(d.prefix, d.title)] + FieldLines(d.fields)
  }

  lemma PieceAt(d: Document, k: nat)
    requires k < |d.pieces|
    ensures var lines, from, n := LinesOf(d), From(d, k), |Render(d.pieces[k].element)|;
      && At(d, k + 1) == from + n <= |lines|
      && lines[At(d, k)..from] == GapLines(d.pieces[k].gap) && lines[from..from + n] == Render(d.pieces[k].element)
  {
    var a, gap, run := BodyLines(d.pieces[..k]), GapLines(d.pieces[k].gap), Render(d.pieces[k].element);
    assert BodyLines(d.pieces[..k + 1]) == a + gap + run by { BodyNext(d.pieces, k); }
    assert a + gap + run <= BodyLines(d.pieces) by { BodyPrefix(d.pieces, k + 1); }
    SliceOf(Head(d), a, gap, run, BodyLines(d.pieces), LinesOf(d), At(d, k), From(d, k));
  }

  lemma GapAt(d: Document, k: nat)
    requires k < |d.pieces| && d.pieces[k].gap
    ensures At(d, k) < |LinesOf(d)| && LinesOf(d)[At(d, k)] == ""
  {
    PieceAt(d, k);
    assert LinesOf(d)[At(d, k)..From(d, k)][0] == "";
  }

  lemma {:induction false} FieldsEnd(lines: seq<string>, kinds: seq<LineKind>, i: nat, m: nat)
    requires i <= m <= |lines| == |kinds| && (m < |lines| ==> kinds[m] == Blank)
    requires forall j :: i <= j < m ==> kinds[j] != Blank && HasColon(lines[j])
    ensures EndOfFields(lines, kinds, i) == m
    decreases m - i
  {
    if i < m { FieldsEnd(lines, kinds, i + 1, m); }
  }

  /** The metadata ends, after the title, before the first line that is blank or has no colon. */
  lemma BodyStartExactlyWhen(lines: seq<string>, m: nat)
    requires lines != []
    ensures m == BodyStart(lines) <==>
      && 1 <= m <= |lines|
      && (forall j :: 1 <= j < m ==> Strip(lines[j]) != [] && ':' in lines[j])
      && (m < |lines| ==> Strip(lines[m]) == [] || ':' !in lines[m])
  {
    forall j | 0 <= j < |lines|
      ensures (Kinds(lines)[j] == Blank <==> Strip(lines[j]) == []) && (HasColon(lines[j]) <==> ':' in lines[j])
    {
      KindsAt(lines, j);
      BlankLine(lines[j]);
      IndexNone(lines[j], ':');
    }
    FieldsEndAt(lines, Kinds(lines), 1);
  }

  lemma {:induction false} FieldsEndAt(lines: seq<string>, kinds: seq<LineKind>, i: nat)
    requires i <= |lines| == |kinds|
    ensures var m := EndOfFields(lines, kinds, i);
      && (forall j :: i <= j < m ==> kinds[j] != Blank && HasColon(lines[j]))
      && (m < |lines| ==> kinds[m] == Blank || !HasColon(lines[m]))
    decreases |lines| - i
  {
    if i < |lines| && kinds[i] != Blank && HasColon(lines[i]) { FieldsEndAt(lines, kinds, i + 1); }
  }

  lemma BlankLine(line: string)
    ensures KindOf(line) == Blank <==> Strip(line) == []
  {
  }

  lemma FieldIsField(d: Document, j: nat)
    requires ProperDocument(d) && 1 <= j < 1 + |d.fields|
    ensures Kinds(LinesOf(d))[j] != Blank && HasColon(LinesOf(d)[j])
  {
    var f := d.fields[j - 1];
    assert f in d.fields && LinesOf(d)[j] == FieldLine(f.name, f.value);
    FieldReads(f.name, f.value);
    KindsAt(LinesOf(d), j);
    BlankLine(LinesOf(d)[j]);
  }

  lemma BodyIsBlank(d: Document)
    requires d.pieces != [] ==> d.pieces[0].gap
    ensures var m := 1 + |d.fields|; m <= |LinesOf(d)| && (m < |LinesOf(d)| ==> Kinds(LinesOf(d))[m] == Blank)
  {
    if d.pieces != [] {
      GapAt(d, 0);
      assert d.pieces[..0] == [];
      EmptyIsBlank(LinesOf(d), 1 + |d.fields|);
    }
  }

  lemma EmptyIsBlank(lines: seq<string>, i: nat)
    requires i < |lines| && lines[i] == ""
    ensures Kinds(lines)[i] == Blank
  {
    KindsAt(lines, i);
    BlankLine("");
  }

  /** The body starts after the metadata. */
  lemma BodyStartIs(d: Document)
    requires ProperDocument(d)
    ensures BodyStart(LinesOf(d)) == 1 + |d.fields| && Kinds(LinesOf(d))[0] != Blank
  {
    var lines, m := LinesOf(d), 1 + |d.fields|;
    forall j | 1 <= j < m ensures Kinds(lines)[j] != Blank && HasColon(lines[j]) { FieldIsField(d, j); }
    BodyIsBlank(d);
    FieldsEnd(lines, Kinds(lines), 1, m);
    TitleReads(d.prefix, d.title);
    KindsAt(lines, 0);
    BlankLine(lines[0]);
  }

  lemma {:induction false} FieldRowsAt(lines: seq<string>, i: nat)
    requires i < |lines|
    ensures FieldRows(lines)[i + 1] == FieldOf(lines[i])
    decreases |lines|
  {
    if i < |lines| - 1 { FieldRowsAt(lines[..|lines| - 1], i); }
  }

  lemma {:induction false} FieldRowsHeader(lines: seq<string>)
    ensures FieldRows(lines)[0] == ["Field", "Value"]
    decreases |lines|
  {
    if lines != [] { FieldRowsHeader(lines[..|lines| - 1]); }
  }

  lemma FieldRowIs(fields: seq<Field>, i: nat)
    requires i < |fields| && Trimmed(fields[i].name) && Trimmed(fields[i].value) && ':' !in fields[i].name
    ensures FieldRows(FieldLines(fields))[i + 1] == [fields[i].name, fields[i].value]
  {
    FieldRowsAt(FieldLines(fields), i);
    FieldReads(fields[i].name, fields[i].value);
  }

  lemma FieldRowsAre(fields: seq<Field>)
    requires forall f :: f in fields ==> Trimmed(f.name) && Trimmed(f.value) && ':' !in f.name
    ensures FieldRows(FieldLines(fields)) == FieldTable(fields)
  {
    FieldRowsHeader(FieldLines(fields));
    forall k | 1 <= k <= |fields| ensures FieldRows(FieldLines(fields))[k] == FieldTable(fields)[k] {
      assert fields[k - 1] in fields;
      FieldRowIs(fields, k - 1);
    }
  }

  // ----- where everything stands -----

  lemma FieldTableText(fields: seq<Field>)
    ensures TableOf(FieldTable(fields)) == TableBlock(Join(Flat(FieldTable(fields)), " | "), FieldTable(fields))
  {
    TableText(FieldTable(fields));
  }

  function Map<T, U>(f: T -> U, s: seq<T>): (m: seq<U>)
    ensures |m| == |s|
  {
    seq(|s|, i requires 0 <= i < |s| => f(s[i]))
  }

  lemma MapSlice<T, U>(f: T -> U, s: seq<T>, from: nat, to: nat)
    requires from <= to <= |s|
    ensures Map(f, s)[from..to] == Map(f, s[from..to])
  {
  }

  lemma KindsAreMapped(lines: seq<string>)
    ensures Kinds(lines) == Map(KindOf, lines)
  {
    forall i | 0 <= i < |lines| ensures Kinds(lines)[i] == Map(KindOf, lines)[i] { KindsAt(lines, i); }
  }

  lemma KindsSlice(lines: seq<string>, s: Span)
    requires s.from <= s.to <= |lines|
    ensures Kinds(lines)[s.from..s.to] == Kinds(lines[s.from..s.to])
  {
    KindsAreMapped(lines);
    KindsAreMapped(lines[s.from..s.to]);
    MapSlice(KindOf, lines, s.from, s.to);
  }

  lemma SliceOfOneKind(kinds: seq<LineKind>, s: Span, run: seq<LineKind>, kind: LineKind)
    requires s.from <= s.to <= |kinds| && kinds[s.from..s.to] == run && forall i :: 0 <= i < |run| ==> run[i] == kind
    ensures forall i :: s.from <= i < s.to ==> kinds[i] == kind
  {
    forall i | s.from <= i < s.to ensures kinds[i] == kind { assert kinds[i] == run[i - s.from]; }
  }

  lemma KindsOfRun(lines: seq<string>, s: Span, run: seq<string>, kind: LineKind)
    requires s.from <= s.to <= |lines| && lines[s.from..s.to] == run && AllOf(run, kind)
    ensures forall i :: s.from <= i < s.to ==> Kinds(lines)[i] == kind
  {
    KindsSlice(lines, s);
    SliceOfOneKind(Kinds(lines), s, Kinds(run), kind);
  }

  lemma AtEnd(d: Document)
    ensures At(d, |d.pieces|) == |LinesOf(d)|
  {
    assert d.pieces[..|d.pieces|] == d.pieces;
  }

  lemma OneLineEach(e: Element)
    ensures !RunsOn(KindFor(e)) ==> |Render(e)| == 1
  {
  }

  /** A run of lines of one kind that does not run on. */
  lemma RunShape(kinds: seq<LineKind>, s: Span, kind: LineKind)
    requires s.from < s.to <= |kinds| && kind != Blank && forall i :: s.from <= i < s.to ==> kinds[i] == kind
    requires (s.to < |kinds| ==> kinds[s.to] != kind || !RunsOn(kind)) && (!RunsOn(kind) ==> s.to == s.from + 1)
    ensures BodyShape(kinds, s) && kinds[s.from] == kind
  {
  }

  /** Lines that are read as this block, and whose table, if they are one, is a rectangle. */
  ghost predicate IsRunOf(run: seq<string>, kind: LineKind, block: RawBlock) {
    run != [] && BodyText(kind, run) == block && (kind == Bar ==> Rectangular(RowsOf(Stripped(run))))
  }

  lemma ElementMakes(e: Element)
    requires Proper(e)
    ensures Render(e) != [] && AllOf(Render(e), KindFor(e)) && KindFor(e) != Blank
    ensures IsRunOf(Render(e), KindFor(e), BlockFor(e))
  {
    ElementReads(e);
    if KindFor(e) == Bar { BodyTableIsBar(Bar, Render(e)); }
  }

  /** An element stands on these lines, and does not run on behind them. */
  ghost predicate Stands(lines: seq<string>, s: Span, e: Element) {
    && s.from < s.to <= |lines| && lines[s.from..s.to] == Render(e)
    && (s.to < |lines| ==> Kinds(lines)[s.to] != KindFor(e) || !RunsOn(KindFor(e)))
  }

  lemma ShapeAt(lines: seq<string>, s: Span, e: Element)
    requires Stands(lines, s, e) && AllOf(Render(e), KindFor(e)) && KindFor(e) != Blank
    ensures BodyShape(Kinds(lines), s) && Kinds(lines)[s.from] == KindFor(e)
  {
    OneLineEach(e);
    KindsOfRun(lines, s, Render(e), KindFor(e));
    RunShape(Kinds(lines), s, KindFor(e));
  }

  lemma TextAt(lines: seq<string>, s: Span, run: seq<string>, kind: LineKind, block: RawBlock)
    requires s.from < s.to <= |lines| && lines[s.from..s.to] == run && Kinds(lines)[s.from] == kind && IsRunOf(run, kind, block)
    ensures block == BodyText(Kinds(lines)[s.from], lines[s.from..s.to])
    ensures Kinds(lines)[s.from] == Bar ==> Fits(lines)(s)
  {
  }

  /** What the reader must find at a run of lines, for this element. */
  ghost predicate Placed(lines: seq<string>, s: Span, e: Element) {
    && s.from < s.to <= |lines| && BodyShape(Kinds(lines), s)
    && BodyText(Kinds(lines)[s.from], lines[s.from..s.to]) == BlockFor(e)
    && (Kinds(lines)[s.from] == Bar ==> Fits(lines)(s))
  }

  lemma StandsPlaced(lines: seq<string>, s: Span, e: Element)
    requires Proper(e) && Stands(lines, s, e)
    ensures Placed(lines, s, e)
  {
    ElementMakes(e);
    ShapeAt(lines, s, e);
    TextAt(lines, s, Render(e), KindFor(e), BlockFor(e));
  }

  lemma ElementKinds(d: Document, k: nat)
    requires k < |d.pieces| && Proper(d.pieces[k].element)
    ensures From(d, k) < At(d, k + 1) <= |LinesOf(d)|
    ensures Kinds(LinesOf(d))[From(d, k)] == KindFor(d.pieces[k].element)
  {
    PieceAt(d, k);
    assert Render(d.pieces[k].element) != [] && AllOf(Render(d.pieces[k].element), KindFor(d.pieces[k].element)) by {
      ElementMakes(d.pieces[k].element);
    }
    KindsOfRun(LinesOf(d), Span(From(d, k), At(d, k + 1)), Render(d.pieces[k].element), KindFor(d.pieces[k].element));
  }

  lemma GapIsBlank(d: Document, k: nat)
    requires k < |d.pieces| && d.pieces[k].gap
    ensures At(d, k) < |LinesOf(d)| && Kinds(LinesOf(d))[At(d, k)] == Blank
  {
    GapAt(d, k);
    EmptyIsBlank(LinesOf(d), At(d, k));
  }

  /** A piece starts with a blank line or with a line of its kind. */
  lemma FirstLine(d: Document, k: nat)
    requires ProperDocument(d) && k < |d.pieces|
    ensures At(d, k) < |LinesOf(d)|
    ensures Kinds(LinesOf(d))[At(d, k)] == if d.pieces[k].gap then Blank else KindFor(d.pieces[k].element)
  {
    var e := d.pieces[k].element;
    assert Proper(e);
    if d.pieces[k].gap {
      GapIsBlank(d, k);
    } else {
      assert From(d, k) == At(d, k);
      assert Kinds(LinesOf(d))[From(d, k)] == KindFor(e) by { ElementKinds(d, k); }
    }
  }

  lemma DoesNotRunOn(d: Document, k: nat)
    requires ProperDocument(d) && k < |d.pieces| && At(d, k + 1) < |LinesOf(d)| && KindFor(d.pieces[k].element) != Blank
    ensures Kinds(LinesOf(d))[At(d, k + 1)] != KindFor(d.pieces[k].element) || !RunsOn(KindFor(d.pieces[k].element))
  {
    if k + 1 == |d.pieces| {
      AtEnd(d);
    } else {
      FirstLine(d, k + 1);
      assert d.pieces[k + 1].gap || MayFollow(d, k + 1);
    }
  }

  lemma PieceStands(d: Document, k: nat)
    requires ProperDocument(d) && k < |d.pieces| && Render(d.pieces[k].element) != [] && KindFor(d.pieces[k].element) != Blank
    ensures Stands(LinesOf(d), Span(From(d, k), At(d, k + 1)), d.pieces[k].element)
  {
    PieceAt(d, k);
    if At(d, k + 1) < |LinesOf(d)| { DoesNotRunOn(d, k); }
  }

  lemma PiecePlaced(d: Document, k: nat)
    requires ProperDocument(d) && k < |d.pieces|
    ensures Placed(LinesOf(d), Span(From(d, k), At(d, k + 1)), d.pieces[k].element)
  {
    assert Render(d.pieces[k].element) != [] && KindFor(d.pieces[k].element) != Blank by { ElementMakes(d.pieces[k].element); }
    PieceStands(d, k);
    StandsPlaced(LinesOf(d), Span(From(d, k), At(d, k + 1)), d.pieces[k].element);
  }

  // ----- reading a rendered document -----

  function PieceSpans(d: Document): (spans: seq<Span>)
    ensures |spans| == |d.pieces| && forall j :: 0 <= j < |spans| ==> spans[j] == Span(From(d, j), At(d, j + 1))
  {
    seq(|d.pieces|, j requires 0 <= j < |d.pieces| => Span(From(d, j), At(d, j + 1)))
  }

  /** A block that comes next, or after one blank line. */
  ghost predicate Next(kinds: seq<LineKind>, end: nat, s: Span, fits: Span -> bool) {
    && (s.from == end || (s.from == end + 1 && end < |kinds| && kinds[end] == Blank))
    && BodyShape(kinds, s) && (kinds[s.from] == Bar ==> fits(s))
  }

  /** Such blocks, the first after `end`. */
  ghost predicate Chained(kinds: seq<LineKind>, end: nat, q: seq<Span>, fits: Span -> bool)
    decreases |q|
  {
    q == [] || (Next(kinds, end, q[0], fits) && Chained(kinds, q[0].to, q[1..], fits))
  }

  function EndOf(end: nat, q: seq<Span>): nat
    decreases |q|
  {
    if q == [] then end else EndOf(q[0].to, q[1..])
  }

  lemma NextIsRead(kinds: seq<LineKind>, m: nat, before: seq<Span>, end: nat, s: Span, fits: Span -> bool)
    requires 1 <= m && Reading(kinds, m, before, end, fits) && Next(kinds, end, s, fits)
    ensures Reading(kinds, m, before + [s], s.to, fits)
  {
    if s.from == end + 1 { ReadingSkips(kinds, m, before, end, fits); }
    ReadingGrows(kinds, m, before, s, fits);
  }

  /** Such blocks are cut one after the other. */
  lemma {:induction false} SpansAreRead(kinds: seq<LineKind>, m: nat, before: seq<Span>, end: nat, q: seq<Span>, fits: Span -> bool)
    requires 1 <= m && Reading(kinds, m, before, end, fits) && Chained(kinds, end, q, fits)
    ensures Reading(kinds, m, before + q, EndOf(end, q), fits)
    decreases |q|
  {
    if q == [] {
      assert before + q == before;
    } else {
      NextIsRead(kinds, m, before, end, q[0], fits);
      SpansAreRead(kinds, m, before + [q[0]], q[0].to, q[1..], fits);
      assert before + [q[0]] + q[1..] == before + q;
    }
  }

  lemma FaithfulJoins(lines: seq<string>, a: seq<RawBlock>, p: seq<Span>, b: seq<RawBlock>, q: seq<Span>)
    requires Faithful(lines, a, p) && Faithful(lines, b, q)
    ensures Faithful(lines, a + b, p + q)
  {
  }

  function OpeningSpans(d: Document): seq<Span> { [Span(0, 1)] + if d.fields == [] then [] else [Span(1, 1 + |d.fields|)] }

  lemma FieldsBlock(d: Document)
    requires ProperDocument(d)
    ensures TableOf(FieldRows(LinesOf(d)[1..1 + |d.fields|])) == TableBlock(Join(Flat(FieldTable(d.fields)), " | "), FieldTable(d.fields))
  {
    assert LinesOf(d)[1..1 + |d.fields|] == FieldLines(d.fields);
    FieldRowsAre(d.fields);
    FieldTableText(d.fields);
  }

  lemma OpeningSays(lines: seq<string>, m: nat, title: RawBlock, table: RawBlock)
    requires lines != [] && m == BodyStart(lines) && title == Prose(Title, TitleOf(lines[0]))
    requires m > 1 ==> table == TableOf(FieldRows(lines[1..m]))
    ensures Faithful(lines, [title] + if m > 1 then [table] else [], [Span(0, 1)] + if m > 1 then [Span(1, m)] else [])
  {
    OpeningFaithful(lines, m);
    assert [title] + [] == [title] && [Span(0, 1)] + [] == [Span(0, 1)];
  }

  lemma OpeningIsFaithful(d: Document)
    requires ProperDocument(d)
    ensures Faithful(LinesOf(d), OpeningBlocks(d), OpeningSpans(d))
  {
    var m, title, table := 1 + |d.fields|, Prose(Title, d.title), TableBlock(Join(Flat(FieldTable(d.fields)), " | "), FieldTable(d.fields));
    assert TitleOf(LinesOf(d)[0]) == d.title by { TitleReads(d.prefix, d.title); }
    assert BodyStart(LinesOf(d)) == m by { BodyStartIs(d); }
    assert m > 1 ==> table == TableOf(FieldRows(LinesOf(d)[1..m])) by { FieldsBlock(d); }
    assert OpeningBlocks(d) == [title] + if m > 1 then [table] else [];
    OpeningSays(LinesOf(d), m, title, table);
  }

  lemma OpeningIsCut(lines: seq<string>, m: nat)
    requires lines != [] && Kinds(lines)[0] != Blank && m == BodyStart(lines)
    ensures Reading(Kinds(lines), m, [Span(0, 1)] + if m > 1 then [Span(1, m)] else [], m, Fits(lines))
  {
    var spans := if m == 1 then [Span(0, 1)] else [Span(0, 1), Span(1, m)];
    assert spans == [Span(0, 1)] + if m > 1 then [Span(1, m)] else [];
    ReadingStarts(Kinds(lines), m, spans, Fits(lines));
  }

  lemma OpeningIsRead(d: Document)
    requires ProperDocument(d)
    ensures Reading(Kinds(LinesOf(d)), 1 + |d.fields|, OpeningSpans(d), 1 + |d.fields|, Fits(LinesOf(d)))
  {
    BodyStartIs(d);
    OpeningIsCut(LinesOf(d), 1 + |d.fields|);
  }

  ghost predicate Says(lines: seq<string>, s: Span, block: RawBlock) { s.from < s.to <= |lines| && block == BlockOf(lines, s) }

  lemma PlacedSays(lines: seq<string>, s: Span, e: Element, m: nat)
    requires Placed(lines, s, e) && lines != [] && BodyStart(lines) == m <= s.from
    ensures Says(lines, s, BlockFor(e))
  {
  }

  lemma PieceSays(d: Document, k: nat)
    requires ProperDocument(d) && k < |d.pieces|
    ensures Says(LinesOf(d), Span(From(d, k), At(d, k + 1)), BlockFor(d.pieces[k].element))
  {
    PiecePlaced(d, k);
    BodyStartIs(d);
    PlacedSays(LinesOf(d), Span(From(d, k), At(d, k + 1)), d.pieces[k].element, 1 + |d.fields|);
  }

  lemma PieceIsNext(d: Document, k: nat)
    requires ProperDocument(d) && k < |d.pieces|
    ensures Next(Kinds(LinesOf(d)), At(d, k), Span(From(d, k), At(d, k + 1)), Fits(LinesOf(d)))
  {
    PiecePlaced(d, k);
    FirstLine(d, k);
  }

  lemma ChainGrows(kinds: seq<LineKind>, end: nat, s: Span, q: seq<Span>, fits: Span -> bool)
    requires Next(kinds, end, s, fits) && Chained(kinds, s.to, q, fits)
    ensures Chained(kinds, end, [s] + q, fits) && EndOf(end, [s] + q) == EndOf(s.to, q)
  {
    assert ([s] + q)[1..] == q;
  }

  /** Blocks one after the other, told by where each ends. */
  lemma {:induction false} ChainedFrom(kinds: seq<LineKind>, ends: seq<nat>, q: seq<Span>, k: nat, fits: Span -> bool)
    requires |ends| == |q| + 1 && k <= |q|
    requires forall j :: 0 <= j < |q| ==> Next(kinds, ends[j], q[j], fits) && q[j].to == ends[j + 1]
    ensures Chained(kinds, ends[k], q[k..], fits) && EndOf(ends[k], q[k..]) == ends[|q|]
    decreases |q| - k
  {
    if k < |q| {
      ChainedFrom(kinds, ends, q, k + 1, fits);
      ChainGrows(kinds, ends[k], q[k], q[k + 1..], fits);
      assert q[k..] == [q[k]] + q[k + 1..];
    }
  }

  lemma PiecesAreChained(d: Document)
    requires ProperDocument(d)
    ensures Chained(Kinds(LinesOf(d)), At(d, 0), PieceSpans(d), Fits(LinesOf(d)))
    ensures EndOf(At(d, 0), PieceSpans(d)) == |LinesOf(d)|
  {
    var q := PieceSpans(d);
    var ends := seq(|q| + 1, j requires 0 <= j <= |q| => At(d, j));
    forall j | 0 <= j < |q| ensures Next(Kinds(LinesOf(d)), ends[j], q[j], Fits(LinesOf(d))) && q[j].to == ends[j + 1] { PieceIsNext(d, j); }
    ChainedFrom(Kinds(LinesOf(d)), ends, q, 0, Fits(LinesOf(d)));
    assert q[0..] == q;
    AtEnd(d);
  }

  lemma DocumentIsCut(d: Document)
    requires ProperDocument(d)
    ensures Reading(Kinds(LinesOf(d)), 1 + |d.fields|, OpeningSpans(d) + PieceSpans(d), |LinesOf(d)|, Fits(LinesOf(d)))
  {
    OpeningIsRead(d);
    assert At(d, 0) == 1 + |d.fields| by { assert d.pieces[..0] == []; }
    PiecesAreChained(d);
    SpansAreRead(Kinds(LinesOf(d)), 1 + |d.fields|, OpeningSpans(d), 1 + |d.fields|, PieceSpans(d), Fits(LinesOf(d)));
  }

  lemma DocumentIsFaithful(d: Document)
    requires ProperDocument(d)
    ensures Faithful(LinesOf(d), BlocksOf(d), OpeningSpans(d) + PieceSpans(d))
  {
    var q := PieceSpans(d);
    OpeningIsFaithful(d);
    forall j | 0 <= j < |q| ensures Says(LinesOf(d), q[j], PieceBlocks(d.pieces)[j]) { PieceSays(d, j); }
    FaithfulJoins(LinesOf(d), OpeningBlocks(d), OpeningSpans(d), PieceBlocks(d.pieces), q);
  }

  lemma DocumentIsRead(d: Document)
    requires ProperDocument(d)
    ensures ReadsAs(LinesOf(d), BlocksOf(d), OpeningSpans(d) + PieceSpans(d))
    ensures TablesFit(Kinds(LinesOf(d)), BodyStart(LinesOf(d)), |LinesOf(d)|, Fits(LinesOf(d)))
  {
    BodyStartIs(d);
    DocumentIsCut(d);
    DocumentIsFaithful(d);
  }

  /** A document that is written from a title, metadata, headings, list items, paragraphs and tables, with a blank
    line wherever one would run on into the next, is read, and in every reading of it the title and the blocks are these, in their order. */
  lemma RenderedIsRead(d: Document)
    requires ProperDocument(d)
    ensures var lines := LinesOf(d);
      && Kinds(lines)[0] != Blank && TablesFit(Kinds(lines), BodyStart(lines), |lines|, Fits(lines))
      && TitleOf(lines[0]) == d.title
      && forall blocks, spans :: ReadsAs(lines, blocks, spans) ==> blocks == BlocksOf(d)
  {
    BodyStartIs(d);
    TitleReads(d.prefix, d.title);
    DocumentIsRead(d);
    forall blocks, others | ReadsAs(LinesOf(d), blocks, others) ensures blocks == BlocksOf(d) {
      ReadingUnique(LinesOf(d), blocks, others, BlocksOf(d), OpeningSpans(d) + PieceSpans(d));
    }
  }
}
