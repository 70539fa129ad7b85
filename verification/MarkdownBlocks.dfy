/** The controlled Markdown subset: a document's lines into blocks. */
module MarkdownBlocks {
  import opened SourceText
  import opened LineRuns

  type Rows = seq<seq<string>>

  datatype BlockType = Title | Heading | Paragraph | ListItem | Table

  datatype RawBlock =
    | Prose(kind: BlockType, text: string)
    | HeadingBlock(text: string, level: nat)
    | TableBlock(text: string, rows: Rows)

  function TypeOf(b: RawBlock): BlockType {
    match b
    case Prose(kind, _) => kind
    case HeadingBlock(_, _) => Heading
    case TableBlock(_, _) => Table
  }

  datatype Parsed =
    | Source(title: string, blocks: seq<RawBlock>, spans: seq<Span>)
    | EmptySource
    | BadTable

  // ----- single lines -----

  const PLAIN_HEADINGS: set<string> := {
    "Access", "Change control", "Contributing factors", "Failure modes", "Field mapping", "Follow-ups",
    "Impact", "Reconciliation report", "Root cause", "Rules", "Schedule", "Stages", "Summary", "Timeline",
    "Verification", "What went poorly", "What went well"
  }

  predicate IsPlainHeading(line: string) { line in PLAIN_HEADINGS || StartsWith(line, "Example run (") }

  /** A dash, a star or a number with a full stop, and then white space. */
  predicate IsItem(line: string) {
    var digits := SkipForward(line, 0, IsDigit);
    var marker :=
      if line != [] && line[0] in "-*" then 1
      else if 0 < digits < |line| && line[digits] == '.' then digits + 1
      else 0;
    0 < marker < |line| && IsSpace(line[marker])
  }

  function KindOf(raw: string): LineKind {
    var line := Strip(raw);
    if line == [] then Blank
    else if StartsWith(line, "## ") then SubHeading
    else if IsPlainHeading(line) then PlainHeading
    else if StartsWith(line, "|") then Bar
    else if IsItem(line) then Item
    else Text
  }

  function Kinds(lines: seq<string>): (kinds: seq<LineKind>)
    ensures |kinds| == |lines|
  {
    if lines == [] then [] else Kinds(lines[..|lines| - 1]) + [KindOf(lines[|lines| - 1])]
  }

  lemma {:induction false} KindsAt(lines: seq<string>, i: nat)
    requires i < |lines|
    ensures Kinds(lines)[i] == KindOf(lines[i])
    decreases |lines|
  {
    if i < |lines| - 1 {
      KindsAt(lines[..|lines| - 1], i);
    }
  }

  function Stripped(lines: seq<string>): (s: seq<string>)
    ensures |s| == |lines|
  {
    if lines == [] then [] else Stripped(lines[..|lines| - 1]) + [Strip(lines[|lines| - 1])]
  }

  lemma StrippedNext(lines: seq<string>, start: nat, i: nat)
    requires start <= i < |lines|
    ensures Stripped(lines[start..i + 1]) == Stripped(lines[start..i]) + [Strip(lines[i])]
  {
    assert lines[start..i + 1][..i - start] == lines[start..i];
  }

  // ----- title and metadata -----

  predicate HasColon(line: string) { IndexOf(line, ':') < |line| }

  function TitleOf(line: string): string {
    var s := Strip(line);
    var colon := IndexOf(s, ':');
    if 0 < colon < |s| then Strip(s[colon + 1..]) else s
  }

  function FieldOf(line: string): (field: seq<string>)
    ensures |field| == 2
  {
    var colon := IndexOf(line, ':');
    [Strip(line[..colon]), if colon < |line| then Strip(line[colon + 1..]) else ""]
  }

  /** The first line from `i` on that is blank or has no colon. */
  function EndOfFields(lines: seq<string>, kinds: seq<LineKind>, i: nat): (m: nat)
    requires i <= |lines| == |kinds|
    ensures i <= m <= |lines|
    ensures forall j :: i <= j < m ==> kinds[j] != Blank
    decreases |lines| - i
  {
    if i < |lines| && kinds[i] != Blank && HasColon(lines[i]) then EndOfFields(lines, kinds, i + 1) else i
  }

  /** The line after the title and the metadata. */
  function BodyStart(lines: seq<string>): (m: nat)
    requires lines != []
    ensures 1 <= m <= |lines|
  {
    EndOfFields(lines, Kinds(lines), 1)
  }

  function FieldRows(fields: seq<string>): (rows: Rows)
    ensures |rows| == |fields| + 1
    ensures forall i :: 0 <= i < |rows| ==> |rows[i]| == 2
  {
    if fields == [] then [["Field", "Value"]]
    else FieldRows(fields[..|fields| - 1]) + [FieldOf(fields[|fields| - 1])]
  }

  lemma FieldRowsNext(lines: seq<string>, i: nat)
    requires 1 <= i < |lines|
    ensures FieldRows(lines[1..i + 1]) == FieldRows(lines[1..i]) + [FieldOf(lines[i])]
  {
    assert lines[1..i + 1][..i - 1] == lines[1..i];
  }

  function RowTexts(rows: Rows): seq<string> {
    if rows == [] then [] else RowTexts(rows[..|rows| - 1]) + [Join(rows[|rows| - 1], " | ")]
  }

  function TableOf(rows: Rows): RawBlock { TableBlock(Join(RowTexts(rows), " | "), rows) }

  // ----- tables -----

  function CellTexts(line: string): (cells: seq<string>)
    ensures |cells| >= 1
  {
    Stripped(Split(Trim(Strip(line), IsBar), '|'))
  }

  predicate IsDashes(cell: string) {
    var left := if StartsWith(cell, ":") then cell[1..] else cell;
    var core := if left != [] && left[|left| - 1] == ':' then left[..|left| - 1] else left;
    |core| >= 3 && forall i :: 0 <= i < |core| ==> core[i] == '-'
  }

  predicate IsSeparator(line: string) { forall cell :: cell in CellTexts(line) ==> IsDashes(cell) }

  function AllRows(lines: seq<string>): (rows: Rows)
    ensures |rows| == |lines| && forall i :: 0 <= i < |lines| ==> rows[i] == CellTexts(lines[i])
  {
    seq(|lines|, i requires 0 <= i < |lines| => CellTexts(lines[i]))
  }

  function WithoutSecond(rows: Rows): Rows
    requires |rows| >= 2
  {
    [rows[0]] + rows[2..]
  }

  /** The rows of a table, without the separator under its header. */
  function RowsOf(lines: seq<string>): (rows: Rows)
    ensures lines != [] ==> rows != [] && |rows[0]| >= 1
  {
    if |lines| >= 2 && IsSeparator(lines[1]) then WithoutSecond(AllRows(lines)) else AllRows(lines)
  }

  predicate Rectangular(rows: Rows) {
    rows != [] && rows[0] != [] && forall i :: 0 <= i < |rows| ==> |rows[i]| == |rows[0]|
  }

  /** Whether the table on these lines is a rectangle. */
  function Fits(lines: seq<string>): Span -> bool {
    (s: Span) => s.from <= s.to <= |lines| && Rectangular(RowsOf(Stripped(lines[s.from..s.to])))
  }

  // ----- what a block says -----

  function BodyText(kind: LineKind, run: seq<string>): RawBlock
    requires run != []
  {
    var line := Strip(run[0]);
    match kind
    case SubHeading => HeadingBlock(Strip(RemovePrefix(line, "## ")), 2)
    case PlainHeading => HeadingBlock(line, 1)
    case Item => Prose(ListItem, line)
    case Bar => TableOf(RowsOf(Stripped(run)))
    case _ => Prose(Paragraph, Join(Stripped(run), " "))
  }

  function BlockOf(lines: seq<string>, s: Span): RawBlock
    requires s.from < s.to <= |lines|
  {
    if s.from == 0 then Prose(Title, TitleOf(lines[0]))
    else if s.from < BodyStart(lines) then TableOf(FieldRows(lines[s.from..s.to]))
    else BodyText(Kinds(lines)[s.from], lines[s.from..s.to])
  }

  /** Every block is what its own lines say. */
  ghost predicate Faithful(lines: seq<string>, blocks: seq<RawBlock>, spans: seq<Span>) {
    && |blocks| == |spans|
    && forall k :: 0 <= k < |spans| ==>
      spans[k].from < spans[k].to <= |lines| && blocks[k] == BlockOf(lines, spans[k])
  }

  lemma FaithfulGrows(lines: seq<string>, blocks: seq<RawBlock>, spans: seq<Span>, s: Span)
    requires Faithful(lines, blocks, spans) && s.from < s.to <= |lines|
    ensures Faithful(lines, blocks + [BlockOf(lines, s)], spans + [s])
  {
  }

  lemma OpeningFaithful(lines: seq<string>, m: nat)
    requires lines != [] && m == BodyStart(lines)
    ensures var title := Prose(Title, TitleOf(lines[0]));
      && Faithful(lines, [title], [Span(0, 1)])
      && (m > 1 ==> Faithful(lines, [title] + [TableOf(FieldRows(lines[1..m]))], [Span(0, 1)] + [Span(1, m)]))
  {
    var title := BlockOf(lines, Span(0, 1));
    FaithfulGrows(lines, [], [], Span(0, 1));
    assert [] + [title] == [title] && [] + [Span(0, 1)] == [Span(0, 1)];
    if m > 1 {
      FaithfulGrows(lines, [title], [Span(0, 1)], Span(1, m));
    }
  }

  ghost predicate ReadsAs(lines: seq<string>, blocks: seq<RawBlock>, spans: seq<Span>)
    requires lines != []
  {
    && Partition(Kinds(lines), spans, |lines|)
    && Shaped(Kinds(lines), BodyStart(lines), spans)
    && Faithful(lines, blocks, spans)
  }

  /** Every table of a document that is read has a header and rows of equal width. */
  lemma TablesAreRectangles(lines: seq<string>, blocks: seq<RawBlock>, spans: seq<Span>, k: nat)
    requires lines != [] && ReadsAs(lines, blocks, spans)
    requires TablesFit(Kinds(lines), BodyStart(lines), |lines|, Fits(lines))
    requires k < |blocks| && blocks[k].TableBlock?
    ensures Rectangular(blocks[k].rows)
  {
    if spans[k].from < BodyStart(lines) {
      FieldTableFits(lines, blocks, spans, k);
    } else {
      RowsAt(lines, blocks, spans, k);
      TableBlockFits(Kinds(lines), BodyStart(lines), spans, k, Fits(lines));
    }
  }

  lemma FieldTableFits(lines: seq<string>, blocks: seq<RawBlock>, spans: seq<Span>, k: nat)
    requires Faithful(lines, blocks, spans) && k < |blocks| && blocks[k].TableBlock? && spans[k].from < BodyStart(lines)
    ensures Rectangular(blocks[k].rows)
  {
    RowsAt(lines, blocks, spans, k);
    FieldRowsFit(lines[spans[k].from..spans[k].to]);
  }

  /** Where the rows of a table come from. */
  lemma RowsAt(lines: seq<string>, blocks: seq<RawBlock>, spans: seq<Span>, k: nat)
    requires Faithful(lines, blocks, spans) && k < |blocks| && blocks[k].TableBlock?
    ensures if spans[k].from < BodyStart(lines) then blocks[k].rows == FieldRows(lines[spans[k].from..spans[k].to])
      else Kinds(lines)[spans[k].from] == Bar && blocks[k].rows == RowsOf(Stripped(lines[spans[k].from..spans[k].to]))
  {
    assert blocks[k] == BlockOf(lines, spans[k]);
    TableRows(lines, spans[k]);
  }

  lemma FieldRowsFit(fields: seq<string>)
    ensures Rectangular(FieldRows(fields))
  {
  }

  lemma BodyTableIsBar(kind: LineKind, run: seq<string>)
    requires run != [] && BodyText(kind, run).TableBlock?
    ensures kind == Bar && BodyText(kind, run).rows == RowsOf(Stripped(run))
  {
  }

  lemma TableRows(lines: seq<string>, s: Span)
    requires s.from < s.to <= |lines| && BlockOf(lines, s).TableBlock?
    ensures s.from > 0
    ensures if s.from < BodyStart(lines) then BlockOf(lines, s).rows == FieldRows(lines[s.from..s.to])
      else Kinds(lines)[s.from] == Bar && BlockOf(lines, s).rows == RowsOf(Stripped(lines[s.from..s.to]))
  {
    if s.from >= BodyStart(lines) {
      BodyTableIsBar(Kinds(lines)[s.from], lines[s.from..s.to]);
    }
  }

  /** There is only one reading of a document. */
  lemma ReadingUnique(lines: seq<string>, a: seq<RawBlock>, p: seq<Span>, b: seq<RawBlock>, q: seq<Span>)
    requires lines != [] && ReadsAs(lines, a, p) && ReadsAs(lines, b, q)
    ensures a == b && p == q
  {
    CutUnique(Outline(Kinds(lines), BodyStart(lines)), p, q);
  }

  /** Collect the following lines of the same kind, stripped. */
  method Run(lines: seq<string>, kinds: seq<LineKind>, start: nat) returns (collected: seq<string>, index: nat)
    requires |kinds| == |lines| && start < |lines|
    ensures WholeRun(kinds, Span(start, index), kinds[start])
    ensures collected == Stripped(lines[start..index])
  {
    index := start;
    collected := [];
    assert lines[start..start] == [];
    var kind := kinds[start];
    while index < |lines| && kinds[index] == kind
      invariant start <= index <= |lines| && (index == start ==> kinds[index] == kind)
      invariant forall i :: start <= i < index ==> kinds[i] == kind
      invariant collected == Stripped(lines[start..index])
    {
      var line := Strip(lines[index]);
      assert Stripped(lines[start..index + 1]) == collected + [line] by { StrippedNext(lines, start, index); }
      collected := collected + [line];
      index := index + 1;
    }
  }

  /** Collect the metadata lines. */
  method Fields(lines: seq<string>, kinds: seq<LineKind>) returns (rows: Rows, index: nat)
    requires lines != [] && kinds == Kinds(lines)
    ensures index == BodyStart(lines) && rows == FieldRows(lines[1..index])
  {
    index := 1;
    rows := [["Field", "Value"]];
    while index < |lines| && kinds[index] != Blank
      invariant 1 <= index <= |lines|
      invariant rows == FieldRows(lines[1..index])
      invariant BodyStart(lines) == EndOfFields(lines, kinds, index)
    {
      if !HasColon(lines[index]) { break; }
      FieldRowsNext(lines, index);
      rows := rows + [FieldOf(lines[index])];
      index := index + 1;
    }
  }

  /** Read one block of the body. */
  method Block(lines: seq<string>, kinds: seq<LineKind>, start: nat) returns (block: RawBlock, index: nat, fits: bool)
    requires |kinds| == |lines| && start < |lines| && kinds[start] != Blank
    ensures BodyShape(kinds, Span(start, index))
    ensures block == BodyText(kinds[start], lines[start..index])
    ensures fits <==> (kinds[start] == Bar ==> Fits(lines)(Span(start, index)))
  {
    fits := true;
    var line := Strip(lines[start]);
    index := start + 1;
    match kinds[start] {
      case SubHeading => block := HeadingBlock(Strip(RemovePrefix(line, "## ")), 2);
      case PlainHeading => block := HeadingBlock(line, 1);
      case Item => block := Prose(ListItem, line);
      case Bar =>
        var tableLines: seq<string>;
        tableLines, index := Run(lines, kinds, start);
        var rows := RowsOf(tableLines);
        block := TableOf(rows);
        fits := Rectangular(rows);
      case Text =>
        var paragraphLines: seq<string>;
        paragraphLines, index := Run(lines, kinds, start);
        block := Prose(Paragraph, Join(paragraphLines, " "));
    }
  }

  /** A reader that has passed `end`. */
  ghost predicate Read(lines: seq<string>, blocks: seq<RawBlock>, spans: seq<Span>, end: nat)
    requires lines != []
  {
    Reading(Kinds(lines), BodyStart(lines), spans, end, Fits(lines)) && Faithful(lines, blocks, spans)
  }

  lemma ReadStarts(lines: seq<string>, blocks: seq<RawBlock>, spans: seq<Span>)
    requires lines != [] && Kinds(lines)[0] != Blank
    requires var m, title := BodyStart(lines), Prose(Title, TitleOf(lines[0]));
      if m == 1 then blocks == [title] && spans == [Span(0, 1)]
      else blocks == [title] + [TableOf(FieldRows(lines[1..m]))] && spans == [Span(0, 1)] + [Span(1, m)]
    ensures Read(lines, blocks, spans, BodyStart(lines))
  {
    var m := BodyStart(lines);
    OpeningFaithful(lines, m);
    if m > 1 { assert spans == [Span(0, 1), Span(1, m)]; }
    ReadingStarts(Kinds(lines), m, spans, Fits(lines));
  }

  lemma ReadSkips(lines: seq<string>, blocks: seq<RawBlock>, spans: seq<Span>, end: nat)
    requires lines != [] && Read(lines, blocks, spans, end) && end < |lines| && Kinds(lines)[end] == Blank
    ensures Read(lines, blocks, spans, end + 1)
  {
    ReadingSkips(Kinds(lines), BodyStart(lines), spans, end, Fits(lines));
  }

  lemma ReadGrows(lines: seq<string>, blocks: seq<RawBlock>, spans: seq<Span>, block: RawBlock, s: Span)
    requires lines != [] && Read(lines, blocks, spans, s.from) && BodyShape(Kinds(lines), s)
    requires block == BodyText(Kinds(lines)[s.from], lines[s.from..s.to])
    requires Kinds(lines)[s.from] == Bar ==> Fits(lines)(s)
    ensures Read(lines, blocks + [block], spans + [s], s.to)
  {
    ReadingGrows(Kinds(lines), BodyStart(lines), spans, s, Fits(lines));
    FaithfulGrows(lines, blocks, spans, s);
  }

  /** Read the title and the metadata table. */
  method Opening(lines: seq<string>, kinds: seq<LineKind>) returns (blocks: seq<RawBlock>, spans: seq<Span>, index: nat)
    requires lines != [] && kinds == Kinds(lines) && kinds[0] != Blank
    ensures index == BodyStart(lines) && Read(lines, blocks, spans, index)
  {
    blocks, spans := [Prose(Title, TitleOf(lines[0]))], [Span(0, 1)];
    var rows: Rows;
    rows, index := Fields(lines, kinds);
    if |rows| > 1 {
      blocks, spans := blocks + [TableOf(rows)], spans + [Span(1, index)];
    }
    ReadStarts(lines, blocks, spans);
  }

  /** Read a document: every non-blank line lands in exactly one block, in order, and every block is what its
    lines say.  The reader fails only on an empty first line, and on a body table that is not a rectangle. */
  method Parse(lines: seq<string>) returns (parsed: Parsed)
    ensures parsed.EmptySource? <==> lines == [] || Kinds(lines)[0] == Blank
    ensures !parsed.EmptySource? ==>
      (parsed.Source? <==> TablesFit(Kinds(lines), BodyStart(lines), |lines|, Fits(lines)))
    ensures parsed.Source? ==> parsed.title == TitleOf(lines[0]) && ReadsAs(lines, parsed.blocks, parsed.spans)
  {
    var kinds := Kinds(lines);
    if |lines| == 0 || kinds[0] == Blank { return EmptySource; }
    var blocks, spans, index := Opening(lines, kinds);
    while index < |lines|
      invariant index <= |lines| && Read(lines, blocks, spans, index)
    {
      if kinds[index] == Blank {
        ReadSkips(lines, blocks, spans, index);
        index := index + 1;
      } else {
        var block, next, fits := Block(lines, kinds, index);
        if !fits {
          TablesFitGrows(kinds, BodyStart(lines), Span(index, next), Fits(lines));
          return BadTable;
        }
        ReadGrows(lines, blocks, spans, block, Span(index, next));
        blocks, spans, index := blocks + [block], spans + [Span(index, next)], next;
      }
    }
    parsed := Source(TitleOf(lines[0]), blocks, spans);
  }
}
