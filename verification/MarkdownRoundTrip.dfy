/** What the Markdown reader makes of titles, metadata lines, headings, list items, paragraphs and tables that were
  rendered from their parts: the very same parts. */
module MarkdownRoundTrip {
  import opened SourceText
  import opened LineRuns
  import opened MarkdownBlocks

  // ----- title and metadata -----

  /** A title line, with or without a kind before the title. */
  function TitleLine(prefix: string, title: string): string { if prefix == "" then title else prefix + ": " + title }

  lemma TitleReads(prefix: string, title: string)
    requires Trimmed(prefix) && Trimmed(title) && title != "" && ':' !in prefix && (prefix == "" ==> ':' !in title)
    ensures TitleOf(TitleLine(prefix, title)) == title && Strip(TitleLine(prefix, title)) != []
  {
    var line := TitleLine(prefix, title);
    StripTrimmed(line);
    if prefix == "" {
      IndexNone(title, ':');
    } else {
      ColonReads(prefix, title);
    }
  }

  /** What comes before the first colon of a line, and what after it. */
  lemma ColonReads(name: string, value: string)
    requires Trimmed(value) && ':' !in name
    ensures var line := name + ": " + value;
      IndexOf(line, ':') == |name| < |line| && line[..|name|] == name && Strip(line[|name| + 1..]) == value
  {
    var line := name + ": " + value;
    IndexAt(name, ':', " " + value);
    assert line == name + [':'] + (" " + value);
    assert line[|name| + 1..] == " " + value + "";
    StripPadded(" ", value, "");
  }

  function FieldLine(name: string, value: string): string { name + ": " + value }

  /** A metadata line gives its name and its value. */
  lemma FieldReads(name: string, value: string)
    requires Trimmed(name) && Trimmed(value) && ':' !in name
    ensures var line := FieldLine(name, value);
      FieldOf(line) == [name, value] && HasColon(line) && Strip(line) != []
  {
    var line := FieldLine(name, value);
    ColonReads(name, value);
    StripTrimmed(name);
    assert line[|name|] == ':';
    StripKeeps(line, |name|);
  }

  lemma StripKeeps(s: string, i: nat)
    requires i < |s| && !IsSpace(s[i])
    ensures Strip(s) != []
  {
    SkippedForward(s, 0, IsSpace);
    SkippedBack(s, |s|, IsSpace);
  }

  // ----- table rows -----

  predicate IsCell(c: string) { Trimmed(c) && '|' !in c }

  function Padded(cells: seq<string>): string { " " + Join(cells, " | ") + " " }

  function RowLine(cells: seq<string>): string { "|" + Padded(cells) + "|" }

  lemma {:induction false} SplitPadded(cells: seq<string>)
    requires cells != [] && forall c :: c in cells ==> IsCell(c)
    ensures var parts := Split(Padded(cells), '|');
      |parts| == |cells| && forall i :: 0 <= i < |cells| ==> parts[i] == " " + cells[i] + " "
    decreases |cells|
  {
    var first, rest := " " + cells[0] + " ", cells[1..];
    assert cells[0] in cells && forall c :: c in rest ==> c in cells;
    if rest == [] {
      assert Padded(cells) == first;
      IndexNone(first, '|');
    } else {
      assert cells == [cells[0]] + rest;
      PaddedFront(cells[0], rest);
      SplitAt(first, '|', Padded(rest));
      SplitPadded(rest);
      assert forall i :: 1 <= i < |cells| ==> cells[i] == rest[i - 1];
    }
  }

  lemma PaddedFront(c: string, rest: seq<string>)
    requires rest != []
    ensures Padded([c] + rest) == (" " + c + " ") + ['|'] + Padded(rest)
  {
    JoinFront(c, rest, " | ");
  }

  lemma {:induction false} StrippedAt(lines: seq<string>, i: nat)
    requires i < |lines|
    ensures Stripped(lines)[i] == Strip(lines[i])
    decreases |lines|
  {
    if i < |lines| - 1 { StrippedAt(lines[..|lines| - 1], i); }
  }

  lemma BarsOff(inner: string)
    requires inner != "" && inner[0] != '|' && inner[|inner| - 1] != '|'
    ensures Trim("|" + inner + "|", IsBar) == inner
  {
    var line := "|" + inner + "|";
    assert line[0] == '|' && line[1] == inner[0] && line[|line| - 2] == inner[|inner| - 1] && line[|line| - 1] == '|';
    ForwardTo(line, 0, 1, IsBar);
    BackTo(line, |line|, |line| - 1, IsBar);
    assert line[1..|line| - 1] == inner;
  }

  /** A row of a table gives its cells. */
  lemma RowReads(cells: seq<string>)
    requires cells != [] && forall c :: c in cells ==> IsCell(c)
    ensures CellTexts(RowLine(cells)) == cells && Strip(RowLine(cells)) == RowLine(cells)
  {
    StripTrimmed(RowLine(cells));
    BarsOff(Padded(cells));
    SplitPadded(cells);
    var parts := Split(Padded(cells), '|');
    forall i | 0 <= i < |cells| ensures Stripped(parts)[i] == cells[i] {
      StrippedAt(parts, i);
      assert cells[i] in cells;
      StripPadded(" ", cells[i], " ");
    }
  }

  // ----- tables -----

  function Dashes(n: nat): (s: string)
    ensures |s| == n && forall i :: 0 <= i < n ==> s[i] == '-'
  {
    seq(n, _ => '-')
  }

  /** A rule of this many dashes, with or without a colon at each end. */
  predicate IsRule(cell: string, n: nat) {
    cell == Dashes(n) || cell == ":" + Dashes(n) || cell == Dashes(n) + ":" || cell == ":" + Dashes(n) + ":"
  }

  lemma DashesRead(n: nat)
    requires n >= 3
    ensures IsDashes(Dashes(n)) && IsDashes(Dashes(n) + ":")
  {
    var core := Dashes(n);
    assert core[0] == '-' && core[n - 1] == '-';
    assert (core + ":")[..n] == core && (core + ":")[n] == ':';
  }

  lemma ColonDashesRead(rest: string)
    requires rest != "" && rest[0] == '-' && IsDashes(rest)
    ensures IsDashes(":" + rest)
  {
    assert (":" + rest)[1..] == rest && StartsWith(":" + rest, ":");
    assert !StartsWith(rest, ":");
  }

  lemma DashesAreRule(cell: string) returns (n: nat)
    requires IsDashes(cell)
    ensures n >= 3 && IsRule(cell, n)
  {
    var left := if StartsWith(cell, ":") then cell[1..] else cell;
    var core := if left != [] && left[|left| - 1] == ':' then left[..|left| - 1] else left;
    n := |core|;
    assert core == Dashes(n);
    assert left == core || left == core + [left[|left| - 1]];
    assert StartsWith(cell, ":") ==> cell == cell[..1] + left;
  }

  lemma RuleIsDashes(cell: string, n: nat)
    requires n >= 3 && IsRule(cell, n)
    ensures IsDashes(cell)
  {
    DashesRead(n);
    ColonDashesRead(Dashes(n));
    ColonDashesRead(Dashes(n) + ":");
    assert ":" + Dashes(n) + ":" == ":" + (Dashes(n) + ":");
  }

  /** A cell under a header is a rule exactly if it is three dashes or more, with or without a colon at each end. */
  lemma RulesAre(cell: string)
    ensures IsDashes(cell) <==> exists n :: n >= 3 && IsRule(cell, n)
  {
    if IsDashes(cell) { var n := DashesAreRule(cell); }
    if n: nat :| n >= 3 && IsRule(cell, n) { RuleIsDashes(cell, n); }
  }

  function RowLines(rows: Rows): (lines: seq<string>)
    ensures |lines| == |rows|
    ensures forall i :: 0 <= i < |rows| ==> lines[i] == RowLine(rows[i])
  {
    seq(|rows|, i requires 0 <= i < |rows| => RowLine(rows[i]))
  }

  function Rules(n: nat): seq<string> { seq(n, _ => "---") }

  /** A table as it is written, with a rule under its header or without one. */
  function TableLines(rows: Rows, ruled: bool): seq<string>
    requires rows != []
  {
    if ruled then [RowLine(rows[0]), RowLine(Rules(|rows[0]|))] + RowLines(rows[1..]) else RowLines(rows)
  }

  ghost predicate IsTable(rows: Rows, ruled: bool) {
    && Rectangular(rows)
    && (forall r, c :: r in rows && c in r ==> IsCell(c))
    && (!ruled && |rows| > 1 ==> exists c :: c in rows[1] && !IsDashes(c))
  }

  lemma {:induction false} StrippedRows(lines: seq<string>)
    requires forall i :: 0 <= i < |lines| ==> Strip(lines[i]) == lines[i]
    ensures Stripped(lines) == lines
  {
    forall i | 0 <= i < |lines| ensures Stripped(lines)[i] == lines[i] { StrippedAt(lines, i); }
  }

  ghost predicate AreRows(rows: Rows) { forall r :: r in rows ==> r != [] && forall c :: c in r ==> IsCell(c) }

  lemma RowLinesRead(rows: Rows)
    requires AreRows(rows)
    ensures AllRows(RowLines(rows)) == rows
    ensures forall line :: line in RowLines(rows) ==> IsBarLine(line)
  {
    forall i | 0 <= i < |rows|
      ensures CellTexts(RowLines(rows)[i]) == rows[i] && IsBarLine(RowLines(rows)[i])
    {
      assert rows[i] in rows;
      RowReads(rows[i]);
    }
  }

  /** A line of a table, with nothing before its first bar or after its last. */
  ghost predicate IsBarLine(line: string) { line != "" && line[0] == '|' && Strip(line) == line }

  lemma RuleReads(n: nat)
    requires n > 0
    ensures IsSeparator(RowLine(Rules(n))) && Strip(RowLine(Rules(n))) == RowLine(Rules(n))
  {
    assert "---" == Dashes(3) && IsCell("---");
    DashesRead(3);
    forall c | c in Rules(n) ensures c == "---" { }
    RowReads(Rules(n));
  }

  lemma CellsOfTable(rows: Rows, ruled: bool)
    requires IsTable(rows, ruled)
    ensures AreRows(rows) && AreRows(rows[1..])
  {
    forall r | r in rows ensures r != [] {
      var i :| 0 <= i < |rows| && rows[i] == r;
      assert |rows[i]| == |rows[0]|;
    }
  }

  lemma SecondGoes(header: seq<string>, second: seq<string>, rest: Rows)
    ensures WithoutSecond([header, second] + rest) == [header] + rest
  {
  }

  lemma AllRowsFrom(first: string, rule: string, lines: seq<string>)
    ensures AllRows([first, rule] + lines) == [CellTexts(first), CellTexts(rule)] + AllRows(lines)
  {
  }

  lemma RuledRows(first: string, rule: string, lines: seq<string>)
    requires IsSeparator(rule)
    ensures RowsOf([first, rule] + lines) == [CellTexts(first)] + AllRows(lines)
  {
    AllRowsFrom(first, rule, lines);
    SecondGoes(CellTexts(first), CellTexts(rule), AllRows(lines));
  }

  lemma RuledTableReads(rows: Rows)
    requires IsTable(rows, true)
    ensures RowsOf(TableLines(rows, true)) == rows
  {
    var first, rule, tail := RowLine(rows[0]), RowLine(Rules(|rows[0]|)), RowLines(rows[1..]);
    CellsOfTable(rows, true);
    assert CellTexts(first) == rows[0] by { RowReads(rows[0]); }
    assert AllRows(tail) == rows[1..] by { RowLinesRead(rows[1..]); }
    assert IsSeparator(rule) by { RuleReads(|rows[0]|); }
    RuledRows(first, rule, tail);
  }

  lemma PlainTableReads(rows: Rows)
    requires IsTable(rows, false)
    ensures RowsOf(TableLines(rows, false)) == rows
  {
    var lines := RowLines(rows);
    CellsOfTable(rows, false);
    RowLinesRead(rows);
    if |rows| > 1 {
      var c :| c in rows[1] && !IsDashes(c);
      assert AllRows(lines)[1] == rows[1];
      assert c in CellTexts(lines[1]);
    }
  }

  lemma TableLinesAreBars(rows: Rows, ruled: bool)
    requires IsTable(rows, ruled)
    ensures forall line :: line in TableLines(rows, ruled) ==> IsBarLine(line)
  {
    CellsOfTable(rows, ruled);
    RowLinesRead(rows);
    RowLinesRead(rows[1..]);
    RuleReads(|rows[0]|);
    assert RowLine(rows[0]) == RowLines(rows)[0];
  }

  /** A table gives its rows, without the rule. */
  lemma TableReads(rows: Rows, ruled: bool)
    requires IsTable(rows, ruled)
    ensures var lines := TableLines(rows, ruled);
      lines != [] && (forall line :: line in lines ==> IsBarLine(line)) && RowsOf(Stripped(lines)) == rows
  {
    if ruled { RuledTableReads(rows); } else { PlainTableReads(rows); }
    TableLinesAreBars(rows, ruled);
    var lines := TableLines(rows, ruled);
    forall i | 0 <= i < |lines| ensures Strip(lines[i]) == lines[i] { assert IsBarLine(lines[i]); }
    StrippedRows(lines);
  }

  /** All cells of a table, row after row. */
  function Flat(rows: Rows): seq<string> { if rows == [] then [] else Flat(rows[..|rows| - 1]) + rows[|rows| - 1] }

  /** The text of a table is the texts of its cells, row after row. */
  lemma {:induction false} TableText(rows: Rows)
    requires rows != [] && forall r :: r in rows ==> r != []
    ensures Flat(rows) != [] && Join(RowTexts(rows), " | ") == Join(Flat(rows), " | ")
    decreases |rows|
  {
    var init, last := rows[..|rows| - 1], rows[|rows| - 1];
    assert last in rows && forall r :: r in init ==> r in rows;
    if init == [] {
      assert RowTexts(rows) == [Join(last, " | ")];
      assert Flat(rows) == last;
    } else {
      TableText(init);
      JoinConcat(Flat(init), last, " | ");
      JoinConcat(RowTexts(init), [Join(last, " | ")], " | ");
    }
  }

  // ----- elements -----

  datatype Element =
    | SubTitle(text: string)
    | Named(text: string)
    | Bullet(marker: string, text: string)
    | Words(lines: seq<string>)
    | Grid(rows: Rows, ruled: bool)

  predicate IsMarker(marker: string) {
    || marker == "-" || marker == "*"
    || (|marker| > 1 && marker[|marker| - 1] == '.' && forall i :: 0 <= i < |marker| - 1 ==> IsDigit(marker[i]))
  }

  predicate IsLetter(c: char) { 'a' <= c <= 'z' || 'A' <= c <= 'Z' }

  /** A line of running text: it starts with a letter and is no heading. */
  predicate IsWords(line: string) { line != "" && IsLetter(line[0]) && Trimmed(line) && !IsPlainHeading(line) }

  ghost predicate Proper(e: Element) {
    match e
    case SubTitle(text) => text != "" && Trimmed(text)
    case Named(text) => IsPlainHeading(text) && Trimmed(text)
    case Bullet(marker, text) => IsMarker(marker) && text != "" && Trimmed(text)
    case Words(lines) => lines != [] && forall line :: line in lines ==> IsWords(line)
    case Grid(rows, ruled) => IsTable(rows, ruled)
  }

  /** How an element is written. */
  function Render(e: Element): seq<string> {
    match e
    case SubTitle(text) => ["## " + text]
    case Named(text) => [text]
    case Bullet(marker, text) => [marker + " " + text]
    case Words(lines) => lines
    case Grid(rows, ruled) => if rows == [] then [] else TableLines(rows, ruled)
  }

  function KindFor(e: Element): LineKind {
    match e
    case SubTitle(_) => SubHeading
    case Named(_) => PlainHeading
    case Bullet(_, _) => Item
    case Words(_) => Text
    case Grid(_, _) => Bar
  }

  /** The block that an element is to be read as. */
  function BlockFor(e: Element): RawBlock {
    match e
    case SubTitle(text) => HeadingBlock(text, 2)
    case Named(text) => HeadingBlock(text, 1)
    case Bullet(marker, text) => Prose(ListItem, marker + " " + text)
    case Words(lines) => Prose(Paragraph, Join(lines, " "))
    case Grid(rows, _) => TableBlock(Join(Flat(rows), " | "), rows)
  }

  lemma HeadingsStartWithLetters(line: string)
    requires IsPlainHeading(line)
    ensures line != "" && 'A' <= line[0] <= 'Z'
  {
  }

  /** The plain headings: seventeen fixed lines, and examples. */
  lemma PlainHeadingsAre(line: string)
    ensures IsPlainHeading(line) <==>
      || line in {
           "Access", "Change control", "Contributing factors", "Failure modes", "Field mapping", "Follow-ups", "Impact",
           "Reconciliation report", "Root cause", "Rules", "Schedule", "Stages", "Summary", "Timeline", "Verification",
           "What went poorly", "What went well"}
      || exists rest: string :: line == "Example run (" + rest
  {
    if StartsWith(line, "Example run (") { assert line == "Example run (" + line[|"Example run ("|..]; }
    if rest: string :| line == "Example run (" + rest { assert line[..|"Example run ("|] == "Example run ("; }
  }

  lemma KindByStart(line: string)
    requires Trimmed(line) && line != ""
    ensures StartsWith(line, "## ") ==> KindOf(line) == SubHeading
    ensures IsPlainHeading(line) ==> KindOf(line) == PlainHeading
    ensures line[0] == '|' ==> KindOf(line) == Bar
    ensures !IsLetter(line[0]) && line[0] !in "#|" && IsItem(line) ==> KindOf(line) == Item
    ensures IsLetter(line[0]) && !IsPlainHeading(line) ==> KindOf(line) == Text
  {
    StripTrimmed(line);
    if IsPlainHeading(line) { HeadingsStartWithLetters(line); }
    assert StartsWith(line, "## ") ==> line[..3][0] == '#';
    assert StartsWith(line, "|") <==> line[..1][0] == '|';
  }

  lemma MarkedIsItem(marker: string, text: string)
    requires IsMarker(marker) && text != "" && Trimmed(text)
    ensures var line := marker + " " + text;
      IsItem(line) && Trimmed(line) && line != "" && !IsLetter(line[0]) && line[0] !in "#|"
  {
    var line := marker + " " + text;
    assert line[|marker|] == ' ' && line[0] == marker[0];
    assert forall i :: 0 <= i < |marker| ==> line[i] == marker[i];
    if marker != "-" && marker != "*" {
      ForwardTo(line, 0, |marker| - 1, IsDigit);
    }
  }

  /** Lines that are all of this kind. */
  ghost predicate AllOf(run: seq<string>, kind: LineKind) { forall i :: 0 <= i < |run| ==> Kinds(run)[i] == kind }

  lemma AllOfLines(run: seq<string>, kind: LineKind)
    requires forall line :: line in run ==> KindOf(line) == kind
    ensures AllOf(run, kind)
  {
    forall i | 0 <= i < |run| ensures Kinds(run)[i] == kind { KindsAt(run, i); }
  }

  /** Lines that are all of this kind and make up this block. */
  ghost predicate Makes(run: seq<string>, kind: LineKind, block: RawBlock) {
    run != [] && AllOf(run, kind) && BodyText(kind, run) == block
  }

  lemma SubTitleReads(text: string)
    requires text != "" && Trimmed(text)
    ensures Makes(["## " + text], SubHeading, HeadingBlock(text, 2))
  {
    var line := "## " + text;
    KindByStart(line);
    AllOfLines([line], SubHeading);
    StripTrimmed(line);
    assert RemovePrefix(line, "## ") == text;
    StripTrimmed(text);
  }

  lemma NamedReads(text: string)
    requires IsPlainHeading(text) && Trimmed(text)
    ensures Makes([text], PlainHeading, HeadingBlock(text, 1))
  {
    HeadingsStartWithLetters(text);
    KindByStart(text);
    AllOfLines([text], PlainHeading);
    StripTrimmed(text);
  }

  lemma BulletReads(marker: string, text: string)
    requires IsMarker(marker) && text != "" && Trimmed(text)
    ensures Makes([marker + " " + text], Item, Prose(ListItem, marker + " " + text))
  {
    MarkedIsItem(marker, text);
    KindByStart(marker + " " + text);
    AllOfLines([marker + " " + text], Item);
    StripTrimmed(marker + " " + text);
  }

  lemma WordsLine(line: string)
    requires IsWords(line)
    ensures KindOf(line) == Text && Strip(line) == line
  {
    KindByStart(line);
    StripTrimmed(line);
  }

  lemma WordsRead(lines: seq<string>)
    requires lines != [] && forall line :: line in lines ==> IsWords(line)
    ensures Makes(lines, Text, Prose(Paragraph, Join(lines, " ")))
  {
    forall line | line in lines ensures KindOf(line) == Text && Strip(line) == line { WordsLine(line); }
    AllOfLines(lines, Text);
    StrippedRows(lines);
  }

  lemma BarText(run: seq<string>, rows: Rows)
    requires run != [] && RowsOf(Stripped(run)) == rows
    ensures BodyText(Bar, run) == TableOf(rows)
  {
  }

  lemma GridBlock(rows: Rows, ruled: bool)
    requires IsTable(rows, ruled)
    ensures BodyText(Bar, TableLines(rows, ruled)) == TableBlock(Join(Flat(rows), " | "), rows)
  {
    assert BodyText(Bar, TableLines(rows, ruled)) == TableOf(rows) by {
      TableReads(rows, ruled);
      BarText(TableLines(rows, ruled), rows);
    }
    CellsOfTable(rows, ruled);
    TableText(rows);
  }

  lemma GridKinds(rows: Rows, ruled: bool)
    requires IsTable(rows, ruled)
    ensures AllOf(TableLines(rows, ruled), Bar)
  {
    TableLinesAreBars(rows, ruled);
    forall line | line in TableLines(rows, ruled) ensures KindOf(line) == Bar { BarLineKind(line); }
    AllOfLines(TableLines(rows, ruled), Bar);
  }

  lemma GridReads(rows: Rows, ruled: bool)
    requires IsTable(rows, ruled)
    ensures Makes(TableLines(rows, ruled), Bar, TableBlock(Join(Flat(rows), " | "), rows))
  {
    GridBlock(rows, ruled);
    GridKinds(rows, ruled);
  }

  /** An element is written on lines of its kind, and read as its block. */
  lemma ElementReads(e: Element)
    requires Proper(e)
    ensures Makes(Render(e), KindFor(e), BlockFor(e))
  {
    match e
    case SubTitle(text) => SubTitleReads(text);
    case Named(text) => NamedReads(text);
    case Bullet(marker, text) => BulletReads(marker, text);
    case Words(lines) => WordsRead(lines);
    case Grid(rows, ruled) => GridReads(rows, ruled);
  }

  lemma BarLineKind(line: string)
    requires IsBarLine(line)
    ensures KindOf(line) == Bar
  {
    if IsPlainHeading(line) { HeadingsStartWithLetters(line); }
    assert line[..1] == "|";
  }
}
