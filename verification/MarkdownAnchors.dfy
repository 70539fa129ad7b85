/** Semantic anchors: every block and every table cell of a parsed document gets a stable name. */
module MarkdownAnchors {
  import opened CreateOnlyFiles
  import opened SourceText
  import opened LineRuns
  import opened MarkdownBlocks

  /** Text normalisation, and the shortened digest. */
  type Norm = string -> string
  type Digest = string -> string

  datatype Anchor = Anchor(kind: string, digest: string) | CellAnchor(table: string, row: nat, column: nat)

  datatype Cell = Cell(anchor: Anchor, row: nat, column: nat, text: string, header: bool)

  datatype SemanticTable = SemanticTable(anchor: Anchor, rows: Rows, cells: seq<Cell>)

  datatype SemanticBlock =
    SemanticBlock(anchor: Anchor, kind: BlockType, text: string, order: nat, level: Option<nat>, table: Option<SemanticTable>)

  const MARK: string := "\0occurrence="

  function SemanticKey(normalized: string, occurrence: nat): string { normalized + MARK + Decimal(occurrence) }

  function AnchorFor(kind: string, document: string, key: string, norm: Norm, digest: Digest): Anchor {
    Anchor(kind, digest(document + "\0" + kind + "\0" + norm(key)))
  }

  /** Distinct texts have distinct digests. */
  ghost predicate Injective(digest: Digest) { forall a, b :: digest(a) == digest(b) ==> a == b }

  /** Normalisation leaves normalised text alone, also with a numbered mark behind it. */
  ghost predicate Stable(norm: Norm) {
    forall t: string, n: nat :: norm(SemanticKey(norm(t), n)) == SemanticKey(norm(t), n)
  }

  // ----- the normalisation in use -----

  /** Compatibility normalisation, then white space collapsed. */
  function NormalizedText(nfkc: Norm): Norm { t => Collapse(nfkc(t)) }

  ghost predicate KeepsNormalized(nfkc: Norm) {
    forall t: string, n: nat :: nfkc(SemanticKey(Collapse(nfkc(t)), n)) == SemanticKey(Collapse(nfkc(t)), n)
  }

  lemma SuffixIsTidy(t: string, suffix: string)
    requires Tidy(t) && suffix != [] && forall i :: 0 <= i < |suffix| ==> !IsSpace(suffix[i])
    ensures Tidy(t + suffix)
  {
  }

  lemma KeyIsCollapsed(s: string, n: nat)
    requires Tidy(s)
    ensures Collapse(SemanticKey(s, n)) == SemanticKey(s, n)
  {
    SuffixIsTidy(s, MARK + Decimal(n));
    assert s + (MARK + Decimal(n)) == SemanticKey(s, n);
    TidyIsCollapsed(SemanticKey(s, n));
  }

  /** White space does not spoil it: a key made of collapsed text is not changed by collapsing. */
  lemma NormalizedTextIsStable(nfkc: Norm)
    requires KeepsNormalized(nfkc)
    ensures Stable(NormalizedText(nfkc))
  {
    var norm := NormalizedText(nfkc);
    forall t: string, n: nat ensures norm(SemanticKey(norm(t), n)) == SemanticKey(norm(t), n) {
      var s := Collapse(nfkc(t));
      assert Tidy(s) by { CollapseIsTidy(nfkc(t)); }
      KeyIsCollapsed(s, n);
      assert nfkc(SemanticKey(s, n)) == SemanticKey(s, n);
    }
  }

  // ----- keys -----

  lemma KeyHasOneLastNul(t: string, n: nat, i: nat)
    requires |t| < i < |SemanticKey(t, n)|
    ensures SemanticKey(t, n)[i] != '\0'
  {
    var k := i - |t|;
    assert SemanticKey(t, n)[i] == (MARK + Decimal(n))[k];
  }

  /** The last NUL separates text from occurrence, whatever the text contains. */
  lemma KeyInjective(s: string, m: nat, t: string, n: nat)
    requires SemanticKey(s, m) == SemanticKey(t, n)
    ensures s == t && m == n
  {
    var a, b := SemanticKey(s, m), SemanticKey(t, n);
    assert a[|s|] == '\0' && b[|t|] == '\0';
    if |s| < |t| { KeyHasOneLastNul(s, m, |t|); }
    if |t| < |s| { KeyHasOneLastNul(t, n, |s|); }
    assert s == a[..|s|] && t == b[..|t|];
    assert Decimal(m) == a[|s| + |MARK|..] && Decimal(n) == b[|t| + |MARK|..];
    DecimalInjective(m, n);
  }

  /** Parts joined by NULs can be told apart, if the first two contain none. */
  lemma PartsApart(a: string, k: string, x: string, b: string, l: string, y: string)
    requires '\0' !in a && '\0' !in k && '\0' !in b && '\0' !in l
    requires a + "\0" + k + "\0" + x == b + "\0" + l + "\0" + y
    ensures a == b && k == l && x == y
  {
    var s, t := k + "\0" + x, l + "\0" + y;
    assert a + "\0" + k + "\0" + x == a + ['\0'] + s && b + "\0" + l + "\0" + y == b + ['\0'] + t;
    HeadsApart(a, s, b, t);
    assert s == k + ['\0'] + x && t == l + ['\0'] + y;
    HeadsApart(k, x, l, y);
  }

  lemma HeadsApart(a: string, x: string, b: string, y: string)
    requires '\0' !in a && '\0' !in b && a + ['\0'] + x == b + ['\0'] + y
    ensures a == b && x == y
  {
    var s, t := a + ['\0'] + x, b + ['\0'] + y;
    assert s[|a|] == '\0' && t[|b|] == '\0';
    assert forall i :: 0 <= i < |a| ==> s[i] == a[i];
    assert forall i :: 0 <= i < |b| ==> t[i] == b[i];
    assert |a| == |b|;
    assert a == s[..|a|] && b == t[..|b|] && x == s[|a| + 1..] && y == t[|b| + 1..];
  }

  /** Two anchors of one kind and document agree exactly when text and occurrence do. */
  lemma AnchorsAgree(kind: string, document: string, s: string, m: nat, t: string, n: nat, norm: Norm, digest: Digest)
    requires Injective(digest) && Stable(norm)
    ensures AnchorFor(kind, document, SemanticKey(norm(s), m), norm, digest)
      == AnchorFor(kind, document, SemanticKey(norm(t), n), norm, digest)
      <==> norm(s) == norm(t) && m == n
  {
    var a, b := SemanticKey(norm(s), m), SemanticKey(norm(t), n);
    var prefix := document + "\0" + kind + "\0";
    assert prefix + a == prefix + b ==> a == b by {
      if prefix + a == prefix + b { assert a == (prefix + a)[|prefix|..] == (prefix + b)[|prefix|..] == b; }
    }
    if a == b { KeyInjective(norm(s), m, norm(t), n); }
  }

  /** Anchors of any two kinds and documents agree exactly when kind, document, text and occurrence do. */
  lemma AnchorsAcrossDocuments(
    kind: string, document: string, s: string, m: nat, kind': string, document': string, t: string, n: nat, norm: Norm, digest: Digest)
    requires Injective(digest) && Stable(norm)
    requires '\0' !in kind && '\0' !in document && '\0' !in kind' && '\0' !in document'
    ensures AnchorFor(kind, document, SemanticKey(norm(s), m), norm, digest)
      == AnchorFor(kind', document', SemanticKey(norm(t), n), norm, digest)
      <==> kind == kind' && document == document' && norm(s) == norm(t) && m == n
  {
    var a, b := SemanticKey(norm(s), m), SemanticKey(norm(t), n);
    if document + "\0" + kind + "\0" + a == document' + "\0" + kind' + "\0" + b {
      PartsApart(document, kind, a, document', kind', b);
      KeyInjective(norm(s), m, norm(t), n);
    }
  }

  // ----- occurrences -----

  datatype Kinship = Kinship(kind: BlockType, normalized: string)

  function KinshipOf(b: RawBlock, norm: Norm): Kinship { Kinship(TypeOf(b), norm(b.text)) }

  function Kinships(blocks: seq<RawBlock>, norm: Norm): (k: seq<Kinship>)
    ensures |k| == |blocks|
  {
    if blocks == [] then []
    else Kinships(blocks[..|blocks| - 1], norm) + [KinshipOf(blocks[|blocks| - 1], norm)]
  }

  lemma {:induction false} KinshipsAt(blocks: seq<RawBlock>, i: nat, norm: Norm)
    requires i < |blocks|
    ensures Kinships(blocks, norm)[i] == KinshipOf(blocks[i], norm)
    decreases |blocks|
  {
    if i < |blocks| - 1 { KinshipsAt(blocks[..|blocks| - 1], i, norm); }
  }

  /** How many of the first `n` are this one. */
  function Count(kinships: seq<Kinship>, key: Kinship, n: nat): (c: nat)
    requires n <= |kinships|
  {
    if n == 0 then 0 else Count(kinships, key, n - 1) + if kinships[n - 1] == key then 1 else 0
  }

  lemma {:induction false} CountGrows(kinships: seq<Kinship>, key: Kinship, i: nat, j: nat)
    requires i <= j <= |kinships|
    ensures Count(kinships, key, i) <= Count(kinships, key, j)
    decreases j
  {
    if i < j { CountGrows(kinships, key, i, j - 1); }
  }

  lemma LaterCount(kinships: seq<Kinship>, i: nat, j: nat)
    requires i < j < |kinships| && kinships[i] == kinships[j]
    ensures Count(kinships, kinships[i], i) < Count(kinships, kinships[j], j)
  {
    CountGrows(kinships, kinships[i], i + 1, j);
  }

  /** How many earlier blocks have the type and text of block `i`. */
  function Occurrence(kinships: seq<Kinship>, i: nat): nat
    requires i < |kinships|
  {
    Count(kinships, kinships[i], i)
  }

  function KeyAt(kinships: seq<Kinship>, i: nat): string
    requires i < |kinships|
  {
    SemanticKey(kinships[i].normalized, Occurrence(kinships, i))
  }

  /** The anchor of this kind for block `i`. */
  function AnchorAt(kind: string, document: string, blocks: seq<RawBlock>, i: nat, norm: Norm, digest: Digest): Anchor
    requires i < |blocks|
  {
    AnchorFor(kind, document, KeyAt(Kinships(blocks, norm), i), norm, digest)
  }

  /** The positions of the blocks before block `i` with its type and its normalised text. */
  function EarlierAlike(blocks: seq<RawBlock>, i: nat, norm: Norm): (alike: set<int>)
    requires i < |blocks|
    ensures forall j :: j in alike <==> 0 <= j < i && TypeOf(blocks[j]) == TypeOf(blocks[i]) && norm(blocks[j].text) == norm(blocks[i].text)
  {
    set j | 0 <= j < i && TypeOf(blocks[j]) == TypeOf(blocks[i]) && norm(blocks[j].text) == norm(blocks[i].text)
  }

  lemma {:induction false} CountIsNumber(kinships: seq<Kinship>, key: Kinship, n: nat) returns (at: set<int>)
    requires n <= |kinships|
    ensures Count(kinships, key, n) == |at| && forall j :: j in at <==> 0 <= j < n && kinships[j] == key
  {
    if n == 0 {
      at := {};
    } else {
      var before := CountIsNumber(kinships, key, n - 1);
      at := before + if kinships[n - 1] == key then {n - 1} else {};
    }
  }

  /** The anchor of block `i`, written out: the digest of the document, the kind, and the normalised key, which is
    the normalised text with the number of earlier blocks of this type and text behind it. */
  lemma AnchorIs(kind: string, document: string, blocks: seq<RawBlock>, i: nat, norm: Norm, digest: Digest)
    requires i < |blocks|
    ensures AnchorAt(kind, document, blocks, i, norm, digest) == Anchor(kind, digest(
      document + "\0" + kind + "\0" + norm(norm(blocks[i].text) + "\0occurrence=" + Decimal(|EarlierAlike(blocks, i, norm)|))))
  {
    var kinships := Kinships(blocks, norm);
    forall j | 0 <= j < |blocks| ensures kinships[j] == Kinship(TypeOf(blocks[j]), norm(blocks[j].text)) { KinshipsAt(blocks, j, norm); }
    var at := CountIsNumber(kinships, kinships[i], i);
    assert at == EarlierAlike(blocks, i, norm);
  }

  /** Two blocks share an anchor exactly when they differ in type and agree in normalised text and in the
    number of earlier blocks of their own type with that text: the type is counted by but not hashed. */
  lemma SharedAnchors(kind: string, document: string, blocks: seq<RawBlock>, i: nat, j: nat, norm: Norm, digest: Digest)
    requires Injective(digest) && Stable(norm) && i < j < |blocks|
    ensures AnchorAt(kind, document, blocks, i, norm, digest) == AnchorAt(kind, document, blocks, j, norm, digest)
      <==>
      && TypeOf(blocks[i]) != TypeOf(blocks[j])
      && norm(blocks[i].text) == norm(blocks[j].text)
      && Occurrence(Kinships(blocks, norm), i) == Occurrence(Kinships(blocks, norm), j)
  {
    var kinships := Kinships(blocks, norm);
    KinshipsAt(blocks, i, norm);
    KinshipsAt(blocks, j, norm);
    var m, n := Occurrence(kinships, i), Occurrence(kinships, j);
    AnchorsAgree(kind, document, blocks[i].text, m, blocks[j].text, n, norm, digest);
    if kinships[i] == kinships[j] { LaterCount(kinships, i, j); }
  }

  // ----- cells -----

  function RowCells(row: seq<string>, r: nat, table: string): (cells: seq<Cell>)
    ensures |cells| == |row|
    ensures forall c :: 0 <= c < |row| ==> cells[c] == Cell(CellAnchor(table, r, c), r, c, row[c], r == 0)
  {
    seq(|row|, c requires 0 <= c < |row| => Cell(CellAnchor(table, r, c), r, c, row[c], r == 0))
  }

  /** The cells of the first `n` rows. */
  function CellsOf(rows: Rows, n: nat, table: string): seq<Cell>
    requires n <= |rows|
  {
    if n == 0 then [] else CellsOf(rows, n - 1, table) + RowCells(rows[n - 1], n - 1, table)
  }

  predicate Precedes(a: Cell, b: Cell) { a.row < b.row || (a.row == b.row && a.column < b.column) }

  ghost predicate ProperCell(x: Cell, rows: Rows, n: nat, table: string)
    requires n <= |rows|
  {
    && x.row < n && x.column < |rows[x.row]|
    && x == Cell(CellAnchor(table, x.row, x.column), x.row, x.column, rows[x.row][x.column], x.row == 0)
  }

  /** Proper cells only, in reading order, so that no position comes twice. */
  ghost predicate RowMajor(cells: seq<Cell>, rows: Rows, n: nat, table: string)
    requires n <= |rows|
  {
    && (forall i :: 0 <= i < |cells| ==> ProperCell(cells[i], rows, n, table))
    && (forall i, j :: 0 <= i < j < |cells| ==> Precedes(cells[i], cells[j]))
  }

  lemma {:induction false} CellsInOrder(rows: Rows, n: nat, table: string)
    requires n <= |rows|
    ensures RowMajor(CellsOf(rows, n, table), rows, n, table)
    decreases n
  {
    if n > 0 {
      CellsInOrder(rows, n - 1, table);
      var before, last := CellsOf(rows, n - 1, table), RowCells(rows[n - 1], n - 1, table);
      forall i | 0 <= i < |before| ensures ProperCell((before + last)[i], rows, n, table) {
        assert ProperCell(before[i], rows, n - 1, table);
      }
      forall i, j | 0 <= i < j < |before + last| ensures Precedes((before + last)[i], (before + last)[j]) {
        if i < |before| <= j { assert ProperCell(before[i], rows, n - 1, table); }
      }
    }
  }

  /** Every position of the table has its cell. */
  lemma {:induction false} CellPresent(rows: Rows, n: nat, table: string, r: nat, c: nat)
    requires r < n <= |rows| && c < |rows[r]|
    ensures Cell(CellAnchor(table, r, c), r, c, rows[r][c], r == 0) in CellsOf(rows, n, table)
    decreases n
  {
    if r < n - 1 {
      CellPresent(rows, n - 1, table, r, c);
    } else {
      assert RowCells(rows[r], r, table)[c] in CellsOf(rows, n, table);
    }
  }

  ghost predicate HasCell(cells: seq<Cell>, r: nat, c: nat) {
    exists k :: 0 <= k < |cells| && cells[k].row == r && cells[k].column == c
  }

  /** The cells are the table: read row by row, each position once, with its own text. */
  ghost predicate Tiles(table: SemanticTable) {
    && table.anchor.Anchor?
    && RowMajor(table.cells, table.rows, |table.rows|, table.anchor.digest)
    && forall r: nat, c: nat :: r < |table.rows| && c < |table.rows[r]| ==> HasCell(table.cells, r, c)
  }

  lemma TableTiles(document: string, blocks: seq<RawBlock>, i: nat, norm: Norm, digest: Digest)
    requires i < |blocks| && blocks[i].TableBlock?
    ensures Tiles(TableAt(document, blocks, i, norm, digest))
  {
    var t := TableAt(document, blocks, i, norm, digest);
    CellsInOrder(t.rows, |t.rows|, t.anchor.digest);
    forall r: nat, c: nat | r < |t.rows| && c < |t.rows[r]| ensures HasCell(t.cells, r, c) {
      CellPresent(t.rows, |t.rows|, t.anchor.digest, r, c);
    }
  }

  /** No cell anchor is given out twice in a document. */
  lemma CellAnchorsDistinct(document: string, blocks: seq<RawBlock>, i: nat, j: nat, norm: Norm, digest: Digest, p: nat, q: nat)
    requires Injective(digest) && Stable(norm) && i < |blocks| && j < |blocks|
    requires blocks[i].TableBlock? && blocks[j].TableBlock?
    requires p < |TableAt(document, blocks, i, norm, digest).cells|
    requires q < |TableAt(document, blocks, j, norm, digest).cells|
    requires TableAt(document, blocks, i, norm, digest).cells[p].anchor == TableAt(document, blocks, j, norm, digest).cells[q].anchor
    ensures i == j && p == q
  {
    var s, t := TableAt(document, blocks, i, norm, digest), TableAt(document, blocks, j, norm, digest);
    CellsInOrder(s.rows, |s.rows|, s.anchor.digest);
    CellsInOrder(t.rows, |t.rows|, t.anchor.digest);
    assert ProperCell(s.cells[p], s.rows, |s.rows|, s.anchor.digest) && ProperCell(t.cells[q], t.rows, |t.rows|, t.anchor.digest);
    assert s.anchor == t.anchor;
    if i < j { SharedAnchors("table", document, blocks, i, j, norm, digest); }
    if j < i { SharedAnchors("table", document, blocks, j, i, norm, digest); }
    assert i == j ==> (p < q ==> Precedes(s.cells[p], s.cells[q])) && (q < p ==> Precedes(s.cells[q], s.cells[p]));
  }

  function TableFor(document: string, rows: Rows, key: string, norm: Norm, digest: Digest): SemanticTable {
    var anchor := AnchorFor("table", document, key, norm, digest);
    SemanticTable(anchor, rows, CellsOf(rows, |rows|, anchor.digest))
  }

  /** The table of block `i`. */
  function TableAt(document: string, blocks: seq<RawBlock>, i: nat, norm: Norm, digest: Digest): (table: SemanticTable)
    requires i < |blocks| && blocks[i].TableBlock?
    ensures table.anchor == AnchorAt("table", document, blocks, i, norm, digest)
  {
    TableFor(document, blocks[i].rows, KeyAt(Kinships(blocks, norm), i), norm, digest)
  }

  // ----- the annotating loop -----

  function Semantic(document: string, b: RawBlock, key: string, order: nat, norm: Norm, digest: Digest): SemanticBlock {
    SemanticBlock(
      AnchorFor("block", document, key, norm, digest), TypeOf(b), b.text, order,
      if b.HeadingBlock? then Some(b.level) else None,
      if b.TableBlock? then Some(TableFor(document, b.rows, key, norm, digest)) else None)
  }

  ghost predicate Counted(occurrences: map<Kinship, nat>, kinships: seq<Kinship>, n: nat) {
    && n <= |kinships|
    && forall key :: Count(kinships, key, n) == if key in occurrences then occurrences[key] else 0
  }

  lemma CountedNext(occurrences: map<Kinship, nat>, kinships: seq<Kinship>, n: nat)
    requires Counted(occurrences, kinships, n) && n < |kinships|
    ensures Counted(occurrences[kinships[n] := Count(kinships, kinships[n], n) + 1], kinships, n + 1)
  {
  }

  /** What block `i` of the whole list is annotated with. */
  function SemanticAt(document: string, blocks: seq<RawBlock>, i: nat, norm: Norm, digest: Digest): SemanticBlock
    requires i < |blocks|
  {
    Semantic(document, blocks[i], KeyAt(Kinships(blocks, norm), i), i + 1, norm, digest)
  }

  /** Block `i` keeps its type, its text and its table, is numbered from one, and is anchored by its own key; its
    table's cells tile it. */
  ghost predicate Annotates(a: SemanticBlock, document: string, blocks: seq<RawBlock>, i: nat, norm: Norm, digest: Digest)
    requires i < |blocks|
  {
    var b := blocks[i];
    && a.order == i + 1 && a.text == b.text
    && a.kind == (match b case Prose(kind, _) => kind case HeadingBlock(_, _) => Heading case TableBlock(_, _) => Table)
    && a.level == (if b.HeadingBlock? then Some(b.level) else None)
    && a.anchor == AnchorAt("block", document, blocks, i, norm, digest)
    && (a.table.Some? <==> b.TableBlock?)
    && (b.TableBlock? ==>
          && a.table.value == TableAt(document, blocks, i, norm, digest) && a.table.value.rows == b.rows
          && a.table.value.anchor == AnchorAt("table", document, blocks, i, norm, digest) && Tiles(a.table.value))
  }

  lemma SemanticAtAnnotates(document: string, blocks: seq<RawBlock>, i: nat, norm: Norm, digest: Digest)
    requires i < |blocks|
    ensures Annotates(SemanticAt(document, blocks, i, norm, digest), document, blocks, i, norm, digest)
  {
    if blocks[i].TableBlock? { TableTiles(document, blocks, i, norm, digest); }
  }

  /** The first `n` blocks, annotated. */
  function SemanticBlocks(document: string, blocks: seq<RawBlock>, n: nat, norm: Norm, digest: Digest): (semantic: seq<SemanticBlock>)
    requires n <= |blocks|
    ensures |semantic| == n
  {
    if n == 0 then []
    else SemanticBlocks(document, blocks, n - 1, norm, digest) + [SemanticAt(document, blocks, n - 1, norm, digest)]
  }

  lemma {:induction false} SemanticBlocksAnnotate(document: string, blocks: seq<RawBlock>, n: nat, norm: Norm, digest: Digest, i: nat)
    requires i < n <= |blocks|
    ensures Annotates(SemanticBlocks(document, blocks, n, norm, digest)[i], document, blocks, i, norm, digest)
    decreases n
  {
    if i < n - 1 {
      SemanticBlocksAnnotate(document, blocks, n - 1, norm, digest, i);
    } else {
      SemanticAtAnnotates(document, blocks, i, norm, digest);
    }
  }

  /** Number the blocks from one, in order, and anchor them, counting earlier equals in one pass. */
  method Annotate(document: string, blocks: seq<RawBlock>, norm: Norm, digest: Digest) returns (semantic: seq<SemanticBlock>)
    ensures |semantic| == |blocks|
    ensures forall i :: 0 <= i < |blocks| ==> Annotates(semantic[i], document, blocks, i, norm, digest)
  {
    var kinships := Kinships(blocks, norm);
    var occurrences: map<Kinship, nat> := map[];
    semantic := [];
    for i := 0 to |blocks|
      invariant Counted(occurrences, kinships, i)
      invariant semantic == SemanticBlocks(document, blocks, i, norm, digest)
    {
      var kinship := kinships[i];
      var occurrence := if kinship in occurrences then occurrences[kinship] else 0;
      var key := SemanticKey(kinship.normalized, occurrence);
      CountedNext(occurrences, kinships, i);
      occurrences := occurrences[kinship := occurrence + 1];
      semantic := semantic + [Semantic(document, blocks[i], key, i + 1, norm, digest)];
    }
    forall i | 0 <= i < |blocks| ensures Annotates(semantic[i], document, blocks, i, norm, digest) {
      SemanticBlocksAnnotate(document, blocks, |blocks|, norm, digest, i);
    }
  }

  // ----- the whole reader -----

  datatype SemanticSource = SemanticSource(title: string, blocks: seq<SemanticBlock>)

  /** No two cells of a document share an anchor. */
  ghost predicate CellsApart(blocks: seq<SemanticBlock>) {
    forall i, j, p, q ::
      && 0 <= i < |blocks| && 0 <= j < |blocks| && blocks[i].table.Some? && blocks[j].table.Some?
      && 0 <= p < |blocks[i].table.value.cells| && 0 <= q < |blocks[j].table.value.cells|
      && blocks[i].table.value.cells[p].anchor == blocks[j].table.value.cells[q].anchor
      ==> i == j && p == q
  }

  lemma AnnotatedCellsApart(semantic: seq<SemanticBlock>, document: string, blocks: seq<RawBlock>, norm: Norm, digest: Digest)
    requires Injective(digest) && Stable(norm) && |semantic| == |blocks|
    requires forall i :: 0 <= i < |blocks| ==> Annotates(semantic[i], document, blocks, i, norm, digest)
    ensures CellsApart(semantic)
  {
    forall i, j, p, q |
      && 0 <= i < |semantic| && 0 <= j < |semantic| && semantic[i].table.Some? && semantic[j].table.Some?
      && 0 <= p < |semantic[i].table.value.cells| && 0 <= q < |semantic[j].table.value.cells|
      && semantic[i].table.value.cells[p].anchor == semantic[j].table.value.cells[q].anchor
      ensures i == j && p == q
    {
      assert Annotates(semantic[i], document, blocks, i, norm, digest) && Annotates(semantic[j], document, blocks, j, norm, digest);
      CellAnchorsDistinct(document, blocks, i, j, norm, digest, p, q);
    }
  }

  /** Read a whole document.  Its lines are cut into blocks in the one possible way, the blocks are numbered
    1 to n and annotated, every table is a rectangle tiled by its cells, and, with digests that tell texts
    apart, no cell anchor repeats. */
  method ParseSemanticSource(document: string, lines: seq<string>, norm: Norm, digest: Digest)
    returns (source: Option<SemanticSource>, blocks: seq<RawBlock>, spans: seq<Span>)
    ensures source.Some? <==>
      lines != [] && Kinds(lines)[0] != Blank && TablesFit(Kinds(lines), BodyStart(lines), |lines|, Fits(lines))
    ensures source.Some? ==> source.value.title == TitleOf(lines[0])
    ensures source.Some? ==> ReadsAs(lines, blocks, spans) && |source.value.blocks| == |blocks| == |spans|
    ensures source.Some? ==>
      forall i :: 0 <= i < |blocks| ==> Annotates(source.value.blocks[i], document, blocks, i, norm, digest)
    ensures source.Some? ==>
      forall i :: 0 <= i < |blocks| && blocks[i].TableBlock? ==> Rectangular(blocks[i].rows)
    ensures source.Some? && Injective(digest) && Stable(norm) ==> CellsApart(source.value.blocks)
  {
    var parsed := Parse(lines);
    if !parsed.Source? { return None, [], []; }
    blocks, spans := parsed.blocks, parsed.spans;
    forall i | 0 <= i < |blocks| && blocks[i].TableBlock? ensures Rectangular(blocks[i].rows) {
      TablesAreRectangles(lines, blocks, spans, i);
    }
    var semantic := Annotate(document, blocks, norm, digest);
    if Injective(digest) && Stable(norm) { AnnotatedCellsApart(semantic, document, blocks, norm, digest); }
    source := Some(SemanticSource(parsed.title, semantic));
  }

  /** A document whose title is repeated as a paragraph names both blocks alike. */
  lemma TitleSharesItsAnchor(document: string, text: string, norm: Norm, digest: Digest)
    ensures var blocks := [Prose(Title, text), Prose(Paragraph, text)];
      AnchorAt("block", document, blocks, 0, norm, digest) == AnchorAt("block", document, blocks, 1, norm, digest)
  {
    var blocks := [Prose(Title, text), Prose(Paragraph, text)];
    KinshipsAt(blocks, 0, norm);
    KinshipsAt(blocks, 1, norm);
    var kinships := Kinships(blocks, norm);
    assert Count(kinships, kinships[1], 0) == 0;
    assert Occurrence(kinships, 0) == 0 == Occurrence(kinships, 1);
  }
}
