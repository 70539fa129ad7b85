/** Raw-to-processed accounting of a corpus: every raw file is processed, excluded, or known from history to
  have had no output. */
module CorpusLedger {
  import opened CreateOnlyFiles
  import opened SourceText
  import opened TupleOrder

  const HISTORY_STAGE := "historical_snapshot_comparison"
  const HISTORY_REASON_CODE := "historical_no_output_unknown_cause"
  const HISTORY_MESSAGE :=
    "no processed output names this raw source in the referenced 2026-07-07 snapshot; "
    + "whether the source failed, was skipped, or stopped at another stage is unknown"

  /** A processed note; a field that is not a string is None. */
  datatype Note = Note(path: string, sha256: string, front: Option<Frontmatter>)
  datatype Frontmatter = Frontmatter(provenance: Option<string>, provenanceHash: Option<string>)

  datatype Observation = Observation(
    rawPath: Option<string>, id: Option<string>, stage: Option<string>, reasonCode: Option<string>,
    text: Option<string>, attemptsKnown: bool, rawSha256: Option<string>)

  datatype Exclusion = Exclusion(
    rawPath: Option<string>, reasonCode: Option<string>, reason: Option<string>, rawSha256: Option<string>)

  /** A record file: whether its schema version is supported, and its rows if they are a list. */
  datatype Record<T> = Record(supported: bool, rows: Option<seq<T>>)

  datatype RawFile = RawFile(path: string, sha256: string, contentHash: string)

  datatype ProcessedRow = ProcessedRow(path: string, sha256: string, provenanceHash: string)

  datatype Status =
    | Processed(note: ProcessedRow, observed: Option<Observation>)
    | HistoricalNoOutput(observation: Observation)
    | Excluded(exclusion: Exclusion)

  datatype Entry = Entry(rawPath: string, rawSha256: string, status: Status)

  datatype Issue =
    | InvalidFrontmatter(path: string)
    | MissingProvenance(path: string)
    | MissingProvenanceHash(path: string)
    | MultipleNotes(path: string, first: string, second: string)
    | UnsupportedSchema
    | NotAList
    | InvalidRow
    | RowIssue(path: string, what: string)
    | MultiplyClassified(path: string)
    | Mismatch(path: string)
    | Unclassified(path: string)
    | Dangling(path: string)

  datatype Summary = Summary(raw: nat, processed: nat, excluded: nat, historical: nat, observations: nat)

  datatype Ledger = Ledger(summary: Summary, entriesSha256: Sha256<seq<Entry>>, entries: seq<Entry>)

  predicate Given(field: Option<string>) { field.Some? && field.value != "" }

  // ----- processed notes -----

  predicate NamesSource(n: Note) {
    n.front.Some? && Given(n.front.value.provenance) && Given(n.front.value.provenanceHash)
  }

  function ProvenanceOf(n: Note): string
    requires NamesSource(n)
  {
    n.front.value.provenance.value
  }

  function RowOf(n: Note): ProcessedRow
    requires NamesSource(n)
  {
    ProcessedRow(n.path, n.sha256, n.front.value.provenanceHash.value)
  }

  /** The first usable note for a source: later ones are reported, not used. */
  function FirstNote(notes: seq<Note>, source: string): (first: Option<Note>)
    ensures first.Some? ==> NamesSource(first.value)
  {
    if notes == [] then None
    else
      var earlier := FirstNote(notes[..|notes| - 1], source);
      var last := notes[|notes| - 1];
      if earlier.None? && NamesSource(last) && ProvenanceOf(last) == source then Some(last) else earlier
  }

  ghost predicate NotesClean(notes: seq<Note>) {
    && (forall n :: n in notes ==> NamesSource(n))
    && (forall i, j :: 0 <= i < j < |notes| ==> ProvenanceOf(notes[i]) != ProvenanceOf(notes[j]))
  }

  ghost predicate Indexed(found: map<string, ProcessedRow>, notes: seq<Note>) {
    && (forall p :: p in found <==> FirstNote(notes, p).Some?)
    && (forall p :: p in found ==> found[p] == RowOf(FirstNote(notes, p).value))
  }

  ghost predicate Named(notes: seq<Note>, p: string) {
    exists n :: n in notes && NamesSource(n) && ProvenanceOf(n) == p
  }

  lemma {:induction false} FirstNoteIsThere(notes: seq<Note>, p: string)
    ensures FirstNote(notes, p).Some? <==> Named(notes, p)
    decreases |notes|
  {
    if notes != [] {
      FirstNoteIsThere(notes[..|notes| - 1], p);
      assert notes == notes[..|notes| - 1] + [notes[|notes| - 1]];
    }
  }

  lemma NextNote(notes: seq<Note>, n: Note)
    ensures NotesClean(notes + [n]) <==>
      NotesClean(notes) && NamesSource(n) && FirstNote(notes, ProvenanceOf(n)).None?
  {
    var more := notes + [n];
    assert more[|notes|] == n && forall m :: m in notes ==> m in more;
    assert forall i :: 0 <= i < |notes| ==> more[i] == notes[i];
    if NamesSource(n) { FirstNoteIsThere(notes, ProvenanceOf(n)); }
    if NotesClean(notes) && NamesSource(n) && !Named(notes, ProvenanceOf(n)) {
      forall i, j | 0 <= i < j < |more| ensures ProvenanceOf(more[i]) != ProvenanceOf(more[j]) {
        assert notes[i] in notes && NamesSource(notes[i]);
      }
    }
    if NotesClean(more) {
      forall m | m in notes && NamesSource(m) ensures ProvenanceOf(m) != ProvenanceOf(n) {
        var i :| 0 <= i < |notes| && notes[i] == m;
        assert ProvenanceOf(more[i]) != ProvenanceOf(more[|notes|]);
      }
    }
  }

  /** What is wrong with a note, given the sources already indexed. */
  function NoteIssue(n: Note, found: map<string, ProcessedRow>): (issue: Option<Issue>)
    ensures issue.Some? ==> !AboutFile(issue.value)
  {
    if n.front.None? then Some(InvalidFrontmatter(n.path))
    else if !Given(n.front.value.provenance) then Some(MissingProvenance(n.path))
    else if !Given(n.front.value.provenanceHash) then Some(MissingProvenanceHash(n.path))
    else
      var p := n.front.value.provenance.value;
      if p in found then Some(MultipleNotes(p, found[p].path, n.path)) else None
  }

  lemma IndexedNext(found: map<string, ProcessedRow>, notes: seq<Note>, n: Note)
    requires Indexed(found, notes)
    ensures NoteIssue(n, found).Some? ==> Indexed(found, notes + [n])
    ensures NoteIssue(n, found).None? ==>
      NamesSource(n) && ProvenanceOf(n) !in found && Indexed(found[ProvenanceOf(n) := RowOf(n)], notes + [n])
    ensures NotesClean(notes + [n]) <==> NotesClean(notes) && NoteIssue(n, found).None?
  {
    assert (notes + [n])[..|notes|] == notes;
    NextNote(notes, n);
  }

  /** Index the notes by the source they name.  Every note is indexed or reported, never both. */
  method ProcessedByProvenance(notes: seq<Note>) returns (found: map<string, ProcessedRow>, issues: seq<Issue>)
    ensures Indexed(found, notes)
    ensures |notes| == |found| + |issues|
    ensures issues == [] <==> NotesClean(notes)
    ensures Harmless(issues)
  {
    found, issues := map[], [];
    ghost var read: seq<Note> := [];
    for i := 0 to |notes|
      invariant read == notes[..i] && Indexed(found, read)
      invariant i == |found| + |issues|
      invariant issues == [] <==> NotesClean(read)
      invariant Harmless(issues)
    {
      assert notes[..i + 1] == notes[..i] + [notes[i]];
      IndexedNext(found, read, notes[i]);
      read := read + [notes[i]];
      var issue := NoteIssue(notes[i], found);
      if issue.Some? {
        issues := issues + [issue.value];
      } else {
        found := found[ProvenanceOf(notes[i]) := RowOf(notes[i])];
      }
    }
    assert read == notes;
  }

  // ----- records -----

  /** The row that a record keeps for a path: the last one. */
  function LastRow<T>(rows: seq<T>, pathOf: T -> Option<string>, p: string): Option<T> {
    if rows == [] then None
    else if pathOf(rows[|rows| - 1]) == Some(p) then Some(rows[|rows| - 1])
    else LastRow(rows[..|rows| - 1], pathOf, p)
  }

  ghost predicate Kept<T>(kept: map<string, T>, rows: seq<T>, pathOf: T -> Option<string>) {
    forall p :: LastRow(rows, pathOf, p) == if p in kept then Some(kept[p]) else None
  }

  lemma KeptNext<T>(kept: map<string, T>, rows: seq<T>, pathOf: T -> Option<string>, row: T)
    requires Kept(kept, rows, pathOf)
    ensures pathOf(row).None? ==> Kept(kept, rows + [row], pathOf)
    ensures pathOf(row).Some? ==> Kept(kept[pathOf(row).value := row], rows + [row], pathOf)
  {
    assert (rows + [row])[..|rows|] == rows;
  }

  /** No value is given by two rows. */
  ghost predicate Distinct<T>(rows: seq<T>, valueOf: T -> Option<string>) {
    forall i, j :: 0 <= i < j < |rows| && valueOf(rows[i]).Some? ==> valueOf(rows[i]) != valueOf(rows[j])
  }

  ghost predicate Gives<T>(rows: seq<T>, valueOf: T -> Option<string>, v: string) {
    exists row :: row in rows && valueOf(row) == Some(v)
  }

  lemma {:induction false} LastRowIsThere<T>(rows: seq<T>, valueOf: T -> Option<string>, v: string)
    ensures LastRow(rows, valueOf, v).Some? <==> Gives(rows, valueOf, v)
    decreases |rows|
  {
    if rows != [] {
      LastRowIsThere(rows[..|rows| - 1], valueOf, v);
      assert rows == rows[..|rows| - 1] + [rows[|rows| - 1]];
    }
  }

  lemma DistinctNext<T>(rows: seq<T>, valueOf: T -> Option<string>, row: T)
    ensures Distinct(rows + [row], valueOf) <==>
      Distinct(rows, valueOf) && (valueOf(row).Some? ==> LastRow(rows, valueOf, valueOf(row).value).None?)
  {
    var more := rows + [row];
    assert more[|rows|] == row && forall i :: 0 <= i < |rows| ==> more[i] == rows[i];
    if valueOf(row).Some? { LastRowIsThere(rows, valueOf, valueOf(row).value); }
    if Distinct(more, valueOf) {
      forall r | r in rows ensures valueOf(row).Some? ==> valueOf(r) != valueOf(row) {
        var i :| 0 <= i < |rows| && rows[i] == r;
        assert valueOf(more[i]).Some? ==> valueOf(more[i]) != valueOf(more[|rows|]);
      }
    }
    if Distinct(rows, valueOf) && (valueOf(row).Some? ==> !Gives(rows, valueOf, valueOf(row).value)) {
      forall i, j | 0 <= i < j < |more| && valueOf(more[i]).Some? ensures valueOf(more[i]) != valueOf(more[j]) {
        assert rows[i] in rows;
      }
    }
  }

  function ObservedPath(row: Observation): Option<string> { row.rawPath }

  function StableId(row: Observation): Option<string> {
    if row.rawPath.Some? && Given(row.id) then row.id else None
  }

  predicate ObservationSound(row: Observation) {
    && row.rawPath.Some?
    && Given(row.id)
    && row.stage == Some(HISTORY_STAGE)
    && row.reasonCode == Some(HISTORY_REASON_CODE)
    && row.text == Some(HISTORY_MESSAGE)
    && !row.attemptsKnown
  }

  function When(wrong: bool, p: string, what: string): (issues: seq<Issue>)
    ensures wrong <==> issues != []
    ensures forall issue :: issue in issues ==> issue.RowIssue?
  {
    if wrong then [RowIssue(p, what)] else []
  }

  /** The issues of one observation, in the order of the checks. */
  function ObservationIssues(row: Observation, history: map<string, Observation>, ids: set<string>): (issues: seq<Issue>)
    ensures issues == [] <==>
      && ObservationSound(row)
      && row.rawPath.value !in history
      && row.id.value !in ids
    ensures Harmless(issues)
  {
    if row.rawPath.None? then [InvalidRow]
    else
      var p := row.rawPath.value;
      When(p in history, p, "duplicate")
      + When(!Given(row.id), p, "id") + When(Given(row.id) && row.id.value in ids, p, "duplicate id")
      + When(row.stage != Some(HISTORY_STAGE), p, "stage")
      + When(row.reasonCode != Some(HISTORY_REASON_CODE), p, "reason_code")
      + When(row.text != Some(HISTORY_MESSAGE), p, "observation")
      + When(row.attemptsKnown, p, "attempts")
  }

  function RowsIn<T>(record: Record<T>): seq<T> { if record.rows.Some? then record.rows.value else [] }

  ghost predicate ObservationsClean(rows: seq<Observation>) {
    && (forall row :: row in rows ==> ObservationSound(row))
    && Distinct(rows, ObservedPath)
    && Distinct(rows, StableId)
  }

  ghost predicate HistoryClean(record: Record<Observation>) {
    record.supported && record.rows.Some? && ObservationsClean(record.rows.value)
  }

  lemma ObservationNext(rows: seq<Observation>, row: Observation, history: map<string, Observation>, ids: set<string>)
    requires Kept(history, rows, ObservedPath)
    requires forall v :: v in ids <==> LastRow(rows, StableId, v).Some?
    ensures ObservationsClean(rows + [row]) <==> ObservationsClean(rows) && ObservationIssues(row, history, ids) == []
  {
    DistinctNext(rows, ObservedPath, row);
    DistinctNext(rows, StableId, row);
    AllNext(rows, row, ObservationSound);
    if ObservationSound(row) {
      assert StableId(row) == row.id && ObservedPath(row) == row.rawPath;
      assert LastRow(rows, ObservedPath, row.rawPath.value).None? <==> row.rawPath.value !in history;
      assert LastRow(rows, StableId, row.id.value).None? <==> row.id.value !in ids;
    }
  }

  lemma AllNext<T>(rows: seq<T>, row: T, sound: T -> bool)
    ensures (forall r :: r in rows + [row] ==> sound(r)) <==> (forall r :: r in rows ==> sound(r)) && sound(row)
  {
    assert (rows + [row])[|rows|] == row;
    assert forall r :: r in rows ==> r in rows + [row];
  }

  lemma IdsNext(rows: seq<Observation>, row: Observation, ids: set<string>)
    requires forall v :: v in ids <==> LastRow(rows, StableId, v).Some?
    ensures var more := if StableId(row).Some? then ids + {StableId(row).value} else ids;
      forall v :: v in more <==> LastRow(rows + [row], StableId, v).Some?
  {
    assert (rows + [row])[..|rows|] == rows;
  }

  /** Read the history record: the last observation of each path is kept, every irregularity is reported. */
  method ReadHistory(record: Record<Observation>) returns (history: map<string, Observation>, issues: seq<Issue>)
    ensures Kept(history, RowsIn(record), ObservedPath)
    ensures issues == [] <==> HistoryClean(record)
    ensures Harmless(issues)
  {
    issues := if record.supported then [] else [UnsupportedSchema];
    if record.rows.None? { issues := issues + [NotAList]; }
    history := map[];
    var rows := RowsIn(record);
    var ids: set<string> := {};
    ghost var read: seq<Observation> := [];
    ghost var recordOk := record.supported && record.rows.Some?;
    for i := 0 to |rows|
      invariant read == rows[..i] && Kept(history, read, ObservedPath)
      invariant forall v :: v in ids <==> LastRow(read, StableId, v).Some?
      invariant issues == [] <==> recordOk && ObservationsClean(read)
      invariant Harmless(issues)
    {
      var row := rows[i];
      assert rows[..i + 1] == rows[..i] + [row];
      ObservationNext(read, row, history, ids);
      KeptNext(history, read, ObservedPath, row);
      IdsNext(read, row, ids);
      read := read + [row];
      issues := issues + ObservationIssues(row, history, ids);
      var stable := StableId(row);
      if stable.Some? { ids := ids + {stable.value}; }
      if row.rawPath.Some? { history := history[row.rawPath.value := row]; }
    }
    assert read == rows;
  }

  function ExcludedPath(row: Exclusion): Option<string> { row.rawPath }

  predicate Stated(field: Option<string>) { field.Some? && Strip(field.value) != "" }

  predicate ExclusionSound(row: Exclusion) { row.rawPath.Some? && Stated(row.reasonCode) && Stated(row.reason) }

  function ExclusionIssues(row: Exclusion, exclusions: map<string, Exclusion>): (issues: seq<Issue>)
    ensures issues == [] <==> ExclusionSound(row) && row.rawPath.value !in exclusions
    ensures Harmless(issues)
  {
    if row.rawPath.None? then [InvalidRow]
    else
      var p := row.rawPath.value;
      When(p in exclusions, p, "duplicate")
      + When(!Stated(row.reasonCode), p, "reason_code")
      + When(!Stated(row.reason), p, "reason")
  }

  ghost predicate ExclusionsClean(rows: seq<Exclusion>) {
    (forall row :: row in rows ==> ExclusionSound(row)) && Distinct(rows, ExcludedPath)
  }

  ghost predicate ExclusionRecordClean(record: Record<Exclusion>) {
    record.supported && record.rows.Some? && ExclusionsClean(record.rows.value)
  }

  lemma ExclusionNext(rows: seq<Exclusion>, row: Exclusion, exclusions: map<string, Exclusion>)
    requires Kept(exclusions, rows, ExcludedPath)
    ensures ExclusionsClean(rows + [row]) <==> ExclusionsClean(rows) && ExclusionIssues(row, exclusions) == []
  {
    DistinctNext(rows, ExcludedPath, row);
    AllNext(rows, row, ExclusionSound);
  }

  method ReadExclusions(record: Record<Exclusion>) returns (exclusions: map<string, Exclusion>, issues: seq<Issue>)
    ensures Kept(exclusions, RowsIn(record), ExcludedPath)
    ensures issues == [] <==> ExclusionRecordClean(record)
    ensures Harmless(issues)
  {
    issues := if record.supported then [] else [UnsupportedSchema];
    if record.rows.None? { issues := issues + [NotAList]; }
    exclusions := map[];
    var rows := RowsIn(record);
    ghost var read: seq<Exclusion> := [];
    ghost var recordOk := record.supported && record.rows.Some?;
    for i := 0 to |rows|
      invariant read == rows[..i] && Kept(exclusions, read, ExcludedPath)
      invariant issues == [] <==> recordOk && ExclusionsClean(read)
      invariant Harmless(issues)
    {
      var row := rows[i];
      assert rows[..i + 1] == rows[..i] + [row];
      ExclusionNext(read, row, exclusions);
      KeptNext(exclusions, read, ExcludedPath, row);
      read := read + [row];
      issues := issues + ExclusionIssues(row, exclusions);
      if row.rawPath.Some? { exclusions := exclusions[row.rawPath.value := row]; }
    }
    assert read == rows;
  }

  /** Issues that stand for a raw file without an entry. */
  predicate Unplaced(issue: Issue) { issue.MultiplyClassified? || issue.Unclassified? }

  predicate AboutFile(issue: Issue) { Unplaced(issue) || issue.Mismatch? || issue.Dangling? }

  /** Nothing here is about a raw file or a missing one. */
  ghost predicate Harmless(issues: seq<Issue>) { forall issue :: issue in issues ==> !AboutFile(issue) }

  function CountUnplaced(issues: seq<Issue>): nat {
    if issues == [] then 0
    else CountUnplaced(issues[..|issues| - 1]) + if Unplaced(issues[|issues| - 1]) then 1 else 0
  }

  lemma {:induction false} CountUnplacedAdds(a: seq<Issue>, b: seq<Issue>)
    ensures CountUnplaced(a + b) == CountUnplaced(a) + CountUnplaced(b)
    decreases |b|
  {
    if b == [] {
      assert a + b == a;
    } else {
      CountUnplacedAdds(a, b[..|b| - 1]);
      assert (a + b)[..|a + b| - 1] == a + b[..|b| - 1];
    }
  }

  lemma {:induction false} NoneUnplaced(issues: seq<Issue>)
    requires forall issue :: issue in issues ==> !Unplaced(issue)
    ensures CountUnplaced(issues) == 0
    decreases |issues|
  {
    if issues != [] { NoneUnplaced(issues[..|issues| - 1]); }
  }

  // ----- classification -----

  datatype Sources = Sources(found: map<string, ProcessedRow>, history: map<string, Observation>, exclusions: map<string, Exclusion>)

  /** The current state of a raw path.  History is not a classification beside the others: it only explains
    a path that has no processed note, and then it comes before an exclusion. */
  function StatusOf(p: string, from: Sources): Option<Status> {
    if p in from.found && p in from.exclusions then None
    else if p in from.found then
      Some(Processed(from.found[p], if p in from.history then Some(from.history[p]) else None))
    else if p in from.history then Some(HistoricalNoOutput(from.history[p]))
    else if p in from.exclusions then Some(Excluded(from.exclusions[p]))
    else None
  }

  /** Whether the recorded digest is the file's. */
  predicate Matches(f: RawFile, status: Status) {
    match status
    case Processed(note, _) => note.provenanceHash == f.contentHash
    case HistoricalNoOutput(row) => row.rawSha256 == Some(f.sha256)
    case Excluded(row) => row.rawSha256 == Some(f.sha256)
  }

  function EntryOf(f: RawFile, from: Sources): seq<Entry> {
    var status := StatusOf(f.path, from);
    if status.Some? then [Entry(f.path, f.sha256, status.value)] else []
  }

  function FileIssues(f: RawFile, from: Sources): seq<Issue> {
    var status := StatusOf(f.path, from);
    if status.None? then [if f.path in from.found then MultiplyClassified(f.path) else Unclassified(f.path)]
    else if Matches(f, status.value) then []
    else [Mismatch(f.path)]
  }

  function Entries(files: seq<RawFile>, from: Sources): seq<Entry> {
    if files == [] then []
    else Entries(files[..|files| - 1], from) + EntryOf(files[|files| - 1], from)
  }

  function Issues(files: seq<RawFile>, from: Sources): seq<Issue> {
    if files == [] then []
    else Issues(files[..|files| - 1], from) + FileIssues(files[|files| - 1], from)
  }

  lemma OneFile(f: RawFile, from: Sources)
    ensures |EntryOf(f, from)| + CountUnplaced(FileIssues(f, from)) == 1
    ensures FileIssues(f, from) == [] ==> |EntryOf(f, from)| == 1 && EntryOf(f, from)[0].rawPath == f.path
  {
  }

  /** Every raw file has an entry or is reported as having none. */
  lemma {:induction false} Conservation(files: seq<RawFile>, from: Sources)
    ensures |files| == |Entries(files, from)| + CountUnplaced(Issues(files, from))
    decreases |files|
  {
    if files != [] {
      var f, init := files[|files| - 1], files[..|files| - 1];
      Conservation(init, from);
      OneFile(f, from);
      assert CountUnplaced(Issues(files, from)) == CountUnplaced(Issues(init, from)) + CountUnplaced(FileIssues(f, from)) by {
        CountUnplacedAdds(Issues(init, from), FileIssues(f, from));
      }
    }
  }

  ghost predicate Classified(files: seq<RawFile>, from: Sources) {
    forall f :: f in files ==> StatusOf(f.path, from).Some? && Matches(f, StatusOf(f.path, from).value)
  }

  lemma ClassifiedNext(files: seq<RawFile>, f: RawFile, from: Sources)
    ensures Classified(files + [f], from) <==> Classified(files, from) && FileIssues(f, from) == []
  {
    assert (files + [f])[|files|] == f && forall g :: g in files ==> g in files + [f];
  }

  /** Nothing is reported about the files exactly when each has a state that matches it. */
  lemma {:induction false} NoIssues(files: seq<RawFile>, from: Sources)
    ensures Issues(files, from) == [] <==> Classified(files, from)
    decreases |files|
  {
    if files != [] {
      NoIssues(files[..|files| - 1], from);
      ClassifiedNext(files[..|files| - 1], files[|files| - 1], from);
      assert files == files[..|files| - 1] + [files[|files| - 1]];
    }
  }

  /** Then the entries are the raw files, one for one and in their order. */
  lemma {:induction false} EntriesFollowFiles(files: seq<RawFile>, from: Sources)
    requires Issues(files, from) == []
    ensures |Entries(files, from)| == |files|
    ensures forall i :: 0 <= i < |files| ==> Entries(files, from)[i].rawPath == files[i].path
    decreases |files|
  {
    if files != [] {
      var f, init := files[|files| - 1], files[..|files| - 1];
      EntriesFollowFiles(init, from);
      OneFile(f, from);
      assert Entries(files, from) == Entries(init, from) + EntryOf(f, from);
    }
  }

  predicate IsProcessed(e: Entry) { e.status.Processed? }
  predicate IsExcluded(e: Entry) { e.status.Excluded? }
  predicate IsHistorical(e: Entry) { e.status.HistoricalNoOutput? }

  function Count(entries: seq<Entry>, which: Entry -> bool): nat {
    if entries == [] then 0
    else Count(entries[..|entries| - 1], which) + if which(entries[|entries| - 1]) then 1 else 0
  }

  /** Every entry has one of the three states. */
  lemma {:induction false} StatesSum(entries: seq<Entry>)
    ensures Count(entries, IsProcessed) + Count(entries, IsExcluded) + Count(entries, IsHistorical) == |entries|
    decreases |entries|
  {
    if entries != [] { StatesSum(entries[..|entries| - 1]); }
  }

  /** The positions of these entries. */
  function Positions(entries: seq<Entry>, which: Entry -> bool): (at: set<int>)
    ensures forall i :: i in at <==> 0 <= i < |entries| && which(entries[i])
  {
    set i | 0 <= i < |entries| && which(entries[i])
  }

  lemma {:induction false} CountIsNumber(entries: seq<Entry>, which: Entry -> bool)
    ensures Count(entries, which) == |Positions(entries, which)|
    decreases |entries|
  {
    if entries != [] {
      var n := |entries| - 1;
      CountIsNumber(entries[..n], which);
      assert Positions(entries, which) == Positions(entries[..n], which) + if which(entries[n]) then {n} else {};
    } else {
      assert Positions(entries, which) == {};
    }
  }

  // ----- what the notes and the records say of a path -----

  predicate NamesPath(n: Note, p: string) {
    && n.front.Some? && n.front.value.provenance == Some(p) && p != ""
    && n.front.value.provenanceHash.Some? && n.front.value.provenanceHash.value != ""
  }

  /** Note `i` is the first to name this path, and this is what it is recorded as. */
  ghost predicate FirstNamed(notes: seq<Note>, i: int, p: string, row: ProcessedRow) {
    && 0 <= i < |notes| && NamesPath(notes[i], p) && (forall j :: 0 <= j < i ==> !NamesPath(notes[j], p))
    && row == ProcessedRow(notes[i].path, notes[i].sha256, notes[i].front.value.provenanceHash.value)
  }

  /** Row `i` is the last with this path. */
  ghost predicate LastObserved(rows: seq<Observation>, i: int, p: string, row: Observation) {
    0 <= i < |rows| && rows[i] == row && row.rawPath == Some(p) && forall j :: i < j < |rows| ==> rows[j].rawPath != Some(p)
  }

  ghost predicate LastExcluded(rows: seq<Exclusion>, i: int, p: string, row: Exclusion) {
    0 <= i < |rows| && rows[i] == row && row.rawPath == Some(p) && forall j :: i < j < |rows| ==> rows[j].rawPath != Some(p)
  }

  ghost predicate IsNamed(c: Listed, p: string) { exists n :: n in c.notes && NamesPath(n, p) }

  ghost predicate IsObserved(c: Listed, p: string) { exists row :: row in RowsIn(c.history) && row.rawPath == Some(p) }

  ghost predicate IsExcludedPath(c: Listed, p: string) { exists row :: row in RowsIn(c.exclusions) && row.rawPath == Some(p) }

  ghost predicate NamedAs(c: Listed, p: string, row: ProcessedRow) { exists i :: FirstNamed(c.notes, i, p, row) }

  ghost predicate ObservedAs(c: Listed, p: string, row: Observation) { exists i :: LastObserved(RowsIn(c.history), i, p, row) }

  ghost predicate ExcludedAs(c: Listed, p: string, row: Exclusion) { exists i :: LastExcluded(RowsIn(c.exclusions), i, p, row) }

  /** The state of a path: processed exactly if a note and no exclusion names it, with the first such note and
    the last observation there is; else historical exactly if it was observed, with the last observation; else
    excluded exactly if it is excluded, with the last exclusion. */
  ghost predicate HasState(c: Listed, p: string, status: Status) {
    match status
    case Processed(row, observed) =>
      NamedAs(c, p, row) && !IsExcludedPath(c, p) && if observed.None? then !IsObserved(c, p) else ObservedAs(c, p, observed.value)
    case HistoricalNoOutput(row) => !IsNamed(c, p) && ObservedAs(c, p, row)
    case Excluded(row) => !IsNamed(c, p) && !IsObserved(c, p) && ExcludedAs(c, p, row)
  }

  /** The digest on record for a path in this state is not the file's. */
  predicate Differs(f: RawFile, status: Status) {
    match status
    case Processed(row, _) => row.provenanceHash != f.contentHash
    case HistoricalNoOutput(row) => row.rawSha256 != Some(f.sha256)
    case Excluded(row) => row.rawSha256 != Some(f.sha256)
  }

  lemma {:induction false} FirstNoteAt(notes: seq<Note>, p: string)
    ensures FirstNote(notes, p).Some? ==> exists i :: FirstNamed(notes, i, p, RowOf(FirstNote(notes, p).value))
    ensures FirstNote(notes, p).None? <==> forall n :: n in notes ==> !NamesPath(n, p)
    decreases |notes|
  {
    if notes != [] {
      var k := |notes| - 1;
      FirstNoteAt(notes[..k], p);
      assert notes == notes[..k] + [notes[k]];
      if FirstNote(notes[..k], p).Some? {
        var i :| FirstNamed(notes[..k], i, p, RowOf(FirstNote(notes[..k], p).value));
        assert FirstNamed(notes, i, p, RowOf(FirstNote(notes, p).value));
      } else if FirstNote(notes, p).Some? {
        assert forall j :: 0 <= j < k ==> notes[j] in notes[..k];
        assert FirstNamed(notes, k, p, RowOf(FirstNote(notes, p).value));
      }
    }
  }

  lemma {:induction false} LastRowAt<T>(rows: seq<T>, pathOf: T -> Option<string>, p: string) returns (i: nat)
    ensures var last := LastRow(rows, pathOf, p);
      if last.None? then forall row :: row in rows ==> pathOf(row) != Some(p)
      else i < |rows| && rows[i] == last.value && pathOf(rows[i]) == Some(p) && forall j :: i < j < |rows| ==> pathOf(rows[j]) != Some(p)
    decreases |rows|
  {
    i := 0;
    if rows != [] {
      var k := |rows| - 1;
      assert rows == rows[..k] + [rows[k]];
      if pathOf(rows[k]) == Some(p) { i := k; } else { i := LastRowAt(rows[..k], pathOf, p); }
    }
  }

  lemma NotesSay(c: Listed, from: Sources, p: string)
    requires SourcesOf(from, c)
    ensures p in from.found <==> IsNamed(c, p)
    ensures forall row :: NamedAs(c, p, row) <==> p in from.found && from.found[p] == row
  {
    FirstNoteAt(c.notes, p);
    forall row | NamedAs(c, p, row) ensures p in from.found && from.found[p] == row {
      var i :| FirstNamed(c.notes, i, p, row);
      assert c.notes[i] in c.notes;
      var j :| FirstNamed(c.notes, j, p, from.found[p]);
    }
  }

  lemma HistorySays(c: Listed, from: Sources, p: string)
    requires SourcesOf(from, c)
    ensures p in from.history <==> IsObserved(c, p)
    ensures forall row :: ObservedAs(c, p, row) <==> p in from.history && from.history[p] == row
  {
    var rows := RowsIn(c.history);
    var k := LastRowAt(rows, ObservedPath, p);
    if p in from.history { assert LastObserved(rows, k, p, from.history[p]); }
    forall row | ObservedAs(c, p, row) ensures p in from.history && from.history[p] == row {
      var i :| LastObserved(rows, i, p, row);
      assert rows[i] in rows;
    }
  }

  lemma ExclusionsSay(c: Listed, from: Sources, p: string)
    requires SourcesOf(from, c)
    ensures p in from.exclusions <==> IsExcludedPath(c, p)
    ensures forall row :: ExcludedAs(c, p, row) <==> p in from.exclusions && from.exclusions[p] == row
  {
    var rows := RowsIn(c.exclusions);
    var k := LastRowAt(rows, ExcludedPath, p);
    if p in from.exclusions { assert LastExcluded(rows, k, p, from.exclusions[p]); }
    forall row | ExcludedAs(c, p, row) ensures p in from.exclusions && from.exclusions[p] == row {
      var i :| LastExcluded(rows, i, p, row);
      assert rows[i] in rows;
    }
  }

  /** The state of a path is what the notes and records say of it. */
  lemma StatusIsState(c: Listed, from: Sources, p: string)
    requires SourcesOf(from, c)
    ensures forall status :: HasState(c, p, status) <==> StatusOf(p, from) == Some(status)
    ensures StatusOf(p, from).None? <==> (IsNamed(c, p) <==> IsExcludedPath(c, p)) && (IsNamed(c, p) || !IsObserved(c, p))
  {
    NotesSay(c, from, p);
    HistorySays(c, from, p);
    ExclusionsSay(c, from, p);
  }

  /** The entries and the issues of files: what each file contributes. */
  lemma {:induction false} EntryContributed(files: seq<RawFile>, from: Sources, e: Entry)
    ensures e in Entries(files, from) <==> exists f :: f in files && e in EntryOf(f, from)
    decreases |files|
  {
    if files != [] {
      var init, last := files[..|files| - 1], files[|files| - 1];
      EntryContributed(init, from, e);
      assert files == init + [last];
      assert last in files && forall f :: f in files <==> f in init || f == last;
    }
  }

  lemma {:induction false} IssueContributed(files: seq<RawFile>, from: Sources, issue: Issue)
    ensures issue in Issues(files, from) <==> exists f :: f in files && issue in FileIssues(f, from)
    decreases |files|
  {
    if files != [] {
      var init, last := files[..|files| - 1], files[|files| - 1];
      IssueContributed(init, from, issue);
      assert files == init + [last];
      assert last in files && forall f :: f in files <==> f in init || f == last;
    }
  }

  /** A file with the first path comes before one with the second. */
  ghost predicate PathsInOrder(files: seq<RawFile>, p: string, q: string) {
    exists a, b :: 0 <= a < b < |files| && files[a].path == p && files[b].path == q
  }

  /** Entry `i` comes before entry `j` as their files do. */
  ghost predicate InFileOrder(entries: seq<Entry>, files: seq<RawFile>) {
    forall i, j :: 0 <= i < j < |entries| ==> PathsInOrder(files, entries[i].rawPath, entries[j].rawPath)
  }

  lemma PathsStayInOrder(files: seq<RawFile>, f: RawFile, p: string, q: string)
    requires PathsInOrder(files, p, q) || (f.path == q && exists g :: g in files && g.path == p)
    ensures PathsInOrder(files + [f], p, q)
  {
    var more := files + [f];
    if PathsInOrder(files, p, q) {
      var a, b :| 0 <= a < b < |files| && files[a].path == p && files[b].path == q;
      assert more[a].path == p && more[b].path == q;
    } else {
      var g :| g in files && g.path == p;
      var a :| 0 <= a < |files| && files[a] == g;
      assert more[a].path == p && more[|files|].path == q;
    }
  }

  lemma {:induction false} EntriesInFileOrder(files: seq<RawFile>, from: Sources)
    ensures InFileOrder(Entries(files, from), files)
    decreases |files|
  {
    if files != [] {
      var n := |files| - 1;
      var init, more := Entries(files[..n], from), EntryOf(files[n], from);
      EntriesInFileOrder(files[..n], from);
      var entries := init + more;
      assert files == files[..n] + [files[n]];
      forall i, j | 0 <= i < j < |entries| ensures PathsInOrder(files, entries[i].rawPath, entries[j].rawPath) {
        assert entries[i] == init[i];
        if j < |init| { assert entries[j] == init[j]; } else { EntryContributed(files[..n], from, init[i]); }
        PathsStayInOrder(files[..n], files[n], entries[i].rawPath, entries[j].rawPath);
      }
    }
  }

  // ----- clean notes and records, written out -----

  /** The notes are clean exactly if each names a source, with a digest, and no two the same. */
  lemma NotesCleanExactlyWhen(notes: seq<Note>)
    ensures NotesClean(notes) <==>
      && (forall n :: n in notes ==> n.front.Some? && n.front.value.provenance.Some? && NamesPath(n, n.front.value.provenance.value))
      && (forall i, j :: 0 <= i < j < |notes| && notes[i].front.Some? && notes[j].front.Some? ==>
            notes[i].front.value.provenance != notes[j].front.value.provenance)
  {
    if NotesClean(notes) {
      forall i, j | 0 <= i < j < |notes| && notes[i].front.Some? && notes[j].front.Some?
        ensures notes[i].front.value.provenance != notes[j].front.value.provenance
      {
        assert notes[i] in notes && notes[j] in notes;
        assert ProvenanceOf(notes[i]) != ProvenanceOf(notes[j]);
      }
    }
  }

  /** An observation that nothing is wrong with, but for its path and its identifier. */
  predicate IsStandard(row: Observation) {
    && row.stage == Some("historical_snapshot_comparison")
    && row.reasonCode == Some("historical_no_output_unknown_cause")
    && row.text == Some(
         "no processed output names this raw source in the referenced 2026-07-07 snapshot; "
         + "whether the source failed, was skipped, or stopped at another stage is unknown")
    && !row.attemptsKnown
  }

  /** The history is clean exactly if its version is supported, its rows are a list, each has a path and an
    identifier of its own, and each is the one observation that may be made. */
  lemma HistoryCleanExactlyWhen(record: Record<Observation>)
    ensures HistoryClean(record) <==>
      && record.supported && record.rows.Some?
      && (forall row :: row in record.rows.value ==> row.rawPath.Some? && row.id.Some? && row.id.value != "" && IsStandard(row))
      && (forall i, j :: 0 <= i < j < |record.rows.value| ==>
            record.rows.value[i].rawPath != record.rows.value[j].rawPath && record.rows.value[i].id != record.rows.value[j].id)
  {
    if record.rows.Some? {
      var rows := record.rows.value;
      forall i | 0 <= i < |rows| && ObservationSound(rows[i])
        ensures StableId(rows[i]) == rows[i].id && rows[i].id.Some? && ObservedPath(rows[i]) == rows[i].rawPath && rows[i].rawPath.Some? { }
      assert forall i :: 0 <= i < |rows| ==> rows[i] in rows;
    }
  }

  /** The exclusions are clean exactly if the version is supported, the rows are a list, each has a path of its own,
    and each states a reason and its code in more than white space. */
  lemma ExclusionsCleanExactlyWhen(record: Record<Exclusion>)
    ensures ExclusionRecordClean(record) <==>
      && record.supported && record.rows.Some?
      && (forall row :: row in record.rows.value ==> row.rawPath.Some? && SaysSomething(row.reasonCode) && SaysSomething(row.reason))
      && (forall i, j :: 0 <= i < j < |record.rows.value| ==> record.rows.value[i].rawPath != record.rows.value[j].rawPath)
  {
    forall field ensures Stated(field) <==> SaysSomething(field) { if field.Some? { StripIsBlank(field.value); } }
    if record.rows.Some? {
      assert forall i :: 0 <= i < |record.rows.value| ==> record.rows.value[i] in record.rows.value;
      assert forall i :: 0 <= i < |record.rows.value| ==> ExcludedPath(record.rows.value[i]) == record.rows.value[i].rawPath;
    }
  }

  ghost predicate SaysSomething(field: Option<string>) { field.Some? && exists i :: 0 <= i < |field.value| && !IsSpace(field.value[i]) }

  // ----- the whole account, from the notes and records -----

  /** What a ledger of these files must be. */
  ghost predicate Accounts(c: Listed, entries: seq<Entry>, summary: Summary) {
    && (forall e :: e in entries <==> EntryFits(c, e))
    && InFileOrder(entries, c.raw)
    && summary.raw == |c.raw|
    && summary.processed == |set i | 0 <= i < |entries| && entries[i].status.Processed?|
    && summary.excluded == |set i | 0 <= i < |entries| && entries[i].status.Excluded?|
    && summary.historical == |set i | 0 <= i < |entries| && entries[i].status.HistoricalNoOutput?|
    && summary.observations == |set row | row in RowsIn(c.history) && row.rawPath.Some? :: row.rawPath.value|
  }

  ghost predicate IsRaw(c: Listed, p: string) { exists f :: f in c.raw && f.path == p }

  /** Some file of this path has another digest than the record of its state. */
  ghost predicate HasOtherDigest(c: Listed, p: string) {
    exists f, status :: f in c.raw && f.path == p && HasState(c, p, status) && Differs(f, status)
  }

  /** What must be reported of a path. */
  ghost predicate Reports(c: Listed, issues: seq<Issue>, p: string) {
    && (MultiplyClassified(p) in issues <==> IsRaw(c, p) && IsNamed(c, p) && IsExcludedPath(c, p))
    && (Unclassified(p) in issues <==> IsRaw(c, p) && !IsNamed(c, p) && !IsExcludedPath(c, p) && !IsObserved(c, p))
    && (Mismatch(p) in issues <==> HasOtherDigest(c, p))
    && (Dangling(p) in issues <==> !IsRaw(c, p) && (IsNamed(c, p) || IsExcludedPath(c, p) || IsObserved(c, p)))
  }

  /** An entry of these files says what a file is and what is said of its path. */
  ghost predicate EntryFits(c: Listed, e: Entry) {
    exists f :: f in c.raw && e.rawPath == f.path && e.rawSha256 == f.sha256 && HasState(c, f.path, e.status)
  }

  lemma EntryIsRight(c: Listed, from: Sources, e: Entry)
    requires SourcesOf(from, c)
    ensures e in Entries(c.raw, from) <==> EntryFits(c, e)
  {
    EntryContributed(c.raw, from, e);
    StatusIsState(c, from, e.rawPath);
  }

  lemma EntriesAccount(c: Listed, from: Sources)
    requires SourcesOf(from, c)
    ensures var entries := Entries(c.raw, from); Accounts(c, entries, SummaryOf(entries, |c.raw|, |from.history|))
  {
    var entries := Entries(c.raw, from);
    EntriesInFileOrder(c.raw, from);
    forall e ensures e in entries <==> EntryFits(c, e) { EntryIsRight(c, from, e); }
    Counts(entries);
    ObservedPaths(c, from);
  }

  lemma Counts(entries: seq<Entry>)
    ensures Count(entries, IsProcessed) == |set i | 0 <= i < |entries| && entries[i].status.Processed?|
    ensures Count(entries, IsExcluded) == |set i | 0 <= i < |entries| && entries[i].status.Excluded?|
    ensures Count(entries, IsHistorical) == |set i | 0 <= i < |entries| && entries[i].status.HistoricalNoOutput?|
  {
    CountIsNumber(entries, IsProcessed);
    CountIsNumber(entries, IsExcluded);
    CountIsNumber(entries, IsHistorical);
    assert Positions(entries, IsProcessed) == set i | 0 <= i < |entries| && entries[i].status.Processed?;
    assert Positions(entries, IsExcluded) == set i | 0 <= i < |entries| && entries[i].status.Excluded?;
    assert Positions(entries, IsHistorical) == set i | 0 <= i < |entries| && entries[i].status.HistoricalNoOutput?;
  }

  lemma ObservedPaths(c: Listed, from: Sources)
    requires SourcesOf(from, c)
    ensures from.history.Keys == set row | row in RowsIn(c.history) && row.rawPath.Some? :: row.rawPath.value
  {
    forall p ensures p in from.history <==> IsObserved(c, p) { HistorySays(c, from, p); }
  }

  lemma UnplacedAreReported(files: seq<RawFile>, from: Sources, p: string)
    ensures var issues, raw := Issues(files, from), exists f :: f in files && f.path == p;
      && (MultiplyClassified(p) in issues <==> raw && p in from.found && StatusOf(p, from).None?)
      && (Unclassified(p) in issues <==> raw && p !in from.found && StatusOf(p, from).None?)
      && Dangling(p) !in issues
  {
    IssueContributed(files, from, Dangling(p));
    IssueContributed(files, from, Unclassified(p));
    IssueContributed(files, from, MultiplyClassified(p));
  }

  lemma MismatchesAreReported(c: Listed, from: Sources, p: string)
    requires SourcesOf(from, c)
    ensures Mismatch(p) in Issues(c.raw, from) <==> HasOtherDigest(c, p)
  {
    IssueContributed(c.raw, from, Mismatch(p));
    forall f | f in c.raw && f.path == p ensures Mismatch(p) in FileIssues(f, from) <==> exists status :: HasState(c, p, status) && Differs(f, status) {
      MismatchOfFile(c, from, f);
    }
    forall f | f in c.raw && f.path != p ensures Mismatch(p) !in FileIssues(f, from) { }
  }

  lemma MismatchOfFile(c: Listed, from: Sources, f: RawFile)
    requires SourcesOf(from, c)
    ensures Mismatch(f.path) in FileIssues(f, from) <==> exists status :: HasState(c, f.path, status) && Differs(f, status)
  {
    StatusIsState(c, from, f.path);
  }

  lemma FilesAreReported(c: Listed, from: Sources, before: seq<Issue>, after: seq<Issue>, p: string)
    requires SourcesOf(from, c) && Harmless(before) && (forall issue :: issue in after ==> issue.Dangling?)
    requires Dangling(p) in after <==> p in from.found.Keys + from.history.Keys + from.exclusions.Keys - RawPaths(c.raw)
    ensures Reports(c, before + Issues(c.raw, from) + after, p)
  {
    UnplacedAreReported(c.raw, from, p);
    MismatchesAreReported(c, from, p);
    StatusIsState(c, from, p);
    NotesSay(c, from, p);
    HistorySays(c, from, p);
    ExclusionsSay(c, from, p);
    assert p in RawPaths(c.raw) <==> IsRaw(c, p);
  }

  lemma ClassifyNext(files: seq<RawFile>, f: RawFile, from: Sources)
    ensures Entries(files + [f], from) == Entries(files, from) + EntryOf(f, from)
    ensures Issues(files + [f], from) == Issues(files, from) + FileIssues(f, from)
  {
    assert (files + [f])[..|files|] == files;
  }

  method Classify(files: seq<RawFile>, from: Sources) returns (entries: seq<Entry>, issues: seq<Issue>)
    ensures entries == Entries(files, from) && issues == Issues(files, from)
  {
    entries, issues := [], [];
    ghost var read: seq<RawFile> := [];
    for i := 0 to |files|
      invariant read == files[..i] && entries == Entries(read, from) && issues == Issues(read, from)
    {
      var f := files[i];
      ClassifyNext(read, f, from);
      read := read + [f];
      var p := f.path;
      if p in from.found && p in from.exclusions {
        issues := issues + [MultiplyClassified(p)];
      } else if p in from.found {
        var row := from.found[p];
        if row.provenanceHash != f.contentHash { issues := issues + [Mismatch(p)]; }
        var observed := if p in from.history then Some(from.history[p]) else None;
        entries := entries + [Entry(p, f.sha256, Processed(row, observed))];
      } else if p in from.history {
        var row := from.history[p];
        if row.rawSha256 != Some(f.sha256) { issues := issues + [Mismatch(p)]; }
        entries := entries + [Entry(p, f.sha256, HistoricalNoOutput(row))];
      } else if p in from.exclusions {
        var row := from.exclusions[p];
        if row.rawSha256 != Some(f.sha256) { issues := issues + [Mismatch(p)]; }
        entries := entries + [Entry(p, f.sha256, Excluded(row))];
      } else {
        issues := issues + [Unclassified(p)];
      }
    }
    assert read == files;
  }

  // ----- the ledger -----

  function TextKey(p: string): Key { [Codes(p)] }

  lemma TextKeyInjective(a: string, b: string)
    requires TextKey(a) == TextKey(b)
    ensures a == b
  {
    assert TextKey(a)[0] == TextKey(b)[0];
    CodesInjective(a, b);
  }

  function DanglingAll(paths: seq<string>): (issues: seq<Issue>)
    ensures |issues| == |paths| && forall i :: 0 <= i < |paths| ==> issues[i] == Dangling(paths[i])
  {
    seq(|paths|, i requires 0 <= i < |paths| => Dangling(paths[i]))
  }

  lemma DanglingMembers(paths: seq<string>)
    ensures forall p :: Dangling(p) in DanglingAll(paths) <==> p in paths
  {
    var issues := DanglingAll(paths);
    forall p | p in paths ensures Dangling(p) in issues {
      var i :| 0 <= i < |paths| && paths[i] == p;
      assert issues[i] == Dangling(p);
    }
  }

  /** Report the names that resolve to no raw file, once each, in the order of their text. */
  method ReportDangling(named: set<string>, raw: set<string>) returns (issues: seq<Issue>, paths: seq<string>)
    ensures StrictlyOrdered(paths, TextKey) && Lists(paths, named - raw)
    ensures issues == DanglingAll(paths)
  {
    forall a, b | TextKey(a) == TextKey(b) ensures a == b { TextKeyInjective(a, b); }
    paths := SortedMembers(named - raw, TextKey);
    issues := [];
    for i := 0 to |paths|
      invariant issues == DanglingAll(paths)[..i]
    {
      issues := issues + [Dangling(paths[i])];
    }
  }

  /** Everything that is read, with the files of both trees listed. */
  datatype Listed = Listed(notes: seq<Note>, history: Record<Observation>, exclusions: Record<Exclusion>, raw: seq<RawFile>)

  function RawPaths(files: seq<RawFile>): set<string> { set f | f in files :: f.path }

  /** The three indexes of this corpus. */
  ghost predicate SourcesOf(from: Sources, c: Listed) {
    && Indexed(from.found, c.notes)
    && Kept(from.history, RowsIn(c.history), ObservedPath)
    && Kept(from.exclusions, RowsIn(c.exclusions), ExcludedPath)
  }

  /** What it takes to report nothing. */
  ghost predicate Clean(c: Listed, from: Sources) {
    && NotesClean(c.notes) && HistoryClean(c.history) && ExclusionRecordClean(c.exclusions)
    && Classified(c.raw, from)
    && from.found.Keys + from.history.Keys + from.exclusions.Keys <= RawPaths(c.raw)
  }

  function SummaryOf(entries: seq<Entry>, raw: nat, observations: nat): Summary {
    Summary(raw, Count(entries, IsProcessed), Count(entries, IsExcluded), Count(entries, IsHistorical), observations)
  }

  lemma NothingDangles(paths: seq<string>, named: set<string>, raw: set<string>)
    requires Lists(paths, named - raw)
    ensures paths == [] <==> named <= raw
  {
    assert paths != [] ==> paths[0] in named - raw;
    forall x | x in named && paths == [] ensures x in raw { assert x in named - raw ==> x in paths; }
  }

  lemma OnlyFilesAreUnplaced(before: seq<Issue>, files: seq<Issue>, after: seq<Issue>)
    requires Harmless(before) && forall issue :: issue in after ==> issue.Dangling?
    ensures CountUnplaced(before + files + after) == CountUnplaced(files)
  {
    NoneUnplaced(before);
    NoneUnplaced(after);
    CountUnplacedAdds(before, files);
    CountUnplacedAdds(before + files, after);
  }

  /** The three readers in turn. */
  method ReadSources(c: Listed) returns (from: Sources, issues: seq<Issue>)
    ensures SourcesOf(from, c)
    ensures issues == [] <==> NotesClean(c.notes) && HistoryClean(c.history) && ExclusionRecordClean(c.exclusions)
    ensures Harmless(issues)
  {
    var found, noteIssues := ProcessedByProvenance(c.notes);
    var history, historyIssues := ReadHistory(c.history);
    var exclusions, exclusionIssues := ReadExclusions(c.exclusions);
    from := Sources(found, history, exclusions);
    issues := noteIssues + historyIssues + exclusionIssues;
  }

  method ReportAllDangling(from: Sources, raw: set<string>) returns (issues: seq<Issue>)
    ensures issues == [] <==> from.found.Keys + from.history.Keys + from.exclusions.Keys <= raw
    ensures forall issue :: issue in issues ==> issue.Dangling?
    ensures forall p :: Dangling(p) in issues <==> p in from.found.Keys + from.history.Keys + from.exclusions.Keys - raw
  {
    var notes, p := ReportDangling(from.found.Keys, raw);
    NothingDangles(p, from.found.Keys, raw);
    DanglingMembers(p);
    var history, q := ReportDangling(from.history.Keys, raw);
    NothingDangles(q, from.history.Keys, raw);
    DanglingMembers(q);
    var exclusions, r := ReportDangling(from.exclusions.Keys, raw);
    NothingDangles(r, from.exclusions.Keys, raw);
    DanglingMembers(r);
    issues := notes + history + exclusions;
  }

  /** Account for listed files.  Files are conserved whatever is wrong; nothing is reported exactly for a clean
    corpus, and then every file has its one entry, in order, and the three states add up. */
  method Account(c: Listed) returns (ledger: Ledger, issues: seq<Issue>, from: Sources)
    ensures SourcesOf(from, c)
    ensures ledger.entries == Entries(c.raw, from) && ledger.entriesSha256 == Sha256(ledger.entries)
    ensures ledger.summary == SummaryOf(ledger.entries, |c.raw|, |from.history|)
    ensures ledger.summary.processed + ledger.summary.excluded + ledger.summary.historical == |ledger.entries|
    ensures |c.raw| == |ledger.entries| + CountUnplaced(issues)
    ensures Accounts(c, ledger.entries, ledger.summary)
    ensures forall p :: Reports(c, issues, p)
    ensures issues == [] <==> Clean(c, from)
    ensures issues == [] ==>
      && |ledger.entries| == |c.raw|
      && forall i :: 0 <= i < |c.raw| ==> ledger.entries[i].rawPath == c.raw[i].path
  {
    var before, after, entries, fileIssues;
    from, before := ReadSources(c);
    entries, fileIssues := Classify(c.raw, from);
    after := ReportAllDangling(from, RawPaths(c.raw));
    issues := before + fileIssues + after;
    forall p ensures Reports(c, issues, p) { FilesAreReported(c, from, before, after, p); }
    EntriesAccount(c, from);
    OnlyFilesAreUnplaced(before, fileIssues, after);
    Conservation(c.raw, from);
    NoIssues(c.raw, from);
    if fileIssues == [] { EntriesFollowFiles(c.raw, from); }
    StatesSum(entries);
    ledger := Ledger(SummaryOf(entries, |c.raw|, |from.history|), Sha256(entries), entries);
  }

  /** An observation hides an exclusion: here nothing is reported, although the one file is both observed and
    excluded, and although the exclusion has another digest. */
  lemma HistoryHidesExclusion(sha: string, other: string, hash: string)
    requires sha != other
    ensures exists c: Listed, from: Sources ::
      && SourcesOf(from, c) && Clean(c, from)
      && c.raw == [RawFile("a.md", sha, hash)]
      && "a.md" in from.exclusions && from.exclusions["a.md"].rawSha256 == Some(other)
      && Entries(c.raw, from) == [Entry("a.md", sha, HistoricalNoOutput(from.history["a.md"]))]
  {
    var seen := Observation(
      Some("a.md"), Some("h1"), Some(HISTORY_STAGE), Some(HISTORY_REASON_CODE), Some(HISTORY_MESSAGE), false, Some(sha));
    var excluded := Exclusion(Some("a.md"), Some("x"), Some("x"), Some(other));
    var c := Listed([], Record(true, Some([seen])), Record(true, Some([excluded])), [RawFile("a.md", sha, hash)]);
    var from := Sources(map[], map["a.md" := seen], map["a.md" := excluded]);
    OneRowKept(seen, "a.md", ObservedPath);
    OneRowKept(excluded, "a.md", ExcludedPath);
    assert Strip("x") == "x";
    assert Entries(c.raw[..0], from) == [];
    assert c.raw[0] in c.raw;
    assert Clean(c, from);
  }

  lemma OneRowKept<T>(row: T, p: string, pathOf: T -> Option<string>)
    requires pathOf(row) == Some(p)
    ensures Kept(map[p := row], [row], pathOf)
  {
    assert Kept(map[], [], pathOf);
    KeptNext(map[], [], pathOf, row);
    assert [] + [row] == [row];
    assert map[][p := row] == map[p := row];
  }

  // ----- directories -----

  /** A path by its components. */
  type Path = seq<string>

  predicate IsPath(p: Path) { p != [] && forall i :: 0 <= i < |p| ==> p[i] != "" && '/' !in p[i] }

  function Printed(p: Path): string { Join(p, "/") }

  /** Paths compare by their components, not by their text. */
  function PartsKey(p: Path): (key: Key)
    ensures |key| == |p| && forall i :: 0 <= i < |p| ==> key[i] == Codes(p[i])
  {
    seq(|p|, i requires 0 <= i < |p| => Codes(p[i]))
  }

  lemma PartsKeyInjective(p: Path, q: Path)
    requires PartsKey(p) == PartsKey(q)
    ensures p == q
  {
    forall i | 0 <= i < |p| ensures p[i] == q[i] {
      assert PartsKey(p)[i] == PartsKey(q)[i];
      CodesInjective(p[i], q[i]);
    }
  }

  lemma SplitAtLastSlash(a: string, x: string, b: string, y: string)
    requires a + "/" + x == b + "/" + y && '/' !in x && '/' !in y
    ensures a == b && x == y
  {
    var s, t := a + "/" + x, b + "/" + y;
    assert s[|a|] == '/' && t[|b|] == '/';
    assert forall i :: |a| < i < |s| ==> s[i] == x[i - |a| - 1];
    assert forall i :: |b| < i < |t| ==> t[i] == y[i - |b| - 1];
    assert |a| == |b|;
    assert a == s[..|a|] && b == t[..|b|] && x == s[|a| + 1..] && y == t[|b| + 1..];
  }

  /** Different paths print differently. */
  lemma {:induction false} PrintedInjective(p: Path, q: Path)
    requires IsPath(p) && IsPath(q) && Printed(p) == Printed(q)
    ensures p == q
    decreases |p|
  {
    assert |p| > 1 ==> Printed(p)[|Printed(p[..|p| - 1])|] == '/';
    assert |q| > 1 ==> Printed(q)[|Printed(q[..|q| - 1])|] == '/';
    if |p| > 1 && |q| > 1 {
      var u, v := p[..|p| - 1], q[..|q| - 1];
      SplitAtLastSlash(Printed(u), p[|u|], Printed(v), q[|v|]);
      PrintedInjective(u, v);
      assert p == u + [p[|u|]] && q == v + [q[|v|]];
    } else {
      assert |p| == 1 ==> Printed(p) == p[0];
      assert |q| == 1 ==> Printed(q) == q[0];
    }
  }

  /** The two orders differ: a directory comes before a file whose name continues its own with a dash. */
  lemma PathOrderIsNotTextOrder()
    ensures Less(PartsKey(["a", "b.md"]), PartsKey(["a-b.md"]))
    ensures Less(TextKey(Printed(["a-b.md"])), TextKey(Printed(["a", "b.md"])))
  {
    assert PartsKey(["a", "b.md"])[0] == [97] && PartsKey(["a-b.md"])[0] == [97, 45, 98, 46, 109, 100];
    assert Printed(["a", "b.md"][..1]) == "a";
    assert Printed(["a-b.md"]) == "a-b.md" && Printed(["a", "b.md"]) == "a/b.md";
    assert TextKey("a-b.md")[0] == [97, 45, 98, 46, 109, 100] && TextKey("a/b.md")[0] == [97, 47, 98, 46, 109, 100];
    assert Below([45, 98, 46, 109, 100], [47, 98, 46, 109, 100]);
  }

  datatype NoteFile = NoteFile(sha256: string, front: Option<Frontmatter>)

  datatype SourceFile = SourceFile(sha256: string, contentHash: string)

  /** Everything that is read: the two trees as directories hold them, and the two records. */
  datatype Corpus = Corpus(
    notes: map<Path, NoteFile>, history: Record<Observation>, exclusions: Record<Exclusion>, raw: map<Path, SourceFile>)

  ghost predicate IsListing(paths: seq<Path>, members: set<Path>) {
    StrictlyOrdered(paths, PartsKey) && Lists(paths, members)
  }

  function NotesOf(tree: map<Path, NoteFile>, paths: seq<Path>): (notes: seq<Note>)
    requires forall p :: p in paths ==> p in tree
    ensures |notes| == |paths|
    ensures forall i :: 0 <= i < |paths| ==> notes[i] == Note(Printed(paths[i]), tree[paths[i]].sha256, tree[paths[i]].front)
  {
    if paths == [] then []
    else
      var p := paths[|paths| - 1];
      NotesOf(tree, paths[..|paths| - 1]) + [Note(Printed(p), tree[p].sha256, tree[p].front)]
  }

  function FilesOf(tree: map<Path, SourceFile>, paths: seq<Path>): (files: seq<RawFile>)
    requires forall p :: p in paths ==> p in tree
    ensures |files| == |paths|
    ensures forall i :: 0 <= i < |paths| ==> files[i] == RawFile(Printed(paths[i]), tree[paths[i]].sha256, tree[paths[i]].contentHash)
  {
    if paths == [] then []
    else
      var p := paths[|paths| - 1];
      FilesOf(tree, paths[..|paths| - 1]) + [RawFile(Printed(p), tree[p].sha256, tree[p].contentHash)]
  }

  function ListedOf(c: Corpus, notePaths: seq<Path>, rawPaths: seq<Path>): Listed
    requires forall p :: p in notePaths ==> p in c.notes
    requires forall p :: p in rawPaths ==> p in c.raw
  {
    Listed(NotesOf(c.notes, notePaths), c.history, c.exclusions, FilesOf(c.raw, rawPaths))
  }

  lemma ListedOnce(paths: seq<Path>, members: set<Path>)
    requires IsListing(paths, members) && forall p :: p in members ==> IsPath(p)
    ensures |paths| == |members|
    ensures forall i, j :: 0 <= i < j < |paths| ==> Printed(paths[i]) != Printed(paths[j])
  {
    ListingLength(paths, members, PartsKey);
    forall i, j | 0 <= i < j < |paths| ensures Printed(paths[i]) != Printed(paths[j]) {
      assert paths[i] in paths && paths[j] in paths;
      LessTotal(PartsKey(paths[i]), PartsKey(paths[i]));
      if Printed(paths[i]) == Printed(paths[j]) { PrintedInjective(paths[i], paths[j]); }
    }
  }

  /** Account for a corpus: list both trees by path components, and account for the files listed.  When nothing
    is reported, the entries are the raw files in that order, and each raw path is there once. */
  method BuildLedger(c: Corpus)
    returns (ledger: Ledger, issues: seq<Issue>, from: Sources, notePaths: seq<Path>, rawPaths: seq<Path>)
    requires forall p :: p in c.notes || p in c.raw ==> IsPath(p)
    ensures IsListing(notePaths, c.notes.Keys) && IsListing(rawPaths, c.raw.Keys)
    ensures SourcesOf(from, ListedOf(c, notePaths, rawPaths))
    ensures ledger.entries == Entries(FilesOf(c.raw, rawPaths), from) && ledger.entriesSha256 == Sha256(ledger.entries)
    ensures ledger.summary == SummaryOf(ledger.entries, |c.raw|, |from.history|)
    ensures ledger.summary.processed + ledger.summary.excluded + ledger.summary.historical == |ledger.entries|
    ensures |c.raw| == |ledger.entries| + CountUnplaced(issues)
    ensures Accounts(ListedOf(c, notePaths, rawPaths), ledger.entries, ledger.summary)
    ensures forall p :: Reports(ListedOf(c, notePaths, rawPaths), issues, p)
    ensures issues == [] <==> Clean(ListedOf(c, notePaths, rawPaths), from)
    ensures issues == [] ==>
      && |ledger.entries| == |rawPaths| == |c.raw|
      && (forall i :: 0 <= i < |rawPaths| ==> ledger.entries[i].rawPath == Printed(rawPaths[i]))
      && (forall i, j :: 0 <= i < j < |rawPaths| ==> ledger.entries[i].rawPath != ledger.entries[j].rawPath)
  {
    forall p, q | PartsKey(p) == PartsKey(q) ensures p == q { PartsKeyInjective(p, q); }
    notePaths := SortedMembers(c.notes.Keys, PartsKey);
    rawPaths := SortedMembers(c.raw.Keys, PartsKey);
    ListedOnce(rawPaths, c.raw.Keys);
    ledger, issues, from := Account(ListedOf(c, notePaths, rawPaths));
  }
}
