/** Claim evidence: resolved for a batch of claims with per-document caches, and for one claim alone. */
module ClaimEvidence {
  import opened CreateOnlyFiles
  import opened SourceText

  type Evidence = seq<string>

  datatype Claim = Claim(id: string, docId: string)

  datatype Row = Row(docId: string, relPath: string, docType: string, frontmatter: string)

  datatype KeyClaim = KeyClaim(id: string, evidence: Evidence)

  datatype Note = Note(keyClaims: seq<KeyClaim>, asset: Option<string>, parsed: Option<string>)

  /** A configured root: a path, a text, or a value of another type. */
  datatype Root = Folder(path: string) | Named(text: string) | Neither

  datatype Location = Location(note: Root, support: Root)

  datatype Mapping = Both(root: Root) | Separate(location: Location)

  type Mappings = Option<map<string, Mapping>>

  datatype Fault =
    | NotFound | NoDocument | BadLocation | BadNote | ClaimAbsent | Ungrounded | NoReference
    | AssetStale | ParseStale | EvidenceStale

  datatype Outcome<T> = Ok(value: T) | Failed(fault: Fault)

  /** Storage and files, as they are during one call. */
  datatype World = World(
    rows: map<string, Row>,
    claims: map<string, Claim>,
    load: Row -> Option<Note>,
    assetIntact: (string, Root) -> bool,
    parse: (string, Root) -> Option<string>,
    supports: (string, Evidence) -> bool)

  predicate Usable(r: Root) { r.Folder? || (r.Named? && Strip(r.text) != "") }

  /** Without a map both roots are the workspace; with one, the map decides and must have a usable entry. */
  function LocationOf(row: Row, workspace: Root, mappings: Mappings): Option<Location> {
    if mappings.None? then Some(Location(workspace, workspace))
    else if row.relPath !in mappings.value then None
    else
      var location := match mappings.value[row.relPath]
        case Both(root) => Location(root, root)
        case Separate(l) => l;
      if Usable(location.note) && Usable(location.support) then Some(location) else None
  }

  function FirstClaim(claims: seq<KeyClaim>, id: string): Option<KeyClaim> {
    if claims == [] then None
    else if claims[0].id == id then Some(claims[0])
    else FirstClaim(claims[1..], id)
  }

  /** The verified parse of a note's asset. */
  function ParsedOf(note: Note, support: Root, w: World): Outcome<string>
    requires note.asset.Some? && note.parsed.Some?
  {
    if !w.assetIntact(note.asset.value, support) then Failed(AssetStale)
    else
      var parsed := w.parse(note.parsed.value, support);
      if parsed.None? then Failed(ParseStale) else Ok(parsed.value)
  }

  // ----- one claim of a batch, without caches -----

  function Resolve(claim: Claim, workspace: Root, mappings: Mappings, w: World): Outcome<Evidence> {
    if claim.docId !in w.rows || w.rows[claim.docId].docType != "source" then Ok([])
    else
      var row := w.rows[claim.docId];
      var location := LocationOf(row, workspace, mappings);
      var note := w.load(row);
      if location.None? then Failed(BadLocation)
      else if note.None? then Failed(BadNote)
      else
        var canonical := FirstClaim(note.value.keyClaims, claim.id);
        if canonical.None? then Failed(ClaimAbsent)
        else if canonical.value.evidence == [] then Ok([])
        else if note.value.asset.None? || note.value.parsed.None? then Failed(NoReference)
        else
          var parsed := ParsedOf(note.value, location.value.support, w);
          if parsed.Failed? then Failed(parsed.fault)
          else if !w.supports(parsed.value, canonical.value.evidence) then Failed(EvidenceStale)
          else Ok(canonical.value.evidence)
  }

  // ----- what that means, written out -----

  /** Where the assets of this document are looked up: in the workspace without a map, else in the support root
    that the map has for its path; both of its roots must be a path or a text that is not blank. */
  ghost predicate SupportRoot(row: Row, workspace: Root, mappings: Mappings, support: Root) {
    match mappings
    case None => support == workspace
    case Some(m) =>
      && row.relPath in m
      && exists note: Root ::
           && m[row.relPath] in {Both(support), Separate(Location(note, support))}
           && (m[row.relPath].Both? ==> note == support)
           && IsPlace(note) && IsPlace(support)
  }

  /** A path, or a text that is not blank. */
  ghost predicate IsPlace(root: Root) { root.Folder? || (root.Named? && exists i :: 0 <= i < |root.text| && !IsSpace(root.text[i])) }

  lemma UsableIsPlace(root: Root)
    ensures Usable(root) <==> IsPlace(root)
  {
    if root.Named? { StripIsBlank(root.text); }
  }

  /** The first key claim with this identifier. */
  ghost predicate FirstWith(claims: seq<KeyClaim>, i: int, id: string) {
    0 <= i < |claims| && claims[i].id == id && forall j :: 0 <= j < i ==> claims[j].id != id
  }

  /** A source document with a place for its assets and a note that validates. */
  ghost predicate IsSource(claim: Claim, w: World) { claim.docId in w.rows && w.rows[claim.docId].docType == "source" }

  ghost predicate CanOpen(claim: Claim, workspace: Root, mappings: Mappings, w: World, support: Root, note: Note)
    requires claim.docId in w.rows
  {
    SupportRoot(w.rows[claim.docId], workspace, mappings, support) && w.load(w.rows[claim.docId]) == Some(note)
  }

  lemma LocationIs(row: Row, workspace: Root, mappings: Mappings)
    ensures LocationOf(row, workspace, mappings).Some? ==> SupportRoot(row, workspace, mappings, LocationOf(row, workspace, mappings).value.support)
    ensures forall support :: SupportRoot(row, workspace, mappings, support) ==>
      LocationOf(row, workspace, mappings).Some? && LocationOf(row, workspace, mappings).value.support == support
  {
    forall root ensures Usable(root) <==> IsPlace(root) { UsableIsPlace(root); }
    if mappings.Some? && row.relPath in mappings.value && LocationOf(row, workspace, mappings).Some? {
      var location := LocationOf(row, workspace, mappings).value;
      assert mappings.value[row.relPath] in {Both(location.support), Separate(Location(location.note, location.support))};
    }
  }

  lemma {:induction false} FirstClaimIs(claims: seq<KeyClaim>, id: string) returns (i: int)
    ensures if FirstClaim(claims, id).Some? then FirstWith(claims, i, id) && FirstClaim(claims, id).value == claims[i]
      else forall j :: 0 <= j < |claims| ==> claims[j].id != id
  {
    i := 0;
    if claims != [] && claims[0].id != id {
      var k := FirstClaimIs(claims[1..], id);
      i := k + 1;
    }
  }

  /** Evidence comes back exactly if the document is a source, its place and its note are in order, its first key
    claim of that name carries this evidence, its asset is intact at that place, and the parse found there
    supports the evidence; nothing comes back for any other document and for a claim without evidence. */
  lemma EvidenceExactlyWhen(claim: Claim, workspace: Root, mappings: Mappings, w: World, evidence: Evidence)
    ensures Resolve(claim, workspace, mappings, w) == Ok(evidence) <==>
      if !IsSource(claim, w) then evidence == []
      else exists support, note, i ::
        && CanOpen(claim, workspace, mappings, w, support, note)
        && FirstWith(note.keyClaims, i, claim.id) && note.keyClaims[i].evidence == evidence
        && (evidence != [] ==>
              && note.asset.Some? && note.parsed.Some? && w.assetIntact(note.asset.value, support)
              && w.parse(note.parsed.value, support).Some? && w.supports(w.parse(note.parsed.value, support).value, evidence))
  {
    if IsSource(claim, w) {
      var row := w.rows[claim.docId];
      LocationIs(row, workspace, mappings);
      if w.load(row).Some? {
        var note := w.load(row).value;
        var i := FirstClaimIs(note.keyClaims, claim.id);
        if LocationOf(row, workspace, mappings).Some? {
          assert CanOpen(claim, workspace, mappings, w, LocationOf(row, workspace, mappings).value.support, note);
        }
        forall k | FirstWith(note.keyClaims, k, claim.id) ensures k == i { }
      }
    }
  }

  /** The fault of a claim is the first thing that is missing or stale. */
  lemma FaultExactlyWhen(claim: Claim, workspace: Root, mappings: Mappings, w: World, support: Root, note: Note, i: int)
    requires IsSource(claim, w)
    ensures var outcome := Resolve(claim, workspace, mappings, w);
      && (outcome == Failed(BadLocation) <==> !exists root :: SupportRoot(w.rows[claim.docId], workspace, mappings, root))
      && (SupportRoot(w.rows[claim.docId], workspace, mappings, support) ==>
            (outcome == Failed(BadNote) <==> w.load(w.rows[claim.docId]).None?))
      && (CanOpen(claim, workspace, mappings, w, support, note) ==>
            (outcome == Failed(ClaimAbsent) <==> forall key :: key in note.keyClaims ==> key.id != claim.id))
      && (CanOpen(claim, workspace, mappings, w, support, note) && FirstWith(note.keyClaims, i, claim.id) && note.keyClaims[i].evidence != [] ==>
            && (outcome == Failed(NoReference) <==> note.asset.None? || note.parsed.None?)
            && (note.asset.Some? && note.parsed.Some? ==>
                  var intact, parsed := w.assetIntact(note.asset.value, support), w.parse(note.parsed.value, support);
                  && (outcome == Failed(AssetStale) <==> !intact)
                  && (outcome == Failed(ParseStale) <==> intact && parsed.None?)
                  && (outcome == Failed(EvidenceStale) <==> intact && parsed.Some? && !w.supports(parsed.value, note.keyClaims[i].evidence))))
  {
    var row := w.rows[claim.docId];
    LocationIs(row, workspace, mappings);
    if w.load(row).Some? {
      var k := FirstClaimIs(w.load(row).value.keyClaims, claim.id);
    }
  }

  // ----- the caches -----

  datatype Caches = Caches(notes: map<string, Note>, parsed: map<string, string>)

  /** A cached note is its row's note, and a cached parse is what its note's asset parses to at the location
    of the row. */
  ghost predicate Coherent(c: Caches, workspace: Root, mappings: Mappings, w: World) {
    && (forall d :: d in c.notes ==> d in w.rows && w.load(w.rows[d]) == Some(c.notes[d]))
    && (forall d :: d in c.parsed ==>
        && d in c.notes && d in w.rows
        && c.notes[d].asset.Some? && c.notes[d].parsed.Some?
        && LocationOf(w.rows[d], workspace, mappings).Some?
        && ParsedOf(c.notes[d], LocationOf(w.rows[d], workspace, mappings).value.support, w) == Ok(c.parsed[d]))
  }

  /** Resolve the next claim of the batch.  Whatever the caches already hold, the outcome is the one the
    claim has alone. */
  method ResolveCached(claim: Claim, caches: Caches, workspace: Root, mappings: Mappings, w: World)
    returns (outcome: Outcome<Evidence>, after: Caches)
    requires Coherent(caches, workspace, mappings, w)
    ensures outcome == Resolve(claim, workspace, mappings, w)
    ensures Coherent(after, workspace, mappings, w)
  {
    after := caches;
    if claim.docId !in w.rows || w.rows[claim.docId].docType != "source" { return Ok([]), after; }
    var row := w.rows[claim.docId];
    var location := LocationOf(row, workspace, mappings);
    if location.None? { return Failed(BadLocation), after; }
    if claim.docId !in after.notes {
      var loaded := w.load(row);
      if loaded.None? { return Failed(BadNote), after; }
      after := after.(notes := after.notes[claim.docId := loaded.value]);
    }
    var note := after.notes[claim.docId];
    var canonical := FirstClaim(note.keyClaims, claim.id);
    if canonical.None? { return Failed(ClaimAbsent), after; }
    if canonical.value.evidence == [] { return Ok([]), after; }
    if note.asset.None? || note.parsed.None? { return Failed(NoReference), after; }
    if claim.docId !in after.parsed {
      var parsed := ParsedOf(note, location.value.support, w);
      if parsed.Failed? { return Failed(parsed.fault), after; }
      after := after.(parsed := after.parsed[claim.docId := parsed.value]);
    }
    if !w.supports(after.parsed[claim.docId], canonical.value.evidence) { return Failed(EvidenceStale), after; }
    outcome := Ok(canonical.value.evidence);
  }

  // ----- the batch -----

  /** The last claim of the batch with this identifier. */
  function LastClaim(claims: seq<Claim>, id: string): Option<Claim> {
    if claims == [] then None
    else if claims[|claims| - 1].id == id then Some(claims[|claims| - 1])
    else LastClaim(claims[..|claims| - 1], id)
  }

  ghost predicate AllResolve(claims: seq<Claim>, workspace: Root, mappings: Mappings, w: World) {
    forall c :: c in claims ==> Resolve(c, workspace, mappings, w).Ok?
  }

  /** The dictionary has one key for each claim identifier, and the value of the last claim that has it. */
  ghost predicate Answers(result: map<string, Evidence>, claims: seq<Claim>, workspace: Root, mappings: Mappings, w: World) {
    forall id ::
      && (id in result <==> LastClaim(claims, id).Some?)
      && (id in result ==> Ok(result[id]) == Resolve(LastClaim(claims, id).value, workspace, mappings, w))
  }

  lemma AnswersNext(result: map<string, Evidence>, claims: seq<Claim>, c: Claim, workspace: Root, mappings: Mappings, w: World)
    requires Answers(result, claims, workspace, mappings, w) && Resolve(c, workspace, mappings, w).Ok?
    ensures Answers(result[c.id := Resolve(c, workspace, mappings, w).value], claims + [c], workspace, mappings, w)
  {
    assert (claims + [c])[..|claims|] == claims;
  }

  /** The caches do not show: the batch fails exactly when some claim fails by itself, with the fault of the
    first that does, and otherwise answers every claim as if it were alone. */
  method EvidenceByClaim(claims: seq<Claim>, workspace: Root, mappings: Mappings, w: World)
    returns (answer: Outcome<map<string, Evidence>>)
    ensures answer.Ok? <==> AllResolve(claims, workspace, mappings, w)
    ensures answer.Ok? ==> Answers(answer.value, claims, workspace, mappings, w)
    ensures answer.Failed? ==> exists i ::
      && 0 <= i < |claims|
      && Resolve(claims[i], workspace, mappings, w) == Failed(answer.fault)
      && AllResolve(claims[..i], workspace, mappings, w)
  {
    var caches := Caches(map[], map[]);
    var result: map<string, Evidence> := map[];
    ghost var done: seq<Claim> := [];
    for i := 0 to |claims|
      invariant done == claims[..i]
      invariant Coherent(caches, workspace, mappings, w)
      invariant AllResolve(done, workspace, mappings, w)
      invariant Answers(result, done, workspace, mappings, w)
    {
      var outcome, after := ResolveCached(claims[i], caches, workspace, mappings, w);
      if outcome.Failed? {
        assert claims[i] in claims;
        return Failed(outcome.fault);
      }
      AnswersNext(result, done, claims[i], workspace, mappings, w);
      done := done + [claims[i]];
      caches, result := after, result[claims[i].id := outcome.value];
    }
    assert done == claims;
    answer := Ok(result);
  }

  predicate DistinctIds(claims: seq<Claim>) {
    forall i, j :: 0 <= i < j < |claims| ==> claims[i].id != claims[j].id
  }

  lemma {:induction false} LastIsOnly(claims: seq<Claim>, c: Claim)
    requires DistinctIds(claims) && c in claims
    ensures LastClaim(claims, c.id) == Some(c)
    decreases |claims|
  {
    var i :| 0 <= i < |claims| && claims[i] == c;
    if i < |claims| - 1 {
      assert claims[..|claims| - 1][i] == c;
      LastIsOnly(claims[..|claims| - 1], c);
    }
  }

  lemma {:induction false} LastIsMember(claims: seq<Claim>, id: string)
    requires LastClaim(claims, id).Some?
    ensures LastClaim(claims, id).value in claims && LastClaim(claims, id).value.id == id
    decreases |claims|
  {
    if claims[|claims| - 1].id != id { LastIsMember(claims[..|claims| - 1], id); }
  }

  /** With distinct identifiers the answer is the map of single resolutions, so the order in which claims, and
    with them documents, are met makes no difference. */
  lemma OrderDoesNotMatter(a: map<string, Evidence>, claims: seq<Claim>, b: map<string, Evidence>, permuted: seq<Claim>, workspace: Root, mappings: Mappings, w: World)
    requires DistinctIds(claims) && DistinctIds(permuted) && forall c :: c in claims <==> c in permuted
    requires Answers(a, claims, workspace, mappings, w) && Answers(b, permuted, workspace, mappings, w)
    ensures a == b
    ensures forall c :: c in claims ==> c.id in a && Ok(a[c.id]) == Resolve(c, workspace, mappings, w)
  {
    forall id ensures id in a <==> id in b
      ensures id in a ==> a[id] == b[id]
    {
      if LastClaim(claims, id).Some? {
        LastIsMember(claims, id);
        LastIsOnly(permuted, LastClaim(claims, id).value);
      }
      if LastClaim(permuted, id).Some? {
        LastIsMember(permuted, id);
        LastIsOnly(claims, LastClaim(permuted, id).value);
      }
    }
    forall c | c in claims ensures c.id in a && Ok(a[c.id]) == Resolve(c, workspace, mappings, w) {
      LastIsOnly(claims, c);
    }
  }

  // ----- the inspection command -----

  /** Resolve one indexed claim by name; unlike the batch it demands evidence. */
  function Inspect(name: string, workspace: Root, w: World): Outcome<Evidence> {
    var id := RemovePrefix(name, "claim:");
    if id !in w.claims then Failed(NotFound)
    else
      var docId := w.claims[id].docId;
      if docId !in w.rows then Failed(NoDocument)
      else
        var note := w.load(w.rows[docId]);
        if note.None? then Failed(BadNote)
        else
          var canonical := FirstClaim(note.value.keyClaims, id);
          if canonical.None? then Failed(ClaimAbsent)
          else if canonical.value.evidence == [] then Failed(Ungrounded)
          else if note.value.asset.None? || note.value.parsed.None? then Failed(NoReference)
          else
            var parsed := ParsedOf(note.value, workspace, w);
            if parsed.Failed? then Failed(parsed.fault)
            else if !w.supports(parsed.value, canonical.value.evidence) then Failed(EvidenceStale)
            else Ok(canonical.value.evidence)
  }

  /** The two resolvers agree on the claims of source documents: the same evidence, and the same fault, except
    that where the batch answers nothing the inspection reports a claim without evidence. */
  lemma InspectionAgrees(name: string, workspace: Root, w: World)
    requires var id := RemovePrefix(name, "claim:");
      && id in w.claims && w.claims[id].id == id
      && w.claims[id].docId in w.rows && w.rows[w.claims[id].docId].docType == "source"
    ensures var alone := Resolve(w.claims[RemovePrefix(name, "claim:")], workspace, None, w);
      Inspect(name, workspace, w) == if alone == Ok([]) then Failed(Ungrounded) else alone
  {
  }

  /** For a document of another type they part: the batch answers nothing without looking, the inspection
    may return evidence. */
  lemma InspectionSeesOtherDocuments(w: World, workspace: Root, name: string)
    requires Inspect(name, workspace, w).Ok? && w.claims[RemovePrefix(name, "claim:")].docId in w.rows
    requires w.rows[w.claims[RemovePrefix(name, "claim:")].docId].docType != "source"
    ensures Resolve(w.claims[RemovePrefix(name, "claim:")], workspace, None, w) == Ok([])
      && Inspect(name, workspace, w) != Ok([])
  {
  }
}
