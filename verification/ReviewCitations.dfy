/** The citations of a managed review subject: checked against reopened artifact bytes, projected without
  private identifiers, deduplicated by span and put in order for the public packet. */
module ReviewCitations {
  import opened CreateOnlyFiles
  import opened TupleOrder
  import opened Utf8
  import opened SourceText

  type Bytes = seq<int>

  /** SHA-256 in hexadecimal. */
  type Digest = Bytes -> string

  ghost predicate Injective(sha: Digest) {
    forall a, b :: sha(a) == sha(b) ==> a == b
  }

  datatype Artifact = Artifact(id: string, path: string, sha256: string, byteCount: int)

  datatype Citation = Citation(artifactId: string, artifactSha: string, start: nat, end: nat, quote: string)

  datatype PublicCitation = PublicCitation(locator: string, sha256: string, start: nat, end: nat, quote: string)

  const MAX_LOCATOR: nat := 1024
  const MAX_PUBLIC_QUOTE: nat := 4000
  const MAX_STORED_QUOTE_BYTES: nat := 8192

  /** What the store guarantees of a citation: its span is as long as its quote, which is bounded in bytes. */
  predicate Grounded(c: Citation) {
    && 1 <= |c.quote| <= 8192
    && c.end - c.start == |Encode(c.quote)| <= MAX_STORED_QUOTE_BYTES
  }

  datatype Fault = Unbound | NotReopened | QuoteDiffers | NotPublic | Conflict

  datatype Projected = Public(citations: seq<PublicCitation>) | Refused(fault: Fault)

  /** The artifact with this identifier; the last one, as in a dictionary built in order. */
  function Find(inputs: seq<Artifact>, id: string): Option<Artifact> {
    if inputs == [] then None
    else if inputs[|inputs| - 1].id == id then Some(inputs[|inputs| - 1])
    else Find(inputs[..|inputs| - 1], id)
  }

  function Slice(bytes: Bytes, start: nat, end: nat): Bytes
    requires end <= |bytes|
  {
    if start <= end then bytes[start..end] else []
  }

  predicate IsAlphanumeric(c: char) { 'a' <= c <= 'z' || 'A' <= c <= 'Z' || '0' <= c <= '9' }

  /** A canonical relative path of plain characters, without empty or hidden components. */
  predicate SafeLocator(path: string) {
    && 1 <= |path| <= MAX_LOCATOR && IsAlphanumeric(path[0])
    && (forall i :: 0 <= i < |path| ==> IsAlphanumeric(path[i]) || path[i] in "._/-")
    && forall part :: part in Split(path, '/') ==> part != "" && part[0] != '.'
  }

  /** What is wrong with one citation, in the order in which it is noticed. */
  function FaultOf(c: Citation, inputs: seq<Artifact>, open: Artifact -> Option<Bytes>, sha: Digest): Option<Fault> {
    var found := Find(inputs, c.artifactId);
    if found.None? || found.value.sha256 != c.artifactSha then Some(Unbound)
    else
      var reopened := open(found.value);
      if reopened.None?
        || |reopened.value| != found.value.byteCount
        || sha(reopened.value) != found.value.sha256
        || c.end > |reopened.value| then Some(NotReopened)
      else if Slice(reopened.value, c.start, c.end) != Encode(c.quote) then Some(QuoteDiffers)
      else if c.quote == [] || |c.quote| > MAX_PUBLIC_QUOTE || c.end <= c.start || !SafeLocator(found.value.path)
        then Some(NotPublic)
      else None
  }

  function PublicOf(c: Citation, inputs: seq<Artifact>): PublicCitation
    requires Find(inputs, c.artifactId).Some?
  {
    PublicCitation(Find(inputs, c.artifactId).value.path, c.artifactSha, c.start, c.end, c.quote)
  }

  // ----- what is checked and shown, written out -----

  /** Input `i` is the last with this identifier. */
  ghost predicate LastInput(inputs: seq<Artifact>, i: int, id: string) {
    0 <= i < |inputs| && inputs[i].id == id && forall j :: i < j < |inputs| ==> inputs[j].id != id
  }

  /** The citation names an input, by its identifier and its digest. */
  ghost predicate IsBound(c: Citation, inputs: seq<Artifact>, i: int) { LastInput(inputs, i, c.artifactId) && inputs[i].sha256 == c.artifactSha }

  /** The input opens to bytes of its length and digest, and the span lies in them. */
  ghost predicate Reopens(c: Citation, artifact: Artifact, open: Artifact -> Option<Bytes>, sha: Digest) {
    open(artifact).Some? && |open(artifact).value| == artifact.byteCount && sha(open(artifact).value) == artifact.sha256
    && c.end <= |open(artifact).value|
  }

  ghost predicate QuotesExactly(c: Citation, bytes: Bytes) {
    (if c.start <= c.end <= |bytes| then bytes[c.start..c.end] else []) == Encode(c.quote)
  }

  /** What the packet takes: a quote of 1 to 4000 characters, a span that is not empty, a safe path. */
  ghost predicate FitsPacket(c: Citation, artifact: Artifact) { 1 <= |c.quote| <= 4000 && c.start < c.end && SafeLocator(artifact.path) }

  lemma {:induction false} FindIs(inputs: seq<Artifact>, id: string) returns (i: int)
    ensures if Find(inputs, id).Some? then LastInput(inputs, i, id) && Find(inputs, id).value == inputs[i]
      else forall j :: 0 <= j < |inputs| ==> inputs[j].id != id
    decreases |inputs|
  {
    i := |inputs| - 1;
    if inputs != [] && inputs[i].id != id { i := FindIs(inputs[..i], id); }
  }

  /** A citation has no fault exactly when it is bound, reopens, quotes exactly and fits the packet; otherwise its
    fault is the first of these that fails. */
  lemma FaultIs(c: Citation, inputs: seq<Artifact>, open: Artifact -> Option<Bytes>, sha: Digest) returns (i: int)
    ensures FaultOf(c, inputs, open, sha) == Some(Unbound) <==> !IsBound(c, inputs, i)
    ensures !IsBound(c, inputs, i) ==> forall j :: !IsBound(c, inputs, j)
    ensures IsBound(c, inputs, i) ==>
      && (FaultOf(c, inputs, open, sha) == Some(NotReopened) <==> !Reopens(c, inputs[i], open, sha))
      && (Reopens(c, inputs[i], open, sha) ==>
            && (FaultOf(c, inputs, open, sha) == Some(QuoteDiffers) <==> !QuotesExactly(c, open(inputs[i]).value))
            && (QuotesExactly(c, open(inputs[i]).value) ==>
                  FaultOf(c, inputs, open, sha) == if FitsPacket(c, inputs[i]) then None else Some(NotPublic)))
  {
    i := FindIs(inputs, c.artifactId);
    if !IsBound(c, inputs, i) {
      forall j ensures !IsBound(c, inputs, j) {
        if LastInput(inputs, j, c.artifactId) && Find(inputs, c.artifactId).Some? { assert i == j; }
      }
    }
  }

  /** What is shown of a citation: the path of its input, and its own digest, span and quote. */
  ghost predicate Shows(p: PublicCitation, c: Citation, inputs: seq<Artifact>) {
    exists i :: IsBound(c, inputs, i) && p == PublicCitation(inputs[i].path, c.artifactSha, c.start, c.end, c.quote)
  }

  lemma PublicShows(c: Citation, inputs: seq<Artifact>, open: Artifact -> Option<Bytes>, sha: Digest, p: PublicCitation)
    requires FaultOf(c, inputs, open, sha).None?
    ensures Shows(p, c, inputs) <==> p == PublicOf(c, inputs)
  {
    var i := FindIs(inputs, c.artifactId);
    assert IsBound(c, inputs, i);
    if j :| IsBound(c, inputs, j) && p == PublicCitation(inputs[j].path, c.artifactSha, c.start, c.end, c.quote) { assert i == j; }
  }

  lemma ProjectionsShow(citations: seq<Citation>, inputs: seq<Artifact>, open: Artifact -> Option<Bytes>, sha: Digest, p: PublicCitation)
    requires Sound(citations, inputs, open, sha)
    ensures p in Projections(citations, inputs) <==> exists c :: c in citations && Shows(p, c, inputs)
  {
    forall c | c in citations ensures Find(inputs, c.artifactId).Some? && (Shows(p, c, inputs) <==> p == PublicOf(c, inputs)) {
      PublicShows(c, inputs, open, sha, p);
    }
  }

  /** A safe path is made of components of letters, digits, dots, dashes and underscores, none of which is empty
    or starts with a dot, and it starts with a letter or a digit. */
  lemma SafeLocatorExactlyWhen(path: string)
    ensures SafeLocator(path) <==> 1 <= |path| <= 1024 && IsAlphanumeric(path[0]) && exists parts :: IsPathOf(parts, path)
  {
    JoinOfSplit(path, '/');
    if SafeLocator(path) {
      var parts := Split(path, '/');
      forall part, i | part in parts && 0 <= i < |part| ensures part[i] != '/' && part[i] in path { PartOfText(path, '/', part, i); }
      assert IsPathOf(parts, path);
    }
    if parts :| IsPathOf(parts, path) {
      forall part | part in parts ensures '/' !in part { }
      SplitOfJoin(parts, '/');
      forall i | 0 <= i < |path| ensures path[i] == '/' || IsAlphanumeric(path[i]) || path[i] in "._-" { CharOfJoin(parts, '/', i); }
    }
  }

  ghost predicate IsPathOf(parts: seq<string>, path: string) {
    && parts != [] && path == Join(parts, "/")
    && forall part :: part in parts ==>
         part != "" && part[0] != '.' && forall i :: 0 <= i < |part| ==> IsAlphanumeric(part[i]) || part[i] in "._-"
  }

  lemma {:induction false} PartOfText(s: string, c: char, part: string, i: nat)
    requires part in Split(s, c) && i < |part|
    ensures part[i] in s
    decreases |s|
  {
    var k := IndexOf(s, c);
    if k < |s| && part != s[..k] { PartOfText(s[k + 1..], c, part, i); }
  }

  lemma {:induction false} CharOfJoin(parts: seq<string>, c: char, i: nat)
    requires parts != [] && i < |Join(parts, [c])|
    ensures Join(parts, [c])[i] == c || exists part, j :: part in parts && 0 <= j < |part| && part[j] == Join(parts, [c])[i]
    decreases |parts|
  {
    var init, last := parts[..|parts| - 1], parts[|parts| - 1];
    assert last in parts && forall part :: part in init ==> part in parts;
    if |parts| > 1 {
      var n := |Join(init, [c])|;
      if i < n {
        CharOfJoin(init, c, i);
      } else if i > n {
        assert last[i - n - 1] == Join(parts, [c])[i];
      }
    } else {
      assert last[i] == Join(parts, [c])[i];
    }
  }

  /** The packet is ordered by path, then by start, then by end, then by digest. */
  lemma SpanOrderIs(p: PublicCitation, q: PublicCitation)
    ensures Less(SpanKey(p), SpanKey(q)) <==>
      if p.locator != q.locator then Below(Codes(p.locator), Codes(q.locator))
      else if p.start != q.start then p.start < q.start
      else if p.end != q.end then p.end < q.end
      else p.sha256 != q.sha256 && Below(Codes(p.sha256), Codes(q.sha256))
  {
    if Codes(p.locator) == Codes(q.locator) { CodesInjective(p.locator, q.locator); }
    if Codes(p.sha256) == Codes(q.sha256) { CodesInjective(p.sha256, q.sha256); }
    BelowOne(p.start, q.start);
    BelowOne(p.end, q.end);
    var a, b := SpanKey(p), SpanKey(q);
    assert a[1..] == [[p.start], [p.end], Codes(p.sha256)] && b[1..] == [[q.start], [q.end], Codes(q.sha256)];
    LessFirst(a, b);
    assert [p.start] == [q.start] <==> p.start == q.start by { assert [p.start][0] == p.start && [q.start][0] == q.start; }
    assert a[1..][1..] == [[p.end], Codes(p.sha256)] && b[1..][1..] == [[q.end], Codes(q.sha256)];
    LessFirst(a[1..], b[1..]);
    assert [p.end] == [q.end] <==> p.end == q.end by { assert [p.end][0] == p.end && [q.end][0] == q.end; }
    LessFirst(a[1..][1..], b[1..][1..]);
    LessFirst([Codes(p.sha256)], [Codes(q.sha256)]);
    assert [Codes(p.sha256)][1..] == [] && a[1..][1..][1..] == [Codes(p.sha256)] && b[1..][1..][1..] == [Codes(q.sha256)];
  }

  // ----- projecting -----

  function SpanKey(p: PublicCitation): Key { [Codes(p.locator), [p.start], [p.end], Codes(p.sha256)] }

  lemma SpanKeyInjective(p: PublicCitation, q: PublicCitation)
    requires SpanKey(p) == SpanKey(q)
    ensures p.locator == q.locator && p.start == q.start && p.end == q.end && p.sha256 == q.sha256
  {
    assert SpanKey(p)[0] == SpanKey(q)[0] && SpanKey(p)[1][0] == SpanKey(q)[1][0];
    assert SpanKey(p)[2][0] == SpanKey(q)[2][0] && SpanKey(p)[3] == SpanKey(q)[3];
    CodesInjective(p.locator, q.locator);
    CodesInjective(p.sha256, q.sha256);
  }

  /** Some bytes with this digest hold the quote at this span. */
  ghost predicate Quotes(p: PublicCitation, sha: Digest) {
    exists bytes: Bytes ::
      sha(bytes) == p.sha256 && p.start <= p.end <= |bytes| && bytes[p.start..p.end] == Encode(p.quote)
  }

  lemma AcceptedQuotes(c: Citation, inputs: seq<Artifact>, open: Artifact -> Option<Bytes>, sha: Digest)
    requires FaultOf(c, inputs, open, sha).None?
    ensures Quotes(PublicOf(c, inputs), sha)
  {
    var bytes := open(Find(inputs, c.artifactId).value).value;
    assert sha(bytes) == c.artifactSha && bytes[c.start..c.end] == Encode(c.quote);
  }

  /** The conflict branch is dead: one span of one digest holds one quote. */
  lemma SpanDeterminesQuote(p: PublicCitation, q: PublicCitation, sha: Digest)
    requires Injective(sha) && Quotes(p, sha) && Quotes(q, sha) && SpanKey(p) == SpanKey(q)
    ensures p == q
  {
    SpanKeyInjective(p, q);
    EncodeInjective(p.quote, q.quote);
  }

  function Projections(citations: seq<Citation>, inputs: seq<Artifact>): set<PublicCitation> {
    set c | c in citations && Find(inputs, c.artifactId).Some? :: PublicOf(c, inputs)
  }

  lemma OneMoreProjection(seen: seq<Citation>, c: Citation, inputs: seq<Artifact>)
    requires Find(inputs, c.artifactId).Some?
    ensures Projections(seen + [c], inputs) == Projections(seen, inputs) + {PublicOf(c, inputs)}
  {
    forall p ensures p in Projections(seen + [c], inputs) <==> p in Projections(seen, inputs) + {PublicOf(c, inputs)} {
    }
  }

  /** A dictionary by span, with its keys in insertion order. */
  datatype SpanIndex = SpanIndex(at: map<Key, PublicCitation>, keys: seq<Key>)

  function SetDefault(index: SpanIndex, p: PublicCitation): SpanIndex {
    if SpanKey(p) in index.at then index
    else SpanIndex(index.at[SpanKey(p) := p], index.keys + [SpanKey(p)])
  }

  function Itself(k: Key): Key { k }

  ghost predicate Keyed(index: SpanIndex) {
    && DistinctKeys(index.keys, Itself)
    && (forall k :: k in index.keys <==> k in index.at)
    && (forall k :: k in index.at ==> SpanKey(index.at[k]) == k)
  }

  /** The index holds exactly these projections. */
  ghost predicate Holds(index: SpanIndex, projections: set<PublicCitation>) {
    && (forall p :: p in projections ==> HoldsOne(index, p))
    && (forall k :: k in index.at ==> index.at[k] in projections)
  }

  ghost predicate HoldsOne(index: SpanIndex, p: PublicCitation) {
    SpanKey(p) in index.at && index.at[SpanKey(p)] == p
  }

  ghost predicate Quoting(index: SpanIndex, sha: Digest) {
    forall k :: k in index.at ==> Quotes(index.at[k], sha)
  }

  lemma SetDefaultKeyed(index: SpanIndex, p: PublicCitation)
    requires Keyed(index)
    ensures Keyed(SetDefault(index, p))
  {
  }

  lemma SetDefaultHolds(index: SpanIndex, projections: set<PublicCitation>, p: PublicCitation)
    requires Holds(index, projections) && HoldsOne(SetDefault(index, p), p)
    ensures Holds(SetDefault(index, p), projections + {p})
  {
    forall q | q in projections ensures HoldsOne(SetDefault(index, p), q) {
      assert HoldsOne(index, q);
    }
  }

  function Values(index: SpanIndex, keys: seq<Key>): (v: seq<PublicCitation>)
    requires forall k :: k in keys ==> k in index.at
    ensures |v| == |keys| && forall i :: 0 <= i < |keys| ==> v[i] == index.at[keys[i]]
  {
    seq(|keys|, i requires 0 <= i < |keys| => index.at[keys[i]])
  }

  lemma SortedKeys(index: SpanIndex)
    requires Keyed(index)
    ensures forall k :: k in Sort(index.keys, Itself) <==> k in index.at
    ensures StrictlyOrdered(Values(index, Sort(index.keys, Itself)), SpanKey)
  {
    var sorted := Sort(index.keys, Itself);
    SortIsSorted(index.keys, Itself);
    forall k ensures k in sorted <==> k in index.at {
      assert k in sorted <==> k in multiset(sorted);
      assert k in index.keys <==> k in multiset(index.keys);
    }
    DistinctPermuted(index.keys, sorted, Itself);
    OrderedDistinct(sorted, Itself);
    var v := Values(index, sorted);
    forall i, j | 0 <= i < j < |v| ensures Less(SpanKey(v[i]), SpanKey(v[j])) {
      assert Less(Itself(sorted[i]), Itself(sorted[j]));
    }
  }

  /** Sorting the keys of the index yields the packet's list. */
  lemma ValuesList(index: SpanIndex, keys: seq<Key>, projections: set<PublicCitation>)
    requires Holds(index, projections) && forall k :: k in keys <==> k in index.at
    ensures Lists(Values(index, keys), projections)
  {
    var v := Values(index, keys);
    forall p ensures p in v <==> p in projections {
      if p in projections {
        assert HoldsOne(index, p);
        var i :| 0 <= i < |keys| && keys[i] == SpanKey(p);
        assert v[i] == p;
      }
    }
  }

  ghost predicate Sound(seen: seq<Citation>, inputs: seq<Artifact>, open: Artifact -> Option<Bytes>, sha: Digest) {
    forall c :: c in seen ==> FaultOf(c, inputs, open, sha).None?
  }

  /** The fault of the first citation that has one. */
  ghost predicate FirstFault(fault: Fault, citations: seq<Citation>, inputs: seq<Artifact>, open: Artifact -> Option<Bytes>, sha: Digest) {
    exists i ::
      && 0 <= i < |citations|
      && FaultOf(citations[i], inputs, open, sha) == Some(fault)
      && Sound(citations[..i], inputs, open, sha)
  }

  /** One turn of the loop: `setdefault` never meets a different projection under the same key. */
  lemma OneMore(index: SpanIndex, projections: set<PublicCitation>, p: PublicCitation, sha: Digest)
    requires Injective(sha) && Keyed(index) && Holds(index, projections) && Quoting(index, sha) && Quotes(p, sha)
    ensures var after := SetDefault(index, p);
      Keyed(after) && Holds(after, projections + {p}) && HoldsOne(after, p) && Quoting(after, sha)
  {
    SetDefaultKeyed(index, p);
    if SpanKey(p) in index.at {
      SpanDeterminesQuote(index.at[SpanKey(p)], p, sha);
    }
    SetDefaultHolds(index, projections, p);
  }

  /** The loop has read these citations and found them in order. */
  ghost predicate Collected(index: SpanIndex, seen: seq<Citation>, inputs: seq<Artifact>, open: Artifact -> Option<Bytes>, sha: Digest) {
    Sound(seen, inputs, open, sha) && Keyed(index) && Holds(index, Projections(seen, inputs)) && Quoting(index, sha)
  }

  lemma CollectedNext(index: SpanIndex, seen: seq<Citation>, c: Citation, inputs: seq<Artifact>, open: Artifact -> Option<Bytes>, sha: Digest)
    requires Injective(sha) && Collected(index, seen, inputs, open, sha) && FaultOf(c, inputs, open, sha).None?
    ensures var p := PublicOf(c, inputs);
      && Collected(SetDefault(index, p), seen + [c], inputs, open, sha)
      && HoldsOne(SetDefault(index, p), p)
  {
    AcceptedQuotes(c, inputs, open, sha);
    OneMore(index, Projections(seen, inputs), PublicOf(c, inputs), sha);
    OneMoreProjection(seen, c, inputs);
  }

  /** Project the citations of one subject.  It succeeds exactly when every citation is in order by itself,
    and then lists each distinct projection once, strictly ordered; otherwise it reports the first fault of
    the first citation that has one.  It never reports a conflict. */
  method Project(citations: seq<Citation>, inputs: seq<Artifact>, open: Artifact -> Option<Bytes>, sha: Digest)
    returns (result: Projected)
    requires Injective(sha)
    ensures result.Public? <==> Sound(citations, inputs, open, sha)
    ensures result.Public? ==>
      && StrictlyOrdered(result.citations, SpanKey) && Lists(result.citations, Projections(citations, inputs))
      && forall p :: p in result.citations <==> exists c :: c in citations && Shows(p, c, inputs)
    ensures result.Refused? ==> result.fault != Conflict && FirstFault(result.fault, citations, inputs, open, sha)
  {
    var index := SpanIndex(map[], []);
    ghost var seen: seq<Citation> := [];
    for i := 0 to |citations|
      invariant seen == citations[..i] && Collected(index, seen, inputs, open, sha)
    {
      assert citations[..i + 1] == citations[..i] + [citations[i]];
      var fault := FaultOf(citations[i], inputs, open, sha);
      if fault.Some? {
        assert FirstFault(fault.value, citations, inputs, open, sha);
        return Refused(fault.value);
      }
      CollectedNext(index, seen, citations[i], inputs, open, sha);
      seen := seen + [citations[i]];
      var projected := PublicOf(citations[i], inputs);
      index := SetDefault(index, projected);
      if index.at[SpanKey(projected)] != projected { return Refused(Conflict); }
    }
    assert seen == citations;
    SortedKeys(index);
    var sorted := Sort(index.keys, Itself);
    ValuesList(index, sorted, Projections(citations, inputs));
    result := Public(Values(index, sorted));
    forall p ensures p in result.citations <==> exists c :: c in citations && Shows(p, c, inputs) {
      ProjectionsShow(citations, inputs, open, sha, p);
    }
  }

  // ----- what the packet may rely on -----

  /** The subject's own validator: keys equal to their sorted selves, without repetition. */
  predicate Accepted(public: seq<PublicCitation>) {
    var keys := seq(|public|, i requires 0 <= i < |public| => SpanKey(public[i]));
    keys == Sort(keys, Itself) && forall i, j :: 0 <= i < j < |keys| ==> keys[i] != keys[j]
  }

  lemma AcceptedExactlyWhenStrictlyOrdered(public: seq<PublicCitation>)
    ensures Accepted(public) <==> StrictlyOrdered(public, SpanKey)
  {
    var keys := seq(|public|, i requires 0 <= i < |public| => SpanKey(public[i]));
    SortIsSorted(keys, Itself);
    if Accepted(public) {
      OrderedDistinct(keys, Itself);
      forall i, j | 0 <= i < j < |public| ensures Less(SpanKey(public[i]), SpanKey(public[j])) {
        assert Less(Itself(keys[i]), Itself(keys[j]));
      }
    }
    if StrictlyOrdered(public, SpanKey) {
      forall i, j | 0 <= i < j < |keys| ensures Less(Itself(keys[i]), Itself(keys[j])) && keys[i] != keys[j] {
        assert Less(SpanKey(public[i]), SpanKey(public[j]));
        LessTotal(keys[i], keys[i]);
      }
      ArrangementUnique(keys, Sort(keys, Itself), Itself);
    }
  }

  /** The order in which a plan lists its citations, and how often it repeats one, does not show. */
  lemma PacketIgnoresOrder(p: seq<PublicCitation>, q: seq<PublicCitation>, cited: seq<Citation>, alsoCited: seq<Citation>, inputs: seq<Artifact>)
    requires StrictlyOrdered(p, SpanKey) && StrictlyOrdered(q, SpanKey)
    requires Lists(p, Projections(cited, inputs)) && Lists(q, Projections(alsoCited, inputs))
    requires forall c :: c in cited <==> c in alsoCited
    ensures p == q
  {
    assert Projections(cited, inputs) == Projections(alsoCited, inputs);
    SameMembers(p, q, SpanKey);
  }

  /** The store and the packet disagree on length: a stored citation that quotes its artifact exactly can be
    too long to be reviewed, and then the whole review cannot be opened. */
  lemma LongQuoteCannotBeReviewed(id: string, sha: Digest)
    ensures var bytes := seq(4001, _ => 'a' as int);
      var artifact := Artifact(id, "a", sha(bytes), 4001);
      var c := Citation(id, sha(bytes), 0, 4001, seq(4001, _ => 'a'));
      && Grounded(c) && SafeLocator(artifact.path)
      && FaultOf(c, [artifact], a => Some(bytes), sha) == Some(NotPublic)
  {
    var quote := seq(4001, _ => 'a');
    var bytes := seq(4001, _ => 'a' as int);
    AsciiEncoding(quote);
    assert Encode(quote) == bytes;
    assert bytes[0..4001] == bytes;
    assert Split("a", '/') == ["a"];
  }

  lemma {:induction false} TwoOctetEncoding(text: string)
    requires forall i :: 0 <= i < |text| ==> 0x80 <= text[i] as int < 0x800
    ensures |Encode(text)| == 2 * |text|
    decreases |text|
  {
    if text != [] { TwoOctetEncoding(text[1..]); }
  }

  /** The store counts bytes: it takes 8192 characters of one byte each and refuses 4097 of two. */
  lemma StoreCountsBytes(id: string, sha: string, start: nat, end: nat, c: char)
    requires 0x80 <= c as int < 0x800
    ensures Grounded(Citation(id, sha, start, start + 8192, seq(8192, _ => 'a')))
    ensures !Grounded(Citation(id, sha, start, end, seq(4097, _ => c)))
  {
    AsciiEncoding(seq(8192, _ => 'a'));
    TwoOctetEncoding(seq(4097, _ => c));
  }

  /** They disagree on paths as well: the store takes a path that starts with an underscore, the packet does
    not. */
  lemma UnderscoreCannotBeReviewed(id: string, sha: Digest)
    ensures var bytes := ['a' as int];
      var c := Citation(id, sha(bytes), 0, 1, "a");
      && Grounded(c)
      && FaultOf(c, [Artifact(id, "a", sha(bytes), 1)], a => Some(bytes), sha) == None
      && FaultOf(c, [Artifact(id, "_a", sha(bytes), 1)], a => Some(bytes), sha) == Some(NotPublic)
  {
    AsciiEncoding("a");
    assert Encode("a") == ['a' as int];
    assert ['a' as int][0..1] == ['a' as int];
    assert Split("a", '/') == ["a"];
  }

  lemma {:induction false} AsciiEncoding(text: string)
    requires forall i :: 0 <= i < |text| ==> text[i] as int < 0x80
    ensures |Encode(text)| == |text| && forall i :: 0 <= i < |text| ==> Encode(text)[i] == text[i] as int
    decreases |text|
  {
    if text != [] { AsciiEncoding(text[1..]); }
  }
}
