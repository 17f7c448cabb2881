/**
 The search index beside its sources: derived documents, the triggers that invalidate them, the refresh and the rebuild
 that restore them, and the gate that keeps a search from answering out of an incomplete index.
 */
module CatalogSearchIndex {
  import opened Text
  import opened Wrappers
  import opened Sorting
  import opened CatalogModel
  import opened CatalogSearch

  const CURRENT := Lit("opencc-1.4.1-t2s-v1")
  const INVALIDATED := Lit("invalidated")

  /** An entry as the index reads it: its row, and its aliases and contributors in position order. */
  datatype SourceEntry = SourceEntry(entry: Entry, aliases: seq<Str>, contributors: seq<Str>)

  datatype IndexRow = IndexRow(version: Str, document: Document)

  const NO_DOCUMENT := Document([], [], [], [], [], [], [])

  /** The row a trigger leaves in place of a document. */
  const INVALID := IndexRow(INVALIDATED, NO_DOCUMENT)

  // ---- From an entry to its document ----

  function FieldValue(entry: Entry, f: FieldName): Option<Str> {
    if f in entry.fields && entry.fields[f].Value? then Some(entry.fields[f].text) else None
  }

  /** `deriveCatalogPeriodLabel`: the stored label, or what can be said of dynasty and date. */
  function PeriodLabelOf(stored: Option<Str>, dynasty: Option<Str>, dateText: Option<Str>): Option<Str> {
    if stored.Some? then stored
    else if dynasty.Some? && dateText.Some? then Some(dynasty.value + [32, 0xB7, 32] + dateText.value)
    else if dynasty.Some? then dynasty
    else dateText
  }

  /** `projectCatalogSearchSourceRow` up to the projection itself. */
  function SourceOf(e: SourceEntry): Source {
    var dynasty, dateText := FieldValue(e.entry, Dynasty), FieldValue(e.entry, DateText);
    Source(
      e.entry.title, e.aliases, e.contributors, e.entry.summary, FieldValue(e.entry, Description),
      FieldValue(e.entry, Transcription),
      [
        PeriodLabelOf(e.entry.periodLabel, dynasty, dateText), dynasty, dateText, FieldValue(e.entry, ScriptStyle),
        FieldValue(e.entry, Province), FieldValue(e.entry, Prefecture), FieldValue(e.entry, County),
        FieldValue(e.entry, CurrentLocation), FieldValue(e.entry, CurrentCustodian)
      ])
  }

  function DocumentOf(e: SourceEntry, normalize: Str -> Str): Document {
    Project(SourceOf(e), normalize)
  }

  function ProjectionOf(normalize: Str -> Str): SourceEntry -> Document {
    (e: SourceEntry) => DocumentOf(e, normalize)
  }

  // ---- What the trigger on entries watches ----

  /** A column of an entry; a field stands for the column of its text and that of its state. */
  datatype Column = KindColumn | TitleColumn | SummaryColumn | PeriodLabelColumn | FieldColumn(name: FieldName)

  /** The columns that the trigger on updates of entries does not list. */
  const UNWATCHED: set<Column> := {KindColumn, FieldColumn(HistoricalContext), FieldColumn(ScholarlyResearch)}

  predicate SameField(a: Entry, b: Entry, f: FieldName) {
    (f in a.fields <==> f in b.fields) && (f in a.fields ==> a.fields[f] == b.fields[f])
  }

  /** An update that sets these columns leaves the others as they were. */
  ghost predicate KeepsOthers(a: Entry, b: Entry, columns: set<Column>) {
    && (KindColumn !in columns ==> a.kind == b.kind) && (TitleColumn !in columns ==> a.title == b.title)
    && (SummaryColumn !in columns ==> a.summary == b.summary)
    && (PeriodLabelColumn !in columns ==> a.periodLabel == b.periodLabel)
    && forall f :: FieldColumn(f) !in columns ==> SameField(a, b, f)
  }

  ghost predicate SameWatched(a: SourceEntry, b: SourceEntry) {
    KeepsOthers(a.entry, b.entry, UNWATCHED) && a.aliases == b.aliases && a.contributors == b.contributors
  }

  /** A projection reads nothing that can change unwatched. */
  ghost predicate ReadsWatched(project: SourceEntry -> Document) {
    forall a, b :: SameWatched(a, b) ==> project(a) == project(b)
  }

  lemma SameFieldValue(a: Entry, b: Entry, f: FieldName)
    requires KeepsOthers(a, b, UNWATCHED) && FieldColumn(f) !in UNWATCHED
    ensures FieldValue(a, f) == FieldValue(b, f)
  {
    assert SameField(a, b, f);
  }

  /** The trigger lists every column that the projection reads. */
  lemma ProjectionReadsWatched(normalize: Str -> Str)
    ensures ReadsWatched(ProjectionOf(normalize))
  {
    forall a, b | SameWatched(a, b) ensures ProjectionOf(normalize)(a) == ProjectionOf(normalize)(b) {
      SameSource(a, b);
    }
  }

  lemma SameSource(a: SourceEntry, b: SourceEntry)
    requires SameWatched(a, b)
    ensures SourceOf(a) == SourceOf(b)
  {
    forall f | FieldColumn(f) !in UNWATCHED ensures FieldValue(a.entry, f) == FieldValue(b.entry, f) {
      SameFieldValue(a.entry, b.entry, f);
    }
  }

  // ---- States ----

  type Sources = map<Str, SourceEntry>
  type Index = map<Str, IndexRow>

  /** A document that carries the current version is the projection of the live source. */
  ghost predicate Coherent(sources: Sources, index: Index, project: SourceEntry -> Document) {
    forall id :: id in index ==>
      id in sources && (index[id].version == CURRENT ==> index[id].document == project(sources[id]))
  }

  predicate IsCurrent(index: Index, id: Str) {
    id in index && index[id].version == CURRENT
  }

  /** What the gate of a search asks: no entry is without a current document. */
  predicate Ready(sources: Sources, index: Index) {
    forall id :: id in sources ==> IsCurrent(index, id)
  }

  // ---- What happens to the tables ----

  datatype Child = Aliases | Contributors

  datatype Event =
    | EntryInserted(id: Str, e: SourceEntry)
    | EntryUpdated(id: Str, entry: Entry, columns: set<Column>)
    | EntryDeleted(id: Str)
    | ChildrenWritten(id: Str, aliases: seq<Str>, contributors: seq<Str>)
    | Truncated(child: Child)
    | Refreshed(id: Str)
    | RebuiltAll

  ghost predicate MayUpdate(sources: Sources, id: Str, entry: Entry, columns: set<Column>) {
    id in sources && KeepsOthers(sources[id].entry, entry, columns)
  }

  function Emptied(e: SourceEntry, child: Child): SourceEntry {
    match child
    case Aliases => e.(aliases := [])
    case Contributors => e.(contributors := [])
  }

  /** An event that does not apply does nothing. */
  ghost function StepSources(sources: Sources, event: Event): Sources {
    match event
    case EntryInserted(id, e) => if id in sources then sources else sources[id := e]
    case EntryUpdated(id, entry, columns) =>
      if MayUpdate(sources, id, entry, columns) then sources[id := sources[id].(entry := entry)] else sources
    case ChildrenWritten(id, aliases, contributors) =>
      if id in sources then sources[id := sources[id].(aliases := aliases, contributors := contributors)] else sources
    case Truncated(child) => map id | id in sources :: Emptied(sources[id], child)
    case EntryDeleted(id) => sources - {id}
    case _ => sources
  }

  /** An update of an entry fires only for the columns that the trigger lists, a write to a child table always. */
  ghost function StepIndex(sources: Sources, index: Index, event: Event, project: SourceEntry -> Document): Index {
    match event
    case EntryInserted(_, _) => index
    case EntryUpdated(id, entry, columns) =>
      if MayUpdate(sources, id, entry, columns) && !(columns <= UNWATCHED) then index[id := INVALID] else index
    case ChildrenWritten(id, _, _) => if id in sources then index[id := INVALID] else index
    case Truncated(_) => map id | id in index :: INVALID
    case EntryDeleted(id) => index - {id}
    case Refreshed(id) => if id in sources then index[id := IndexRow(CURRENT, project(sources[id]))] else index
    case RebuiltAll => map id | id in sources :: IndexRow(CURRENT, project(sources[id]))
  }

  lemma VersionsDiffer()
    ensures INVALIDATED != CURRENT
  {
    assert |INVALIDATED| != |CURRENT|;
  }

  /** Every event keeps the documents that carry the current version in step with their sources. */
  lemma StepIsCoherent(sources: Sources, index: Index, event: Event, project: SourceEntry -> Document)
    requires Coherent(sources, index, project) && ReadsWatched(project)
    ensures Coherent(StepSources(sources, event), StepIndex(sources, index, event, project), project)
  {
    VersionsDiffer();
    match event
    case EntryInserted(_, _) =>
    case EntryUpdated(id, entry, columns) =>
      if MayUpdate(sources, id, entry, columns) && columns <= UNWATCHED {
        assert SameWatched(sources[id], sources[id].(entry := entry));
      }
    case ChildrenWritten(_, _, _) =>
    case Truncated(_) =>
    case EntryDeleted(_) =>
    case Refreshed(_) =>
    case RebuiltAll =>
  }

  // ---- Hits ----

  datatype Hit = Hit(rank: nat, id: Str)

  predicate HitLe(a: Hit, b: Hit) {
    a.rank < b.rank || (a.rank == b.rank && Le(a.id, b.id))
  }

  lemma HitOrder()
    ensures TotalOrder(HitLe) && forall a, b :: HitLe(a, b) && HitLe(b, a) ==> a == b
  {
    forall a, b ensures HitLe(a, b) || HitLe(b, a) { LeTotal(a.id, b.id); }
    forall a, b | HitLe(a, b) && HitLe(b, a) ensures a == b { LeAntisymmetric(a.id, b.id); }
    forall a, b, c | HitLe(a, b) && HitLe(b, c) ensures HitLe(a, c) {
      if a.rank == b.rank == c.rank { LeTransitive(a.id, b.id, c.id); }
    }
  }

  /** What the oracle says of one source, without any index. */
  ghost function HitOf(
    e: SourceEntry, id: Str, kind: Option<Kind>, q: Str, normalize: Str -> Str, project: SourceEntry -> Document)
    : (hits: seq<Hit>)
    ensures hits == [] || (|hits| == 1 && hits[0].id == id)
  {
    HitFor(e, id, kind, RankFor(Match(project(e), q, normalize)))
  }

  function HitFor(e: SourceEntry, id: Str, kind: Option<Kind>, rank: Option<nat>): seq<Hit> {
    if (kind.None? || e.entry.kind == kind.value) && rank.Some? then [Hit(rank.value, id)] else []
  }

  /** What searching the sources themselves finds, entry by entry. */
  ghost function SourceHits(
    sources: Sources, ids: seq<Str>, kind: Option<Kind>, q: Str, normalize: Str -> Str,
    project: SourceEntry -> Document): seq<Hit>
    requires forall id :: id in ids ==> id in sources
  {
    if ids == [] then []
    else
      SourceHits(sources, ids[..|ids| - 1], kind, q, normalize, project)
      + HitOf(sources[ids[|ids| - 1]], ids[|ids| - 1], kind, q, normalize, project)
  }

  /** The database lists each entry once, in some order. */
  ghost predicate ListsEntries(sources: Sources, ids: seq<Str>) {
    Distinct(ids) && forall id :: id in ids <==> id in sources
  }

  datatype Answer = InvalidQuery | Unavailable | Found(hits: seq<Hit>)

  class CatalogSearchStore {
    const normalize: Str -> Str
    const project: SourceEntry -> Document
    var sources: Sources
    var index: Index

    ghost predicate Valid()
      reads this
    {
      Coherent(sources, index, project) && ReadsWatched(project)
    }

    constructor (normalize: Str -> Str)
      ensures Valid() && this.normalize == normalize && project == ProjectionOf(normalize)
      ensures sources == map[] && index == map[]
    {
      this.normalize := normalize;
      project := ProjectionOf(normalize);
      sources, index := map[], map[];
      new;
      ProjectionReadsWatched(normalize);
    }

    /** A new entry has no document; nothing fires for it. */
    method InsertEntry(id: Str, e: SourceEntry)
      requires Valid() && id !in sources
      modifies `sources
      ensures Valid() && sources == StepSources(old(sources), EntryInserted(id, e))
      ensures index == StepIndex(old(sources), old(index), EntryInserted(id, e), project)
    {
      StepIsCoherent(sources, index, EntryInserted(id, e), project);
      sources := sources[id := e];
    }

    /** An update that sets some columns of an entry; its trigger fires if it lists one of them. */
    method UpdateEntry(id: Str, entry: Entry, columns: set<Column>)
      requires Valid() && MayUpdate(sources, id, entry, columns)
      modifies `sources, `index
      ensures Valid() && sources == StepSources(old(sources), EntryUpdated(id, entry, columns))
      ensures index == StepIndex(old(sources), old(index), EntryUpdated(id, entry, columns), project)
    {
      StepIsCoherent(sources, index, EntryUpdated(id, entry, columns), project);
      sources := sources[id := sources[id].(entry := entry)];
      if !(columns <= UNWATCHED) { index := index[id := INVALID]; }
    }

    /** Any write to the aliases or the contributors of an entry invalidates its document. */
    method WriteChildren(id: Str, aliases: seq<Str>, contributors: seq<Str>)
      requires Valid() && id in sources
      modifies `sources, `index
      ensures Valid() && sources == StepSources(old(sources), ChildrenWritten(id, aliases, contributors))
      ensures index == StepIndex(old(sources), old(index), ChildrenWritten(id, aliases, contributors), project)
    {
      StepIsCoherent(sources, index, ChildrenWritten(id, aliases, contributors), project);
      sources := sources[id := sources[id].(aliases := aliases, contributors := contributors)];
      index := index[id := INVALID];
    }

    /** Truncating a child table invalidates every document. */
    method TruncateChildren(child: Child)
      requires Valid()
      modifies `sources, `index
      ensures Valid() && sources == StepSources(old(sources), Truncated(child))
      ensures index == StepIndex(old(sources), old(index), Truncated(child), project)
    {
      StepIsCoherent(sources, index, Truncated(child), project);
      sources := map id | id in sources :: Emptied(sources[id], child);
      index := map id | id in index :: INVALID;
    }

    /** Deleting an entry deletes its document with it. */
    method DeleteEntry(id: Str)
      requires Valid()
      modifies `sources, `index
      ensures Valid() && sources == StepSources(old(sources), EntryDeleted(id))
      ensures index == StepIndex(old(sources), old(index), EntryDeleted(id), project)
    {
      StepIsCoherent(sources, index, EntryDeleted(id), project);
      sources, index := sources - {id}, index - {id};
    }

    /** `refreshCatalogSearchDocument`: takes the document's tuple by invalidating it, then writes the projection. */
    method Refresh(id: Str)
      requires Valid()
      modifies `index
      ensures Valid() && index == StepIndex(sources, old(index), Refreshed(id), project)
    {
      if id !in sources { return; }
      index := index[id := INVALID];
      index := index[id := IndexRow(CURRENT, project(sources[id]))];
    }

    /** `rebuildCatalogSearchDocuments`: afterwards every entry has exactly one document, and it is current. */
    method Rebuild(ids: seq<Str>) returns (count: nat)
      requires Valid() && ListsEntries(sources, ids)
      modifies `index
      ensures Valid() && count == |sources| && Ready(sources, index)
      ensures index == StepIndex(sources, old(index), RebuiltAll, project)
    {
      index := map[];
      RefreshEach(ids);
      DistinctKeys(ids, sources.Keys);
      return |ids|;
    }

    method RefreshEach(ids: seq<Str>)
      requires Valid() && index == map[] && forall id :: id in ids ==> id in sources
      modifies `index
      ensures Valid() && index == Rebuilt(sources, ids, project)
    {
      for k := 0 to |ids|
        invariant Valid() && index == Rebuilt(sources, ids[..k], project)
      {
        RebuiltOneMore(sources, ids, k, project);
        Refresh(ids[k]);
      }
      assert ids[..|ids|] == ids;
    }

    /**
     A search: refused, unavailable, or what searching the sources directly finds, in rank and identity order.
     */
    method Search(kind: Option<Kind>, q: Str, ids: seq<Str>) returns (answer: Answer)
      requires Valid() && ListsEntries(sources, ids)
      ensures answer.InvalidQuery? <==> Build(q, normalize).None?
      ensures answer.Unavailable? <==> Build(q, normalize).Some? && !Ready(sources, index)
      ensures answer.Found? && Trim(q) != [] ==>
        answer.hits == Sort(SourceHits(sources, ids, kind, q, normalize, project), HitLe)
    {
      var built := Build(q, normalize);
      if built.None? { return InvalidQuery; }
      if exists id :: id in sources && !IsCurrent(index, id) { return Unavailable; }
      BuiltRefines(q, normalize);
      var hits := ScanIndex(built.value, kind, q, ids);
      return Found(Sort(hits, HitLe));
    }

    method ScanIndex(s: Statement, kind: Option<Kind>, ghost q: Str, ids: seq<Str>) returns (hits: seq<Hit>)
      requires Valid() && Ready(sources, index) && Refines(s, q, normalize)
      requires forall id :: id in ids ==> id in sources
      ensures Trim(q) != [] ==> hits == SourceHits(sources, ids, kind, q, normalize, project)
    {
      hits := [];
      for k := 0 to |ids|
        invariant forall id :: id in ids[..k] ==> id in sources
        invariant Trim(q) != [] ==> hits == SourceHits(sources, ids[..k], kind, q, normalize, project)
      {
        var id := ids[k];
        assert id in ids && IsCurrent(index, id);
        ScanStep(sources, ids, k, kind, q, normalize, project);
        var found := ScanRow(sources[id], index[id].document, s, kind, q, id, normalize, project);
        hits := hits + found;
      }
      assert ids[..|ids|] == ids;
    }
  }

  ghost predicate RefinesOn(d: Document, s: Statement, q: Str, normalize: Str -> Str) {
    Trim(q) != [] ==> SqlRank(d, s) == RankFor(Match(d, q, normalize))
  }

  ghost predicate Refines(s: Statement, q: Str, normalize: Str -> Str) {
    forall d :: RefinesOn(d, s, q, normalize)
  }

  lemma BuiltRefines(q: Str, normalize: Str -> Str)
    requires Build(q, normalize).Some?
    ensures Refines(Build(q, normalize).value, q, normalize)
  {
    forall d ensures RefinesOn(d, Build(q, normalize).value, q, normalize) {
      if Trim(q) != [] { SqlRefinesOracle(d, q, normalize); }
    }
  }

  lemma ScanStep(
    sources: Sources, ids: seq<Str>, k: nat, kind: Option<Kind>, q: Str, normalize: Str -> Str,
    project: SourceEntry -> Document)
    requires k < |ids| && forall id :: id in ids ==> id in sources
    ensures (forall id :: id in ids[..k] ==> id in sources) && (forall id :: id in ids[..k + 1] ==> id in sources)
    ensures SourceHits(sources, ids[..k + 1], kind, q, normalize, project)
      == SourceHits(sources, ids[..k], kind, q, normalize, project)
         + HitOf(sources[ids[k]], ids[k], kind, q, normalize, project)
  {
    assert ids[..k + 1][..k] == ids[..k] && ids[..k + 1][k] == ids[k];
  }

  /** The row the SQL makes of one entry and its document. */
  method ScanRow(
    e: SourceEntry, document: Document, s: Statement, kind: Option<Kind>, ghost q: Str, id: Str,
    ghost normalize: Str -> Str, ghost project: SourceEntry -> Document)
    returns (found: seq<Hit>)
    requires document == project(e) && Refines(s, q, normalize)
    ensures Trim(q) != [] ==> found == HitOf(e, id, kind, q, normalize, project)
  {
    assert RefinesOn(document, s, q, normalize);
    found := HitFor(e, id, kind, SqlRank(document, s));
  }

  function Rebuilt(sources: Sources, ids: seq<Str>, project: SourceEntry -> Document): Index
    requires forall id :: id in ids ==> id in sources
  {
    map id | id in ids :: IndexRow(CURRENT, project(sources[id]))
  }

  lemma RebuiltOneMore(sources: Sources, ids: seq<Str>, k: nat, project: SourceEntry -> Document)
    requires k < |ids| && forall id :: id in ids ==> id in sources
    ensures (forall id :: id in ids[..k] ==> id in sources) && (forall id :: id in ids[..k + 1] ==> id in sources)
    ensures Rebuilt(sources, ids[..k + 1], project)
      == Rebuilt(sources, ids[..k], project)[ids[k] := IndexRow(CURRENT, project(sources[ids[k]]))]
  {
    assert ids[..k + 1] == ids[..k] + [ids[k]];
  }

  lemma {:induction false} DistinctKeys(ids: seq<Str>, keys: set<Str>)
    requires Distinct(ids) && forall id :: id in ids <==> id in keys
    ensures |ids| == |keys|
    decreases |ids|
  {
    if ids == [] {
      assert keys == {};
    } else {
      var first, rest := ids[0], keys - {ids[0]};
      forall id ensures id in ids[1..] <==> id in rest { assert id in ids[1..] ==> id in ids; }
      DistinctKeys(ids[1..], rest);
      assert keys == rest + {first};
    }
  }

  // ---- The answer does not depend on the scan ----

  ghost function Gather(ids: seq<Str>, find: Str -> seq<Hit>): seq<Hit> {
    if ids == [] then [] else Gather(ids[..|ids| - 1], find) + find(ids[|ids| - 1])
  }

  lemma {:induction false} GatheredAre(ids: seq<Str>, find: Str -> seq<Hit>)
    requires Distinct(ids) && forall id :: find(id) == [] || (|find(id)| == 1 && find(id)[0].id == id)
    ensures Distinct(Gather(ids, find))
    ensures forall hit :: hit in Gather(ids, find) <==> hit.id in ids && find(hit.id) == [hit]
    decreases |ids|
  {
    if ids != [] {
      var n := |ids| - 1;
      GatheredAre(ids[..n], find);
      assert forall id :: id in ids <==> id in ids[..n] || id == ids[n];
      assert ids[n] !in ids[..n];
    }
  }

  lemma {:induction false} SourceHitsGather(
    sources: Sources, ids: seq<Str>, kind: Option<Kind>, q: Str, normalize: Str -> Str,
    project: SourceEntry -> Document, find: Str -> seq<Hit>)
    requires forall id :: id in ids ==> id in sources
    requires forall id :: id in sources ==> find(id) == HitOf(sources[id], id, kind, q, normalize, project)
    ensures SourceHits(sources, ids, kind, q, normalize, project) == Gather(ids, find)
    decreases |ids|
  {
    if ids != [] { SourceHitsGather(sources, ids[..|ids| - 1], kind, q, normalize, project, find); }
  }

  /** Two scans of the same sources give one answer: each match once, in order. */
  lemma AnswerIgnoresScan(
    sources: Sources, ids: seq<Str>, ids': seq<Str>, kind: Option<Kind>, q: Str, normalize: Str -> Str,
    project: SourceEntry -> Document)
    requires ListsEntries(sources, ids) && ListsEntries(sources, ids')
    ensures Sort(SourceHits(sources, ids, kind, q, normalize, project), HitLe)
      == Sort(SourceHits(sources, ids', kind, q, normalize, project), HitLe)
  {
    var find := (id: Str) =>
      if id in sources then HitOf(sources[id], id, kind, q, normalize, project) else [];
    SourceHitsGather(sources, ids, kind, q, normalize, project, find);
    SourceHitsGather(sources, ids', kind, q, normalize, project, find);
    GatherIgnoresOrder(ids, ids', find);
  }

  lemma GatherIgnoresOrder(ids: seq<Str>, ids': seq<Str>, find: Str -> seq<Hit>)
    requires Distinct(ids) && Distinct(ids') && forall id :: id in ids <==> id in ids'
    requires forall id :: find(id) == [] || (|find(id)| == 1 && find(id)[0].id == id)
    ensures Sort(Gather(ids, find), HitLe) == Sort(Gather(ids', find), HitLe)
  {
    GatheredAre(ids, find);
    GatheredAre(ids', find);
    DistinctSame(Gather(ids, find), Gather(ids', find));
    HitOrder();
    SortCanonical(Gather(ids, find), Gather(ids', find), HitLe);
  }

  /** An answer is in order of rank, and among equal ranks in order of identity; no entry is in it twice. */
  ghost predicate InOrder(hits: seq<Hit>) {
    forall i, j :: 0 <= i < j < |hits| ==>
      hits[i].rank < hits[j].rank || (hits[i].rank == hits[j].rank && ComesBefore(hits[i].id, hits[j].id))
  }

  /** The entry is of the kind asked for, and the oracle ranks it so. */
  ghost predicate IsHit(
    sources: Sources, kind: Option<Kind>, q: Str, normalize: Str -> Str, project: SourceEntry -> Document, hit: Hit)
  {
    && hit.id in sources && (kind.Some? ==> sources[hit.id].entry.kind == kind.value)
    && var m := Match(project(sources[hit.id]), q, normalize);
       m.Some? && hit.rank == RankOf(m.value)
  }

  lemma SortedIsInOrder(hits: seq<Hit>)
    requires Distinct(hits)
    ensures InOrder(Sort(hits, HitLe))
  {
    var sorted := Sort(hits, HitLe);
    HitOrder();
    SortSorts(hits, HitLe);
    SortPermutes(hits, HitLe);
    PermutedDistinct(hits, sorted);
    forall i, j | 0 <= i < j < |sorted|
      ensures sorted[i].rank < sorted[j].rank
        || (sorted[i].rank == sorted[j].rank && ComesBefore(sorted[i].id, sorted[j].id))
    {
      assert HitLe(sorted[i], sorted[j]) && sorted[i] != sorted[j];
      LeFirstDifference(sorted[i].id, sorted[j].id);
    }
  }

  /** The hits of a search are exactly the entries of the kind asked for that match, each once, best first. */
  lemma AnswerSays(
    sources: Sources, ids: seq<Str>, kind: Option<Kind>, q: Str, normalize: Str -> Str,
    project: SourceEntry -> Document)
    requires ListsEntries(sources, ids)
    ensures var hits := Sort(SourceHits(sources, ids, kind, q, normalize, project), HitLe);
      InOrder(hits) && forall hit :: hit in hits <==> IsHit(sources, kind, q, normalize, project, hit)
  {
    var found := SourceHits(sources, ids, kind, q, normalize, project);
    HitsAreFound(sources, ids, kind, q, normalize, project);
    SortedIsInOrder(found);
    SortMembers(found, HitLe);
  }

  lemma HitsAreFound(
    sources: Sources, ids: seq<Str>, kind: Option<Kind>, q: Str, normalize: Str -> Str,
    project: SourceEntry -> Document)
    requires ListsEntries(sources, ids)
    ensures var found := SourceHits(sources, ids, kind, q, normalize, project);
      Distinct(found) && forall hit :: hit in found <==> IsHit(sources, kind, q, normalize, project, hit)
  {
    var find := (id: Str) =>
      if id in sources then HitOf(sources[id], id, kind, q, normalize, project) else [];
    SourceHitsGather(sources, ids, kind, q, normalize, project, find);
    GatheredAre(ids, find);
    forall hit: Hit ensures find(hit.id) == [hit] <==> IsHit(sources, kind, q, normalize, project, hit) {
      if hit.id in sources { FoundIsHit(sources, kind, q, normalize, project, hit); }
    }
  }

  lemma FoundIsHit(
    sources: Sources, kind: Option<Kind>, q: Str, normalize: Str -> Str, project: SourceEntry -> Document, hit: Hit)
    requires hit.id in sources
    ensures HitOf(sources[hit.id], hit.id, kind, q, normalize, project) == [hit]
      <==> IsHit(sources, kind, q, normalize, project, hit)
  {
    var hits := HitOf(sources[hit.id], hit.id, kind, q, normalize, project);
    if hits == [hit] { assert hits[0] == hit; }
  }

  // ---- Every run ----

  ghost function RunSources(events: seq<Event>): Sources {
    if events == [] then map[] else StepSources(RunSources(events[..|events| - 1]), events[|events| - 1])
  }

  ghost function RunIndex(events: seq<Event>, project: SourceEntry -> Document): Index {
    if events == [] then map[]
    else
      var earlier := events[..|events| - 1];
      StepIndex(RunSources(earlier), RunIndex(earlier, project), events[|events| - 1], project)
  }

  lemma {:induction false} RunIsCoherent(events: seq<Event>, project: SourceEntry -> Document)
    requires ReadsWatched(project)
    ensures Coherent(RunSources(events), RunIndex(events, project), project)
  {
    if events != [] {
      var earlier, event := events[..|events| - 1], events[|events| - 1];
      RunIsCoherent(earlier, project);
      StepIsCoherent(RunSources(earlier), RunIndex(earlier, project), event, project);
    }
  }

  /** In every reachable state a document that carries the current version is the projection of the live source. */
  lemma EveryRunIsCoherent(events: seq<Event>, normalize: Str -> Str)
    ensures Coherent(RunSources(events), RunIndex(events, ProjectionOf(normalize)), ProjectionOf(normalize))
  {
    ProjectionReadsWatched(normalize);
    RunIsCoherent(events, ProjectionOf(normalize));
  }
}
