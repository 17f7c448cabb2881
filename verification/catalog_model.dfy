/** What the importer reads and writes: the rows of a `catalog-import/v2` envelope and the catalog's tables. */
module CatalogModel {
  import opened Text
  import opened Wrappers

  datatype Kind = Inscription | Calligraphy

  /** The fields that carry a state beside their text. */
  datatype FieldName =
    | Dynasty | DateText | Province | Prefecture | County | CurrentLocation | CurrentCustodian | Description
    | ScriptStyle | Transcription | HistoricalContext | ScholarlyResearch

  const FIELD_NAMES: seq<FieldName> := [
    Dynasty, DateText, Province, Prefecture, County, CurrentLocation, CurrentCustodian, Description,
    ScriptStyle, Transcription, HistoricalContext, ScholarlyResearch
  ]

  lemma EveryFieldIsNamed(f: FieldName)
    ensures f in FIELD_NAMES
  {
    assert FIELD_NAMES[0] == Dynasty && FIELD_NAMES[1] == DateText && FIELD_NAMES[2] == Province;
    assert FIELD_NAMES[3] == Prefecture && FIELD_NAMES[4] == County && FIELD_NAMES[5] == CurrentLocation;
    assert FIELD_NAMES[6] == CurrentCustodian && FIELD_NAMES[7] == Description && FIELD_NAMES[8] == ScriptStyle;
    assert FIELD_NAMES[9] == Transcription && FIELD_NAMES[10] == HistoricalContext;
    assert FIELD_NAMES[11] == ScholarlyResearch;
  }

  /** A state and, in the VALUE state only, a text: the pair the column checks of the catalog enforce. */
  datatype FieldState = Value(text: Str) | Unsupplied | Unknown | NotApplicable | Clear

  const NO_FIELDS: map<FieldName, FieldState> := map f: FieldName | f in FIELD_NAMES :: Unsupplied

  ghost predicate Total(m: map<FieldName, FieldState>) {
    forall f: FieldName :: f in m
  }

  /** The display fields, where absence is the only state beside a text. */
  datatype DisplayName = Summary | PeriodLabel

  const DISPLAY_NAMES: seq<DisplayName> := [Summary, PeriodLabel]

  /** The columns of a catalog entry; in an envelope row, an absent display field is one that is not supplied. */
  datatype Entry = Entry(
    kind: Kind, title: Str, summary: Option<Str>, periodLabel: Option<Str>, fields: map<FieldName, FieldState>)
  {
    ghost predicate Valid() { Total(fields) }

    function Display(name: DisplayName): Option<Str> {
      match name
      case Summary => summary
      case PeriodLabel => periodLabel
    }

    function WithDisplay(name: DisplayName, text: Option<Str>): Entry {
      match name
      case Summary => this.(summary := text)
      case PeriodLabel => this.(periodLabel := text)
    }

    function Field(name: FieldName): FieldState
      requires Valid()
    {
      fields[name]
    }
  }

  datatype Action = Preserve | Replace | ClearAll

  datatype Row = Row(
    importId: Str, sourceId: Str, catalogId: Option<Str>, content: Entry, ownerNote: Option<Str>,
    contributorsAction: Action, citationsAction: Action)

  datatype Alias = Alias(text: Str, historical: bool)
  datatype AliasRow = AliasRow(importId: Str, alias: Alias)

  datatype FactName = SourceTitle | SourceTypeRaw | SourceUrl | SourceNote

  const FACT_NAMES: seq<FactName> := [SourceTitle, SourceTypeRaw, SourceUrl, SourceNote]

  datatype Facts = Facts(title: Option<Str>, typeRaw: Option<Str>, url: Option<Str>, note: Option<Str>) {
    function Fact(name: FactName): Option<Str> {
      match name
      case SourceTitle => title
      case SourceTypeRaw => typeRaw
      case SourceUrl => url
      case SourceNote => note
    }
  }

  datatype Provenance = Provenance(importId: Str, sourceId: Str, facts: Facts)

  datatype Role = TextAuthor | Calligrapher
  datatype Contributor = Contributor(position: nat, name: Str, role: Role)
  datatype ContributorRow = ContributorRow(importId: Str, contributor: Contributor)

  datatype Scope = RecordScope | DescriptionScope | TranscriptionScope | HistoricalContextScope | ScholarlyResearchScope

  datatype Citation = Citation(position: nat, heading: Str, citation: Option<Str>, url: Option<Str>)
  datatype CitationRow = CitationRow(importId: Str, citation: Citation, appliesTo: Option<seq<Scope>>)

  datatype Envelope = Envelope(
    rows: seq<Row>, aliases: seq<AliasRow>, provenance: seq<Provenance>,
    contributors: seq<ContributorRow>, citations: seq<CitationRow>)

  datatype SourceRow = SourceRow(catalogId: Str, facts: Facts)

  datatype Runtime = Validation | Pilot(targetScope: Str) | Production

  datatype ItemResult = Created | Updated | Unchanged
  datatype Item = Item(sourceId: Str, catalogId: Str, result: ItemResult)
  datatype Mapping = Mapping(importId: Str, sourceId: Str, catalogId: Str)

  datatype Application = Application(
    operationId: Str, inputHash: Str, planHash: Str, created: nat, updated: nat, same: nat, mappings: seq<Mapping>)

  /** An import operation; it is being applied while it has no result. */
  datatype ImportOperation = ImportOperation(
    inputHash: Str, planHash: Str, approvalHash: Str, runtime: Runtime, result: Option<Application>)

  /**
   The tables. Child rows of an entry are listed by position, which each keeps unique; the scopes of a citation are
   a relation, because the whole row is its key.
   */
  datatype Tables = Tables(
    entries: map<Str, Entry>,
    aliases: map<Str, seq<Alias>>,
    contributors: map<Str, seq<Contributor>>,
    citations: map<Str, seq<Citation>>,
    scopes: set<(Str, nat, Scope)>,
    sources: map<Str, SourceRow>,
    operations: map<Str, ImportOperation>,
    items: map<(Str, Str), Item>)

  /** The rows of a child table for one entry. */
  function Children<T>(table: map<Str, seq<T>>, id: Str): seq<T> {
    if id in table then table[id] else []
  }

  ghost predicate ByPosition<T>(s: seq<T>, position: T -> nat) {
    forall i, j :: 0 <= i < j < |s| ==> position(s[i]) < position(s[j])
  }

  /** What the column types, keys and references of the tables guarantee. */
  ghost predicate ValidTables(t: Tables) {
    && (forall id :: id in t.entries ==> t.entries[id].Valid())
    && (forall id :: ByPosition(Children(t.contributors, id), (c: Contributor) => c.position))
    && (forall id :: ByPosition(Children(t.citations, id), (c: Citation) => c.position))
    && (forall id :: id !in t.entries ==>
          Children(t.aliases, id) == [] && Children(t.contributors, id) == [] && Children(t.citations, id) == [])
    && (forall id, p, s :: (id, p, s) in t.scopes ==> HasPosition(Children(t.citations, id), p))
    && (forall s :: s in t.sources ==> t.sources[s].catalogId in t.entries)
  }

  ghost predicate HasPosition(citations: seq<Citation>, position: nat) {
    exists c :: c in citations && c.position == position
  }

  /** What the envelope schema guarantees; the citation scopes come without repetition and, if given, not empty. */
  ghost predicate ValidEnvelope(e: Envelope) {
    && (forall i, j :: 0 <= i < j < |e.rows| ==> e.rows[i].importId != e.rows[j].importId)
    && (forall i, j :: 0 <= i < j < |e.rows| ==>
          e.rows[i].catalogId.None? || e.rows[i].catalogId != e.rows[j].catalogId)
    && (forall r :: r in e.rows ==> r.content.Valid())
    && (forall i, j :: 0 <= i < j < |e.provenance| ==> e.provenance[i].sourceId != e.provenance[j].sourceId)
    && (forall i, j :: 0 <= i < j < |e.contributors| && e.contributors[i].importId == e.contributors[j].importId ==>
          e.contributors[i].contributor.position != e.contributors[j].contributor.position)
    && (forall i, j :: 0 <= i < j < |e.citations| && e.citations[i].importId == e.citations[j].importId ==>
          e.citations[i].citation.position != e.citations[j].citation.position)
    && (forall c :: c in e.citations && c.appliesTo.Some? ==>
          c.appliesTo.value != [] && forall i, j :: 0 <= i < j < |c.appliesTo.value| ==>
            c.appliesTo.value[i] != c.appliesTo.value[j])
    && (forall r, c :: r in e.rows && c in e.contributors && c.importId == r.importId ==> r.contributorsAction.Replace?)
    && (forall r, c :: r in e.rows && c in e.citations && c.importId == r.importId ==> r.citationsAction.Replace?)
    && (forall r :: r in e.rows && r.catalogId.None? ==>
          !r.contributorsAction.ClearAll? && !r.citationsAction.ClearAll?)
  }
}
