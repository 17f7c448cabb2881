/**
 How the importer reads collections, from an envelope and from the tables, before it compares them as canonical JSON.
 */
module ImportReading {
  import opened Text
  import opened Wrappers
  import opened Sequences
  import opened Sorting
  import opened CanonicalJson
  import opened CatalogModel

  // ---- Rows of one import ----

  function ProvenanceOf(rows: seq<Provenance>, importId: Str): (r: seq<Provenance>)
    ensures forall p :: p in r <==> p in rows && p.importId == importId
  {
    if rows == [] then []
    else (if rows[0].importId == importId then [rows[0]] else []) + ProvenanceOf(rows[1..], importId)
  }

  function AliasesOf(rows: seq<AliasRow>, importId: Str): seq<Alias> {
    if rows == [] then []
    else (if rows[0].importId == importId then [rows[0].alias] else []) + AliasesOf(rows[1..], importId)
  }

  function ContributorsOf(rows: seq<ContributorRow>, importId: Str): seq<Contributor> {
    if rows == [] then []
    else (if rows[0].importId == importId then [rows[0].contributor] else []) + ContributorsOf(rows[1..], importId)
  }

  /** Every alias of an import is kept, as often as it is given, and no other. */
  lemma {:induction false} AliasesCounted(rows: seq<AliasRow>, importId: Str, a: Alias)
    ensures multiset(AliasesOf(rows, importId))[a] == multiset(rows)[AliasRow(importId, a)]
  {
    if rows != [] {
      AliasesCounted(rows[1..], importId, a);
      assert rows == [rows[0]] + rows[1..];
      var head := if rows[0].importId == importId then [rows[0].alias] else [];
      CountsAppend(head, AliasesOf(rows[1..], importId), a);
    }
  }

  /** Every contributor of an import is kept, as often as it is given, and no other. */
  lemma {:induction false} ContributorsCounted(rows: seq<ContributorRow>, importId: Str, c: Contributor)
    ensures multiset(ContributorsOf(rows, importId))[c] == multiset(rows)[ContributorRow(importId, c)]
  {
    if rows != [] {
      ContributorsCounted(rows[1..], importId, c);
      assert rows == [rows[0]] + rows[1..];
      var head := if rows[0].importId == importId then [rows[0].contributor] else [];
      CountsAppend(head, ContributorsOf(rows[1..], importId), c);
    }
  }

  function CitationsOf(rows: seq<CitationRow>, importId: Str): (r: seq<CitationRow>)
    ensures forall c :: c in r <==> c in rows && c.importId == importId
  {
    if rows == [] then []
    else (if rows[0].importId == importId then [rows[0]] else []) + CitationsOf(rows[1..], importId)
  }

  // ---- Contributors ----

  predicate ContributorLe(a: Contributor, b: Contributor) { a.position <= b.position }

  /** `contributorsForImport`. */
  function ContributorsForImport(e: Envelope, importId: Str): seq<Contributor> {
    Sort(ContributorsOf(e.contributors, importId), ContributorLe)
  }

  /** `existingContributorsForCatalog`. */
  function ExistingContributors(t: Tables, id: Str): seq<Contributor> {
    Sort(Children(t.contributors, id), ContributorLe)
  }

  // ---- Citations ----

  /** The order in which the database lists scopes: by their names. */
  const SCOPE_NAME_ORDER: seq<Scope> := [
    DescriptionScope, HistoricalContextScope, RecordScope, ScholarlyResearchScope, TranscriptionScope
  ]

  function ScopeRank(s: Scope): nat {
    match s
    case RecordScope => 0
    case DescriptionScope => 1
    case TranscriptionScope => 2
    case HistoricalContextScope => 3
    case ScholarlyResearchScope => 4
  }

  predicate ScopeLe(a: Scope, b: Scope) { ScopeRank(a) <= ScopeRank(b) }

  /** `semanticCitationScopes`: no scopes and the record scope alone mean the same. */
  function SemanticScopes(scopes: Option<seq<Scope>>): seq<Scope> {
    if scopes.None? || scopes.value == [RecordScope] then [RecordScope] else Sort(scopes.value, ScopeLe)
  }

  /** What a citation covers: the record, unless it says what. */
  ghost function Coverage(scopes: Option<seq<Scope>>): set<Scope> {
    match scopes
    case None => {RecordScope}
    case Some(listed) => set s | s in listed
  }

  lemma ScopeOrder()
    ensures TotalOrder(ScopeLe) && forall a, b :: ScopeLe(a, b) && ScopeLe(b, a) ==> a == b
  {
  }

  /** Nonempty lists without repetition read alike exactly if they cover the same. */
  lemma ScopesCompared(a: Option<seq<Scope>>, b: Option<seq<Scope>>)
    requires a.Some? ==> a.value != [] && Distinct(a.value)
    requires b.Some? ==> b.value != [] && Distinct(b.value)
    ensures SemanticScopes(a) == SemanticScopes(b) <==> Coverage(a) == Coverage(b)
  {
    var la, lb := a.GetOr([RecordScope]), b.GetOr([RecordScope]);
    SortKeeps([RecordScope], ScopeLe);
    assert SemanticScopes(a) == Sort(la, ScopeLe) && SemanticScopes(b) == Sort(lb, ScopeLe);
    ScopeOrder();
    SortCanonical(la, lb, ScopeLe);
    SortMembers(la, ScopeLe);
    SortMembers(lb, ScopeLe);
    assert (forall s :: s in Coverage(a) <==> s in la) && forall s :: s in Coverage(b) <==> s in lb;
    if Coverage(a) == Coverage(b) {
      forall s ensures s in la <==> s in lb { assert s in Coverage(a) <==> s in Coverage(b); }
      DistinctSame(la, lb);
    }
    if SemanticScopes(a) == SemanticScopes(b) {
      forall s ensures s in Coverage(a) <==> s in Coverage(b) {}
    }
  }

  function ScopesStored(table: set<(Str, nat, Scope)>, id: Str, position: nat, names: seq<Scope>): (r: seq<Scope>)
    ensures forall s :: s in r <==> s in names && (id, position, s) in table
  {
    if names == [] then []
    else
      (if (id, position, names[0]) in table then [names[0]] else []) + ScopesStored(table, id, position, names[1..])
  }

  /** The entry of the scopes map for one citation: absent when the table holds no row for it. */
  function ScopesAt(table: set<(Str, nat, Scope)>, id: Str, position: nat): Option<seq<Scope>> {
    var stored := ScopesStored(table, id, position, SCOPE_NAME_ORDER);
    if stored == [] then None else Some(stored)
  }

  datatype SemanticCitation = SemanticCitation(citation: Citation, appliesTo: seq<Scope>)

  predicate SemanticLe(a: SemanticCitation, b: SemanticCitation) { a.citation.position <= b.citation.position }

  predicate CitationRowLe(a: CitationRow, b: CitationRow) { a.citation.position <= b.citation.position }

  function Semantics(rows: seq<CitationRow>): (r: seq<SemanticCitation>)
    ensures |r| == |rows|
    ensures forall i :: 0 <= i < |r| ==> r[i] == SemanticCitation(rows[i].citation, SemanticScopes(rows[i].appliesTo))
  {
    seq(|rows|, i requires 0 <= i < |rows| => SemanticCitation(rows[i].citation, SemanticScopes(rows[i].appliesTo)))
  }

  function StoredSemantics(citations: seq<Citation>, table: set<(Str, nat, Scope)>, id: Str): (r: seq<SemanticCitation>)
    ensures |r| == |citations|
    ensures forall i :: 0 <= i < |r| ==>
      r[i] == SemanticCitation(citations[i], SemanticScopes(ScopesAt(table, id, citations[i].position)))
  {
    seq(|citations|, i requires 0 <= i < |citations| =>
      SemanticCitation(citations[i], SemanticScopes(ScopesAt(table, id, citations[i].position))))
  }

  /** `citationsForImport`. */
  function CitationsForImport(e: Envelope, importId: Str): seq<SemanticCitation> {
    Sort(Semantics(CitationsOf(e.citations, importId)), SemanticLe)
  }

  /** `existingCitationsForCatalog`. */
  function ExistingCitations(t: Tables, id: Str): seq<SemanticCitation> {
    Sort(StoredSemantics(Children(t.citations, id), t.scopes, id), SemanticLe)
  }

  // ---- As canonical JSON ----

  const CONTRIBUTOR_KEYS: seq<Str> := [Lit("position"), Lit("name"), Lit("role")]
  const CITATION_KEYS: seq<Str> := [Lit("position"), Lit("label"), Lit("citation"), Lit("url"), Lit("appliesTo")]

  /** An object literal with the given keys. */
  function Record(keys: seq<Str>, values: seq<Json>): Json
    requires |keys| == |values|
  {
    Object(seq(|keys|, i requires 0 <= i < |keys| => Field(keys[i], values[i])))
  }

  function TextJson(text: Option<Str>): Json {
    match text
    case None => Null
    case Some(s) => String(s)
  }

  function RoleText(role: Role): Str {
    match role
    case TextAuthor => Lit("textAuthor")
    case Calligrapher => Lit("calligrapher")
  }

  function ScopeText(s: Scope): Str {
    match s
    case RecordScope => Lit("record")
    case DescriptionScope => Lit("description")
    case TranscriptionScope => Lit("transcription")
    case HistoricalContextScope => Lit("historicalContext")
    case ScholarlyResearchScope => Lit("scholarlyResearch")
  }

  function ContributorJson(c: Contributor): Json {
    Record(CONTRIBUTOR_KEYS, [Number(Decimal(c.position)), String(c.name), String(RoleText(c.role))])
  }

  function ContributorsJson(s: seq<Contributor>): Json {
    Array(seq(|s|, i requires 0 <= i < |s| => ContributorJson(s[i])))
  }

  function ScopesJson(s: seq<Scope>): Json {
    Array(seq(|s|, i requires 0 <= i < |s| => String(ScopeText(s[i]))))
  }

  function CitationValues(c: SemanticCitation): (values: seq<Json>)
    ensures |values| == |CITATION_KEYS|
  {
    [
      Number(Decimal(c.citation.position)), String(c.citation.heading), TextJson(c.citation.citation),
      TextJson(c.citation.url), ScopesJson(c.appliesTo)
    ]
  }

  function CitationJson(c: SemanticCitation): Json {
    Record(CITATION_KEYS, CitationValues(c))
  }

  function CitationsJson(s: seq<SemanticCitation>): Json {
    Array(seq(|s|, i requires 0 <= i < |s| => CitationJson(s[i])))
  }

  /** Records with the same distinct keys are the same up to key order only value by value. */
  lemma RecordsSame(keys: seq<Str>, a: seq<Json>, b: seq<Json>)
    requires |keys| == |a| == |b| && Distinct(keys)
    ensures SameUpToKeyOrder(Record(keys, a), Record(keys, b)) ==>
              forall i :: 0 <= i < |keys| ==> SameUpToKeyOrder(a[i], b[i])
  {
    var ra, rb := Record(keys, a), Record(keys, b);
    if SameUpToKeyOrder(ra, rb) {
      forall i | 0 <= i < |keys| ensures SameUpToKeyOrder(a[i], b[i]) {
        assert HasPartner(ra.fields[i], rb.fields);
        var j :| 0 <= j < |rb.fields| && rb.fields[j].key == ra.fields[i].key
                 && SameUpToKeyOrder(ra.fields[i].value, rb.fields[j].value);
        assert keys[j] == keys[i];
      }
    }
  }

  lemma RecordValid(keys: seq<Str>, values: seq<Json>)
    requires |keys| == |values| && Distinct(keys)
    requires forall i :: 0 <= i < |values| ==> Valid(values[i]) && LoneFree(values[i])
    ensures Valid(Record(keys, values)) && LoneFree(Record(keys, values))
  {
  }

  lemma KeysDiffer()
    ensures Distinct(CONTRIBUTOR_KEYS) && Distinct(CITATION_KEYS)
  {
    assert CONTRIBUTOR_KEYS[1][0] != CONTRIBUTOR_KEYS[2][0];
    assert CITATION_KEYS[0][0] != CITATION_KEYS[2][0];
  }

  lemma ContributorJsonInjective(a: Contributor, b: Contributor)
    ensures Valid(ContributorJson(a)) && LoneFree(ContributorJson(a))
    ensures SameUpToKeyOrder(ContributorJson(a), ContributorJson(b)) ==> a == b
  {
    KeysDiffer();
    var va := [Number(Decimal(a.position)), String(a.name), String(RoleText(a.role))];
    var vb := [Number(Decimal(b.position)), String(b.name), String(RoleText(b.role))];
    RecordValid(CONTRIBUTOR_KEYS, va);
    RecordsSame(CONTRIBUTOR_KEYS, va, vb);
    if SameUpToKeyOrder(ContributorJson(a), ContributorJson(b)) {
      assert SameUpToKeyOrder(va[0], vb[0]) && SameUpToKeyOrder(va[1], vb[1]) && SameUpToKeyOrder(va[2], vb[2]);
      DecimalInjective(a.position, b.position);
      assert |RoleText(TextAuthor)| != |RoleText(Calligrapher)|;
    }
  }

  /** The importer's text comparison of contributor lists is equality of the lists. */
  lemma ContributorsCompared(a: seq<Contributor>, b: seq<Contributor>)
    ensures StableJson(ContributorsJson(a)) == StableJson(ContributorsJson(b)) <==> a == b
  {
    var ja, jb := ContributorsJson(a), ContributorsJson(b);
    forall i | 0 <= i < |a| { ContributorJsonInjective(a[i], a[i]); }
    forall i | 0 <= i < |b| { ContributorJsonInjective(b[i], b[i]); }
    StableJsonUnambiguous(ja, jb);
    if SameUpToKeyOrder(ja, jb) {
      forall i | 0 <= i < |a| ensures a[i] == b[i] {
        assert SameUpToKeyOrder(ja.items[i], jb.items[i]);
        ContributorJsonInjective(a[i], b[i]);
      }
    }
  }

  lemma ScopeTextInjective(a: Scope, b: Scope)
    requires ScopeText(a) == ScopeText(b)
    ensures a == b
  {
    assert |ScopeText(a)| == |ScopeText(b)|;
    assert |ScopeText(HistoricalContextScope)| == |ScopeText(ScholarlyResearchScope)| == 17;
    assert ScopeText(HistoricalContextScope)[0] != ScopeText(ScholarlyResearchScope)[0];
  }

  lemma ScopesJsonInjective(a: seq<Scope>, b: seq<Scope>)
    ensures Valid(ScopesJson(a)) && LoneFree(ScopesJson(a))
    ensures SameUpToKeyOrder(ScopesJson(a), ScopesJson(b)) ==> a == b
  {
    var ja, jb := ScopesJson(a), ScopesJson(b);
    if SameUpToKeyOrder(ja, jb) {
      forall i | 0 <= i < |a| ensures a[i] == b[i] {
        assert SameUpToKeyOrder(ja.items[i], jb.items[i]);
        ScopeTextInjective(a[i], b[i]);
      }
    }
  }

  lemma CitationJsonInjective(a: SemanticCitation, b: SemanticCitation)
    ensures Valid(CitationJson(a)) && LoneFree(CitationJson(a))
    ensures SameUpToKeyOrder(CitationJson(a), CitationJson(b)) ==> a == b
  {
    var va, vb := CitationValues(a), CitationValues(b);
    KeysDiffer();
    CitationValuesInjective(a, b);
    RecordValid(CITATION_KEYS, va);
    RecordsSame(CITATION_KEYS, va, vb);
  }

  lemma CitationValuesInjective(a: SemanticCitation, b: SemanticCitation)
    ensures forall i :: 0 <= i < 5 ==> Valid(CitationValues(a)[i]) && LoneFree(CitationValues(a)[i])
    ensures (forall i :: 0 <= i < 5 ==> SameUpToKeyOrder(CitationValues(a)[i], CitationValues(b)[i])) ==> a == b
  {
    var va, vb := CitationValues(a), CitationValues(b);
    ScopesJsonInjective(a.appliesTo, b.appliesTo);
    if forall i :: 0 <= i < 5 ==> SameUpToKeyOrder(va[i], vb[i]) {
      assert SameUpToKeyOrder(va[0], vb[0]) && SameUpToKeyOrder(va[1], vb[1]) && SameUpToKeyOrder(va[2], vb[2]);
      assert SameUpToKeyOrder(va[3], vb[3]) && SameUpToKeyOrder(va[4], vb[4]);
      DecimalInjective(a.citation.position, b.citation.position);
    }
  }

  /** The importer's text comparison of citation lists is equality of the lists. */
  lemma CitationsCompared(a: seq<SemanticCitation>, b: seq<SemanticCitation>)
    ensures StableJson(CitationsJson(a)) == StableJson(CitationsJson(b)) <==> a == b
  {
    var ja, jb := CitationsJson(a), CitationsJson(b);
    forall i | 0 <= i < |a| { CitationJsonInjective(a[i], a[i]); }
    forall i | 0 <= i < |b| { CitationJsonInjective(b[i], b[i]); }
    StableJsonUnambiguous(ja, jb);
    if SameUpToKeyOrder(ja, jb) {
      forall i | 0 <= i < |a| ensures a[i] == b[i] {
        assert SameUpToKeyOrder(ja.items[i], jb.items[i]);
        CitationJsonInjective(a[i], b[i]);
      }
    }
  }
}
