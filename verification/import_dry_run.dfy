/**
 The loops of `createCatalogImportV2DryRun`: they push findings and count rows as they go, and compare collections as
 canonical JSON. They compute the plan of `ImportPlan`.
 */
module ImportDryRun {
  import opened Text
  import opened Wrappers
  import opened Sequences
  import opened Sorting
  import opened CanonicalJson
  import opened CatalogModel
  import opened ImportReading
  import opened TitleDuplicates
  import opened ImportPlan

  // ---- Aliases ----

  const ALTERNATE := Lit("alternate")
  const HISTORICAL := Lit("historical")

  function AliasType(a: Alias): Str {
    if a.historical then HISTORICAL else ALTERNATE
  }

  function AliasKey(a: Alias): Str {
    a.text + [0] + AliasType(a)
  }

  function AliasKeys(aliases: seq<Alias>): (keys: seq<Str>)
    ensures |keys| == |aliases| && forall i :: 0 <= i < |keys| ==> keys[i] == AliasKey(aliases[i])
  {
    seq(|aliases|, i requires 0 <= i < |aliases| => AliasKey(aliases[i]))
  }

  function Strings(texts: seq<Str>): Json {
    Array(seq(|texts|, i requires 0 <= i < |texts| => String(texts[i])))
  }

  /** A type contains no NUL, so the last NUL of a key ends the alias, whatever the alias contains. */
  lemma KeysTell(text: Str, kind: Str, text': Str, kind': Str)
    requires text + [0] + kind == text' + [0] + kind'
    requires |kind| <= |kind'| && forall i :: 0 <= i < |kind'| ==> kind'[i] != 0
    ensures text == text' && kind == kind'
  {
    var key := text + [0] + kind;
    assert key[|text|] == 0;
    forall k | |text'| < k < |key| ensures key[k] != 0 { assert key[k] == kind'[k - |text'| - 1]; }
    assert |text| == |text'|;
    forall i | 0 <= i < |text| ensures text[i] == text'[i] {
      assert key[i] == text[i];
      assert (text' + [0] + kind')[i] == text'[i];
    }
    forall i | 0 <= i < |kind| ensures kind[i] == kind'[i] {
      assert key[|text| + 1 + i] == kind[i];
      assert (text' + [0] + kind')[|text| + 1 + i] == kind'[i];
    }
  }

  lemma AliasKeyInjective(a: Alias, b: Alias)
    requires AliasKey(a) == AliasKey(b)
    ensures a == b
  {
    assert forall i :: 0 <= i < |HISTORICAL| ==> HISTORICAL[i] != 0;
    assert forall i :: 0 <= i < |ALTERNATE| ==> ALTERNATE[i] != 0;
    if |AliasType(a)| <= |AliasType(b)| {
      KeysTell(a.text, AliasType(a), b.text, AliasType(b));
    } else {
      KeysTell(b.text, AliasType(b), a.text, AliasType(a));
    }
    assert |HISTORICAL| != |ALTERNATE|;
  }

  lemma CountFirst<T>(s: seq<T>, x: T)
    requires s != []
    ensures multiset(s)[x] == multiset(s[1..])[x] + (if s[0] == x then 1 else 0)
  {
    assert s == [s[0]] + s[1..];
  }

  lemma {:induction false} KeyCounts(s: seq<Alias>, a: Alias)
    ensures multiset(AliasKeys(s))[AliasKey(a)] == multiset(s)[a]
  {
    if s != [] {
      KeyCounts(s[1..], a);
      CountFirst(s, a);
      CountFirst(AliasKeys(s), AliasKey(a));
      assert AliasKeys(s)[1..] == AliasKeys(s[1..]);
      SameKey(s[0], a);
    }
  }

  lemma SameKey(a: Alias, b: Alias)
    ensures AliasKey(a) == AliasKey(b) <==> a == b
  {
    if AliasKey(a) == AliasKey(b) { AliasKeyInjective(a, b); }
  }

  lemma KeysOnly(s: seq<Alias>, key: Str)
    requires forall a :: AliasKey(a) != key
    ensures multiset(AliasKeys(s))[key] == 0
  {
    assert key !in AliasKeys(s);
  }

  /** Comparing the sorted keys as canonical JSON compares the aliases in any order. */
  lemma AliasesCompared(a: seq<Alias>, b: seq<Alias>)
    ensures StableJson(Strings(Sort(AliasKeys(a), Le))) == StableJson(Strings(Sort(AliasKeys(b), Le)))
      <==> multiset(a) == multiset(b)
  {
    var ka, kb := Sort(AliasKeys(a), Le), Sort(AliasKeys(b), Le);
    StringsCompared(ka, kb);
    TextOrder();
    SortCanonical(AliasKeys(a), AliasKeys(b), Le);
    if multiset(AliasKeys(a)) == multiset(AliasKeys(b)) {
      forall x ensures multiset(a)[x] == multiset(b)[x] {
        KeyCounts(a, x);
        KeyCounts(b, x);
      }
    }
    if multiset(a) == multiset(b) {
      forall key ensures multiset(AliasKeys(a))[key] == multiset(AliasKeys(b))[key] {
        if x :| AliasKey(x) == key {
          KeyCounts(a, x);
          KeyCounts(b, x);
        } else {
          KeysOnly(a, key);
          KeysOnly(b, key);
        }
      }
    }
  }

  lemma StringsCompared(a: seq<Str>, b: seq<Str>)
    ensures StableJson(Strings(a)) == StableJson(Strings(b)) <==> a == b
  {
    StableJsonUnambiguous(Strings(a), Strings(b));
    if SameUpToKeyOrder(Strings(a), Strings(b)) {
      forall i | 0 <= i < |a| ensures a[i] == b[i] {
        assert SameUpToKeyOrder(Strings(a).items[i], Strings(b).items[i]);
      }
    }
  }

  /** `assertDefinedAliasUpdate`. */
  method CompareAliases(t: Tables, e: Envelope, row: Row, id: Str) returns (repeated: bool)
    ensures repeated <==> AliasesRepeated(t, e, row, id)
  {
    var incoming, existing := AliasesOf(e.aliases, row.importId), Children(t.aliases, id);
    AliasesCompared(incoming, existing);
    repeated :=
      StableJson(Strings(Sort(AliasKeys(incoming), Le))) == StableJson(Strings(Sort(AliasKeys(existing), Le)));
  }

  // ---- The findings of one row ----

  method PushDisplay(d: Digests, row: Row, target: Entry, findings: seq<Finding>) returns (pushed: seq<Finding>)
    ensures pushed == findings + DisplayFindings(d, row, target, DISPLAY_NAMES)
  {
    pushed := findings;
    for k := 0 to |DISPLAY_NAMES|
      invariant pushed == findings + DisplayFindings(d, row, target, DISPLAY_NAMES[..k])
    {
      var name := DISPLAY_NAMES[k];
      Taken(DISPLAY_NAMES, k);
      ghost var earlier := DisplayFindings(d, row, target, DISPLAY_NAMES[..k]);
      Grown(findings, earlier, DisplayFinding(d, row, target, name));
      var incoming, existing := row.content.Display(name), target.Display(name);
      if incoming.Some? && incoming != existing {
        var level := if name.Summary? then LevelC else LevelB;
        pushed := pushed
          + [Changing(d, row, row.sourceId, DisplayField(name), SetTo, OfText(existing), level, level.LevelC?)];
      }
    }
    All(DISPLAY_NAMES);
  }

  method PushStateful(d: Digests, row: Row, target: Entry, findings: seq<Finding>) returns (pushed: seq<Finding>)
    requires row.content.Valid() && target.Valid()
    ensures pushed == findings + StatefulFindings(d, row, target, FIELD_NAMES)
  {
    pushed := findings;
    for k := 0 to |FIELD_NAMES|
      invariant pushed == findings + StatefulFindings(d, row, target, FIELD_NAMES[..k])
    {
      var name := FIELD_NAMES[k];
      Taken(FIELD_NAMES, k);
      ghost var earlier := StatefulFindings(d, row, target, FIELD_NAMES[..k]);
      Grown(findings, earlier, StatefulFinding(d, row, target, name));
      var incoming, existing := row.content.Field(name), target.Field(name);
      if !incoming.Unsupplied? && incoming != existing {
        var level := FieldLevel(name);
        pushed := pushed
          + [Changing(
              d, row, row.sourceId, StatefulField(name), if incoming.Clear? then Cleared else SetTo,
              OfField(existing), level, level.LevelC? && !incoming.Clear?)];
      }
    }
    All(FIELD_NAMES);
  }

  method PushFacts(d: Digests, row: Row, item: Provenance, existing: Facts, findings: seq<Finding>)
    returns (pushed: seq<Finding>)
    ensures pushed == findings + FactFindings(d, row, item, existing, FACT_NAMES)
  {
    pushed := findings;
    for k := 0 to |FACT_NAMES|
      invariant pushed == findings + FactFindings(d, row, item, existing, FACT_NAMES[..k])
    {
      var name := FACT_NAMES[k];
      Taken(FACT_NAMES, k);
      ghost var earlier := FactFindings(d, row, item, existing, FACT_NAMES[..k]);
      Grown(findings, earlier, FactFinding(d, row, item, existing, name));
      if item.facts.Fact(name) != existing.Fact(name) {
        pushed := pushed
          + [Changing(d, row, item.sourceId, FactField(name), SetTo, OfText(existing.Fact(name)), LevelB, false)];
      }
    }
    All(FACT_NAMES);
  }

  method PushProvenance(
    d: Digests, sources: map<Str, SourceRow>, row: Row, items: seq<Provenance>, findings: seq<Finding>)
    returns (pushed: seq<Finding>)
    ensures pushed == findings + ProvenanceFindings(d, sources, row, items)
  {
    pushed := findings;
    for k := 0 to |items|
      invariant pushed == findings + ProvenanceFindings(d, sources, row, items[..k])
    {
      var item := items[k];
      Taken(items, k);
      ghost var earlier := ProvenanceFindings(d, sources, row, items[..k]);
      Grown(findings, earlier, SourceFindings(d, sources, row, item));
      if item.sourceId !in sources {
        pushed := pushed + [
          Finding(
            d.finding(FindingKey(item.sourceId, None, Changes(SetTo), Some(NoSource))), row.importId, item.sourceId,
            row.catalogId, CriticalChange, None, Some(LevelB), None, None, Some(SetTo), true, true)];
      } else {
        pushed := PushFacts(d, row, item, sources[item.sourceId].facts, pushed);
      }
    }
    All(items);
  }

  method PushCollections(d: Digests, t: Tables, e: Envelope, row: Row, id: Str, findings: seq<Finding>)
    returns (pushed: seq<Finding>)
    ensures pushed == findings + ContributorFindings(d, t, e, row, id) + CitationFindings(d, t, e, row, id)
  {
    pushed := findings;
    if !row.contributorsAction.Preserve? {
      var incoming, existing := ContributorsForImport(e, row.importId), ExistingContributors(t, id);
      ContributorsCompared(incoming, existing);
      var changed :=
        if row.contributorsAction.ClearAll? then |existing| > 0
        else StableJson(ContributorsJson(incoming)) != StableJson(ContributorsJson(existing));
      if changed {
        pushed := pushed + [
          Changing(
            d, row, row.sourceId, ContributorsField, if row.contributorsAction.ClearAll? then Cleared else SetTo,
            OfContributors(existing), LevelB, false)];
      }
    }
    if !row.citationsAction.Preserve? {
      var incoming, existing := CitationsForImport(e, row.importId), ExistingCitations(t, id);
      CitationsCompared(incoming, existing);
      var changed :=
        if row.citationsAction.ClearAll? then |existing| > 0
        else StableJson(CitationsJson(incoming)) != StableJson(CitationsJson(existing));
      if changed {
        pushed := pushed + [
          Changing(
            d, row, row.sourceId, CitationsField, if row.citationsAction.ClearAll? then Cleared else SetTo,
            OfCitations(existing), LevelB, false)];
      }
    }
  }

  lemma SevenParts(
    before: seq<Finding>, a: seq<Finding>, b: seq<Finding>, c: seq<Finding>, f: seq<Finding>, g: seq<Finding>,
    h: seq<Finding>, k: seq<Finding>)
    ensures before + a + b + c + f + g + h + k == before + (a + b + c + f + g + h + k)
  {
  }

  method PushChanges(d: Digests, t: Tables, e: Envelope, row: Row, id: Str, findings: seq<Finding>)
    returns (pushed: seq<Finding>)
    requires id in t.entries && row.content.Valid() && t.entries[id].Valid()
    ensures pushed == findings + ChangeFindings(d, t, e, row, id)
  {
    var target := t.entries[id];
    var items := ProvenanceOf(e.provenance, row.importId);
    pushed := findings;
    if row.content.title != target.title {
      pushed := pushed + [Changing(d, row, row.sourceId, TitleField, SetTo, OfText(Some(target.title)), LevelB, false)];
    }
    if row.content.kind != target.kind {
      pushed := pushed + [Changing(d, row, row.sourceId, KindField, SetTo, OfKind(target.kind), LevelA, false)];
    }
    assert pushed == findings + TitleFindings(d, row, target) + KindFindings(d, row, target);
    pushed := PushDisplay(d, row, target, pushed);
    pushed := PushStateful(d, row, target, pushed);
    pushed := PushProvenance(d, t.sources, row, items, pushed);
    pushed := PushCollections(d, t, e, row, id, pushed);
    SevenParts(
      findings, TitleFindings(d, row, target), KindFindings(d, row, target),
      DisplayFindings(d, row, target, DISPLAY_NAMES), StatefulFindings(d, row, target, FIELD_NAMES),
      ProvenanceFindings(d, t.sources, row, items), ContributorFindings(d, t, e, row, id),
      CitationFindings(d, t, e, row, id));
  }

  /** What the body of the loop does with one row: the findings it pushes and the counter it raises. */
  method ClassifyRow(
    t: Tables, e: Envelope, flagged: set<Str>, d: Digests, row: Row, findings: seq<Finding>)
    returns (r: Result<Tally, PlanError>, pushed: seq<Finding>)
    requires ValidFor(t, row)
    ensures match Classify(t, e, flagged, d, row)
      case Err(error) => r == Err(error)
      case Ok(v) => r == Ok(v.tally) && pushed == findings + v.findings
  {
    var items := ProvenanceOf(e.provenance, row.importId);
    pushed := findings;
    if !HasPrimary(items, row.sourceId) {
      pushed := pushed + [
        Blocking(
          d, row.(catalogId := None), row.sourceId, SourceIdField, MissingProvenance, IdentityConflict,
          Some(AssociationConflict), IdentityBlocker)];
      return Ok(Conflict), pushed;
    }
    var rebound := FirstRebound(t.sources, items, row.catalogId);
    if rebound.Some? {
      pushed := pushed + [
        Blocking(
          d, row, rebound.value.sourceId, SourceIdField, Rebinding, IdentityConflict, Some(SourceRebound),
          IdentityBlocker)];
      return Ok(Conflict), pushed;
    }
    if row.catalogId.Some? && row.catalogId.value !in t.entries {
      pushed := pushed + [
        Blocking(
          d, row, row.sourceId, CatalogIdField, NotFound, IdentityConflict, Some(CatalogNotFound),
          IdentityBlocker)];
      return Ok(Conflict), pushed;
    }
    if row.ownerNote.Some? {
      pushed := pushed + [OwnerNoteFinding(d, row)];
      return Ok(ErrorRow), pushed;
    }
    if row.importId in flagged {
      pushed := pushed + [
        Blocking(d, row, row.sourceId, TitleField, Duplication, Category.DuplicateCandidate, None, DuplicateBlocker)];
    }
    assert pushed == findings + DuplicateFindings(d, row, flagged);
    if row.catalogId.Some? {
      var id := row.catalogId.value;
      var repeated := CompareAliases(t, e, row, id);
      if !repeated {
        return Err(AliasSemanticsUndefined(row.importId)), pushed;
      }
      ghost var duplicates, changes := DuplicateFindings(d, row, flagged), ChangeFindings(d, t, e, row, id);
      var before := |pushed|;
      pushed := PushChanges(d, t, e, row, id, pushed);
      Grown(findings, duplicates, changes);
      Lengths(findings, duplicates, changes);
      return
        Ok(if row.importId in flagged then Conflict else if |pushed| == before then NoChange else Update), pushed;
    }
    if row.importId in flagged { return Ok(Conflict), pushed; }
    if row.sourceId in t.sources { return Ok(NoChange), pushed; }
    return Ok(Add), pushed;
  }

  lemma Lengths<T>(a: seq<T>, b: seq<T>, c: seq<T>)
    ensures |a + b + c| == |a + b| <==> c == []
  {
  }

  // ---- The whole run ----

  /** The check of the dry run schema that no finding id repeats. */
  method IdsAreDistinct(ids: seq<Str>) returns (distinct: bool)
    ensures distinct <==> Distinct(ids)
  {
    var seen: set<Str> := {};
    for i := 0 to |ids|
      invariant seen == (set k | 0 <= k < i :: ids[k])
      invariant Distinct(ids[..i])
    {
      if ids[i] in seen {
        ghost var k :| 0 <= k < i && ids[k] == ids[i];
        return false;
      }
      seen := seen + {ids[i]};
    }
    All(ids);
    return true;
  }

  method CountIdentityConflicts(findings: seq<Finding>) returns (n: nat)
    ensures n == CountIdentity(findings)
  {
    n := 0;
    for i := 0 to |findings|
      invariant n == CountIdentity(findings[..i])
    {
      Taken(findings, i);
      if findings[i].category.IdentityConflict? { n := n + 1; }
    }
    All(findings);
  }

  datatype Counters = Counters(add: nat, update: nat, same: nat, conflict: nat, error: nat)

  ghost predicate Counted(c: Counters, verdicts: seq<Verdict>) {
    && c.add == Count(verdicts, Add) && c.update == Count(verdicts, Update) && c.same == Count(verdicts, NoChange)
    && c.conflict == Count(verdicts, Conflict) && c.error == Count(verdicts, ErrorRow)
  }

  function Raise(c: Counters, tally: Tally): Counters {
    match tally
    case Add => c.(add := c.add + 1)
    case Update => c.(update := c.update + 1)
    case NoChange => c.(same := c.same + 1)
    case Conflict => c.(conflict := c.conflict + 1)
    case ErrorRow => c.(error := c.error + 1)
  }

  lemma CountersRise(c: Counters, verdicts: seq<Verdict>, v: Verdict)
    requires Counted(c, verdicts)
    ensures Counted(Raise(c, v.tally), verdicts + [v])
    ensures AllFindings(verdicts + [v]) == AllFindings(verdicts) + v.findings
  {
    assert (verdicts + [v])[..|verdicts|] == verdicts;
  }

  lemma {:induction false} VerdictsStop(t: Tables, e: Envelope, flagged: set<Str>, d: Digests, rows: seq<Row>, k: nat)
    requires k <= |rows| && (forall row :: row in rows ==> ValidFor(t, row))
    requires forall row :: row in rows[..k] ==> ValidFor(t, row)
    requires Verdicts(t, e, flagged, d, rows[..k]).Err?
    ensures Verdicts(t, e, flagged, d, rows) == Verdicts(t, e, flagged, d, rows[..k])
    decreases |rows|
  {
    if k < |rows| {
      var n := |rows| - 1;
      assert rows[..n][..k] == rows[..k];
      VerdictsStop(t, e, flagged, d, rows[..n], k);
    } else {
      All(rows);
    }
  }

  method ClassifyRows(t: Tables, e: Envelope, flagged: set<Str>, d: Digests)
    returns (r: Result<(seq<Finding>, Counters), PlanError>)
    requires Plannable(t, e)
    ensures match Verdicts(t, e, flagged, d, e.rows)
      case Err(error) => r == Err(error)
      case Ok(verdicts) => r.Ok? && r.value.0 == AllFindings(verdicts) && Counted(r.value.1, verdicts)
  {
    var findings: seq<Finding>, counters := [], Counters(0, 0, 0, 0, 0);
    ghost var verdicts: seq<Verdict> := [];
    for i := 0 to |e.rows|
      invariant forall row :: row in e.rows[..i] ==> ValidFor(t, row)
      invariant Verdicts(t, e, flagged, d, e.rows[..i]) == Ok(verdicts)
      invariant findings == AllFindings(verdicts) && Counted(counters, verdicts)
    {
      var row := e.rows[i];
      Taken(e.rows, i);
      assert forall x :: x in e.rows[..i + 1] ==> x in e.rows;
      var tally, pushed := ClassifyRow(t, e, flagged, d, row, findings);
      if tally.Err? {
        VerdictsStop(t, e, flagged, d, e.rows, i + 1);
        return Err(tally.error);
      }
      ghost var v := Classify(t, e, flagged, d, row).value;
      CountersRise(counters, verdicts, v);
      findings, counters, verdicts := pushed, Raise(counters, tally.value), verdicts + [v];
    }
    All(e.rows);
    return Ok((findings, counters));
  }

  /** `createCatalogImportV2DryRun` computes the plan, provided the search for member references ends. */
  method DryRun(t: Tables, matches: seq<Match>, e: Envelope, d: Digests) returns (r: Result<PlanBody, PlanError>)
    requires Plannable(t, e)
    requires Analyze(Eligible(t, e, e.rows), matches, ImportIds(e.rows), d.titles).Some?
    ensures r == Plan(t, matches, e, d)
  {
    var a := AnalyzeTitleDuplicates(Eligible(t, e, e.rows), matches, ImportIds(e.rows), d.titles);
    var classified := ClassifyRows(t, e, a.flagged, d);
    if classified.Err? { return Err(classified.error); }
    var (findings, c) := classified.value;
    var identity := CountIdentityConflicts(findings);
    var blockers := Blockers(findings, a.candidates);
    var counts := Counts(c.add, c.update, c.same, c.conflict, identity, c.error, |a.candidates|);
    var distinct := IdsAreDistinct(FindingIds(findings));
    if !distinct { return Err(FindingIdsRepeat); }
    return Ok(PlanBody(d.input(e), |e.rows|, findings, counts, a.candidates, blockers, blockers == []));
  }
}
