/**
 `analyzeV2TitleDuplicates`: which incoming rows share a title with one another or with an entry that is not their own
 target, and the candidates reported for them.
 */
module TitleDuplicates {
  import opened Text
  import opened Wrappers
  import opened Sorting
  import opened CanonicalJson
  import opened CatalogModel

  /** A row of the title query. */
  datatype Match = Match(title: Str, catalogId: Str)

  datatype Candidate = Candidate(candidateId: Str, members: seq<Str>)

  datatype Analysis = Analysis(candidates: seq<Candidate>, flagged: set<Str>)

  /** What the identity of a candidate is a hash of. */
  datatype CandidateKey = CandidateKey(title: Str, incoming: seq<Str>, existing: seq<Str>)

  /** SHA-256 of a text, and the identity that the canonical JSON of a candidate's key hashes to. */
  datatype TitleHashes = TitleHashes(sha: Str -> Str, candidate: CandidateKey -> Str)

  const EXISTING := Lit("existing-")

  // ---- Groups ----

  function WithTitle(rows: seq<Row>, title: Str): (r: seq<Row>)
    ensures forall row :: row in r <==> row in rows && row.content.title == title
  {
    if rows == [] then []
    else
      WithTitle(rows[..|rows| - 1], title)
      + (if rows[|rows| - 1].content.title == title then [rows[|rows| - 1]] else [])
  }

  function ImportIds(rows: seq<Row>): (ids: seq<Str>)
    ensures |ids| == |rows| && forall i :: 0 <= i < |ids| ==> ids[i] == rows[i].importId
  {
    seq(|rows|, i requires 0 <= i < |rows| => rows[i].importId)
  }

  function IdsTitled(matches: seq<Match>, title: Str): (r: seq<Str>)
    ensures forall id :: id in r <==> Match(title, id) in matches
  {
    if matches == [] then []
    else
      IdsTitled(matches[..|matches| - 1], title)
      + (if matches[|matches| - 1].title == title then [matches[|matches| - 1].catalogId] else [])
  }

  /** The distinct texts of a list, in the order of their first occurrence: what a Map or Set keeps. */
  function Dedup(s: seq<Str>): (r: seq<Str>)
    ensures forall x :: x in r <==> x in s
    ensures Distinct(r)
  {
    if s == [] then []
    else
      var r := Dedup(s[..|s| - 1]);
      if s[|s| - 1] in r then r else r + [s[|s| - 1]]
  }

  function Titles(rows: seq<Row>): (r: seq<Str>)
    ensures |r| == |rows| && forall i :: 0 <= i < |r| ==> r[i] == rows[i].content.title
  {
    seq(|rows|, i requires 0 <= i < |rows| => rows[i].content.title)
  }

  function Excluding(s: seq<Str>, out: set<Str>): (r: seq<Str>)
    ensures forall x :: x in r <==> x in s && x !in out
    ensures Distinct(s) ==> Distinct(r)
  {
    if s == [] then [] else (if s[0] in out then [] else [s[0]]) + Excluding(s[1..], out)
  }

  /** The targets of the rows in one title group. */
  function Represented(group: seq<Row>): set<Str> {
    set row | row in group && row.catalogId.Some? :: row.catalogId.value
  }

  function IncomingIds(rows: seq<Row>, title: Str): seq<Str> {
    Sort(ImportIds(WithTitle(rows, title)), Le)
  }

  function ExistingIds(rows: seq<Row>, matches: seq<Match>, title: Str): seq<Str> {
    Sort(Excluding(Dedup(IdsTitled(matches, title)), Represented(WithTitle(rows, title))), Le)
  }

  predicate IsDuplicated(rows: seq<Row>, matches: seq<Match>, title: Str) {
    |IncomingIds(rows, title)| + |ExistingIds(rows, matches, title)| >= 2
  }

  function Flagged(rows: seq<Row>, matches: seq<Match>): set<Str> {
    set row | row in rows && IsDuplicated(rows, matches, row.content.title) :: row.importId
  }

  // ---- References to existing entries ----

  /** The `index`-th reference tried for an entry. */
  function Reference(h: TitleHashes, catalogId: Str, index: nat): Str {
    if index == 0 then EXISTING + catalogId
    else if index == 1 then EXISTING + h.sha(catalogId)
    else EXISTING + h.sha(catalogId + [0] + Decimal(index))
  }

  /** What the import id schema accepts. */
  predicate IsImportId(s: Str) {
    1 <= |s| <= 128 && forall i :: 0 <= i < |s| ==> !IsSpace(s[i])
  }

  predicate IsFree(h: TitleHashes, catalogId: Str, occupied: set<Str>, index: nat) {
    IsImportId(Reference(h, catalogId, index)) && Reference(h, catalogId, index) !in occupied
  }

  /** The open-ended search finds a reference. */
  ghost predicate Settles(h: TitleHashes, catalogId: Str, occupied: set<Str>) {
    exists index: nat :: IsFree(h, catalogId, occupied, index)
  }

  lemma {:induction false} LeastFree(h: TitleHashes, catalogId: Str, occupied: set<Str>, some: nat) returns (least: nat)
    requires IsFree(h, catalogId, occupied, some)
    ensures IsFree(h, catalogId, occupied, least)
    ensures forall i: nat :: i < least ==> !IsFree(h, catalogId, occupied, i)
    decreases some
  {
    if i: nat :| i < some && IsFree(h, catalogId, occupied, i) {
      least := LeastFree(h, catalogId, occupied, i);
    } else {
      least := some;
    }
  }

  ghost predicate IsFirstFree(h: TitleHashes, catalogId: Str, occupied: set<Str>, index: nat) {
    IsFree(h, catalogId, occupied, index) && forall i: nat :: i < index ==> !IsFree(h, catalogId, occupied, i)
  }

  lemma SomeIsFirst(h: TitleHashes, catalogId: Str, occupied: set<Str>)
    requires Settles(h, catalogId, occupied)
    ensures exists index: nat :: IsFirstFree(h, catalogId, occupied, index)
  {
    var some: nat :| IsFree(h, catalogId, occupied, some);
    var least := LeastFree(h, catalogId, occupied, some);
    assert IsFirstFree(h, catalogId, occupied, least);
  }

  ghost function FirstFree(h: TitleHashes, catalogId: Str, occupied: set<Str>): (index: nat)
    requires Settles(h, catalogId, occupied)
    ensures IsFree(h, catalogId, occupied, index)
    ensures forall i: nat :: i < index ==> !IsFree(h, catalogId, occupied, i)
  {
    SomeIsFirst(h, catalogId, occupied);
    var index: nat :| IsFirstFree(h, catalogId, occupied, index);
    index
  }

  /** `v2ExistingCatalogMemberReference`: the first reference that is an import id nobody uses. */
  method MemberReference(h: TitleHashes, catalogId: Str, occupied: set<Str>) returns (reference: Str)
    requires Settles(h, catalogId, occupied)
    ensures reference == Reference(h, catalogId, FirstFree(h, catalogId, occupied))
  {
    var index: nat := 0;
    while !IsFree(h, catalogId, occupied, index)
      invariant forall i: nat :: i < index ==> !IsFree(h, catalogId, occupied, i)
      decreases FirstFree(h, catalogId, occupied) - index
    {
      index := index + 1;
    }
    reference := Reference(h, catalogId, index);
  }

  /** Up to the `n`-th try, the hashed references to these entries are import ids, and those to one entry differ. */
  ghost predicate SpreadTo(h: TitleHashes, ids: set<Str>, n: nat) {
    && (forall id, i: nat :: id in ids && 2 <= i <= n ==> IsImportId(Reference(h, id, i)))
    && forall id, i: nat, j: nat :: id in ids && 2 <= i < j <= n ==> Reference(h, id, i) != Reference(h, id, j)
  }

  /** The search settles when hashed references do not repeat within one more try than there are occupied references. */
  lemma SearchSettles(h: TitleHashes, catalogId: Str, occupied: set<Str>)
    requires SpreadTo(h, {catalogId}, |occupied| + 2)
    ensures Settles(h, catalogId, occupied)
  {
    var n := |occupied| + 1;
    var tried := seq(n, i requires 0 <= i < n => Reference(h, catalogId, i + 2));
    forall i, j | 0 <= i < j < n ensures tried[i] != tried[j] { assert catalogId in {catalogId}; }
    if forall i :: 0 <= i < n ==> tried[i] in occupied {
      DistinctFits(tried, occupied);
    } else {
      var i :| 0 <= i < n && tried[i] !in occupied;
      assert IsFree(h, catalogId, occupied, i + 2) by { assert catalogId in {catalogId}; }
    }
  }

  /** A list without repetition is no longer than a set that holds it. */
  lemma {:induction false} DistinctFits<T>(s: seq<T>, all: set<T>)
    requires Distinct(s) && forall i :: 0 <= i < |s| ==> s[i] in all
    ensures |s| <= |all|
    decreases |s|
  {
    if s != [] {
      DistinctFits(s[1..], all - {s[0]});
    }
  }

  // ---- Candidates ----

  ghost function References(ids: seq<Str>, h: TitleHashes, occupied: set<Str>): Option<seq<Str>>
    decreases |ids|
  {
    if ids == [] then Some([])
    else if !Settles(h, ids[0], occupied) then None
    else
      var reference := Reference(h, ids[0], FirstFree(h, ids[0], occupied));
      match References(ids[1..], h, occupied + {reference})
      case None => None
      case Some(rest) => Some([reference] + rest)
  }

  function AsSet(s: seq<Str>): set<Str> { set x | x in s }

  ghost function Candidates(titles: seq<Str>, rows: seq<Row>, matches: seq<Match>, h: TitleHashes, occupied: set<Str>)
    : Option<seq<Candidate>>
    decreases |titles|
  {
    if titles == [] then Some([])
    else if !IsDuplicated(rows, matches, titles[0]) then Candidates(titles[1..], rows, matches, h, occupied)
    else
      var incoming, existing := IncomingIds(rows, titles[0]), ExistingIds(rows, matches, titles[0]);
      match References(existing, h, occupied)
      case None => None
      case Some(references) =>
        match Candidates(titles[1..], rows, matches, h, occupied + AsSet(references))
        case None => None
        case Some(rest) =>
          var key := CandidateKey(titles[0], incoming, existing);
          Some([Candidate(h.candidate(key), incoming + references)] + rest)
  }

  /** The analysis, or nothing when a reference search never ends. */
  ghost function Analyze(rows: seq<Row>, matches: seq<Match>, importIds: seq<Str>, h: TitleHashes): Option<Analysis> {
    match Candidates(Sort(Dedup(Titles(rows)), Le), rows, matches, h, AsSet(importIds))
    case None => None
    case Some(candidates) => Some(Analysis(candidates, Flagged(rows, matches)))
  }

  lemma {:induction false} ReferencesSettle(ids: seq<Str>, h: TitleHashes, occupied: set<Str>, n: nat)
    requires SpreadTo(h, AsSet(ids), n) && |occupied| + |ids| + 1 <= n
    ensures References(ids, h, occupied).Some?
    decreases |ids|
  {
    if ids != [] {
      assert ids[0] in AsSet(ids) && AsSet(ids[1..]) <= AsSet(ids);
      SearchSettles(h, ids[0], occupied);
      ReferencesSettle(ids[1..], h, occupied + {Reference(h, ids[0], FirstFree(h, ids[0], occupied))}, n);
    }
  }

  lemma {:induction false} AsSetFits(s: seq<Str>)
    ensures |AsSet(s)| <= |s|
    decreases |s|
  {
    if s != [] {
      AsSetFits(s[1..]);
      assert AsSet(s) == AsSet(s[1..]) + {s[0]};
    }
  }

  lemma {:induction false} ExcludingShortens(s: seq<Str>, out: set<Str>)
    ensures |Excluding(s, out)| <= |s|
    decreases |s|
  {
    if s != [] { ExcludingShortens(s[1..], out); }
  }

  lemma {:induction false} DedupShortens(s: seq<Str>)
    ensures |Dedup(s)| <= |s|
    decreases |s|
  {
    if s != [] { DedupShortens(s[..|s| - 1]); }
  }

  /** The entries with one of these titles, counted with the titles they match. */
  function Awaited(titles: seq<Str>, matches: seq<Match>): nat {
    if titles == [] then 0 else |IdsTitled(matches, titles[0])| + Awaited(titles[1..], matches)
  }

  /** Each match waits for at most one reference. */
  lemma {:induction false} AwaitedFits(titles: seq<Str>, matches: seq<Match>)
    requires Distinct(titles)
    ensures Awaited(titles, matches) <= |matches|
    decreases |matches|
  {
    if matches == [] {
      NothingAwaited(titles);
    } else {
      var earlier, last := matches[..|matches| - 1], matches[|matches| - 1];
      AwaitedFits(titles, earlier);
      AwaitedOneMore(titles, earlier, last);
      assert matches == earlier + [last];
    }
  }

  lemma {:induction false} NothingAwaited(titles: seq<Str>)
    ensures Awaited(titles, []) == 0
    decreases |titles|
  {
    if titles != [] { NothingAwaited(titles[1..]); }
  }

  lemma {:induction false} AwaitedOneMore(titles: seq<Str>, earlier: seq<Match>, last: Match)
    requires Distinct(titles)
    ensures Awaited(titles, earlier + [last]) == Awaited(titles, earlier) + (if last.title in titles then 1 else 0)
    decreases |titles|
  {
    if titles != [] {
      AwaitedOneMore(titles[1..], earlier, last);
      assert (earlier + [last])[..|earlier|] == earlier;
      assert titles == [titles[0]] + titles[1..] && titles[0] !in titles[1..];
    }
  }

  function MatchedIds(matches: seq<Match>): set<Str> { set m | m in matches :: m.catalogId }

  lemma ExistingFits(rows: seq<Row>, matches: seq<Match>, title: Str)
    ensures |ExistingIds(rows, matches, title)| <= |IdsTitled(matches, title)|
    ensures AsSet(ExistingIds(rows, matches, title)) <= MatchedIds(matches)
  {
    var ids := IdsTitled(matches, title);
    var kept := Excluding(Dedup(ids), Represented(WithTitle(rows, title)));
    DedupShortens(ids);
    ExcludingShortens(Dedup(ids), Represented(WithTitle(rows, title)));
    SortPermutes(kept, Le);
    SortMembers(kept, Le);
    forall id | id in ExistingIds(rows, matches, title) ensures id in MatchedIds(matches) {
      assert Match(title, id) in matches;
    }
  }

  lemma {:induction false} CandidatesSettle(
    titles: seq<Str>, rows: seq<Row>, matches: seq<Match>, h: TitleHashes, occupied: set<Str>, n: nat)
    requires SpreadTo(h, MatchedIds(matches), n) && |occupied| + Awaited(titles, matches) + 1 <= n
    ensures Candidates(titles, rows, matches, h, occupied).Some?
    decreases |titles|
  {
    if titles != [] {
      if IsDuplicated(rows, matches, titles[0]) {
        var existing := ExistingIds(rows, matches, titles[0]);
        ExistingFits(rows, matches, titles[0]);
        ReferencesSettle(existing, h, occupied, n);
        ReferencesAreFresh(existing, h, occupied);
        var references := References(existing, h, occupied).value;
        AsSetFits(references);
        CandidatesSettle(titles[1..], rows, matches, h, occupied + AsSet(references), n);
      } else {
        CandidatesSettle(titles[1..], rows, matches, h, occupied, n);
      }
    }
  }

  /**
   The whole analysis ends, whatever the rows and the entries, when the hashed references to the entries that match
   stay apart for as many tries as there are import ids and matches, and one more.
   */
  lemma AnalysisSettles(rows: seq<Row>, matches: seq<Match>, importIds: seq<Str>, h: TitleHashes)
    requires SpreadTo(h, MatchedIds(matches), |importIds| + |matches| + 1)
    ensures Analyze(rows, matches, importIds, h).Some?
  {
    var titles := Sort(Dedup(Titles(rows)), Le);
    SortPermutes(Dedup(Titles(rows)), Le);
    PermutedDistinct(Dedup(Titles(rows)), titles);
    AwaitedFits(titles, matches);
    AsSetFits(importIds);
    CandidatesSettle(titles, rows, matches, h, AsSet(importIds), |importIds| + |matches| + 1);
  }

  // ---- Such hashes exist ----

  /** What follows the last NUL of a text: of a text that is hashed for a reference, the number of the try. */
  function AfterLastNul(s: Str): Str {
    if s == [] || s[|s| - 1] == 0 then [] else AfterLastNul(s[..|s| - 1]) + [s[|s| - 1]]
  }

  lemma {:induction false} AfterNul(before: Str, token: Str)
    requires 0 !in token
    ensures AfterLastNul(before + [0] + token) == token
    decreases |token|
  {
    var s := before + [0] + token;
    if token == [] {
      assert s[|s| - 1] == 0;
    } else {
      assert s[..|s| - 1] == before + [0] + token[..|token| - 1];
      AfterNul(before, token[..|token| - 1]);
    }
  }

  lemma {:induction false} DecimalGrows(m: nat, n: nat)
    requires m <= n
    ensures |Decimal(m)| <= |Decimal(n)|
  {
    if m >= 10 { DecimalGrows(m / 10, n / 10); }
  }

  const NUMBERING := TitleHashes(AfterLastNul, (key: CandidateKey) => key.title)

  lemma NumberedReference(id: Str, i: nat)
    requires 2 <= i
    ensures Reference(NUMBERING, id, i) == EXISTING + Decimal(i)
  {
    AfterNul(id, Decimal(i));
  }

  /** For any entries and any number of tries that an import id can spell out, some hash keeps the references apart. */
  lemma SomeHashesSpread(ids: set<Str>, n: nat)
    requires |EXISTING| + |Decimal(n)| <= 128
    ensures SpreadTo(NUMBERING, ids, n)
  {
    forall id, i: nat | id in ids && 2 <= i <= n ensures IsImportId(Reference(NUMBERING, id, i)) {
      NumberedReference(id, i);
      DecimalGrows(i, n);
    }
    forall id, i: nat, j: nat | id in ids && 2 <= i < j <= n
      ensures Reference(NUMBERING, id, i) != Reference(NUMBERING, id, j)
    {
      NumberedReference(id, i);
      NumberedReference(id, j);
      if EXISTING + Decimal(i) == EXISTING + Decimal(j) {
        assert (EXISTING + Decimal(i))[|EXISTING|..] == Decimal(i);
        assert (EXISTING + Decimal(j))[|EXISTING|..] == Decimal(j);
        DecimalInjective(i, j);
      }
    }
  }

  // ---- The analysis is exact ----

  lemma TextOrder()
    ensures TotalOrder(Le) && forall x, y :: Le(x, y) && Le(y, x) ==> x == y
  {
    forall x, y ensures Le(x, y) || Le(y, x) { LeTotal(x, y); }
    forall x, y | Le(x, y) && Le(y, x) ensures x == y { LeAntisymmetric(x, y); }
    forall x, y, z | Le(x, y) && Le(y, z) ensures Le(x, z) { LeTransitive(x, y, z); }
  }

  /** Two rows of the envelope, or a row and an entry that the row's title group does not target, share a title. */
  ghost predicate SharesTitle(rows: seq<Row>, matches: seq<Match>, row: Row) {
    || (exists other :: other in rows && other != row && other.content.title == row.content.title)
    || (exists id ::
          && Match(row.content.title, id) in matches
          && !exists own :: own in rows && own.content.title == row.content.title && own.catalogId == Some(id))
  }

  lemma {:induction false} WithTitleCounts(rows: seq<Row>, title: Str)
    requires Distinct(rows)
    ensures Distinct(WithTitle(rows, title))
  {
    if rows != [] { WithTitleCounts(rows[..|rows| - 1], title); }
  }

  /** A row is flagged exactly when its title is shared. */
  lemma FlaggedExactly(rows: seq<Row>, matches: seq<Match>, row: Row)
    requires row in rows && Distinct(ImportIds(rows))
    ensures row.importId in Flagged(rows, matches) <==> SharesTitle(rows, matches, row)
  {
    var title := row.content.title;
    var group := WithTitle(rows, title);
    var existing := Excluding(Dedup(IdsTitled(matches, title)), Represented(group));
    forall i, j | 0 <= i < j < |rows| ensures rows[i] != rows[j] {
      assert ImportIds(rows)[i] != ImportIds(rows)[j];
    }
    WithTitleCounts(rows, title);
    SortPermutes(ImportIds(group), Le);
    SortPermutes(existing, Le);
    SameImportId(rows, matches, row);
    assert IsDuplicated(rows, matches, title) <==> |group| + |existing| >= 2;
    assert row in group;
    var own := IndexOf(group, row);
    if |group| >= 2 {
      var other := group[if own == 0 then 1 else 0];
      assert other in group && other != row;
      assert other in rows && other.content.title == title;
    } else if existing != [] {
      assert existing[0] in existing;
      assert Match(title, existing[0]) in matches;
      forall r | r in rows && r.content.title == title ensures r.catalogId != Some(existing[0]) {
        assert r in group && existing[0] !in Represented(group);
      }
    }
    if SharesTitle(rows, matches, row) { SharedIsDuplicated(rows, matches, row); }
  }

  lemma SameImportId(rows: seq<Row>, matches: seq<Match>, row: Row)
    requires row in rows && Distinct(ImportIds(rows))
    ensures row.importId in Flagged(rows, matches) <==> IsDuplicated(rows, matches, row.content.title)
  {
    if row.importId in Flagged(rows, matches) {
      var other :| other in rows && IsDuplicated(rows, matches, other.content.title) && other.importId == row.importId;
      SameRow(rows, other, row);
    }
  }

  lemma SharedIsDuplicated(rows: seq<Row>, matches: seq<Match>, row: Row)
    requires row in rows && SharesTitle(rows, matches, row)
    ensures IsDuplicated(rows, matches, row.content.title)
  {
    var title := row.content.title;
    var group := WithTitle(rows, title);
    var existing := Excluding(Dedup(IdsTitled(matches, title)), Represented(group));
    SortPermutes(ImportIds(group), Le);
    SortPermutes(existing, Le);
    assert row in group;
    if other :| other in rows && other != row && other.content.title == title {
      assert other in group;
      assert IndexOf(group, row) != IndexOf(group, other);
    } else {
      var id :| Match(title, id) in matches
        && !exists own :: own in rows && own.content.title == title && own.catalogId == Some(id);
      assert id !in Represented(group);
      assert id in existing;
    }
  }

  // ---- Candidates are apart ----

  function AllMembers(candidates: seq<Candidate>): seq<Str> {
    if candidates == [] then [] else candidates[0].members + AllMembers(candidates[1..])
  }

  lemma {:induction false} ReferencesAreFresh(ids: seq<Str>, h: TitleHashes, occupied: set<Str>)
    requires References(ids, h, occupied).Some?
    ensures var refs := References(ids, h, occupied).value;
      |refs| == |ids| && Distinct(refs) && forall r :: r in refs ==> r !in occupied && IsImportId(r)
    decreases |ids|
  {
    if ids != [] {
      var reference := Reference(h, ids[0], FirstFree(h, ids[0], occupied));
      ReferencesAreFresh(ids[1..], h, occupied + {reference});
    }
  }

  /** A member is the import id of a flagged row or a reference that nothing occupied. */
  ghost predicate MemberOf(rows: seq<Row>, titles: seq<Str>, matches: seq<Match>, occupied: set<Str>, m: Str) {
    || (m !in occupied && IsImportId(m))
    || exists row :: row in rows && row.importId == m && row.content.title in titles
         && IsDuplicated(rows, matches, row.content.title)
  }

  lemma IncomingAre(rows: seq<Row>, title: Str)
    requires Distinct(ImportIds(rows))
    ensures Distinct(IncomingIds(rows, title))
    ensures forall id :: id in IncomingIds(rows, title) <==>
      exists row :: row in rows && row.importId == id && row.content.title == title
  {
    var group := WithTitle(rows, title);
    GroupIds(rows, title);
    SortPermutes(ImportIds(group), Le);
    PermutedDistinct(ImportIds(group), IncomingIds(rows, title));
    SortMembers(ImportIds(group), Le);
    forall id ensures id in IncomingIds(rows, title) <==>
      exists row :: row in rows && row.importId == id && row.content.title == title
    {
      if id in ImportIds(group) {
        var i := IndexOf(ImportIds(group), id);
        assert group[i] in group;
      }
      if row :| row in rows && row.importId == id && row.content.title == title {
        assert row in group;
        assert ImportIds(group)[IndexOf(group, row)] == id;
      }
    }
  }

  lemma {:induction false} GroupIds(rows: seq<Row>, title: Str)
    requires Distinct(ImportIds(rows))
    ensures Distinct(ImportIds(WithTitle(rows, title)))
  {
    if rows != [] {
      var init, last := rows[..|rows| - 1], rows[|rows| - 1];
      assert ImportIds(init) == ImportIds(rows)[..|rows| - 1];
      GroupIds(init, title);
      var group := WithTitle(init, title);
      forall i | 0 <= i < |group| ensures group[i].importId != last.importId {
        assert group[i] in init;
        var j := IndexOf(init, group[i]);
        assert ImportIds(rows)[j] != ImportIds(rows)[|rows| - 1];
      }
    }
  }

  lemma DistinctAppend(a: seq<Str>, b: seq<Str>)
    requires Distinct(a) && Distinct(b) && forall x :: x in a ==> x !in b
    ensures Distinct(a + b)
  {
    forall i, j | 0 <= i < j < |a + b| ensures (a + b)[i] != (a + b)[j] {
      if i < |a| <= j { assert a[i] in a && b[j - |a|] in b; }
    }
  }

  /** The first title that is shared gives the first candidate. */
  lemma FirstCandidate(titles: seq<Str>, rows: seq<Row>, matches: seq<Match>, h: TitleHashes, occupied: set<Str>)
    returns (id: Str, references: seq<Str>)
    requires titles != [] && IsDuplicated(rows, matches, titles[0])
    requires Candidates(titles, rows, matches, h, occupied).Some?
    ensures References(ExistingIds(rows, matches, titles[0]), h, occupied) == Some(references)
    ensures Candidates(titles[1..], rows, matches, h, occupied + AsSet(references)).Some?
    ensures Candidates(titles, rows, matches, h, occupied).value
      == [Candidate(id, IncomingIds(rows, titles[0]) + references)]
         + Candidates(titles[1..], rows, matches, h, occupied + AsSet(references)).value
  {
    references := References(ExistingIds(rows, matches, titles[0]), h, occupied).value;
    id := Candidates(titles, rows, matches, h, occupied).value[0].candidateId;
  }

  lemma MembersOfFirst(c: Candidate, rest: seq<Candidate>)
    ensures AllMembers([c] + rest) == c.members + AllMembers(rest)
  {
    assert ([c] + rest)[1..] == rest;
  }

  /** Members listed once, all of them accounted for, with every row of these titles whose title is shared. */
  ghost predicate AreApart(
    members: seq<Str>, titles: seq<Str>, rows: seq<Row>, matches: seq<Match>, occupied: set<Str>)
  {
    && Distinct(members)
    && (forall m :: m in members ==> MemberOf(rows, titles, matches, occupied, m))
    && forall row :: row in rows && row.content.title in titles && IsDuplicated(rows, matches, row.content.title)
         ==> row.importId in members
  }

  lemma {:induction false} CandidatesAreApart(
    titles: seq<Str>, rows: seq<Row>, matches: seq<Match>, h: TitleHashes, occupied: set<Str>)
    requires Distinct(titles) && Distinct(ImportIds(rows)) && AsSet(ImportIds(rows)) <= occupied
    requires Candidates(titles, rows, matches, h, occupied).Some?
    ensures AreApart(
      AllMembers(Candidates(titles, rows, matches, h, occupied).value), titles, rows, matches, occupied)
    decreases |titles|
  {
    if titles == [] {
    } else if !IsDuplicated(rows, matches, titles[0]) {
      CandidatesAreApart(titles[1..], rows, matches, h, occupied);
      UnsharedTitle(
        AllMembers(Candidates(titles[1..], rows, matches, h, occupied).value), titles, rows, matches, occupied);
    } else {
      var id, references := FirstCandidate(titles, rows, matches, h, occupied);
      var occupied' := occupied + AsSet(references);
      CandidatesAreApart(titles[1..], rows, matches, h, occupied');
      var others := Candidates(titles[1..], rows, matches, h, occupied').value;
      MembersOfFirst(Candidate(id, IncomingIds(rows, titles[0]) + references), others);
      GroupIsApart(titles, rows, matches, h, occupied, references, AllMembers(others));
    }
  }

  lemma UnsharedTitle(
    members: seq<Str>, titles: seq<Str>, rows: seq<Row>, matches: seq<Match>, occupied: set<Str>)
    requires titles != [] && !IsDuplicated(rows, matches, titles[0])
    requires AreApart(members, titles[1..], rows, matches, occupied)
    ensures AreApart(members, titles, rows, matches, occupied)
  {
    assert titles == [titles[0]] + titles[1..];
    forall m | m in members ensures MemberOf(rows, titles, matches, occupied, m) {
      assert MemberOf(rows, titles[1..], matches, occupied, m);
    }
  }

  lemma GroupIsApart(
    titles: seq<Str>, rows: seq<Row>, matches: seq<Match>, h: TitleHashes, occupied: set<Str>,
    references: seq<Str>, others: seq<Str>)
    requires titles != [] && Distinct(titles) && Distinct(ImportIds(rows)) && AsSet(ImportIds(rows)) <= occupied
    requires IsDuplicated(rows, matches, titles[0])
    requires References(ExistingIds(rows, matches, titles[0]), h, occupied) == Some(references)
    requires AreApart(others, titles[1..], rows, matches, occupied + AsSet(references))
    ensures AreApart(IncomingIds(rows, titles[0]) + references + others, titles, rows, matches, occupied)
  {
    assert titles == [titles[0]] + titles[1..];
    var incoming := IncomingIds(rows, titles[0]);
    ReferencesAreFresh(ExistingIds(rows, matches, titles[0]), h, occupied);
    IncomingAre(rows, titles[0]);
    forall id | id in incoming ensures id in occupied && MemberOf(rows, titles, matches, occupied, id) {
      var row :| row in rows && row.importId == id && row.content.title == titles[0];
      assert ImportIds(rows)[IndexOf(rows, row)] == id;
      assert id in AsSet(ImportIds(rows));
    }
    forall m | m in others
      ensures m !in incoming && m !in references && MemberOf(rows, titles, matches, occupied, m)
    {
      assert MemberOf(rows, titles[1..], matches, occupied + AsSet(references), m);
      if row :| row in rows && row.importId == m && row.content.title in titles[1..]
                && IsDuplicated(rows, matches, row.content.title) {
        OtherTitle(titles, rows, row);
        assert m in AsSet(ImportIds(rows)) by { assert ImportIds(rows)[IndexOf(rows, row)] == m; }
      }
    }
    DistinctAppend(incoming, references);
    DistinctAppend(incoming + references, others);
  }

  lemma OtherTitle(titles: seq<Str>, rows: seq<Row>, row: Row)
    requires titles != [] && Distinct(titles) && Distinct(ImportIds(rows))
    requires row in rows && row.content.title in titles[1..]
    ensures row.importId !in IncomingIds(rows, titles[0]) && row.content.title in titles
  {
    IncomingAre(rows, titles[0]);
    assert titles == [titles[0]] + titles[1..];
    assert titles[0] !in titles[1..];
    forall other | other in rows && other.importId == row.importId ensures other == row {
      SameRow(rows, other, row);
    }
  }

  lemma SameRow(rows: seq<Row>, r: Row, r': Row)
    requires Distinct(ImportIds(rows)) && r in rows && r' in rows && r.importId == r'.importId
    ensures r == r'
  {
    var i, j := IndexOf(rows, r), IndexOf(rows, r');
    assert ImportIds(rows)[i] == ImportIds(rows)[j];
  }

  /**
   Over all candidates nothing is listed twice: a flagged import id lies in exactly one candidate, once, and a
   reference to an existing entry is neither an import id of the envelope nor a reference already given out.
   */
  lemma CandidatesPartition(rows: seq<Row>, matches: seq<Match>, importIds: seq<Str>, h: TitleHashes, a: Analysis)
    requires Distinct(ImportIds(rows)) && forall id :: id in ImportIds(rows) ==> id in importIds
    requires Analyze(rows, matches, importIds, h) == Some(a)
    ensures Distinct(AllMembers(a.candidates))
    ensures forall id :: id in importIds ==> (id in AllMembers(a.candidates) <==> id in a.flagged)
    ensures forall m :: m in AllMembers(a.candidates) ==> m in a.flagged || (m !in importIds && IsImportId(m))
    ensures a.candidates == [] <==> a.flagged == {}
  {
    var titles := Sort(Dedup(Titles(rows)), Le);
    SortPermutes(Dedup(Titles(rows)), Le);
    SortMembers(Dedup(Titles(rows)), Le);
    PermutedDistinct(Dedup(Titles(rows)), titles);
    CandidatesAreApart(titles, rows, matches, h, AsSet(importIds));
    var members := AllMembers(a.candidates);
    forall row | row in rows ensures row.content.title in titles {
      assert Titles(rows)[IndexOf(rows, row)] == row.content.title;
    }
    forall id | id in a.flagged ensures id in members {
      var row :| row in rows && IsDuplicated(rows, matches, row.content.title) && row.importId == id;
    }
    forall m | m in members ensures m in a.flagged || (m !in importIds && IsImportId(m)) {
      assert MemberOf(rows, titles, matches, AsSet(importIds), m);
    }
    if a.flagged == {} {
      forall title | title in titles ensures !IsDuplicated(rows, matches, title) {
        assert title in Titles(rows);
        var row := rows[IndexOf(Titles(rows), title)];
        assert IsDuplicated(rows, matches, title) ==> row.importId in a.flagged;
      }
      NothingDuplicated(titles, rows, matches, h, AsSet(importIds));
    }
  }

  lemma {:induction false} NothingDuplicated(
    titles: seq<Str>, rows: seq<Row>, matches: seq<Match>, h: TitleHashes, occupied: set<Str>)
    requires forall title :: title in titles ==> !IsDuplicated(rows, matches, title)
    ensures Candidates(titles, rows, matches, h, occupied) == Some([])
    decreases |titles|
  {
    if titles != [] { NothingDuplicated(titles[1..], rows, matches, h, occupied); }
  }

  // ---- The order of rows and matches does not count ----

  lemma SameSorted(a: seq<Str>, b: seq<Str>)
    requires Distinct(a) && Distinct(b) && forall x :: x in a <==> x in b
    ensures Sort(a, Le) == Sort(b, Le)
  {
    TextOrder();
    DistinctSame(a, b);
    SortCanonical(a, b, Le);
  }

  lemma SameGroups(rows: seq<Row>, rows': seq<Row>, matches: seq<Match>, matches': seq<Match>, title: Str)
    requires Distinct(ImportIds(rows)) && Distinct(ImportIds(rows'))
    requires (forall r :: r in rows <==> r in rows') && forall m :: m in matches <==> m in matches'
    ensures IncomingIds(rows, title) == IncomingIds(rows', title)
    ensures ExistingIds(rows, matches, title) == ExistingIds(rows', matches', title)
  {
    GroupIds(rows, title);
    GroupIds(rows', title);
    var group, group' := WithTitle(rows, title), WithTitle(rows', title);
    assert forall r :: r in group <==> r in group';
    forall id ensures id in ImportIds(group) <==> id in ImportIds(group') {
      if id in ImportIds(group) {
        var r := group[IndexOf(ImportIds(group), id)];
        assert r in group';
        assert ImportIds(group')[IndexOf(group', r)] == id;
      }
      if id in ImportIds(group') {
        var r := group'[IndexOf(ImportIds(group'), id)];
        assert r in group;
        assert ImportIds(group)[IndexOf(group, r)] == id;
      }
    }
    SameSorted(ImportIds(group), ImportIds(group'));
    assert Represented(group) == Represented(group');
    SameSorted(
      Excluding(Dedup(IdsTitled(matches, title)), Represented(group)),
      Excluding(Dedup(IdsTitled(matches', title)), Represented(group')));
  }

  lemma {:induction false} SameCandidates(
    titles: seq<Str>, rows: seq<Row>, rows': seq<Row>, matches: seq<Match>, matches': seq<Match>,
    h: TitleHashes, occupied: set<Str>)
    requires Distinct(ImportIds(rows)) && Distinct(ImportIds(rows'))
    requires (forall r :: r in rows <==> r in rows') && forall m :: m in matches <==> m in matches'
    ensures Candidates(titles, rows, matches, h, occupied) == Candidates(titles, rows', matches', h, occupied)
    decreases |titles|
  {
    if titles != [] {
      SameGroups(rows, rows', matches, matches', titles[0]);
      SameCandidates(titles[1..], rows, rows', matches, matches', h, occupied);
      var references := References(ExistingIds(rows, matches, titles[0]), h, occupied);
      if references.Some? {
        SameCandidates(titles[1..], rows, rows', matches, matches', h, occupied + AsSet(references.value));
      }
    }
  }

  /** The analysis is the same however the envelope orders its rows and the database its answer. */
  lemma AnalysisIgnoresOrder(
    rows: seq<Row>, rows': seq<Row>, matches: seq<Match>, matches': seq<Match>,
    ids: seq<Str>, ids': seq<Str>, h: TitleHashes)
    requires Distinct(ImportIds(rows)) && Distinct(ImportIds(rows'))
    requires (forall r :: r in rows <==> r in rows') && (forall m :: m in matches <==> m in matches')
    requires forall id :: id in ids <==> id in ids'
    ensures Analyze(rows, matches, ids, h) == Analyze(rows', matches', ids', h)
  {
    forall row | row in rows ensures row.content.title in Titles(rows') { TitleListed(rows', row); }
    forall row | row in rows' ensures row.content.title in Titles(rows) { TitleListed(rows, row); }
    SameSorted(Dedup(Titles(rows)), Dedup(Titles(rows')));
    assert AsSet(ids) == AsSet(ids');
    SameCandidates(Sort(Dedup(Titles(rows)), Le), rows, rows', matches, matches', h, AsSet(ids));
    SameFlagged(rows, rows', matches, matches');
  }

  lemma SameFlagged(rows: seq<Row>, rows': seq<Row>, matches: seq<Match>, matches': seq<Match>)
    requires Distinct(ImportIds(rows)) && Distinct(ImportIds(rows'))
    requires (forall r :: r in rows <==> r in rows') && (forall m :: m in matches <==> m in matches')
    ensures Flagged(rows, matches) == Flagged(rows', matches')
  {
    forall row | row in rows
      ensures IsDuplicated(rows, matches, row.content.title) == IsDuplicated(rows', matches', row.content.title)
    {
      SameGroups(rows, rows', matches, matches', row.content.title);
    }
    assert Flagged(rows, matches) == Flagged(rows', matches');
  }

  lemma TitleListed(rows: seq<Row>, row: Row)
    requires row in rows
    ensures row.content.title in Titles(rows)
  {
    assert Titles(rows)[IndexOf(rows, row)] == row.content.title;
  }

  // ---- The loops of the analysis ----

  /** The titles of the rows, each once, and the rows of each. */
  ghost predicate GroupsRows(rows: seq<Row>, order: seq<Str>, groups: map<Str, seq<Row>>) {
    && Distinct(order)
    && (forall t :: t in order <==> t in groups)
    && forall t :: WithTitle(rows, t) == if t in groups then groups[t] else []
  }

  method GroupRows(rows: seq<Row>) returns (order: seq<Str>, groups: map<Str, seq<Row>>)
    ensures GroupsRows(rows, order, groups)
    ensures forall t :: t in groups ==> groups[t] != []
  {
    order, groups := [], map[];
    for i := 0 to |rows|
      invariant GroupsRows(rows[..i], order, groups)
      invariant forall t :: t in groups ==> groups[t] != []
    {
      var title := rows[i].content.title;
      GroupGrows(rows[..i], rows[i], groups);
      assert rows[..i + 1] == rows[..i] + [rows[i]];
      if title !in groups { order := order + [title]; }
      groups := groups[title := (if title in groups then groups[title] else []) + [rows[i]]];
    }
    assert rows[..|rows|] == rows;
  }

  lemma WithTitleSnoc(rows: seq<Row>, row: Row, title: Str)
    ensures WithTitle(rows + [row], title)
      == WithTitle(rows, title) + (if row.content.title == title then [row] else [])
  {
    assert (rows + [row])[..|rows|] == rows;
  }

  lemma GroupGrows(rows: seq<Row>, row: Row, groups: map<Str, seq<Row>>)
    requires forall t :: WithTitle(rows, t) == if t in groups then groups[t] else []
    ensures var title := row.content.title;
      var groups' := groups[title := (if title in groups then groups[title] else []) + [row]];
      forall t :: WithTitle(rows + [row], t) == if t in groups' then groups'[t] else []
  {
    var title := row.content.title;
    forall t ensures WithTitle(rows + [row], t) == WithTitle(rows, t) + (if title == t then [row] else []) {
      WithTitleSnoc(rows, row, t);
    }
  }

  lemma IdsTitledSnoc(matches: seq<Match>, m: Match, title: Str)
    ensures IdsTitled(matches + [m], title)
      == IdsTitled(matches, title) + (if m.title == title then [m.catalogId] else [])
  {
    assert (matches + [m])[..|matches|] == matches;
  }

  lemma GroupMembers(rows: seq<Row>, order: seq<Str>, groups: map<Str, seq<Row>>)
    requires GroupsRows(rows, order, groups) && forall t :: t in groups ==> groups[t] != []
    ensures forall t :: t in order <==> t in Titles(rows)
  {
    forall t | t in Titles(rows) ensures t in order {
      assert rows[IndexOf(Titles(rows), t)] in WithTitle(rows, t);
    }
    forall t | t in order ensures t in Titles(rows) {
      var row := WithTitle(rows, t)[0];
      assert row in WithTitle(rows, t);
      TitleListed(rows, row);
    }
  }

  ghost predicate GroupsMatches(matches: seq<Match>, groups: map<Str, seq<Str>>) {
    forall t :: IdsTitled(matches, t) == if t in groups then groups[t] else []
  }

  method GroupMatches(matches: seq<Match>) returns (groups: map<Str, seq<Str>>)
    ensures GroupsMatches(matches, groups)
  {
    groups := map[];
    for i := 0 to |matches|
      invariant GroupsMatches(matches[..i], groups)
    {
      MatchGrows(matches[..i], matches[i], groups);
      assert matches[..i + 1] == matches[..i] + [matches[i]];
      var title := matches[i].title;
      groups := groups[title := (if title in groups then groups[title] else []) + [matches[i].catalogId]];
    }
    assert matches[..|matches|] == matches;
  }

  lemma MatchGrows(matches: seq<Match>, m: Match, groups: map<Str, seq<Str>>)
    requires GroupsMatches(matches, groups)
    ensures GroupsMatches(
      matches + [m], groups[m.title := (if m.title in groups then groups[m.title] else []) + [m.catalogId]])
  {
    forall t
      ensures IdsTitled(matches + [m], t) == IdsTitled(matches, t) + (if m.title == t then [m.catalogId] else [])
    {
      IdsTitledSnoc(matches, m, t);
    }
  }

  method ReferTo(ids: seq<Str>, h: TitleHashes, occupied: set<Str>) returns (references: seq<Str>, occupied': set<Str>)
    requires References(ids, h, occupied).Some?
    ensures References(ids, h, occupied) == Some(references) && occupied' == occupied + AsSet(references)
  {
    references, occupied' := [], occupied;
    ghost var all := References(ids, h, occupied).value;
    assert ids[0..] == ids;
    for i := 0 to |ids|
      invariant References(ids[i..], h, occupied').Some?
      invariant all == references + References(ids[i..], h, occupied').value
      invariant occupied' == occupied + AsSet(references)
    {
      assert ids[i..][1..] == ids[i + 1..];
      var reference := MemberReference(h, ids[i], occupied');
      ghost var rest := References(ids[i + 1..], h, occupied' + {reference}).value;
      assert References(ids[i..], h, occupied').value == [reference] + rest;
      assert references + ([reference] + rest) == references + [reference] + rest;
      references, occupied' := references + [reference], occupied' + {reference};
    }
    assert ids[|ids|..] == [] && all == references;
  }

  method AnalyzeTitleDuplicates(rows: seq<Row>, matches: seq<Match>, importIds: seq<Str>, h: TitleHashes)
    returns (a: Analysis)
    requires Analyze(rows, matches, importIds, h).Some?
    ensures Analyze(rows, matches, importIds, h) == Some(a)
  {
    var order, rowsByTitle := GroupRows(rows);
    var idsByTitle := GroupMatches(matches);
    GroupMembers(rows, order, rowsByTitle);
    SameSorted(order, Dedup(Titles(rows)));
    SortMembers(order, Le);
    var candidates, flagged :=
      CollectCandidates(Sort(order, Le), rows, matches, rowsByTitle, idsByTitle, AsSet(importIds), h);
    AllTitlesFlag(rows, matches, Sort(order, Le));
    a := Analysis(candidates, flagged);
  }

  method CollectCandidates(
    titles: seq<Str>, ghost rows: seq<Row>, ghost matches: seq<Match>,
    rowsByTitle: map<Str, seq<Row>>, idsByTitle: map<Str, seq<Str>>, importIds: set<Str>, h: TitleHashes)
    returns (candidates: seq<Candidate>, flagged: set<Str>)
    requires forall t :: t in titles ==> t in rowsByTitle && rowsByTitle[t] == WithTitle(rows, t)
    requires GroupsMatches(matches, idsByTitle)
    requires Candidates(titles, rows, matches, h, importIds).Some?
    ensures Candidates(titles, rows, matches, h, importIds) == Some(candidates)
    ensures flagged == FlaggedIn(rows, matches, titles)
  {
    candidates, flagged := [], {};
    var occupied := importIds;
    ghost var all := Candidates(titles, rows, matches, h, occupied).value;
    assert titles[0..] == titles;
    for k := 0 to |titles|
      invariant Remaining(titles[k..], rows, matches, h, occupied, candidates, all)
      invariant flagged == FlaggedIn(rows, matches, titles[..k])
    {
      var incoming, existing := GroupIdsOf(rows, matches, titles[k], rowsByTitle, idsByTitle);
      FlaggedGrows(rows, matches, titles, k);
      assert titles[k..][1..] == titles[k + 1..];
      if |incoming| + |existing| >= 2 {
        flagged := flagged + AsSet(incoming);
        NextSettles(titles[k..], rows, matches, h, occupied, candidates, all);
        var references, occupied' := ReferTo(existing, h, occupied);
        var candidate := Candidate(h.candidate(CandidateKey(titles[k], incoming, existing)), incoming + references);
        CandidateStep(titles[k..], rows, matches, h, occupied, references, candidates, all);
        candidates, occupied := candidates + [candidate], occupied';
      } else {
        NextIsSkipped(titles[k..], rows, matches, h, occupied, candidates, all);
      }
    }
    assert titles[..|titles|] == titles && titles[|titles|..] == [];
    NoneRemain(rows, matches, h, occupied, candidates, all);
  }

  method GroupIdsOf(
    ghost rows: seq<Row>, ghost matches: seq<Match>, title: Str,
    rowsByTitle: map<Str, seq<Row>>, idsByTitle: map<Str, seq<Str>>) returns (incoming: seq<Str>, existing: seq<Str>)
    requires title in rowsByTitle && rowsByTitle[title] == WithTitle(rows, title) && GroupsMatches(matches, idsByTitle)
    ensures incoming == IncomingIds(rows, title) && existing == ExistingIds(rows, matches, title)
  {
    var group := rowsByTitle[title];
    incoming := Sort(ImportIds(group), Le);
    var matching := if title in idsByTitle then idsByTitle[title] else [];
    existing := Sort(Excluding(Dedup(matching), Represented(group)), Le);
  }

  /** The candidates already pushed and those still to come make up the whole list. */
  ghost predicate Remaining(
    titles: seq<Str>, rows: seq<Row>, matches: seq<Match>, h: TitleHashes, occupied: set<Str>,
    pushed: seq<Candidate>, all: seq<Candidate>)
  {
    && Candidates(titles, rows, matches, h, occupied).Some?
    && all == pushed + Candidates(titles, rows, matches, h, occupied).value
  }

  lemma CandidateStep(
    titles: seq<Str>, rows: seq<Row>, matches: seq<Match>, h: TitleHashes, occupied: set<Str>, references: seq<Str>,
    pushed: seq<Candidate>, all: seq<Candidate>)
    requires titles != [] && IsDuplicated(rows, matches, titles[0])
    requires References(ExistingIds(rows, matches, titles[0]), h, occupied) == Some(references)
    requires Remaining(titles, rows, matches, h, occupied, pushed, all)
    ensures var incoming, existing := IncomingIds(rows, titles[0]), ExistingIds(rows, matches, titles[0]);
      Remaining(titles[1..], rows, matches, h, occupied + AsSet(references),
        pushed + [Candidate(h.candidate(CandidateKey(titles[0], incoming, existing)), incoming + references)], all)
  {
    var incoming, existing := IncomingIds(rows, titles[0]), ExistingIds(rows, matches, titles[0]);
    var candidate := Candidate(h.candidate(CandidateKey(titles[0], incoming, existing)), incoming + references);
    var others := Candidates(titles[1..], rows, matches, h, occupied + AsSet(references));
    assert Candidates(titles, rows, matches, h, occupied) == Some([candidate] + others.value);
    Assoc(pushed, [candidate], others.value);
  }

  lemma NextSettles(
    titles: seq<Str>, rows: seq<Row>, matches: seq<Match>, h: TitleHashes, occupied: set<Str>, pushed: seq<Candidate>,
    all: seq<Candidate>)
    requires titles != [] && IsDuplicated(rows, matches, titles[0])
    requires Remaining(titles, rows, matches, h, occupied, pushed, all)
    ensures References(ExistingIds(rows, matches, titles[0]), h, occupied).Some?
  {
  }

  lemma NextIsSkipped(
    titles: seq<Str>, rows: seq<Row>, matches: seq<Match>, h: TitleHashes, occupied: set<Str>, pushed: seq<Candidate>,
    all: seq<Candidate>)
    requires titles != [] && !IsDuplicated(rows, matches, titles[0])
    requires Remaining(titles, rows, matches, h, occupied, pushed, all)
    ensures Remaining(titles[1..], rows, matches, h, occupied, pushed, all)
  {
  }

  lemma NoneRemain(
    rows: seq<Row>, matches: seq<Match>, h: TitleHashes, occupied: set<Str>, pushed: seq<Candidate>,
    all: seq<Candidate>)
    requires Remaining([], rows, matches, h, occupied, pushed, all)
    ensures all == pushed
  {
  }

  ghost function FlaggedIn(rows: seq<Row>, matches: seq<Match>, titles: seq<Str>): set<Str> {
    set row |
      row in rows && row.content.title in titles && IsDuplicated(rows, matches, row.content.title) :: row.importId
  }

  lemma AllTitlesFlag(rows: seq<Row>, matches: seq<Match>, titles: seq<Str>)
    requires forall t :: t in Titles(rows) ==> t in titles
    ensures FlaggedIn(rows, matches, titles) == Flagged(rows, matches)
  {
    forall row | row in rows ensures row.content.title in titles { TitleListed(rows, row); }
  }

  lemma FlaggedGrows(rows: seq<Row>, matches: seq<Match>, titles: seq<Str>, k: nat)
    requires k < |titles|
    ensures FlaggedIn(rows, matches, titles[..k + 1])
         == FlaggedIn(rows, matches, titles[..k])
            + (if IsDuplicated(rows, matches, titles[k]) then AsSet(IncomingIds(rows, titles[k])) else {})
  {
    var group := WithTitle(rows, titles[k]);
    SortMembers(ImportIds(group), Le);
    assert titles[..k + 1] == titles[..k] + [titles[k]];
    forall id | id in IncomingIds(rows, titles[k])
      ensures exists row :: row in rows && row.content.title == titles[k] && row.importId == id
    {
      assert group[IndexOf(ImportIds(group), id)] in group;
    }
    forall row | row in rows && row.content.title == titles[k] ensures row.importId in IncomingIds(rows, titles[k]) {
      assert ImportIds(group)[IndexOf(group, row)] == row.importId;
    }
  }
}
