/** What one duplicate candidate is: a title that is shared, with all who share it. */
module TitleGroups {
  import opened Text
  import opened Wrappers
  import opened Sorting
  import opened CatalogModel
  import opened TitleDuplicates

  /** The import ids of the rows with a title. */
  ghost function Sharing(rows: seq<Row>, title: Str): set<Str> {
    set row | row in rows && row.content.title == title :: row.importId
  }

  /** The entries that have a title, as far as no row of that title targets them. */
  ghost function Unclaimed(rows: seq<Row>, matches: seq<Match>, title: Str): set<Str> {
    set m | m in matches && m.title == title && IsUnclaimed(rows, title, m.catalogId) :: m.catalogId
  }

  ghost predicate IsUnclaimed(rows: seq<Row>, title: Str, id: Str) {
    forall row :: row in rows && row.content.title == title ==> row.catalogId != Some(id)
  }

  /**
   The candidate lists, once each, the import ids of all rows with the title, and then one reference for each entry with
   the title that none of these rows targets; there are at least two members.
   */
  ghost predicate IsGroupOf(
    rows: seq<Row>, matches: seq<Match>, importIds: set<Str>, c: Candidate, title: Str)
  {
    && Distinct(c.members) && |c.members| >= 2
    && (forall id :: id in importIds ==> (id in c.members <==> id in Sharing(rows, title)))
    && |c.members| == |Sharing(rows, title)| + |Unclaimed(rows, matches, title)|
  }

  lemma {:induction false} DistinctIsSet(s: seq<Str>)
    requires Distinct(s)
    ensures |AsSet(s)| == |s|
  {
    if s == [] {
      assert AsSet(s) == {};
    } else {
      DistinctIsSet(s[1..]);
      assert s == [s[0]] + s[1..];
      assert AsSet(s) == {s[0]} + AsSet(s[1..]) && s[0] !in AsSet(s[1..]);
    }
  }

  lemma ExistingAre(rows: seq<Row>, matches: seq<Match>, title: Str)
    ensures Distinct(ExistingIds(rows, matches, title))
    ensures AsSet(ExistingIds(rows, matches, title)) == Unclaimed(rows, matches, title)
  {
    var group := WithTitle(rows, title);
    var existing := Excluding(Dedup(IdsTitled(matches, title)), Represented(group));
    SortPermutes(existing, Le);
    PermutedDistinct(existing, ExistingIds(rows, matches, title));
    SortMembers(existing, Le);
    forall id ensures id in existing <==> id in Unclaimed(rows, matches, title) {
      if id in Unclaimed(rows, matches, title) {
        var m :| m in matches && m.title == title && IsUnclaimed(rows, title, m.catalogId) && m.catalogId == id;
        assert Match(title, id) in matches;
      }
      if id in existing { assert Match(title, id) in matches && IsUnclaimed(rows, title, id); }
    }
  }

  lemma SharingAre(rows: seq<Row>, title: Str)
    requires Distinct(ImportIds(rows))
    ensures AsSet(IncomingIds(rows, title)) == Sharing(rows, title)
  {
    IncomingAre(rows, title);
  }

  lemma MembersAreGroup(
    rows: seq<Row>, matches: seq<Match>, importIds: set<Str>, h: TitleHashes, occupied: set<Str>, title: Str,
    references: seq<Str>, id: Str)
    requires Distinct(ImportIds(rows)) && AsSet(ImportIds(rows)) <= importIds <= occupied
    requires IsDuplicated(rows, matches, title)
    requires References(ExistingIds(rows, matches, title), h, occupied) == Some(references)
    ensures IsGroupOf(rows, matches, importIds, Candidate(id, IncomingIds(rows, title) + references), title)
  {
    var incoming, existing := IncomingIds(rows, title), ExistingIds(rows, matches, title);
    IncomingAre(rows, title);
    SharingAre(rows, title);
    ExistingAre(rows, matches, title);
    ReferencesAreFresh(existing, h, occupied);
    DistinctIsSet(incoming);
    DistinctIsSet(existing);
    forall x | x in incoming ensures x in importIds {
      var row :| row in rows && row.importId == x && row.content.title == title;
      assert ImportIds(rows)[IndexOf(rows, row)] == x;
      assert x in AsSet(ImportIds(rows));
    }
    DistinctAppend(incoming, references);
    forall x | x in importIds ensures x in incoming + references <==> x in Sharing(rows, title) {
      assert x in AsSet(incoming) <==> x in Sharing(rows, title);
    }
  }

  /** The titles of the candidates, in their order. */
  ghost function Shared(titles: seq<Str>, rows: seq<Row>, matches: seq<Match>): seq<Str> {
    if titles == [] then []
    else (if IsDuplicated(rows, matches, titles[0]) then [titles[0]] else []) + Shared(titles[1..], rows, matches)
  }

  ghost predicate AreGroups(
    rows: seq<Row>, matches: seq<Match>, importIds: set<Str>, candidates: seq<Candidate>, titles: seq<Str>)
  {
    && |candidates| == |titles|
    && forall i :: 0 <= i < |candidates| ==> IsGroupOf(rows, matches, importIds, candidates[i], titles[i])
  }

  lemma GroupsPrepend(
    rows: seq<Row>, matches: seq<Match>, importIds: set<Str>, c: Candidate, title: Str, candidates: seq<Candidate>,
    titles: seq<Str>)
    requires IsGroupOf(rows, matches, importIds, c, title) && AreGroups(rows, matches, importIds, candidates, titles)
    ensures AreGroups(rows, matches, importIds, [c] + candidates, [title] + titles)
  {
  }

  lemma {:induction false} CandidatesAreGroups(
    titles: seq<Str>, rows: seq<Row>, matches: seq<Match>, importIds: set<Str>, h: TitleHashes, occupied: set<Str>)
    requires Distinct(ImportIds(rows)) && AsSet(ImportIds(rows)) <= importIds <= occupied
    requires Candidates(titles, rows, matches, h, occupied).Some?
    ensures AreGroups(
      rows, matches, importIds, Candidates(titles, rows, matches, h, occupied).value, Shared(titles, rows, matches))
    decreases |titles|
  {
    if titles == [] {
    } else if !IsDuplicated(rows, matches, titles[0]) {
      CandidatesAreGroups(titles[1..], rows, matches, importIds, h, occupied);
    } else {
      var id, references := FirstCandidate(titles, rows, matches, h, occupied);
      var occupied' := occupied + AsSet(references);
      CandidatesAreGroups(titles[1..], rows, matches, importIds, h, occupied');
      MembersAreGroup(rows, matches, importIds, h, occupied, titles[0], references, id);
      GroupsPrepend(
        rows, matches, importIds, Candidate(id, IncomingIds(rows, titles[0]) + references), titles[0],
        Candidates(titles[1..], rows, matches, h, occupied').value, Shared(titles[1..], rows, matches));
    }
  }

  lemma {:induction false} SharedAre(titles: seq<Str>, rows: seq<Row>, matches: seq<Match>)
    requires Distinct(titles)
    ensures Distinct(Shared(titles, rows, matches))
    ensures forall title :: title in Shared(titles, rows, matches) <==>
      title in titles && IsDuplicated(rows, matches, title)
    decreases |titles|
  {
    if titles != [] {
      SharedAre(titles[1..], rows, matches);
      assert titles == [titles[0]] + titles[1..];
    }
  }

  /**
   There is one candidate for each title that rows share with one another or with entries they do not target, and it
   lists all of them and nobody else.
   */
  lemma OneCandidateForEachTitle(
    rows: seq<Row>, matches: seq<Match>, importIds: seq<Str>, h: TitleHashes, a: Analysis) returns (titles: seq<Str>)
    requires Distinct(ImportIds(rows)) && forall id :: id in ImportIds(rows) ==> id in importIds
    requires Analyze(rows, matches, importIds, h) == Some(a)
    ensures Distinct(titles) && |titles| == |a.candidates|
    ensures forall title :: title in titles <==>
      exists row :: row in rows && row.content.title == title && SharesTitle(rows, matches, row)
    ensures AreGroups(rows, matches, AsSet(importIds), a.candidates, titles)
  {
    var all := Sort(Dedup(Titles(rows)), Le);
    SortPermutes(Dedup(Titles(rows)), Le);
    SortMembers(Dedup(Titles(rows)), Le);
    PermutedDistinct(Dedup(Titles(rows)), all);
    CandidatesAreGroups(all, rows, matches, AsSet(importIds), h, AsSet(importIds));
    titles := Shared(all, rows, matches);
    SharedAre(all, rows, matches);
    forall title
      ensures title in titles <==>
        exists row :: row in rows && row.content.title == title && SharesTitle(rows, matches, row)
    {
      SharedIsShared(rows, matches, title);
    }
  }

  lemma SharedIsShared(rows: seq<Row>, matches: seq<Match>, title: Str)
    requires Distinct(ImportIds(rows))
    ensures title in Titles(rows) && IsDuplicated(rows, matches, title)
      <==> exists row :: row in rows && row.content.title == title && SharesTitle(rows, matches, row)
  {
    forall row | row in rows && row.content.title == title
      ensures title in Titles(rows)
      ensures SharesTitle(rows, matches, row) <==> IsDuplicated(rows, matches, title)
    {
      TitleListed(rows, row);
      FlaggedExactly(rows, matches, row);
      SameImportId(rows, matches, row);
    }
    if title in Titles(rows) { assert rows[IndexOf(Titles(rows), title)] in rows; }
  }
}
