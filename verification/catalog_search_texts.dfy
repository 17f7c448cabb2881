/** Which texts of a record a search finds, and as what, said of the texts themselves rather than of the document. */
module CatalogSearchTexts {
  import opened Text
  import opened Wrappers
  import opened Sorting
  import opened CatalogModel
  import opened CatalogSearch
  import opened CatalogSearchIndex

  // ---- Words ----

  predicate IsWord(s: Str) { s != [] && forall i :: 0 <= i < |s| ==> !IsSpace(s[i]) }

  lemma {:induction false} WordLengthOfWord(s: Str, tail: Str)
    requires forall i :: 0 <= i < |s| ==> !IsSpace(s[i])
    requires tail == [] || IsSpace(tail[0])
    ensures WordLength(s + tail) == |s|
  {
    if s == [] {
      assert s + tail == tail;
    } else {
      assert (s + tail)[1..] == s[1..] + tail;
      WordLengthOfWord(s[1..], tail);
    }
  }

  /** A word is split into itself, and trimming leaves it alone. */
  lemma WordIsItsWord(w: Str)
    requires IsWord(w)
    ensures Words(w) == [w] && Trim(w) == w
  {
    WordLengthOfWord(w, []);
    assert w + [] == w && w[|w|..] == [] && w[..|w|] == w;
    TrimFixes(w);
  }

  lemma WordsOfHead(head: Str, tail: Str)
    requires IsWord(head) && (tail == [] || IsSpace(tail[0]))
    ensures Words(head + tail) == [head] + Words(tail)
  {
    WordLengthOfWord(head, tail);
    assert (head + tail)[..|head|] == head && (head + tail)[|head|..] == tail;
  }

  /** Splitting at a space splits into the words of the two sides. */
  lemma {:induction false} WordsAtSpace(a: Str, space: Unit, b: Str)
    requires IsSpace(space)
    ensures Words(a + ([space] + b)) == Words(a) + Words(b)
    decreases |a|
  {
    if a == [] {
      assert a + ([space] + b) == [space] + b && ([space] + b)[1..] == b;
    } else if IsSpace(a[0]) {
      assert (a + ([space] + b))[1..] == a[1..] + ([space] + b);
      WordsAtSpace(a[1..], space, b);
    } else {
      var head, tail := a[..WordLength(a)], a[WordLength(a)..];
      assert head[0] == a[0];
      WordsAtSpace(tail, space, b);
      WordsOfHead(head, tail);
      WordsOfHead(head, tail + ([space] + b));
      HeadFirst(a, head, tail, [space] + b, Words(tail), Words(b));
    }
  }

  lemma HeadFirst(a: Str, head: Str, tail: Str, rest: Str, some: seq<Str>, more: seq<Str>)
    requires a == head + tail
    ensures a + rest == head + (tail + rest) && [head] + (some + more) == [head] + some + more
  {
  }

  lemma {:induction false} WordsAreWords(s: Str, w: Str)
    requires w in Words(s)
    ensures IsWord(w)
    decreases |s|
  {
    if IsSpace(s[0]) {
      WordsAreWords(s[1..], w);
    } else {
      var n := WordLength(s);
      if w != s[..n] { WordsAreWords(s[n..], w); }
    }
  }

  // ---- Words in joined texts ----

  ghost predicate SomeContains(texts: seq<Str>, w: Str) {
    exists i :: 0 <= i < |texts| && Contains(texts[i], w)
  }

  lemma UnitsOfOccurrence(text: Str, w: Str, i: nat, k: nat)
    requires OccursAt(text, w, i)
    ensures i <= k < i + |w| ==> text[k] == w[k - i]
  {
    if i <= k < i + |w| { assert text[i..i + |w|][k - i] == text[k]; }
  }

  /** A word that occurs in a text occurs on one side of any space in it. */
  lemma ContainsAside(a: Str, space: Unit, b: Str, w: Str)
    requires IsWord(w) && IsSpace(space)
    ensures Contains(a + [space] + b, w) <==> Contains(a, w) || Contains(b, w)
  {
    var s := a + [space] + b;
    if Contains(a, w) { ContainsWithin(s, [], a, [space] + b, w); }
    if Contains(b, w) { ContainsWithin(s, a + [space], b, [], w); }
    if i :| OccursAt(s, w, i) {
      UnitsOfOccurrence(s, w, i, |a|);
      assert s[|a|] == space;
      if i + |w| <= |a| {
        assert a[i..i + |w|] == s[i..i + |w|];
        assert OccursAt(a, w, i);
      } else if i > |a| {
        var k := i - |a| - 1;
        assert b[k..k + |w|] == s[i..i + |w|];
        assert OccursAt(b, w, k);
      }
    }
  }

  lemma {:induction false} JoinContainsExactly(texts: seq<Str>, w: Str)
    requires IsWord(w)
    ensures Contains(Join(texts, [LF]), w) <==> SomeContains(texts, w)
    decreases |texts|
  {
    if texts == [] {
    } else if |texts| == 1 {
      assert Join(texts, [LF]) == texts[0];
      if Contains(texts[0], w) { assert SomeContains(texts, w); }
    } else {
      JoinContainsExactly(texts[1..], w);
      ContainsAside(texts[0], LF, Join(texts[1..], [LF]), w);
      if i :| 0 <= i < |texts| - 1 && Contains(texts[1..][i], w) { assert Contains(texts[i + 1], w); }
      if i :| 0 <= i < |texts| && Contains(texts[i], w) { if i > 0 { assert Contains(texts[1..][i - 1], w); } }
    }
  }

  lemma SomeContainsAppend(a: seq<Str>, b: seq<Str>, w: Str)
    ensures SomeContains(a + b, w) <==> SomeContains(a, w) || SomeContains(b, w)
  {
    if i :| 0 <= i < |a| && Contains(a[i], w) { assert Contains((a + b)[i], w); }
    if i :| 0 <= i < |b| && Contains(b[i], w) { assert Contains((a + b)[|a| + i], w); }
  }

  ghost predicate HasWord(text: Option<Str>, w: Str) {
    text.Some? && Contains(text.value, w)
  }

  ghost predicate SomeHas(texts: seq<Option<Str>>, w: Str) {
    exists i :: 0 <= i < |texts| && HasWord(texts[i], w)
  }

  lemma {:induction false} PresentContains(texts: seq<Option<Str>>, w: Str)
    ensures SomeContains(Present(texts), w) <==> SomeHas(texts, w)
    decreases |texts|
  {
    if texts != [] {
      PresentContains(texts[1..], w);
      var head := if texts[0].Some? then [texts[0].value] else [];
      SomeContainsAppend(head, Present(texts[1..]), w);
      if texts[0].Some? { assert SomeContains(head, w) <==> Contains(head[0], w); }
      if i :| 0 <= i < |texts| - 1 && HasWord(texts[1..][i], w) { assert HasWord(texts[i + 1], w); }
      if i :| 0 <= i < |texts| && HasWord(texts[i], w) { if i > 0 { assert HasWord(texts[1..][i - 1], w); } }
    }
  }

  // ---- What is searched ----

  ghost predicate InTitles(source: Source, w: Str) {
    Contains(source.title, w) || SomeContains(source.aliases, w)
  }

  ghost predicate InStructure(source: Source, w: Str) {
    SomeContains(source.contributors, w) || SomeHas(source.structured, w)
  }

  ghost predicate InBody(source: Source, w: Str) {
    HasWord(source.summary, w) || HasWord(source.description, w) || HasWord(source.transcription, w)
  }

  /** A normalisation that leaves text alone. */
  ghost predicate IsPlain(normalize: Str -> Str) {
    forall s :: normalize(s) == s
  }

  /** A normalisation that takes a text line by line. */
  ghost predicate IsLinewise(normalize: Str -> Str) {
    normalize([]) == [] && forall a, b :: normalize(a + [LF] + b) == normalize(a) + [LF] + normalize(b)
  }

  function EachPresent(normalize: Str -> Str, texts: seq<Option<Str>>): (r: seq<Option<Str>>)
    ensures |r| == |texts|
    ensures forall i :: 0 <= i < |r| ==>
      r[i] == if texts[i].Some? then Some(normalize(texts[i].value)) else None
  {
    seq(|texts|, i requires 0 <= i < |texts| => if texts[i].Some? then Some(normalize(texts[i].value)) else None)
  }

  /** The record with each of its texts normalised. */
  function Normalized(source: Source, normalize: Str -> Str): Source {
    var body := EachPresent(normalize, [source.summary, source.description, source.transcription]);
    Source(
      normalize(source.title), Each(normalize, source.aliases), Each(normalize, source.contributors), body[0], body[1],
      body[2], EachPresent(normalize, source.structured))
  }

  lemma {:induction false} JoinNormalizes(texts: seq<Str>, normalize: Str -> Str)
    requires IsLinewise(normalize)
    ensures normalize(Join(texts, [LF])) == Join(Each(normalize, texts), [LF])
    decreases |texts|
  {
    if |texts| > 1 {
      assert Each(normalize, texts)[1..] == Each(normalize, texts[1..]);
      JoinNormalizes(texts[1..], normalize);
      assert Join(texts, [LF]) == texts[0] + [LF] + Join(texts[1..], [LF]);
    }
  }

  lemma EachAppend(normalize: Str -> Str, a: seq<Str>, b: seq<Str>)
    ensures Each(normalize, a + b) == Each(normalize, a) + Each(normalize, b)
  {
  }

  lemma {:induction false} PresentNormalizes(texts: seq<Option<Str>>, normalize: Str -> Str)
    ensures Each(normalize, Present(texts)) == Present(EachPresent(normalize, texts))
    decreases |texts|
  {
    if texts != [] {
      PresentNormalizes(texts[1..], normalize);
      assert EachPresent(normalize, texts)[1..] == EachPresent(normalize, texts[1..]);
      EachAppend(normalize, if texts[0].Some? then [texts[0].value] else [], Present(texts[1..]));
    }
  }

  lemma TitlesSearched(source: Source, w: Str, normalize: Str -> Str)
    requires IsWord(w)
    ensures Contains(Project(source, normalize).titleAliasText, w) <==> InTitles(Normalized(source, normalize), w)
  {
    var n := Normalized(source, normalize);
    JoinContainsExactly([n.title] + n.aliases, w);
    SomeContainsAppend([n.title], n.aliases, w);
    assert SomeContains([n.title], w) <==> Contains([n.title][0], w);
  }

  lemma StructureSearched(source: Source, w: Str, normalize: Str -> Str)
    requires IsLinewise(normalize) && IsWord(w)
    ensures Contains(Project(source, normalize).structuredText, w) <==> InStructure(Normalized(source, normalize), w)
  {
    var n := Normalized(source, normalize);
    JoinNormalizes(source.contributors + Present(source.structured), normalize);
    EachAppend(normalize, source.contributors, Present(source.structured));
    PresentNormalizes(source.structured, normalize);
    JoinContainsExactly(n.contributors + Present(n.structured), w);
    SomeContainsAppend(n.contributors, Present(n.structured), w);
    PresentContains(n.structured, w);
  }

  /** The long texts of a record, joined and normalised. */
  function BodyOf(source: Source, normalize: Str -> Str): Str {
    normalize(Join(Present([source.summary, source.description, source.transcription]), [LF]))
  }

  lemma BodySearched(source: Source, w: Str, normalize: Str -> Str)
    requires IsLinewise(normalize) && IsWord(w)
    ensures Contains(BodyOf(source, normalize), w) <==> InBody(Normalized(source, normalize), w)
  {
    var n := Normalized(source, normalize);
    var given := [source.summary, source.description, source.transcription];
    var texts := [n.summary, n.description, n.transcription];
    assert EachPresent(normalize, given) == texts;
    JoinNormalizes(Present(given), normalize);
    PresentNormalizes(given, normalize);
    JoinContainsExactly(Present(texts), w);
    PresentContains(texts, w);
    if InBody(n, w) { assert HasWord(texts[0], w) || HasWord(texts[1], w) || HasWord(texts[2], w); }
  }

  lemma ThreeTexts(a: Str, b: Str, c: Str, w: Str)
    requires IsWord(w)
    ensures Contains(Join([a, b, c], [LF]), w) <==> Contains(a, w) || Contains(b, w) || Contains(c, w)
  {
    var cells := [a, b, c];
    JoinContainsExactly(cells, w);
    if SomeContains(cells, w) {
      assert Contains(cells[0], w) || Contains(cells[1], w) || Contains(cells[2], w);
    }
    if Contains(a, w) || Contains(b, w) || Contains(c, w) {
      assert Contains(cells[0], w) || Contains(cells[1], w) || Contains(cells[2], w);
    }
  }

  lemma AllSearched(source: Source, w: Str, normalize: Str -> Str)
    requires IsLinewise(normalize) && IsWord(w)
    ensures var n := Normalized(source, normalize);
      Contains(Project(source, normalize).combinedText, w) <==> InTitles(n, w) || InStructure(n, w) || InBody(n, w)
  {
    var d := Project(source, normalize);
    TitlesSearched(source, w, normalize);
    StructureSearched(source, w, normalize);
    BodySearched(source, w, normalize);
    ThreeTexts(d.titleAliasText, d.structuredText, BodyOf(source, normalize), w);
  }

  lemma ContainedMeans(text: Str, words: seq<Str>)
    ensures AllContained(text, words) <==> forall w :: w in words ==> Contains(text, w)
  {
    if forall w :: w in words ==> Contains(text, w) {
      forall i | 0 <= i < |words| ensures Contains(text, words[i]) { assert words[i] in words; }
    }
    if AllContained(text, words) {
      forall w | w in words ensures Contains(text, w) { assert Contains(text, words[IndexOf(words, w)]); }
    }
  }

  /** Every word occurs in the titles; in these or the structured texts; or anywhere. */
  ghost predicate AllInTitles(n: Source, words: seq<Str>) {
    forall w :: w in words ==> InTitles(n, w)
  }

  ghost predicate AllInStructure(n: Source, words: seq<Str>) {
    forall w :: w in words ==> InTitles(n, w) || InStructure(n, w)
  }

  ghost predicate AllInRecord(n: Source, words: seq<Str>) {
    forall w :: w in words ==> InTitles(n, w) || InStructure(n, w) || InBody(n, w)
  }

  lemma TiersSearched(source: Source, s: Str, normalize: Str -> Str)
    requires IsLinewise(normalize)
    ensures var d, n, words := Project(source, normalize), Normalized(source, normalize), Words(s);
      && (AllContained(d.titleAliasText, words) <==> AllInTitles(n, words))
      && (AllContained(StructuredOf(d), words) <==> AllInStructure(n, words))
      && (AllContained(d.combinedText, words) <==> AllInRecord(n, words))
  {
    var d, n, words := Project(source, normalize), Normalized(source, normalize), Words(s);
    forall w | w in words
      ensures Contains(d.titleAliasText, w) <==> InTitles(n, w)
      ensures Contains(StructuredOf(d), w) <==> InTitles(n, w) || InStructure(n, w)
      ensures Contains(d.combinedText, w) <==> InTitles(n, w) || InStructure(n, w) || InBody(n, w)
    {
      WordsAreWords(s, w);
      TitlesSearched(source, w, normalize);
      StructureSearched(source, w, normalize);
      AllSearched(source, w, normalize);
      ContainsAside(d.titleAliasText, LF, d.structuredText, w);
      JoinTwo(d.titleAliasText, d.structuredText);
    }
    ContainedMeans(d.titleAliasText, words);
    ContainedMeans(StructuredOf(d), words);
    ContainedMeans(d.combinedText, words);
  }

  lemma JoinTwo(a: Str, b: Str)
    ensures Join([a, b], [LF]) == a + [LF] + b
  {
    assert [a, b][1..] == [b];
  }

  /**
   Where the normalisation takes text line by line, what a record is found as is what its texts say: its title or an
   alias is the query, or is so once normalised; or every word of the normalised query occurs in its normalised title
   and aliases, in these and its contributors and structured values, or in these and its summary, description and
   transcription.
   */
  lemma FoundAs(source: Source, q: Str, normalize: Str -> Str)
    requires IsLinewise(normalize) && Trim(q) != []
    ensures var raw, n := Trim(q), Normalized(source, normalize);
      var words := Words(normalize(raw));
      Match(Project(source, normalize), q, normalize)
      == if source.title == raw then Some(TitleExact)
         else if raw in source.aliases then Some(AliasExact)
         else if n.title == normalize(raw) || normalize(raw) in n.aliases then Some(NormalizedExact)
         else if AllInTitles(n, words) then Some(TitleAliasPartial)
         else if AllInStructure(n, words) then Some(Structured)
         else if AllInRecord(n, words) then Some(Body)
         else None
  {
    TiersNest(source, Trim(q), normalize);
    MatchByTier(Project(source, normalize), q, normalize);
    TiersSearched(source, normalize(Trim(q)), normalize);
  }

  lemma PlainChangesNothing(source: Source, normalize: Str -> Str)
    requires IsPlain(normalize)
    ensures IsLinewise(normalize) && Normalized(source, normalize) == source
  {
    assert Each(normalize, source.aliases) == source.aliases;
    assert Each(normalize, source.contributors) == source.contributors;
    assert EachPresent(normalize, source.structured) == source.structured;
  }

  lemma MatchIsContained(d: Document, q: Str, normalize: Str -> Str, normalized: Str)
    requires normalized == normalize(Trim(q))
    ensures Match(d, q, normalize).Some? <==> Trim(q) != [] && AllContained(d.combinedText, Words(normalized))
  {
  }

  /** Where it leaves text alone, a record is found exactly if every word of the query occurs in one of its texts. */
  lemma FoundByWords(source: Source, q: Str, normalize: Str -> Str)
    requires IsPlain(normalize)
    ensures Match(Project(source, normalize), q, normalize).Some?
      <==> Trim(q) != [] && AllInRecord(source, Words(Trim(q)))
  {
    PlainChangesNothing(source, normalize);
    TiersSearched(source, Trim(q), normalize);
    MatchIsContained(Project(source, normalize), q, normalize, Trim(q));
  }

  /**
   A query of one word, where the normalisation leaves text alone: the record is found exactly if the word occurs in one
   of its texts, and as what says where.
   */
  lemma OneWordIsFound(source: Source, w: Str, normalize: Str -> Str)
    requires IsPlain(normalize) && IsWord(w)
    ensures Match(Project(source, normalize), w, normalize)
      == if source.title == w then Some(TitleExact)
         else if w in source.aliases then Some(AliasExact)
         else if InTitles(source, w) then Some(TitleAliasPartial)
         else if InStructure(source, w) then Some(Structured)
         else if InBody(source, w) then Some(Body)
         else None
  {
    WordIsItsWord(w);
    PlainChangesNothing(source, normalize);
    FoundAs(source, w, normalize);
    assert normalize(w) == w && w in [w];
  }

  // ---- What is searched of an entry ----

  const MIDDLE_DOT: Str := [0xB7]

  /** The word occurs in a field that has a text. */
  ghost predicate InField(entry: Entry, f: FieldName, w: Str)
    requires entry.Valid()
  {
    entry.fields[f].Value? && Contains(entry.fields[f].text, w)
  }

  /** The word occurs in a searched text of an entry, or is the dot between a dynasty and a date. */
  ghost predicate InEntry(e: SourceEntry, w: Str)
    requires e.entry.Valid()
  {
    || Contains(e.entry.title, w) || SomeContains(e.aliases, w) || SomeContains(e.contributors, w)
    || HasWord(e.entry.summary, w) || HasWord(e.entry.periodLabel, w)
    || (exists f :: f != HistoricalContext && f != ScholarlyResearch && InField(e.entry, f, w))
    || (w == MIDDLE_DOT && e.entry.periodLabel.None? && e.entry.fields[Dynasty].Value?
        && e.entry.fields[DateText].Value?)
  }

  lemma DerivedLabelHas(dynasty: Str, dateText: Str, w: Str)
    requires IsWord(w)
    ensures Contains(dynasty + [32, 0xB7, 32] + dateText, w)
      <==> Contains(dynasty, w) || Contains(dateText, w) || w == MIDDLE_DOT
  {
    assert dynasty + [32, 0xB7, 32] + dateText == dynasty + [32] + (MIDDLE_DOT + [32] + dateText);
    ContainsAside(dynasty, 32, MIDDLE_DOT + [32] + dateText, w);
    ContainsAside(MIDDLE_DOT, 32, dateText, w);
    if i :| OccursAt(MIDDLE_DOT, w, i) { assert |w| == 1 && w[0] == MIDDLE_DOT[0]; }
    if w == MIDDLE_DOT { assert OccursAt(MIDDLE_DOT, w, 0); }
  }

  lemma LabelHas(stored: Option<Str>, dynasty: Option<Str>, dateText: Option<Str>, w: Str)
    requires IsWord(w)
    ensures HasWord(PeriodLabelOf(stored, dynasty, dateText), w) || HasWord(dynasty, w) || HasWord(dateText, w)
      <==> HasWord(stored, w) || HasWord(dynasty, w) || HasWord(dateText, w)
           || (w == MIDDLE_DOT && stored.None? && dynasty.Some? && dateText.Some?)
  {
    if stored.None? && dynasty.Some? && dateText.Some? { DerivedLabelHas(dynasty.value, dateText.value, w); }
  }

  lemma FieldHas(entry: Entry, f: FieldName, w: Str)
    requires entry.Valid()
    ensures HasWord(FieldValue(entry, f), w) <==> InField(entry, f, w)
  {
  }

  /** The structured values of an entry. */
  lemma StructureOfEntry(e: SourceEntry, w: Str)
    requires e.entry.Valid()
    ensures var entry := e.entry;
      SomeHas(SourceOf(e).structured, w)
      <==> || HasWord(PeriodLabelOf(entry.periodLabel, FieldValue(entry, Dynasty), FieldValue(entry, DateText)), w)
           || InField(entry, Dynasty, w) || InField(entry, DateText, w) || InField(entry, ScriptStyle, w)
           || InField(entry, Province, w) || InField(entry, Prefecture, w) || InField(entry, County, w)
           || InField(entry, CurrentLocation, w) || InField(entry, CurrentCustodian, w)
  {
    var entry, texts := e.entry, SourceOf(e).structured;
    FieldHas(entry, Dynasty, w);
    FieldHas(entry, DateText, w);
    FieldHas(entry, ScriptStyle, w);
    FieldHas(entry, Province, w);
    FieldHas(entry, Prefecture, w);
    FieldHas(entry, County, w);
    FieldHas(entry, CurrentLocation, w);
    FieldHas(entry, CurrentCustodian, w);
    NineTexts(texts, w);
  }

  lemma NineTexts(texts: seq<Option<Str>>, w: Str)
    requires |texts| == 9
    ensures SomeHas(texts, w)
      <==> HasWord(texts[0], w) || HasWord(texts[1], w) || HasWord(texts[2], w) || HasWord(texts[3], w)
           || HasWord(texts[4], w) || HasWord(texts[5], w) || HasWord(texts[6], w) || HasWord(texts[7], w)
           || HasWord(texts[8], w)
  {
    if i :| 0 <= i < |texts| && HasWord(texts[i], w) {
      assert i == 0 || i == 1 || i == 2 || i == 3 || i == 4 || i == 5 || i == 6 || i == 7 || i == 8;
    }
  }

  lemma SearchedFields(entry: Entry, w: Str)
    requires entry.Valid()
    ensures (exists f :: f != HistoricalContext && f != ScholarlyResearch && InField(entry, f, w))
      <==> || InField(entry, Dynasty, w) || InField(entry, DateText, w) || InField(entry, ScriptStyle, w)
           || InField(entry, Province, w) || InField(entry, Prefecture, w) || InField(entry, County, w)
           || InField(entry, CurrentLocation, w) || InField(entry, CurrentCustodian, w)
           || InField(entry, Description, w) || InField(entry, Transcription, w)
  {
    if f :| f != HistoricalContext && f != ScholarlyResearch && InField(entry, f, w) {
      match f
      case Dynasty =>
      case DateText =>
      case Province =>
      case Prefecture =>
      case County =>
      case CurrentLocation =>
      case CurrentCustodian =>
      case Description =>
      case ScriptStyle =>
      case Transcription =>
      case _ =>
    }
  }

  lemma EntrySearched(e: SourceEntry, w: Str)
    requires e.entry.Valid() && IsWord(w)
    ensures InTitles(SourceOf(e), w) || InStructure(SourceOf(e), w) || InBody(SourceOf(e), w) <==> InEntry(e, w)
  {
    var entry := e.entry;
    StructureOfEntry(e, w);
    LabelHas(entry.periodLabel, FieldValue(entry, Dynasty), FieldValue(entry, DateText), w);
    FieldHas(entry, Dynasty, w);
    FieldHas(entry, DateText, w);
    FieldHas(entry, Description, w);
    FieldHas(entry, Transcription, w);
    SearchedFields(entry, w);
  }

  /**
   Where the normalisation leaves text alone, an entry is found exactly if every word of the query occurs in its title,
   an alias, a contributor, its summary, its period label or any field with a text other than its historical context and
   its research, or is the dot that stands between its dynasty and its date when it has no period label.
   */
  lemma EntryFoundByWords(e: SourceEntry, q: Str, normalize: Str -> Str)
    requires e.entry.Valid() && IsPlain(normalize)
    ensures Match(DocumentOf(e, normalize), q, normalize).Some?
      <==> Trim(q) != [] && forall w :: w in Words(Trim(q)) ==> InEntry(e, w)
  {
    PlainChangesNothing(SourceOf(e), normalize);
    FoundByWords(SourceOf(e), q, normalize);
    assert normalize(Trim(q)) == Trim(q);
    forall w | w in Words(Trim(q))
      ensures InTitles(SourceOf(e), w) || InStructure(SourceOf(e), w) || InBody(SourceOf(e), w) <==> InEntry(e, w)
    {
      WordsAreWords(Trim(q), w);
      EntrySearched(e, w);
    }
  }

  /** So every text of a searched field finds its entry. */
  lemma FieldTextFindsEntry(e: SourceEntry, f: FieldName, w: Str, normalize: Str -> Str)
    requires e.entry.Valid() && IsPlain(normalize) && IsWord(w) && InField(e.entry, f, w)
    requires f != HistoricalContext && f != ScholarlyResearch
    ensures Match(DocumentOf(e, normalize), w, normalize).Some?
  {
    WordIsItsWord(w);
    EntryFoundByWords(e, w, normalize);
  }
}
