/**
 Catalog search twice: the oracle that matches a document by substrings, and the generated SQL, whose filter is a
 conjunction of LIKE patterns and whose ranking is a CASE.
 */
module CatalogSearch {
  import opened Text
  import opened Wrappers
  import opened Sorting

  // ---- LIKE ----

  const PERCENT: Unit := 37
  const UNDERSCORE: Unit := 95
  const BACKSLASH: Unit := 92

  /** `text LIKE pattern ESCAPE '\'`. */
  predicate Like(text: Str, pattern: Str)
    decreases |text| + |pattern|
  {
    if pattern == [] then text == []
    else if pattern[0] == PERCENT then Like(text, pattern[1..]) || (text != [] && Like(text[1..], pattern))
    else if pattern[0] == UNDERSCORE then text != [] && Like(text[1..], pattern[1..])
    else if pattern[0] == BACKSLASH then
      |pattern| > 1 && text != [] && text[0] == pattern[1] && Like(text[1..], pattern[2..])
    else text != [] && text[0] == pattern[0] && Like(text[1..], pattern[1..])
  }

  predicate IsWild(u: Unit) { u == PERCENT || u == UNDERSCORE || u == BACKSLASH }

  /** `escapeSearchLike`. */
  function EscapeLike(s: Str): Str {
    if s == [] then []
    else (if IsWild(s[0]) then [BACKSLASH, s[0]] else [s[0]]) + EscapeLike(s[1..])
  }

  /** `%part%`, with the part escaped. */
  function Pattern(part: Str): Str {
    [PERCENT] + EscapeLike(part) + [PERCENT]
  }

  lemma {:induction false} PercentMatchesAll(text: Str)
    ensures Like(text, [PERCENT])
    decreases |text|
  {
    if text != [] { PercentMatchesAll(text[1..]); }
  }

  lemma PrefixStep(text: Str, part: Str)
    requires part != []
    ensures part <= text <==> text != [] && text[0] == part[0] && part[1..] <= text[1..]
  {
    if text != [] && text[0] == part[0] && part[1..] <= text[1..] {
      assert text == [text[0]] + text[1..] && part == [part[0]] + part[1..];
    }
  }

  lemma EscapeStep(part: Str, tail: Str)
    requires part != []
    ensures EscapeLike(part) + tail ==
      (if IsWild(part[0]) then [BACKSLASH, part[0]] else [part[0]]) + (EscapeLike(part[1..]) + tail)
  {
  }

  lemma LikeUnit(text: Str, u: Unit, rest: Str)
    ensures Like(text, (if IsWild(u) then [BACKSLASH, u] else [u]) + rest)
      <==> text != [] && text[0] == u && Like(text[1..], rest)
  {
    var pattern := (if IsWild(u) then [BACKSLASH, u] else [u]) + rest;
    if IsWild(u) {
      assert pattern[2..] == rest;
    } else {
      assert pattern[1..] == rest;
    }
  }

  lemma {:induction false} EscapedPrefix(text: Str, part: Str)
    ensures Like(text, EscapeLike(part) + [PERCENT]) <==> part <= text
    decreases |part|
  {
    if part == [] {
      assert EscapeLike(part) + [PERCENT] == [PERCENT];
      PercentMatchesAll(text);
    } else {
      EscapeStep(part, [PERCENT]);
      LikeUnit(text, part[0], EscapeLike(part[1..]) + [PERCENT]);
      PrefixStep(text, part);
      if text != [] { EscapedPrefix(text[1..], part[1..]); }
    }
  }

  lemma ContainsStep(text: Str, part: Str)
    ensures Contains(text, part) <==> part <= text || (text != [] && Contains(text[1..], part))
  {
    if Contains(text, part) {
      var i :| OccursAt(text, part, i);
      if i > 0 {
        assert text[1..][i - 1..i - 1 + |part|] == text[i..i + |part|];
        assert OccursAt(text[1..], part, i - 1);
      }
    }
    if part <= text { assert OccursAt(text, part, 0); }
    if text != [] && Contains(text[1..], part) {
      ContainsWithin(text, [text[0]], text[1..], [], part);
    }
  }

  /** A generated pattern matches exactly the texts that contain the part, whatever characters the part holds. */
  lemma {:induction false} PatternMatchesSubstring(text: Str, part: Str)
    ensures Like(text, Pattern(part)) <==> Contains(text, part)
    decreases |text|
  {
    var rest := EscapeLike(part) + [PERCENT];
    assert Pattern(part) == [PERCENT] + rest && Pattern(part)[1..] == rest;
    EscapedPrefix(text, part);
    ContainsStep(text, part);
    if text != [] { PatternMatchesSubstring(text[1..], part); }
  }

  // ---- Queries ----

  function WordLength(s: Str): (n: nat)
    ensures n <= |s| && forall i :: 0 <= i < n ==> !IsSpace(s[i])
    ensures n < |s| ==> IsSpace(s[n])
  {
    if s == [] || IsSpace(s[0]) then 0 else 1 + WordLength(s[1..])
  }

  /** `s.split(/\s+/u).filter(Boolean)`: the longest stretches without whitespace, in order. */
  function Words(s: Str): (words: seq<Str>)
    ensures forall w :: w in words ==> w != []
    decreases |s|
  {
    if s == [] then []
    else if IsSpace(s[0]) then Words(s[1..])
    else [s[..WordLength(s)]] + Words(s[WordLength(s)..])
  }

  lemma {:induction false} WordsOccur(s: Str, w: Str)
    requires w in Words(s)
    ensures Contains(s, w)
    decreases |s|
  {
    if IsSpace(s[0]) {
      WordsOccur(s[1..], w);
      ContainsWithin(s, [s[0]], s[1..], [], w);
    } else {
      var n := WordLength(s);
      if w == s[..n] {
        assert OccursAt(s, w, 0);
      } else {
        WordsOccur(s[n..], w);
        ContainsWithin(s, s[..n], s[n..], [], w);
      }
    }
  }

  // ---- Documents ----

  datatype Source = Source(
    title: Str, aliases: seq<Str>, contributors: seq<Str>, summary: Option<Str>, description: Option<Str>,
    transcription: Option<Str>, structured: seq<Option<Str>>)

  datatype Document = Document(
    title: Str, aliases: seq<Str>, normalizedTitle: Str, normalizedAliases: seq<Str>, titleAliasText: Str,
    structuredText: Str, combinedText: Str)

  function Present(values: seq<Option<Str>>): seq<Str> {
    if values == [] then []
    else (if values[0].Some? then [values[0].value] else []) + Present(values[1..])
  }

  function Each(normalize: Str -> Str, texts: seq<Str>): (r: seq<Str>)
    ensures |r| == |texts| && forall i :: 0 <= i < |r| ==> r[i] == normalize(texts[i])
  {
    seq(|texts|, i requires 0 <= i < |texts| => normalize(texts[i]))
  }

  /** `projectCatalogSearchDocument`; `normalize` is the simplification of the text, of which nothing is assumed. */
  function Project(source: Source, normalize: Str -> Str): Document {
    var normalizedTitle, normalizedAliases := normalize(source.title), Each(normalize, source.aliases);
    var titleAliasText := Join([normalizedTitle] + normalizedAliases, [LF]);
    var structuredText := normalize(Join(source.contributors + Present(source.structured), [LF]));
    var body := normalize(Join(Present([source.summary, source.description, source.transcription]), [LF]));
    Document(
      source.title, source.aliases, normalizedTitle, normalizedAliases, titleAliasText, structuredText,
      Join([titleAliasText, structuredText, body], [LF]))
  }

  // ---- The oracle ----

  datatype MatchKind = TitleExact | AliasExact | NormalizedExact | TitleAliasPartial | Structured | Body

  ghost predicate AllContained(text: Str, parts: seq<Str>) {
    forall i :: 0 <= i < |parts| ==> Contains(text, parts[i])
  }

  function StructuredOf(d: Document): Str {
    Join([d.titleAliasText, d.structuredText], [LF])
  }

  ghost function MatchParts(d: Document, raw: Str, normalized: Str, parts: seq<Str>): Option<MatchKind> {
    if !AllContained(d.combinedText, parts) then None
    else if d.title == raw then Some(TitleExact)
    else if raw in d.aliases then Some(AliasExact)
    else if d.normalizedTitle == normalized || normalized in d.normalizedAliases then Some(NormalizedExact)
    else if AllContained(d.titleAliasText, parts) then Some(TitleAliasPartial)
    else if AllContained(StructuredOf(d), parts) then Some(Structured)
    else Some(Body)
  }

  /** `matchCatalogSearchDocument`. */
  ghost function Match(d: Document, q: Str, normalize: Str -> Str): Option<MatchKind> {
    var raw := Trim(q);
    if raw == [] then None else MatchParts(d, raw, normalize(raw), Words(normalize(raw)))
  }

  // ---- The generated SQL ----

  /** The bound parameters of the statement. */
  datatype Statement = Statement(original: Str, normalized: Str, patterns: seq<Str>)

  const MAX_QUERY := 200

  function Patterns(parts: seq<Str>): (r: seq<Str>)
    ensures |r| == |parts| && forall i :: 0 <= i < |r| ==> r[i] == Pattern(parts[i])
  {
    seq(|parts|, i requires 0 <= i < |parts| => Pattern(parts[i]))
  }

  /** `buildCatalogSearchSql`; nothing when it throws. */
  function Build(q: Str, normalize: Str -> Str): Option<Statement> {
    var original := Trim(q);
    var parts := Words(normalize(original));
    if parts == [] || |original| > MAX_QUERY then None
    else Some(Statement(original, normalize(original), Patterns(parts)))
  }

  predicate AllLike(text: Str, patterns: seq<Str>) {
    forall i :: 0 <= i < |patterns| ==> Like(text, patterns[i])
  }

  /** The rank of a document in the result; nothing when the WHERE clause leaves it out. */
  function SqlRank(d: Document, s: Statement): Option<nat> {
    if !AllLike(d.combinedText, s.patterns) then None
    else if d.title == s.original then Some(0)
    else if s.original in d.aliases then Some(1)
    else if d.normalizedTitle == s.normalized || s.normalized in d.normalizedAliases then Some(2)
    else if AllLike(d.titleAliasText, s.patterns) then Some(3)
    else if AllLike(d.titleAliasText + [LF] + d.structuredText, s.patterns) then Some(4)
    else Some(5)
  }

  function RankOf(kind: MatchKind): nat {
    match kind
    case TitleExact => 0
    case AliasExact => 1
    case NormalizedExact => 2
    case TitleAliasPartial => 3
    case Structured => 4
    case Body => 5
  }

  function RankFor(found: Option<MatchKind>): Option<nat> {
    if found.Some? then Some(RankOf(found.value)) else None
  }

  lemma AllLikeIsContained(text: Str, parts: seq<Str>)
    ensures AllLike(text, Patterns(parts)) <==> AllContained(text, parts)
  {
    forall i | 0 <= i < |parts| ensures Like(text, Patterns(parts)[i]) <==> Contains(text, parts[i]) {
      PatternMatchesSubstring(text, parts[i]);
    }
    if AllLike(text, Patterns(parts)) {
      forall i | 0 <= i < |parts| ensures Contains(text, parts[i]) { assert Like(text, Patterns(parts)[i]); }
    }
  }

  /**
   The SQL refines the oracle: for every document and every query whose statement can be built, the filter lets the
   document through exactly when the oracle matches it, and the rank is the oracle's tier. A query that trims to
   nothing is one the oracle never matches.
   */
  lemma SqlRefinesOracle(d: Document, q: Str, normalize: Str -> Str)
    requires Build(q, normalize).Some? && Trim(q) != []
    ensures SqlRank(d, Build(q, normalize).value) == RankFor(Match(d, q, normalize))
  {
    PatternsDecide(d, Trim(q), normalize(Trim(q)), Words(normalize(Trim(q))));
  }

  lemma PatternsDecide(d: Document, raw: Str, normalized: Str, parts: seq<Str>)
    ensures SqlRank(d, Statement(raw, normalized, Patterns(parts))) == RankFor(MatchParts(d, raw, normalized, parts))
  {
    AllLikeIsContained(d.combinedText, parts);
    AllLikeIsContained(d.titleAliasText, parts);
    AllLikeIsContained(StructuredOf(d), parts);
    assert Join([d.titleAliasText, d.structuredText], [LF]) == d.titleAliasText + [LF] + d.structuredText;
  }

  // ---- The tiers ----

  /** The condition of each tier on its own. */
  ghost predicate Tier(d: Document, raw: Str, normalized: Str, rank: nat) {
    match rank
    case 0 => d.title == raw
    case 1 => raw in d.aliases
    case 2 => d.normalizedTitle == normalized || normalized in d.normalizedAliases
    case 3 => AllContained(d.titleAliasText, Words(normalized))
    case 4 => AllContained(StructuredOf(d), Words(normalized))
    case _ => AllContained(d.combinedText, Words(normalized))
  }

  lemma CellContained(cells: seq<Str>, i: nat, parts: seq<Str>)
    requires i < |cells| && AllContained(cells[i], parts)
    ensures AllContained(Join(cells, [LF]), parts)
  {
    forall k | 0 <= k < |parts| ensures Contains(Join(cells, [LF]), parts[k]) {
      JoinContains(cells, [LF], i, parts[k]);
    }
  }

  lemma StructuredWithinCombined(a: Str, b: Str, c: Str, parts: seq<Str>)
    requires AllContained(Join([a, b], [LF]), parts)
    ensures AllContained(Join([a, b, c], [LF]), parts)
  {
    assert Join([a, b], [LF]) == a + [LF] + b;
    assert [a, b, c][1..] == [b, c] && Join([b, c], [LF]) == b + [LF] + c;
    assert Join([a, b, c], [LF]) == a + [LF] + (b + [LF] + c);
    assert a + [LF] + (b + [LF] + c) == [] + (a + [LF] + b) + ([LF] + c);
    forall k | 0 <= k < |parts| ensures Contains(Join([a, b, c], [LF]), parts[k]) {
      ContainsWithin(Join([a, b, c], [LF]), [], Join([a, b], [LF]), [LF] + c, parts[k]);
    }
  }

  ghost predicate Nested(d: Document, raw: Str, n: Str) {
    && (Tier(d, raw, n, 0) || Tier(d, raw, n, 1) ==> Tier(d, raw, n, 2))
    && (Tier(d, raw, n, 2) ==> Tier(d, raw, n, 3))
    && (Tier(d, raw, n, 3) ==> Tier(d, raw, n, 4))
    && (Tier(d, raw, n, 4) ==> Tier(d, raw, n, 5))
  }

  /** The tiers nest: in a projected document each tier implies all those after it. */
  lemma TiersNest(source: Source, raw: Str, normalize: Str -> Str)
    ensures Nested(Project(source, normalize), raw, normalize(raw))
  {
    var d, n := Project(source, normalize), normalize(raw);
    var parts := Words(n);
    var cells := [d.normalizedTitle] + d.normalizedAliases;
    if raw in d.aliases { assert d.normalizedAliases[IndexOf(d.aliases, raw)] == n; }
    if Tier(d, raw, n, 2) {
      var i := if d.normalizedTitle == n then 0 else 1 + IndexOf(d.normalizedAliases, n);
      assert cells[i] == n;
      forall k | 0 <= k < |parts| ensures Contains(n, parts[k]) { WordsOccur(n, parts[k]); }
      CellContained(cells, i, parts);
    }
    if Tier(d, raw, n, 3) { CellContained([d.titleAliasText, d.structuredText], 0, parts); }
    if Tier(d, raw, n, 4) {
      var body := normalize(Join(Present([source.summary, source.description, source.transcription]), [LF]));
      StructuredWithinCombined(d.titleAliasText, d.structuredText, body, parts);
    }
  }

  ghost predicate IsFirstTier(d: Document, raw: Str, n: Str, rank: nat) {
    && Tier(d, raw, n, rank)
    && (rank > 0 ==> !Tier(d, raw, n, 0)) && (rank > 1 ==> !Tier(d, raw, n, 1)) && (rank > 2 ==> !Tier(d, raw, n, 2))
    && (rank > 3 ==> !Tier(d, raw, n, 3)) && (rank > 4 ==> !Tier(d, raw, n, 4))
  }

  lemma MatchByTier(d: Document, q: Str, normalize: Str -> Str)
    requires Trim(q) != [] && Nested(d, Trim(q), normalize(Trim(q)))
    ensures var raw, n := Trim(q), normalize(Trim(q));
      Match(d, q, normalize)
      == if Tier(d, raw, n, 0) then Some(TitleExact) else if Tier(d, raw, n, 1) then Some(AliasExact)
         else if Tier(d, raw, n, 2) then Some(NormalizedExact) else if Tier(d, raw, n, 3) then Some(TitleAliasPartial)
         else if Tier(d, raw, n, 4) then Some(Structured) else if Tier(d, raw, n, 5) then Some(Body) else None
  {
  }

  /** So a document matches exactly if some tier applies, and it is ranked by the first that does. */
  lemma RankIsTheFirstTier(source: Source, q: Str, normalize: Str -> Str, rank: nat)
    requires Trim(q) != [] && rank <= 5
    ensures var m := Match(Project(source, normalize), q, normalize);
      (m.Some? && RankOf(m.value) == rank)
      <==> IsFirstTier(Project(source, normalize), Trim(q), normalize(Trim(q)), rank)
  {
    TiersNest(source, Trim(q), normalize);
    FirstTierRanks(Project(source, normalize), q, normalize, rank);
  }

  lemma FirstTierRanks(d: Document, q: Str, normalize: Str -> Str, rank: nat)
    requires Trim(q) != [] && rank <= 5 && Nested(d, Trim(q), normalize(Trim(q)))
    ensures var m := Match(d, q, normalize);
      (m.Some? && RankOf(m.value) == rank) <==> IsFirstTier(d, Trim(q), normalize(Trim(q)), rank)
  {
    MatchByTier(d, q, normalize);
  }

  /** A record whose title or alias equals the trimmed query is always returned, ahead of every weaker match. */
  lemma ExactMatchesAreReturned(source: Source, q: Str, normalize: Str -> Str)
    requires Build(q, normalize).Some? && Trim(q) != []
    requires source.title == Trim(q) || Trim(q) in source.aliases
    ensures SqlRank(Project(source, normalize), Build(q, normalize).value)
      == Some(if source.title == Trim(q) then 0 else 1)
  {
    TiersNest(source, Trim(q), normalize);
    ExactMatchesComeFirst(Project(source, normalize), q, normalize);
    SqlRefinesOracle(Project(source, normalize), q, normalize);
  }

  lemma ExactMatchesComeFirst(d: Document, q: Str, normalize: Str -> Str)
    requires Trim(q) != [] && Nested(d, Trim(q), normalize(Trim(q)))
    requires d.title == Trim(q) || Trim(q) in d.aliases
    ensures Match(d, q, normalize) == Some(if d.title == Trim(q) then TitleExact else AliasExact)
  {
    MatchByTier(d, q, normalize);
  }

  // ---- Where the statement and the oracle part ----

  /** What the statement makes of a document; a query that is refused finds nothing. */
  function StatementRank(d: Document, q: Str, normalize: Str -> Str): Option<nat> {
    var s := Build(q, normalize);
    if s.Some? then SqlRank(d, s.value) else None
  }

  ghost predicate Agree(d: Document, q: Str, normalize: Str -> Str) {
    StatementRank(d, q, normalize) == RankFor(Match(d, q, normalize))
  }

  /** A query that is not blank has a word left and is not too long; a blank one has no word. */
  predicate IsAnswerable(q: Str, normalize: Str -> Str) {
    var words := Words(normalize(Trim(q)));
    if Trim(q) == [] then words == [] else words != [] && |Trim(q)| <= MAX_QUERY
  }

  function Titled(title: Str): Source {
    Source(title, [], [], None, None, None, [])
  }

  /** A record titled like the query is an exact match for the oracle, whatever becomes of the statement. */
  lemma TitledMatches(q: Str, normalize: Str -> Str)
    requires Trim(q) != []
    ensures Match(Project(Titled(Trim(q)), normalize), q, normalize) == Some(TitleExact)
  {
    TiersNest(Titled(Trim(q)), Trim(q), normalize);
    ExactMatchesComeFirst(Project(Titled(Trim(q)), normalize), q, normalize);
  }

  /** The statement lets through a record whose title is the query, even a blank one that normalisation gives words. */
  lemma TitledIsLetThrough(q: Str, normalize: Str -> Str)
    requires Build(q, normalize).Some?
    ensures StatementRank(Project(Titled(Trim(q)), normalize), q, normalize).Some?
  {
    var d := Project(Titled(Trim(q)), normalize);
    TiersNest(Titled(Trim(q)), Trim(q), normalize);
    assert Tier(d, Trim(q), normalize(Trim(q)), 0) && Tier(d, Trim(q), normalize(Trim(q)), 5);
    AllLikeIsContained(d.combinedText, Words(normalize(Trim(q))));
  }

  /** On a query that is not answerable, the two part on the record titled like it. */
  lemma TitledParts(q: Str, normalize: Str -> Str)
    requires !IsAnswerable(q, normalize)
    ensures !Agree(Project(Titled(Trim(q)), normalize), q, normalize)
  {
    if Trim(q) == [] {
      TitledIsLetThrough(q, normalize);
      BlankParts(Project(Titled(Trim(q)), normalize), q, normalize);
    } else {
      TitledMatches(q, normalize);
      RefusedParts(Project(Titled(Trim(q)), normalize), q, normalize);
    }
  }

  lemma BlankParts(d: Document, q: Str, normalize: Str -> Str)
    requires Trim(q) == [] && StatementRank(d, q, normalize).Some?
    ensures !Agree(d, q, normalize)
  {
  }

  lemma RefusedParts(d: Document, q: Str, normalize: Str -> Str)
    requires Trim(q) != [] && !IsAnswerable(q, normalize) && Match(d, q, normalize).Some?
    ensures !Agree(d, q, normalize)
  {
  }

  lemma AnswerableAgree(d: Document, q: Str, normalize: Str -> Str)
    requires IsAnswerable(q, normalize)
    ensures Agree(d, q, normalize)
  {
    if Trim(q) != [] { SqlRefinesOracle(d, q, normalize); }
  }

  /**
   The statement and the oracle agree on every document, and already on the document of every record, exactly if the
   query, unless blank, keeps a word under normalisation and is at most 200 units long.
   */
  lemma AgreeExactly(q: Str, normalize: Str -> Str)
    ensures (forall d :: Agree(d, q, normalize)) <==> IsAnswerable(q, normalize)
    ensures (forall source :: Agree(Project(source, normalize), q, normalize)) <==> IsAnswerable(q, normalize)
  {
    if IsAnswerable(q, normalize) {
      forall d ensures Agree(d, q, normalize) { AnswerableAgree(d, q, normalize); }
    } else {
      TitledParts(q, normalize);
    }
  }

  const LETTER: Unit := 97

  /** Too long: 201 letters that normalisation leaves alone are refused, and a record of that title matches. */
  lemma LongQueryDiffers() returns (q: Str, d: Document)
    ensures |q| == 201 && Words(Trim(q)) != [] && d == Project(Titled(q), (s: Str) => s)
    ensures Build(q, (s: Str) => s).None? && Match(d, q, (s: Str) => s) == Some(TitleExact)
  {
    q := seq(201, i requires 0 <= i < 201 => LETTER);
    d := Project(Titled(q), (s: Str) => s);
    TrimFixes(q);
    TitledMatches(q, (s: Str) => s);
  }

  /** No word left: under a normalisation that drops a letter, the letter is refused, and a record titled so matches. */
  lemma WordlessQueryDiffers() returns (q: Str, d: Document)
    ensures q == [LETTER] && d == Project(Titled(q), (s: Str) => [])
    ensures Build(q, (s: Str) => []).None? && Match(d, q, (s: Str) => []) == Some(TitleExact)
  {
    q := [LETTER];
    d := Project(Titled(q), (s: Str) => []);
    TrimFixes(q);
    TitledMatches(q, (s: Str) => []);
  }
}
