/**
 Text as JavaScript holds it: a sequence of UTF-16 code units. A Dafny `char` is a Unicode scalar value,
 which cannot be a lone surrogate, so the modules that print, match, measure or slice text use `Str` instead.
 */
module Text {

  newtype Unit = n: int | 0 <= n < 0x10000
  type Str = seq<Unit>

  const LF: Unit := 10
  const CR: Unit := 13

  /** Spells an ASCII literal in code units. */
  function Lit(ascii: string): (s: Str)
    requires forall i :: 0 <= i < |ascii| ==> ascii[i] < '\U{80}'
    ensures |s| == |ascii|
    ensures forall i :: 0 <= i < |s| ==> s[i] == ascii[i] as int as Unit
  {
    seq(|ascii|, i requires 0 <= i < |ascii| => ascii[i] as int as Unit)
  }

  predicate IsHigh(u: Unit) { 0xD800 <= u < 0xDC00 }

  predicate IsLow(u: Unit) { 0xDC00 <= u < 0xE000 }

  /** The ECMAScript WhiteSpace and LineTerminator code points, which both `trim` and `\s` use. */
  predicate IsSpace(u: Unit) {
    || 9 <= u <= 13 || u == 0x20 || u == 0xA0 || u == 0x1680 || 0x2000 <= u <= 0x200A
    || u == 0x2028 || u == 0x2029 || u == 0x202F || u == 0x205F || u == 0x3000 || u == 0xFEFF
  }

  /** Lexicographic order of code units: what `<` and the default `sort` use on strings. */
  predicate Le(a: Str, b: Str)
    decreases |a|
  {
    || a == []
    || (b != [] && (a[0] < b[0] || (a[0] == b[0] && Le(a[1..], b[1..]))))
  }

  lemma {:induction false} LeTotal(a: Str, b: Str)
    ensures Le(a, b) || Le(b, a)
    decreases |a|
  {
    if a != [] && b != [] { LeTotal(a[1..], b[1..]); }
  }

  lemma {:induction false} LeAntisymmetric(a: Str, b: Str)
    requires Le(a, b) && Le(b, a)
    ensures a == b
    decreases |a|
  {
    if a != [] && b != [] {
      LeAntisymmetric(a[1..], b[1..]);
      assert a == [a[0]] + a[1..] && b == [b[0]] + b[1..];
    }
  }

  lemma {:induction false} LeTransitive(a: Str, b: Str, c: Str)
    requires Le(a, b) && Le(b, c)
    ensures Le(a, c)
    decreases |a|
  {
    if a != [] && a[0] == b[0] == c[0] { LeTransitive(a[1..], b[1..], c[1..]); }
  }

  ghost predicate AllSpace(s: Str) {
    forall i :: 0 <= i < |s| ==> IsSpace(s[i])
  }

  /** A text that comes before another: a proper prefix of it, or with the lesser unit where they first differ. */
  ghost predicate ComesBefore(a: Str, b: Str) {
    a < b || exists k :: DiffersAt(a, b, k) && a[k] < b[k]
  }

  predicate DiffersAt(a: Str, b: Str, k: int) {
    0 <= k < |a| && k < |b| && a[..k] == b[..k] && a[k] != b[k]
  }

  lemma {:induction false} LeFirstDifference(a: Str, b: Str)
    ensures Le(a, b) <==> a == b || ComesBefore(a, b)
    decreases |a|
  {
    if a == [] || b == [] {
    } else if a[0] == b[0] {
      LeFirstDifference(a[1..], b[1..]);
      assert a == [a[0]] + a[1..] && b == [b[0]] + b[1..];
      if k :| DiffersAt(a[1..], b[1..], k) && a[1..][k] < b[1..][k] {
        assert a[..k + 1] == [a[0]] + a[1..][..k] && b[..k + 1] == [b[0]] + b[1..][..k];
        assert DiffersAt(a, b, k + 1);
      }
      if k :| DiffersAt(a, b, k) && a[k] < b[k] {
        assert a[1..][..k - 1] == a[..k][1..] && b[1..][..k - 1] == b[..k][1..];
        assert DiffersAt(a[1..], b[1..], k - 1);
      }
    } else {
      assert a[..0] == b[..0];
      assert DiffersAt(a, b, 0);
    }
  }

  /** `needle` occurs in `text`, as `String.prototype.includes` decides it. */
  ghost predicate Contains(text: Str, needle: Str) {
    exists i :: OccursAt(text, needle, i)
  }

  predicate OccursAt(text: Str, needle: Str, i: int) {
    0 <= i && i + |needle| <= |text| && text[i..i + |needle|] == needle
  }

  lemma ContainsWithin(outer: Str, before: Str, inner: Str, after: Str, needle: Str)
    requires outer == before + inner + after && Contains(inner, needle)
    ensures Contains(outer, needle)
  {
    var i :| OccursAt(inner, needle, i);
    assert outer[|before| + i..|before| + i + |needle|] == inner[i..i + |needle|];
    assert OccursAt(outer, needle, |before| + i);
  }

  /** `Array.prototype.join`. */
  function Join(parts: seq<Str>, separator: Str): Str {
    if parts == [] then []
    else if |parts| == 1 then parts[0]
    else parts[0] + separator + Join(parts[1..], separator)
  }

  lemma {:induction false} JoinContains(parts: seq<Str>, separator: Str, i: nat, needle: Str)
    requires i < |parts| && Contains(parts[i], needle)
    ensures Contains(Join(parts, separator), needle)
    decreases |parts|
  {
    if |parts| == 1 {
    } else if i == 0 {
      ContainsWithin(Join(parts, separator), [], parts[0], separator + Join(parts[1..], separator), needle);
    } else {
      JoinContains(parts[1..], separator, i - 1, needle);
      ContainsWithin(Join(parts, separator), parts[0] + separator, Join(parts[1..], separator), [], needle);
    }
  }

  /** Drops leading whitespace. */
  function TrimStart(s: Str): (r: Str)
    ensures r == [] || !IsSpace(r[0])
    ensures |r| <= |s| && r == s[|s| - |r|..]
  {
    if s != [] && IsSpace(s[0]) then TrimStart(s[1..]) else s
  }

  /** Drops trailing whitespace. */
  function TrimEnd(s: Str): (r: Str)
    ensures r == [] || !IsSpace(r[|r| - 1])
    ensures r <= s
  {
    if s != [] && IsSpace(s[|s| - 1]) then TrimEnd(s[..|s| - 1]) else s
  }

  /** `String.prototype.trim`. */
  function Trim(s: Str): (r: Str)
    ensures r == [] || (!IsSpace(r[0]) && !IsSpace(r[|r| - 1]))
  {
    TrimEnd(TrimStart(s))
  }

  predicate IsTrimmed(s: Str) {
    s == [] || (!IsSpace(s[0]) && !IsSpace(s[|s| - 1]))
  }

  lemma {:induction false} TrimStartDrops(s: Str)
    ensures AllSpace(s[..|s| - |TrimStart(s)|])
  {
    if s != [] && IsSpace(s[0]) {
      TrimStartDrops(s[1..]);
      assert s[..|s| - |TrimStart(s)|] == [s[0]] + s[1..][..|s[1..]| - |TrimStart(s[1..])|];
    }
  }

  lemma {:induction false} TrimEndDrops(s: Str)
    ensures AllSpace(s[|TrimEnd(s)|..])
  {
    if s != [] && IsSpace(s[|s| - 1]) {
      var n := |s| - 1;
      TrimEndDrops(s[..n]);
      assert s[|TrimEnd(s)|..] == s[..n][|TrimEnd(s[..n])|..] + [s[n]];
    }
  }

  /** What trimming removes from each end is whitespace. */
  lemma TrimSplits(s: Str) returns (before: Str, after: Str)
    ensures s == before + Trim(s) + after && AllSpace(before) && AllSpace(after)
  {
    TrimStartDrops(s);
    TrimEndDrops(TrimStart(s));
    before, after := Surroundings(s, TrimStart(s), Trim(s));
  }

  /** A trimmed text that is left between whitespace spans no more than the other. */
  lemma SpansWithin(s: Str, before: Str, inner: Str, after: Str, before': Str, inner': Str, after': Str)
    requires s == before + inner + after == before' + inner' + after'
    requires IsTrimmed(inner) && inner != [] && AllSpace(before') && AllSpace(after')
    ensures |before'| <= |before| && |before| + |inner| <= |before'| + |inner'|
  {
    assert s[|before|] == inner[0] && s[|before| + |inner| - 1] == inner[|inner| - 1];
    forall k | 0 <= k < |s| && !(|before'| <= k < |before'| + |inner'|) ensures IsSpace(s[k]) {
      if k < |before'| {
        assert s[k] == before'[k];
      } else {
        assert s[k] == after'[k - |before'| - |inner'|];
      }
    }
  }

  /** Trimming is the only way to leave a trimmed text between whitespace. */
  lemma TrimIsUnique(before: Str, inner: Str, after: Str)
    requires AllSpace(before) && AllSpace(after) && IsTrimmed(inner)
    ensures Trim(before + inner + after) == inner
  {
    var s := before + inner + after;
    var before', after' := TrimSplits(s);
    if inner != [] { SpansWithin(s, before, inner, after, before', Trim(s), after'); }
    if Trim(s) != [] { SpansWithin(s, before', Trim(s), after', before, inner, after); }
    if inner != [] { assert inner == s[|before|..|before| + |inner|] == Trim(s); }
  }

  /** Trimming leaves nothing exactly of whitespace. */
  lemma TrimEmpties(s: Str)
    ensures Trim(s) == [] <==> AllSpace(s)
  {
    var before, after := TrimSplits(s);
    if Trim(s) != [] { assert s[|before|] == Trim(s)[0]; }
  }

  lemma Surroundings(s: Str, tail: Str, inner: Str) returns (before: Str, after: Str)
    requires |tail| <= |s| && tail == s[|s| - |tail|..] && inner <= tail
    ensures s == before + inner + after && before == s[..|s| - |tail|] && after == tail[|inner|..]
  {
    before, after := s[..|s| - |tail|], tail[|inner|..];
    assert inner + after == tail;
  }

  /** Trimming changes exactly the text that is not trimmed. */
  lemma TrimFixes(s: Str)
    ensures Trim(s) == s <==> IsTrimmed(s)
  {
    if IsTrimmed(s) {
      assert TrimStart(s) == s;
      assert TrimEnd(s) == s;
    }
  }

  /** `text.replace(/\r\n?/gu, "\n")`: CRLF and lone CR become LF. */
  function LineBreaks(s: Str): Str {
    if s == [] then []
    else if s[0] == CR then [LF] + LineBreaks(if |s| > 1 && s[1] == LF then s[2..] else s[1..])
    else [s[0]] + LineBreaks(s[1..])
  }

  lemma {:induction false} LineBreaksRemovesCr(s: Str)
    ensures CR !in LineBreaks(s)
    decreases |s|
  {
    if s != [] {
      LineBreaksRemovesCr(if s[0] == CR && |s| > 1 && s[1] == LF then s[2..] else s[1..]);
    }
  }

  lemma {:induction false} LineBreaksKeeps(s: Str)
    requires CR !in s
    ensures LineBreaks(s) == s
    decreases |s|
  {
    if s != [] {
      assert s[0] in s;
      LineBreaksKeeps(s[1..]);
    }
  }

  /** Line breaks are replaced piece by piece, wherever a text is cut, except between the two units of a CRLF. */
  lemma {:induction false} LineBreaksPiecewise(a: Str, b: Str)
    requires a == [] || b == [] || a[|a| - 1] != CR || b[0] != LF
    ensures LineBreaks(a + b) == LineBreaks(a) + LineBreaks(b)
    decreases |a|
  {
    if a == [] {
      assert a + b == b;
    } else {
      var n := if a[0] == CR && |a| > 1 && a[1] == LF then 2 else 1;
      LineBreaksPiecewise(a[n..], b);
      LineBreaksHead(a, n);
      CutAfter(a, b, n);
      LineBreaksHead(a + b, n);
      Prepended(if a[0] == CR then LF else a[0], LineBreaks(a[n..]), LineBreaks(b));
    }
  }

  lemma CutAfter(a: Str, b: Str, n: nat)
    requires n <= |a| && a != []
    ensures (a + b)[n..] == a[n..] + b && (a + b)[0] == a[0]
    ensures |a| > 1 ==> (a + b)[1] == a[1]
    ensures |a| == 1 && b != [] ==> (a + b)[1] == b[0]
  {
  }

  lemma Prepended(u: Unit, some: Str, more: Str)
    ensures [u] + (some + more) == [u] + some + more
  {
  }

  lemma LineBreaksHead(s: Str, n: nat)
    requires s != [] && n == if s[0] == CR && |s| > 1 && s[1] == LF then 2 else 1
    ensures LineBreaks(s) == [if s[0] == CR then LF else s[0]] + LineBreaks(s[n..])
  {
  }

  /** CRLF and a lone CR become one LF each. */
  lemma LineBreaksOfBreaks()
    ensures LineBreaks([CR, LF]) == LineBreaks([CR]) == LineBreaks([LF]) == [LF]
  {
    LineBreaksKeeps([LF]);
    assert [CR, LF][2..] == [] && [CR][1..] == [];
  }

  /** Line-break normalisation followed by trimming: the normal form of mentions and of published text. */
  function Normalize(s: Str): Str {
    Trim(LineBreaks(s))
  }

  /** A normal form is a fixed point of normalisation. */
  lemma NormalizeIdempotent(s: Str)
    ensures Normalize(Normalize(s)) == Normalize(s)
    ensures CR !in Normalize(s) && IsTrimmed(Normalize(s))
  {
    var flat := LineBreaks(s);
    LineBreaksRemovesCr(s);
    var before, after := TrimSplits(flat);
    assert CR !in Trim(flat) by { assert forall u :: u in Trim(flat) ==> u in flat; }
    LineBreaksKeeps(Normalize(s));
    TrimFixes(Normalize(s));
  }
}
