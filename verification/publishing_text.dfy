/** The counting rule for published text, and the schemas that apply it to what authors send and to what is stored. */
module PublishingText {
  import opened Text
  import opened Wrappers

  /** `[...value].length`: a surrogate pair counts once, and so does a lone surrogate. */
  function CodePointLength(s: Str): nat {
    if s == [] then 0
    else if |s| > 1 && IsHigh(s[0]) && IsLow(s[1]) then 1 + CodePointLength(s[2..])
    else 1 + CodePointLength(s[1..])
  }

  /** NUL, or a surrogate that is not part of a pair. */
  predicate HasInvalid(s: Str) {
    if s == [] then false
    else if |s| > 1 && IsHigh(s[0]) && IsLow(s[1]) then HasInvalid(s[2..])
    else s[0] == 0 || IsHigh(s[0]) || IsLow(s[0]) || HasInvalid(s[1..])
  }

  datatype Issue = InvalidCharacters | LineBreak | TooLong

  datatype Rule = Rule(maximum: nat, singleLine: bool, rawAllowance: nat)

  datatype Check = Check(value: Str, length: nat, issue: Option<Issue>)

  /** `checkPublishingText`. */
  function CheckPublishingText(raw: Str, rule: Rule): Check {
    var value := Normalize(raw);
    var length := CodePointLength(value);
    Check(value, length, IssueOf(HasInvalid(raw), length, CodePointLength(raw), LF in value, rule))
  }

  function IssueOf(invalid: bool, length: nat, rawLength: nat, broken: bool, rule: Rule): Option<Issue> {
    if invalid then Some(InvalidCharacters)
    else if length > rule.maximum || rawLength > rule.maximum + rule.rawAllowance then Some(TooLong)
    else if rule.singleLine && broken then Some(LineBreak)
    else None
  }

  datatype Stage = Draft | Submission

  /** `publishingTextSchema`: a bound in code units, tried first, then the rule. */
  predicate SchemaAccepts(raw: Str, rule: Rule, stage: Stage) {
    && |raw| <= (rule.maximum + rule.rawAllowance) * 2
    && Passes(CheckPublishingText(raw, rule).issue, stage)
  }

  /** A draft keeps its line breaks. */
  predicate Passes(issue: Option<Issue>, stage: Stage) {
    issue.None? || (issue == Some(LineBreak) && stage.Draft?)
  }

  /** `storedPublishingTextSchema`. */
  predicate StoredAccepts(value: Str, maximum: nat) {
    && |value| <= maximum * 2
    && value == Trim(value) && !HasInvalid(value) && CodePointLength(value) <= maximum
  }

  // ---- Code points and code units ----

  /** A code point is one or two code units. */
  lemma {:induction false} CodePointBounds(s: Str)
    ensures CodePointLength(s) <= |s| <= 2 * CodePointLength(s)
    decreases |s|
  {
    if s == [] {
    } else if |s| > 1 && IsHigh(s[0]) && IsLow(s[1]) {
      CodePointBounds(s[2..]);
    } else {
      CodePointBounds(s[1..]);
    }
  }

  /** A high surrogate and the low one right after it. */
  predicate IsPair(s: Str, i: int) { 0 <= i < |s| - 1 && IsHigh(s[i]) && IsLow(s[i + 1]) }

  /** NUL, a high surrogate that no low one follows, or a low one that no high one precedes. */
  predicate IsLone(s: Str, i: int) {
    0 <= i < |s| && (s[i] == 0 || (IsHigh(s[i]) && !IsPair(s, i)) || (IsLow(s[i]) && !IsPair(s, i - 1)))
  }

  lemma LoneShifts(s: Str, n: nat, i: int)
    requires n <= |s| && (n > 0 ==> !IsHigh(s[n - 1])) && i >= n
    ensures IsLone(s, i) <==> IsLone(s[n..], i - n)
  {
    if i < |s| {
      assert IsPair(s, i) <==> IsPair(s[n..], i - n);
      assert i > n ==> (IsPair(s, i - 1) <==> IsPair(s[n..], i - 1 - n));
    }
  }

  /** A text is refused for its characters exactly if some unit of it is NUL or a surrogate without its partner. */
  lemma {:induction false} InvalidExactly(s: Str)
    ensures HasInvalid(s) <==> exists i :: IsLone(s, i)
    decreases |s|
  {
    if s != [] {
      var n := if |s| > 1 && IsHigh(s[0]) && IsLow(s[1]) then 2 else 1;
      if n == 1 && IsHigh(s[0]) {
        assert IsLone(s, 0);
      } else {
        InvalidExactly(s[n..]);
        forall i | i >= n ensures IsLone(s, i) <==> IsLone(s[n..], i - n) { LoneShifts(s, n, i); }
        if i :| IsLone(s[n..], i) { assert IsLone(s, i + n); }
        if i :| IsLone(s, i) { FirstOrLater(s, n, i); }
        if n == 1 && (s[0] == 0 || IsLow(s[0])) { assert IsLone(s, 0); }
      }
    }
  }

  lemma FirstOrLater(s: Str, n: nat, i: int)
    requires IsLone(s, i) && n <= |s| && (n == 2 ==> IsPair(s, 0)) && 1 <= n <= 2
    ensures i >= n || (n == 1 && i == 0 && (s[0] == 0 || IsHigh(s[0]) || IsLow(s[0])))
  {
  }

  function PairStarts(s: Str): set<int> { set i | 0 <= i < |s| && IsPair(s, i) }

  lemma {:induction false} CodePointsAppend(s: Str, u: Unit)
    ensures CodePointLength(s + [u])
      == CodePointLength(s) + if s != [] && IsHigh(s[|s| - 1]) && IsLow(u) then 0 else 1
    decreases |s|
  {
    if s == [] {
    } else {
      var n := if |s| > 1 && IsHigh(s[0]) && IsLow(s[1]) then 2 else 1;
      assert (s + [u])[n..] == s[n..] + [u];
      CodePointsAppend(s[n..], u);
      if |s| == 1 { assert (s + [u])[2..] == []; }
    }
  }

  /** The counting rule: each code unit counts, but a pair counts once. */
  lemma {:induction false} CodePointsAreUnitsLessPairs(s: Str)
    ensures CodePointLength(s) == |s| - |PairStarts(s)|
  {
    if s == [] {
      assert PairStarts(s) == {};
    } else {
      var n := |s| - 1;
      CodePointsAreUnitsLessPairs(s[..n]);
      assert s == s[..n] + [s[n]];
      CodePointsAppend(s[..n], s[n]);
      PairStartsGrow(s);
    }
  }

  lemma PairStartsGrow(s: Str)
    requires s != []
    ensures var n := |s| - 1;
      |PairStarts(s)| == |PairStarts(s[..n])| + if n > 0 && IsHigh(s[n - 1]) && IsLow(s[n]) then 1 else 0
  {
    var n := |s| - 1;
    var earlier, all := PairStarts(s[..n]), PairStarts(s);
    forall i ensures i in earlier <==> i in all && i != n - 1 {
      if 0 <= i < n - 1 { assert IsPair(s[..n], i) <==> IsPair(s, i); }
    }
    assert all == earlier + if n > 0 && IsHigh(s[n - 1]) && IsLow(s[n]) then {n - 1} else {};
  }

  // ---- Normalising keeps text well formed ----

  /** Outside a pair, a first unit is on its own. */
  lemma SingleFirst(u: Unit, s: Str)
    requires !IsHigh(u) && !IsLow(u)
    ensures HasInvalid([u] + s) <==> u == 0 || HasInvalid(s)
    ensures CodePointLength([u] + s) == 1 + CodePointLength(s)
  {
    assert ([u] + s)[1..] == s;
  }

  lemma PairFirst(a: Unit, b: Unit, s: Str)
    requires IsHigh(a) && IsLow(b)
    ensures HasInvalid([a, b] + s) <==> HasInvalid(s)
    ensures CodePointLength([a, b] + s) == 1 + CodePointLength(s)
  {
    assert ([a, b] + s)[2..] == s;
  }

  /** A unit that is no surrogate cuts a text into two that are judged and counted apart. */
  lemma {:induction false} Cuts(s: Str, u: Unit, t: Str)
    requires !IsHigh(u) && !IsLow(u)
    ensures HasInvalid(s + [u] + t) <==> HasInvalid(s) || u == 0 || HasInvalid(t)
    ensures CodePointLength(s + [u] + t) == CodePointLength(s) + 1 + CodePointLength(t)
    decreases |s|
  {
    if s == [] {
      assert s + [u] + t == [u] + t;
      SingleFirst(u, t);
    } else if |s| > 1 && IsHigh(s[0]) && IsLow(s[1]) {
      Cuts(s[2..], u, t);
      assert (s + [u] + t)[2..] == s[2..] + [u] + t;
    } else {
      Cuts(s[1..], u, t);
      assert (s + [u] + t)[1..] == s[1..] + [u] + t;
    }
  }

  lemma {:induction false} TrimStartKeeps(s: Str)
    requires !HasInvalid(s)
    ensures !HasInvalid(TrimStart(s))
    decreases |s|
  {
    if s != [] && IsSpace(s[0]) { TrimStartKeeps(s[1..]); }
  }

  lemma {:induction false} TrimEndKeeps(s: Str)
    requires !HasInvalid(s)
    ensures !HasInvalid(TrimEnd(s))
    decreases |s|
  {
    if s != [] && IsSpace(s[|s| - 1]) {
      var n := |s| - 1;
      assert s == s[..n] + [s[n]] + [];
      Cuts(s[..n], s[n], []);
      TrimEndKeeps(s[..n]);
    }
  }

  lemma LineBreaksPair(s: Str)
    requires |s| > 1 && IsHigh(s[0]) && IsLow(s[1])
    ensures LineBreaks(s) == [s[0], s[1]] + LineBreaks(s[2..])
  {
    assert s[1..][1..] == s[2..];
    assert LineBreaks(s[1..]) == [s[1]] + LineBreaks(s[1..][1..]);
  }

  lemma {:induction false} LineBreaksKeepValid(s: Str)
    requires !HasInvalid(s)
    ensures !HasInvalid(LineBreaks(s))
    decreases |s|
  {
    if s == [] {
    } else if s[0] == CR {
      var rest := if |s| > 1 && s[1] == LF then s[2..] else s[1..];
      LineBreaksKeepValid(rest);
      SingleFirst(LF, LineBreaks(rest));
    } else if |s| > 1 && IsHigh(s[0]) && IsLow(s[1]) {
      LineBreaksKeepValid(s[2..]);
      PairFirst(s[0], s[1], LineBreaks(s[2..]));
      LineBreaksPair(s);
    } else {
      LineBreaksKeepValid(s[1..]);
      SingleFirst(s[0], LineBreaks(s[1..]));
    }
  }

  lemma NormalizeKeepsValid(s: Str)
    requires !HasInvalid(s)
    ensures !HasInvalid(Normalize(s))
  {
    LineBreaksKeepValid(s);
    TrimStartKeeps(LineBreaks(s));
    TrimEndKeeps(TrimStart(LineBreaks(s)));
  }

  // ---- The rule is a fixed point ----

  /** Text the rule accepts is accepted again in its normal form, with the same value and length, and may be stored. */
  lemma AcceptedTextIsStable(raw: Str, rule: Rule)
    requires CheckPublishingText(raw, rule).issue.None?
    ensures var check := CheckPublishingText(raw, rule);
      CheckPublishingText(check.value, rule) == check && StoredAccepts(check.value, rule.maximum)
  {
    var value := Normalize(raw);
    NormalFormIsFixed(raw);
    CodePointBounds(value);
    IssueFree(HasInvalid(raw), CodePointLength(value), CodePointLength(raw), LF in value, rule);
    IssueFree(false, CodePointLength(value), CodePointLength(value), LF in value, rule);
  }

  lemma NormalFormIsFixed(raw: Str)
    requires !HasInvalid(raw)
    ensures var value := Normalize(raw); Normalize(value) == value == Trim(value) && !HasInvalid(value)
  {
    NormalizeIdempotent(raw);
    NormalizeKeepsValid(raw);
    TrimFixes(Normalize(raw));
  }

  lemma IssueFree(invalid: bool, length: nat, rawLength: nat, broken: bool, rule: Rule)
    ensures IssueOf(invalid, length, rawLength, broken, rule).None?
      <==> !invalid && length <= rule.maximum && rawLength <= rule.maximum + rule.rawAllowance
           && !(rule.singleLine && broken)
  {
  }

  /** What is found of a text: its characters first, then its lengths, then a line break in a single line. */
  lemma IssueExactly(raw: Str, rule: Rule)
    ensures var check, value := CheckPublishingText(raw, rule), Normalize(raw);
      var tooLong := |value| - |PairStarts(value)| > rule.maximum
        || |raw| - |PairStarts(raw)| > rule.maximum + rule.rawAllowance;
      && check.value == value && check.length == |value| - |PairStarts(value)|
      && check.issue
         == (if exists i :: IsLone(raw, i) then Some(InvalidCharacters)
             else if tooLong then Some(TooLong)
             else if rule.singleLine && LF in value then Some(LineBreak)
             else None)
  {
    InvalidExactly(raw);
    CodePointsAreUnitsLessPairs(raw);
    CodePointsAreUnitsLessPairs(Normalize(raw));
    WhichIssue(raw, Normalize(raw), rule, HasInvalid(raw), CodePointLength(Normalize(raw)), CodePointLength(raw));
  }

  lemma WhichIssue(raw: Str, value: Str, rule: Rule, invalid: bool, length: nat, rawLength: nat)
    ensures IssueOf(invalid, length, rawLength, LF in value, rule)
      == if invalid then Some(InvalidCharacters)
         else if length > rule.maximum || rawLength > rule.maximum + rule.rawAllowance then Some(TooLong)
         else if rule.singleLine && LF in value then Some(LineBreak)
         else None
  {
  }

  /** What may be stored, if it has no CR, is exactly what the rule leaves as it is. */
  lemma StoredTextIsNormal(value: Str, rule: Rule)
    requires !rule.singleLine
    ensures StoredAccepts(value, rule.maximum) && CR !in value
      <==> CheckPublishingText(value, rule) == Check(value, CodePointLength(value), None)
  {
    StoredWhen(value, rule.maximum);
    NormalFixes(value);
    KeptAsIs(value, rule);
  }

  /** The bound in code units follows from the one in code points. */
  lemma StoredWhen(value: Str, maximum: nat)
    ensures StoredAccepts(value, maximum)
      <==> value == Trim(value) && !HasInvalid(value) && CodePointLength(value) <= maximum
  {
    CodePointBounds(value);
  }

  lemma KeptAsIs(value: Str, rule: Rule)
    requires !rule.singleLine
    ensures CheckPublishingText(value, rule) == Check(value, CodePointLength(value), None)
      <==> Normalize(value) == value && !HasInvalid(value) && CodePointLength(value) <= rule.maximum
  {
    if Normalize(value) == value {
      IssueFree(HasInvalid(value), CodePointLength(value), CodePointLength(value), LF in value, rule);
    }
  }

  lemma NormalFixes(value: Str)
    ensures Normalize(value) == value <==> value == Trim(value) && CR !in value
  {
    if CR !in value {
      LineBreaksKeeps(value);
    } else {
      NormalHasNoCr(value);
    }
  }

  lemma NormalHasNoCr(value: Str)
    ensures CR !in Normalize(value)
  {
    NormalizeIdempotent(value);
  }

  /** The bound in code units never refuses what the rule would accept: a schema decides as the rule alone decides. */
  lemma PreBoundDecidesNothing(raw: Str, rule: Rule, stage: Stage)
    ensures SchemaAccepts(raw, rule, stage)
      <==> Passes(CheckPublishingText(raw, rule).issue, stage)
  {
    CodePointBounds(raw);
    var value := Normalize(raw);
    LengthsPass(HasInvalid(raw), CodePointLength(value), CodePointLength(raw), LF in value, rule, stage);
  }

  lemma LengthsPass(invalid: bool, length: nat, rawLength: nat, broken: bool, rule: Rule, stage: Stage)
    ensures Passes(IssueOf(invalid, length, rawLength, broken, rule), stage) ==>
      rawLength <= rule.maximum + rule.rawAllowance
  {
  }

  /** Text within the earlier bound in code units is never too long, so only its characters and line breaks decide. */
  lemma EarlierBoundIsKept(raw: Str, rule: Rule)
    requires |raw| <= rule.maximum
    ensures CheckPublishingText(raw, rule).issue
      == if HasInvalid(raw) then Some(InvalidCharacters)
         else if rule.singleLine && LF in Normalize(raw) then Some(LineBreak)
         else None
  {
    var value := Normalize(raw);
    CodePointBounds(raw);
    CodePointBounds(value);
    NormalizeShortens(raw);
    ShortPasses(HasInvalid(raw), CodePointLength(value), CodePointLength(raw), LF in value, rule);
  }

  lemma ShortPasses(invalid: bool, length: nat, rawLength: nat, broken: bool, rule: Rule)
    requires length <= rule.maximum && rawLength <= rule.maximum
    ensures IssueOf(invalid, length, rawLength, broken, rule)
      == if invalid then Some(InvalidCharacters) else if rule.singleLine && broken then Some(LineBreak) else None
  {
  }

  lemma {:induction false} LineBreaksShorten(s: Str)
    ensures |LineBreaks(s)| <= |s|
    decreases |s|
  {
    if s != [] { LineBreaksShorten(if s[0] == CR && |s| > 1 && s[1] == LF then s[2..] else s[1..]); }
  }

  lemma NormalizeShortens(s: Str)
    ensures |Normalize(s)| <= |s|
  {
    LineBreaksShorten(s);
  }
}
