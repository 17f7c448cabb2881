/** References to people inside a text, by offsets into its normal form. */
module MentionReferences {
  import opened Text

  datatype Reference = Reference(userId: Str, handle: Str, start: nat, end: nat)

  const MENTION_LIMIT := 20
  const AT: Unit := 64

  /** What the reference schema says of a handle, as far as it matters here: it is ASCII, and not empty. */
  predicate IsHandle(handle: Str) {
    handle != [] && forall i :: 0 <= i < |handle| ==> handle[i] < 0x80
  }

  predicate SplitsSurrogate(text: Str, at: nat) {
    0 < at < |text| && IsHigh(text[at - 1]) && IsLow(text[at])
  }

  /** One reference names its person in the text, without cutting a character in two. */
  predicate Names(value: Str, ref: Reference) {
    && ref.start < ref.end <= |value|
    && !SplitsSurrogate(value, ref.start) && !SplitsSurrogate(value, ref.end)
    && value[ref.start..ref.end] == [AT] + ref.handle
  }

  /** The references are few, in order, apart from one another, and of different people. */
  ghost predicate Valid(text: Str, refs: seq<Reference>) {
    |refs| <= MENTION_LIMIT && Referring(Normalize(text), refs)
  }

  ghost predicate Referring(value: Str, refs: seq<Reference>) {
    && (forall i :: 0 <= i < |refs| ==> Names(value, refs[i]))
    && (forall i, j :: 0 <= i < j < |refs| ==> refs[i].end <= refs[j].start)
    && (forall i, j :: 0 <= i < j < |refs| ==> refs[i].userId != refs[j].userId)
  }

  /** `validMentionReferences`: comparing each reference with the one before it decides all pairs. */
  method ValidMentionReferences(text: Str, refs: seq<Reference>) returns (valid: bool)
    ensures valid <==> Valid(text, refs)
  {
    var referring := CheckReferences(Normalize(text), refs);
    return referring && |refs| <= MENTION_LIMIT;
  }

  /** Whom the references name. */
  function People(refs: seq<Reference>): set<Str> {
    set ref | ref in refs :: ref.userId
  }

  function EndOf(refs: seq<Reference>): nat {
    if refs == [] then 0 else refs[|refs| - 1].end
  }

  method CheckReferences(value: Str, refs: seq<Reference>) returns (referring: bool)
    ensures referring <==> Referring(value, refs)
  {
    var end: nat, people: set<Str> := 0, {};
    for k := 0 to |refs|
      invariant Referring(value, refs[..k])
      invariant end == EndOf(refs[..k]) && people == People(refs[..k])
    {
      var ref := refs[k];
      ReferringGrows(value, refs, k);
      if ref.start < end || !Names(value, ref) || ref.userId in people { return false; }
      people := people + {ref.userId};
      end := ref.end;
    }
    assert refs[..|refs|] == refs;
    return true;
  }

  /** One more reference: looking at the end of the last one and at the people so far is enough. */
  lemma ReferringGrows(value: Str, refs: seq<Reference>, k: nat)
    requires k < |refs| && Referring(value, refs[..k])
    ensures Referring(value, refs[..k + 1]) <==>
      refs[k].start >= EndOf(refs[..k]) && Names(value, refs[k]) && refs[k].userId !in People(refs[..k])
    ensures Referring(value, refs) ==> Referring(value, refs[..k + 1])
    ensures EndOf(refs[..k + 1]) == refs[k].end && People(refs[..k + 1]) == People(refs[..k]) + {refs[k].userId}
  {
    var before, ref := refs[..k], refs[k];
    assert refs[..k + 1] == before + [ref];
    OneMore(value, before, ref);
  }

  lemma OneMore(value: Str, before: seq<Reference>, ref: Reference)
    requires Referring(value, before)
    ensures Referring(value, before + [ref]) <==>
      ref.start >= EndOf(before) && Names(value, ref) && ref.userId !in People(before)
  {
    var all := before + [ref];
    assert all[|before|] == ref;
    if Referring(value, all) {
      forall r | r in before ensures r.userId != ref.userId {
        var i :| 0 <= i < |before| && before[i] == r;
        assert all[i] == r;
      }
      if before != [] { assert all[|before| - 1] == before[|before| - 1]; }
    } else if ref.start >= EndOf(before) && ref.userId !in People(before) {
      forall i | 0 <= i < |before| ensures before[i].end <= ref.start && before[i].userId != ref.userId {
        assert before[i] in before;
        assert i < |before| - 1 ==> before[i].end <= before[|before| - 1].start;
        assert Names(value, before[|before| - 1]);
      }
      forall i | 0 <= i < |all| && i != |before| ensures Names(value, all[i]) { assert all[i] == before[i]; }
    }
  }

  /** The answer is the same on the raw text and on its normal form, so stored offsets keep their meaning. */
  lemma SameOnNormalForm(text: Str, refs: seq<Reference>)
    ensures Valid(Normalize(text), refs) <==> Valid(text, refs)
  {
    NormalizeIdempotent(text);
  }

  /** With ASCII handles the surrogate checks decide nothing: a text that matches at the offsets is never cut there. */
  lemma SurrogateChecksAreImplied(value: Str, ref: Reference)
    requires IsHandle(ref.handle)
    ensures Names(value, ref)
      <==> ref.start < ref.end <= |value| && value[ref.start..ref.end] == [AT] + ref.handle
  {
    if ref.start < ref.end <= |value| && value[ref.start..ref.end] == [AT] + ref.handle {
      var cut := [AT] + ref.handle;
      assert value[ref.start] == value[ref.start..ref.end][0] == AT;
      assert value[ref.end - 1] == value[ref.start..ref.end][|cut| - 1] == cut[|cut| - 1];
      assert cut[|cut| - 1] == ref.handle[|ref.handle| - 1];
    }
  }

  /** The text has, unit for unit, the sign and the handle at the offsets of the reference. */
  ghost predicate StandsIn(value: Str, ref: Reference) {
    && ref.end == ref.start + 1 + |ref.handle| <= |value| && value[ref.start] == 64
    && forall k :: 0 <= k < |ref.handle| ==> value[ref.start + 1 + k] == ref.handle[k]
  }

  lemma SliceUnits(value: Str, start: nat, part: Str)
    requires start + |part| <= |value|
    ensures value[start..start + |part|] == part <==> forall k :: 0 <= k < |part| ==> value[start + k] == part[k]
  {
    var slice := value[start..start + |part|];
    assert forall k :: 0 <= k < |part| ==> slice[k] == value[start + k];
  }

  lemma NamedUnits(value: Str, start: nat, handle: Str)
    requires start + 1 + |handle| <= |value|
    ensures var named := [AT] + handle;
      (forall k :: 0 <= k < |named| ==> value[start + k] == named[k])
      <==> value[start] == 64 && forall k :: 0 <= k < |handle| ==> value[start + 1 + k] == handle[k]
  {
    var named := [AT] + handle;
    if forall k :: 0 <= k < |named| ==> value[start + k] == named[k] {
      assert value[start + 0] == named[0];
      forall k | 0 <= k < |handle| ensures value[start + 1 + k] == handle[k] {
        assert value[start + (k + 1)] == named[k + 1];
      }
    } else {
      var k :| 0 <= k < |named| && value[start + k] != named[k];
      if k > 0 { assert value[start + 1 + (k - 1)] != handle[k - 1]; }
    }
  }

  /** With ASCII handles a reference names its person exactly if its person's name stands at its offsets. */
  lemma NamesExactly(value: Str, ref: Reference)
    requires IsHandle(ref.handle)
    ensures Names(value, ref) <==> StandsIn(value, ref)
  {
    SurrogateChecksAreImplied(value, ref);
    if ref.end == ref.start + 1 + |ref.handle| <= |value| {
      SliceUnits(value, ref.start, [AT] + ref.handle);
      NamedUnits(value, ref.start, ref.handle);
    }
  }

  /** References are valid exactly if at most 20, each standing in the text, no two overlapping or sharing a person. */
  lemma ValidExactly(text: Str, refs: seq<Reference>)
    requires forall ref :: ref in refs ==> IsHandle(ref.handle)
    ensures Valid(text, refs)
      <==> && |refs| <= 20
           && (forall i :: 0 <= i < |refs| ==> StandsIn(Normalize(text), refs[i]))
           && forall i, j :: 0 <= i < j < |refs| ==>
                refs[i].end <= refs[j].start && refs[i].userId != refs[j].userId
  {
    ReferringExactly(Normalize(text), refs);
  }

  lemma ReferringExactly(value: Str, refs: seq<Reference>)
    requires forall ref :: ref in refs ==> IsHandle(ref.handle)
    ensures Referring(value, refs)
      <==> && (forall i :: 0 <= i < |refs| ==> StandsIn(value, refs[i]))
           && forall i, j :: 0 <= i < j < |refs| ==>
                refs[i].end <= refs[j].start && refs[i].userId != refs[j].userId
  {
    forall i | 0 <= i < |refs| ensures Names(value, refs[i]) <==> StandsIn(value, refs[i]) {
      assert refs[i] in refs;
      NamesExactly(value, refs[i]);
    }
  }

  /** Valid references never overlap, so cutting the text at all of them loses nothing and repeats nothing. */
  function Pieces(value: Str, refs: seq<Reference>, from: nat): seq<Str>
    requires from <= |value|
    requires forall i :: 0 <= i < |refs| ==> from <= refs[i].start <= refs[i].end <= |value|
    requires forall i, j :: 0 <= i < j < |refs| ==> refs[i].end <= refs[j].start
    decreases |refs|
  {
    if refs == [] then [value[from..]]
    else [value[from..refs[0].start], value[refs[0].start..refs[0].end]] + Pieces(value, refs[1..], refs[0].end)
  }

  function Concatenated(pieces: seq<Str>): Str {
    if pieces == [] then [] else pieces[0] + Concatenated(pieces[1..])
  }

  lemma {:induction false} PiecesRestore(value: Str, refs: seq<Reference>, from: nat)
    requires from <= |value|
    requires forall i :: 0 <= i < |refs| ==> from <= refs[i].start <= refs[i].end <= |value|
    requires forall i, j :: 0 <= i < j < |refs| ==> refs[i].end <= refs[j].start
    ensures Concatenated(Pieces(value, refs, from)) == value[from..]
    decreases |refs|
  {
    if refs == [] {
      assert Pieces(value, refs, from)[1..] == [];
    } else {
      var gap, cut := value[from..refs[0].start], value[refs[0].start..refs[0].end];
      var rest := Pieces(value, refs[1..], refs[0].end);
      PiecesRestore(value, refs[1..], refs[0].end);
      assert ([gap, cut] + rest)[1..] == [cut] + rest && ([cut] + rest)[1..] == rest;
      assert gap + (cut + value[refs[0].end..]) == value[from..];
    }
  }
}
