/**
 `stableJson`, the text every hash of the importer binds: its printer, a parser for what it prints, and what two
 values must share to print alike.

 Numbers are carried as the text `JSON.stringify` gives them. `undefined` is a value here because the printer meets
 it: a template spells it out after a key, while joining an array drops it, so `[undefined]` and `[]` print alike.
 */
module CanonicalJson {
  import opened Text
  import opened Wrappers
  import opened Sorting

  datatype Json =
    | Null
    | Bool(flag: bool)
    | Number(token: Str)
    | String(text: Str)
    | Array(items: seq<Json>)
    | Object(fields: seq<Field>)
    | Undefined

  datatype Field = Field(key: Str, value: Json)

  const QUOTE: Unit := 34
  const COMMA: Unit := 44
  const COLON: Unit := 58
  const BACKSLASH: Unit := 92
  const OPEN_LIST: Unit := 91
  const CLOSE_LIST: Unit := 93
  const OPEN_OBJECT: Unit := 123
  const CLOSE_OBJECT: Unit := 125
  const NULL := Lit("null")
  const TRUE := Lit("true")
  const FALSE := Lit("false")
  const UNDEFINED := Lit("undefined")

  lemma Assoc<T>(a: seq<T>, b: seq<T>, c: seq<T>)
    ensures a + b + c == a + (b + c)
  {
  }

  lemma Split<T>(a: seq<T>, b: seq<T>)
    ensures (a + b)[..|a|] == a && (a + b)[|a|..] == b
  {
  }

  // ---- Strings: section 7 of RFC 8259, with lone surrogates escaped ----

  /** The lower-case hexadecimal digit of a nibble. */
  function HexDigit(n: nat): Unit
    requires n < 16
  {
    (if n < 10 then 48 + n else 87 + n) as Unit
  }

  function HexValue(u: Unit): Option<nat> {
    if 48 <= u <= 57 then Some((u - 48) as nat) else if 97 <= u <= 102 then Some((u - 87) as nat) else None
  }

  /** The letter after the backslash for the controls that have a short escape. */
  function ShortEscape(u: Unit): Option<Unit> {
    if u == QUOTE || u == BACKSLASH then Some(u)
    else if u == 8 then Some(98)
    else if u == 12 then Some(102)
    else if u == 10 then Some(110)
    else if u == 13 then Some(114)
    else if u == 9 then Some(116)
    else None
  }

  function ShortUnescape(letter: Unit): Option<Unit> {
    if letter == QUOTE || letter == BACKSLASH then Some(letter)
    else if letter == 98 then Some(8)
    else if letter == 102 then Some(12)
    else if letter == 110 then Some(10)
    else if letter == 114 then Some(13)
    else if letter == 116 then Some(9)
    else None
  }

  function EscapeUnit(u: Unit): Str {
    if ShortEscape(u).Some? then [BACKSLASH, ShortEscape(u).value]
    else if u < 0x20 || IsHigh(u) || IsLow(u) then
      var n := u as nat;
      [BACKSLASH, 117, HexDigit(n / 4096), HexDigit(n / 256 % 16), HexDigit(n / 16 % 16), HexDigit(n % 16)]
    else [u]
  }

  /** The inside of a quoted string: surrogate pairs stay, lone surrogates are escaped. */
  function Escape(s: Str): Str {
    if s == [] then []
    else if IsHigh(s[0]) && |s| > 1 && IsLow(s[1]) then [s[0], s[1]] + Escape(s[2..])
    else EscapeUnit(s[0]) + Escape(s[1..])
  }

  function Quote(s: Str): Str {
    [QUOTE] + Escape(s) + [QUOTE]
  }

  /** Reads one unit of a string body, which must not start with the closing quote. */
  function ParseUnit(s: Str): (r: Option<(Unit, Str)>)
    ensures r.Some? ==> |r.value.1| < |s|
  {
    if s == [] || s[0] == QUOTE then None
    else if s[0] != BACKSLASH then Some((s[0], s[1..]))
    else if |s| > 1 && ShortUnescape(s[1]).Some? then Some((ShortUnescape(s[1]).value, s[2..]))
    else if |s| > 5 && s[1] == 117 then
      match (HexValue(s[2]), HexValue(s[3]), HexValue(s[4]), HexValue(s[5]))
      case (Some(a), Some(b), Some(c), Some(d)) =>
        if a < 16 && b < 16 && c < 16 && d < 16 then Some(((a * 4096 + b * 256 + c * 16 + d) as Unit, s[6..])) else None
      case _ => None
    else None
  }

  /** Reads a string body and its closing quote. */
  function ParseText(s: Str): (r: Option<(Str, Str)>)
    ensures r.Some? ==> |r.value.1| < |s|
    decreases |s|
  {
    if s != [] && s[0] == QUOTE then Some(([], s[1..]))
    else
      match ParseUnit(s)
      case None => None
      case Some((u, rest)) =>
        match ParseText(rest)
        case None => None
        case Some((text, rest')) => Some(([u] + text, rest'))
  }

  lemma HexParses(a: nat, b: nat, c: nat, d: nat, rest: Str)
    requires a < 16 && b < 16 && c < 16 && d < 16
    ensures ParseUnit([BACKSLASH, 117, HexDigit(a), HexDigit(b), HexDigit(c), HexDigit(d)] + rest)
         == Some(((a * 4096 + b * 256 + c * 16 + d) as Unit, rest))
  {
    var s := [BACKSLASH, 117, HexDigit(a), HexDigit(b), HexDigit(c), HexDigit(d)] + rest;
    assert s[6..] == rest;
  }

  lemma Nibbles(u: nat)
    ensures u == u / 4096 * 4096 + u / 256 % 16 * 256 + u / 16 % 16 * 16 + u % 16
  {
    assert u / 16 == u / 16 % 16 + 16 * (u / 256);
    assert u / 256 == u / 256 % 16 + 16 * (u / 4096);
  }

  lemma EscapeUnitParses(u: Unit, rest: Str)
    ensures ParseUnit(EscapeUnit(u) + rest) == Some((u, rest))
  {
    if ShortEscape(u).Some? {
      assert ([BACKSLASH, ShortEscape(u).value] + rest)[2..] == rest;
    } else if u < 0x20 || IsHigh(u) || IsLow(u) {
      var n := u as nat;
      HexParses(n / 4096, n / 256 % 16, n / 16 % 16, n % 16, rest);
      Nibbles(n);
    } else {
      assert ([u] + rest)[1..] == rest;
    }
  }

  /** Escaping loses nothing: the parser reads back exactly the units that were quoted. */
  lemma {:induction false} EscapeParses(s: Str, rest: Str)
    ensures ParseText(Escape(s) + ([QUOTE] + rest)) == Some((s, rest))
    decreases |s|
  {
    var tail := [QUOTE] + rest;
    if s == [] {
      assert Escape(s) + tail == tail && tail[1..] == rest;
    } else if IsHigh(s[0]) && |s| > 1 && IsLow(s[1]) {
      EscapeParses(s[2..], rest);
      EscapePair(s, tail);
      TextStep([s[1]], s[1], Escape(s[2..]) + tail, s[2..], rest);
      TextStep([s[0]], s[0], [s[1]] + (Escape(s[2..]) + tail), [s[1]] + s[2..], rest);
    } else {
      EscapeParses(s[1..], rest);
      var unit, inner := EscapeUnit(s[0]), Escape(s[1..]);
      EscapeOne(s, unit, inner, tail);
      Assoc(unit, inner, tail);
      TextStep(unit, s[0], inner + tail, s[1..], rest);
      assert [s[0]] + s[1..] == s;
    }
  }

  lemma EscapePair(s: Str, tail: Str)
    requires |s| > 1 && IsHigh(s[0]) && IsLow(s[1])
    ensures Escape(s) + tail == [s[0]] + ([s[1]] + (Escape(s[2..]) + tail))
    ensures [s[0]] + ([s[1]] + s[2..]) == s
  {
    PairFirst(s[0], s[1], Escape(s[2..]), tail);
    PairRest(s);
  }

  lemma PairFirst(a: Unit, b: Unit, inner: Str, tail: Str)
    ensures [a, b] + inner + tail == [a] + ([b] + (inner + tail))
  {
  }

  lemma PairRest(s: Str)
    requires |s| > 1
    ensures [s[0]] + ([s[1]] + s[2..]) == s
  {
  }

  lemma EscapeOne(s: Str, unit: Str, inner: Str, tail: Str)
    requires s != [] && !(IsHigh(s[0]) && |s| > 1 && IsLow(s[1]))
    requires unit == EscapeUnit(s[0]) && inner == Escape(s[1..])
    ensures Escape(s) == unit + inner && unit[0] != QUOTE
  {
  }

  lemma TextStep(printed: Str, u: Unit, after: Str, text: Str, rest: Str)
    requires printed != [] && printed[0] != QUOTE
    requires printed == EscapeUnit(u) || (printed == [u] && u != BACKSLASH)
    requires ParseText(after) == Some((text, rest))
    ensures ParseText(printed + after) == Some(([u] + text, rest))
  {
    if printed == EscapeUnit(u) {
      EscapeUnitParses(u, after);
    } else {
      assert (printed + after)[1..] == after;
    }
  }

  // ---- Values ----

  predicate IsNumberUnit(u: Unit) {
    48 <= u <= 57 || u == 43 || u == 45 || u == 46 || u == 69 || u == 101
  }

  predicate IsNumberToken(s: Str) {
    s != [] && (s[0] == 45 || 48 <= s[0] <= 57) && forall i :: 0 <= i < |s| ==> IsNumberUnit(s[i])
  }

  /** A value JavaScript can hold: numbers print as number tokens, and an object has each key once. */
  ghost predicate Valid(v: Json)
    decreases v
  {
    match v
    case Number(token) => IsNumberToken(token)
    case Array(items) => forall i :: 0 <= i < |items| ==> Valid(items[i])
    case Object(fields) =>
      && (forall i, j :: 0 <= i < j < |fields| ==> fields[i].key != fields[j].key)
      && forall i :: 0 <= i < |fields| ==> Valid(fields[i].value)
    case _ => true
  }

  predicate KeyLe(a: Field, b: Field) {
    Le(a.key, b.key)
  }

  /** `stableJson`. */
  function StableJson(v: Json): Str
    decreases v, 1, 0
  {
    match v
    case Null => NULL
    case Bool(flag) => if flag then TRUE else FALSE
    case Number(token) => token
    case String(text) => Quote(text)
    case Undefined => UNDEFINED
    case Array(items) => [OPEN_LIST] + Cells(items) + [CLOSE_LIST]
    case Object(fields) =>
      SortedParts(v);
      [OPEN_OBJECT] + Members(Sort(fields, KeyLe), v) + [CLOSE_OBJECT]
  }

  /** `value.map(stableJson).join(",")`: joining prints an undefined cell as nothing. */
  function Cells(items: seq<Json>): Str
    decreases items, 0
  {
    if items == [] then []
    else
      var cell := if items[0].Undefined? then [] else StableJson(items[0]);
      if |items| == 1 then cell else cell + [COMMA] + Cells(items[1..])
  }

  /** The joined members of an object of which the fields are part. */
  function Members(fields: seq<Field>, parent: Json): Str
    requires forall i :: 0 <= i < |fields| ==> fields[i].value < parent
    decreases parent, 0, |fields|
  {
    if fields == [] then []
    else
      var member := Quote(fields[0].key) + [COLON] + StableJson(fields[0].value);
      if |fields| == 1 then member else member + [COMMA] + Members(fields[1..], parent)
  }

  /** The value as the printed text determines it: keys in order, and a lone undefined cell gone. */
  function Normal(v: Json): Json
    decreases v, 1, 0
  {
    match v
    case Array(items) => if |items| == 1 && items[0].Undefined? then Array([]) else Array(Normals(items))
    case Object(fields) =>
      SortedParts(v);
      Object(NormalFields(Sort(fields, KeyLe), v))
    case _ => v
  }

  function Normals(items: seq<Json>): (r: seq<Json>)
    ensures |r| == |items|
    ensures forall i :: 0 <= i < |r| ==> r[i] == Normal(items[i])
    decreases items, 0
  {
    if items == [] then [] else [Normal(items[0])] + Normals(items[1..])
  }

  function NormalFields(fields: seq<Field>, parent: Json): (r: seq<Field>)
    requires forall i :: 0 <= i < |fields| ==> fields[i].value < parent
    ensures |r| == |fields|
    ensures forall i :: 0 <= i < |r| ==> fields[i] in fields && r[i] == Field(fields[i].key, Normal(fields[i].value))
    decreases parent, 0, |fields|
  {
    if fields == [] then []
    else [Field(fields[0].key, Normal(fields[0].value))] + NormalFields(fields[1..], parent)
  }

  lemma SortedParts(v: Json)
    requires v.Object?
    ensures forall i :: 0 <= i < |Sort(v.fields, KeyLe)| ==> Sort(v.fields, KeyLe)[i] in v.fields
    ensures forall i :: 0 <= i < |Sort(v.fields, KeyLe)| ==> Sort(v.fields, KeyLe)[i].value < v
  {
    var sorted := Sort(v.fields, KeyLe);
    SortMembers(v.fields, KeyLe);
    forall i | 0 <= i < |sorted| ensures sorted[i] in v.fields && sorted[i].value < v {
      assert sorted[i] in sorted;
      var j :| 0 <= j < |v.fields| && v.fields[j] == sorted[i];
    }
  }

  // ---- The printed text, spelled out ----

  /** The cells of a list as they are joined. */
  function CellTexts(items: seq<Json>): (r: seq<Str>)
    ensures |r| == |items|
    ensures forall i :: 0 <= i < |r| ==> r[i] == if items[i].Undefined? then [] else StableJson(items[i])
  {
    seq(|items|, i requires 0 <= i < |items| => if items[i].Undefined? then [] else StableJson(items[i]))
  }

  lemma {:induction false} CellsAreJoined(items: seq<Json>)
    ensures Cells(items) == Join(CellTexts(items), Lit(","))
  {
    if |items| > 1 {
      CellsAreJoined(items[1..]);
      assert CellTexts(items)[1..] == CellTexts(items[1..]);
    }
  }

  /** A list prints as its cells between brackets, with commas between them; an undefined cell prints as nothing. */
  lemma ListsPrint(items: seq<Json>)
    ensures StableJson(Array(items)) == Lit("[") + Join(CellTexts(items), Lit(",")) + Lit("]")
  {
    CellsAreJoined(items);
  }

  /** The members of an object as they are joined. */
  function MemberTexts(fields: seq<Field>): (r: seq<Str>)
    ensures |r| == |fields|
    ensures forall i :: 0 <= i < |r| ==> r[i] == Quote(fields[i].key) + Lit(":") + StableJson(fields[i].value)
  {
    seq(|fields|, i requires 0 <= i < |fields| => Quote(fields[i].key) + Lit(":") + StableJson(fields[i].value))
  }

  lemma {:induction false} MembersAreJoined(fields: seq<Field>, parent: Json)
    requires forall i :: 0 <= i < |fields| ==> fields[i].value < parent
    ensures Members(fields, parent) == Join(MemberTexts(fields), Lit(","))
    decreases |fields|
  {
    if |fields| > 1 {
      MembersAreJoined(fields[1..], parent);
      assert MemberTexts(fields)[1..] == MemberTexts(fields[1..]);
    }
  }

  lemma ObjectPrints(fields: seq<Field>)
    ensures var sorted, v := Sort(fields, KeyLe), Object(fields);
      && (forall i :: 0 <= i < |sorted| ==> sorted[i].value < v)
      && StableJson(v) == [OPEN_OBJECT] + Members(sorted, v) + [CLOSE_OBJECT]
  {
    SortedParts(Object(fields));
  }

  lemma Braces()
    ensures Lit("{") == [OPEN_OBJECT] && Lit("}") == [CLOSE_OBJECT]
  {
  }

  /** An object prints as its members between braces, with commas between them and in ascending order of their keys. */
  lemma ObjectsPrint(fields: seq<Field>, ordered: seq<Field>)
    requires multiset(ordered) == multiset(fields)
    requires forall i, j :: 0 <= i < j < |ordered| ==> ComesBefore(ordered[i].key, ordered[j].key)
    ensures StableJson(Object(fields)) == Lit("{") + Join(MemberTexts(ordered), Lit(",")) + Lit("}")
  {
    ObjectPrints(fields);
    Braces();
    OrderedIsSorted(fields, ordered);
    MembersAreJoined(ordered, Object(fields));
  }

  lemma OrderedIsSorted(fields: seq<Field>, ordered: seq<Field>)
    requires multiset(ordered) == multiset(fields)
    requires forall i, j :: 0 <= i < j < |ordered| ==> ComesBefore(ordered[i].key, ordered[j].key)
    ensures Sort(fields, KeyLe) == ordered
  {
    forall i, j | 0 <= i < j < |ordered|
      ensures KeyLe(ordered[i], ordered[j]) && ordered[i].key != ordered[j].key
    {
      LeFirstDifference(ordered[i].key, ordered[j].key);
      assert ComesBefore(ordered[i].key, ordered[j].key);
    }
    KeyOrder();
    SortKeeps(ordered, KeyLe);
    forall f, g | f in ordered && g in ordered && KeyLe(f, g) && KeyLe(g, f) ensures f == g {
      LeAntisymmetric(f.key, g.key);
      var i, j := IndexOf(ordered, f), IndexOf(ordered, g);
    }
    SortCanonical(ordered, fields, KeyLe);
  }

  predicate PrintsAsIs(u: Unit) { u >= 32 && u != 34 && u != 92 && !(0xD800 <= u < 0xE000) }

  lemma PlainUnit(u: Unit)
    requires PrintsAsIs(u)
    ensures EscapeUnit(u) == [u] && !IsHigh(u)
  {
  }

  /** Text without quotes, backslashes, controls and surrogates is quoted as it is. */
  lemma {:induction false} PlainTextPrints(s: Str)
    requires forall i :: 0 <= i < |s| ==> PrintsAsIs(s[i])
    ensures Escape(s) == s
  {
    if s != [] {
      PlainUnit(s[0]);
      PlainTextPrints(s[1..]);
      EscapeOne(s, [s[0]], s[1..], []);
      assert s == [s[0]] + s[1..];
    }
  }

  /** Quotes, backslashes and some controls print as two characters. */
  lemma EscapesPrint()
    ensures EscapeUnit(34) == Lit("\\\"") && EscapeUnit(92) == Lit("\\\\")
    ensures EscapeUnit(8) == Lit("\\b") && EscapeUnit(9) == Lit("\\t") && EscapeUnit(10) == Lit("\\n")
    ensures EscapeUnit(12) == Lit("\\f") && EscapeUnit(13) == Lit("\\r")
  {
  }

  /** The other controls and lone surrogates print as four lower-case hexadecimal digits. */
  lemma HexEscapesPrint()
    ensures EscapeUnit(0) == Lit("\\u0000") && EscapeUnit(31) == Lit("\\u001f")
    ensures EscapeUnit(0xD800) == Lit("\\ud800") && EscapeUnit(0xDFFF) == Lit("\\udfff")
  {
  }

  // ---- The parser ----

  function NumberLength(s: Str): (n: nat)
    ensures n <= |s|
  {
    if s != [] && IsNumberUnit(s[0]) then 1 + NumberLength(s[1..]) else 0
  }

  function ParseValue(s: Str): (r: Option<(Json, Str)>)
    ensures r.Some? ==> |r.value.1| < |s|
    decreases |s|, 2
  {
    if s == [] then None
    else if s[0] == QUOTE then
      match ParseText(s[1..])
      case None => None
      case Some((text, rest)) => Some((String(text), rest))
    else if s[0] == OPEN_LIST then
      if |s| > 1 && s[1] == CLOSE_LIST then Some((Array([]), s[2..]))
      else
        match ParseItems(s[1..])
        case None => None
        case Some((items, rest)) => Some((Array(items), rest))
    else if s[0] == OPEN_OBJECT then
      if |s| > 1 && s[1] == CLOSE_OBJECT then Some((Object([]), s[2..]))
      else
        match ParseFields(s[1..])
        case None => None
        case Some((fields, rest)) => Some((Object(fields), rest))
    else if NULL <= s then Some((Null, s[4..]))
    else if TRUE <= s then Some((Bool(true), s[4..]))
    else if FALSE <= s then Some((Bool(false), s[5..]))
    else if UNDEFINED <= s then Some((Undefined, s[9..]))
    else if s[0] == 45 || 48 <= s[0] <= 57 then Some((Number(s[..NumberLength(s)]), s[NumberLength(s)..]))
    else None
  }

  /** Reads the cells of an array and its closing bracket. */
  function ParseItems(s: Str): (r: Option<(seq<Json>, Str)>)
    ensures r.Some? ==> |r.value.1| < |s|
    decreases |s|, 3
  {
    var cell: Option<(Json, Str)> :=
      if s != [] && (s[0] == COMMA || s[0] == CLOSE_LIST) then Some((Undefined, s)) else ParseValue(s);
    match cell
    case None => None
    case Some((item, rest)) =>
      if rest == [] then None
      else if rest[0] == CLOSE_LIST then Some(([item], rest[1..]))
      else if rest[0] != COMMA then None
      else
        match ParseItems(rest[1..])
        case None => None
        case Some((items, rest')) => Some(([item] + items, rest'))
  }

  /** Reads the members of an object and its closing brace. */
  function ParseFields(s: Str): (r: Option<(seq<Field>, Str)>)
    ensures r.Some? ==> |r.value.1| < |s|
    decreases |s|, 3
  {
    if s == [] || s[0] != QUOTE then None
    else
      match ParseText(s[1..])
      case None => None
      case Some((key, afterKey)) =>
        if afterKey == [] || afterKey[0] != COLON then None
        else
          match ParseValue(afterKey[1..])
          case None => None
          case Some((value, rest)) =>
            if rest == [] then None
            else if rest[0] == CLOSE_OBJECT then Some(([Field(key, value)], rest[1..]))
            else if rest[0] != COMMA then None
            else
              match ParseFields(rest[1..])
              case None => None
              case Some((fields, rest')) => Some(([Field(key, value)] + fields, rest'))
  }

  // ---- The parser undoes the printer ----

  /** Text after a value that cannot be read as part of a number. */
  predicate Stops(rest: Str) {
    rest == [] || !IsNumberUnit(rest[0])
  }

  lemma {:induction false} NumberLengthStops(token: Str, rest: Str)
    requires Stops(rest) && forall i :: 0 <= i < |token| ==> IsNumberUnit(token[i])
    ensures NumberLength(token + rest) == |token|
    decreases |token|
  {
    if token == [] {
      assert token + rest == rest;
    } else {
      assert (token + rest)[1..] == token[1..] + rest;
      NumberLengthStops(token[1..], rest);
    }
  }

  lemma FirstUnit(v: Json)
    requires Valid(v)
    ensures StableJson(v) != [] && StableJson(v)[0] !in {COMMA, CLOSE_LIST, CLOSE_OBJECT}
  {
  }

  lemma LeafParses(v: Json, rest: Str)
    requires Valid(v) && Stops(rest) && (v.Null? || v.Bool? || v.Number? || v.Undefined?)
    ensures ParseValue(StableJson(v) + rest) == Some((v, rest))
  {
    var printed := StableJson(v);
    var s := printed + rest;
    assert s[..|printed|] == printed && s[|printed|..] == rest;
    assert s[0] == printed[0];
    if v.Number? {
      NumberLengthStops(printed, rest);
    } else {
      assert printed <= s;
    }
  }

  lemma {:induction false} ValueParses(v: Json, rest: Str)
    requires Valid(v) && Stops(rest)
    ensures ParseValue(StableJson(v) + rest) == Some((Normal(v), rest))
    decreases v, 1, 1
  {
    match v
    case String(text) =>
      EscapeParses(text, rest);
      QuoteSplits(text, rest);
    case Array(_) => ArrayParses(v, rest);
    case Object(_) => ObjectParses(v, rest);
    case _ => LeafParses(v, rest);
  }

  lemma {:induction false} ArrayParses(v: Json, rest: Str)
    requires Valid(v) && v.Array?
    ensures ParseValue(StableJson(v) + rest) == Some((Normal(v), rest))
    decreases v, 1, 0
  {
    var items := v.items;
    if items == [] || (|items| == 1 && items[0].Undefined?) {
      Split([OPEN_LIST, CLOSE_LIST], rest);
    } else {
      ItemsParse(items, rest);
      if !items[0].Undefined? { FirstUnit(items[0]); }
      var cells := Cells(items);
      assert (cells + ([CLOSE_LIST] + rest))[0] != CLOSE_LIST;
      ListBody(cells, rest);
    }
  }

  lemma {:induction false} ObjectParses(v: Json, rest: Str)
    requires Valid(v) && v.Object?
    ensures ParseValue(StableJson(v) + rest) == Some((Normal(v), rest))
    decreases v, 1, 0
  {
    SortedParts(v);
    SortPermutes(v.fields, KeyLe);
    var sorted := Sort(v.fields, KeyLe);
    if sorted == [] {
      Split([OPEN_OBJECT, CLOSE_OBJECT], rest);
    } else {
      forall i | 0 <= i < |sorted| ensures Valid(sorted[i].value) {
        var j :| 0 <= j < |v.fields| && v.fields[j] == sorted[i];
      }
      FieldsParse(sorted, v, rest);
      var members := Members(sorted, v);
      assert members[0] == QUOTE;
      ObjectBody(members, rest);
    }
  }

  lemma QuoteSplits(text: Str, after: Str)
    ensures (Quote(text) + after)[1..] == Escape(text) + ([QUOTE] + after)
    ensures (Quote(text) + after)[0] == QUOTE
  {
    Bracket(QUOTE, Escape(text), QUOTE, after);
  }

  lemma Bracket(first: Unit, inner: Str, last: Unit, rest: Str)
    ensures ([first] + inner + [last] + rest)[1..] == inner + ([last] + rest)
    ensures ([first] + inner + [last] + rest)[0] == first
  {
  }

  lemma ListBody(cells: Str, rest: Str)
    requires (cells + ([CLOSE_LIST] + rest))[0] != CLOSE_LIST
    requires ParseItems(cells + ([CLOSE_LIST] + rest)).Some?
    ensures ParseValue([OPEN_LIST] + cells + [CLOSE_LIST] + rest)
         == (match ParseItems(cells + ([CLOSE_LIST] + rest))
             case None => None
             case Some((xs, r)) => Some((Array(xs), r)))
  {
    Bracket(OPEN_LIST, cells, CLOSE_LIST, rest);
  }

  lemma ObjectBody(members: Str, rest: Str)
    requires (members + ([CLOSE_OBJECT] + rest))[0] != CLOSE_OBJECT
    requires ParseFields(members + ([CLOSE_OBJECT] + rest)).Some?
    ensures ParseValue([OPEN_OBJECT] + members + [CLOSE_OBJECT] + rest)
         == (match ParseFields(members + ([CLOSE_OBJECT] + rest))
             case None => None
             case Some((fs, r)) => Some((Object(fs), r)))
  {
    Bracket(OPEN_OBJECT, members, CLOSE_OBJECT, rest);
  }

  lemma {:induction false} ItemsParse(items: seq<Json>, rest: Str)
    requires items != [] && forall i :: 0 <= i < |items| ==> Valid(items[i])
    ensures ParseItems(Cells(items) + ([CLOSE_LIST] + rest)) == Some((Normals(items), rest))
    decreases items, 1, 0
  {
    var cell := if items[0].Undefined? then [] else StableJson(items[0]);
    if |items| == 1 {
      CellParses(items[0], cell, [CLOSE_LIST] + rest);
      Split([CLOSE_LIST], rest);
      assert Normals(items) == [Normal(items[0])];
    } else {
      ItemsParse(items[1..], rest);
      var after := [COMMA] + (Cells(items[1..]) + ([CLOSE_LIST] + rest));
      CellParses(items[0], cell, after);
      Chain(cell, COMMA, Cells(items[1..]), [CLOSE_LIST] + rest);
    }
  }

  lemma {:induction false} CellParses(item: Json, cell: Str, after: Str)
    requires Valid(item) && cell == (if item.Undefined? then [] else StableJson(item))
    requires after != [] && (after[0] == COMMA || after[0] == CLOSE_LIST)
    ensures ParseItems(cell + after)
         == (if after[0] == CLOSE_LIST then Some(([Normal(item)], after[1..]))
             else match ParseItems(after[1..]) case None => None case Some((xs, r)) => Some(([Normal(item)] + xs, r)))
    decreases item, 1, 2
  {
    if item.Undefined? {
      assert cell + after == after;
    } else {
      FirstUnit(item);
      ValueParses(item, after);
    }
  }

  lemma Chain(first: Str, separator: Unit, others: Str, rest: Str)
    ensures first + [separator] + others + rest == first + ([separator] + (others + rest))
    ensures ([separator] + (others + rest))[1..] == others + rest
  {
  }

  lemma {:induction false} FieldsParse(fields: seq<Field>, parent: Json, rest: Str)
    requires fields != [] && forall i :: 0 <= i < |fields| ==> fields[i].value < parent && Valid(fields[i].value)
    ensures ParseFields(Members(fields, parent) + ([CLOSE_OBJECT] + rest)) == Some((NormalFields(fields, parent), rest))
    decreases parent, 0, |fields|
  {
    if |fields| == 1 {
      MemberParses(fields[0], [CLOSE_OBJECT] + rest);
      Split([CLOSE_OBJECT], rest);
      assert NormalFields(fields, parent) == [Field(fields[0].key, Normal(fields[0].value))];
    } else {
      FieldsParse(fields[1..], parent, rest);
      var members, others := Members(fields[1..], parent), NormalFields(fields[1..], parent);
      MoreFields(fields[0], members, others, [CLOSE_OBJECT] + rest, rest);
      var member := Quote(fields[0].key) + [COLON] + StableJson(fields[0].value);
      FieldsStep(fields, parent, member, members, others, [CLOSE_OBJECT] + rest, rest);
    }
  }

  lemma FieldsStep(
    fields: seq<Field>, parent: Json, member: Str, members: Str, others: seq<Field>, close: Str, rest: Str)
    requires |fields| > 1 && forall i :: 0 <= i < |fields| ==> fields[i].value < parent
    requires member == Quote(fields[0].key) + [COLON] + StableJson(fields[0].value)
    requires members == Members(fields[1..], parent) && others == NormalFields(fields[1..], parent)
    requires ParseFields(member + ([COMMA] + (members + close)))
          == Some(([Field(fields[0].key, Normal(fields[0].value))] + others, rest))
    ensures ParseFields(Members(fields, parent) + close) == Some((NormalFields(fields, parent), rest))
  {
    Chain(member, COMMA, members, close);
    assert Members(fields, parent) == member + [COMMA] + members;
  }

  lemma {:induction false} MoreFields(f: Field, members: Str, others: seq<Field>, close: Str, rest: Str)
    requires Valid(f.value) && ParseFields(members + close) == Some((others, rest))
    ensures ParseFields(Quote(f.key) + [COLON] + StableJson(f.value) + ([COMMA] + (members + close)))
         == Some(([Field(f.key, Normal(f.value))] + others, rest))
    decreases f.value, 1, 3
  {
    MemberParses(f, [COMMA] + (members + close));
    Split([COMMA], members + close);
  }

  lemma {:induction false} MemberParses(f: Field, after: Str)
    requires Valid(f.value) && after != [] && (after[0] == COMMA || after[0] == CLOSE_OBJECT)
    ensures ParseFields(Quote(f.key) + [COLON] + StableJson(f.value) + after)
         == (var g := Field(f.key, Normal(f.value));
             if after[0] == CLOSE_OBJECT then Some(([g], after[1..]))
             else match ParseFields(after[1..]) case None => None case Some((gs, r)) => Some(([g] + gs, r)))
    decreases f.value, 1, 2
  {
    var printed := StableJson(f.value);
    Assoc(Quote(f.key), [COLON], printed);
    Assoc(Quote(f.key), [COLON] + printed, after);
    Assoc([COLON], printed, after);
    QuoteSplits(f.key, [COLON] + (printed + after));
    EscapeParses(f.key, [COLON] + (printed + after));
    ValueParses(f.value, after);
  }

  /** The parser undoes the printer on every value, up to key order and lone undefined cells. */
  lemma ParserUndoesPrinter(v: Json)
    requires Valid(v)
    ensures ParseValue(StableJson(v)) == Some((Normal(v), []))
  {
    ValueParses(v, []);
    assert StableJson(v) + [] == StableJson(v);
  }

  // ---- Printing alike ----

  lemma KeyOrder()
    ensures TotalOrder(KeyLe)
  {
    forall x: Field, y: Field ensures KeyLe(x, y) || KeyLe(y, x) { LeTotal(x.key, y.key); }
    forall x: Field, y: Field, z: Field | KeyLe(x, y) && KeyLe(y, z) ensures KeyLe(x, z) {
      LeTransitive(x.key, y.key, z.key);
    }
  }

  /** The normal value prints as the value it came from. */
  lemma {:induction false} NormalPrints(v: Json)
    ensures StableJson(Normal(v)) == StableJson(v)
    decreases v, 1, 0
  {
    match v
    case Array(items) =>
      if !(|items| == 1 && items[0].Undefined?) { CellsPrint(items); }
    case Object(fields) =>
      SortedParts(v);
      var sorted := Sort(fields, KeyLe);
      var normal := NormalFields(sorted, v);
      KeyOrder();
      SortSorts(fields, KeyLe);
      SortKeeps(normal, KeyLe);
      SortedParts(Normal(v));
      MembersPrint(sorted, v, Normal(v));
    case _ =>
  }

  lemma {:induction false} CellsPrint(items: seq<Json>)
    ensures Cells(Normals(items)) == Cells(items)
    decreases items, 1, 0
  {
    if items != [] {
      NormalPrints(items[0]);
      CellsPrint(items[1..]);
      assert Normals(items)[1..] == Normals(items[1..]);
    }
  }

  lemma {:induction false} MembersPrint(fields: seq<Field>, parent: Json, parent': Json)
    requires forall i :: 0 <= i < |fields| ==> fields[i].value < parent
    requires forall i :: 0 <= i < |fields| ==> NormalFields(fields, parent)[i].value < parent'
    ensures Members(NormalFields(fields, parent), parent') == Members(fields, parent)
    decreases parent, 0, |fields|
  {
    if fields != [] {
      NormalPrints(fields[0].value);
      assert NormalFields(fields, parent)[1..] == NormalFields(fields[1..], parent);
      MembersPrint(fields[1..], parent, parent');
    }
  }

  /** Two values print alike exactly when their normal forms agree. */
  lemma PrintsAlike(a: Json, b: Json)
    requires Valid(a) && Valid(b)
    ensures StableJson(a) == StableJson(b) <==> Normal(a) == Normal(b)
  {
    ParserUndoesPrinter(a);
    ParserUndoesPrinter(b);
    NormalPrints(a);
    NormalPrints(b);
  }

  /** No array, at any depth, consists of one undefined cell. Every undefined-free value is such a value. */
  ghost predicate LoneFree(v: Json)
    decreases v
  {
    match v
    case Array(items) =>
      && !(|items| == 1 && items[0].Undefined?)
      && forall i :: 0 <= i < |items| ==> LoneFree(items[i])
    case Object(fields) => forall i :: 0 <= i < |fields| ==> LoneFree(fields[i].value)
    case _ => true
  }

  /** Equality of values when the order in which an object lists its keys does not count, at any depth. */
  ghost predicate SameUpToKeyOrder(a: Json, b: Json)
    decreases a
  {
    match (a, b)
    case (Array(xs), Array(ys)) =>
      |xs| == |ys| && forall i :: 0 <= i < |xs| ==> SameUpToKeyOrder(xs[i], ys[i])
    case (Object(fs), Object(gs)) =>
      |fs| == |gs| && forall i :: 0 <= i < |fs| ==> HasPartner(fs[i], gs)
    case (Array(_), _) => false
    case (Object(_), _) => false
    case _ => a == b
  }

  ghost predicate HasPartner(f: Field, gs: seq<Field>)
    decreases f
  {
    exists j :: 0 <= j < |gs| && gs[j].key == f.key && SameUpToKeyOrder(f.value, gs[j].value)
  }

  function Keys(fields: seq<Field>): (keys: seq<Str>)
    ensures |keys| == |fields|
    ensures forall i :: 0 <= i < |keys| ==> keys[i] == fields[i].key
  {
    seq(|fields|, i requires 0 <= i < |fields| => fields[i].key)
  }

  /** Two strictly ordered key lists with the same keys are the same list. */
  lemma SortedKeysAgree(a: seq<Str>, b: seq<Str>)
    requires Sorted(a, Le) && Sorted(b, Le) && Distinct(a) && Distinct(b)
    requires |a| == |b| && forall k :: k in a ==> k in b
    ensures a == b
  {
    DistinctCovers(a, b);
    DistinctSame(a, b);
    forall x: Str ensures Le(x, x) { LeTotal(x, x); }
    forall x: Str, y: Str | Le(x, y) && Le(y, x) ensures x == y { LeAntisymmetric(x, y); }
    SortedUnique(a, b, Le);
  }

  ghost predicate NormalOf(normal: Field, f: Field) {
    normal == Field(f.key, Normal(f.value))
  }

  /**
   An object's normal members: ordered by distinct keys, and one for each original member. `to` says where each
   original member went and `from` where each normal member came from.
   */
  lemma NormalMembers(v: Json) returns (to: seq<nat>, from: seq<nat>)
    requires Valid(v) && v.Object?
    ensures Normal(v).Object? && |Normal(v).fields| == |v.fields| == |to| == |from|
    ensures Sorted(Keys(Normal(v).fields), Le) && Distinct(Keys(Normal(v).fields))
    ensures forall j :: 0 <= j < |to| ==> to[j] < |to| && NormalOf(Normal(v).fields[to[j]], v.fields[j])
    ensures forall i :: 0 <= i < |from| ==> from[i] < |from| && NormalOf(Normal(v).fields[i], v.fields[from[i]])
  {
    var sorted := Sort(v.fields, KeyLe);
    SortedParts(v);
    SortPermutes(v.fields, KeyLe);
    SortMembers(v.fields, KeyLe);
    NormalKeys(v, sorted);
    to := seq(|v.fields|, j requires 0 <= j < |v.fields| => IndexOf(sorted, v.fields[j]));
    from := seq(|v.fields|, i requires 0 <= i < |v.fields| => IndexOf(v.fields, sorted[i]));
  }

  lemma NormalKeys(v: Json, sorted: seq<Field>)
    requires Valid(v) && v.Object? && sorted == Sort(v.fields, KeyLe)
    ensures Sorted(Keys(Normal(v).fields), Le) && Distinct(Keys(Normal(v).fields))
  {
    SortedParts(v);
    KeyOrder();
    SortSorts(v.fields, KeyLe);
    DistinctKeysSort(v.fields);
    assert Keys(Normal(v).fields) == Keys(sorted);
  }

  lemma DistinctKeysSort(fields: seq<Field>)
    requires forall i, j :: 0 <= i < j < |fields| ==> fields[i].key != fields[j].key
    ensures Distinct(Keys(Sort(fields, KeyLe)))
  {
    var sorted := Sort(fields, KeyLe);
    SortPermutes(fields, KeyLe);
    SortMembers(fields, KeyLe);
    PermutedDistinct(fields, sorted);
    forall i, j | 0 <= i < j < |sorted| ensures sorted[i].key != sorted[j].key {
      OneFieldPerKey(fields, sorted[i], sorted[j]);
    }
  }

  lemma OneFieldPerKey(fields: seq<Field>, f: Field, g: Field)
    requires forall i, j :: 0 <= i < j < |fields| ==> fields[i].key != fields[j].key
    requires f in fields && g in fields
    ensures f.key == g.key ==> f == g
  {
    var i, j := IndexOf(fields, f), IndexOf(fields, g);
  }

  /** Equal normal forms are equality up to key order: the printer forgets the order and nothing else. */
  lemma {:induction false} NormalForgetsOnlyOrder(a: Json, b: Json)
    requires Valid(a) && Valid(b) && LoneFree(a) && LoneFree(b)
    ensures Normal(a) == Normal(b) <==> SameUpToKeyOrder(a, b)
    decreases a
  {
    if a.Array? && b.Array? {
      forall i | 0 <= i < |a.items| && i < |b.items|
        ensures Normal(a.items[i]) == Normal(b.items[i]) <==> SameUpToKeyOrder(a.items[i], b.items[i])
      {
        NormalForgetsOnlyOrder(a.items[i], b.items[i]);
      }
      ItemsForgetOnlyOrder(a, b);
    } else if a.Object? && b.Object? {
      forall i, j | 0 <= i < |a.fields| && 0 <= j < |b.fields|
        ensures Normal(a.fields[i].value) == Normal(b.fields[j].value)
           <==> SameUpToKeyOrder(a.fields[i].value, b.fields[j].value)
      {
        NormalForgetsOnlyOrder(a.fields[i].value, b.fields[j].value);
      }
      if SameUpToKeyOrder(a, b) { SameMembersNormalise(a, b); }
      if Normal(a) == Normal(b) { NormalMembersSame(a, b); }
    }
  }

  lemma ItemsForgetOnlyOrder(a: Json, b: Json)
    requires a.Array? && b.Array? && LoneFree(a) && LoneFree(b)
    requires forall i :: 0 <= i < |a.items| && i < |b.items| ==>
      (Normal(a.items[i]) == Normal(b.items[i]) <==> SameUpToKeyOrder(a.items[i], b.items[i]))
    ensures Normal(a) == Normal(b) <==> SameUpToKeyOrder(a, b)
  {
    NormalItems(a);
    NormalItems(b);
    var na, nb := Normals(a.items), Normals(b.items);
    if |na| == |nb| {
      assert na == nb <==> forall i :: 0 <= i < |na| ==> na[i] == nb[i];
    }
  }

  lemma NormalItems(v: Json)
    requires v.Array? && LoneFree(v)
    ensures Normal(v) == Array(Normals(v.items))
  {
  }

  lemma SameMembersNormalise(a: Json, b: Json)
    requires a.Object? && b.Object? && Valid(a) && Valid(b) && SameUpToKeyOrder(a, b)
    requires forall i, j :: 0 <= i < |a.fields| && 0 <= j < |b.fields| ==>
      (Normal(a.fields[i].value) == Normal(b.fields[j].value)
       <==> SameUpToKeyOrder(a.fields[i].value, b.fields[j].value))
    ensures Normal(a) == Normal(b)
  {
    var toA, fromA := NormalMembers(a);
    var toB, fromB := NormalMembers(b);
    var na, nb := Normal(a).fields, Normal(b).fields;
    AllHavePartners(a, b);
    forall i | 0 <= i < |na| ensures na[i] in nb {
      NormalPartner(na[i], a.fields[fromA[i]], b.fields, nb, toB);
    }
    MembersAgree(na, nb);
  }

  lemma AllHavePartners(a: Json, b: Json)
    requires a.Object? && b.Object? && SameUpToKeyOrder(a, b)
    ensures |a.fields| == |b.fields| && forall i :: 0 <= i < |a.fields| ==> HasPartner(a.fields[i], b.fields)
  {
  }

  lemma NormalPartner(normal: Field, f: Field, gs: seq<Field>, normals: seq<Field>, to: seq<nat>)
    requires NormalOf(normal, f) && HasPartner(f, gs)
    requires forall j :: 0 <= j < |gs| && SameUpToKeyOrder(f.value, gs[j].value) ==>
      Normal(f.value) == Normal(gs[j].value)
    requires |to| == |gs| && forall j :: 0 <= j < |to| ==> to[j] < |normals| && NormalOf(normals[to[j]], gs[j])
    ensures normal in normals
  {
    var k :| 0 <= k < |gs| && gs[k].key == f.key && SameUpToKeyOrder(f.value, gs[k].value);
    assert normals[to[k]] == normal;
  }

  lemma MembersAgree(a: seq<Field>, b: seq<Field>)
    requires |a| == |b| && forall i :: 0 <= i < |a| ==> a[i] in b
    requires Sorted(Keys(a), Le) && Distinct(Keys(a)) && Sorted(Keys(b), Le) && Distinct(Keys(b))
    ensures a == b
  {
    forall k | k in Keys(a) ensures k in Keys(b) {
      var i := IndexOf(Keys(a), k);
      assert Keys(b)[IndexOf(b, a[i])] == k;
    }
    SortedKeysAgree(Keys(a), Keys(b));
    forall i | 0 <= i < |a| ensures a[i] == b[i] { SameKeySamePlace(b, a[i], i); }
  }

  lemma SameKeySamePlace(fields: seq<Field>, f: Field, i: nat)
    requires Distinct(Keys(fields)) && f in fields && i < |fields| && Keys(fields)[i] == f.key
    ensures fields[i] == f
  {
    assert Keys(fields)[IndexOf(fields, f)] == f.key;
  }

  lemma NormalMembersSame(a: Json, b: Json)
    requires a.Object? && b.Object? && Valid(a) && Valid(b) && Normal(a) == Normal(b)
    requires forall i, j :: 0 <= i < |a.fields| && 0 <= j < |b.fields| ==>
      (Normal(a.fields[i].value) == Normal(b.fields[j].value)
       <==> SameUpToKeyOrder(a.fields[i].value, b.fields[j].value))
    ensures SameUpToKeyOrder(a, b)
  {
    var toA, fromA := NormalMembers(a);
    var toB, fromB := NormalMembers(b);
    var partner := Partners(Normal(a).fields, a.fields, b.fields, toA, fromB);
    forall i | 0 <= i < |a.fields| ensures HasPartner(a.fields[i], b.fields) {
      var j := partner[i];
    }
    PartnersSame(a, b);
  }

  lemma Partners(normal: seq<Field>, fs: seq<Field>, gs: seq<Field>, to: seq<nat>, from: seq<nat>)
    returns (partner: seq<nat>)
    requires |to| == |fs| == |normal| && |from| == |gs| == |normal|
    requires forall i :: 0 <= i < |to| ==> to[i] < |normal| && NormalOf(normal[to[i]], fs[i])
    requires forall i :: 0 <= i < |from| ==> from[i] < |gs| && NormalOf(normal[i], gs[from[i]])
    requires forall i, j :: 0 <= i < |fs| && 0 <= j < |gs| ==>
      Normal(fs[i].value) == Normal(gs[j].value) ==> SameUpToKeyOrder(fs[i].value, gs[j].value)
    ensures |partner| == |fs|
    ensures forall i :: 0 <= i < |partner| ==> partner[i] < |gs| && gs[partner[i]].key == fs[i].key
    ensures forall i :: 0 <= i < |partner| ==> SameUpToKeyOrder(fs[i].value, gs[partner[i]].value)
  {
    partner := seq(|to|, i requires 0 <= i < |to| => from[to[i]]);
    forall i | 0 <= i < |partner|
      ensures gs[partner[i]].key == fs[i].key && SameUpToKeyOrder(fs[i].value, gs[partner[i]].value)
    {
      assert NormalOf(normal[to[i]], fs[i]) && NormalOf(normal[to[i]], gs[partner[i]]);
    }
  }

  lemma PartnersSame(a: Json, b: Json)
    requires a.Object? && b.Object? && |a.fields| == |b.fields|
    requires forall i :: 0 <= i < |a.fields| ==> HasPartner(a.fields[i], b.fields)
    ensures SameUpToKeyOrder(a, b)
  {
  }

  /** Canonical JSON is unambiguous: values print alike exactly when they are equal up to key order. */
  lemma StableJsonUnambiguous(a: Json, b: Json)
    requires Valid(a) && Valid(b) && LoneFree(a) && LoneFree(b)
    ensures StableJson(a) == StableJson(b) <==> SameUpToKeyOrder(a, b)
  {
    PrintsAlike(a, b);
    NormalForgetsOnlyOrder(a, b);
  }

  /**
   Lone undefined cells are the only ambiguity: a value prints like its normal form, which has none, and the two are
   equal up to key order exactly when the value has none either.
   */
  lemma LoneCellsAreTheOnlyAmbiguity(v: Json)
    requires Valid(v)
    ensures Valid(Normal(v)) && LoneFree(Normal(v)) && StableJson(Normal(v)) == StableJson(v)
    ensures SameUpToKeyOrder(v, Normal(v)) <==> LoneFree(v)
  {
    NormalPrints(v);
    NormalIsValid(v);
    PrintsAlike(v, Normal(v));
    if LoneFree(v) { NormalForgetsOnlyOrder(v, Normal(v)); }
    if SameUpToKeyOrder(v, Normal(v)) { SameKeepsLoneCells(v, Normal(v)); }
  }

  /** The ambiguity itself: an array of one undefined cell prints as the empty array. */
  lemma LoneCellPrintsAsNothing()
    ensures StableJson(Array([Undefined])) == StableJson(Array([])) == [OPEN_LIST, CLOSE_LIST]
    ensures Valid(Array([Undefined])) && !SameUpToKeyOrder(Array([Undefined]), Array([]))
  {
  }

  lemma {:induction false} NormalIsValid(v: Json)
    requires Valid(v)
    ensures Valid(Normal(v)) && LoneFree(Normal(v))
    decreases v
  {
    match v
    case Array(items) =>
      forall i | 0 <= i < |items| { NormalIsValid(items[i]); }
      forall i | 0 <= i < |items| && Normal(items[i]).Undefined? ensures items[i].Undefined? {}
    case Object(fields) =>
      var to, from := NormalMembers(v);
      forall j | 0 <= j < |fields| { NormalIsValid(fields[j].value); }
      var normal := Normal(v).fields;
      forall i | 0 <= i < |normal| ensures Valid(normal[i].value) && LoneFree(normal[i].value) {
        assert NormalOf(normal[i], fields[from[i]]);
      }
      forall i, j | 0 <= i < j < |normal| ensures normal[i].key != normal[j].key {
        assert Keys(normal)[i] != Keys(normal)[j];
      }
    case _ =>
  }

  lemma {:induction false} SameKeepsLoneCells(a: Json, b: Json)
    requires SameUpToKeyOrder(a, b) && LoneFree(b)
    ensures LoneFree(a)
    decreases a
  {
    match (a, b)
    case (Array(xs), Array(ys)) =>
      forall i | 0 <= i < |xs| ensures LoneFree(xs[i]) { SameKeepsLoneCells(xs[i], ys[i]); }
    case (Object(fs), Object(gs)) =>
      forall i | 0 <= i < |fs| ensures LoneFree(fs[i].value) {
        var j :| 0 <= j < |gs| && gs[j].key == fs[i].key && SameUpToKeyOrder(fs[i].value, gs[j].value);
        SameKeepsLoneCells(fs[i].value, gs[j].value);
      }
    case _ =>
  }

  // ---- Numbers ----

  /** A natural number as `JSON.stringify` spells it. */
  function Decimal(n: nat): (token: Str)
    ensures token != [] && forall i :: 0 <= i < |token| ==> 48 <= token[i] <= 57
  {
    if n < 10 then [(48 + n) as Unit] else Decimal(n / 10) + [(48 + n % 10) as Unit]
  }

  lemma {:induction false} DecimalInjective(m: nat, n: nat)
    requires Decimal(m) == Decimal(n)
    ensures m == n
  {
    assert Decimal(m)[|Decimal(m)| - 1] == Decimal(n)[|Decimal(n)| - 1];
    assert m % 10 == n % 10;
    assert |Decimal(m)| == 1 <==> m < 10;
    assert |Decimal(n)| == 1 <==> n < 10;
    if m >= 10 {
      assert Decimal(m)[..|Decimal(m)| - 1] == Decimal(m / 10);
      assert Decimal(n)[..|Decimal(n)| - 1] == Decimal(n / 10);
      DecimalInjective(m / 10, n / 10);
    }
  }
}
