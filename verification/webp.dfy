/**
 The walk over a WebP container that finds the image dimensions, and the encodings it inverts: the container and chunk
 headers of RFC 9649 sections 2.3 to 2.7, the VP8L header of its section 3.4, and the VP8 key frame header of RFC 6386
 section 9.1.
 */
module Webp {
  import opened Wrappers

  newtype Byte = n: int | 0 <= n < 0x100
  type Bytes = seq<Byte>

  const RIFF: Bytes := [0x52, 0x49, 0x46, 0x46]
  const WEBP: Bytes := [0x57, 0x45, 0x42, 0x50]
  const VP8X: Bytes := [0x56, 0x50, 0x38, 0x58]
  const VP8: Bytes := [0x56, 0x50, 0x38, 0x20]
  const VP8L: Bytes := [0x56, 0x50, 0x38, 0x4C]
  const START_CODE: Bytes := [0x9D, 0x01, 0x2A]
  const SIGNATURE: Byte := 0x2F

  datatype Dimensions = Dimensions(width: nat, height: nat)
  datatype Error = InvalidContainer | TruncatedChunk | Unavailable

  // ---- Little-endian integers ----

  function ReadU16(b: Bytes, i: nat): (n: nat)
    requires i + 2 <= |b|
    ensures n < 0x1_0000
  {
    b[i] as nat + 0x100 * b[i + 1] as nat
  }

  function ReadU24(b: Bytes, i: nat): (n: nat)
    requires i + 3 <= |b|
    ensures n < 0x100_0000
  {
    ReadU16(b, i) + 0x1_0000 * b[i + 2] as nat
  }

  function ReadU32(b: Bytes, i: nat): (n: nat)
    requires i + 4 <= |b|
    ensures n < 0x1_0000_0000
  {
    ReadU24(b, i) + 0x100_0000 * b[i + 3] as nat
  }

  function LowByte(n: nat): Byte { (n % 0x100) as Byte }

  function WriteU16(n: nat): (b: Bytes)
    ensures |b| == 2
  {
    [LowByte(n), LowByte(n / 0x100)]
  }

  function WriteU24(n: nat): (b: Bytes)
    ensures |b| == 3
  {
    [LowByte(n), LowByte(n / 0x100), LowByte(n / 0x1_0000)]
  }

  function WriteU32(n: nat): (b: Bytes)
    ensures |b| == 4
  {
    [LowByte(n), LowByte(n / 0x100), LowByte(n / 0x1_0000), LowByte(n / 0x100_0000)]
  }

  lemma Digits(n: nat)
    ensures n == n % 0x100 + 0x100 * (n / 0x100 % 0x100) + 0x1_0000 * (n / 0x1_0000)
    ensures n / 0x1_0000 == n / 0x1_0000 % 0x100 + 0x100 * (n / 0x100_0000)
  {
    assert n / 0x1_0000 == (n / 0x100) / 0x100 && n / 0x100_0000 == (n / 0x1_0000) / 0x100;
  }

  lemma Reads16(b: Bytes, i: nat, n: nat)
    requires i + 2 <= |b| && b[i..i + 2] == WriteU16(n) && n < 0x1_0000
    ensures ReadU16(b, i) == n
  {
    Units(b, i, WriteU16(n));
    Digits(n);
  }

  lemma Reads24(b: Bytes, i: nat, n: nat)
    requires i + 3 <= |b| && b[i..i + 3] == WriteU24(n) && n < 0x100_0000
    ensures ReadU24(b, i) == n
  {
    Units(b, i, WriteU24(n));
    Digits(n);
  }

  lemma Reads32(b: Bytes, i: nat, n: nat)
    requires i + 4 <= |b| && b[i..i + 4] == WriteU32(n) && n < 0x1_0000_0000
    ensures ReadU32(b, i) == n
  {
    Units(b, i, WriteU32(n));
    Digits(n);
  }

  lemma Units(b: Bytes, i: nat, part: Bytes)
    requires i + |part| <= |b| && b[i..i + |part|] == part
    ensures forall k :: 0 <= k < |part| ==> b[i + k] == part[k]
  {
    forall k | 0 <= k < |part| ensures b[i + k] == part[k] { assert b[i..i + |part|][k] == b[i + k]; }
  }

  lemma WritesRead(b: Bytes, i: nat)
    requires i + 4 <= |b|
    ensures WriteU32(ReadU32(b, i)) == b[i..i + 4]
  {
    var n := ReadU32(b, i);
    Peel(b[i] as nat, b[i + 1] as nat + 0x100 * b[i + 2] as nat + 0x1_0000 * b[i + 3] as nat);
    Peel(b[i + 1] as nat, b[i + 2] as nat + 0x100 * b[i + 3] as nat);
    Peel(b[i + 2] as nat, b[i + 3] as nat);
    assert n / 0x1_0000 == (n / 0x100) / 0x100 && n / 0x100_0000 == (n / 0x1_0000) / 0x100;
  }

  lemma Peel(low: nat, high: nat)
    requires low < 0x100
    ensures (low + 0x100 * high) % 0x100 == low && (low + 0x100 * high) / 0x100 == high
  {
  }

  // ---- Chunks ----

  datatype Format = ExtendedFormat | LossyFormat | LosslessFormat | NoImage

  /** The format that the four bytes of a tag name. */
  function FormatOf(b: Bytes, i: nat): Format
    requires i + 4 <= |b|
  {
    if b[i] == 0x56 && b[i + 1] == 0x50 && b[i + 2] == 0x38 then LastOf(b[i + 3]) else NoImage
  }

  lemma FormatIs(b: Bytes, i: nat)
    requires i + 4 <= |b|
    ensures FormatOf(b, i).ExtendedFormat? <==> b[i..i + 4] == VP8X
    ensures FormatOf(b, i).LossyFormat? <==> b[i..i + 4] == VP8
    ensures FormatOf(b, i).LosslessFormat? <==> b[i..i + 4] == VP8L
  {
  }

  function LastOf(u: Byte): Format {
    if u == 0x58 then ExtendedFormat
    else if u == 0x20 then LossyFormat
    else if u == 0x4C then LosslessFormat
    else NoImage
  }

  /**
   What a chunk, whose payload stands at `start`, says of the dimensions, if it is one that does. Masking with 0x3fff
   keeps the low 14 bits.
   */
  function Recognized(format: Format, b: Bytes, start: nat, size: nat): Option<Dimensions>
    requires start + size <= |b|
  {
    match format
    case ExtendedFormat =>
      if size >= 10 then Some(Dimensions(ReadU24(b, start + 4) + 1, ReadU24(b, start + 7) + 1)) else None
    case LossyFormat =>
      if size >= 10 && HasStartCode(b, start + 3) then
        Some(Dimensions(ReadU16(b, start + 6) % 0x4000, ReadU16(b, start + 8) % 0x4000))
      else None
    case LosslessFormat =>
      if size >= 5 && b[start] == SIGNATURE then
        Some(Dimensions(ReadU32(b, start + 1) % 0x4000 + 1, ReadU32(b, start + 1) / 0x4000 % 0x4000 + 1))
      else None
    case NoImage => None
  }

  predicate HasStartCode(b: Bytes, i: nat)
    requires i + 3 <= |b|
  {
    b[i] == 0x9D && b[i + 1] == 0x01 && b[i + 2] == 0x2A
  }

  lemma StartCodeIs(b: Bytes, i: nat)
    requires i + 3 <= |b|
    ensures HasStartCode(b, i) <==> b[i..i + 3] == START_CODE
  {
  }

  /** The walk from a chunk boundary on. */
  function Walk(b: Bytes, offset: nat): Result<Dimensions, Error>
    decreases |b| - offset
  {
    if offset + 8 > |b| then Err(Unavailable)
    else
      var size := ReadU32(b, offset + 4);
      var start := offset + 8;
      if start + size > |b| then Err(TruncatedChunk)
      else
        var found := Recognized(FormatOf(b, offset), b, start, size);
        if found.Some? then Ok(found.value) else Walk(b, start + size + size % 2)
  }

  predicate IsContainer(b: Bytes) {
    |b| >= 20 && b[..4] == RIFF && b[8..12] == WEBP && ReadU32(b, 4) + 8 == |b|
  }

  function DimensionsOf(b: Bytes): Result<Dimensions, Error> {
    if IsContainer(b) then Walk(b, 12) else Err(InvalidContainer)
  }

  /** `webpDimensions`: ends on every buffer, and reads only inside it. */
  method WebpDimensions(b: Bytes) returns (r: Result<Dimensions, Error>)
    ensures r == DimensionsOf(b)
  {
    if |b| < 20 || b[..4] != RIFF || b[8..12] != WEBP || ReadU32(b, 4) + 8 != |b| { return Err(InvalidContainer); }
    var offset: nat := 12;
    while offset + 8 <= |b|
      invariant Walk(b, offset) == DimensionsOf(b)
      decreases |b| - offset
    {
      var size, start := ReadU32(b, offset + 4), offset + 8;
      if start + size > |b| { return Err(TruncatedChunk); }
      var found := ReadChunk(b, offset, size);
      if found.Some? { return Ok(found.value); }
      offset := start + size + size % 2;
    }
    return Err(Unavailable);
  }

  /** The three kinds of chunk that `webpDimensions` looks for. */
  method ReadChunk(b: Bytes, offset: nat, size: nat) returns (d: Option<Dimensions>)
    requires offset + 8 + size <= |b|
    ensures d == Recognized(FormatOf(b, offset), b, offset + 8, size)
  {
    var tag, start := b[offset..offset + 4], offset + 8;
    FormatIs(b, offset);
    if tag == VP8X && size >= 10 {
      return Some(Dimensions(ReadU24(b, start + 4) + 1, ReadU24(b, start + 7) + 1));
    }
    if size >= 10 { StartCodeIs(b, start + 3); }
    if tag == VP8 && size >= 10 && b[start + 3..start + 6] == START_CODE {
      return Some(Dimensions(ReadU16(b, start + 6) % 0x4000, ReadU16(b, start + 8) % 0x4000));
    }
    if tag == VP8L && size >= 5 && b[start] == SIGNATURE {
      var bits := ReadU32(b, start + 1);
      return Some(Dimensions(bits % 0x4000 + 1, bits / 0x4000 % 0x4000 + 1));
    }
    return None;
  }

  // ---- Encodings ----

  /** A chunk with its padding, which makes the whole even; readers ignore what the padding holds. */
  datatype Chunk = Chunk(tag: Bytes, payload: Bytes, padding: Bytes) {
    predicate Valid() { |tag| == 4 && |payload| < 0x1_0000_0000 && |padding| == |payload| % 2 }

    function Encoded(): Bytes { tag + WriteU32(|payload|) + payload + padding }

    /** What the chunk says of the dimensions on its own. */
    function Says(): Option<Dimensions>
      requires |tag| == 4
    {
      Recognized(FormatOf(tag, 0), payload, 0, |payload|)
    }
  }

  function Flat(chunks: seq<Chunk>): Bytes {
    if chunks == [] then [] else chunks[0].Encoded() + Flat(chunks[1..])
  }

  /** A container around a body. */
  function File(body: Bytes): Bytes {
    RIFF + WriteU32(|body| + 4) + WEBP + body
  }

  datatype Image =
    | Extended(flags: Byte, width: nat, height: nat)
    | Lossy(frameTag: Bytes, width: nat, height: nat, xScale: nat, yScale: nat, data: Bytes)
    | Lossless(width: nat, height: nat, alpha: nat, data: Bytes)
  {
    /** The ranges the formats give width and height. */
    predicate Valid() {
      match this
      case Extended(_, w, h) => 1 <= w <= 0x100_0000 && 1 <= h <= 0x100_0000
      case Lossy(tag, w, h, x, y, _) => |tag| == 3 && w < 0x4000 && h < 0x4000 && x < 4 && y < 4
      case Lossless(w, h, a, _) => 1 <= w <= 0x4000 && 1 <= h <= 0x4000 && a < 2
    }

    function Tag(): (tag: Bytes)
      ensures |tag| == 4
    {
      match this
      case Extended(_, _, _) => VP8X
      case Lossy(_, _, _, _, _, _) => VP8
      case Lossless(_, _, _, _) => VP8L
    }

    function Payload(): Bytes
      requires Valid()
    {
      match this
      case Extended(flags, w, h) => [flags, 0, 0, 0] + WriteU24(w - 1) + WriteU24(h - 1)
      case Lossy(tag, w, h, x, y, data) =>
        tag + START_CODE + WriteU16(x * 0x4000 + w) + WriteU16(y * 0x4000 + h) + data
      case Lossless(w, h, a, data) =>
        [SIGNATURE] + WriteU32(a * 0x1000_0000 + (h - 1) * 0x4000 + (w - 1)) + data
    }
  }

  lemma ExtendedReads(i: Image)
    requires i.Extended? && i.Valid()
    ensures Recognized(FormatOf(i.Tag(), 0), i.Payload(), 0, |i.Payload()|) == Some(Dimensions(i.width, i.height))
  {
    var p := i.Payload();
    assert p[4..7] == WriteU24(i.width - 1) && p[7..10] == WriteU24(i.height - 1);
    Reads24(p, 4, i.width - 1);
    Reads24(p, 7, i.height - 1);
  }

  lemma LossyReads(i: Image)
    requires i.Lossy? && i.Valid()
    ensures Recognized(FormatOf(i.Tag(), 0), i.Payload(), 0, |i.Payload()|) == Some(Dimensions(i.width, i.height))
  {
    var p := i.Payload();
    var w, h := i.xScale * 0x4000 + i.width, i.yScale * 0x4000 + i.height;
    assert p[3] == 0x9D && p[4] == 0x01 && p[5] == 0x2A;
    assert p[6..8] == WriteU16(w) && p[8..10] == WriteU16(h);
    Reads16(p, 6, w);
    Reads16(p, 8, h);
    Fourteen(i.xScale, i.width);
    Fourteen(i.yScale, i.height);
  }

  lemma Fourteen(high: nat, low: nat)
    requires low < 0x4000
    ensures (high * 0x4000 + low) % 0x4000 == low && (high * 0x4000 + low) / 0x4000 == high
  {
  }

  lemma LosslessReads(i: Image)
    requires i.Lossless? && i.Valid()
    ensures Recognized(FormatOf(i.Tag(), 0), i.Payload(), 0, |i.Payload()|) == Some(Dimensions(i.width, i.height))
  {
    var p := i.Payload();
    var w, h := i.width - 1, i.height - 1;
    var bits := i.alpha * 0x1000_0000 + h * 0x4000 + w;
    assert p[1..5] == WriteU32(bits);
    Reads32(p, 1, bits);
    Fourteen(i.alpha * 0x4000 + h, w);
    Fourteen(i.alpha, h);
  }

  lemma ImageReads(i: Image)
    requires i.Valid()
    ensures Recognized(FormatOf(i.Tag(), 0), i.Payload(), 0, |i.Payload()|) == Some(Dimensions(i.width, i.height))
  {
    match i
    case Extended(_, _, _) => ExtendedReads(i);
    case Lossy(_, _, _, _, _, _) => LossyReads(i);
    case Lossless(_, _, _, _) => LosslessReads(i);
  }

  /** A tag and a payload say the same wherever they stand. */
  lemma SaysAnywhere(tag: Bytes, payload: Bytes, b: Bytes, offset: nat)
    requires |tag| == 4 && offset + 8 + |payload| <= |b|
    requires b[offset..offset + 4] == tag && b[offset + 8..offset + 8 + |payload|] == payload
    ensures Recognized(FormatOf(b, offset), b, offset + 8, |payload|)
      == Recognized(FormatOf(tag, 0), payload, 0, |payload|)
  {
    Units(b, offset, tag);
    Units(b, offset + 8, payload);
  }

  // ---- The walk inverts the encodings ----

  /** A chunk stands at an offset, up to its padding. */
  predicate StandsAt(b: Bytes, offset: nat, c: Chunk) {
    && c.Valid() && offset + 8 + |c.payload| <= |b|
    && b[offset..offset + 4] == c.tag && ReadU32(b, offset + 4) == |c.payload|
    && b[offset + 8..offset + 8 + |c.payload|] == c.payload
  }

  function Length(c: Chunk): nat { 8 + |c.payload| + |c.payload| % 2 }

  function Lengths(chunks: seq<Chunk>): nat {
    if chunks == [] then 0 else Length(chunks[0]) + Lengths(chunks[1..])
  }

  predicate StandFrom(b: Bytes, offset: nat, chunks: seq<Chunk>)
    decreases |chunks|
  {
    chunks != [] ==> StandsAt(b, offset, chunks[0]) && StandFrom(b, offset + Length(chunks[0]), chunks[1..])
  }

  lemma WalkAt(b: Bytes, offset: nat, c: Chunk)
    requires StandsAt(b, offset, c)
    ensures Walk(b, offset)
      == if c.Says().Some? then Ok(c.Says().value) else Walk(b, offset + Length(c))
  {
    SaysAnywhere(c.tag, c.payload, b, offset);
  }

  lemma WalkPast(b: Bytes, offset: nat, c: Chunk)
    requires StandsAt(b, offset, c) && c.Says().None?
    ensures Walk(b, offset) == Walk(b, offset + Length(c))
  {
    WalkAt(b, offset, c);
  }

  lemma {:induction false} WalkSkips(b: Bytes, offset: nat, others: seq<Chunk>, end: nat)
    requires StandFrom(b, offset, others) && forall c :: c in others ==> |c.tag| == 4 && c.Says().None?
    requires end == offset + Lengths(others)
    ensures Walk(b, offset) == Walk(b, end)
    decreases |others|
  {
    if others == [] {
    } else {
      assert others[0] in others;
      WalkPast(b, offset, others[0]);
      WalkSkips(b, offset + Length(others[0]), others[1..], end);
    }
  }

  lemma WalkFinds(b: Bytes, others: seq<Chunk>, c: Chunk, d: Dimensions)
    requires IsContainer(b) && StandFrom(b, 12, others) && StandsAt(b, 12 + Lengths(others), c)
    requires forall o :: o in others ==> |o.tag| == 4 && o.Says().None?
    requires |c.tag| == 4 && c.Says() == Some(d)
    ensures DimensionsOf(b) == Ok(d)
  {
    WalkSkips(b, 12, others, 12 + Lengths(others));
    WalkStops(b, 12 + Lengths(others), c, d);
  }

  lemma WalkStops(b: Bytes, offset: nat, c: Chunk, d: Dimensions)
    requires StandsAt(b, offset, c) && |c.tag| == 4 && c.Says() == Some(d)
    ensures Walk(b, offset) == Ok(d)
  {
    WalkAt(b, offset, c);
  }

  /** The buffer holds these bytes at an offset. */
  ghost predicate Holds(b: Bytes, offset: nat, part: Bytes) {
    offset + |part| <= |b| && b[offset..offset + |part|] == part
  }

  lemma HoldsBoth(b: Bytes, offset: nat, first: Bytes, rest: Bytes)
    requires Holds(b, offset, first + rest)
    ensures Holds(b, offset, first) && Holds(b, offset + |first|, rest)
  {
    Units(b, offset, first + rest);
    forall k | 0 <= k < |first| ensures b[offset + k] == first[k] { assert (first + rest)[k] == first[k]; }
    forall k | 0 <= k < |rest| ensures b[offset + |first| + k] == rest[k] {
      assert (first + rest)[|first| + k] == rest[k];
    }
  }

  /** Where the parts of an encoded chunk lie. */
  lemma EncodedStands(b: Bytes, offset: nat, c: Chunk)
    requires c.Valid() && Holds(b, offset, c.Encoded())
    ensures StandsAt(b, offset, c) && |c.Encoded()| == Length(c)
  {
    var size := WriteU32(|c.payload|);
    HoldsBoth(b, offset, c.tag + size + c.payload, c.padding);
    HoldsBoth(b, offset, c.tag + size, c.payload);
    HoldsBoth(b, offset, c.tag, size);
    Reads32(b, offset + 4, |c.payload|);
  }

  lemma {:induction false} FlatStands(b: Bytes, offset: nat, chunks: seq<Chunk>)
    requires Holds(b, offset, Flat(chunks)) && forall c :: c in chunks ==> c.Valid()
    ensures StandFrom(b, offset, chunks) && |Flat(chunks)| == Lengths(chunks)
    decreases |chunks|
  {
    if chunks != [] {
      assert chunks[0] in chunks;
      HoldsBoth(b, offset, chunks[0].Encoded(), Flat(chunks[1..]));
      EncodedStands(b, offset, chunks[0]);
      FlatStands(b, offset + Length(chunks[0]), chunks[1..]);
    }
  }

  lemma FileStands(b: Bytes, body: Bytes, others: seq<Chunk>, c: Chunk, after: Bytes)
    requires b == File(body) && body == Flat(others) + c.Encoded() + after && |body| + 4 < 0x1_0000_0000
    requires c.Valid() && forall o :: o in others ==> o.Valid()
    ensures IsContainer(b) && StandFrom(b, 12, others) && StandsAt(b, 12 + Lengths(others), c)
  {
    FileIsContainer(body);
    BodyStands(b, others, c, after);
  }

  lemma BodyStands(b: Bytes, others: seq<Chunk>, c: Chunk, after: Bytes)
    requires Holds(b, 12, Flat(others) + c.Encoded() + after)
    requires c.Valid() && forall o :: o in others ==> o.Valid()
    ensures StandFrom(b, 12, others) && StandsAt(b, 12 + Lengths(others), c)
  {
    HoldsBoth(b, 12, Flat(others) + c.Encoded(), after);
    HoldsBoth(b, 12, Flat(others), c.Encoded());
    FlatStands(b, 12, others);
    EncodedStands(b, 12 + Lengths(others), c);
  }

  /**
   The walk inverts the encoding: whatever other chunks come first, of odd sizes too and whatever comes after, the
   dimensions of the first image chunk are found.
   */
  lemma WalkInvertsEncoding(others: seq<Chunk>, i: Image, padding: Bytes, after: Bytes)
    requires i.Valid() && Chunk(i.Tag(), i.Payload(), padding).Valid()
    requires forall c :: c in others ==> c.Valid() && c.Says().None?
    requires |Flat(others)| + |Chunk(i.Tag(), i.Payload(), padding).Encoded()| + |after| + 4 < 0x1_0000_0000
    ensures DimensionsOf(File(Flat(others) + Chunk(i.Tag(), i.Payload(), padding).Encoded() + after))
      == Ok(Dimensions(i.width, i.height))
  {
    var c := Chunk(i.Tag(), i.Payload(), padding);
    var body := Flat(others) + c.Encoded() + after;
    FileStands(File(body), body, others, c, after);
    ImageReads(i);
    WalkFinds(File(body), others, c, Dimensions(i.width, i.height));
  }

  lemma FileIsContainer(body: Bytes)
    requires 8 <= |body| && |body| + 4 < 0x1_0000_0000
    ensures IsContainer(File(body)) && Holds(File(body), 12, body)
  {
    var b := File(body);
    assert b[..4] == RIFF && b[4..8] == WriteU32(|body| + 4) && b[8..12] == WEBP;
    Reads32(b, 4, |body| + 4);
  }

  lemma WalkNeverSaysInvalid(b: Bytes, offset: nat)
    ensures Walk(b, offset) != Err(InvalidContainer)
    decreases |b| - offset
  {
  }

  /** A buffer is refused as a container exactly if it is not the file of some body of at least one chunk header. */
  lemma ContainersAreFiles(b: Bytes)
    ensures DimensionsOf(b) != Err(InvalidContainer)
      <==> exists body :: 8 <= |body| && |body| + 4 < 0x1_0000_0000
                            && b == RIFF + WriteU32(|body| + 4) + WEBP + body
  {
    if IsContainer(b) {
      WalkNeverSaysInvalid(b, 12);
      var body := b[12..];
      WritesRead(b, 4);
      assert b == b[..4] + b[4..8] + b[8..12] + body;
      assert b == RIFF + WriteU32(|body| + 4) + WEBP + body;
    }
    if body :| 8 <= |body| && |body| + 4 < 0x1_0000_0000 && b == RIFF + WriteU32(|body| + 4) + WEBP + body {
      FileIsContainer(body);
      assert b == File(body);
      WalkNeverSaysInvalid(b, 12);
    }
  }

  // ---- When there are no dimensions ----

  /** From an offset on stand chunks that say nothing of the dimensions, up to another offset. */
  ghost predicate Skippable(b: Bytes, offset: nat, end: nat) {
    exists others :: StandFrom(b, offset, others) && IsSilent(others) && end == offset + Lengths(others)
  }

  ghost predicate IsSilent(others: seq<Chunk>) {
    forall c :: c in others ==> |c.tag| == 4 && c.Says().None?
  }

  /** A chunk header stands here, and its payload does not fit. */
  predicate IsCutOff(b: Bytes, offset: nat) {
    offset + 8 <= |b| && offset + 8 + ReadU32(b, offset + 4) > |b|
  }

  lemma ChunkThere(b: Bytes, offset: nat, size: nat) returns (c: Chunk)
    requires offset + 8 + size <= |b| && ReadU32(b, offset + 4) == size
    ensures StandsAt(b, offset, c) && |c.tag| == 4 && Length(c) == 8 + size + size % 2
    ensures c.Says() == Recognized(FormatOf(b, offset), b, offset + 8, size)
  {
    c := Chunk(b[offset..offset + 4], b[offset + 8..offset + 8 + size], if size % 2 == 0 then [] else [0]);
    SaysAnywhere(c.tag, c.payload, b, offset);
  }

  lemma SkipPrepends(b: Bytes, offset: nat, c: Chunk, others: seq<Chunk>)
    requires StandsAt(b, offset, c) && |c.tag| == 4 && c.Says().None?
    requires StandFrom(b, offset + Length(c), others) && IsSilent(others)
    ensures Skippable(b, offset, offset + Length(c) + Lengths(others))
  {
    var all := [c] + others;
    assert all[1..] == others;
    assert StandFrom(b, offset, all) && IsSilent(all);
  }

  lemma SkipOneMore(b: Bytes, offset: nat, size: nat, next: nat, end: nat)
    requires offset + 8 + size <= |b| && ReadU32(b, offset + 4) == size && next == offset + 8 + size + size % 2
    requires Recognized(FormatOf(b, offset), b, offset + 8, size).None? && Skippable(b, next, end)
    ensures Skippable(b, offset, end)
  {
    var others :| StandFrom(b, next, others) && IsSilent(others) && end == next + Lengths(others);
    var c := ChunkThere(b, offset, size);
    SkipPrepends(b, offset, c, others);
  }

  lemma {:induction false} WalkEndsSomewhere(b: Bytes, offset: nat) returns (end: nat)
    requires Walk(b, offset).Err?
    ensures Skippable(b, offset, end)
    ensures Walk(b, offset) == Err(TruncatedChunk) ==> IsCutOff(b, end)
    ensures Walk(b, offset) == Err(Unavailable) ==> end + 8 > |b|
    decreases |b| - offset
  {
    if offset + 8 > |b| || IsCutOff(b, offset) {
      end := offset;
      var none: seq<Chunk> := [];
      assert StandFrom(b, offset, none) && IsSilent(none) && end == offset + Lengths(none);
    } else {
      var size := ReadU32(b, offset + 4);
      var next := offset + 8 + size + size % 2;
      end := WalkEndsSomewhere(b, next);
      SkipOneMore(b, offset, size, next, end);
    }
  }

  lemma WalkSkipsTo(b: Bytes, offset: nat, end: nat)
    requires Skippable(b, offset, end)
    ensures Walk(b, offset) == Walk(b, end)
  {
    var others :| StandFrom(b, offset, others) && IsSilent(others) && end == offset + Lengths(others);
    WalkSkips(b, offset, others, end);
  }

  /**
   A container has a truncated chunk exactly if after chunks that say nothing one is cut off, and no dimensions exactly
   if after such chunks there is no room for another header.
   */
  lemma FailuresExactly(b: Bytes)
    requires IsContainer(b)
    ensures DimensionsOf(b) == Err(TruncatedChunk) <==> exists end :: Skippable(b, 12, end) && IsCutOff(b, end)
    ensures DimensionsOf(b) == Err(Unavailable) <==> exists end: nat :: Skippable(b, 12, end) && end + 8 > |b|
  {
    WalkNeverSaysInvalid(b, 12);
    if Walk(b, 12).Err? { var end := WalkEndsSomewhere(b, 12); }
    if end :| Skippable(b, 12, end) && IsCutOff(b, end) { WalkSkipsTo(b, 12, end); }
    if end: nat :| Skippable(b, 12, end) && end + 8 > |b| { WalkSkipsTo(b, 12, end); }
  }

  // ---- And only encodings ----

  /** From this offset on the buffer is chunks that say nothing of the dimensions, then one that does. */
  ghost predicate Explains(b: Bytes, offset: nat, others: seq<Chunk>, c: Chunk, after: Bytes, d: Dimensions) {
    && offset <= |b| && b[offset..] == Flat(others) + (c.tag + WriteU32(|c.payload|) + c.payload) + after
    && (forall o :: o in others ==> o.Valid() && o.Says().None?)
    && |c.tag| == 4 && c.Says() == Some(d)
  }

  lemma LastChunk(b: Bytes, offset: nat, size: nat, d: Dimensions)
    requires offset + 8 + size <= |b| && ReadU32(b, offset + 4) == size
    requires Recognized(FormatOf(b, offset), b, offset + 8, size) == Some(d)
    ensures Explains(
      b, offset, [], Chunk(b[offset..offset + 4], b[offset + 8..offset + 8 + size], []), b[offset + 8 + size..], d)
  {
    SaysAnywhere(b[offset..offset + 4], b[offset + 8..offset + 8 + size], b, offset);
    WritesRead(b, offset + 4);
  }

  ghost predicate HasEncoding(b: Bytes, offset: nat, d: Dimensions) {
    exists others, c, after :: Explains(b, offset, others, c, after, d)
  }

  /** The converse: whenever the walk returns dimensions, the buffer is such an encoding of them. */
  lemma {:induction false} WalkFindsAnEncoding(b: Bytes, offset: nat, d: Dimensions)
    requires Walk(b, offset) == Ok(d)
    ensures HasEncoding(b, offset, d)
    decreases |b| - offset
  {
    var size := ReadU32(b, offset + 4);
    if Recognized(FormatOf(b, offset), b, offset + 8, size).Some? {
      LastChunk(b, offset, size, d);
    } else {
      var next := offset + 8 + size + size % 2;
      WalkGoesOn(b, offset, next, d);
      WalkFindsAnEncoding(b, next, d);
      EncodingGrows(b, offset, size, next, d);
    }
  }

  lemma EncodingGrows(b: Bytes, offset: nat, size: nat, next: nat, d: Dimensions)
    requires offset + 8 + size <= next <= |b| && ReadU32(b, offset + 4) == size && next == offset + 8 + size + size % 2
    requires Recognized(FormatOf(b, offset), b, offset + 8, size).None? && HasEncoding(b, next, d)
    ensures HasEncoding(b, offset, d)
  {
    var rest, c, after :| Explains(b, next, rest, c, after, d);
    var first := Chunk(b[offset..offset + 4], b[offset + 8..offset + 8 + size], b[offset + 8 + size..next]);
    SkippedChunk(b, offset, size, next);
    ExplainsOneMore(b, offset, next, first, rest, c, after, d);
  }

  lemma WalkGoesOn(b: Bytes, offset: nat, next: nat, d: Dimensions)
    requires Walk(b, offset) == Ok(d)
    requires offset + 8 <= |b| && next == offset + 8 + ReadU32(b, offset + 4) + ReadU32(b, offset + 4) % 2
    requires offset + 8 + ReadU32(b, offset + 4) <= |b|
    requires Recognized(FormatOf(b, offset), b, offset + 8, ReadU32(b, offset + 4)).None?
    ensures Walk(b, next) == Ok(d) && next + 8 <= |b|
  {
    WalkStaysInside(b, next);
  }

  lemma SkippedChunk(b: Bytes, offset: nat, size: nat, next: nat)
    requires offset + 8 + size <= next <= |b| && ReadU32(b, offset + 4) == size && next == offset + 8 + size + size % 2
    requires Recognized(FormatOf(b, offset), b, offset + 8, size).None?
    ensures var c := Chunk(b[offset..offset + 4], b[offset + 8..offset + 8 + size], b[offset + 8 + size..next]);
      c.Valid() && c.Says().None? && b[offset..next] == c.Encoded()
  {
    SaysAnywhere(b[offset..offset + 4], b[offset + 8..offset + 8 + size], b, offset);
    ChunkEncoded(b, offset, size, next);
  }

  lemma WalkStaysInside(b: Bytes, offset: nat)
    requires Walk(b, offset).Ok?
    ensures offset + 8 <= |b|
  {
  }

  lemma ChunkEncoded(b: Bytes, offset: nat, size: nat, next: nat)
    requires offset + 8 + size <= next <= |b| && ReadU32(b, offset + 4) == size
    ensures b[offset..next]
      == Chunk(b[offset..offset + 4], b[offset + 8..offset + 8 + size], b[offset + 8 + size..next]).Encoded()
  {
    WritesRead(b, offset + 4);
  }

  lemma ExplainsOneMore(
    b: Bytes, offset: nat, next: nat, first: Chunk, rest: seq<Chunk>, c: Chunk, after: Bytes, d: Dimensions)
    requires offset <= next <= |b| && Explains(b, next, rest, c, after, d)
    requires first.Valid() && first.Says().None?
    requires b[offset..next] == first.Encoded()
    ensures Explains(b, offset, [first] + rest, c, after, d)
  {
    assert b[offset..] == b[offset..next] + b[next..];
    FlatPrepends(first, rest, c.tag + WriteU32(|c.payload|) + c.payload, after);
  }

  lemma FlatPrepends(first: Chunk, rest: seq<Chunk>, c: Bytes, after: Bytes)
    ensures Flat([first] + rest) + c + after == first.Encoded() + (Flat(rest) + c + after)
  {
    assert ([first] + rest)[1..] == rest;
  }
}
