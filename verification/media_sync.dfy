/**
 The resumable media sync of a pilot: a frozen manifest of images, a table they are registered in, and runs that may
 fail at any row and be started again.
 */
module MediaSync {
  import opened Wrappers
  import opened Sorting

  type MediaId = nat
  type ObjectKey = nat
  type ImportId = nat
  type SourceId = nat
  type CatalogId = nat
  type Digest = nat

  datatype Media = Media(
    importId: ImportId, sourceId: SourceId, mediaId: MediaId, objectKey: ObjectKey, position: int,
    representative: bool, altText: nat, width: nat, height: nat)

  datatype ScopeCatalog = ScopeCatalog(importId: ImportId, sourceId: SourceId, mediaCount: nat)

  datatype Registration = Registration(
    mediaId: MediaId, catalogId: CatalogId, position: int, representative: bool, altText: nat, width: nat, height: nat,
    objectKey: ObjectKey)

  /** The registered media by id, which is the key of the table. */
  type Table = map<MediaId, Registration>

  const MEDIA_COUNT := 20

  // ---- The manifest ----

  function Group(rows: seq<Media>, sourceId: SourceId): (g: seq<Media>)
    ensures forall r :: r in g <==> r in rows && r.sourceId == sourceId
  {
    if rows == [] then []
    else
      Group(rows[..|rows| - 1], sourceId)
      + (if rows[|rows| - 1].sourceId == sourceId then [rows[|rows| - 1]] else [])
  }

  function Representatives(rows: seq<Media>): nat {
    if rows == [] then 0
    else Representatives(rows[..|rows| - 1]) + (if rows[|rows| - 1].representative then 1 else 0)
  }

  predicate PositionLe(a: Media, b: Media) { a.position <= b.position }

  /** What `readPilotMedia` requires of the images of a catalog: as many as agreed, in order from 0, and one chosen. */
  ghost predicate ValidGroup(rows: seq<Media>, c: ScopeCatalog) {
    var group := Sort(Group(rows, c.sourceId), PositionLe);
    && |group| == c.mediaCount && (forall i :: 0 <= i < |group| ==> group[i].position == i)
    && Representatives(group) == 1
  }

  function MediaIds(rows: seq<Media>): (ids: seq<MediaId>)
    ensures |ids| == |rows| && forall i :: 0 <= i < |ids| ==> ids[i] == rows[i].mediaId
  {
    seq(|rows|, i requires 0 <= i < |rows| => rows[i].mediaId)
  }

  function ObjectKeys(rows: seq<Media>): (keys: seq<ObjectKey>)
    ensures |keys| == |rows| && forall i :: 0 <= i < |keys| ==> keys[i] == rows[i].objectKey
  {
    seq(|rows|, i requires 0 <= i < |rows| => rows[i].objectKey)
  }

  predicate InScope(r: Media, catalogs: seq<ScopeCatalog>) {
    exists c :: c in catalogs && c.importId == r.importId && c.sourceId == r.sourceId
  }

  ghost predicate ValidManifest(rows: seq<Media>, catalogs: seq<ScopeCatalog>) {
    && |rows| == MEDIA_COUNT
    && Distinct(MediaIds(rows)) && Distinct(ObjectKeys(rows))
    && (forall i :: 0 <= i < |rows| ==> InScope(rows[i], catalogs))
    && forall c :: c in catalogs ==> ValidGroup(rows, c)
  }

  /** The checks of `readPilotMedia` on the rows as a whole. */
  method ReadPilotMedia(rows: seq<Media>, catalogs: seq<ScopeCatalog>) returns (ok: bool)
    ensures ok <==> ValidManifest(rows, catalogs)
  {
    if |rows| != MEDIA_COUNT { return false; }
    var idsDiffer := AllDiffer(MediaIds(rows));
    var keysDiffer := AllDiffer(ObjectKeys(rows));
    if !idsDiffer || !keysDiffer { return false; }
    for i := 0 to |rows|
      invariant forall k :: 0 <= k < i ==> InScope(rows[k], catalogs)
    {
      if !InScope(rows[i], catalogs) { return false; }
    }
    ok := CheckGroups(rows, catalogs);
  }

  method CheckGroups(rows: seq<Media>, catalogs: seq<ScopeCatalog>) returns (ok: bool)
    ensures ok <==> forall c :: c in catalogs ==> ValidGroup(rows, c)
  {
    for i := 0 to |catalogs|
      invariant forall k :: 0 <= k < i ==> ValidGroup(rows, catalogs[k])
    {
      var valid := CheckGroup(rows, catalogs[i]);
      if !valid {
        assert catalogs[i] in catalogs;
        return false;
      }
    }
    return true;
  }

  /** `new Set(values).size === values.length`. */
  method AllDiffer(values: seq<nat>) returns (differ: bool)
    ensures differ <==> Distinct(values)
  {
    var seen: set<nat> := {};
    for i := 0 to |values|
      invariant forall v :: v in seen <==> v in values[..i]
      invariant Distinct(values[..i])
    {
      if values[i] in seen {
        ghost var k := IndexOf(values[..i], values[i]);
        return false;
      }
      assert values[..i + 1] == values[..i] + [values[i]];
      seen := seen + {values[i]};
    }
    assert values[..|values|] == values;
    return true;
  }

  method CheckGroup(rows: seq<Media>, c: ScopeCatalog) returns (ok: bool)
    ensures ok <==> ValidGroup(rows, c)
  {
    var group := Sort(Group(rows, c.sourceId), PositionLe);
    if |group| != c.mediaCount { return false; }
    var chosen: nat := 0;
    for i := 0 to |group|
      invariant forall k :: 0 <= k < i ==> group[k].position == k
      invariant chosen == Representatives(group[..i])
    {
      if group[i].position != i { return false; }
      assert group[..i + 1][..i] == group[..i];
      if group[i].representative { chosen := chosen + 1; }
    }
    assert group[..|group|] == group;
    return chosen == 1;
  }

  // ---- Places are unique ----

  lemma {:induction false} OneChosen(group: seq<Media>, i: nat, j: nat)
    requires i < j < |group| && group[i].representative && group[j].representative
    ensures Representatives(group) >= 2
  {
    var n := |group| - 1;
    if j < n {
      OneChosen(group[..n], i, j);
    } else {
      SomeChosen(group[..n], i);
    }
  }

  lemma {:induction false} SomeChosen(group: seq<Media>, i: nat)
    requires i < |group| && group[i].representative
    ensures Representatives(group) >= 1
  {
    if i < |group| - 1 { SomeChosen(group[..|group| - 1], i); }
  }

  /** In a valid manifest two images of one catalog share neither a position nor the choice. */
  lemma PlacesAreUnique(rows: seq<Media>, catalogs: seq<ScopeCatalog>, a: Media, b: Media)
    requires ValidManifest(rows, catalogs) && a in rows && b in rows && a.sourceId == b.sourceId
    requires a.position == b.position || (a.representative && b.representative)
    ensures a == b
  {
    assert InScope(rows[IndexOf(rows, a)], catalogs);
    var c :| c in catalogs && c.importId == a.importId && c.sourceId == a.sourceId;
    assert ValidGroup(rows, c);
    var group := Sort(Group(rows, c.sourceId), PositionLe);
    SortMembers(Group(rows, c.sourceId), PositionLe);
    var i, j := IndexOf(group, a), IndexOf(group, b);
    if i != j { OneChosenEither(group, i, j); }
  }

  lemma OneChosenEither(group: seq<Media>, i: nat, j: nat)
    requires i < |group| && j < |group| && i != j
    ensures group[i].representative && group[j].representative ==> Representatives(group) >= 2
  {
    if group[i].representative && group[j].representative {
      if i < j { OneChosen(group, i, j); } else { OneChosen(group, j, i); }
    }
  }

  // ---- What a manifest is ----

  /** The images of a catalog take the positions from 0 to the agreed number, each one, and one of them is chosen. */
  ghost predicate TakesPlaces(rows: seq<Media>, c: ScopeCatalog) {
    && (forall r :: r in rows && r.sourceId == c.sourceId ==> 0 <= r.position < c.mediaCount)
    && (forall p :: 0 <= p < c.mediaCount ==> IsTaken(rows, c.sourceId, p))
    && (forall a, b :: a in rows && b in rows && a.sourceId == b.sourceId == c.sourceId && a != b ==>
          a.position != b.position && !(a.representative && b.representative))
    && exists r :: r in rows && r.sourceId == c.sourceId && r.representative
  }

  ghost predicate IsTaken(rows: seq<Media>, sourceId: SourceId, position: int) {
    exists r :: r in rows && r.sourceId == sourceId && r.position == position
  }

  lemma {:induction false} NoneChosen(group: seq<Media>)
    requires forall i :: 0 <= i < |group| ==> !group[i].representative
    ensures Representatives(group) == 0
  {
    if group != [] { NoneChosen(group[..|group| - 1]); }
  }

  lemma {:induction false} ChosenOnce(group: seq<Media>)
    ensures Representatives(group) == 1 <==> exists i :: 0 <= i < |group| && IsOnlyChosen(group, i)
  {
    if group != [] {
      var n := |group| - 1;
      ChosenOnce(group[..n]);
      if i :| 0 <= i < n && IsOnlyChosen(group[..n], i) {
        if group[n].representative { OneChosen(group, i, n); } else { assert IsOnlyChosen(group, i); }
      }
      if i :| 0 <= i < |group| && IsOnlyChosen(group, i) {
        if i < n {
          assert group[..n][i] == group[i];
          assert IsOnlyChosen(group[..n], i);
        } else {
          NoneChosen(group[..n]);
        }
      }
      if Representatives(group) == 1 && group[n].representative {
        NoneOfNone(group[..n]);
        assert IsOnlyChosen(group, n);
      }
    }
  }

  lemma {:induction false} NoneOfNone(group: seq<Media>)
    requires Representatives(group) == 0
    ensures forall i :: 0 <= i < |group| ==> !group[i].representative
  {
    if group != [] { NoneOfNone(group[..|group| - 1]); }
  }

  ghost predicate IsOnlyChosen(group: seq<Media>, i: nat)
    requires i < |group|
  {
    group[i].representative && forall k :: 0 <= k < |group| && k != i ==> !group[k].representative
  }

  lemma {:induction false} GroupDistinct(rows: seq<Media>, sourceId: SourceId)
    requires Distinct(rows)
    ensures Distinct(Group(rows, sourceId))
  {
    if rows != [] { GroupDistinct(rows[..|rows| - 1], sourceId); }
  }

  /** Strictly rising positions that stay below a number and leave none out are the positions up to it. */
  lemma {:induction false} RisingFills(positions: seq<int>, count: nat, i: nat)
    requires forall j, k :: 0 <= j < k < |positions| ==> positions[j] < positions[k]
    requires forall k :: 0 <= k < |positions| ==> 0 <= positions[k] < count
    requires (forall p :: 0 <= p < count ==> p in positions) && i < |positions|
    ensures positions[i] == i
    decreases i
  {
    forall k | 0 <= k < i ensures positions[k] == k { RisingFills(positions, count, k); }
    assert i > 0 ==> positions[i - 1] < positions[i];
    if positions[i] > i {
      assert i in positions;
      var j := IndexOf(positions, i);
    }
  }

  lemma RisingFillsAll(positions: seq<int>, count: nat)
    requires forall j, k :: 0 <= j < k < |positions| ==> positions[j] < positions[k]
    requires forall k :: 0 <= k < |positions| ==> 0 <= positions[k] < count
    requires forall p :: 0 <= p < count ==> p in positions
    ensures |positions| == count && forall i :: 0 <= i < count ==> positions[i] == i
  {
    forall i | 0 <= i < |positions| ensures positions[i] == i { RisingFills(positions, count, i); }
    assert |positions| !in positions;
    assert |positions| > 0 ==> positions[|positions| - 1] < count;
  }

  function PositionsOf(group: seq<Media>): (s: seq<int>)
    ensures |s| == |group| && forall i :: 0 <= i < |s| ==> s[i] == group[i].position
  {
    seq(|group|, i requires 0 <= i < |group| => group[i].position)
  }

  /** The images of a catalog, sorted, hold each of them once. */
  lemma SortedGroup(rows: seq<Media>, c: ScopeCatalog) returns (group: seq<Media>)
    requires Distinct(MediaIds(rows))
    ensures group == Sort(Group(rows, c.sourceId), PositionLe) && Sorted(group, PositionLe) && Distinct(group)
    ensures forall r :: r in group <==> r in rows && r.sourceId == c.sourceId
  {
    group := Sort(Group(rows, c.sourceId), PositionLe);
    forall i, j | 0 <= i < j < |rows| ensures rows[i] != rows[j] { assert MediaIds(rows)[i] != MediaIds(rows)[j]; }
    GroupDistinct(rows, c.sourceId);
    SortPermutes(Group(rows, c.sourceId), PositionLe);
    PermutedDistinct(Group(rows, c.sourceId), group);
    SortMembers(Group(rows, c.sourceId), PositionLe);
    SortSorts(Group(rows, c.sourceId), PositionLe);
  }

  lemma PlacesFromGroup(rows: seq<Media>, c: ScopeCatalog)
    requires Distinct(MediaIds(rows)) && ValidGroup(rows, c)
    ensures TakesPlaces(rows, c)
  {
    var group := SortedGroup(rows, c);
    ChosenOnce(group);
    var chosen :| 0 <= chosen < |group| && IsOnlyChosen(group, chosen);
    InTheirPlaces(rows, c, group, chosen);
  }

  lemma InTheirPlaces(rows: seq<Media>, c: ScopeCatalog, group: seq<Media>, chosen: nat)
    requires forall r :: r in group <==> r in rows && r.sourceId == c.sourceId
    requires |group| == c.mediaCount && forall i :: 0 <= i < |group| ==> group[i].position == i
    requires chosen < |group| && IsOnlyChosen(group, chosen)
    ensures TakesPlaces(rows, c)
  {
    assert group[chosen] in group;
    forall p | 0 <= p < c.mediaCount ensures IsTaken(rows, c.sourceId, p) { assert group[p] in group; }
    forall r | r in rows && r.sourceId == c.sourceId
      ensures 0 <= r.position < c.mediaCount && group[r.position] == r && (r.representative ==> r.position == chosen)
    {
      assert r in group;
      var i := IndexOf(group, r);
    }
  }

  lemma GroupFromPlaces(rows: seq<Media>, c: ScopeCatalog)
    requires Distinct(MediaIds(rows)) && TakesPlaces(rows, c)
    ensures ValidGroup(rows, c)
  {
    var group := SortedGroup(rows, c);
    var positions := PositionsOf(group);
    forall i, j | 0 <= i < j < |group| ensures positions[i] < positions[j] {
      assert group[i] in group && group[j] in group && PositionLe(group[i], group[j]);
    }
    forall k | 0 <= k < |group| ensures 0 <= positions[k] < c.mediaCount { assert group[k] in group; }
    forall p | 0 <= p < c.mediaCount ensures p in positions {
      assert IsTaken(rows, c.sourceId, p);
      var r :| r in rows && r.sourceId == c.sourceId && r.position == p;
      assert positions[IndexOf(group, r)] == p;
    }
    RisingFillsAll(positions, c.mediaCount);
    OnlyOneIsChosen(rows, c, group);
  }

  lemma OnlyOneIsChosen(rows: seq<Media>, c: ScopeCatalog, group: seq<Media>)
    requires TakesPlaces(rows, c) && Distinct(group)
    requires forall r :: r in group <==> r in rows && r.sourceId == c.sourceId
    ensures Representatives(group) == 1
  {
    var r :| r in rows && r.sourceId == c.sourceId && r.representative;
    var i := IndexOf(group, r);
    forall k | 0 <= k < |group| && k != i ensures !group[k].representative { assert group[k] in group; }
    assert IsOnlyChosen(group, i);
    ChosenOnce(group);
  }

  /** The checks on a manifest, said of its rows: 20 of them, all apart, in scope, and each catalog with its places. */
  lemma ManifestExactly(rows: seq<Media>, catalogs: seq<ScopeCatalog>)
    ensures ValidManifest(rows, catalogs)
      <==> && |rows| == 20
           && (forall i, j :: 0 <= i < j < |rows| ==>
                 rows[i].mediaId != rows[j].mediaId && rows[i].objectKey != rows[j].objectKey)
           && (forall r :: r in rows ==>
                 exists c :: c in catalogs && c.importId == r.importId && c.sourceId == r.sourceId)
           && forall c :: c in catalogs ==> TakesPlaces(rows, c)
  {
    ApartByRow(rows);
    if Distinct(MediaIds(rows)) {
      forall c ensures ValidGroup(rows, c) <==> TakesPlaces(rows, c) {
        if ValidGroup(rows, c) { PlacesFromGroup(rows, c); }
        if TakesPlaces(rows, c) { GroupFromPlaces(rows, c); }
      }
    }
    ScopeByRow(rows, catalogs);
  }

  lemma ApartByRow(rows: seq<Media>)
    ensures Distinct(MediaIds(rows)) <==> forall i, j :: 0 <= i < j < |rows| ==> rows[i].mediaId != rows[j].mediaId
    ensures Distinct(ObjectKeys(rows)) <==>
      forall i, j :: 0 <= i < j < |rows| ==> rows[i].objectKey != rows[j].objectKey
  {
    forall i, j | 0 <= i < j < |rows|
      ensures MediaIds(rows)[i] != MediaIds(rows)[j] <==> rows[i].mediaId != rows[j].mediaId
      ensures ObjectKeys(rows)[i] != ObjectKeys(rows)[j] <==> rows[i].objectKey != rows[j].objectKey
    {
    }
  }

  lemma ScopeByRow(rows: seq<Media>, catalogs: seq<ScopeCatalog>)
    ensures (forall i :: 0 <= i < |rows| ==> InScope(rows[i], catalogs)) <==>
      forall r :: r in rows ==> exists c :: c in catalogs && c.importId == r.importId && c.sourceId == r.sourceId
  {
    if forall i :: 0 <= i < |rows| ==> InScope(rows[i], catalogs) {
      forall r | r in rows ensures exists c :: c in catalogs && c.importId == r.importId && c.sourceId == r.sourceId {
        assert InScope(rows[IndexOf(rows, r)], catalogs);
      }
    } else {
      var i :| 0 <= i < |rows| && !InScope(rows[i], catalogs);
      assert rows[i] in rows;
    }
  }

  // ---- Registrations ----

  /** The import's answer to which catalog a source became; its items keep the catalogs apart. */
  ghost predicate ValidMapping(catalogs: map<SourceId, CatalogId>, rows: seq<Media>) {
    && (forall r :: r in rows ==> r.sourceId in catalogs)
    && forall a, b :: a in catalogs && b in catalogs && a != b ==> catalogs[a] != catalogs[b]
  }

  /** `mediaRegistration`. */
  function RegistrationOf(r: Media, catalogId: CatalogId): Registration {
    Registration(r.mediaId, catalogId, r.position, r.representative, r.altText, r.width, r.height, r.objectKey)
  }

  function Expected(rows: seq<Media>, catalogs: map<SourceId, CatalogId>): (t: Table)
    requires forall r :: r in rows ==> r.sourceId in catalogs
  {
    if rows == [] then map[]
    else
      var last := rows[|rows| - 1];
      Expected(rows[..|rows| - 1], catalogs)[last.mediaId := RegistrationOf(last, catalogs[last.sourceId])]
  }

  /** The row has something to do with the frozen set: its catalog, its id or its object. */
  predicate Concerns(r: Registration, expected: Table) {
    || r.mediaId in expected
    || exists k :: k in expected && (expected[k].catalogId == r.catalogId || expected[k].objectKey == r.objectKey)
  }

  /** The keys and unique indexes of the table. */
  ghost predicate ValidTable(t: Table) {
    && (forall k :: k in t ==> t[k].mediaId == k)
    && (forall a, b :: a in t && b in t && a != b && t[a].catalogId == t[b].catalogId ==>
          t[a].position != t[b].position && !(t[a].representative && t[b].representative))
  }

  /** `assertExistingPilotMedia`: whatever is there of the frozen set is as expected, by its digest. */
  predicate Compatible(t: Table, expected: Table, digest: Registration -> Digest) {
    forall k :: k in t && Concerns(t[k], expected) ==> k in expected && digest(t[k]) == digest(expected[k])
  }

  // ---- One row ----

  datatype Upload = Uploaded | Reused

  /** What the photo, the transport and the database did for one row of one run. */
  datatype Attempt =
    | PhotoFails
    | TransportFails
    | VerificationFails(upload: Upload)
    | DatabaseFails(upload: Upload)
    | Proceeds(upload: Upload)

  datatype RowResult =
    | Registered(mediaId: MediaId, upload: Upload, created: bool)
    | Failed(mediaId: MediaId, error: RowError)

  datatype RowError = PhotoValidationFailed | RemoteVerificationFailed | RegistrationFailed | RegistrationConflict

  /** The rows that stand where one registration would go. */
  predicate InTheWay(r: Registration, e: Registration) {
    || r.mediaId == e.mediaId || r.objectKey == e.objectKey
    || (r.catalogId == e.catalogId && (r.position == e.position || (e.representative && r.representative)))
  }

  /** The registration stage of one row, in its own transaction. */
  function Register(t: Table, expected: Table, e: Registration, digest: Registration -> Digest, upload: Upload)
    : (Table, RowResult)
  {
    if !Compatible(t, expected, digest) then (t, Failed(e.mediaId, RegistrationConflict))
    else if exists k :: k in t && InTheWay(t[k], e) then
      if (forall k :: k in t && InTheWay(t[k], e) ==> k == e.mediaId) && digest(t[e.mediaId]) == digest(e) then
        (t, Registered(e.mediaId, upload, false))
      else (t, Failed(e.mediaId, RegistrationConflict))
    else (t[e.mediaId := e], Registered(e.mediaId, upload, true))
  }

  function SyncRow(t: Table, expected: Table, e: Registration, attempt: Attempt, digest: Registration -> Digest)
    : (Table, RowResult)
  {
    match attempt
    case PhotoFails => (t, Failed(e.mediaId, PhotoValidationFailed))
    case TransportFails => (t, Failed(e.mediaId, RemoteVerificationFailed))
    case VerificationFails(_) => (t, Failed(e.mediaId, RemoteVerificationFailed))
    case DatabaseFails(_) => (t, Failed(e.mediaId, RegistrationFailed))
    case Proceeds(upload) => Register(t, expected, e, digest, upload)
  }

  // ---- One run ----

  datatype Frozen = Frozen(rows: seq<Media>, scope: seq<ScopeCatalog>, catalogs: map<SourceId, CatalogId>)

  ghost predicate ValidFrozen(f: Frozen) {
    ValidManifest(f.rows, f.scope) && ValidMapping(f.catalogs, f.rows)
  }

  function ExpectedOf(f: Frozen): Table
    requires forall r :: r in f.rows ==> r.sourceId in f.catalogs
  {
    Expected(f.rows, f.catalogs)
  }

  function SyncRows(
    t: Table, expected: Table, f: Frozen, rows: seq<Media>, attempts: seq<Attempt>, digest: Registration -> Digest)
    : (r: (Table, seq<RowResult>))
    requires |attempts| == |rows| && forall row :: row in rows ==> row.sourceId in f.catalogs
    ensures |r.1| == |rows|
    decreases |rows|
  {
    if rows == [] then (t, [])
    else
      var n := |rows| - 1;
      var (t', results) := SyncRows(t, expected, f, rows[..n], attempts[..n], digest);
      var (t'', result) :=
        SyncRow(t', expected, RegistrationOf(rows[n], f.catalogs[rows[n].sourceId]), attempts[n], digest);
      (t'', results + [result])
  }

  lemma SyncStep(
    t: Table, expected: Table, f: Frozen, rows: seq<Media>, attempts: seq<Attempt>, i: nat,
    digest: Registration -> Digest)
    requires i < |rows| == |attempts| && forall row :: row in rows ==> row.sourceId in f.catalogs
    ensures (forall row :: row in rows[..i] ==> row.sourceId in f.catalogs) && rows[i] in rows
    ensures forall row :: row in rows[..i + 1] ==> row.sourceId in f.catalogs
    ensures var (t', results) := SyncRows(t, expected, f, rows[..i], attempts[..i], digest);
      var (t'', result) :=
        SyncRow(t', expected, RegistrationOf(rows[i], f.catalogs[rows[i].sourceId]), attempts[i], digest);
      SyncRows(t, expected, f, rows[..i + 1], attempts[..i + 1], digest) == (t'', results + [result])
  {
    assert rows[..i + 1][..i] == rows[..i] && attempts[..i + 1][..i] == attempts[..i];
  }

  // ---- The stored operation ----

  /** The hashes an operation is bound by: of its input, its plan, its approval and its target scope. */
  datatype Binding = Binding(input: nat, plan: nat, approval: nat, scope: nat)

  datatype Mapping = Mapping(importId: ImportId, sourceId: SourceId, catalogId: CatalogId)

  datatype StoredOperation = StoredOperation(applied: bool, binding: Binding, mapping: seq<Mapping>)

  const MAPPING_COUNT := 3

  predicate IsMatching(operation: Option<StoredOperation>, approved: Binding) {
    operation.Some? && operation.value.applied && operation.value.binding == approved
  }

  predicate MapsScope(mapping: seq<Mapping>, scope: seq<ScopeCatalog>) {
    && |mapping| == MAPPING_COUNT
    && forall c :: c in scope ==> exists m :: m in mapping && m.importId == c.importId && m.sourceId == c.sourceId
  }

  /** The first mapping of each source. */
  function CatalogsOf(mapping: seq<Mapping>): (catalogs: map<SourceId, CatalogId>)
    ensures forall m :: m in mapping ==> m.sourceId in catalogs
    ensures forall s :: s in catalogs ==> Mapped(mapping, s, catalogs[s])
  {
    if mapping == [] then map[]
    else
      assert forall s, id :: Mapped(mapping[1..], s, id) ==> Mapped(mapping, s, id);
      assert Mapped(mapping, mapping[0].sourceId, mapping[0].catalogId);
      CatalogsOf(mapping[1..])[mapping[0].sourceId := mapping[0].catalogId]
  }

  ghost predicate Mapped(mapping: seq<Mapping>, sourceId: SourceId, catalogId: CatalogId) {
    exists m :: m in mapping && m.sourceId == sourceId && m.catalogId == catalogId
  }

  /** A source that is mapped more than once is what its first mapping says. */
  lemma {:induction false} FirstMappingCounts(mapping: seq<Mapping>, i: nat)
    requires i < |mapping| && forall j :: 0 <= j < i ==> mapping[j].sourceId != mapping[i].sourceId
    ensures mapping[i].sourceId in CatalogsOf(mapping)
    ensures CatalogsOf(mapping)[mapping[i].sourceId] == mapping[i].catalogId
  {
    if i > 0 {
      assert mapping[0].sourceId != mapping[i].sourceId;
      FirstMappingCounts(mapping[1..], i - 1);
    }
  }

  /** The manifest, the operation and its mapping fit, and so the mapping knows the source of every row. */
  ghost predicate IsFrozenBy(
    rows: seq<Media>, scope: seq<ScopeCatalog>, operation: Option<StoredOperation>, approved: Binding)
    ensures IsFrozenBy(rows, scope, operation, approved) ==>
      operation.Some? && forall row :: row in rows ==> row.sourceId in CatalogsOf(operation.value.mapping)
  {
    if ValidManifest(rows, scope) && IsMatching(operation, approved) && MapsScope(operation.value.mapping, scope) then
      RowsAreMapped(rows, scope, operation.value.mapping);
      true
    else false
  }

  function FrozenBy(rows: seq<Media>, scope: seq<ScopeCatalog>, operation: StoredOperation): Frozen {
    Frozen(rows, scope, CatalogsOf(operation.mapping))
  }

  lemma RowsAreMapped(rows: seq<Media>, scope: seq<ScopeCatalog>, mapping: seq<Mapping>)
    requires ValidManifest(rows, scope) && MapsScope(mapping, scope)
    ensures forall row :: row in rows ==> row.sourceId in CatalogsOf(mapping)
  {
    forall row | row in rows ensures row.sourceId in CatalogsOf(mapping) {
      assert InScope(rows[IndexOf(rows, row)], scope);
    }
  }

  /** An operation that keeps its catalogs apart, as every applied one does, freezes a set the sync can rely on. */
  lemma FrozenSetIsValid(
    rows: seq<Media>, scope: seq<ScopeCatalog>, operation: Option<StoredOperation>, approved: Binding)
    requires IsFrozenBy(rows, scope, operation, approved)
    requires forall a, b :: a in operation.value.mapping && b in operation.value.mapping && a.sourceId != b.sourceId ==>
      a.catalogId != b.catalogId
    ensures ValidFrozen(FrozenBy(rows, scope, operation.value))
  {
    var mapping := operation.value.mapping;
    var catalogs := CatalogsOf(mapping);
    forall a, b | a in catalogs && b in catalogs && a != b ensures catalogs[a] != catalogs[b] {
      assert Mapped(mapping, a, catalogs[a]) && Mapped(mapping, b, catalogs[b]);
    }
  }

  /** Why a sync is refused before its first row. */
  datatype SyncRefusal = InvalidManifest | NoMatchingOperation | MappingMismatch | ExistingConflict

  datatype SyncOutcome = Refused(why: SyncRefusal) | Ran(results: seq<RowResult>)

  class MediaStore {
    var table: Table

    constructor ()
      ensures table == map[]
    {
      table := map[];
    }

    /** `syncPilotMedia`: refused as a whole, or one result for each row in turn. */
    method Sync(
      rows: seq<Media>, scope: seq<ScopeCatalog>, operation: Option<StoredOperation>, approved: Binding,
      attempts: seq<Attempt>, digest: Registration -> Digest) returns (outcome: SyncOutcome)
      requires |attempts| == |rows|
      modifies this
      ensures outcome.Refused? ==> table == old(table)
      ensures outcome == Refused(InvalidManifest) <==> !ValidManifest(rows, scope)
      ensures outcome == Refused(NoMatchingOperation) <==>
        ValidManifest(rows, scope) && !IsMatching(operation, approved)
      ensures outcome == Refused(MappingMismatch) <==>
        && ValidManifest(rows, scope) && IsMatching(operation, approved)
        && !MapsScope(operation.value.mapping, scope)
      ensures outcome == Refused(ExistingConflict) <==>
        && IsFrozenBy(rows, scope, operation, approved)
        && !Compatible(old(table), ExpectedOf(FrozenBy(rows, scope, operation.value)), digest)
      ensures outcome.Ran? ==>
        && IsFrozenBy(rows, scope, operation, approved)
        && var f := FrozenBy(rows, scope, operation.value);
           (table, outcome.results) == SyncRows(old(table), ExpectedOf(f), f, rows, attempts, digest)
    {
      var valid := ReadPilotMedia(rows, scope);
      if !valid { return Refused(InvalidManifest); }
      if operation.None? || !operation.value.applied || operation.value.binding != approved {
        return Refused(NoMatchingOperation);
      }
      if !MapsScope(operation.value.mapping, scope) { return Refused(MappingMismatch); }
      var f := FrozenBy(rows, scope, operation.value);
      var expected := ExpectedOf(f);
      if !Compatible(table, expected, digest) { return Refused(ExistingConflict); }
      var results := SyncEach(f, expected, attempts, digest);
      return Ran(results);
    }

    /** The loop over the rows, each in a transaction of its own. */
    method SyncEach(f: Frozen, expected: Table, attempts: seq<Attempt>, digest: Registration -> Digest)
      returns (results: seq<RowResult>)
      requires |attempts| == |f.rows| && forall row :: row in f.rows ==> row.sourceId in f.catalogs
      modifies this
      ensures (table, results) == SyncRows(old(table), expected, f, f.rows, attempts, digest)
    {
      results := [];
      for i := 0 to |f.rows|
        invariant forall row :: row in f.rows[..i] ==> row.sourceId in f.catalogs
        invariant (table, results) == SyncRows(old(table), expected, f, f.rows[..i], attempts[..i], digest)
      {
        SyncStep(old(table), expected, f, f.rows, attempts, i, digest);
        var result := SyncOne(RegistrationOf(f.rows[i], f.catalogs[f.rows[i].sourceId]), expected, attempts[i], digest);
        results := results + [result];
      }
      assert f.rows[..|f.rows|] == f.rows && attempts[..|f.rows|] == attempts;
    }

    method SyncOne(e: Registration, expected: Table, attempt: Attempt, digest: Registration -> Digest)
      returns (result: RowResult)
      modifies this
      ensures (table, result) == SyncRow(old(table), expected, e, attempt, digest)
    {
      match attempt {
        case PhotoFails => return Failed(e.mediaId, PhotoValidationFailed);
        case TransportFails => return Failed(e.mediaId, RemoteVerificationFailed);
        case VerificationFails(_) => return Failed(e.mediaId, RemoteVerificationFailed);
        case DatabaseFails(_) => return Failed(e.mediaId, RegistrationFailed);
        case Proceeds(upload) =>
          if !Compatible(table, expected, digest) { return Failed(e.mediaId, RegistrationConflict); }
          if exists k :: k in table && InTheWay(table[k], e) {
            if (exists k :: k in table && InTheWay(table[k], e) && k != e.mediaId)
              || digest(table[e.mediaId]) != digest(e)
            {
              return Failed(e.mediaId, RegistrationConflict);
            }
            return Registered(e.mediaId, upload, false);
          }
          table := table[e.mediaId := e];
          return Registered(e.mediaId, upload, true);
      }
    }
  }

  // ---- What a run does ----

  /** Hashing tells registrations apart. */
  ghost predicate Injective(digest: Registration -> Digest) {
    forall a, b :: digest(a) == digest(b) ==> a == b
  }

  lemma {:induction false} ExpectedHas(rows: seq<Media>, catalogs: map<SourceId, CatalogId>)
    requires (forall r :: r in rows ==> r.sourceId in catalogs) && Distinct(MediaIds(rows))
    ensures var e := Expected(rows, catalogs);
      && (forall r :: r in rows ==> r.mediaId in e && e[r.mediaId] == RegistrationOf(r, catalogs[r.sourceId]))
      && forall k :: k in e ==> exists r :: r in rows && r.mediaId == k
  {
    if rows != [] {
      var n := |rows| - 1;
      assert MediaIds(rows[..n]) == MediaIds(rows)[..n];
      ExpectedHas(rows[..n], catalogs);
      var e := Expected(rows, catalogs);
      forall r | r in rows ensures r.mediaId in e && e[r.mediaId] == RegistrationOf(r, catalogs[r.sourceId]) {
        var i := IndexOf(rows, r);
        if i < n {
          assert rows[..n][i] == r && r in rows[..n];
          assert MediaIds(rows)[i] != MediaIds(rows)[n];
        }
      }
      forall k | k in e ensures exists r :: r in rows && r.mediaId == k {
        if k == rows[n].mediaId {
          assert rows[n] in rows;
        } else {
          var r :| r in rows[..n] && r.mediaId == k;
          assert r in rows;
        }
      }
    }
  }

  /** The expected registrations of a valid manifest fit the table, and no two have one object. */
  ghost predicate FitsTable(e: Table) {
    && ValidTable(e)
    && forall a, b :: a in e && b in e && a != b ==> e[a].objectKey != e[b].objectKey
  }

  lemma ExpectedFits(f: Frozen)
    requires ValidFrozen(f)
    ensures FitsTable(ExpectedOf(f))
  {
    ExpectedHas(f.rows, f.catalogs);
    var e := ExpectedOf(f);
    forall a, b | a in e && b in e && a != b
      ensures e[a].objectKey != e[b].objectKey
      ensures e[a].catalogId == e[b].catalogId ==>
        e[a].position != e[b].position && !(e[a].representative && e[b].representative)
    {
      var r :| r in f.rows && r.mediaId == a;
      var q :| q in f.rows && q.mediaId == b;
      ApartInManifest(f, r, q);
    }
  }

  lemma ApartInManifest(f: Frozen, r: Media, q: Media)
    requires ValidFrozen(f) && r in f.rows && q in f.rows && r.mediaId != q.mediaId
    ensures r.objectKey != q.objectKey
    ensures f.catalogs[r.sourceId] == f.catalogs[q.sourceId] ==>
      r.position != q.position && !(r.representative && q.representative)
  {
    var i, j := IndexOf(f.rows, r), IndexOf(f.rows, q);
    assert ObjectKeys(f.rows)[i] != ObjectKeys(f.rows)[j];
    if f.catalogs[r.sourceId] == f.catalogs[q.sourceId]
      && (r.position == q.position || (r.representative && q.representative))
    {
      PlacesAreUnique(f.rows, f.scope, r, q);
    }
  }

  /** With nothing foreign in the table, a row that gets so far is registered, or found registered: never a conflict. */
  lemma RegisterSucceeds(t: Table, expected: Table, e: Registration, digest: Registration -> Digest, upload: Upload)
    requires Injective(digest) && FitsTable(expected) && ValidTable(t) && Compatible(t, expected, digest)
    requires e.mediaId in expected && expected[e.mediaId] == e
    ensures Register(t, expected, e, digest, upload)
      == if e.mediaId in t then (t, Registered(e.mediaId, upload, false))
         else (t[e.mediaId := e], Registered(e.mediaId, upload, true))
  {
    forall k | k in t && InTheWay(t[k], e) ensures k == e.mediaId && t[k] == e {
      assert Concerns(t[k], expected);
      assert t[k] == expected[k];
    }
    if e.mediaId in t { assert InTheWay(t[e.mediaId], e); }
  }

  lemma RegisteringKeeps(t: Table, expected: Table, e: Registration, digest: Registration -> Digest)
    requires Injective(digest) && FitsTable(expected) && ValidTable(t) && Compatible(t, expected, digest)
    requires e.mediaId in expected && expected[e.mediaId] == e && e.mediaId !in t
    ensures ValidTable(t[e.mediaId := e]) && Compatible(t[e.mediaId := e], expected, digest)
  {
    forall k | k in t && t[k].catalogId == e.catalogId
      ensures t[k].position != e.position && !(t[k].representative && e.representative)
    {
      assert Concerns(t[k], expected);
      assert t[k] == expected[k] && k != e.mediaId;
    }
  }

  /** How far a run has come: nothing is lost or altered, and what is new is expected. */
  ghost predicate Progress(t: Table, t': Table, expected: Table, digest: Registration -> Digest) {
    && ValidTable(t') && Compatible(t', expected, digest)
    && (forall k :: k in t ==> k in t' && t'[k] == t[k])
    && (forall k :: k in t' && k !in t ==> k in expected && t'[k] == expected[k])
  }

  /** What a run reports of one row, given what the row met. */
  function ResultOf(t: Table, mediaId: MediaId, attempt: Attempt): RowResult {
    match attempt
    case PhotoFails => Failed(mediaId, PhotoValidationFailed)
    case TransportFails => Failed(mediaId, RemoteVerificationFailed)
    case VerificationFails(_) => Failed(mediaId, RemoteVerificationFailed)
    case DatabaseFails(_) => Failed(mediaId, RegistrationFailed)
    case Proceeds(upload) => Registered(mediaId, upload, mediaId !in t)
  }

  /**
   A run over a table with nothing foreign in it. Each row reports once, in order, and exactly its own outcome: a
   failed row changes nothing, a row that proceeds is registered, as created if it was not there, and none conflicts.
   */
  ghost predicate RunsAs(
    t: Table, t': Table, expected: Table, rows: seq<Media>, attempts: seq<Attempt>, results: seq<RowResult>,
    digest: Registration -> Digest)
    requires |attempts| == |rows|
  {
    && Progress(t, t', expected, digest) && |results| == |rows|
    && (forall i :: 0 <= i < |rows| ==> results[i] == ResultOf(t, rows[i].mediaId, attempts[i]))
    && (forall k :: k in t' <==> k in t || Proceeded(rows, attempts, k))
  }

  /** The run got as far as registering this image. */
  ghost predicate Proceeded(rows: seq<Media>, attempts: seq<Attempt>, mediaId: MediaId)
    requires |attempts| == |rows|
  {
    exists i :: 0 <= i < |rows| && rows[i].mediaId == mediaId && attempts[i].Proceeds?
  }

  lemma ProceededOneMore(rows: seq<Media>, attempts: seq<Attempt>, mediaId: MediaId)
    requires rows != [] && |attempts| == |rows|
    ensures var n := |rows| - 1;
      Proceeded(rows, attempts, mediaId) <==>
        Proceeded(rows[..n], attempts[..n], mediaId) || (attempts[n].Proceeds? && mediaId == rows[n].mediaId)
  {
    var n := |rows| - 1;
    if Proceeded(rows[..n], attempts[..n], mediaId) {
      var i :| 0 <= i < n && rows[..n][i].mediaId == mediaId && attempts[..n][i].Proceeds?;
      assert rows[i].mediaId == mediaId && attempts[i].Proceeds?;
    }
    if Proceeded(rows, attempts, mediaId) {
      var i :| 0 <= i < |rows| && rows[i].mediaId == mediaId && attempts[i].Proceeds?;
      if i < n { assert rows[..n][i].mediaId == mediaId && attempts[..n][i].Proceeds?; }
    }
  }

  lemma {:induction false} RunProgresses(
    t: Table, f: Frozen, rows: seq<Media>, attempts: seq<Attempt>, digest: Registration -> Digest)
    requires ValidFrozen(f) && Injective(digest) && ValidTable(t) && Compatible(t, ExpectedOf(f), digest)
    requires |attempts| == |rows| && Distinct(MediaIds(rows)) && forall r :: r in rows ==> r in f.rows
    ensures var (t', results) := SyncRows(t, ExpectedOf(f), f, rows, attempts, digest);
      RunsAs(t, t', ExpectedOf(f), rows, attempts, results, digest)
    decreases |rows|
  {
    if rows != [] {
      var n := |rows| - 1;
      assert MediaIds(rows[..n]) == MediaIds(rows)[..n];
      forall r | r in rows[..n] ensures r in f.rows { assert r in rows; }
      RunProgresses(t, f, rows[..n], attempts[..n], digest);
      var (t1, results) := SyncRows(t, ExpectedOf(f), f, rows[..n], attempts[..n], digest);
      RunGrows(t, t1, f, rows, attempts, results, digest);
    }
  }

  lemma RunGrows(
    t: Table, t1: Table, f: Frozen, rows: seq<Media>, attempts: seq<Attempt>, results: seq<RowResult>,
    digest: Registration -> Digest)
    requires ValidFrozen(f) && Injective(digest)
    requires rows != [] && |attempts| == |rows| && Distinct(MediaIds(rows)) && rows[|rows| - 1] in f.rows
    requires var n := |rows| - 1; RunsAs(t, t1, ExpectedOf(f), rows[..n], attempts[..n], results, digest)
    ensures var n := |rows| - 1;
      var (t2, result) :=
        SyncRow(t1, ExpectedOf(f), RegistrationOf(rows[n], f.catalogs[rows[n].sourceId]), attempts[n], digest);
      RunsAs(t, t2, ExpectedOf(f), rows, attempts, results + [result], digest)
  {
    var n := |rows| - 1;
    forall i | 0 <= i < n ensures rows[i].mediaId != rows[n].mediaId {
      assert MediaIds(rows)[i] != MediaIds(rows)[n];
    }
    RowRuns(t1, f, rows[n], attempts[n], digest);
    var (t2, result) :=
      SyncRow(t1, ExpectedOf(f), RegistrationOf(rows[n], f.catalogs[rows[n].sourceId]), attempts[n], digest);
    RunAppends(t, t1, t2, ExpectedOf(f), rows, attempts, results, result, digest);
  }

  lemma RunAppends(
    t: Table, t1: Table, t2: Table, expected: Table, rows: seq<Media>, attempts: seq<Attempt>, results: seq<RowResult>,
    result: RowResult, digest: Registration -> Digest)
    requires rows != [] && |attempts| == |rows|
    requires forall i :: 0 <= i < |rows| - 1 ==> rows[i].mediaId != rows[|rows| - 1].mediaId
    requires var n := |rows| - 1; RunsAs(t, t1, expected, rows[..n], attempts[..n], results, digest)
    requires Progress(t1, t2, expected, digest)
    requires var n := |rows| - 1;
      && result == ResultOf(t1, rows[n].mediaId, attempts[n])
      && forall k :: k in t2 <==> k in t1 || (attempts[n].Proceeds? && k == rows[n].mediaId)
    ensures RunsAs(t, t2, expected, rows, attempts, results + [result], digest)
  {
    var n := |rows| - 1;
    ProgressChains(t, t1, t2, expected, digest);
    forall k ensures k in t2 <==> k in t || Proceeded(rows, attempts, k) { ProceededOneMore(rows, attempts, k); }
    NotProceeded(rows, attempts);
    ResultsAppend(t, rows, attempts, results, result);
  }

  lemma NotProceeded(rows: seq<Media>, attempts: seq<Attempt>)
    requires rows != [] && |attempts| == |rows|
    requires forall i :: 0 <= i < |rows| - 1 ==> rows[i].mediaId != rows[|rows| - 1].mediaId
    ensures var n := |rows| - 1; !Proceeded(rows[..n], attempts[..n], rows[n].mediaId)
  {
  }

  lemma ResultsAppend(t: Table, rows: seq<Media>, attempts: seq<Attempt>, results: seq<RowResult>, result: RowResult)
    requires rows != [] && |attempts| == |rows| && |results| == |rows| - 1
    requires var n := |rows| - 1;
      && (forall i :: 0 <= i < n ==> results[i] == ResultOf(t, rows[..n][i].mediaId, attempts[..n][i]))
      && result == ResultOf(t, rows[n].mediaId, attempts[n])
    ensures forall i :: 0 <= i < |rows| ==> (results + [result])[i] == ResultOf(t, rows[i].mediaId, attempts[i])
  {
    var n := |rows| - 1;
    forall i | 0 <= i < |rows| ensures (results + [result])[i] == ResultOf(t, rows[i].mediaId, attempts[i]) {
      if i < n { assert rows[..n][i] == rows[i] && attempts[..n][i] == attempts[i]; }
    }
  }

  /** What one row of a run does. */
  lemma RowRuns(t: Table, f: Frozen, row: Media, attempt: Attempt, digest: Registration -> Digest)
    requires ValidFrozen(f) && Injective(digest) && row in f.rows
    requires ValidTable(t) && Compatible(t, ExpectedOf(f), digest)
    ensures var (t', result) :=
        SyncRow(t, ExpectedOf(f), RegistrationOf(row, f.catalogs[row.sourceId]), attempt, digest);
      && Progress(t, t', ExpectedOf(f), digest) && result == ResultOf(t, row.mediaId, attempt)
      && forall k :: k in t' <==> k in t || (attempt.Proceeds? && k == row.mediaId)
  {
    ExpectedHas(f.rows, f.catalogs);
    ExpectedFits(f);
    RegistrationRuns(t, ExpectedOf(f), RegistrationOf(row, f.catalogs[row.sourceId]), attempt, digest);
  }

  lemma RegistrationRuns(t: Table, expected: Table, e: Registration, attempt: Attempt, digest: Registration -> Digest)
    requires Injective(digest) && FitsTable(expected) && ValidTable(t) && Compatible(t, expected, digest)
    requires e.mediaId in expected && expected[e.mediaId] == e
    ensures var (t', result) := SyncRow(t, expected, e, attempt, digest);
      && Progress(t, t', expected, digest) && result == ResultOf(t, e.mediaId, attempt)
      && forall k :: k in t' <==> k in t || (attempt.Proceeds? && k == e.mediaId)
  {
    if attempt.Proceeds? {
      RegisterSucceeds(t, expected, e, digest, attempt.upload);
      if e.mediaId !in t { RegisteringKeeps(t, expected, e, digest); }
    }
  }

  lemma ProgressChains(t: Table, t1: Table, t2: Table, expected: Table, digest: Registration -> Digest)
    requires Progress(t, t1, expected, digest) && Progress(t1, t2, expected, digest)
    ensures Progress(t, t2, expected, digest)
  {
    forall k | k in t2 && k !in t ensures k in expected && t2[k] == expected[k] {
      if k in t1 { assert t2[k] == t1[k]; }
    }
  }

  lemma SyncRunsAs(t: Table, f: Frozen, attempts: seq<Attempt>, digest: Registration -> Digest)
    requires ValidFrozen(f) && Injective(digest) && ValidTable(t) && Compatible(t, ExpectedOf(f), digest)
    requires |attempts| == |f.rows|
    ensures var (t', results) := SyncRows(t, ExpectedOf(f), f, f.rows, attempts, digest);
      RunsAs(t, t', ExpectedOf(f), f.rows, attempts, results, digest)
  {
    RunProgresses(t, f, f.rows, attempts, digest);
  }

  // ---- Sequences of runs ----

  ghost predicate AllProceed(attempts: seq<Attempt>) {
    forall i :: 0 <= i < |attempts| ==> attempts[i].Proceeds?
  }

  /** The table holds, of the frozen set, exactly the expected registrations. */
  ghost predicate IsComplete(t: Table, expected: Table) {
    && (forall k :: k in expected ==> k in t && t[k] == expected[k])
    && forall k :: k in t && Concerns(t[k], expected) ==> k in expected
  }

  /** A run without failures completes the set, whatever earlier runs left of it. */
  lemma CleanRunCompletes(t: Table, f: Frozen, attempts: seq<Attempt>, digest: Registration -> Digest)
    requires ValidFrozen(f) && Injective(digest) && ValidTable(t) && Compatible(t, ExpectedOf(f), digest)
    requires |attempts| == |f.rows| && AllProceed(attempts)
    ensures IsComplete(SyncRows(t, ExpectedOf(f), f, f.rows, attempts, digest).0, ExpectedOf(f))
  {
    var expected := ExpectedOf(f);
    var (t', results) := SyncRows(t, expected, f, f.rows, attempts, digest);
    SyncRunsAs(t, f, attempts, digest);
    ExpectedHas(f.rows, f.catalogs);
    forall k | k in expected ensures k in t' && t'[k] == expected[k] {
      var r :| r in f.rows && r.mediaId == k;
      var i := IndexOf(f.rows, r);
      assert f.rows[i].mediaId == k && attempts[i].Proceeds?;
      assert Proceeded(f.rows, attempts, k);
      if k in t { assert t[k].mediaId == k && Concerns(t[k], expected); }
    }
  }

  /** A registered image, column by column, is what the manifest says of it, in the catalog its source became. */
  ghost predicate IsRegistered(t: Table, r: Media, catalogId: CatalogId) {
    && r.mediaId in t && t[r.mediaId].mediaId == r.mediaId && t[r.mediaId].catalogId == catalogId
    && t[r.mediaId].position == r.position && t[r.mediaId].representative == r.representative
    && t[r.mediaId].altText == r.altText && t[r.mediaId].width == r.width && t[r.mediaId].height == r.height
    && t[r.mediaId].objectKey == r.objectKey
  }

  /** A row of the frozen set has the id, the catalog or the object of this registration. */
  ghost predicate Meets(f: Frozen, e: Registration)
    requires forall row :: row in f.rows ==> row.sourceId in f.catalogs
  {
    exists row :: row in f.rows && MeetsRow(row, f.catalogs[row.sourceId], e)
  }

  predicate MeetsRow(row: Media, catalogId: CatalogId, e: Registration) {
    row.mediaId == e.mediaId || catalogId == e.catalogId || row.objectKey == e.objectKey
  }

  /** What stands under this id is a row of the frozen set, registered as it says. */
  ghost predicate IsOwn(t: Table, f: Frozen, k: MediaId)
    requires forall row :: row in f.rows ==> row.sourceId in f.catalogs
  {
    exists row :: row in f.rows && row.mediaId == k && IsRegistered(t, row, f.catalogs[row.sourceId])
  }

  lemma RowOf(f: Frozen, k: MediaId) returns (row: Media)
    requires ValidFrozen(f) && k in ExpectedOf(f)
    ensures row in f.rows && row.mediaId == k && ExpectedOf(f)[k] == RegistrationOf(row, f.catalogs[row.sourceId])
  {
    ExpectedHas(f.rows, f.catalogs);
    row :| row in f.rows && row.mediaId == k;
  }

  lemma ExpectedRow(f: Frozen, row: Media)
    requires ValidFrozen(f) && row in f.rows
    ensures row.mediaId in ExpectedOf(f)
    ensures ExpectedOf(f)[row.mediaId] == RegistrationOf(row, f.catalogs[row.sourceId])
  {
    ExpectedHas(f.rows, f.catalogs);
  }

  lemma MeetsConcerned(f: Frozen, e: Registration)
    requires ValidFrozen(f)
    ensures Meets(f, e) <==> Concerns(e, ExpectedOf(f))
  {
    if row :| row in f.rows && MeetsRow(row, f.catalogs[row.sourceId], e) { ExpectedRow(f, row); }
    if Concerns(e, ExpectedOf(f)) {
      var k :| k in ExpectedOf(f) && (k == e.mediaId || ExpectedOf(f)[k].catalogId == e.catalogId
        || ExpectedOf(f)[k].objectKey == e.objectKey);
      var row := RowOf(f, k);
      assert MeetsRow(row, f.catalogs[row.sourceId], e);
    }
  }

  lemma OwnIsExpected(t: Table, f: Frozen, k: MediaId)
    requires ValidFrozen(f) && k in t && t[k].mediaId == k
    ensures IsOwn(t, f, k) <==> k in ExpectedOf(f) && t[k] == ExpectedOf(f)[k]
  {
    if row :| row in f.rows && row.mediaId == k && IsRegistered(t, row, f.catalogs[row.sourceId]) {
      ExpectedRow(f, row);
    }
    if k in ExpectedOf(f) { var row := RowOf(f, k); }
  }

  /** A table is accepted exactly if whatever meets the frozen set in it is one of its rows, registered as it says. */
  lemma CompatibleExactly(t: Table, f: Frozen, digest: Registration -> Digest)
    requires ValidFrozen(f) && Injective(digest) && ValidTable(t)
    ensures Compatible(t, ExpectedOf(f), digest) <==> forall k :: k in t && Meets(f, t[k]) ==> IsOwn(t, f, k)
  {
    forall k | k in t
      ensures Meets(f, t[k]) <==> Concerns(t[k], ExpectedOf(f))
      ensures IsOwn(t, f, k) <==> k in ExpectedOf(f) && t[k] == ExpectedOf(f)[k]
    {
      MeetsConcerned(f, t[k]);
      OwnIsExpected(t, f, k);
    }
  }

  /** After any run over a table with nothing foreign in it, every row that proceeded is registered as it says. */
  lemma ProceedingRegisters(t: Table, f: Frozen, attempts: seq<Attempt>, digest: Registration -> Digest, i: nat)
    requires ValidFrozen(f) && Injective(digest) && ValidTable(t) && Compatible(t, ExpectedOf(f), digest)
    requires |attempts| == |f.rows| && i < |f.rows| && attempts[i].Proceeds?
    ensures IsRegistered(
      SyncRows(t, ExpectedOf(f), f, f.rows, attempts, digest).0, f.rows[i], f.catalogs[f.rows[i].sourceId])
  {
    var expected, row := ExpectedOf(f), f.rows[i];
    var (t', results) := SyncRows(t, expected, f, f.rows, attempts, digest);
    SyncRunsAs(t, f, attempts, digest);
    ExpectedHas(f.rows, f.catalogs);
    assert row in f.rows && Proceeded(f.rows, attempts, row.mediaId);
    if row.mediaId in t { assert Concerns(t[row.mediaId], expected); }
  }

  /** On a complete set a run changes nothing, and every row that proceeds is reported as reused. */
  lemma CompleteRunReuses(t: Table, f: Frozen, attempts: seq<Attempt>, digest: Registration -> Digest)
    requires ValidFrozen(f) && Injective(digest) && ValidTable(t) && Compatible(t, ExpectedOf(f), digest)
    requires |attempts| == |f.rows| && IsComplete(t, ExpectedOf(f))
    ensures var (t', results) := SyncRows(t, ExpectedOf(f), f, f.rows, attempts, digest);
      && t' == t && |results| == |f.rows|
      && forall i :: 0 <= i < |f.rows| && attempts[i].Proceeds? ==>
           results[i] == Registered(f.rows[i].mediaId, attempts[i].upload, false)
  {
    SyncRunsAs(t, f, attempts, digest);
    EveryRowIsExpected(f);
    var (t', results) := SyncRows(t, ExpectedOf(f), f, f.rows, attempts, digest);
    Reuses(t, t', ExpectedOf(f), f.rows, attempts, results, digest);
  }

  lemma EveryRowIsExpected(f: Frozen)
    requires ValidFrozen(f)
    ensures forall i :: 0 <= i < |f.rows| ==> f.rows[i].mediaId in ExpectedOf(f)
  {
    ExpectedHas(f.rows, f.catalogs);
  }

  lemma Reuses(
    t: Table, t': Table, expected: Table, rows: seq<Media>, attempts: seq<Attempt>, results: seq<RowResult>,
    digest: Registration -> Digest)
    requires |attempts| == |rows| && RunsAs(t, t', expected, rows, attempts, results, digest)
    requires IsComplete(t, expected) && forall i :: 0 <= i < |rows| ==> rows[i].mediaId in expected
    ensures t' == t
    ensures forall i :: 0 <= i < |rows| && attempts[i].Proceeds? ==>
      results[i] == Registered(rows[i].mediaId, attempts[i].upload, false)
  {
    forall k | k in t' ensures k in t {
      if Proceeded(rows, attempts, k) { var i :| 0 <= i < |rows| && rows[i].mediaId == k && attempts[i].Proceeds?; }
    }
    assert t'.Keys == t.Keys;
  }

  function SyncAll(t: Table, f: Frozen, runs: seq<seq<Attempt>>, digest: Registration -> Digest): Table
    requires (forall r :: r in f.rows ==> r.sourceId in f.catalogs)
    requires forall i :: 0 <= i < |runs| ==> |runs[i]| == |f.rows|
  {
    if runs == [] then t
    else
      var n := |runs| - 1;
      SyncRows(SyncAll(t, f, runs[..n], digest), ExpectedOf(f), f, f.rows, runs[n], digest).0
  }

  /**
   Over any sequence of partly failing runs the frozen part of the table stays within the expected registrations,
   nothing registered is lost or altered, and everything else is as it was.
   */
  lemma {:induction false} RunsOnlyAddExpected(
    t: Table, f: Frozen, runs: seq<seq<Attempt>>, digest: Registration -> Digest)
    requires ValidFrozen(f) && Injective(digest) && ValidTable(t) && Compatible(t, ExpectedOf(f), digest)
    requires forall i :: 0 <= i < |runs| ==> |runs[i]| == |f.rows|
    ensures Progress(t, SyncAll(t, f, runs, digest), ExpectedOf(f), digest)
    decreases |runs|
  {
    if runs != [] {
      var n := |runs| - 1;
      RunsOnlyAddExpected(t, f, runs[..n], digest);
      var t1 := SyncAll(t, f, runs[..n], digest);
      SyncRunsAs(t1, f, runs[n], digest);
      var t2 := SyncRows(t1, ExpectedOf(f), f, f.rows, runs[n], digest).0;
      assert Progress(t1, t2, ExpectedOf(f), digest);
    }
  }
}
