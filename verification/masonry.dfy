/** The greedy column packing of the masonry layout: each item goes to the first of the shortest columns. */
module Masonry {
  import opened Sequences

  /** Where an item is put. */
  datatype Place = Place(column: nat, top: real)

  ghost predicate IsFirstShortest(heights: seq<real>, column: nat) {
    && column < |heights|
    && (forall c :: 0 <= c < |heights| ==> heights[column] <= heights[c])
    && (forall c :: 0 <= c < column ==> heights[column] < heights[c])
  }

  function Shortest(heights: seq<real>): (column: nat)
    requires heights != []
    ensures IsFirstShortest(heights, column)
  {
    if |heights| == 1 then 0
    else
      var column := Shortest(heights[..|heights| - 1]);
      if heights[|heights| - 1] < heights[column] then |heights| - 1 else column
  }

  function Zeros(n: nat): (s: seq<real>)
    ensures |s| == n && forall i :: 0 <= i < n ==> s[i] == 0.0
  {
    seq(n, i => 0.0)
  }

  /** The columns' heights once the items are packed. */
  function Heights(items: seq<real>, columns: nat, gap: real): (h: seq<real>)
    requires columns > 0
    ensures |h| == columns
  {
    if items == [] then Zeros(columns)
    else
      var n := |items| - 1;
      var h := Heights(items[..n], columns, gap);
      h[Shortest(h) := h[Shortest(h)] + (items[n] + gap)]
  }

  /** Where the packing puts item `i`, which depends on the items before it only. */
  function PlaceOf(items: seq<real>, columns: nat, gap: real, i: nat): Place
    requires columns > 0 && i < |items|
  {
    var h := Heights(items[..i], columns, gap);
    Place(Shortest(h), h[Shortest(h)])
  }

  function Places(items: seq<real>, columns: nat, gap: real): (places: seq<Place>)
    requires columns > 0
    ensures |places| == |items|
  {
    if items == [] then []
    else
      var earlier := items[..|items| - 1];
      var h := Heights(earlier, columns, gap);
      Places(earlier, columns, gap) + [Place(Shortest(h), h[Shortest(h)])]
  }

  lemma {:induction false} PlacesAre(items: seq<real>, columns: nat, gap: real, i: nat)
    requires columns > 0 && i < |items|
    ensures Places(items, columns, gap)[i] == PlaceOf(items, columns, gap, i)
  {
    var n := |items| - 1;
    if i < n {
      PlacesAre(items[..n], columns, gap, i);
      assert items[..n][..i] == items[..i];
    }
  }

  function Tallest(heights: seq<real>): (t: real)
    ensures t >= 0.0 && forall i :: 0 <= i < |heights| ==> heights[i] <= t
    ensures t == 0.0 || t in heights
  {
    if heights == [] then 0.0
    else
      var t := Tallest(heights[..|heights| - 1]);
      if heights[|heights| - 1] > t then heights[|heights| - 1] else t
  }

  /** `heights.indexOf(Math.min(...heights))`. */
  method FirstShortest(heights: array<real>) returns (column: nat)
    requires heights.Length > 0
    ensures column == Shortest(heights[..])
  {
    column := 0;
    for c := 1 to heights.Length
      invariant column == Shortest(heights[..c])
    {
      assert heights[..c + 1][..c] == heights[..c];
      if heights[c] < heights[column] { column := c; }
    }
    assert heights[..heights.Length] == heights[..];
  }

  /** `Math.max(0, ...heights)`. */
  method Highest(heights: array<real>) returns (tallest: real)
    ensures tallest == Tallest(heights[..])
  {
    tallest := 0.0;
    for c := 0 to heights.Length
      invariant tallest == Tallest(heights[..c])
    {
      assert heights[..c + 1][..c] == heights[..c];
      if heights[c] > tallest { tallest := heights[c]; }
    }
    assert heights[..heights.Length] == heights[..];
  }

  /** The packing loop of `layoutMasonry`: the places of the items, and the height of the container without padding. */
  method Layout(items: seq<real>, columns: nat, gap: real) returns (places: seq<Place>, height: real)
    requires columns > 0
    ensures places == Places(items, columns, gap)
    ensures height == ContentHeight(Heights(items, columns, gap), gap)
  {
    var heights := new real[columns](_ => 0.0);
    assert heights[..] == Zeros(columns);
    places := [];
    for i := 0 to |items|
      invariant heights[..] == Heights(items[..i], columns, gap)
      invariant places == Places(items[..i], columns, gap)
    {
      Taken(items, i);
      var column := FirstShortest(heights);
      places := places + [Place(column, heights[column])];
      heights[column] := heights[column] + (items[i] + gap);
    }
    assert items[..|items|] == items;
    var tallest := Highest(heights);
    height := if tallest > 0.0 && tallest - gap > 0.0 then tallest - gap else 0.0;
  }

  function ContentHeight(heights: seq<real>, gap: real): real {
    var t := Tallest(heights);
    if t > 0.0 && t - gap > 0.0 then t - gap else 0.0
  }

  // ---- Sums ----

  function Sum(s: seq<real>): real {
    if s == [] then 0.0 else Sum(s[..|s| - 1]) + s[|s| - 1]
  }

  /** What an item takes of a column. */
  function Total(items: seq<real>, gap: real): real {
    if items == [] then 0.0 else Total(items[..|items| - 1], gap) + (items[|items| - 1] + gap)
  }

  function Largest(items: seq<real>, gap: real): (l: real)
    ensures l >= 0.0 && forall i :: 0 <= i < |items| ==> items[i] + gap <= l
    ensures l == 0.0 || exists i :: 0 <= i < |items| && l == items[i] + gap
  {
    if items == [] then 0.0
    else
      var n := |items| - 1;
      var l := Largest(items[..n], gap);
      if items[n] + gap > l then items[n] + gap else l
  }

  lemma {:induction false} SumUpdate(s: seq<real>, i: nat, x: real)
    requires i < |s|
    ensures Sum(s[i := x]) == Sum(s) - s[i] + x
  {
    var n := |s| - 1;
    if i < n {
      SumUpdate(s[..n], i, x);
      assert s[i := x][..n] == s[..n][i := x];
    } else {
      assert s[i := x][..n] == s[..n];
    }
  }

  lemma {:induction false} SumZeros(n: nat)
    ensures Sum(Zeros(n)) == 0.0
  {
    if n > 0 {
      SumZeros(n - 1);
      assert Zeros(n)[..n - 1] == Zeros(n - 1);
    }
  }

  /** Every item is in exactly one column. */
  lemma {:induction false} HeightsSumUp(items: seq<real>, columns: nat, gap: real)
    requires columns > 0
    ensures Sum(Heights(items, columns, gap)) == Total(items, gap)
  {
    if items == [] {
      SumZeros(columns);
    } else {
      var n := |items| - 1;
      HeightsSumUp(items[..n], columns, gap);
      var h := Heights(items[..n], columns, gap);
      SumUpdate(h, Shortest(h), h[Shortest(h)] + (items[n] + gap));
    }
  }

  // ---- Balance ----

  ghost predicate NonNegative(items: seq<real>, gap: real) {
    gap >= 0.0 && forall i :: 0 <= i < |items| ==> items[i] >= 0.0
  }

  /** Any two columns differ by at most the largest item with its gap. */
  lemma {:induction false} ColumnsBalance(items: seq<real>, columns: nat, gap: real)
    requires columns > 0 && NonNegative(items, gap)
    ensures forall i, j :: 0 <= i < columns && 0 <= j < columns ==>
      Heights(items, columns, gap)[i] - Heights(items, columns, gap)[j] <= Largest(items, gap)
    ensures forall i :: 0 <= i < columns ==> Heights(items, columns, gap)[i] >= 0.0
  {
    if items != [] {
      var n := |items| - 1;
      ColumnsBalance(items[..n], columns, gap);
    }
  }

  /** `n` times a height, by repeated addition; `TimesMultiplies` says that it is the product. */
  function Times(n: nat, x: real): real {
    if n == 0 then 0.0 else Times(n - 1, x) + x
  }

  lemma {:induction false} TimesMultiplies(n: nat, x: real)
    ensures Times(n, x) == n as real * x
  {
    if n > 0 {
      TimesMultiplies(n - 1, x);
      OneMoreTime((n - 1) as real, x);
    }
  }

  lemma OneMoreTime(m: real, x: real)
    ensures m * x + x == (m + 1.0) * x
  {
  }

  lemma {:induction false} TimesAdds(n: nat, x: real, y: real)
    ensures Times(n, x + y) == Times(n, x) + Times(n, y) && Times(n, x - y) == Times(n, x) - Times(n, y)
  {
    if n > 0 { TimesAdds(n - 1, x, y); }
  }

  lemma {:induction false} TimesGrows(n: nat, x: real, y: real)
    requires x <= y
    ensures Times(n, x) <= Times(n, y)
  {
    if n > 0 { TimesGrows(n - 1, x, y); }
  }

  lemma {:induction false} TimesJoins(m: nat, n: nat, x: real)
    ensures Times(m + n, x) == Times(m, x) + Times(n, x)
  {
    if n > 0 { TimesJoins(m, n - 1, x); }
  }

  lemma {:induction false} SumAtLeast(s: seq<real>, i: nat, low: real)
    requires i < |s| && forall k :: 0 <= k < |s| ==> s[k] >= low
    ensures Sum(s) >= s[i] + Times(|s| - 1, low)
  {
    var n := |s| - 1;
    if i < n {
      SumAtLeast(s[..n], i, low);
    } else {
      SumAll(s[..n], low);
    }
  }

  lemma {:induction false} SumAll(s: seq<real>, low: real)
    requires forall k :: 0 <= k < |s| ==> s[k] >= low
    ensures Sum(s) >= Times(|s|, low)
  {
    if s != [] {
      var n := |s| - 1;
      SumAll(s[..n], low);
    }
  }

  /** The tallest column is within the average and the largest item: m * tallest <= total + (m - 1) * largest. */
  lemma TallestIsBounded(items: seq<real>, columns: nat, gap: real)
    requires columns > 0 && NonNegative(items, gap)
    ensures Times(columns, Tallest(Heights(items, columns, gap)))
      <= Total(items, gap) + Times(columns - 1, Largest(items, gap))
  {
    var h, largest := Heights(items, columns, gap), Largest(items, gap);
    var tallest := Tallest(h);
    ColumnsBalance(items, columns, gap);
    HeightsSumUp(items, columns, gap);
    TallestIsIn(h);
    var i :| 0 <= i < |h| && h[i] == tallest;
    SumAtLeast(h, i, tallest - largest);
    TimesAdds(columns - 1, tallest, largest);
  }

  lemma TallestIsIn(h: seq<real>)
    requires h != [] && forall i :: 0 <= i < |h| ==> h[i] >= 0.0
    ensures Tallest(h) in h
  {
    if Tallest(h) == 0.0 { assert h[0] == 0.0; }
  }

  // ---- Against any other assignment ----

  /** The height an assignment of items to columns gives one column. */
  function Load(items: seq<real>, assignment: seq<nat>, gap: real, column: nat): real
    requires |assignment| == |items|
  {
    if items == [] then 0.0
    else
      var n := |items| - 1;
      Load(items[..n], assignment[..n], gap, column) + (if assignment[n] == column then items[n] + gap else 0.0)
  }

  function Loads(items: seq<real>, assignment: seq<nat>, gap: real, columns: nat): (s: seq<real>)
    requires |assignment| == |items|
    ensures |s| == columns && forall c :: 0 <= c < columns ==> s[c] == Load(items, assignment, gap, c)
  {
    seq(columns, c requires 0 <= c < columns => Load(items, assignment, gap, c))
  }

  lemma {:induction false} LoadsSumUp(items: seq<real>, assignment: seq<nat>, gap: real, columns: nat)
    requires |assignment| == |items| && forall i :: 0 <= i < |items| ==> assignment[i] < columns
    ensures Sum(Loads(items, assignment, gap, columns)) == Total(items, gap)
  {
    if items == [] {
      SumZeros(columns);
      assert Loads(items, assignment, gap, columns) == Zeros(columns);
    } else {
      var n := |items| - 1;
      var before, c := Loads(items[..n], assignment[..n], gap, columns), assignment[n];
      LoadsSumUp(items[..n], assignment[..n], gap, columns);
      assert Loads(items, assignment, gap, columns) == before[c := before[c] + (items[n] + gap)];
      SumUpdate(before, c, before[c] + (items[n] + gap));
    }
  }

  lemma {:induction false} LoadHolds(items: seq<real>, assignment: seq<nat>, gap: real, i: nat)
    requires |assignment| == |items| && i < |items| && NonNegative(items, gap)
    ensures Load(items, assignment, gap, assignment[i]) >= items[i] + gap
    ensures forall c :: Load(items, assignment, gap, c) >= 0.0
  {
    var n := |items| - 1;
    LoadsNonNegative(items, assignment, gap);
    LoadsNonNegative(items[..n], assignment[..n], gap);
    if i < n { LoadHolds(items[..n], assignment[..n], gap, i); }
  }

  lemma {:induction false} LoadsNonNegative(items: seq<real>, assignment: seq<nat>, gap: real)
    requires |assignment| == |items| && NonNegative(items, gap)
    ensures forall c :: Load(items, assignment, gap, c) >= 0.0
  {
    if items != [] { LoadsNonNegative(items[..|items| - 1], assignment[..|items| - 1], gap); }
  }

  lemma {:induction false} SumAtMost(s: seq<real>, high: real)
    requires forall k :: 0 <= k < |s| ==> s[k] <= high
    ensures Sum(s) <= Times(|s|, high)
  {
    if s != [] {
      var n := |s| - 1;
      SumAtMost(s[..n], high);
    }
  }

  /**
   List scheduling: whatever other assignment of the items to the columns, the packing's tallest column is at most
   2 - 1/m times as high as the tallest column of that assignment: m * tallest <= (2m - 1) * other.
   */
  lemma WithinTwiceAnyAssignment(items: seq<real>, columns: nat, gap: real, assignment: seq<nat>)
    requires columns > 0 && NonNegative(items, gap)
    requires |assignment| == |items| && forall i :: 0 <= i < |items| ==> assignment[i] < columns
    ensures Times(columns, Tallest(Heights(items, columns, gap)))
      <= Times(2 * columns - 1, Tallest(Loads(items, assignment, gap, columns)))
  {
    var loads := Loads(items, assignment, gap, columns);
    TallestIsBounded(items, columns, gap);
    LoadsSumUp(items, assignment, gap, columns);
    SumAtMost(loads, Tallest(loads));
    LargestIsLoaded(items, columns, gap, assignment);
    TimesGrows(columns - 1, Largest(items, gap), Tallest(loads));
    TimesJoins(columns, columns - 1, Tallest(loads));
  }

  /** Any assignment has a column at least as high as the largest item. */
  lemma LargestIsLoaded(items: seq<real>, columns: nat, gap: real, assignment: seq<nat>)
    requires columns > 0 && NonNegative(items, gap)
    requires |assignment| == |items| && forall i :: 0 <= i < |items| ==> assignment[i] < columns
    ensures Largest(items, gap) <= Tallest(Loads(items, assignment, gap, columns))
  {
    var loads, largest := Loads(items, assignment, gap, columns), Largest(items, gap);
    if largest > 0.0 {
      var i :| 0 <= i < |items| && largest == items[i] + gap;
      LoadHolds(items, assignment, gap, i);
      assert loads[assignment[i]] >= largest;
    }
  }

  // ---- Places ----

  /** Heights only grow, and a column that receives an item grows past it. */
  lemma {:induction false} HeightsGrow(items: seq<real>, columns: nat, gap: real, k: nat)
    requires columns > 0 && NonNegative(items, gap) && k <= |items|
    ensures forall c :: 0 <= c < columns ==>
      Heights(items[..k], columns, gap)[c] <= Heights(items, columns, gap)[c]
    decreases |items|
  {
    assert items[..|items|] == items;
    if k < |items| {
      var n := |items| - 1;
      assert items[..n][..k] == items[..k];
      HeightsGrow(items[..n], columns, gap, k);
    }
  }

  lemma PlacedBelow(items: seq<real>, columns: nat, gap: real, i: nat, k: nat)
    requires columns > 0 && NonNegative(items, gap) && i < k <= |items|
    ensures var p := PlaceOf(items, columns, gap, i);
      p.column < columns && p.top >= 0.0
      && p.top + items[i] + gap <= Heights(items[..k], columns, gap)[p.column]
  {
    var p := PlaceOf(items, columns, gap, i);
    assert items[..i + 1][..i] == items[..i] && items[..k][..i + 1] == items[..i + 1];
    HeightsGrow(items[..k], columns, gap, i + 1);
    ColumnsBalance(items[..i], columns, gap);
  }

  /** Items of one column never overlap, and leave the gap between them. */
  lemma ItemsNeverOverlap(items: seq<real>, columns: nat, gap: real, i: nat, j: nat)
    requires columns > 0 && NonNegative(items, gap) && i < j < |items|
    requires PlaceOf(items, columns, gap, i).column == PlaceOf(items, columns, gap, j).column
    ensures PlaceOf(items, columns, gap, i).top + items[i] + gap <= PlaceOf(items, columns, gap, j).top
  {
    PlacedBelow(items, columns, gap, i, j);
  }

  /** The container covers every item. */
  lemma ContainerCovers(items: seq<real>, columns: nat, gap: real, i: nat)
    requires columns > 0 && NonNegative(items, gap) && i < |items|
    ensures var p := PlaceOf(items, columns, gap, i);
      0.0 <= p.top && p.top + items[i] <= ContentHeight(Heights(items, columns, gap), gap)
  {
    PlacedBelow(items, columns, gap, i, |items|);
    assert items[..|items|] == items;
  }

  /** A column ends, with the gap, where its last item does. */
  lemma {:induction false} ColumnsEndWithItems(items: seq<real>, columns: nat, gap: real, c: nat)
    requires columns > 0 && c < columns
    ensures Heights(items, columns, gap)[c] == 0.0
      || exists i :: 0 <= i < |items| && EndsColumn(items, columns, gap, i, c)
  {
    if items != [] {
      var n := |items| - 1;
      var h := Heights(items[..n], columns, gap);
      if Shortest(h) == c {
        assert EndsColumn(items, columns, gap, n, c);
      } else {
        ColumnsEndWithItems(items[..n], columns, gap, c);
        if i :| 0 <= i < n && EndsColumn(items[..n], columns, gap, i, c) {
          assert items[..n][..i] == items[..i];
          assert EndsColumn(items, columns, gap, i, c);
        }
      }
    }
  }

  ghost predicate EndsColumn(items: seq<real>, columns: nat, gap: real, i: nat, c: nat)
    requires columns > 0 && i < |items| && c < columns
  {
    var p := PlaceOf(items, columns, gap, i);
    p.column == c && Heights(items, columns, gap)[c] == p.top + items[i] + gap
  }

  ghost predicate EndsAt(items: seq<real>, columns: nat, gap: real, i: nat, height: real)
    requires columns > 0 && i < |items|
  {
    PlaceOf(items, columns, gap, i).top + items[i] == height
  }

  /** The container ends where some item does: it covers them all, and no trailing gap is left. */
  lemma ContainerFits(items: seq<real>, columns: nat, gap: real)
    requires columns > 0 && NonNegative(items, gap) && items != []
    ensures var height := ContentHeight(Heights(items, columns, gap), gap);
      exists i :: 0 <= i < |items| && EndsAt(items, columns, gap, i, height)
  {
    var h := Heights(items, columns, gap);
    ColumnsBalance(items, columns, gap);
    TallestIsIn(h);
    var c :| 0 <= c < |h| && h[c] == Tallest(h);
    ColumnsEndWithItems(items, columns, gap, c);
    var height := ContentHeight(h, gap);
    if i :| 0 <= i < |items| && EndsColumn(items, columns, gap, i, c) {
      ContainerCovers(items, columns, gap, i);
      assert EndsAt(items, columns, gap, i, height);
    } else {
      ContainerCovers(items, columns, gap, 0);
      assert EndsAt(items, columns, gap, 0, height);
    }
  }
}
