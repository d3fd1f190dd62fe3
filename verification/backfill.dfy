/**
 Partitioned backfill: suggested window boundaries, and the proof that running the windows
 `(b_i, b_{i+1}]` one after another reads what one run over the whole range reads.
 */
module Backfill {
  import opened Prelude

  // ---------- boundary arithmetic ----------

  /** `Math.round(num / den)` for a positive denominator: halves round up. */
  function Round(num: int, den: int): int
    requires den > 0
  {
    (2 * num + den) / (2 * den)
  }

  lemma RoundNear(num: int, den: int)
    requires den > 0
    ensures -den < 2 * (num - Round(num, den) * den) <= den || -den <= 2 * (num - Round(num, den) * den) < den
    ensures -den <= 2 * (num - Round(num, den) * den) < den
  {
    var q, r := (2 * num + den) / (2 * den), (2 * num + den) % (2 * den);
    assert 2 * num + den == 2 * den * q + r;
    assert 2 * den * q == 2 * (q * den);
  }

  /** Cut number `k` of `windows`: `min + k * (max - min) / windows`, rounded. */
  function Cut(min: int, max: int, windows: int, k: int): int
    requires windows > 0
  {
    Round(min * windows + k * (max - min), windows)
  }

  predicate Increasing(xs: seq<int>) {
    forall i, j :: 0 <= i < j < |xs| ==> xs[i] < xs[j]
  }

  /** `dedupeIncreasing`: keep a point only if it lies above the last one kept. */
  function Thinned(points: seq<int>): (out: seq<int>)
    ensures Increasing(out)
    ensures points != [] ==> out != [] && out[0] == points[0]
  {
    if points == [] then []
    else
      var p := points[|points| - 1];
      var before := Thinned(points[..|points| - 1]);
      if before == [] || p > before[|before| - 1] then before + [p] else before
  }

  /** The point at `i` lies above everything before it. */
  predicate IsHigh(points: seq<int>, i: nat) {
    i < |points| && forall h :: 0 <= h < i ==> points[h] < points[i]
  }

  ghost predicate SomeHigh(points: seq<int>, p: int) {
    exists i: nat :: IsHigh(points, i) && points[i] == p
  }

  /** The points that rise above all before them, unless there is only one. */
  method DedupeIncreasing(points: seq<int>) returns (r: Option<seq<int>>)
    ensures r.Some? <==> exists i :: 0 <= i < |points| && points[i] > points[0]
    ensures r.Some? ==> |r.value| >= 2 && Increasing(r.value) && forall p :: p in r.value <==> SomeHigh(points, p)
    ensures r.Some? ==> r.value == Thinned(points)
  {
    var out: seq<int> := [];
    for i := 0 to |points|
      invariant out == Thinned(points[..i])
    {
      assert points[..i + 1][..i] == points[..i];
      if out == [] || points[i] > out[|out| - 1] {
        out := out + [points[i]];
      }
    }
    assert points[..|points|] == points;
    ThinnedGrows(points);
    forall p ensures p in out <==> SomeHigh(points, p) {
      ThinnedIsHighs(points, p);
    }
    if |out| < 2 {
      return None;
    }
    assert out[1] in out && out[1] > out[0];
    var i: nat :| IsHigh(points, i) && points[i] == out[1];
    return Some(out);
  }

  lemma {:induction false} ThinnedTop(points: seq<int>)
    requires points != []
    ensures forall i :: 0 <= i < |points| ==> points[i] <= Thinned(points)[|Thinned(points)| - 1]
  {
    var n := |points| - 1;
    assert points[..0] == [];
    if n > 0 {
      ThinnedTop(points[..n]);
      forall i | 0 <= i < n ensures points[..n][i] == points[i] {}
    }
  }

  lemma HighBefore(points: seq<int>, n: nat, i: nat)
    requires i < n <= |points|
    ensures IsHigh(points[..n], i) <==> IsHigh(points, i)
  {
    assert forall h :: 0 <= h <= i ==> points[..n][h] == points[h];
  }

  lemma SomeHighNext(points: seq<int>, p: int)
    requires points != []
    ensures var n := |points| - 1;
            SomeHigh(points, p) <==> SomeHigh(points[..n], p) || (IsHigh(points, n) && p == points[n])
  {
    var n := |points| - 1;
    if SomeHigh(points, p) {
      var i: nat :| IsHigh(points, i) && points[i] == p;
      if i < n {
        HighBefore(points, n, i);
        assert points[..n][i] == p;
      }
    }
    if SomeHigh(points[..n], p) {
      var i: nat :| IsHigh(points[..n], i) && points[..n][i] == p;
      HighBefore(points, n, i);
    }
  }

  /** Thinning keeps exactly the points above all points before them. */
  lemma {:induction false} ThinnedIsHighs(points: seq<int>, p: int)
    ensures p in Thinned(points) <==> SomeHigh(points, p)
  {
    if points != [] {
      var n := |points| - 1;
      ThinnedIsHighs(points[..n], p);
      SomeHighNext(points, p);
      LastIsHigh(points);
    }
  }

  /** The last point is kept exactly when it rises above all others. */
  lemma LastIsHigh(points: seq<int>)
    requires points != []
    ensures var n := |points| - 1;
            var before := Thinned(points[..n]);
            IsHigh(points, n) <==> before == [] || points[n] > before[|before| - 1]
  {
    var n, init := |points| - 1, points[..|points| - 1];
    if n > 0 {
      var before := Thinned(init);
      var top := before[|before| - 1];
      ThinnedTop(init);
      ThinnedMember(init, top);
      forall i | 0 <= i < n ensures points[i] == init[i] <= top {}
      var i :| 0 <= i < n && init[i] == top;
      assert points[i] == top;
    }
  }

  predicate NeverFalls(points: seq<int>) {
    forall i, j :: 0 <= i < j < |points| ==> points[i] <= points[j]
  }

  /** Thinning a list that never falls loses only repetitions. */
  lemma {:induction false} NothingLost(points: seq<int>, i: nat)
    requires i < |points| && NeverFalls(points)
    ensures points[i] in Thinned(points)
    decreases |points|
  {
    var n, init := |points| - 1, points[..|points| - 1];
    forall h | 0 <= h < n ensures init[h] == points[h] <= points[n] {}
    if i < n {
      NothingLost(init, i);
      ThinnedKeeps(points, init[i]);
    } else if n > 0 {
      var last := Thinned(init)[|Thinned(init)| - 1];
      ThinnedMember(init, last);
      assert last <= points[n];
    }
  }

  lemma {:induction false} ThinnedKeeps(points: seq<int>, p: int)
    requires points != [] && p in Thinned(points[..|points| - 1])
    ensures p in Thinned(points)
  {
  }

  /** The points before thinning: just below the minimum, the interior cuts, the maximum. */
  function Points(min: int, max: int, windows: int): seq<int>
    requires windows > 0
  {
    [min - 1] + seq(windows - 1, k requires 0 <= k < windows - 1 => Cut(min, max, windows, k + 1)) + [max]
  }

  lemma {:induction false} ThinnedMember(points: seq<int>, p: int)
    requires p in Thinned(points)
    ensures p in points
  {
    var n := |points| - 1;
    if p in Thinned(points[..n]) {
      ThinnedMember(points[..n], p);
    }
  }

  /** Thinning ends at the greatest point. */
  lemma {:induction false} ThinnedLast(points: seq<int>, top: int)
    requires points != [] && forall i :: 0 <= i < |points| ==> points[i] <= top
    requires points[|points| - 1] == top
    ensures Thinned(points)[|Thinned(points)| - 1] == top
  {
    var n := |points| - 1;
    var before := Thinned(points[..n]);
    if before != [] {
      ThinnedMember(points[..n], before[|before| - 1]);
    }
  }

  lemma CutInside(min: int, max: int, windows: int, k: int)
    requires windows > 0 && 0 < k < windows && min < max
    ensures min <= Cut(min, max, windows, k) <= max
    ensures -windows <= 2 * (min * windows + k * (max - min) - Cut(min, max, windows, k) * windows) <= windows
  {
    var num := min * windows + k * (max - min);
    var c := Cut(min, max, windows, k);
    RoundNear(num, windows);
    assert 0 <= k * (max - min) <= windows * (max - min) by {
      MulBounds(k, windows, max - min);
    }
    assert windows * (max - min) == max * windows - min * windows;
    BelowMul(c, min, windows);
    BelowMul(max, c, windows);
  }

  lemma BelowMul(a: int, b: int, d: int)
    requires d > 0
    ensures a < b ==> a * d <= b * d - d
  {
    if a < b {
      MulBounds(1, b - a, d);
      assert (b - a) * d == b * d - a * d;
    }
  }

  lemma MulBounds(a: int, b: int, d: int)
    requires 0 <= a <= b && d >= 0
    ensures 0 <= a * d <= b * d
  {
    assert (b - a) * d >= 0;
    assert b * d == a * d + (b - a) * d;
  }

  /** A suggested boundary: the lower end, the upper end, or a cut within half a unit of the exact split. */
  ghost predicate Explained(min: int, max: int, windows: int, b: int)
    requires windows > 0
  {
    || b == min - 1 || b == max
    || exists k :: IsCut(min, max, windows, k, b)
  }

  predicate IsCut(min: int, max: int, windows: int, k: int, b: int) {
    0 < k < windows && -windows <= 2 * (min * windows + k * (max - min) - b * windows) <= windows
  }

  predicate CutIn(min: int, max: int, windows: int, k: int, out: seq<int>) {
    exists b :: b in out && IsCut(min, max, windows, k, b)
  }

  lemma RoundMonotone(a: int, b: int, den: int)
    requires den > 0 && a <= b
    ensures Round(a, den) <= Round(b, den)
  {
    RoundNear(a, den);
    RoundNear(b, den);
    BelowMul(Round(b, den), Round(a, den), den);
  }

  /** The points never fall. */
  lemma PointsRise(min: int, max: int, windows: int, i: nat, j: nat)
    requires 1 <= windows && min < max && i < j <= windows
    ensures Points(min, max, windows)[i] <= Points(min, max, windows)[j] <= max
  {
    if 0 < i {
      CutInside(min, max, windows, i);
    }
    if j < windows {
      CutInside(min, max, windows, j);
      MulBounds(i, j, max - min);
      RoundMonotone(min * windows + i * (max - min), min * windows + j * (max - min), windows);
    }
  }

  /** `suggestBoundaries`, integer branch: the ends, every cut, and nothing else. */
  method SuggestBoundaries(min: int, max: int, windows: int) returns (r: Option<seq<int>>)
    ensures r.Some? <==> 1 <= windows <= 64 && min < max
    ensures r.Some? ==> |r.value| >= 2 && Increasing(r.value)
    ensures r.Some? ==> r.value[0] == min - 1 && r.value[|r.value| - 1] == max
    ensures r.Some? ==> |r.value| <= windows + 1 && forall b :: b in r.value ==> Explained(min, max, windows, b)
    ensures r.Some? ==> forall k :: 0 < k < windows ==> CutIn(min, max, windows, k, r.value)
  {
    if windows < 1 || windows > 64 || min >= max {
      return None;
    }
    var points := [min - 1];
    for k := 1 to windows
      invariant points == [min - 1] + seq(k - 1, j requires 0 <= j < k - 1 => Cut(min, max, windows, j + 1))
    {
      points := points + [Cut(min, max, windows, k)];
    }
    points := points + [max];
    assert points == Points(min, max, windows);
    SuggestedAre(min, max, windows);
    r := DedupeIncreasing(points);
  }

  lemma SuggestedAre(min: int, max: int, windows: int)
    requires 1 <= windows && min < max
    ensures var points := Points(min, max, windows);
            var out := Thinned(points);
            && points[0] < points[|points| - 1]
            && out[|out| - 1] == max && |out| <= windows + 1
            && (forall b :: b in out ==> Explained(min, max, windows, b))
            && (forall k :: 0 < k < windows ==> CutIn(min, max, windows, k, out))
  {
    PointsNeverFall(min, max, windows);
    ThinnedLast(Points(min, max, windows), max);
    ThinnedShorter(Points(min, max, windows));
    forall k | 0 < k < windows ensures CutIn(min, max, windows, k, Thinned(Points(min, max, windows))) {
      CutKept(min, max, windows, k);
    }
    forall b | b in Thinned(Points(min, max, windows)) ensures Explained(min, max, windows, b) {
      PointExplained(min, max, windows, b);
    }
  }

  lemma PointsNeverFall(min: int, max: int, windows: int)
    requires 1 <= windows && min < max
    ensures var points := Points(min, max, windows);
            && NeverFalls(points) && points[0] < max && points[|points| - 1] == max
            && forall i :: 0 <= i < |points| ==> points[i] <= max
  {
    var points := Points(min, max, windows);
    forall i, j | 0 <= i < j < |points| ensures points[i] <= points[j] <= max {
      PointsRise(min, max, windows, i, j);
    }
  }

  lemma CutKept(min: int, max: int, windows: int, k: int)
    requires 1 <= windows && min < max && 0 < k < windows
    ensures CutIn(min, max, windows, k, Thinned(Points(min, max, windows)))
  {
    PointsNeverFall(min, max, windows);
    NothingLost(Points(min, max, windows), k);
    CutAt(min, max, windows, k);
  }

  lemma CutAt(min: int, max: int, windows: int, k: int)
    requires 1 <= windows && min < max && 0 < k < windows
    ensures IsCut(min, max, windows, k, Points(min, max, windows)[k])
  {
    CutInside(min, max, windows, k);
  }

  lemma PointExplained(min: int, max: int, windows: int, b: int)
    requires 1 <= windows && min < max && b in Thinned(Points(min, max, windows))
    ensures Explained(min, max, windows, b)
  {
    var points := Points(min, max, windows);
    ThinnedMember(points, b);
    var i :| 0 <= i < |points| && points[i] == b;
    if 0 < i < windows {
      CutAt(min, max, windows, i);
    }
  }

  lemma {:induction false} ThinnedShorter(points: seq<int>)
    ensures |Thinned(points)| <= |points|
  {
    if points != [] {
      ThinnedShorter(points[..|points| - 1]);
    }
  }

  /** `boundariesFromQuantiles` on integers: just below the minimum, then every quantile above all before it. */
  method BoundariesFromQuantiles(min: int, quantiles: seq<int>) returns (r: Option<seq<int>>)
    ensures r.Some? <==> exists q :: q in quantiles && q >= min
    ensures r.Some? ==> |r.value| >= 2 && Increasing(r.value) && r.value[0] == min - 1
    ensures r.Some? ==> forall b :: b in r.value <==> SomeHigh([min - 1] + quantiles, b)
  {
    var points := [min - 1] + quantiles;
    r := DedupeIncreasing(points);
    assert forall i :: 0 <= i < |quantiles| ==> points[i + 1] == quantiles[i];
    if q :| q in quantiles && q >= min {
      var i :| 0 <= i < |quantiles| && quantiles[i] == q;
      assert points[i + 1] > points[0];
    }
    if r.Some? {
      var i :| 0 <= i < |points| && points[i] > points[0];
      assert points[i] == quantiles[i - 1] && quantiles[i - 1] in quantiles;
    }
  }

  /** Thinning to a single point means nothing lies above the first. */
  lemma {:induction false} ThinnedGrows(points: seq<int>)
    ensures points != [] && |Thinned(points)| < 2 ==> forall i :: 0 <= i < |points| ==> points[i] <= points[0]
  {
    if points != [] {
      var n := |points| - 1;
      ThinnedGrows(points[..n]);
      assert forall i :: 0 <= i < n ==> points[..n][i] == points[i];
    }
  }

  // ---------- cursor windows ----------

  /** A source record; its cursor may be null. */
  datatype Row = Row(cursor: Option<int>, payload: int)

  /** Ascending by cursor, nulls first, as `ORDER BY` delivers. */
  predicate Ascending(rows: seq<Row>) {
    forall i, j :: 0 <= i < j < |rows| ==> rows[i].cursor.None? || (rows[j].cursor.Some? && rows[i].cursor.value <= rows[j].cursor.value)
  }

  /** Strictly above the exclusive lower bound; a null cursor only passes when there is none. */
  predicate IsAfter(from: Option<int>, r: Row) {
    from.None? || (r.cursor.Some? && r.cursor.value > from.value)
  }

  /** Inside `(from, to]`. */
  predicate Inside(from: Option<int>, to: Option<int>, r: Row) {
    IsAfter(from, r) && (to.None? || r.cursor.None? || r.cursor.value <= to.value)
  }

  function After(from: Option<int>): Row -> bool {
    (r: Row) => IsAfter(from, r)
  }

  function InWindow(from: Option<int>, to: Option<int>): Row -> bool {
    (r: Row) => Inside(from, to, r)
  }

  /** `read_since` on an ordered source. */
  function ReadSince(rows: seq<Row>, from: Option<int>): seq<Row> {
    Filter(After(from), rows)
  }

  function MaxCursor(rows: seq<Row>): Option<int> {
    if rows == [] then None
    else
      var before, c := MaxCursor(rows[..|rows| - 1]), rows[|rows| - 1].cursor;
      if c.Some? && (before.None? || c.value > before.value) then c else before
  }

  /**
   The cursored read of `_run_task`: stops at the first record beyond `to`. On an ordered source it
   reads exactly the records inside the window, counts them, and reports their greatest cursor.
   */
  method CursorStream(rows: seq<Row>, from: Option<int>, to: Option<int>)
    returns (read: seq<Row>, count: nat, newCursor: Option<int>)
    requires Ascending(rows)
    ensures read == Filter(InWindow(from, to), rows)
    ensures count == |read| && newCursor == MaxCursor(read)
  {
    var base := ReadSince(rows, from);
    SinceAscending(rows, from);
    read, count, newCursor := [], 0, None;
    var i := 0;
    while i < |base|
      invariant i <= |base| && read == base[..i] && count == |read| && newCursor == MaxCursor(read)
      invariant forall h :: 0 <= h < i ==> to.None? || base[h].cursor.None? || base[h].cursor.value <= to.value
    {
      var raw := base[i];
      if to.Some? && raw.cursor.Some? && raw.cursor.value > to.value {
        StopIsExact(rows, base, from, to, i);
        return;
      }
      assert base[..i + 1][..i] == base[..i];
      if raw.cursor.Some? && (newCursor.None? || raw.cursor.value > newCursor.value) {
        newCursor := raw.cursor;
      }
      count := count + 1;
      read := read + [raw];
      i := i + 1;
    }
    StopIsExact(rows, base, from, to, i);
    assert base[..i] == base;
  }

  lemma {:induction false} SinceAscending(rows: seq<Row>, from: Option<int>)
    requires Ascending(rows)
    ensures Ascending(ReadSince(rows, from))
    ensures forall r :: r in ReadSince(rows, from) ==> IsAfter(from, r)
  {
    if rows != [] {
      var n := |rows| - 1;
      SinceAscending(rows[..n], from);
      forall r | r in ReadSince(rows[..n], from)
        ensures r.cursor.None? || (rows[n].cursor.Some? && r.cursor.value <= rows[n].cursor.value)
      {
        FilterMember(After(from), rows[..n], r);
        var i :| 0 <= i < n && rows[..n][i] == r;
        assert rows[i] == r;
      }
    }
  }

  /** Stopping at position `i` of the filtered stream leaves exactly the window's records. */
  lemma {:induction false} StopIsExact(rows: seq<Row>, base: seq<Row>, from: Option<int>, to: Option<int>, i: nat)
    requires base == ReadSince(rows, from) && Ascending(base) && i <= |base|
    requires forall h :: 0 <= h < i ==> to.None? || base[h].cursor.None? || base[h].cursor.value <= to.value
    requires i < |base| ==> to.Some? && base[i].cursor.Some? && base[i].cursor.value > to.value
    ensures base[..i] == Filter(InWindow(from, to), rows)
  {
    FilterTwice(After(from), InWindow(from, to), rows);
    HeadInside(rows, from, to, i);
    TailBeyond(base, to, i);
    SplitFilter(InWindow(from, to), base, i);
  }

  lemma {:induction false} SplitFilter<T>(p: T -> bool, s: seq<T>, i: nat)
    requires i <= |s|
    requires forall h :: 0 <= h < i ==> p(s[..i][h])
    requires forall h :: 0 <= h < |s[i..]| ==> !p(s[i..][h])
    ensures Filter(p, s) == s[..i]
  {
    assert s == s[..i] + s[i..];
    FilterConcat(p, s[..i], s[i..]);
    KeepsAll(p, s[..i]);
    DropsAll(p, s[i..]);
    assert s[..i] + [] == s[..i];
  }

  lemma HeadInside(rows: seq<Row>, from: Option<int>, to: Option<int>, i: nat)
    requires i <= |ReadSince(rows, from)|
    requires forall h :: 0 <= h < i ==>
               var c := ReadSince(rows, from)[h].cursor; to.None? || c.None? || c.value <= to.value
    ensures forall h :: 0 <= h < i ==> Inside(from, to, ReadSince(rows, from)[..i][h])
  {
    var base := ReadSince(rows, from);
    forall h | 0 <= h < i ensures Inside(from, to, base[..i][h]) {
      FilterMember(After(from), rows, base[h]);
    }
  }

  lemma TailBeyond(base: seq<Row>, to: Option<int>, i: nat)
    requires Ascending(base) && i <= |base|
    requires i < |base| ==> to.Some? && base[i].cursor.Some? && base[i].cursor.value > to.value
    ensures forall h :: 0 <= h < |base[i..]| ==>
              to.Some? && base[i..][h].cursor.Some? && base[i..][h].cursor.value > to.value
  {
    forall h | 0 <= h < |base[i..]| ensures base[i..][h].cursor.Some? && base[i..][h].cursor.value > to.value {
      assert base[i..][h] == base[i + h];
      if h > 0 {
        assert base[i].cursor.Some? && (base[i + h].cursor.Some? && base[i].cursor.value <= base[i + h].cursor.value);
      }
    }
  }

  lemma {:induction false} FilterTwice<T>(p: T -> bool, q: T -> bool, s: seq<T>)
    requires forall x :: q(x) ==> p(x)
    ensures Filter(q, Filter(p, s)) == Filter(q, s)
  {
    if s != [] {
      var n := |s| - 1;
      FilterTwice(p, q, s[..n]);
      FilterConcat(q, Filter(p, s[..n]), if p(s[n]) then [s[n]] else []);
      if p(s[n]) {
        assert [s[n]][..0] == [];
      }
      assert Filter(p, s[..n]) + [] == Filter(p, s[..n]);
    }
  }

  lemma {:induction false} KeepsAll<T>(p: T -> bool, s: seq<T>)
    requires forall i :: 0 <= i < |s| ==> p(s[i])
    ensures Filter(p, s) == s
  {
    if s != [] {
      KeepsAll(p, s[..|s| - 1]);
    }
  }

  lemma {:induction false} DropsAll<T>(p: T -> bool, s: seq<T>)
    requires forall i :: 0 <= i < |s| ==> !p(s[i])
    ensures Filter(p, s) == []
  {
    if s != [] {
      DropsAll(p, s[..|s| - 1]);
    }
  }

  // ---------- exactly once ----------

  /** The reads of the windows between consecutive boundaries, one after another. */
  function WindowReads(rows: seq<Row>, bounds: seq<int>): seq<Row> {
    if |bounds| < 2 then []
    else
      var n := |bounds| - 1;
      WindowReads(rows, bounds[..n]) + Filter(InWindow(Some(bounds[n - 1]), Some(bounds[n])), rows)
  }

  /** In an ordered source, a window splits into two adjacent ones. */
  lemma {:induction false} WindowSplits(rows: seq<Row>, a: int, b: int, c: int)
    requires Ascending(rows) && a <= b <= c
    ensures Filter(InWindow(Some(a), Some(b)), rows) + Filter(InWindow(Some(b), Some(c)), rows)
            == Filter(InWindow(Some(a), Some(c)), rows)
  {
    if rows != [] {
      var n := |rows| - 1;
      WindowSplits(rows[..n], a, b, c);
      if Inside(Some(a), Some(b), rows[n]) {
        forall i | 0 <= i < n ensures !Inside(Some(b), Some(c), rows[..n][i]) {
          assert rows[..n][i] == rows[i];
          assert rows[i].cursor.None? || rows[i].cursor.value <= rows[n].cursor.value;
        }
        DropsAll(InWindow(Some(b), Some(c)), rows[..n]);
        var f := Filter(InWindow(Some(a), Some(b)), rows[..n]);
        assert f + [] == f && f + [rows[n]] + [] == f + [rows[n]];
      }
    }
  }

  /** Backfilling window by window reads every record of the whole range exactly once, in order. */
  lemma {:induction false} BackfillExactlyOnce(rows: seq<Row>, bounds: seq<int>)
    requires Ascending(rows) && |bounds| >= 2 && Increasing(bounds)
    ensures WindowReads(rows, bounds) == Filter(InWindow(Some(bounds[0]), Some(bounds[|bounds| - 1])), rows)
    decreases |bounds|
  {
    var n := |bounds| - 1;
    if n >= 2 {
      BackfillExactlyOnce(rows, bounds[..n]);
      WindowSplits(rows, bounds[0], bounds[n - 1], bounds[n]);
    } else {
      assert WindowReads(rows, bounds[..1]) == [];
    }
  }

  /** The suggested boundaries cover all records between the minimum and the maximum. */
  lemma {:induction false} SuggestionCovers(rows: seq<Row>, bounds: seq<int>, min: int, max: int)
    requires Ascending(rows) && |bounds| >= 2 && Increasing(bounds)
    requires bounds[0] == min - 1 && bounds[|bounds| - 1] == max
    requires forall r :: r in rows ==> r.cursor.Some? && min <= r.cursor.value <= max
    ensures WindowReads(rows, bounds) == rows
  {
    BackfillExactlyOnce(rows, bounds);
    forall i | 0 <= i < |rows| ensures Inside(Some(min - 1), Some(max), rows[i]) {
      assert rows[i] in rows;
    }
    KeepsAll(InWindow(Some(min - 1), Some(max)), rows);
  }
}
