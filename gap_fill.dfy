/**
 The gap filler of the TVL chart controller: it turns a list of chart points
 `[timestamp, v1, ..., vn]` into a dense series with one point every `hours`
 hours from the first point's timestamp up to the last point's, carrying the
 previously emitted values forward into every step that has no observation.
 */
module GapFill {

  const SecondsPerHour := 3600

  datatype Option<T> = None | Some(value: T)

  /** A chart point: a Unix timestamp in seconds and its metric slots, in order. */
  datatype Point<N> = Point(timestamp: int, values: seq<N>)

  /** Every point carries exactly `width` metric slots (the tuple type of the series). */
  predicate Arity<N>(points: seq<Point<N>>, width: nat) {
    forall i :: 0 <= i < |points| ==> |points[i].values| == width
  }

  /** The timestamps that occur in a list of points. */
  function Timestamps<N>(points: seq<Point<N>>): set<int> {
    set i | 0 <= i < |points| :: points[i].timestamp
  }

  /** Point `i` is the last one in the list that carries its timestamp. */
  predicate LastOccurrence<N>(points: seq<Point<N>>, i: int) {
    0 <= i < |points| &&
    forall j :: i < j < |points| ==> points[j].timestamp != points[i].timestamp
  }

  /** `t` is one of the grid instants `min + k * step` that lie in `[min, max]`. */
  predicate OnGrid(t: int, min: int, max: int, step: int)
    requires step > 0
  {
    min <= t <= max && (t - min) % step == 0
  }

  /**
   The timestamp -> values index the filler builds from its input, entry by
   entry in input order, so that of several points with one timestamp the
   last one wins.
   */
  function ValueIndex<N>(points: seq<Point<N>>): (index: map<int, seq<N>>)
    ensures index.Keys == Timestamps(points)
    ensures forall t :: t in index ==> exists p :: p in points && p.timestamp == t && p.values == index[t]
  {
    if |points| == 0 then map[]
    else
      var init, last := points[..|points| - 1], points[|points| - 1];
      assert points == init + [last];
      ValueIndex(init)[last.timestamp := last.values]
  }

  /**
   The dense series from instant `t` up to `max`: at each instant the indexed
   values if there are any, otherwise the values emitted one step earlier
   (`prev`). The requires says that a step without an observation always has
   an earlier emitted point to copy from.
   */
  function FillFrom<N>(index: map<int, seq<N>>, t: int, max: int, step: int, prev: Option<seq<N>>): (r: seq<Point<N>>)
    requires step > 0
    requires t <= max ==> t in index || prev.Some?
    ensures |r| > 0 <==> t <= max
    decreases max - t
  {
    if t > max then []
    else
      var values := if t in index then index[t] else prev.value;
      [Point(t, values)] + FillFrom(index, t + step, max, step, Some(values))
  }

  /** What the filler returns for `points` and a step of `hours` hours. */
  function Fill<N>(points: seq<Point<N>>, hours: int): (r: seq<Point<N>>)
    requires hours > 0
    ensures |r| > 0 <==> |points| > 0 && points[0].timestamp <= points[|points| - 1].timestamp
  {
    if |points| == 0 then []
    else
      assert points[0].timestamp in Timestamps(points);
      FillFrom(ValueIndex(points), points[0].timestamp, points[|points| - 1].timestamp,
               hours * SecondsPerHour, None)
  }

  /** The values emitted last, if anything was emitted. */
  function LastValues<N>(emitted: seq<Point<N>>): Option<seq<N>> {
    if |emitted| == 0 then None else Some(emitted[|emitted| - 1].values)
  }

  /**
   The filler shared by both arities: index the points by timestamp, then
   walk the grid from the first point's timestamp to the last point's.
   */
  method FillGaps<N>(points: seq<Point<N>>, hours: int) returns (allPoints: seq<Point<N>>)
    requires hours > 0
    ensures allPoints == Fill(points, hours)
  {
    if |points| == 0 {
      return [];
    }
    var timestampValues := ValueIndex(points);
    FillStart(points, hours);
    allPoints := WalkGrid(timestampValues, points[0].timestamp, points[|points| - 1].timestamp, hours * SecondsPerHour);
  }

  /** The filler of a non-empty list starts its walk at an indexed instant. */
  lemma FillStart<N>(points: seq<Point<N>>, hours: int)
    requires hours > 0 && |points| > 0
    ensures points[0].timestamp in ValueIndex(points)
    ensures Fill(points, hours) ==
            FillFrom(ValueIndex(points), points[0].timestamp, points[|points| - 1].timestamp, hours * SecondsPerHour, None)
  {
    assert points[0].timestamp in Timestamps(points);
  }

  /**
   The fill loop: step from `min` in steps of `step` while not past `max`,
   and push either the indexed values or those of the point pushed before.
   */
  method WalkGrid<N>(index: map<int, seq<N>>, min: int, max: int, step: int) returns (allPoints: seq<Point<N>>)
    requires step > 0
    requires min in index
    ensures allPoints == FillFrom(index, min, max, step, None)
  {
    allPoints := [];
    var timestamp := min;
    while timestamp <= max
      invariant timestamp <= max ==> timestamp in index || |allPoints| > 0
      invariant allPoints + FillFrom(index, timestamp, max, step, LastValues(allPoints)) == FillFrom(index, min, max, step, None)
      decreases max - timestamp
    {
      var values;
      if timestamp in index {
        values := index[timestamp];
      } else {
        values := allPoints[|allPoints| - 1].values;
      }
      FillStep(allPoints, index, timestamp, max, step, FillFrom(index, min, max, step, None));
      allPoints := allPoints + [Point(timestamp, values)];
      timestamp := timestamp + step;
    }
  }

  /** One turn of the fill loop keeps "emitted so far, then the rest of the walk" equal to the whole series. */
  lemma FillStep<N>(emitted: seq<Point<N>>, index: map<int, seq<N>>, t: int, max: int, step: int, target: seq<Point<N>>)
    requires step > 0 && t <= max
    requires t in index || |emitted| > 0
    requires emitted + FillFrom(index, t, max, step, LastValues(emitted)) == target
    ensures var values := if t in index then index[t] else emitted[|emitted| - 1].values;
      (emitted + [Point(t, values)]) + FillFrom(index, t + step, max, step, LastValues(emitted + [Point(t, values)])) == target
  {
    var values := if t in index then index[t] else emitted[|emitted| - 1].values;
    var emitted' := emitted + [Point(t, values)];
    assert LastValues(emitted') == Some(values);
    FillFromUnfold(index, t, max, step, LastValues(emitted));
    AppendAssoc(emitted, [Point(t, values)], FillFrom(index, t + step, max, step, Some(values)));
  }

  /** One step of the walk: the point at `t`, then the walk from the next instant. */
  lemma FillFromUnfold<N>(index: map<int, seq<N>>, t: int, max: int, step: int, prev: Option<seq<N>>)
    requires step > 0 && t <= max
    requires t in index || prev.Some?
    ensures var values := if t in index then index[t] else prev.value;
      FillFrom(index, t, max, step, prev) == [Point(t, values)] + FillFrom(index, t + step, max, step, Some(values))
  {
  }

  lemma AppendAssoc<T>(a: seq<T>, b: seq<T>, c: seq<T>)
    ensures (a + b) + c == a + (b + c)
  {
  }

  /** `addTokenMissingTimestamps`: the filler over `[timestamp, v1, v2]` points. */
  method AddTokenMissingTimestamps<N>(points: seq<Point<N>>, hours: int) returns (allPoints: seq<Point<N>>)
    requires hours > 0
    requires Arity(points, 2)
    ensures allPoints == Fill(points, hours)
    ensures Arity(allPoints, 2)
    ensures |points| == 0 ==> allPoints == []
  {
    allPoints := FillGaps(points, hours);
    FillArity(points, hours, 2);
  }

  /** `addMissingTimestamps`: the filler over `[timestamp, v1, ..., v8]` points. */
  method AddMissingTimestamps<N>(points: seq<Point<N>>, hours: int) returns (allPoints: seq<Point<N>>)
    requires hours > 0
    requires Arity(points, 8)
    ensures allPoints == Fill(points, hours)
    ensures Arity(allPoints, 8)
    ensures |points| == 0 ==> allPoints == []
  {
    allPoints := FillGaps(points, hours);
    FillArity(points, hours, 8);
  }

  // ---------------------------------------------------------------------------
  // The index
  // ---------------------------------------------------------------------------

  /** Of several points with one timestamp, the index holds the values of the last. */
  lemma {:induction false} IndexLastWins<N>(points: seq<Point<N>>, i: int)
    requires LastOccurrence(points, i)
    ensures points[i].timestamp in ValueIndex(points)
    ensures ValueIndex(points)[points[i].timestamp] == points[i].values
  {
    var n := |points|;
    if i < n - 1 {
      var init := points[..n - 1];
      assert LastOccurrence(init, i);
      IndexLastWins(init, i);
    }
  }

  // ---------------------------------------------------------------------------
  // Facts about FillFrom, by induction on the distance to `max`
  // ---------------------------------------------------------------------------

  /**
   The series from `t` is empty when `t` is past `max`; otherwise its points
   are `step` apart starting at `t`, and the last is the largest such instant
   not after `max`.
   */
  lemma {:induction false} FillFromShape<N>(index: map<int, seq<N>>, t: int, max: int, step: int, prev: Option<seq<N>>)
    requires step > 0
    requires t <= max ==> t in index || prev.Some?
    ensures t > max ==> FillFrom(index, t, max, step, prev) == []
    ensures t <= max ==> (|FillFrom(index, t, max, step, prev)| > 0 &&
              t + (|FillFrom(index, t, max, step, prev)| - 1) * step <= max < t + |FillFrom(index, t, max, step, prev)| * step)
    ensures forall k :: 0 <= k < |FillFrom(index, t, max, step, prev)| ==>
              FillFrom(index, t, max, step, prev)[k].timestamp == t + k * step
    decreases max - t
  {
    if t <= max {
      var values := if t in index then index[t] else prev.value;
      var rest := FillFrom(index, t + step, max, step, Some(values));
      FillFromShape(index, t + step, max, step, Some(values));
      var r := FillFrom(index, t, max, step, prev);
      assert r == [Point(t, values)] + rest;
      if |rest| > 0 {
        MulStep(|rest| - 1, step);
        MulStep(|rest|, step);
      }
      forall k | 0 < k < |r| ensures r[k].timestamp == t + k * step {
        assert r[k] == rest[k - 1];
        MulStep(k - 1, step);
      }
    }
  }

  /**
   In the series from `t`: a point whose instant is indexed has the indexed
   values; any other point has the values of the point before it; and the
   first point falls back on `prev` only when its own instant is not indexed.
   */
  lemma {:induction false} FillFromValues<N>(index: map<int, seq<N>>, t: int, max: int, step: int, prev: Option<seq<N>>)
    requires step > 0
    requires t <= max ==> t in index || prev.Some?
    ensures forall k :: (0 <= k < |FillFrom(index, t, max, step, prev)| &&
              FillFrom(index, t, max, step, prev)[k].timestamp in index) ==>
              FillFrom(index, t, max, step, prev)[k].values == index[FillFrom(index, t, max, step, prev)[k].timestamp]
    ensures forall k :: (0 < k < |FillFrom(index, t, max, step, prev)| &&
              FillFrom(index, t, max, step, prev)[k].timestamp !in index) ==>
              FillFrom(index, t, max, step, prev)[k].values == FillFrom(index, t, max, step, prev)[k - 1].values
    ensures t <= max && t !in index ==> FillFrom(index, t, max, step, prev)[0].values == prev.value
    decreases max - t
  {
    if t <= max {
      var values := if t in index then index[t] else prev.value;
      var rest := FillFrom(index, t + step, max, step, Some(values));
      FillFromValues(index, t + step, max, step, Some(values));
      var r := FillFrom(index, t, max, step, prev);
      assert r == [Point(t, values)] + rest;
      forall k | 0 < k < |r| ensures r[k] == rest[k - 1] {
      }
    }
  }

  /** With every indexed tuple and `prev` of width `w`, every filled point has width `w`. */
  lemma {:induction false} FillFromArity<N>(index: map<int, seq<N>>, t: int, max: int, step: int, prev: Option<seq<N>>, width: nat)
    requires step > 0
    requires t <= max ==> t in index || prev.Some?
    requires forall s :: s in index ==> |index[s]| == width
    requires prev.Some? ==> |prev.value| == width
    ensures Arity(FillFrom(index, t, max, step, prev), width)
    decreases max - t
  {
    if t <= max {
      var values := if t in index then index[t] else prev.value;
      FillFromArity(index, t + step, max, step, Some(values), width);
      var r := FillFrom(index, t, max, step, prev);
      assert r == [Point(t, values)] + FillFrom(index, t + step, max, step, Some(values));
    }
  }

  // ---------------------------------------------------------------------------
  // Properties of the filler
  // ---------------------------------------------------------------------------

  /**
   The output is exactly the grid `min + k * hours * 3600` for
   `k = 0 .. (max - min) / (hours * 3600)`: it starts at the first point's
   timestamp, advances by one step at a time, and ends at the largest grid
   instant not after the last point's timestamp, which need not be that
   timestamp itself. It is empty exactly when the last point is earlier than
   the first.
   */
  lemma FillGrid<N>(points: seq<Point<N>>, hours: int)
    requires hours > 0 && |points| > 0
    ensures var r, min, max, step := Fill(points, hours), points[0].timestamp, points[|points| - 1].timestamp, hours * SecondsPerHour;
      && (r == [] <==> max < min)
      && (min <= max ==> |r| == (max - min) / step + 1)
      && (forall k :: 0 <= k < |r| ==> r[k].timestamp == min + k * step)
      && (forall k :: 0 < k < |r| ==> r[k].timestamp == r[k - 1].timestamp + step)
      && (forall j, k :: 0 <= j < k < |r| ==> r[j].timestamp < r[k].timestamp)
      && (|r| > 0 ==> r[|r| - 1].timestamp <= max < r[|r| - 1].timestamp + step)
  {
    var r, min, max, step := Fill(points, hours), points[0].timestamp, points[|points| - 1].timestamp, hours * SecondsPerHour;
    FillStart(points, hours);
    FillFromShape(ValueIndex(points), min, max, step, None);
    GridSteps(r, min, step);
    if min <= max {
      GridLength(|r|, min, max, step);
    }
  }

  /** Points at `min + k * step` are one step apart and strictly increasing. */
  lemma GridSteps<N>(r: seq<Point<N>>, min: int, step: int)
    requires step > 0
    requires forall k :: 0 <= k < |r| ==> r[k].timestamp == min + k * step
    ensures forall k :: 0 < k < |r| ==> r[k].timestamp == r[k - 1].timestamp + step
    ensures forall j, k :: 0 <= j < k < |r| ==> r[j].timestamp < r[k].timestamp
  {
    forall k | 0 < k < |r| ensures r[k].timestamp == r[k - 1].timestamp + step {
      MulStep(k - 1, step);
    }
    forall j, k | 0 <= j < k < |r| ensures r[j].timestamp < r[k].timestamp {
      MulStrict(j, k, step);
    }
  }

  /** `n` grid instants from `min` end at the last one not after `max` exactly when `n - 1` is `(max - min) / step`. */
  lemma GridLength(n: int, min: int, max: int, step: int)
    requires step > 0 && n > 0
    requires min + (n - 1) * step <= max < min + n * step
    ensures n == (max - min) / step + 1
  {
    MulStep(n - 1, step);
    DivModUnique(max - min, step, n - 1, max - min - (n - 1) * step);
  }

  /** A timestamp occurs in the output exactly when it is a grid instant between the first and last timestamps. */
  lemma FillTimestampsOnGrid<N>(points: seq<Point<N>>, hours: int)
    requires hours > 0 && |points| > 0
    ensures forall t :: t in Timestamps(Fill(points, hours)) <==>
              OnGrid(t, points[0].timestamp, points[|points| - 1].timestamp, hours * SecondsPerHour)
  {
    var r, min, max, step := Fill(points, hours), points[0].timestamp, points[|points| - 1].timestamp, hours * SecondsPerHour;
    forall t ensures t in Timestamps(r) <==> OnGrid(t, min, max, step) {
      if t in Timestamps(r) {
        var k :| 0 <= k < |r| && r[k].timestamp == t;
        OutputOnGrid(points, hours, k);
      }
      if OnGrid(t, min, max, step) {
        var k := GridInOutput(points, hours, t);
      }
    }
  }

  lemma OutputOnGrid<N>(points: seq<Point<N>>, hours: int, k: int)
    requires hours > 0 && |points| > 0 && 0 <= k < |Fill(points, hours)|
    ensures OnGrid(Fill(points, hours)[k].timestamp, points[0].timestamp, points[|points| - 1].timestamp, hours * SecondsPerHour)
  {
    var r, min, step := Fill(points, hours), points[0].timestamp, hours * SecondsPerHour;
    FillGrid(points, hours);
    DivModUnique(r[k].timestamp - min, step, k, 0);
    MulMono(k, |r| - 1, step);
  }

  lemma GridInOutput<N>(points: seq<Point<N>>, hours: int, t: int) returns (k: int)
    requires hours > 0 && |points| > 0
    requires OnGrid(t, points[0].timestamp, points[|points| - 1].timestamp, hours * SecondsPerHour)
    ensures 0 <= k < |Fill(points, hours)| && Fill(points, hours)[k].timestamp == t
  {
    var r, min, max, step := Fill(points, hours), points[0].timestamp, points[|points| - 1].timestamp, hours * SecondsPerHour;
    FillStart(points, hours);
    FillFromShape(ValueIndex(points), min, max, step, None);
    k := GridSlot(|r|, min, max, step, t);
  }

  /** A grid instant in `[min, max]` is one of the first `n` grid instants when the `n`-th is past `max`. */
  lemma GridSlot(n: int, min: int, max: int, step: int, t: int) returns (k: int)
    requires step > 0 && n > 0
    requires max < min + n * step
    requires OnGrid(t, min, max, step)
    ensures 0 <= k < n && t == min + k * step
  {
    k := (t - min) / step;
    assert t - min == k * step + (t - min) % step;
    if k < 0 {
      MulStrict(k, 0, step);
    }
    if k >= n {
      MulMono(n, k, step);
    }
  }

  /**
   The output carries an input point's values at its timestamp, and for
   duplicate timestamps those of the last such point; an input point whose
   timestamp is a grid instant appears in the output unchanged.
   */
  lemma FillPassthrough<N>(points: seq<Point<N>>, hours: int, i: int)
    requires hours > 0
    requires LastOccurrence(points, i)
    ensures forall k :: 0 <= k < |Fill(points, hours)| && Fill(points, hours)[k].timestamp == points[i].timestamp ==>
              Fill(points, hours)[k] == points[i]
    ensures OnGrid(points[i].timestamp, points[0].timestamp, points[|points| - 1].timestamp, hours * SecondsPerHour) ==>
              points[i] in Fill(points, hours)
  {
    var r, index := Fill(points, hours), ValueIndex(points);
    var min, max, step := points[0].timestamp, points[|points| - 1].timestamp, hours * SecondsPerHour;
    assert points[0].timestamp in Timestamps(points);
    IndexLastWins(points, i);
    FillFromValues(index, min, max, step, None);
    FillTimestampsOnGrid(points, hours);
    if OnGrid(points[i].timestamp, min, max, step) {
      assert points[i].timestamp in Timestamps(r);
      var k :| 0 <= k < |r| && r[k].timestamp == points[i].timestamp;
      assert r[k] == points[i];
    }
  }

  /** An input point whose timestamp is off the grid has no output point with that timestamp. */
  lemma FillDropsOffGrid<N>(points: seq<Point<N>>, hours: int, i: int)
    requires hours > 0 && 0 <= i < |points|
    requires (points[i].timestamp - points[0].timestamp) % (hours * SecondsPerHour) != 0
    ensures forall p :: p in Fill(points, hours) ==> p.timestamp != points[i].timestamp
  {
    FillTimestampsOnGrid(points, hours);
    forall p | p in Fill(points, hours) ensures p.timestamp != points[i].timestamp {
      assert p.timestamp in Timestamps(Fill(points, hours));
    }
  }

  /**
   At a step with no input point, every metric slot repeats the same slot of
   the point emitted just before it (which may itself be filled in).
   */
  lemma FillForward<N>(points: seq<Point<N>>, hours: int)
    requires hours > 0
    ensures forall k :: 0 < k < |Fill(points, hours)| && Fill(points, hours)[k].timestamp !in Timestamps(points) ==>
              Fill(points, hours)[k].values == Fill(points, hours)[k - 1].values
  {
    if |points| > 0 {
      assert points[0].timestamp in Timestamps(points);
      FillFromValues(ValueIndex(points), points[0].timestamp, points[|points| - 1].timestamp, hours * SecondsPerHour, None);
    }
  }

  /**
   The first output point is never filled in: it is at the first input
   point's timestamp, which is always indexed, and carries the indexed values.
   */
  lemma FillFirst<N>(points: seq<Point<N>>, hours: int)
    requires hours > 0
    ensures |Fill(points, hours)| > 0 ==>
              && Fill(points, hours)[0].timestamp == points[0].timestamp
              && points[0].timestamp in ValueIndex(points)
              && Fill(points, hours)[0].values == ValueIndex(points)[points[0].timestamp]
  {
    if |points| > 0 {
      assert points[0].timestamp in Timestamps(points);
      FillFromValues(ValueIndex(points), points[0].timestamp, points[|points| - 1].timestamp, hours * SecondsPerHour, None);
      FillFromShape(ValueIndex(points), points[0].timestamp, points[|points| - 1].timestamp, hours * SecondsPerHour, None);
    }
  }

  /**
   `j` is the nearest output position at or before `k` whose instant has an
   input point, and position `k` carries its values.
   */
  ghost predicate CarriedFrom<N>(r: seq<Point<N>>, index: map<int, seq<N>>, j: int, k: int) {
    && 0 <= j <= k < |r|
    && r[j].timestamp in index
    && r[k].values == index[r[j].timestamp]
    && forall l :: j < l <= k ==> r[l].timestamp !in index
  }

  /**
   Values are never invented or interpolated: every output point carries the
   indexed values of the nearest instant at or before it that has an input point.
   */
  lemma {:induction false} FillCarriesLatest<N>(points: seq<Point<N>>, hours: int, k: int)
    requires hours > 0 && 0 <= k < |Fill(points, hours)|
    ensures exists j :: CarriedFrom(Fill(points, hours), ValueIndex(points), j, k)
  {
    var r, index := Fill(points, hours), ValueIndex(points);
    assert points[0].timestamp in Timestamps(points);
    FillFromValues(index, points[0].timestamp, points[|points| - 1].timestamp, hours * SecondsPerHour, None);
    FillFirst(points, hours);
    if r[k].timestamp in index {
      assert CarriedFrom(r, index, k, k);
    } else {
      assert k > 0;
      FillCarriesLatest(points, hours, k - 1);
      var j :| CarriedFrom(r, index, j, k - 1);
      assert CarriedFrom(r, index, j, k);
    }
  }

  /** Filling keeps the tuple width of the series. */
  lemma FillArity<N>(points: seq<Point<N>>, hours: int, width: nat)
    requires hours > 0
    requires Arity(points, width)
    ensures Arity(Fill(points, hours), width)
  {
    if |points| > 0 {
      var index := ValueIndex(points);
      assert points[0].timestamp in Timestamps(points);
      forall s | s in index ensures |index[s]| == width {
        var p :| p in points && p.timestamp == s && p.values == index[s];
      }
      FillFromArity(index, points[0].timestamp, points[|points| - 1].timestamp, hours * SecondsPerHour, None, width);
    }
  }

  /** The input already has one point per step, starting at its first timestamp. */
  predicate Dense<N>(points: seq<Point<N>>, step: int) {
    forall i :: 0 <= i < |points| ==> points[i].timestamp == points[0].timestamp + i * step
  }

  /** Filling a series that is already dense at the step returns it unchanged. */
  lemma FillDenseIdentity<N>(points: seq<Point<N>>, hours: int)
    requires hours > 0
    requires Dense(points, hours * SecondsPerHour)
    ensures Fill(points, hours) == points
  {
    if |points| > 0 {
      var r := Fill(points, hours);
      DenseLength(points, hours);
      forall k | 0 <= k < |points| ensures r[k] == points[k] {
        DenseDistinct(points, hours * SecondsPerHour, k);
        FillPassthrough(points, hours, k);
      }
    }
  }

  lemma DenseLength<N>(points: seq<Point<N>>, hours: int)
    requires hours > 0 && |points| > 0
    requires Dense(points, hours * SecondsPerHour)
    ensures |Fill(points, hours)| == |points|
    ensures forall k :: 0 <= k < |points| ==> Fill(points, hours)[k].timestamp == points[k].timestamp
  {
    var r, n, step := Fill(points, hours), |points|, hours * SecondsPerHour;
    var min, max := points[0].timestamp, points[n - 1].timestamp;
    assert max - min == (n - 1) * step;
    MulMono(0, n - 1, step);
    FillStart(points, hours);
    FillFromShape(ValueIndex(points), min, max, step, None);
    GridCount(n, |r|, min, max, step);
  }

  /** The walk over a dense input stops after exactly as many instants as the input has points. */
  lemma GridCount(n: int, m: int, min: int, max: int, step: int)
    requires step > 0 && n > 0 && m > 0
    requires max - min == (n - 1) * step
    requires min + (m - 1) * step <= max < min + m * step
    ensures m == n
  {
    if m < n {
      MulMono(m, n - 1, step);
    } else if m > n {
      MulStrict(n - 1, m - 1, step);
    }
  }

  lemma DenseDistinct<N>(points: seq<Point<N>>, step: int, k: int)
    requires step > 0 && Dense(points, step) && 0 <= k < |points|
    ensures LastOccurrence(points, k)
  {
    forall j | k < j < |points| ensures points[j].timestamp != points[k].timestamp {
      MulStrict(k, j, step);
    }
  }

  /**
   Two observations three hours apart, filled hourly: the two synthesized
   hours repeat the first observation.
   */
  lemma FillThreeHourGap(t0: int)
    ensures Fill([Point(t0, [100, 200]), Point(t0 + 3 * SecondsPerHour, [150, 300])], 1) ==
            [Point(t0, [100, 200]), Point(t0 + SecondsPerHour, [100, 200]),
             Point(t0 + 2 * SecondsPerHour, [100, 200]), Point(t0 + 3 * SecondsPerHour, [150, 300])]
  {
    var points := [Point(t0, [100, 200]), Point(t0 + 3 * SecondsPerHour, [150, 300])];
    var index := ValueIndex(points);
    assert points[..1] == [points[0]];
    assert index == map[t0 := [100, 200], t0 + 3 * SecondsPerHour := [150, 300]];
    var max, h := t0 + 3 * SecondsPerHour, SecondsPerHour;
    assert FillFrom(index, t0 + 4 * h, max, h, Some([150, 300])) == [];
    assert FillFrom(index, t0 + 3 * h, max, h, Some([100, 200])) == [Point(t0 + 3 * h, [150, 300])];
    assert FillFrom(index, t0 + 2 * h, max, h, Some([100, 200])) ==
           [Point(t0 + 2 * h, [100, 200]), Point(t0 + 3 * h, [150, 300])];
    assert FillFrom(index, t0 + h, max, h, Some([100, 200])) ==
           [Point(t0 + h, [100, 200]), Point(t0 + 2 * h, [100, 200]), Point(t0 + 3 * h, [150, 300])];
  }

  // ---------------------------------------------------------------------------
  // Relabelling the metric slots
  // ---------------------------------------------------------------------------

  /** Apply `g` to the values of every point, keeping its timestamp. */
  function Relabel<N, M>(points: seq<Point<N>>, g: seq<N> -> seq<M>): seq<Point<M>> {
    seq(|points|, i requires 0 <= i < |points| => Point(points[i].timestamp, g(points[i].values)))
  }

  function RelabelIndex<N, M>(index: map<int, seq<N>>, g: seq<N> -> seq<M>): map<int, seq<M>> {
    map t | t in index :: g(index[t])
  }

  function RelabelOption<N, M>(prev: Option<seq<N>>, g: seq<N> -> seq<M>): Option<seq<M>> {
    if prev.Some? then Some(g(prev.value)) else None
  }

  lemma {:induction false} IndexRelabel<N, M>(points: seq<Point<N>>, g: seq<N> -> seq<M>)
    ensures ValueIndex(Relabel(points, g)) == RelabelIndex(ValueIndex(points), g)
  {
    var n := |points|;
    if n > 0 {
      var init := points[..n - 1];
      assert Relabel(points, g)[..n - 1] == Relabel(init, g);
      IndexRelabel(init, g);
    }
  }

  lemma {:induction false} FillFromRelabel<N, M>(index: map<int, seq<N>>, t: int, max: int, step: int, prev: Option<seq<N>>, g: seq<N> -> seq<M>)
    requires step > 0
    requires t <= max ==> t in index || prev.Some?
    ensures FillFrom(RelabelIndex(index, g), t, max, step, RelabelOption(prev, g)) ==
            Relabel(FillFrom(index, t, max, step, prev), g)
    decreases max - t
  {
    if t <= max {
      var values := if t in index then index[t] else prev.value;
      FillFromRelabel(index, t + step, max, step, Some(values), g);
      var rest := FillFrom(index, t + step, max, step, Some(values));
      assert Relabel([Point(t, values)] + rest, g) == [Point(t, g(values))] + Relabel(rest, g);
    }
  }

  /**
   Filling commutes with rearranging the metric slots: filling and then
   applying `g` to every tuple gives what applying `g` first and then filling
   gives.
   */
  lemma FillRelabel<N, M>(points: seq<Point<N>>, hours: int, g: seq<N> -> seq<M>)
    requires hours > 0
    ensures Fill(Relabel(points, g), hours) == Relabel(Fill(points, hours), g)
  {
    if |points| > 0 {
      assert points[0].timestamp in Timestamps(points);
      IndexRelabel(points, g);
      FillFromRelabel(ValueIndex(points), points[0].timestamp, points[|points| - 1].timestamp,
                      hours * SecondsPerHour, None, g);
    }
  }

  // ---------------------------------------------------------------------------
  // Multiplication by the step
  // ---------------------------------------------------------------------------

  lemma MulStep(k: int, s: int)
    ensures (k + 1) * s == k * s + s
  {
  }

  lemma {:induction false} MulStrict(a: int, b: int, s: int)
    requires a < b && s > 0
    ensures a * s < b * s
    decreases b - a
  {
    MulStep(a, s);
    if a + 1 < b {
      MulStrict(a + 1, b, s);
    }
  }

  lemma MulMono(a: int, b: int, s: int)
    requires a <= b && s > 0
    ensures a * s <= b * s
  {
    if a < b {
      MulStrict(a, b, s);
    }
  }

  /** Euclidean division by a positive step has one quotient and one remainder. */
  lemma DivModUnique(d: int, s: int, q: int, m: int)
    requires s > 0 && d == q * s + m && 0 <= m < s
    ensures d / s == q && d % s == m
  {
    var q', m' := d / s, d % s;
    assert d == q' * s + m';
    if q < q' {
      MulStep(q, s);
      if q + 1 < q' {
        MulStrict(q + 1, q', s);
      }
    } else if q' < q {
      MulStep(q', s);
      if q' + 1 < q {
        MulStrict(q' + 1, q, s);
      }
    }
  }
}
