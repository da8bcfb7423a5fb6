/** Last-in-window downsampling of a growth series (`query_charts.py`), with times as real numbers. */
module Downsample {

  datatype Point = Point(ts: real, logical: int, onDisk: int, files: int)

  ghost predicate Sorted(points: seq<Point>)
  {
    forall i, j :: 0 <= i < j < |points| ==> points[i].ts <= points[j].ts
  }

  function Span(points: seq<Point>): real
    requires points != []
  {
    points[|points| - 1].ts - points[0].ts
  }

  /** Python's `int`: towards zero. */
  function Truncate(x: real): int
  {
    if x >= 0.0 then x.Floor else -(-x).Floor
  }

  /** Position in the span, scaled to the number of buckets. */
  function Scaled(t: real, first: real, span: real, buckets: int): real
    requires span > 0.0
  {
    (t - first) / span * buckets as real
  }

  function Slot(t: real, first: real, span: real, buckets: int): int
    requires span > 0.0
  {
    var idx := Truncate(Scaled(t, first, span, buckets));
    if idx >= buckets then buckets - 1 else idx
  }

  lemma {:induction false} ScaledOrder(t: real, u: real, first: real, span: real, buckets: int)
    requires span > 0.0 && buckets >= 1 && t <= u
    ensures Scaled(u, first, span, buckets) - Scaled(t, first, span, buckets) == (u - t) / span * buckets as real
    ensures Scaled(t, first, span, buckets) <= Scaled(u, first, span, buckets)
  {
  }

  lemma {:induction false} SlotOrder(t: real, u: real, first: real, span: real, buckets: int)
    requires span > 0.0 && buckets >= 1 && first <= t <= u <= first + span
    ensures 0 <= Slot(t, first, span, buckets) <= Slot(u, first, span, buckets) < buckets
  {
    ScaledOrder(first, t, first, span, buckets);
    ScaledOrder(t, u, first, span, buckets);
    assert Scaled(first, first, span, buckets) == 0.0;
  }

  /** Positions that truncate to one slot, the end counted with the last slot, are at most one apart. */
  lemma {:induction false} OneSlot(x: real, y: real, buckets: int)
    requires 0.0 <= x <= y <= buckets as real && buckets >= 1
    requires (if Truncate(x) >= buckets then buckets - 1 else Truncate(x))
          == if Truncate(y) >= buckets then buckets - 1 else Truncate(y)
    ensures y - x <= 1.0
  {
  }

  lemma {:induction false} ScaledRange(t: real, first: real, span: real, buckets: int)
    requires span > 0.0 && buckets >= 1 && first <= t <= first + span
    ensures 0.0 <= Scaled(t, first, span, buckets) <= buckets as real
  {
    ScaledOrder(first, t, first, span, buckets);
    ScaledOrder(t, first + span, first, span, buckets);
    assert Scaled(first, first, span, buckets) == 0.0;
    assert Scaled(first + span, first, span, buckets) == buckets as real;
  }

  /** Two times in one slot are at most a slot's width apart. */
  lemma {:induction false} SlotWidth(t: real, u: real, first: real, span: real, buckets: int)
    requires span > 0.0 && buckets >= 1 && first <= t <= u <= first + span
    requires Slot(t, first, span, buckets) == Slot(u, first, span, buckets)
    ensures u <= t + span / buckets as real
  {
    ScaledRange(t, first, span, buckets);
    ScaledRange(u, first, span, buckets);
    ScaledOrder(t, u, first, span, buckets);
    OneSlot(Scaled(t, first, span, buckets), Scaled(u, first, span, buckets), buckets);
    Rescale(u - t, span, buckets as real);
  }

  lemma {:induction false} Rescale(d: real, span: real, n: real)
    requires span > 0.0 && n > 0.0 && d / span * n <= 1.0
    ensures d <= span / n
  {
  }

  // ---------------------------------------------------------------- the sampling loop

  /** The output, with where each output point was found: for every slot that has a point, the last point in it, in
      slot order. */
  ghost predicate LastInSlots(points: seq<Point>, buckets: int, out: seq<Point>, route: seq<nat>)
    requires points != [] && Span(points) > 0.0
  {
    && |out| == |route|
    && (forall j :: 0 <= j < |route| ==> route[j] < |points| && out[j] == points[route[j]])
    && (forall j, k :: 0 <= j < k < |route| ==> SlotAt(points, buckets, route[j]) < SlotAt(points, buckets, route[k]))
    && (forall i :: 0 <= i < |points| ==> Covered(points, buckets, route, i))
  }

  ghost predicate Covered(points: seq<Point>, buckets: int, route: seq<nat>, i: nat)
    requires i < |points| && Span(points) > 0.0
  {
    exists j :: 0 <= j < |route| && i <= route[j] < |points|
                && SlotAt(points, buckets, route[j]) == SlotAt(points, buckets, i)
  }

  function SlotAt(points: seq<Point>, buckets: int, i: nat): int
    requires i < |points| && Span(points) > 0.0
  {
    Slot(points[i].ts, points[0].ts, Span(points), buckets)
  }

  lemma {:induction false} Member<T>(keys: set<T>) returns (x: T)
    requires keys != {}
    ensures x in keys
  {
    x :| x in keys;
  }

  lemma {:induction false} LeastKey(keys: set<int>) returns (m: int)
    requires keys != {}
    ensures m in keys && forall k :: k in keys ==> m <= k
    decreases |keys|
  {
    var x := Member(keys);
    var rest := keys - {x};
    m := x;
    if rest != {} {
      var least := LeastKey(rest);
      if least < x { m := least; }
    }
    assert forall k :: k in keys ==> k in rest || k == x;
  }

  /** `sorted` of a dictionary's keys. */
  method SortedKeys(keys: set<int>) returns (order: seq<int>)
    ensures forall k :: k in order <==> k in keys
    ensures forall i, j :: 0 <= i < j < |order| ==> order[i] < order[j]
  {
    order := [];
    var rest := keys;
    while rest != {}
      invariant forall k :: k in keys <==> k in rest || k in order
      invariant forall i, k :: 0 <= i < |order| && k in rest ==> order[i] < k
      invariant forall i, j :: 0 <= i < j < |order| ==> order[i] < order[j]
      decreases |rest|
    {
      ghost var least := LeastKey(rest);
      var m :| m in rest && forall k :: k in rest ==> m <= k;
      order := order + [m];
      rest := rest - {m};
    }
  }

  method Sample(points: seq<Point>, buckets: int) returns (out: seq<Point>, ghost route: seq<nat>)
    requires Sorted(points)
    ensures buckets <= 0 || |points| <= buckets ==> out == points
    ensures 0 < buckets < |points| && Span(points) <= 0.0 ==> out == [points[|points| - 1]]
    ensures 0 < buckets < |points| && Span(points) > 0.0 ==> LastInSlots(points, buckets, out, route)
  {
    route := [];
    if buckets <= 0 || |points| <= buckets { return points, route; }
    var first := points[0].ts;
    var span := points[|points| - 1].ts - first;
    if span <= 0.0 { return [points[|points| - 1]], route; }
    out, route := LastPerSlot(points, buckets);
  }

  method LastPerSlot(points: seq<Point>, buckets: int) returns (out: seq<Point>, ghost route: seq<nat>)
    requires points != [] && Span(points) > 0.0
    ensures LastInSlots(points, buckets, out, route)
  {
    var first, span := points[0].ts, Span(points);
    var chosen: map<int, Point> := map[];
    ghost var at: map<int, nat> := map[];
    for i := 0 to |points|
      invariant chosen.Keys == at.Keys
      invariant forall k :: k in at ==> at[k] < i && chosen[k] == points[at[k]] && SlotAt(points, buckets, at[k]) == k
      invariant forall j :: 0 <= j < i ==> SlotAt(points, buckets, j) in at && j <= at[SlotAt(points, buckets, j)]
    {
      var idx := Slot(points[i].ts, first, span, buckets);
      chosen := chosen[idx := points[i]];
      at := at[idx := i];
    }
    var order := SortedKeys(chosen.Keys);
    out, route := [], [];
    for n := 0 to |order|
      invariant |out| == |route| == n
      invariant forall j :: 0 <= j < n ==> order[j] in at && route[j] == at[order[j]] && out[j] == chosen[order[j]]
    {
      assert order[n] in order;
      out := out + [chosen[order[n]]];
      route := route + [at[order[n]]];
    }
    forall i | 0 <= i < |points| ensures Covered(points, buckets, route, i) {
      var k := SlotAt(points, buckets, i);
      assert k in order;
      var j :| 0 <= j < |order| && order[j] == k;
      assert i <= route[j];
    }
  }

  // ---------------------------------------------------------------- what the sample is worth

  lemma {:induction false} SlotsAscend(points: seq<Point>, buckets: int, i: nat, j: nat)
    requires Sorted(points) && buckets >= 1 && i <= j < |points| && Span(points) > 0.0
    ensures 0 <= SlotAt(points, buckets, i) <= SlotAt(points, buckets, j) < buckets
  {
    assert points[0].ts <= points[i].ts <= points[j].ts <= points[|points| - 1].ts;
    SlotOrder(points[i].ts, points[j].ts, points[0].ts, Span(points), buckets);
  }

  lemma {:induction false} CountSlots(points: seq<Point>, buckets: int, route: seq<nat>, n: nat)
    requires Sorted(points) && buckets >= 1 && points != [] && Span(points) > 0.0 && n < |route|
    requires forall j :: 0 <= j < |route| ==> route[j] < |points|
    requires forall j, k :: 0 <= j < k < |route| ==> SlotAt(points, buckets, route[j]) < SlotAt(points, buckets, route[k])
    ensures n <= SlotAt(points, buckets, route[n])
  {
    SlotsAscend(points, buckets, route[n], route[n]);
    if n > 0 { CountSlots(points, buckets, route, n - 1); }
  }

  ghost predicate Represented(out: seq<Point>, t: real, width: real)
  {
    exists j :: 0 <= j < |out| && t <= out[j].ts <= t + width
  }

  lemma {:induction false} RouteEndsAtLast(points: seq<Point>, buckets: int, out: seq<Point>, route: seq<nat>)
    requires Sorted(points) && 0 < buckets && points != [] && Span(points) > 0.0
    requires LastInSlots(points, buckets, out, route)
    ensures route != [] && |out| == |route| && route[|route| - 1] == |points| - 1
    ensures out[|out| - 1] == points[|points| - 1]
  {
    var n := |points| - 1;
    assert Covered(points, buckets, route, n);
    var e :| 0 <= e < |route| && n <= route[e] < |points|;
    SlotsAscend(points, buckets, route[|route| - 1], n);
    assert e == |route| - 1;
  }

  lemma {:induction false} RouteAscends(points: seq<Point>, buckets: int, out: seq<Point>, route: seq<nat>, j: nat,
                                        k: nat)
    requires Sorted(points) && 0 < buckets && points != [] && Span(points) > 0.0
    requires LastInSlots(points, buckets, out, route) && j < k < |route|
    ensures route[j] < route[k]
  {
    if route[k] <= route[j] { SlotsAscend(points, buckets, route[k], route[j]); }
  }

  lemma {:induction false} PointRepresented(points: seq<Point>, buckets: int, out: seq<Point>, route: seq<nat>, i: nat)
    requires Sorted(points) && 0 < buckets && i < |points| && Span(points) > 0.0
    requires LastInSlots(points, buckets, out, route)
    ensures Represented(out, points[i].ts, Span(points) / buckets as real)
  {
    assert Covered(points, buckets, route, i);
    var j :| 0 <= j < |route| && i <= route[j] < |points| && SlotAt(points, buckets, route[j]) == SlotAt(points, buckets, i);
    assert points[0].ts <= points[i].ts <= points[route[j]].ts <= points[|points| - 1].ts;
    SlotWidth(points[i].ts, points[route[j]].ts, points[0].ts, Span(points), buckets);
    assert out[j] == points[route[j]];
  }

  ghost predicate Increasing(route: seq<nat>)
  {
    forall j, k :: 0 <= j < k < |route| ==> route[j] < route[k]
  }

  lemma {:induction false} RouteIncreases(points: seq<Point>, buckets: int, out: seq<Point>, route: seq<nat>)
    requires Sorted(points) && 0 < buckets && points != [] && Span(points) > 0.0
    requires LastInSlots(points, buckets, out, route)
    ensures Increasing(route)
  {
    forall j, k | 0 <= j < k < |route| ensures route[j] < route[k] { RouteAscends(points, buckets, out, route, j, k); }
  }

  ghost predicate AllRepresented(points: seq<Point>, out: seq<Point>, width: real)
  {
    forall i :: 0 <= i < |points| ==> Represented(out, points[i].ts, width)
  }

  lemma {:induction false} PointsRepresented(points: seq<Point>, buckets: int, out: seq<Point>, route: seq<nat>)
    requires Sorted(points) && 0 < buckets && points != [] && Span(points) > 0.0
    requires LastInSlots(points, buckets, out, route)
    ensures AllRepresented(points, out, Span(points) / buckets as real)
  {
    forall i | 0 <= i < |points| ensures Represented(out, points[i].ts, Span(points) / buckets as real) {
      PointRepresented(points, buckets, out, route, i);
    }
  }

  lemma {:induction false} FewEnough(points: seq<Point>, buckets: int, out: seq<Point>, route: seq<nat>)
    requires Sorted(points) && 0 < buckets && points != [] && Span(points) > 0.0
    requires LastInSlots(points, buckets, out, route) && route != []
    ensures |route| <= buckets
  {
    CountSlots(points, buckets, route, |route| - 1);
    SlotsAscend(points, buckets, route[|route| - 1], route[|route| - 1]);
  }

  /** The sample has at most `buckets` points, taken from the input in order without repetition, ends with the last
      input point, and for every input point keeps one no earlier and at most a slot's width later. */
  lemma {:induction false} SampleIsFaithful(points: seq<Point>, buckets: int, out: seq<Point>, route: seq<nat>)
    requires Sorted(points) && 0 < buckets < |points| && Span(points) > 0.0
    requires LastInSlots(points, buckets, out, route)
    ensures 1 <= |out| <= buckets && out[|out| - 1] == points[|points| - 1]
    ensures Increasing(route) && AllRepresented(points, out, Span(points) / buckets as real)
  {
    RouteEndsAtLast(points, buckets, out, route);
    FewEnough(points, buckets, out, route);
    RouteIncreases(points, buckets, out, route);
    PointsRepresented(points, buckets, out, route);
  }
}
