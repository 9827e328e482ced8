/** The smallest longitude arc around a set of points, reported as one or two non-wrapping boxes. */
module MapBounds {
  import opened Orders

  datatype Coordinate = Coordinate(lat: real, lng: real)
  datatype Box = Box(west: real, south: real, east: real, north: real)

  predicate InBox(p: Coordinate, b: Box) {
    b.west <= p.lng <= b.east && b.south <= p.lat <= b.north
  }

  /** Inside the box on the globe, where longitudes -180 and 180 name one meridian. */
  predicate InBoxOnGlobe(p: Coordinate, b: Box) {
    InBox(p, b) || (p.lng == -180.0 && InBox(p.(lng := 180.0), b))
  }

  predicate Located(points: seq<Coordinate>) {
    points != [] && forall p | p in points :: -180.0 <= p.lng <= 180.0
  }

  // ----- the computation -----

  const RealLess: (real, real) -> bool := (x: real, y: real) => x < y

  function Longitudes(points: seq<Coordinate>): (r: seq<real>)
    ensures |r| == |points|
  {
    seq(|points|, i requires 0 <= i < |points| => points[i].lng)
  }

  function SortedLongitudes(points: seq<Coordinate>): (r: seq<real>)
    ensures |r| == |points|
  {
    Sort(RealLess, Longitudes(points))
  }

  /** The following index, wrapping round. */
  function Following(n: nat, i: nat): (k: nat)
    requires i < n
    ensures k == if i == n - 1 then 0 else i + 1
  {
    assert i < n - 1 ==> (i + 1) % n == i + 1;
    (i + 1) % n
  }

  /** The point after `l[i]` going east, one turn later for the last one. */
  function NextEast(l: seq<real>, i: nat): real
    requires i < |l|
  {
    if i == |l| - 1 then l[0] + 360.0 else l[i + 1]
  }

  function Gap(l: seq<real>, i: nat): real
    requires i < |l|
  {
    NextEast(l, i) - l[i]
  }

  /** The first index among the first n whose gap is largest. */
  function FirstLargestGap(l: seq<real>, n: nat): (g: nat)
    requires 0 < n <= |l|
    ensures g < n
    ensures forall j | 0 <= j < n :: Gap(l, j) <= Gap(l, g)
    ensures forall j | 0 <= j < g :: Gap(l, j) < Gap(l, g)
  {
    if n == 1 then 0
    else
      var g := FirstLargestGap(l, n - 1);
      if Gap(l, n - 1) > Gap(l, g) then n - 1 else g
  }

  function Latitudes(points: seq<Coordinate>): (r: seq<real>)
    ensures |r| == |points|
  {
    seq(|points|, i requires 0 <= i < |points| => points[i].lat)
  }

  function Least(s: seq<real>): real
    requires s != []
  {
    if |s| == 1 then s[0]
    else
      var r, last := Least(s[..|s| - 1]), s[|s| - 1];
      if last < r then last else r
  }

  function Greatest(s: seq<real>): real
    requires s != []
  {
    if |s| == 1 then s[0]
    else
      var r, last := Greatest(s[..|s| - 1]), s[|s| - 1];
      if r < last then last else r
  }

  lemma {:induction false} LeastAndGreatest(s: seq<real>)
    requires s != []
    ensures forall x | x in s :: Least(s) <= x <= Greatest(s)
    ensures Least(s) in s && Greatest(s) in s
  {
    if |s| > 1 {
      LeastAndGreatest(s[..|s| - 1]);
      assert s == s[..|s| - 1] + [s[|s| - 1]];
    }
  }

  function South(points: seq<Coordinate>): real
    requires points != []
  {
    Least(Latitudes(points))
  }

  function North(points: seq<Coordinate>): real
    requires points != []
  {
    Greatest(Latitudes(points))
  }

  /** South and north are latitudes of points, and every latitude lies between them. */
  lemma LatitudesTight(points: seq<Coordinate>)
    requires points != []
    ensures forall p | p in points :: South(points) <= p.lat <= North(points)
    ensures (exists p | p in points :: p.lat == South(points)) && (exists p | p in points :: p.lat == North(points))
  {
    var s := Latitudes(points);
    LeastAndGreatest(s);
    forall p | p in points ensures p.lat in s {
      var i :| 0 <= i < |points| && points[i] == p;
      assert s[i] == p.lat;
    }
    var i :| 0 <= i < |s| && s[i] == Least(s);
    var j :| 0 <= j < |s| && s[j] == Greatest(s);
    assert points[i] in points && points[j] in points;
  }

  /** The boxes drawn once the widest empty gap is known. */
  function BoxesAround(l: seq<real>, g: nat, south: real, north: real): seq<Box>
    requires g < |l|
  {
    var start := l[Following(|l|, g)];
    var span := 360.0 - Gap(l, g);
    if span == 0.0 && l[0] == -180.0 && l[|l| - 1] == 180.0 then
      [Box(180.0, south, 180.0, north), Box(-180.0, south, -180.0, north)]
    else if start + span <= 180.0 then
      [Box(start, south, start + span, north)]
    else
      [Box(start, south, 180.0, north), Box(-180.0, south, start + span - 360.0, north)]
  }

  function Bounds(points: seq<Coordinate>): seq<Box>
    requires points != []
  {
    var l := SortedLongitudes(points);
    BoxesAround(l, FirstLargestGap(l, |l|), South(points), North(points))
  }

  method LatitudeRange(points: seq<Coordinate>) returns (latMin: real, latMax: real)
    requires points != []
    ensures latMin == South(points) && latMax == North(points)
  {
    ghost var lats := Latitudes(points);
    latMin, latMax := points[0].lat, points[0].lat;
    var index := 1;
    while index < |points|
      invariant 1 <= index <= |points|
      invariant latMin == Least(lats[..index]) && latMax == Greatest(lats[..index])
    {
      assert lats[..index + 1][..index] == lats[..index];
      latMin := if points[index].lat < latMin then points[index].lat else latMin;
      latMax := if latMax < points[index].lat then points[index].lat else latMax;
      index := index + 1;
    }
    assert lats[..index] == lats;
  }

  method WidestGap(l: seq<real>) returns (largestGap: real, gapIndex: nat)
    requires Ordered(l)
    ensures gapIndex == FirstLargestGap(l, |l|) && largestGap == Gap(l, gapIndex)
  {
    largestGap, gapIndex := -1.0, 0;
    var index := 0;
    while index < |l|
      invariant 0 <= index <= |l|
      invariant index == 0 ==> largestGap == -1.0 && gapIndex == 0
      invariant index > 0 ==> gapIndex == FirstLargestGap(l, index) && largestGap == Gap(l, gapIndex)
    {
      var next := l[Following(|l|, index)];
      if index == |l| - 1 {
        next := next + 360.0;
      }
      if next - l[index] > largestGap {
        largestGap, gapIndex := next - l[index], index;
      }
      index := index + 1;
    }
  }

  method MinimalMapBounds(points: seq<Coordinate>) returns (boxes: seq<Box>)
    requires Located(points)
    ensures boxes == Bounds(points)
  {
    var latMin, latMax := LatitudeRange(points);
    var l := SortedLongitudes(points);
    assert Ordered(l) by { LongitudeFacts(points); }
    var largestGap, gapIndex := WidestGap(l);
    var start := l[Following(|l|, gapIndex)];
    var span := 360.0 - largestGap;
    var end := start + span;
    if span == 0.0 && l[0] == -180.0 && l[|l| - 1] == 180.0 {
      return [Box(180.0, latMin, 180.0, latMax), Box(-180.0, latMin, -180.0, latMax)];
    }
    if end <= 180.0 {
      return [Box(start, latMin, end, latMax)];
    }
    return [Box(start, latMin, 180.0, latMax), Box(-180.0, latMin, end - 360.0, latMax)];
  }

  // ----- facts about the sorted longitudes -----

  ghost predicate Ordered(l: seq<real>) {
    && l != []
    && (forall i | 0 <= i < |l| :: -180.0 <= l[i] <= 180.0)
    && (forall i, j | 0 <= i <= j < |l| :: l[i] <= l[j])
  }

  lemma LongitudeFacts(points: seq<Coordinate>)
    requires Located(points)
    ensures Ordered(SortedLongitudes(points))
    ensures forall p | p in points :: p.lng in SortedLongitudes(points)
    ensures forall x | x in SortedLongitudes(points) :: exists p | p in points :: p.lng == x
    ensures forall i | 0 <= i < |points| :: Gap(SortedLongitudes(points), i) >= 0.0
  {
    var raw, l := Longitudes(points), SortedLongitudes(points);
    SortSorted(RealLess, raw);
    SameElements(l, raw);
    assert forall x :: x in l <==> x in Elements(l);
    forall p | p in points ensures p.lng in l {
      var i :| 0 <= i < |points| && points[i] == p;
      assert raw[i] == p.lng;
      assert p.lng in Elements(raw);
    }
    forall x | x in l ensures exists p | p in points :: p.lng == x {
      assert x in Elements(raw);
      var i :| 0 <= i < |raw| && raw[i] == x;
      assert points[i] in points;
    }
    forall i | 0 <= i < |l| ensures -180.0 <= l[i] <= 180.0 {
      assert l[i] in l;
    }
    forall i, j | 0 <= i <= j < |l| ensures l[i] <= l[j] {
      assert i < j ==> !RealLess(l[j], l[i]);
    }
  }

  // ----- coverage -----

  /** The one way a point escapes numerically: it lies at -180, the widest gap opens right there,
      and some other point is off that meridian. */
  predicate SeamExcluded(points: seq<Coordinate>)
    requires points != []
  {
    var l := SortedLongitudes(points);
    var g := FirstLargestGap(l, |l|);
    l[g] == -180.0 && -180.0 < l[Following(|l|, g)] < 180.0
  }

  /** Where a sorted longitude lies relative to the arc that starts after gap `g`. */
  lemma ArcPosition(l: seq<real>, g: nat, i: nat)
    requires Ordered(l) && g < |l| && i < |l|
    ensures var start, end := l[Following(|l|, g)], l[Following(|l|, g)] + 360.0 - Gap(l, g);
            start <= l[i] <= end || l[i] <= end - 360.0
    ensures l[Following(|l|, g)] + 360.0 - Gap(l, g) == if g == |l| - 1 then l[g] else l[g] + 360.0
  {
  }

  /** Every point is inside a box on the globe; and inside one numerically unless it sits on the excluded seam. */
  lemma BoundsCover(points: seq<Coordinate>, p: Coordinate)
    requires Located(points) && p in points
    ensures exists b | b in Bounds(points) :: InBoxOnGlobe(p, b)
    ensures (exists b | b in Bounds(points) :: InBox(p, b)) <==> !(SeamExcluded(points) && p.lng == -180.0)
  {
    LongitudeFacts(points);
    var l := SortedLongitudes(points);
    var g := FirstLargestGap(l, |l|);
    var i :| 0 <= i < |l| && l[i] == p.lng;
    LatitudesTight(points);
    BoxesCover(l, g, South(points), North(points), p, i);
  }

  lemma BoxesCover(l: seq<real>, g: nat, south: real, north: real, p: Coordinate, i: nat)
    requires Ordered(l) && g < |l| && i < |l| && l[i] == p.lng && south <= p.lat <= north
    ensures var boxes := BoxesAround(l, g, south, north);
            var excluded := l[g] == -180.0 && -180.0 < l[Following(|l|, g)] < 180.0 && p.lng == -180.0;
            && (exists b | b in boxes :: InBoxOnGlobe(p, b))
            && ((exists b | b in boxes :: InBox(p, b)) <==> !excluded)
  {
    var boxes := BoxesAround(l, g, south, north);
    ArcPosition(l, g, i);
    assert boxes[0] in boxes;
    if |boxes| == 1 {
      assert boxes == [boxes[0]];
    } else {
      assert boxes == [boxes[0], boxes[1]] && boxes[1] in boxes;
      if Gap(l, g) == 360.0 { FullTurn(l, g, i); }
    }
  }

  /** A gap of a whole turn leaves only the seam (or only one longitude). */
  lemma FullTurn(l: seq<real>, g: nat, i: nat)
    requires Ordered(l) && g < |l| && i < |l| && Gap(l, g) == 360.0
    ensures l[i] == l[0] || (l[0] == -180.0 && l[i] == 180.0)
  {
  }

  // ----- width and minimality -----

  function Width(boxes: seq<Box>): real {
    if boxes == [] then 0.0 else boxes[0].east - boxes[0].west + Width(boxes[1..])
  }

  lemma BoundsWidth(points: seq<Coordinate>)
    requires Located(points)
    ensures 1 <= |Bounds(points)| <= 2
    ensures forall b | b in Bounds(points) :: -180.0 <= b.west <= b.east <= 180.0
    ensures forall b | b in Bounds(points) :: b.south == South(points) && b.north == North(points)
    ensures Width(Bounds(points)) ==
            360.0 - Gap(SortedLongitudes(points), FirstLargestGap(SortedLongitudes(points), |points|))
  {
    LongitudeFacts(points);
    var l := SortedLongitudes(points);
    BoxesWidth(l, FirstLargestGap(l, |l|), South(points), North(points));
  }

  lemma BoxesWidth(l: seq<real>, g: nat, south: real, north: real)
    requires Ordered(l) && g < |l| && Gap(l, g) >= 0.0
    ensures var boxes := BoxesAround(l, g, south, north);
            && 1 <= |boxes| <= 2
            && (forall b | b in boxes :: -180.0 <= b.west <= b.east <= 180.0 && b.south == south && b.north == north)
            && Width(boxes) == 360.0 - Gap(l, g)
  {
    ArcPosition(l, g, g);
    var boxes := BoxesAround(l, g, south, north);
    if |boxes| == 2 {
      assert boxes[1..] == [boxes[1]] && boxes[1..][1..] == [];
      assert Width(boxes[1..]) == boxes[1].east - boxes[1].west;
    } else {
      assert boxes[1..] == [];
    }
  }

  function Turned(x: real, turns: int): real {
    x + 360.0 * turns as real
  }

  /** The arc of width w going east from s passes through longitude x. */
  ghost predicate OnArc(s: real, w: real, x: real) {
    exists k :: s <= Turned(x, k) <= s + w
  }

  ghost function TurnsOnto(s: real, w: real, x: real): int
    requires OnArc(s, w, x)
  {
    var k :| s <= Turned(x, k) <= s + w; k
  }

  /** No shorter arc passes through all the points. */
  lemma BoundsMinimal(points: seq<Coordinate>, s: real, w: real)
    requires Located(points) && 0.0 <= w
    requires forall p | p in points :: OnArc(s, w, p.lng)
    ensures w >= Width(Bounds(points))
  {
    BoundsWidth(points);
    LongitudeFacts(points);
    var l := SortedLongitudes(points);
    forall i | 0 <= i < |l| ensures OnArc(s, w, l[i]) {
      assert l[i] in l;
      var p :| p in points && p.lng == l[i];
    }
    if w < 360.0 {
      var i := WideGap(l, s, w);
    } else {
      assert Gap(l, FirstLargestGap(l, |l|)) >= 0.0;
    }
  }

  /** Points on an arc of width w leave a gap of at least 360 - w. */
  lemma WideGap(l: seq<real>, s: real, w: real) returns (g: nat)
    requires Ordered(l) && 0.0 <= w < 360.0
    requires forall i | 0 <= i < |l| :: OnArc(s, w, l[i])
    ensures g < |l| && Gap(l, g) >= 360.0 - w
  {
    var turns := seq(|l|, i requires 0 <= i < |l| => TurnsOnto(s, w, l[i]));
    var reps := seq(|l|, i requires 0 <= i < |l| => Turned(l[i], turns[i]));
    g := WideGapBetween(l, reps, turns, s, w);
  }

  lemma WideGapBetween(l: seq<real>, reps: seq<real>, turns: seq<int>, s: real, w: real) returns (g: nat)
    requires Ordered(l) && 0.0 <= w < 360.0 && |reps| == |turns| == |l|
    requires forall k | 0 <= k < |l| :: reps[k] == Turned(l[k], turns[k]) && s <= reps[k] <= s + w
    ensures g < |l| && Gap(l, g) >= 360.0 - w
  {
    var a := LargestRep(reps);
    var n := |l|;
    if i :| a < i < n && reps[i] < reps[a] {
      g := Drop(reps, a, i);
      DropIsWide(l, reps, turns, s, w, g, g + 1);
    } else if reps[0] < reps[a] {
      g := n - 1;
      DropIsWide(l, reps, turns, s, w, g, 0);
    } else if i :| 0 < i < n && reps[i] < reps[a] {
      g := Drop(reps, 0, i);
      DropIsWide(l, reps, turns, s, w, g, g + 1);
    } else if l[0] == l[n - 1] {
      g := n - 1;
    } else {
      g := OneMeridian(l, reps, turns);
    }
  }

  /** Different longitudes on one meridian: the seam, approached from both sides. */
  lemma OneMeridian(l: seq<real>, reps: seq<real>, turns: seq<int>) returns (g: nat)
    requires Ordered(l) && |reps| == |turns| == |l| && l[0] != l[|l| - 1]
    requires forall k | 0 <= k < |l| :: reps[k] == Turned(l[k], turns[k]) && reps[k] == reps[0]
    ensures g < |l| && Gap(l, g) >= 360.0
  {
    var n := |l|;
    var minus := seq(n, i requires 0 <= i < n => -l[i]);
    g := Drop(minus, 0, n - 1);
    var d := turns[g] - turns[g + 1];
    assert l[g + 1] - l[g] == 360.0 * d as real;
    assert d >= 1;
  }

  lemma LargestRep(reps: seq<real>) returns (a: nat)
    requires reps != []
    ensures a < |reps| && forall i | 0 <= i < |reps| :: reps[i] <= reps[a]
  {
    a := 0;
    var n := 1;
    while n < |reps|
      invariant a < n <= |reps|
      invariant forall i | 0 <= i < n :: reps[i] <= reps[a]
    {
      if reps[n] > reps[a] { a := n; }
      n := n + 1;
    }
  }

  /** From a largest value down to a smaller one there is a step that leaves the largest value. */
  lemma {:induction false} Drop(reps: seq<real>, first: nat, last: nat) returns (i: nat)
    requires first < last < |reps| && reps[last] < reps[first]
    requires forall k | 0 <= k < |reps| :: reps[k] <= reps[first]
    ensures first <= i < last && reps[i] == reps[first] && reps[i + 1] < reps[i]
    decreases last - first
  {
    if reps[first + 1] < reps[first] {
      i := first;
    } else {
      i := Drop(reps, first + 1, last);
    }
  }

  lemma DropIsWide(l: seq<real>, reps: seq<real>, turns: seq<int>, s: real, w: real, i: nat, next: nat)
    requires Ordered(l) && |reps| == |turns| == |l| && i < |l|
    requires next == (if i == |l| - 1 then 0 else i + 1)
    requires forall k | 0 <= k < |l| :: reps[k] == Turned(l[k], turns[k]) && s <= reps[k] <= s + w
    requires reps[next] < reps[i]
    ensures Gap(l, i) >= 360.0 - w
  {
    var d := turns[next] - turns[i] - (if i == |l| - 1 then 1 else 0);
    assert reps[next] - reps[i] == Gap(l, i) + 360.0 * d as real;
    assert Gap(l, i) >= 0.0;
    assert d <= -1;
  }
}
