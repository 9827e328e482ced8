/** Grouping map records into at most 500 points and clusters by a screen grid that grows until it fits. */
module MapClusters {
  import opened Results
  import opened Orders
  import opened MapBounds

  const MAX_FEATURES: nat := 500
  const MERCATOR_MAX_LAT: real := 85.0511287798066

  datatype MapRecord = MapRecord(id: string, position: Option<Coordinate>, text: string)

  datatype Cell = Cell(x: int, y: int)

  /** The pixel projection at one zoom level. `northing` is the Mercator ordinate as a fraction of the world,
      `lastPixel` the largest abscissa still inside it. */
  datatype Projection = Projection(worldSize: real, lastPixel: real, northing: real -> real) {
    ghost predicate Valid() {
      && 0.0 < worldSize && 0.0 <= lastPixel < worldSize
      && forall lat :: 0.0 <= northing(lat) <= 1.0
    }
  }

  datatype Feature =
    | Point(record: MapRecord)
    | Cluster(count: nat, bounds: seq<Box>, expands: bool)

  predicate Renderable(r: MapRecord) {
    && r.position.Some?
    && -MERCATOR_MAX_LAT <= r.position.value.lat <= MERCATOR_MAX_LAT
    && -180.0 <= r.position.value.lng <= 180.0
  }

  function RenderableOnly(records: seq<MapRecord>): (r: seq<MapRecord>)
    ensures forall x | x in r :: Renderable(x)
    ensures forall x | x in records && Renderable(x) :: x in r
  {
    if records == [] then []
    else
      var last, rest := records[|records| - 1], RenderableOnly(records[..|records| - 1]);
      assert records == records[..|records| - 1] + [last];
      if Renderable(last) then rest + [last] else rest
  }

  method FilterRenderable(records: seq<MapRecord>) returns (result: seq<MapRecord>)
    ensures result == RenderableOnly(records)
  {
    result := [];
    var i := 0;
    while i < |records|
      invariant 0 <= i <= |records|
      invariant result == RenderableOnly(records[..i])
    {
      assert records[..i + 1][..i] == records[..i];
      if Renderable(records[i]) {
        result := result + [records[i]];
      }
      i := i + 1;
    }
    assert records[..i] == records;
  }

  // ----- the grid -----

  function Abscissa(p: Coordinate, proj: Projection): real {
    Clamped((p.lng + 180.0) / 360.0 * proj.worldSize, proj)
  }

  /** The antimeridian's own column belongs to the last pixel. */
  function Clamped(x: real, proj: Projection): real {
    if x >= proj.worldSize then proj.lastPixel else x
  }

  function Ordinate(p: Coordinate, proj: Projection): real {
    proj.northing(p.lat) * proj.worldSize
  }

  function GridIndex(pixel: real, cellSize: real): int
    requires cellSize > 0.0
  {
    (pixel / cellSize).Floor
  }

  function CellOf(r: MapRecord, proj: Projection, cellSize: real): Cell
    requires r.position.Some? && cellSize > 0.0
  {
    Cell(GridIndex(Abscissa(r.position.value, proj), cellSize), GridIndex(Ordinate(r.position.value, proj), cellSize))
  }

  /** The located records of one cell, in input order. */
  function InCell(records: seq<MapRecord>, proj: Projection, cellSize: real, cell: Cell): (r: seq<MapRecord>)
    requires cellSize > 0.0
  {
    if records == [] then []
    else
      var last, rest := records[|records| - 1], InCell(records[..|records| - 1], proj, cellSize, cell);
      if last.position.Some? && CellOf(last, proj, cellSize) == cell then rest + [last] else rest
  }

  /** Every occupied cell, and nothing else, maps to exactly its records. */
  ghost predicate Grouped(cells: map<Cell, seq<MapRecord>>, records: seq<MapRecord>, proj: Projection, cellSize: real)
    requires cellSize > 0.0
  {
    && (forall c | c in cells :: cells[c] == InCell(records, proj, cellSize, c) && cells[c] != [])
    && (forall r | r in records && r.position.Some? :: CellOf(r, proj, cellSize) in cells)
  }

  method GroupMapRecords(records: seq<MapRecord>, proj: Projection, cellSize: real)
    returns (cells: map<Cell, seq<MapRecord>>)
    requires cellSize > 0.0
    ensures Grouped(cells, records, proj, cellSize)
  {
    cells := map[];
    var i := 0;
    while i < |records|
      invariant 0 <= i <= |records|
      invariant forall c | c in cells :: cells[c] == InCell(records[..i], proj, cellSize, c) && cells[c] != []
      invariant forall c | c !in cells :: InCell(records[..i], proj, cellSize, c) == []
      invariant forall r | r in records[..i] && r.position.Some? :: CellOf(r, proj, cellSize) in cells
    {
      var record := records[i];
      assert records[..i + 1] == records[..i] + [record];
      assert records[..i + 1][..i] == records[..i];
      if record.position.Some? {
        var cell := CellOf(record, proj, cellSize);
        var before := if cell in cells then cells[cell] else [];
        cells := cells[cell := before + [record]];
      }
      i := i + 1;
    }
    assert records[..i] == records;
  }

  lemma {:induction false} InCellMembers(records: seq<MapRecord>, proj: Projection, cellSize: real, c: Cell)
    requires cellSize > 0.0
    ensures forall r | r in InCell(records, proj, cellSize, c) ::
              r in records && r.position.Some? && CellOf(r, proj, cellSize) == c
  {
    if records != [] {
      InCellMembers(records[..|records| - 1], proj, cellSize, c);
    }
  }

  /** Once a cell is wider than the world, all renderable records share one cell. */
  lemma OneCellSuffices(cells: map<Cell, seq<MapRecord>>, records: seq<MapRecord>, proj: Projection, cellSize: real)
    requires proj.Valid() && cellSize > proj.worldSize && Grouped(cells, records, proj, cellSize)
    requires forall r | r in records :: Renderable(r)
    ensures |cells| <= 1
  {
    forall c | c in cells ensures c == Cell(0, 0) {
      InCellMembers(records, proj, cellSize, c);
      var r := cells[c][0];
      assert r in InCell(records, proj, cellSize, c);
      AtOrigin(r, proj, cellSize);
    }
    assert cells.Keys <= {Cell(0, 0)};
    CardinalityMonotone(cells.Keys, {Cell(0, 0)});
    assert |cells| == |cells.Keys|;
  }

  lemma AtOrigin(r: MapRecord, proj: Projection, cellSize: real)
    requires proj.Valid() && cellSize > proj.worldSize && Renderable(r)
    ensures CellOf(r, proj, cellSize) == Cell(0, 0)
  {
    var p := r.position.value;
    AbscissaInWorld(p, proj);
    OrdinateInWorld(p, proj);
    OriginIndex(Abscissa(p, proj), cellSize);
    OriginIndex(Ordinate(p, proj), cellSize);
  }

  lemma AbscissaInWorld(p: Coordinate, proj: Projection)
    requires proj.Valid() && -180.0 <= p.lng <= 180.0
    ensures 0.0 <= Abscissa(p, proj) < proj.worldSize
  {
    var x := (p.lng + 180.0) / 360.0 * proj.worldSize;
    Scaled((p.lng + 180.0) / 360.0, proj.worldSize, x);
    assert Abscissa(p, proj) == Clamped(x, proj);
  }

  lemma OrdinateInWorld(p: Coordinate, proj: Projection)
    requires proj.Valid()
    ensures 0.0 <= Ordinate(p, proj) <= proj.worldSize
  {
    Scaled(proj.northing(p.lat), proj.worldSize, Ordinate(p, proj));
  }

  lemma Scaled(fraction: real, size: real, product: real)
    requires 0.0 <= fraction <= 1.0 && 0.0 < size && product == fraction * size
    ensures 0.0 <= product <= size
  {
  }

  lemma OriginIndex(pixel: real, cellSize: real)
    requires 0.0 <= pixel < cellSize
    ensures GridIndex(pixel, cellSize) == 0
  {
    assert 0.0 <= pixel / cellSize < 1.0;
  }

  /** The grid loop: each round widens the cells by half. It ends, with at most 500 cells, at the first
      size that fits. */
  method ChooseGrid(records: seq<MapRecord>, proj: Projection, initial: real)
    returns (cells: map<Cell, seq<MapRecord>>, cellSize: real)
    requires proj.Valid() && initial >= 32.0
    requires forall r | r in records :: Renderable(r)
    ensures cellSize >= initial && Grouped(cells, records, proj, cellSize) && |cells| <= MAX_FEATURES
    ensures cellSize > initial ==>
              exists finer :: Grouped(finer, records, proj, cellSize / 1.5) && |finer| > MAX_FEATURES
  {
    cellSize := initial;
    cells := GroupMapRecords(records, proj, cellSize);
    while |cells| > MAX_FEATURES
      invariant cellSize >= initial && Grouped(cells, records, proj, cellSize)
      invariant cellSize > initial ==>
                  exists finer :: Grouped(finer, records, proj, cellSize / 1.5) && |finer| > MAX_FEATURES
      decreases proj.worldSize - cellSize
    {
      ghost var finer := cells;
      if cellSize > proj.worldSize {
        OneCellSuffices(cells, records, proj, cellSize);
      }
      assert cellSize * 1.5 / 1.5 == cellSize;
      cellSize := cellSize * 1.5;
      cells := GroupMapRecords(records, proj, cellSize);
    }
  }

  // ----- features -----

  function Positions(records: seq<MapRecord>): (r: seq<Coordinate>)
    requires forall x | x in records :: x.position.Some?
    ensures |r| == |records|
  {
    seq(|records|, i requires 0 <= i < |records| => records[i].position.value)
  }

  method SameCoordinates(points: seq<Coordinate>) returns (same: bool)
    requires points != []
    ensures same <==> forall p | p in points :: p == points[0]
  {
    var i := 1;
    while i < |points|
      invariant 1 <= i <= |points|
      invariant forall k | 0 <= k < i :: points[k] == points[0]
    {
      if points[i] != points[0] {
        assert points[i] in points;
        return false;
      }
      i := i + 1;
    }
    return true;
  }

  /** A feature stands for a group: a lone record is shown as itself, more become a cluster that knows how
      many they are, where they all are, and whether zooming in can separate them. */
  ghost predicate Stands(f: Feature, group: seq<MapRecord>) {
    && group != []
    && (forall r | r in group :: Renderable(r))
    && match f
       case Point(record) => group == [record]
       case Cluster(count, bounds, expands) =>
         && count == |group| >= 2
         && bounds == Bounds(Positions(group))
         && (expands <==> exists r | r in group :: r.position != group[0].position)
         && (forall r | r in group :: exists b | b in bounds :: InBoxOnGlobe(r.position.value, b))
  }

  function Weight(f: Feature): nat {
    match f case Point(_) => 1 case Cluster(count, _, _) => count
  }

  function TotalWeight(features: seq<Feature>): nat {
    if features == [] then 0 else TotalWeight(features[..|features| - 1]) + Weight(features[|features| - 1])
  }

  function Flatten(groups: seq<seq<MapRecord>>): seq<MapRecord> {
    if groups == [] then [] else Flatten(groups[..|groups| - 1]) + groups[|groups| - 1]
  }

  /** The features are exactly a partition of `records`: nothing lost, nothing shown twice. */
  ghost predicate Partition(features: seq<Feature>, groups: seq<seq<MapRecord>>, records: seq<MapRecord>) {
    && |features| == |groups| <= MAX_FEATURES
    && (forall i | 0 <= i < |groups| :: Stands(features[i], groups[i]))
    && multiset(Flatten(groups)) == multiset(records)
    && (forall i, j, r | 0 <= i < j < |groups| && r in groups[i] :: r !in groups[j])
  }

  lemma {:induction false} WeightsAddUp(features: seq<Feature>, groups: seq<seq<MapRecord>>)
    requires |features| == |groups|
    requires forall i | 0 <= i < |groups| :: Stands(features[i], groups[i])
    ensures TotalWeight(features) == |Flatten(groups)|
  {
    if features != [] {
      var n := |features| - 1;
      WeightsAddUp(features[..n], groups[..n]);
      assert Stands(features[n], groups[n]);
    }
  }

  lemma {:induction false} InCellCount(records: seq<MapRecord>, proj: Projection, cellSize: real, c: Cell, r: MapRecord)
    requires cellSize > 0.0
    ensures multiset(InCell(records, proj, cellSize, c))[r] ==
            if r.position.Some? && CellOf(r, proj, cellSize) == c then multiset(records)[r] else 0
  {
    if records != [] {
      var front, last := records[..|records| - 1], records[|records| - 1];
      assert records == front + [last];
      InCellCount(front, proj, cellSize, c, r);
    }
  }

  /** One group per key, each the records of that cell. */
  ghost predicate GroupedBy(groups: seq<seq<MapRecord>>, keys: seq<Cell>, records: seq<MapRecord>, proj: Projection,
                            cellSize: real)
    requires cellSize > 0.0
  {
    && |groups| == |keys| && Distinct(keys)
    && forall i | 0 <= i < |keys| :: groups[i] == InCell(records, proj, cellSize, keys[i])
  }

  lemma {:induction false} FlattenCount(groups: seq<seq<MapRecord>>, keys: seq<Cell>, records: seq<MapRecord>,
                                        proj: Projection, cellSize: real, r: MapRecord)
    requires cellSize > 0.0 && GroupedBy(groups, keys, records, proj, cellSize)
    ensures multiset(Flatten(groups))[r] ==
            if r.position.Some? && CellOf(r, proj, cellSize) in keys then multiset(records)[r] else 0
  {
    if groups != [] {
      var n := |groups| - 1;
      FlattenCount(groups[..n], keys[..n], records, proj, cellSize, r);
      InCellCount(records, proj, cellSize, keys[n], r);
      assert keys == keys[..n] + [keys[n]];
    }
  }

  lemma GroupsPartition(groups: seq<seq<MapRecord>>, keys: seq<Cell>, records: seq<MapRecord>, proj: Projection,
                        cellSize: real)
    requires cellSize > 0.0 && GroupedBy(groups, keys, records, proj, cellSize)
    requires forall r | r in records :: r.position.Some? && CellOf(r, proj, cellSize) in keys
    ensures multiset(Flatten(groups)) == multiset(records)
    ensures forall i, j, r | 0 <= i < j < |groups| && r in groups[i] :: r !in groups[j]
  {
    forall r ensures multiset(Flatten(groups))[r] == multiset(records)[r] {
      FlattenCount(groups, keys, records, proj, cellSize, r);
      assert r !in records ==> multiset(records)[r] == 0;
    }
    forall i, j, r | 0 <= i < j < |groups| && r in groups[i] ensures r !in groups[j] {
      InCellMembers(records, proj, cellSize, keys[i]);
      InCellMembers(records, proj, cellSize, keys[j]);
    }
  }

  method KeyList(cells: map<Cell, seq<MapRecord>>, less: (Cell, Cell) -> bool) returns (keys: seq<Cell>)
    ensures Distinct(keys) && |keys| == |cells| && forall c :: c in keys <==> c in cells
  {
    var unsorted: seq<Cell> := [];
    var rest := cells.Keys;
    while rest != {}
      invariant rest <= cells.Keys && Distinct(unsorted)
      invariant forall c :: c in unsorted <==> c in cells.Keys - rest
      invariant |unsorted| + |rest| == |cells.Keys|
      decreases |rest|
    {
      var c :| c in rest;
      assert c !in unsorted;
      rest := rest - {c};
      unsorted := unsorted + [c];
    }
    keys := Sort(less, unsorted);
    SameElements(keys, unsorted);
    forall c ensures c in keys <==> c in cells {
      assert c in Elements(keys) <==> c in Elements(unsorted);
    }
    DistinctMultiset(unsorted);
    forall i, j | 0 <= i < j < |keys| ensures keys[i] != keys[j] {
      if keys[i] == keys[j] {
        RepeatedMultiset(keys, i, j);
        assert false;
      }
    }
  }

  method FeatureFor(group: seq<MapRecord>) returns (f: Feature)
    requires group != [] && forall r | r in group :: Renderable(r)
    ensures Stands(f, group)
  {
    if |group| == 1 {
      return Point(group[0]);
    }
    var positions := Positions(group);
    forall p | p in positions ensures -180.0 <= p.lng <= 180.0 {
      var i :| 0 <= i < |group| && positions[i] == p;
      assert group[i] in group;
    }
    var bounds := MinimalMapBounds(positions);
    var same := SameCoordinates(positions);
    forall r | r in group ensures exists b | b in bounds :: InBoxOnGlobe(r.position.value, b) {
      var i :| 0 <= i < |group| && group[i] == r;
      assert positions[i] in positions;
      BoundsCover(positions, positions[i]);
    }
    assert same <==> !exists r | r in group :: r.position != group[0].position by {
      if r :| r in group && r.position != group[0].position {
        var i :| 0 <= i < |group| && group[i] == r;
        assert positions[i] in positions && positions[i] != positions[0];
      } else {
        forall p | p in positions ensures p == positions[0] {
          var i :| 0 <= i < |group| && positions[i] == p;
          assert group[i] in group;
        }
      }
    }
    return Cluster(|group|, bounds, !same);
  }

  lemma {:induction false} RenderableDistinct(records: seq<MapRecord>)
    requires Distinct(records)
    ensures Distinct(RenderableOnly(records))
    ensures forall r | r in RenderableOnly(records) :: r in records
  {
    if records != [] {
      var front, last := records[..|records| - 1], records[|records| - 1];
      assert records == front + [last];
      RenderableDistinct(front);
      assert last !in front;
    }
  }

  lemma {:induction false} FlattenSingles(groups: seq<seq<MapRecord>>, records: seq<MapRecord>)
    requires |groups| == |records| && forall i | 0 <= i < |groups| :: groups[i] == [records[i]]
    ensures Flatten(groups) == records
  {
    if groups != [] {
      var n := |groups| - 1;
      FlattenSingles(groups[..n], records[..n]);
      assert records == records[..n] + [records[n]];
    }
  }

  /** One feature per cell. */
  method CellFeatures(cells: map<Cell, seq<MapRecord>>, keys: seq<Cell>, records: seq<MapRecord>, proj: Projection, cellSize: real)
    returns (features: seq<Feature>, ghost groups: seq<seq<MapRecord>>)
    requires cellSize > 0.0 && Grouped(cells, records, proj, cellSize) && forall key | key in keys :: key in cells
    requires forall r | r in records :: Renderable(r)
    ensures |features| == |groups| == |keys|
    ensures forall k | 0 <= k < |keys| :: groups[k] == cells[keys[k]] && Stands(features[k], groups[k])
  {
    features, groups := [], [];
    var i := 0;
    while i < |keys|
      invariant 0 <= i <= |keys| && |features| == |groups| == i
      invariant forall k | 0 <= k < i :: groups[k] == cells[keys[k]] && Stands(features[k], groups[k])
    {
      assert keys[i] in keys;
      InCellMembers(records, proj, cellSize, keys[i]);
      var f := FeatureFor(cells[keys[i]]);
      features, groups := features + [f], groups + [cells[keys[i]]];
      i := i + 1;
    }
  }

  /** Every group is one cell of the grid. */
  ghost predicate ByCell(groups: seq<seq<MapRecord>>, proj: Projection, cellSize: real)
    requires cellSize > 0.0
  {
    forall i, j, a, b | 0 <= i < |groups| && 0 <= j < |groups| && a in groups[i] && b in groups[j]
                        && a.position.Some? && b.position.Some? ::
      CellOf(a, proj, cellSize) == CellOf(b, proj, cellSize) <==> i == j
  }

  lemma GroupsByCell(groups: seq<seq<MapRecord>>, keys: seq<Cell>, records: seq<MapRecord>, proj: Projection, cellSize: real)
    requires cellSize > 0.0 && GroupedBy(groups, keys, records, proj, cellSize)
    ensures ByCell(groups, proj, cellSize)
  {
    forall i, a | 0 <= i < |groups| && a in groups[i] && a.position.Some? ensures CellOf(a, proj, cellSize) == keys[i] {
      InCellMembers(records, proj, cellSize, keys[i]);
    }
  }

  predicate Within(x: real, y: real, distance: real) {
    -distance < x - y < distance
  }

  lemma SameIndexNear(x: real, y: real, cellSize: real)
    requires cellSize > 0.0 && GridIndex(x, cellSize) == GridIndex(y, cellSize)
    ensures Within(x, y, cellSize)
  {
    var a := Quotient(x, cellSize);
    var b := Quotient(y, cellSize);
    var d := Shrunk(a - b, cellSize);
    Spread(a, b, cellSize, x, y, d);
  }

  lemma Quotient(x: real, cellSize: real) returns (q: real)
    requires cellSize > 0.0
    ensures q == x / cellSize && q * cellSize == x
  {
    q := x / cellSize;
  }

  lemma Spread(a: real, b: real, cellSize: real, x: real, y: real, d: real)
    requires a * cellSize == x && b * cellSize == y && d == (a - b) * cellSize
    ensures d == x - y
  {
  }

  lemma Shrunk(f: real, cellSize: real) returns (d: real)
    requires cellSize > 0.0 && -1.0 < f < 1.0
    ensures d == f * cellSize && -cellSize < d < cellSize
  {
    d := f * cellSize;
    if f >= 0.0 {
      Part(f, cellSize);
    } else {
      Part(-f, cellSize);
      assert -f * cellSize == -(f * cellSize);
    }
  }

  lemma Part(f: real, cellSize: real)
    requires cellSize > 0.0 && 0.0 <= f < 1.0
    ensures 0.0 <= f * cellSize < cellSize
  {
  }

  /** Records of one cell lie less than a cell's width apart on the screen, in both directions. */
  lemma CellMatesNear(a: MapRecord, b: MapRecord, proj: Projection, cellSize: real)
    requires cellSize > 0.0 && a.position.Some? && b.position.Some? && CellOf(a, proj, cellSize) == CellOf(b, proj, cellSize)
    ensures Within(Abscissa(a.position.value, proj), Abscissa(b.position.value, proj), cellSize)
    ensures Within(Ordinate(a.position.value, proj), Ordinate(b.position.value, proj), cellSize)
  {
    SameIndexNear(Abscissa(a.position.value, proj), Abscissa(b.position.value, proj), cellSize);
    SameIndexNear(Ordinate(a.position.value, proj), Ordinate(b.position.value, proj), cellSize);
  }

  /** Each record as it is. */
  ghost predicate AsTheyAre(features: seq<Feature>, records: seq<MapRecord>) {
    |features| == |records| && forall i | 0 <= i < |features| :: features[i] == Point(records[i])
  }

  /** The groups are the occupied cells of a grid at least `initial` and 32 pixels wide, and a wider one was taken only
      because the next finer has too many occupied cells. */
  ghost predicate ByFinestGrid(groups: seq<seq<MapRecord>>, records: seq<MapRecord>, proj: Projection, initial: real, cellSize: real) {
    && cellSize >= 32.0 && cellSize >= initial && ByCell(groups, proj, cellSize)
    && (cellSize > 32.0 && cellSize > initial ==> TooFine(records, proj, cellSize / 1.5))
  }

  ghost predicate TooFine(records: seq<MapRecord>, proj: Projection, cellSize: real)
    requires cellSize > 0.0
  {
    exists finer :: Grouped(finer, records, proj, cellSize) && |finer| > MAX_FEATURES
  }

  method ShowAll(records: seq<MapRecord>) returns (features: seq<Feature>, ghost groups: seq<seq<MapRecord>>)
    requires |records| <= MAX_FEATURES && Distinct(records) && forall r | r in records :: Renderable(r)
    ensures AsTheyAre(features, records) && Partition(features, groups, records)
  {
    features := seq(|records|, i requires 0 <= i < |records| => Point(records[i]));
    groups := seq(|records|, i requires 0 <= i < |records| => [records[i]]);
    FlattenSingles(groups, records);
  }

  method ShowByGrid(records: seq<MapRecord>, proj: Projection, initial: real, less: (Cell, Cell) -> bool)
    returns (features: seq<Feature>, ghost groups: seq<seq<MapRecord>>, ghost cellSize: real)
    requires proj.Valid() && forall r | r in records :: Renderable(r)
    ensures Partition(features, groups, records) && ByFinestGrid(groups, records, proj, initial, cellSize)
  {
    var cells, chosen := ChooseGrid(records, proj, if initial > 32.0 then initial else 32.0);
    cellSize := chosen;
    var keys := KeyList(cells, less);
    features, groups := CellFeatures(cells, keys, records, proj, chosen);
    GroupsPartition(groups, keys, records, proj, chosen);
    GroupsByCell(groups, keys, records, proj, chosen);
  }

  /** At most 500 features, together standing for every renderable record exactly once. Up to 500 records are shown as they
      are; more are grouped by the cells of the finest grid that has at most 500 of them occupied. */
  method ClusterMapRecords(records: seq<MapRecord>, proj: Projection, initial: real, less: (Cell, Cell) -> bool)
    returns (features: seq<Feature>, ghost groups: seq<seq<MapRecord>>, ghost cellSize: real)
    requires proj.Valid() && Distinct(records)
    ensures Partition(features, groups, RenderableOnly(records))
    ensures |features| <= MAX_FEATURES && TotalWeight(features) == |RenderableOnly(records)|
    ensures if |RenderableOnly(records)| <= MAX_FEATURES then AsTheyAre(features, RenderableOnly(records))
            else ByFinestGrid(groups, RenderableOnly(records), proj, initial, cellSize)
  {
    var renderable := FilterRenderable(records);
    RenderableDistinct(records);
    if |renderable| <= MAX_FEATURES {
      features, groups := ShowAll(renderable);
      cellSize := 32.0;
    } else {
      features, groups, cellSize := ShowByGrid(renderable, proj, initial, less);
    }
    WeightsAddUp(features, groups);
    assert |Flatten(groups)| == |multiset(Flatten(groups))|;
  }
}
