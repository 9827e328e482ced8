/** Manual record order: a position per record, and moves that write one midpoint. */
module RecordOrder {
  import opened Results
  import opened Schema

  type Rows = map<string, Row>

  datatype MoveError = SelfReference | NotFound | RecordIsDeleted | InvalidReference | WrongOrder

  // ----- reading positions -----

  predicate IsActive(rows: Rows, table: string, id: string) {
    id in rows && rows[id].tableId == table && !rows[id].deleted
  }

  function ActivePositions(rows: Rows, table: string): set<real> {
    set id | id in rows && IsActive(rows, table, id) :: rows[id].position
  }

  lemma {:induction false} HasHighest(s: set<real>)
    requires s != {}
    ensures exists m :: m in s && forall x | x in s :: x <= m
  {
    assert (forall y :: y !in s) ==> s == {};
    var y :| y in s;
    var rest := s - {y};
    assert s == rest + {y};
    if rest == {} {
      assert forall x | x in s :: x <= y;
    } else {
      HasHighest(rest);
      var high :| high in rest && forall x | x in rest :: x <= high;
      var best := if y > high then y else high;
      assert best in s && forall x | x in s :: x <= best;
    }
  }

  lemma {:induction false} HasLowest(s: set<real>)
    requires s != {}
    ensures exists m :: m in s && forall x | x in s :: m <= x
  {
    assert (forall y :: y !in s) ==> s == {};
    var y :| y in s;
    var rest := s - {y};
    assert s == rest + {y};
    if rest == {} {
      assert forall x | x in s :: y <= x;
    } else {
      HasLowest(rest);
      var low :| low in rest && forall x | x in rest :: low <= x;
      var best := if y < low then y else low;
      assert best in s && forall x | x in s :: best <= x;
    }
  }

  function Highest(s: set<real>): (m: real)
    requires s != {}
    ensures m in s && forall x | x in s :: x <= m
  {
    HasHighest(s);
    var m :| m in s && forall x | x in s :: x <= m; m
  }

  function Lowest(s: set<real>): (m: real)
    requires s != {}
    ensures m in s && forall x | x in s :: m <= x
  {
    HasLowest(s);
    var m :| m in s && forall x | x in s :: m <= x; m
  }

  function Anchor(rows: Rows, table: string, id: string): Result<real, MoveError> {
    if IsActive(rows, table, id) then Ok(rows[id].position) else Err(InvalidReference)
  }

  /** Positions of the other active records on one side of an anchor. */
  function Below(rows: Rows, table: string, position: real, moving: string): set<real> {
    set id | id in rows && IsActive(rows, table, id) && id != moving && rows[id].position < position :: rows[id].position
  }

  function Above(rows: Rows, table: string, position: real, moving: string): set<real> {
    set id | id in rows && IsActive(rows, table, id) && id != moving && rows[id].position > position :: rows[id].position
  }

  /** The other end of the gap a one-sided move aims at. */
  function LowerEnd(rows: Rows, table: string, position: real, moving: string): real {
    var previous := Below(rows, table, position, moving);
    if previous == {} then position - 1024.0 else Highest(previous)
  }

  function UpperEnd(rows: Rows, table: string, position: real, moving: string): real {
    var next := Above(rows, table, position, moving);
    if next == {} then position + 1024.0 else Lowest(next)
  }

  /** The position a move writes. */
  function MoveTarget(rows: Rows, table: string, moving: string, before: Option<string>, after: Option<string>)
    : Result<real, MoveError>
  {
    if before.None? && after.None? then
      var active := ActivePositions(rows, table);
      Ok(if active == {} then 1024.0 else Highest(active) + 1024.0)
    else if before.Some? && after.Some? then
      var b :- Anchor(rows, table, before.value);
      var a :- Anchor(rows, table, after.value);
      if a >= b then Err(WrongOrder) else Ok((a + b) / 2.0)
    else if before.Some? then
      var b :- Anchor(rows, table, before.value);
      Ok((LowerEnd(rows, table, b, moving) + b) / 2.0)
    else
      var a :- Anchor(rows, table, after.value);
      Ok((a + UpperEnd(rows, table, a, moving)) / 2.0)
  }

  function Moved(rows: Rows, table: string, moving: string, before: Option<string>, after: Option<string>)
    : Result<Rows, MoveError>
  {
    if before == Some(moving) || after == Some(moving) then Err(SelfReference)
    else if moving !in rows || rows[moving].tableId != table then Err(NotFound)
    else if rows[moving].deleted then Err(RecordIsDeleted)
    else
      var target :- MoveTarget(rows, table, moving, before, after);
      Ok(rows[moving := rows[moving].(position := target)])
  }

  /** A new record goes 1024 past the highest position of its table, deleted records included. */
  function AppendPosition(rows: Rows, table: string): (p: real)
    ensures forall id | id in rows && rows[id].tableId == table :: rows[id].position < p
  {
    var all := set id | id in rows && rows[id].tableId == table :: rows[id].position;
    var p := if all == {} then 1024.0 else Highest(all) + 1024.0;
    assert forall id | id in rows && rows[id].tableId == table :: rows[id].position in all;
    p
  }

  // ----- what the positions mean -----

  ghost predicate DistinctPositions(rows: Rows, table: string) {
    forall a, b | IsActive(rows, table, a) && IsActive(rows, table, b) && a != b :: rows[a].position != rows[b].position
  }

  function Pos(rows: Rows, id: string): real {
    if id in rows then rows[id].position else 0.0
  }

  ghost predicate Ascends(rows: Rows, l: seq<string>) {
    forall i, j | 0 <= i < j < |l| :: Pos(rows, l[i]) < Pos(rows, l[j])
  }

  /** `l` is the list a client sees: the active records by ascending position. */
  ghost predicate Lists(rows: Rows, table: string, l: seq<string>) {
    && (forall id | id in l :: IsActive(rows, table, id))
    && (forall id | IsActive(rows, table, id) :: id in l)
    && Ascends(rows, l)
  }

  function Removed(l: seq<string>, id: string): (r: seq<string>)
    ensures id !in r && forall x | x != id :: x in r <==> x in l
  {
    if l == [] then []
    else if l[0] == id then Removed(l[1..], id)
    else
      assert l == [l[0]] + l[1..];
      [l[0]] + Removed(l[1..], id)
  }

  function InsertedBefore(l: seq<string>, id: string, anchor: string): seq<string> {
    if l == [] then [] else if l[0] == anchor then [id] + l else [l[0]] + InsertedBefore(l[1..], id, anchor)
  }

  function InsertedAfter(l: seq<string>, id: string, anchor: string): seq<string> {
    if l == [] then [] else if l[0] == anchor then [anchor, id] + l[1..] else [l[0]] + InsertedAfter(l[1..], id, anchor)
  }

  lemma {:induction false} InsertedBeforeAt(l: seq<string>, id: string, anchor: string, k: nat)
    requires k < |l| && l[k] == anchor && forall i | 0 <= i < k :: l[i] != anchor
    ensures InsertedBefore(l, id, anchor) == l[..k] + [id] + l[k..]
  {
    if k > 0 {
      InsertedBeforeAt(l[1..], id, anchor, k - 1);
      assert l[..k] == [l[0]] + l[1..][..k - 1] && l[1..][k - 1..] == l[k..];
    }
  }

  lemma {:induction false} InsertedAfterAt(l: seq<string>, id: string, anchor: string, k: nat)
    requires k < |l| && l[k] == anchor && forall i | 0 <= i < k :: l[i] != anchor
    ensures InsertedAfter(l, id, anchor) == l[..k + 1] + [id] + l[k + 1..]
  {
    if k > 0 {
      InsertedAfterAt(l[1..], id, anchor, k - 1);
      assert l[..k + 1] == [l[0]] + l[1..][..k] && l[1..][k..] == l[k + 1..];
    } else {
      assert l[..1] == [anchor];
    }
  }

  /** The list without the moving record is still ascending, and lists everything else. */
  ghost predicate ListsOthers(rows: Rows, table: string, moving: string, m: seq<string>) {
    && (forall id | id in m :: IsActive(rows, table, id) && id != moving)
    && (forall id | IsActive(rows, table, id) && id != moving :: id in m)
    && Ascends(rows, m)
  }

  lemma {:induction false} RemovedAscends(rows: Rows, l: seq<string>, id: string)
    requires Ascends(rows, l)
    ensures Ascends(rows, Removed(l, id))
  {
    if l != [] {
      RemovedAscends(rows, l[1..], id);
      forall x | x in l[1..] ensures Pos(rows, l[0]) < Pos(rows, x) {
        var i :| 0 <= i < |l[1..]| && l[1..][i] == x;
        assert l[i + 1] == x;
      }
    }
  }

  lemma RemovedListsOthers(rows: Rows, table: string, l: seq<string>, moving: string)
    requires Lists(rows, table, l)
    ensures ListsOthers(rows, table, moving, Removed(l, moving))
  {
    RemovedAscends(rows, l, moving);
  }

  /** Writing a position strictly between two neighbours inserts the record exactly there. */
  lemma InsertionLists(rows: Rows, table: string, moving: string, m: seq<string>, k: nat, target: real)
    requires IsActive(rows, table, moving) && ListsOthers(rows, table, moving, m) && k <= |m|
    requires forall i | 0 <= i < k :: Pos(rows, m[i]) < target
    requires forall i | k <= i < |m| :: target < Pos(rows, m[i])
    ensures Lists(rows[moving := rows[moving].(position := target)], table, m[..k] + [moving] + m[k..])
    ensures DistinctPositions(rows[moving := rows[moving].(position := target)], table)
  {
    var rows' := rows[moving := rows[moving].(position := target)];
    var l := m[..k] + [moving] + m[k..];
    forall id | id in l ensures IsActive(rows', table, id) {
      assert id == moving || id in m;
    }
    forall id | IsActive(rows', table, id) ensures id in l {
      if id != moving {
        assert IsActive(rows, table, id);
        var i :| 0 <= i < |m| && m[i] == id;
        assert l[if i < k then i else i + 1] == id;
      } else {
        assert l[k] == moving;
      }
    }
    forall i, j | 0 <= i < j < |l| ensures Pos(rows', l[i]) < Pos(rows', l[j]) {
      assert i != k ==> l[i] == m[if i < k then i else i - 1];
      assert j != k ==> l[j] == m[if j < k then j else j - 1];
    }
    ListsDistinct(rows', table, l);
  }

  lemma ListsDistinct(rows: Rows, table: string, l: seq<string>)
    requires Lists(rows, table, l)
    ensures DistinctPositions(rows, table)
  {
    forall a, b | IsActive(rows, table, a) && IsActive(rows, table, b) && a != b
      ensures rows[a].position != rows[b].position
    {
      var i :| 0 <= i < |l| && l[i] == a;
      var j :| 0 <= j < |l| && l[j] == b;
      assert i < j || j < i;
    }
  }

  // ----- the moves -----

  lemma NothingInGap(rows: Rows, table: string, moving: string, id: string, position: real)
    requires IsActive(rows, table, id) && id != moving
    ensures LowerEnd(rows, table, position, moving) < position < UpperEnd(rows, table, position, moving)
    ensures Pos(rows, id) < position ==> Pos(rows, id) <= LowerEnd(rows, table, position, moving)
    ensures Pos(rows, id) > position ==> Pos(rows, id) >= UpperEnd(rows, table, position, moving)
  {
    assert Pos(rows, id) < position ==> rows[id].position in Below(rows, table, position, moving);
    assert Pos(rows, id) > position ==> rows[id].position in Above(rows, table, position, moving);
  }

  /** A legal move is one position write. */
  lemma MoveWrites(rows: Rows, table: string, moving: string, before: Option<string>, after: Option<string>)
    requires before != Some(moving) && after != Some(moving) && IsActive(rows, table, moving)
    ensures var target := MoveTarget(rows, table, moving, before, after);
            Moved(rows, table, moving, before, after) ==
              if target.Ok? then Ok(rows[moving := rows[moving].(position := target.value)]) else Err(target.error)
  {
  }

  lemma EndIsFree(rows: Rows, table: string, moving: string, m: seq<string>, target: real)
    requires ListsOthers(rows, table, moving, m) && IsActive(rows, table, moving)
    requires MoveTarget(rows, table, moving, None, None) == Ok(target)
    ensures forall i | 0 <= i < |m| :: Pos(rows, m[i]) < target
  {
    var active := ActivePositions(rows, table);
    assert rows[moving].position in active;
    forall i | 0 <= i < |m| ensures Pos(rows, m[i]) < target {
      assert m[i] in m && rows[m[i]].position in active;
    }
  }

  lemma SpotBefore(rows: Rows, table: string, moving: string, m: seq<string>, k: nat, target: real)
    requires ListsOthers(rows, table, moving, m) && k < |m|
    requires target == (LowerEnd(rows, table, Pos(rows, m[k]), moving) + Pos(rows, m[k])) / 2.0
    ensures forall i | 0 <= i < k :: Pos(rows, m[i]) < target
    ensures forall i | k <= i < |m| :: target < Pos(rows, m[i])
  {
    forall i | 0 <= i < |m|
      ensures i < k ==> Pos(rows, m[i]) < target
      ensures k <= i ==> target < Pos(rows, m[i])
    {
      assert m[i] in m && m[k] in m;
      NothingInGap(rows, table, moving, m[i], Pos(rows, m[k]));
    }
  }

  lemma SpotAfter(rows: Rows, table: string, moving: string, m: seq<string>, k: nat, target: real)
    requires ListsOthers(rows, table, moving, m) && k < |m|
    requires target == (Pos(rows, m[k]) + UpperEnd(rows, table, Pos(rows, m[k]), moving)) / 2.0
    ensures forall i | 0 <= i <= k :: Pos(rows, m[i]) < target
    ensures forall i | k < i < |m| :: target < Pos(rows, m[i])
  {
    forall i | 0 <= i < |m|
      ensures i <= k ==> Pos(rows, m[i]) < target
      ensures k < i ==> target < Pos(rows, m[i])
    {
      assert m[i] in m && m[k] in m;
      NothingInGap(rows, table, moving, m[i], Pos(rows, m[k]));
    }
  }

  lemma MoveToEnd(rows: Rows, table: string, l: seq<string>, moving: string)
    requires Lists(rows, table, l) && moving in l
    ensures var r := Moved(rows, table, moving, None, None);
            r.Ok? && Lists(r.value, table, Removed(l, moving) + [moving]) && DistinctPositions(r.value, table)
  {
    var m := Removed(l, moving);
    RemovedListsOthers(rows, table, l, moving);
    MoveWrites(rows, table, moving, None, None);
    var target := MoveTarget(rows, table, moving, None, None).value;
    EndIsFree(rows, table, moving, m, target);
    InsertionLists(rows, table, moving, m, |m|, target);
    assert m[..|m|] + [moving] + m[|m|..] == m + [moving];
  }

  lemma MoveBefore(rows: Rows, table: string, l: seq<string>, moving: string, anchor: string)
    requires Lists(rows, table, l) && moving in l && anchor in l && moving != anchor
    ensures var r := Moved(rows, table, moving, Some(anchor), None);
            && r.Ok? && Lists(r.value, table, InsertedBefore(Removed(l, moving), moving, anchor))
            && DistinctPositions(r.value, table)
  {
    var m := Removed(l, moving);
    RemovedListsOthers(rows, table, l, moving);
    MoveWrites(rows, table, moving, Some(anchor), None);
    var target := MoveTarget(rows, table, moving, Some(anchor), None).value;
    var k :| 0 <= k < |m| && m[k] == anchor;
    SpotBefore(rows, table, moving, m, k, target);
    InsertionLists(rows, table, moving, m, k, target);
    InsertedBeforeAt(m, moving, anchor, k);
  }

  lemma MoveAfter(rows: Rows, table: string, l: seq<string>, moving: string, anchor: string)
    requires Lists(rows, table, l) && moving in l && anchor in l && moving != anchor
    ensures var r := Moved(rows, table, moving, None, Some(anchor));
            && r.Ok? && Lists(r.value, table, InsertedAfter(Removed(l, moving), moving, anchor))
            && DistinctPositions(r.value, table)
  {
    var m := Removed(l, moving);
    RemovedListsOthers(rows, table, l, moving);
    MoveWrites(rows, table, moving, None, Some(anchor));
    var target := MoveTarget(rows, table, moving, None, Some(anchor)).value;
    var k :| 0 <= k < |m| && m[k] == anchor;
    SpotAfter(rows, table, moving, m, k, target);
    InsertionLists(rows, table, moving, m, k + 1, target);
    InsertedAfterAt(m, moving, anchor, k);
  }

  /** A two-anchor move lands strictly between its anchors. It keeps positions distinct exactly when no other
      active record already sits at their midpoint. */
  lemma MoveBetween(rows: Rows, table: string, l: seq<string>, moving: string, after: string, before: string)
    requires Lists(rows, table, l) && moving in l && after in l && before in l && moving != after && moving != before
    ensures var r := Moved(rows, table, moving, Some(before), Some(after));
            var a, b := rows[after].position, rows[before].position;
            && (r.Ok? <==> a < b)
            && (r.Ok? ==> a < r.value[moving].position < b)
            && (r.Ok? ==> (DistinctPositions(r.value, table) <==>
                  forall id | IsActive(rows, table, id) && id != moving :: rows[id].position != (a + b) / 2.0))
  {
    ListsDistinct(rows, table, l);
    var r := Moved(rows, table, moving, Some(before), Some(after));
    if r.Ok? {
      var mid := (rows[after].position + rows[before].position) / 2.0;
      if id :| IsActive(rows, table, id) && id != moving && rows[id].position == mid {
        assert IsActive(r.value, table, id) && IsActive(r.value, table, moving);
      }
    }
  }

  /** Creating a record keeps positions distinct and puts it last. */
  lemma CreateAppends(rows: Rows, table: string, l: seq<string>, id: string, row: Row)
    requires Lists(rows, table, l) && id !in rows
    requires row.tableId == table && !row.deleted && row.position == AppendPosition(rows, table)
    ensures Lists(rows[id := row], table, l + [id])
  {
    var rows' := rows[id := row];
    forall x | IsActive(rows', table, x) ensures x in l + [id] {
      if x != id { assert IsActive(rows, table, x); }
    }
    forall i, j | 0 <= i < j < |l + [id]| ensures Pos(rows', (l + [id])[i]) < Pos(rows', (l + [id])[j]) {
      assert l[i] in l;
      assert j < |l| ==> l[j] in l;
    }
  }

  /** Restoring a record keeps positions distinct exactly when no active record has taken its position. */
  lemma RestoreDistinct(rows: Rows, table: string, id: string)
    requires DistinctPositions(rows, table) && id in rows && rows[id].tableId == table && rows[id].deleted
    ensures DistinctPositions(rows[id := rows[id].(deleted := false)], table) <==>
            forall x | IsActive(rows, table, x) :: rows[x].position != rows[id].position
  {
    var rows' := rows[id := rows[id].(deleted := false)];
    if x :| IsActive(rows, table, x) && rows[x].position == rows[id].position {
      assert IsActive(rows', table, x) && IsActive(rows', table, id);
    }
  }

  /** And it can be taken: move-to-end looks at active records only, so it may reuse a deleted one's position. */
  lemma RestoreCollides(first: Row, second: Row)
    requires first.tableId == second.tableId && !first.deleted && second.deleted
    requires first.position == 1024.0 && second.position == 2048.0
    ensures var rows := map["a" := first, "b" := second];
            var moved := Moved(rows, first.tableId, "a", None, None);
            && DistinctPositions(rows, first.tableId) && moved.Ok?
            && !DistinctPositions(moved.value["b" := second.(deleted := false)], first.tableId)
  {
    var rows := map["a" := first, "b" := second];
    var t := first.tableId;
    assert IsActive(rows, t, "a") && !IsActive(rows, t, "b");
    assert ActivePositions(rows, t) == {1024.0};
    var moved := Moved(rows, t, "a", None, None);
    var restored := moved.value["b" := second.(deleted := false)];
    assert IsActive(restored, t, "a") && IsActive(restored, t, "b");
  }

  /** A move succeeds exactly when the record and its anchors are active records of the table, no anchor is the record
      itself, and of two anchors the first stands before the second. It changes the position of that record only. */
  lemma MovesWhen(rows: Rows, table: string, moving: string, before: Option<string>, after: Option<string>)
    ensures Moved(rows, table, moving, before, after).Ok? <==>
            && before != Some(moving) && after != Some(moving) && IsActive(rows, table, moving)
            && (before.Some? ==> IsActive(rows, table, before.value)) && (after.Some? ==> IsActive(rows, table, after.value))
            && (before.Some? && after.Some? ==> Pos(rows, after.value) < Pos(rows, before.value))
    ensures Moved(rows, table, moving, before, after).Ok? ==>
              var moved := Moved(rows, table, moving, before, after).value;
              && moved.Keys == rows.Keys && (forall id | id in rows && id != moving :: moved[id] == rows[id])
              && moved[moving] == rows[moving].(position := moved[moving].position)
  {
  }

  // ----- the table -----

  class RecordTable {
    var rows: Rows

    constructor (rows: Rows)
      ensures this.rows == rows
    {
      this.rows := rows;
    }

    method MoveRecord(table: string, moving: string, before: Option<string>, after: Option<string>)
      returns (reply: Result<Row, MoveError>)
      modifies this
      ensures var moved := Moved(old(rows), table, moving, before, after);
              && rows == (if moved.Ok? then moved.value else old(rows))
              && reply == (if moved.Ok? then Ok(rows[moving]) else Err(moved.error))
    {
      if before == Some(moving) || after == Some(moving) {
        return Err(SelfReference);
      }
      if moving !in rows || rows[moving].tableId != table {
        return Err(NotFound);
      }
      if rows[moving].deleted {
        return Err(RecordIsDeleted);
      }
      var target := MoveTarget(rows, table, moving, before, after);
      if target.Err? {
        return Err(target.error);
      }
      rows := rows[moving := rows[moving].(position := target.value)];
      return Ok(rows[moving]);
    }
  }
}
