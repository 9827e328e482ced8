/** The order of a table's active views: guarded compare-and-swap of a permutation, kept in step with the views
    by a trigger. */
module ViewOrders {
  import opened Results
  import opened Orders
  import opened Receipts

  datatype ViewOrder = ViewOrder(revision: nat, viewIds: seq<string>)

  datatype Status = Applied | Unchanged
  datatype OrderResult = OrderResult(status: Status, order: ViewOrder)
  datatype OrderError =
    | OrderConflict(expected: nat, current: ViewOrder) | InvalidPermutation | OrderKeyReused | OrderReceiptExpired

  /** What the business part of a reorder does to an order. */
  ghost function Reordered(order: ViewOrder, expected: nat, viewIds: seq<string>): Result<OrderResult, OrderError> {
    if order.revision != expected then Err(OrderConflict(expected, order))
    else if multiset(viewIds) != multiset(order.viewIds) then Err(InvalidPermutation)
    else if viewIds == order.viewIds then Ok(OrderResult(Unchanged, order))
    else Ok(OrderResult(Applied, ViewOrder(order.revision + 1, viewIds)))
  }

  /** The membership scan: strike each submitted ID off the stored members; all must be found and none left. */
  method CheckPermutation(stored: seq<string>, viewIds: seq<string>) returns (valid: bool)
    requires Distinct(stored)
    ensures valid <==> multiset(viewIds) == multiset(stored)
  {
    var members := set x | x in stored;
    valid := |stored| == |viewIds|;
    DistinctCount(stored);
    var i := 0;
    while i < |viewIds|
      invariant 0 <= i <= |viewIds|
      invariant members == Elements(stored) - Elements(viewIds[..i])
      invariant valid ==> |stored| == |viewIds| && Distinct(viewIds[..i]) && Elements(viewIds[..i]) <= Elements(stored)
      invariant |stored| == |viewIds| && !valid ==> multiset(viewIds) != multiset(stored)
    {
      assert viewIds[..i + 1] == viewIds[..i] + [viewIds[i]];
      if viewIds[i] !in members {
        if |stored| == |viewIds| {
          Struck(stored, viewIds, i);
        }
        valid := false;
      }
      members := members - {viewIds[i]};
      i := i + 1;
    }
    assert viewIds[..i] == viewIds;
    if valid && members == {} {
      DistinctCount(viewIds);
      forall x ensures multiset(viewIds)[x] == multiset(stored)[x] {
        assert x in Elements(stored) && x !in Elements(viewIds) ==> x in members;
      }
    } else if valid {
      var x :| x in members;
      assert x in multiset(stored) && x !in multiset(viewIds);
    } else if |stored| != |viewIds| {
      assert |multiset(stored)| != |multiset(viewIds)|;
    }
    valid := valid && members == {};
  }

  lemma DistinctCount(s: seq<string>)
    requires Distinct(s)
    ensures forall x :: multiset(s)[x] == if x in Elements(s) then 1 else 0
  {
    DistinctMultiset(s);
    forall x ensures multiset(s)[x] == if x in Elements(s) then 1 else 0 {
      assert x in s <==> x in multiset(s);
    }
  }

  /** A submitted ID that is not there to strike off makes the two lists differ. */
  lemma Struck(stored: seq<string>, viewIds: seq<string>, i: nat)
    requires Distinct(stored) && i < |viewIds|
    requires viewIds[i] !in Elements(stored) - Elements(viewIds[..i])
    ensures multiset(viewIds) != multiset(stored)
  {
    var x := viewIds[i];
    DistinctCount(stored);
    if x in Elements(viewIds[..i]) {
      assert viewIds == viewIds[..i] + [x] + viewIds[i + 1..];
      assert multiset(viewIds)[x] >= 2;
    } else {
      assert x in multiset(viewIds) && x !in multiset(stored);
    }
  }

  // ----- the repository -----

  class ViewRepository {
    var orders: map<string, ViewOrder>
    const ledger: ReceiptStore<OrderResult>

    constructor ()
      ensures orders == map[] && ledger.Contents() == Ledger(map[], map[]) && fresh(ledger)
    {
      orders := map[];
      ledger := new ReceiptStore<OrderResult>();
    }

    /** A reorder is one guarded request: replayed if the key is known, otherwise judged by `Reordered`; only a
        success changes anything, and it changes the order and the ledger together. */
    method ReorderViews(key: Key, table: string, hash: string, expected: nat, viewIds: seq<string>, now: int)
      returns (reply: Result<OrderResult, OrderError>)
      requires table in orders && Distinct(orders[table].viewIds)
      modifies this, ledger
      ensures var outcome := Reordered(old(orders)[table], expected, viewIds);
              var request := Request(key, hash, true, if outcome.Ok? then Some(outcome.value) else None, now);
              && ledger.Contents() == Next(old(ledger.Contents()), request)
              && reply == (match Judge(old(ledger.Contents()), request)
                           case Committed(result) => Ok(result)
                           case Answered(Stored(result)) => Ok(result)
                           case Answered(KeyReused) => Err(OrderKeyReused)
                           case Answered(_) => Err(OrderReceiptExpired)
                           case _ => outcome)
              && orders == if Judge(old(ledger.Contents()), request).Committed?
                           then old(orders)[table := outcome.value.order] else old(orders)
    {
      var found := ledger.ReplayIdempotent(key, hash);
      match found {
        case Stored(result) => return Ok(result);
        case KeyReused => return Err(OrderKeyReused);
        case ReceiptExpired => return Err(OrderReceiptExpired);
        case Unseen =>
      }
      var order := orders[table];
      if order.revision != expected {
        return Err(OrderConflict(expected, order));
      }
      var valid := CheckPermutation(order.viewIds, viewIds);
      if !valid {
        return Err(InvalidPermutation);
      }
      var result := OrderResult(Unchanged, order);
      if order.viewIds != viewIds {
        result := OrderResult(Applied, ViewOrder(order.revision + 1, viewIds));
      }
      orders := orders[table := result.order];
      ledger.Save(key, hash, true, result, now);
      return Ok(result);
    }
  }

  // ----- the order stays the list of active views -----

  /** One table: which views exist and whether each is active, and the stored order. */
  datatype ViewTable = ViewTable(active: map<string, bool>, order: ViewOrder)

  /** The trigger after a view row changed: append a new member, drop a departed one, keep survivors in place. */
  function Maintained(order: ViewOrder, view: string, isActive: bool): ViewOrder {
    if isActive && view !in order.viewIds then ViewOrder(order.revision + 1, order.viewIds + [view])
    else if !isActive && view in order.viewIds then ViewOrder(order.revision + 1, Without(order.viewIds, view))
    else order
  }

  function Without(s: seq<string>, x: string): (r: seq<string>)
    ensures x !in r && forall y | y != x :: y in r <==> y in s
    ensures |r| <= |s|
  {
    if s == [] then []
    else
      var rest := Without(s[..|s| - 1], x);
      assert s == s[..|s| - 1] + [s[|s| - 1]];
      if s[|s| - 1] == x then rest else rest + [s[|s| - 1]]
  }

  lemma {:induction false} WithoutDistinct(s: seq<string>, x: string)
    requires Distinct(s)
    ensures Distinct(Without(s, x))
  {
    if s != [] {
      WithoutDistinct(s[..|s| - 1], x);
      assert s[|s| - 1] !in s[..|s| - 1];
    }
  }

  datatype ViewEvent =
    | SetActive(view: string, isActive: bool)
    | Reorder(expected: nat, viewIds: seq<string>)

  ghost function ViewStep(t: ViewTable, e: ViewEvent): ViewTable {
    match e
    case SetActive(view, isActive) =>
      ViewTable(t.active[view := isActive], Maintained(t.order, view, isActive))
    case Reorder(expected, viewIds) =>
      var outcome := Reordered(t.order, expected, viewIds);
      if outcome.Ok? then t.(order := outcome.value.order) else t
  }

  ghost function ViewRun(t: ViewTable, events: seq<ViewEvent>): ViewTable {
    if events == [] then t else ViewStep(ViewRun(t, events[..|events| - 1]), events[|events| - 1])
  }

  /** The order lists every active view once, and no other. */
  ghost predicate Exact(t: ViewTable) {
    && Distinct(t.order.viewIds)
    && forall v :: v in t.order.viewIds <==> v in t.active && t.active[v]
  }

  /** Over any run of view creations, deletions, restores and reorders the order stays exact, and its revision
      never falls. */
  lemma {:induction false} OrderStaysExact(t: ViewTable, events: seq<ViewEvent>)
    requires Exact(t)
    ensures Exact(ViewRun(t, events)) && t.order.revision <= ViewRun(t, events).order.revision
  {
    if events != [] {
      var u, e := ViewRun(t, events[..|events| - 1]), events[|events| - 1];
      OrderStaysExact(t, events[..|events| - 1]);
      match e
      case SetActive(view, isActive) =>
        WithoutDistinct(u.order.viewIds, view);
      case Reorder(expected, viewIds) =>
        if multiset(viewIds) == multiset(u.order.viewIds) {
          PermutationExact(u.order.viewIds, viewIds);
        }
    }
  }

  lemma PermutationExact(stored: seq<string>, viewIds: seq<string>)
    requires Distinct(stored) && multiset(viewIds) == multiset(stored)
    ensures Distinct(viewIds) && forall v :: v in viewIds <==> v in stored
  {
    DistinctCount(stored);
    forall v ensures v in viewIds <==> v in stored {
      assert v in viewIds <==> v in multiset(viewIds);
      assert v in stored <==> v in multiset(stored);
    }
    forall i, j | 0 <= i < j < |viewIds| ensures viewIds[i] != viewIds[j] {
      if viewIds[i] == viewIds[j] {
        RepeatedMultiset(viewIds, i, j);
        assert false;
      }
    }
  }
}
