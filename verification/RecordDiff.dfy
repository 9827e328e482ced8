/** The per-field difference between two versions of a record, applied forward and backward. */
module RecordDiff {
  import opened Results
  import opened Schema
  import opened Values
  import opened Orders

  /** The keys whose presence or value differs. */
  predicate Differs(before: Cells, after: Cells, key: string) {
    Lookup(before, key) != Lookup(after, key)
  }

  function ChangeAt(before: Cells, after: Cells, key: string): FieldChange {
    FieldChange(key, Lookup(before, key), Lookup(after, key))
  }

  function DiffKeys(before: Cells, after: Cells, keys: seq<string>): seq<FieldChange> {
    if keys == [] then []
    else
      var front := DiffKeys(before, after, keys[..|keys| - 1]);
      var key := keys[|keys| - 1];
      if Differs(before, after, key) then front + [ChangeAt(before, after, key)] else front
  }

  function Diff(before: Cells, after: Cells): seq<FieldChange> {
    DiffKeys(before, after, SortedSet(before.Keys + after.Keys))
  }

  method DiffRecordValues(before: Cells, after: Cells) returns (changes: seq<FieldChange>)
    ensures changes == Diff(before, after)
  {
    if |before| == 0 && |after| == 0 {
      assert before.Keys + after.Keys == {};
      return [];
    }
    var keys := SortedSet(before.Keys + after.Keys);
    changes := [];
    var i := 0;
    while i < |keys|
      invariant 0 <= i <= |keys|
      invariant changes == DiffKeys(before, after, keys[..i])
    {
      assert keys[..i + 1][..i] == keys[..i];
      var key := keys[i];
      var hadBefore, hasAfter := key in before, key in after;
      if !(hadBefore == hasAfter && (hadBefore ==> before[key] == after[key])) {
        changes := changes + [FieldChange(key, if hadBefore then Some(before[key]) else None,
                                          if hasAfter then Some(after[key]) else None)];
      }
      i := i + 1;
    }
    assert keys[..i] == keys;
  }

  // ----- applying a difference -----

  function Put(cells: Cells, key: string, v: Option<Value>): Cells {
    match v case None => cells - {key} case Some(value) => cells[key := value]
  }

  function Forward(cells: Cells, changes: seq<FieldChange>): Cells {
    if changes == [] then cells
    else
      var c := changes[|changes| - 1];
      Put(Forward(cells, changes[..|changes| - 1]), c.fieldId, c.after)
  }

  function Backward(cells: Cells, changes: seq<FieldChange>): Cells {
    if changes == [] then cells
    else
      var c := changes[|changes| - 1];
      Put(Backward(cells, changes[..|changes| - 1]), c.fieldId, c.before)
  }

  /** Of two versions, the cells of `b` under the keys met so far and those of `a` elsewhere. */
  ghost predicate Blend(a: Cells, b: Cells, keys: seq<string>, mix: Cells) {
    forall key :: Lookup(mix, key) == if key in keys then Lookup(b, key) else Lookup(a, key)
  }

  lemma LookupPut(cells: Cells, key: string, v: Option<Value>, k: string)
    ensures Lookup(Put(cells, key, v), k) == if k == key then v else Lookup(cells, k)
  {
  }

  lemma BlendMore(a: Cells, b: Cells, keys: seq<string>, mix: Cells, more: Cells)
    requires keys != [] && Blend(a, b, keys[..|keys| - 1], mix)
    requires forall k :: Lookup(more, k) == if k == keys[|keys| - 1] then Lookup(b, k) else Lookup(mix, k)
    ensures Blend(a, b, keys, more)
  {
    assert keys == keys[..|keys| - 1] + [keys[|keys| - 1]];
  }

  lemma {:induction false} DiffBlends(before: Cells, after: Cells, keys: seq<string>)
    ensures Blend(before, after, keys, Forward(before, DiffKeys(before, after, keys)))
    ensures Blend(after, before, keys, Backward(after, DiffKeys(before, after, keys)))
  {
    if keys != [] {
      var front, key := keys[..|keys| - 1], keys[|keys| - 1];
      DiffBlends(before, after, front);
      var rest, all := DiffKeys(before, after, front), DiffKeys(before, after, keys);
      if Differs(before, after, key) {
        assert all[..|all| - 1] == rest;
        forall k
          ensures Lookup(Forward(before, all), k) == if k == key then Lookup(after, k) else Lookup(Forward(before, rest), k)
          ensures Lookup(Backward(after, all), k) == if k == key then Lookup(before, k) else Lookup(Backward(after, rest), k)
        {
          LookupPut(Forward(before, rest), key, Lookup(after, key), k);
          LookupPut(Backward(after, rest), key, Lookup(before, key), k);
        }
      }
      BlendMore(before, after, keys, Forward(before, rest), Forward(before, all));
      BlendMore(after, before, keys, Backward(after, rest), Backward(after, all));
    }
  }

  lemma SameLookups(a: Cells, b: Cells)
    requires forall key :: Lookup(a, key) == Lookup(b, key)
    ensures a == b
  {
    forall key ensures key in a <==> key in b {
      assert Lookup(a, key) == Lookup(b, key);
    }
    forall key | key in a ensures a[key] == b[key] {
      assert Lookup(a, key) == Lookup(b, key);
    }
  }

  /** A difference takes the old version to the new one and the new one back, absent and null kept apart. */
  lemma DiffRoundTrip(before: Cells, after: Cells)
    ensures Forward(before, Diff(before, after)) == after
    ensures Backward(after, Diff(before, after)) == before
  {
    var keys := SortedSet(before.Keys + after.Keys);
    SortedSetMembers(before.Keys + after.Keys);
    DiffBlends(before, after, keys);
    SameLookups(Forward(before, Diff(before, after)), after);
    SameLookups(Backward(after, Diff(before, after)), before);
  }

  lemma {:induction false} DiffKeysAre(before: Cells, after: Cells, keys: seq<string>)
    ensures forall c :: c in DiffKeys(before, after, keys) <==>
              c.fieldId in keys && Differs(before, after, c.fieldId) && c == ChangeAt(before, after, c.fieldId)
  {
    if keys != [] {
      var front, key := keys[..|keys| - 1], keys[|keys| - 1];
      assert keys == front + [key];
      DiffKeysAre(before, after, front);
    }
  }

  /** It is minimal: one entry per field that differs and none for the others; empty exactly for equal versions. */
  lemma DiffIsMinimal(before: Cells, after: Cells)
    ensures forall c :: c in Diff(before, after) <==>
              Differs(before, after, c.fieldId) && c == ChangeAt(before, after, c.fieldId)
    ensures Diff(before, after) == [] <==> before == after
  {
    var keys := SortedSet(before.Keys + after.Keys);
    SortedSetMembers(before.Keys + after.Keys);
    DiffKeysAre(before, after, keys);
    if before != after {
      if forall key :: !Differs(before, after, key) {
        forall key ensures Lookup(before, key) == Lookup(after, key) { assert !Differs(before, after, key); }
        SameLookups(before, after);
      } else {
        var key :| Differs(before, after, key);
        assert ChangeAt(before, after, key) in Diff(before, after);
      }
    }
    assert Diff(before, after) != [] ==> Diff(before, after)[0] in Diff(before, after);
  }
}
