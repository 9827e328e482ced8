/** Replacing a choice field's option list. Options left out are kept as deleted, options named again come back, and
    new ones get identifiers of their own: identities are conserved. */
module OptionUpdates {
  import opened Results
  import opened Schema
  import opened Values
  import opened Commands
  import opened Orders
  import opened ChoiceOptions

  datatype OptionInput = OptionInput(id: Option<string>, name: string, color: string)

  function NameOf(lib: Library, o: OptionInput): string {
    match lib.optionName(o.name) case None => "" case Some(name) => name
  }

  predicate WellNamed(lib: Library, o: OptionInput) {
    lib.optionName(o.name).Some? && lib.optionColor(o.color)
  }

  predicate WellReferenced(lib: Library, c: SelectConfig, o: OptionInput) {
    o.id.Some? ==> lib.optionId(o.id.value) && o.id.value in AllIds(c)
  }

  predicate Apart(lib: Library, a: OptionInput, b: OptionInput) {
    lib.fold(NameOf(lib, a)) != lib.fold(NameOf(lib, b)) && (a.id.Some? ==> a.id != b.id)
  }

  /** An entry may follow the entries `done`. */
  predicate Extends(lib: Library, c: SelectConfig, done: seq<OptionInput>, o: OptionInput) {
    WellNamed(lib, o) && WellReferenced(lib, c, o) && forall p | p in done :: Apart(lib, p, o)
  }

  predicate ItemsOk(lib: Library, c: SelectConfig, input: seq<OptionInput>) {
    input == []
    || (ItemsOk(lib, c, input[..|input| - 1]) && Extends(lib, c, input[..|input| - 1], input[|input| - 1]))
  }

  function NewCount(input: seq<OptionInput>): (n: nat)
    ensures n <= |input|
  {
    if input == [] then 0
    else NewCount(input[..|input| - 1]) + if input[|input| - 1].id.None? then 1 else 0
  }

  /** The whole test an update has to pass. */
  predicate Acceptable(lib: Library, c: SelectConfig, input: seq<OptionInput>) {
    && |input| <= MAX_ACTIVE && ItemsOk(lib, c, input)
    && |ActiveIds(c)| + |DeletedIds(c)| + NewCount(input) <= MAX_TOTAL
  }

  function OptionFor(lib: Library, o: OptionInput, next: nat): SelectOption {
    SelectOption(if o.id.Some? then o.id.value else lib.newOptionId(next), NameOf(lib, o), o.color)
  }

  /** The new active list, in input order; entries without identifier get the next generated one. */
  function ActiveOf(lib: Library, input: seq<OptionInput>, next: nat): (r: seq<SelectOption>)
    ensures |r| == |input|
  {
    if input == [] then []
    else
      var front := input[..|input| - 1];
      ActiveOf(lib, front, next) + [OptionFor(lib, input[|input| - 1], next + NewCount(front))]
  }

  function IdSet(options: seq<SelectOption>): set<string> {
    set o | o in options :: o.id
  }

  /** Deleted options that the new list does not bring back. */
  function StillDeleted(deleted: seq<DeletedOption>, kept: set<string>): seq<DeletedOption> {
    if deleted == [] then []
    else
      var before := StillDeleted(deleted[..|deleted| - 1], kept);
      if deleted[|deleted| - 1].id in kept then before else before + [deleted[|deleted| - 1]]
  }

  function Retire(o: SelectOption, now: int): DeletedOption {
    DeletedOption(o.id, o.name, o.color, now)
  }

  /** Active options that the new list leaves out. */
  function Retired(options: seq<SelectOption>, kept: set<string>, now: int): seq<DeletedOption> {
    if options == [] then []
    else
      var before := Retired(options[..|options| - 1], kept, now);
      if options[|options| - 1].id in kept then before else before + [Retire(options[|options| - 1], now)]
  }

  predicate DeletedBefore(a: DeletedOption, b: DeletedOption) {
    a.deletedAt < b.deletedAt || (a.deletedAt == b.deletedAt && StringLess(a.id, b.id))
  }

  function Replaced(c: SelectConfig, active: seq<SelectOption>, now: int): SelectConfig {
    SelectConfig(active,
                 Sort(DeletedBefore, StillDeleted(c.deletedOptions, IdSet(active)) + Retired(c.options, IdSet(active), now)))
  }

  function Updated(lib: Library, c: SelectConfig, input: seq<OptionInput>, next: nat, now: int): SelectConfig {
    Replaced(c, ActiveOf(lib, input, next), now)
  }

  // ----- the loops -----

  /** What the scan knows after the entries `done`. */
  ghost predicate Scanned(lib: Library, done: seq<OptionInput>, next: nat,
                          active: seq<SelectOption>, seenIds: set<string>, seenNames: set<string>, newCount: nat) {
    && newCount == NewCount(done)
    && active == ActiveOf(lib, done, next) && seenIds == IdSet(active) && seenNames == FoldedNames(lib, done)
  }

  method UpdatedActive(lib: Library, c: SelectConfig, input: seq<OptionInput>, next: nat)
    returns (ok: bool, active: seq<SelectOption>, seenIds: set<string>, newCount: nat)
    requires Unused(lib, c, next)
    ensures ok <==> ItemsOk(lib, c, input)
    ensures ok ==> active == ActiveOf(lib, input, next) && seenIds == IdSet(active) && newCount == NewCount(input)
  {
    ok, active, seenIds, newCount := true, [], {}, 0;
    var seenNames: set<string> := {};
    var index := 0;
    while index < |input|
      invariant 0 <= index <= |input|
      invariant ok ==> ItemsOk(lib, c, input[..index])
      invariant ok ==> Scanned(lib, input[..index], next, active, seenIds, seenNames, newCount)
      invariant !ok ==> !ItemsOk(lib, c, input)
    {
      var option := input[index];
      SlicePlus(input, index);
      if ok {
        ScanStep(lib, c, input[..index], option, next, active, seenIds, seenNames, newCount);
        ItemsPrefix(lib, c, input, index + 1);
      }
      if !WellNamed(lib, option) || lib.fold(NameOf(lib, option)) in seenNames {
        ok := false;
      } else {
        seenNames := seenNames + {lib.fold(NameOf(lib, option))};
        if option.id.None? {
          active := active + [OptionFor(lib, option, next + newCount)];
          seenIds := seenIds + {lib.newOptionId(next + newCount)};
          newCount := newCount + 1;
        } else if !WellReferenced(lib, c, option) || option.id.value in seenIds {
          ok := false;
        } else {
          active := active + [OptionFor(lib, option, next + newCount)];
          seenIds := seenIds + {option.id.value};
        }
      }
      index := index + 1;
    }
    SliceAll(input);
  }

  function FoldedNames(lib: Library, input: seq<OptionInput>): set<string> {
    set o | o in input :: lib.fold(NameOf(lib, o))
  }

  lemma FoldedMore(lib: Library, done: seq<OptionInput>, o: OptionInput)
    ensures FoldedNames(lib, done + [o]) == FoldedNames(lib, done) + {lib.fold(NameOf(lib, o))}
  {
  }

  lemma IdSetMore(active: seq<SelectOption>, o: SelectOption)
    ensures IdSet(active + [o]) == IdSet(active) + {o.id}
  {
  }

  predicate EntryFits(lib: Library, c: SelectConfig, o: OptionInput, seenIds: set<string>, seenNames: set<string>) {
    && WellNamed(lib, o) && lib.fold(NameOf(lib, o)) !in seenNames
    && WellReferenced(lib, c, o) && (o.id.Some? ==> o.id.value !in seenIds)
  }

  lemma SlicePlus(input: seq<OptionInput>, i: nat)
    requires i < |input|
    ensures input[..i + 1] == input[..i] + [input[i]]
  {
  }

  lemma SliceAll(input: seq<OptionInput>)
    ensures input[..|input|] == input
  {
  }

  /** The scan goes on with the next entry, and the entry keeps the list acceptable exactly when the seen-sets say so. */
  lemma ScanStep(lib: Library, c: SelectConfig, done: seq<OptionInput>, entry: OptionInput, next: nat,
                 active: seq<SelectOption>, seenIds: set<string>, seenNames: set<string>, newCount: nat)
    requires Unused(lib, c, next) && ItemsOk(lib, c, done) && Scanned(lib, done, next, active, seenIds, seenNames, newCount)
    ensures EntryFits(lib, c, entry, seenIds, seenNames) <==> ItemsOk(lib, c, done + [entry])
    ensures var o := OptionFor(lib, entry, next + newCount);
            Scanned(lib, done + [entry], next, active + [o], seenIds + {o.id},
                    seenNames + {lib.fold(NameOf(lib, entry))}, newCount + if entry.id.None? then 1 else 0)
  {
    FitsExtends(lib, c, done, entry, next);
    ItemsMore(lib, c, done, entry);
    ScanState(lib, done, entry, next, active, seenIds, seenNames, newCount);
  }

  lemma ScanState(lib: Library, done: seq<OptionInput>, entry: OptionInput, next: nat,
                  active: seq<SelectOption>, seenIds: set<string>, seenNames: set<string>, newCount: nat)
    requires Scanned(lib, done, next, active, seenIds, seenNames, newCount)
    ensures var o := OptionFor(lib, entry, next + newCount);
            Scanned(lib, done + [entry], next, active + [o], seenIds + {o.id},
                    seenNames + {lib.fold(NameOf(lib, entry))}, newCount + if entry.id.None? then 1 else 0)
  {
    ActiveMore(lib, done, entry, next);
    FoldedMore(lib, done, entry);
    IdSetMore(active, OptionFor(lib, entry, next + newCount));
  }

  lemma ItemsMore(lib: Library, c: SelectConfig, done: seq<OptionInput>, o: OptionInput)
    ensures ItemsOk(lib, c, done + [o]) <==> ItemsOk(lib, c, done) && Extends(lib, c, done, o)
  {
    assert (done + [o])[..|done|] == done;
  }

  lemma {:induction false} ItemsPrefix(lib: Library, c: SelectConfig, input: seq<OptionInput>, n: nat)
    requires n <= |input|
    ensures ItemsOk(lib, c, input) ==> ItemsOk(lib, c, input[..n])
  {
    if n == |input| {
      SliceAll(input);
    } else {
      ItemsPrefix(lib, c, input[..|input| - 1], n);
      assert input[..|input| - 1][..n] == input[..n];
    }
  }

  lemma FitsExtends(lib: Library, c: SelectConfig, done: seq<OptionInput>, o: OptionInput, next: nat)
    requires Unused(lib, c, next)
    ensures EntryFits(lib, c, o, IdSet(ActiveOf(lib, done, next)), FoldedNames(lib, done)) <==> Extends(lib, c, done, o)
  {
    if WellReferenced(lib, c, o) && o.id.Some? {
      ActiveIdsOf(lib, c, done, next, o.id.value);
    }
  }

  /** The quantified reading of an acceptable list. */
  lemma {:induction false} ItemsOkMeans(lib: Library, c: SelectConfig, input: seq<OptionInput>)
    ensures ItemsOk(lib, c, input) <==>
              && (forall i | 0 <= i < |input| :: WellNamed(lib, input[i]) && WellReferenced(lib, c, input[i]))
              && (forall i, j | 0 <= i < j < |input| :: Apart(lib, input[i], input[j]))
  {
    if input != [] {
      var front, last := input[..|input| - 1], input[|input| - 1];
      ItemsOkMeans(lib, c, front);
      assert forall k | 0 <= k < |front| :: front[k] == input[k];
      if Extends(lib, c, front, last) {
        forall k | 0 <= k < |front| ensures Apart(lib, input[k], last) { assert front[k] in front; }
      } else if WellNamed(lib, last) && WellReferenced(lib, c, last) {
        var p :| p in front && !Apart(lib, p, last);
        var k :| 0 <= k < |front| && front[k] == p;
        assert !Apart(lib, input[k], input[|front|]);
      }
    }
  }

  lemma ActiveMore(lib: Library, done: seq<OptionInput>, o: OptionInput, next: nat)
    ensures ActiveOf(lib, done + [o], next) == ActiveOf(lib, done, next) + [OptionFor(lib, o, next + NewCount(done))]
    ensures NewCount(done + [o]) == NewCount(done) + if o.id.None? then 1 else 0
  {
    assert (done + [o])[..|done|] == done;
  }

  /** An identifier of the old configuration is in the new list exactly when an entry names it. */
  lemma {:induction false} ActiveIdsOf(lib: Library, c: SelectConfig, input: seq<OptionInput>, next: nat, id: string)
    requires Unused(lib, c, next) && id in AllIds(c)
    ensures id in IdSet(ActiveOf(lib, input, next)) <==> exists p | p in input :: p.id == Some(id)
  {
    if input != [] {
      var front, last := input[..|input| - 1], input[|input| - 1];
      ActiveIdsOf(lib, c, front, next, id);
      SlicePlus(input, |input| - 1);
      SliceAll(input);
      OneMoreNamed(lib, c, front, last, next, ActiveOf(lib, front, next), id);
    }
  }

  lemma OneMoreNamed(lib: Library, c: SelectConfig, front: seq<OptionInput>, last: OptionInput, next: nat,
                     active: seq<SelectOption>, id: string)
    requires Unused(lib, c, next) && id in AllIds(c)
    requires id in IdSet(active) <==> exists p | p in front :: p.id == Some(id)
    ensures id in IdSet(active + [OptionFor(lib, last, next + NewCount(front))]) <==>
            exists p | p in front + [last] :: p.id == Some(id)
  {
    IdSetMore(active, OptionFor(lib, last, next + NewCount(front)));
    if last.id == Some(id) {
      assert last in front + [last];
    }
  }

  method NormalizeUpdatedSelectConfig(lib: Library, current: SelectConfig, input: seq<OptionInput>, next: nat, now: int)
    returns (result: Option<SelectConfig>, next': nat)
    requires Unused(lib, current, next)
    ensures result.Some? <==> Acceptable(lib, current, input)
    ensures result.Some? ==> result.value == Updated(lib, current, input, next, now) && next' == next + NewCount(input)
  {
    if |input| > MAX_ACTIVE {
      return None, next;
    }
    var ok, active, seenIds, newCount := UpdatedActive(lib, current, input, next);
    next' := next + newCount;
    if !ok || |ActiveIds(current)| + |DeletedIds(current)| + newCount > MAX_TOTAL {
      return None, next';
    }
    var still := KeepDeleted(current.deletedOptions, seenIds);
    var retired := RetireMissing(current.options, seenIds, now);
    return Some(SelectConfig(active, Sort(DeletedBefore, still + retired))), next';
  }

  method KeepDeleted(deleted: seq<DeletedOption>, kept: set<string>) returns (still: seq<DeletedOption>)
    ensures still == StillDeleted(deleted, kept)
  {
    still := [];
    var i := 0;
    while i < |deleted|
      invariant 0 <= i <= |deleted|
      invariant still == StillDeleted(deleted[..i], kept)
    {
      assert deleted[..i + 1][..i] == deleted[..i];
      if deleted[i].id !in kept {
        still := still + [deleted[i]];
      }
      i := i + 1;
    }
    assert deleted[..i] == deleted;
  }

  method RetireMissing(options: seq<SelectOption>, kept: set<string>, now: int) returns (retired: seq<DeletedOption>)
    ensures retired == Retired(options, kept, now)
  {
    retired := [];
    var i := 0;
    while i < |options|
      invariant 0 <= i <= |options|
      invariant retired == Retired(options[..i], kept, now)
    {
      assert options[..i + 1][..i] == options[..i];
      if options[i].id !in kept {
        retired := retired + [Retire(options[i], now)];
      }
      i := i + 1;
    }
    assert options[..i] == options;
  }

  // ----- conservation of identity -----

  /** The identifiers generated from `first` up to `last`. */
  function GeneratedList(lib: Library, first: nat, last: nat): seq<string> {
    if first >= last then [] else GeneratedList(lib, first, last - 1) + [lib.newOptionId(last - 1)]
  }

  function Generated(lib: Library, first: nat, last: nat): set<string> {
    set id | id in GeneratedList(lib, first, last)
  }

  lemma GeneratedMore(lib: Library, first: nat, last: nat)
    requires first <= last
    ensures Generated(lib, first, last + 1) == Generated(lib, first, last) + {lib.newOptionId(last)}
  {
  }

  function NamedIds(input: seq<OptionInput>): set<string> {
    set o | o in input && o.id.Some? :: o.id.value
  }

  lemma ActiveIdsAre(lib: Library, input: seq<OptionInput>, next: nat)
    ensures ActiveAre(ActiveOf(lib, input, next), NamedIds(input), Generated(lib, next, next + NewCount(input)))
  {
    forall id
      ensures id in IdSet(ActiveOf(lib, input, next)) <==>
              id in NamedIds(input) || id in Generated(lib, next, next + NewCount(input))
    {
      ActiveIdIs(lib, input, next, id);
    }
  }

  lemma {:induction false} ActiveIdIs(lib: Library, input: seq<OptionInput>, next: nat, id: string)
    ensures id in IdSet(ActiveOf(lib, input, next)) <==>
            id in NamedIds(input) || id in Generated(lib, next, next + NewCount(input))
  {
    if input != [] {
      var front, o := input[..|input| - 1], input[|input| - 1];
      SlicePlus(input, |input| - 1);
      SliceAll(input);
      ActiveIdIs(lib, front, next, id);
      OneMoreId(lib, front, o, next, next + NewCount(front), ActiveOf(lib, front, next), id);
    }
  }

  lemma OneMoreId(lib: Library, front: seq<OptionInput>, o: OptionInput, first: nat, last: nat, active: seq<SelectOption>, id: string)
    requires first <= last && (id in IdSet(active) <==> id in NamedIds(front) || id in Generated(lib, first, last))
    ensures id in IdSet(active + [OptionFor(lib, o, last)]) <==>
            id in NamedIds(front + [o]) || id in Generated(lib, first, if o.id.None? then last + 1 else last)
  {
    IdSetMore(active, OptionFor(lib, o, last));
    NamedIdsMore(front, o);
    GeneratedMore(lib, first, last);
  }

  lemma NamedIdsMore(front: seq<OptionInput>, o: OptionInput)
    ensures NamedIds(front + [o]) == NamedIds(front) + if o.id.Some? then {o.id.value} else {}
  {
  }

  function DeletedIdSet(deleted: seq<DeletedOption>): set<string> {
    set o | o in deleted :: o.id
  }

  ghost predicate DistinctDeleted(deleted: seq<DeletedOption>) {
    forall i, j | 0 <= i < j < |deleted| :: deleted[i].id != deleted[j].id
  }

  ghost predicate DistinctActive(options: seq<SelectOption>) {
    forall i, j | 0 <= i < j < |options| :: options[i].id != options[j].id
  }

  lemma DeletedIdSetMore(deleted: seq<DeletedOption>, o: DeletedOption)
    ensures DeletedIdSet(deleted + [o]) == DeletedIdSet(deleted) + {o.id}
    ensures DistinctDeleted(deleted) && o.id !in DeletedIdSet(deleted) ==> DistinctDeleted(deleted + [o])
  {
    forall i | 0 <= i < |deleted| && o.id !in DeletedIdSet(deleted) ensures deleted[i].id != o.id {
      assert deleted[i] in deleted;
    }
  }

  lemma {:induction false} StillDeletedIds(deleted: seq<DeletedOption>, kept: set<string>)
    ensures DeletedIdSet(StillDeleted(deleted, kept)) == DeletedIdSet(deleted) - kept
    ensures DistinctDeleted(deleted) ==> DistinctDeleted(StillDeleted(deleted, kept))
    ensures forall o :: o in StillDeleted(deleted, kept) <==> o in deleted && o.id !in kept
  {
    if deleted != [] {
      var front, o := deleted[..|deleted| - 1], deleted[|deleted| - 1];
      assert deleted == front + [o];
      StillDeletedIds(front, kept);
      DeletedIdSetMore(front, o);
      DeletedIdSetMore(StillDeleted(front, kept), o);
      if DistinctDeleted(deleted) { LastDeletedApart(deleted); }
    }
  }

  lemma LastDeletedApart(deleted: seq<DeletedOption>)
    requires deleted != [] && DistinctDeleted(deleted)
    ensures deleted[|deleted| - 1].id !in DeletedIdSet(deleted[..|deleted| - 1])
  {
  }

  lemma {:induction false} RetiredIds(options: seq<SelectOption>, kept: set<string>, now: int)
    ensures DeletedIdSet(Retired(options, kept, now)) == IdSet(options) - kept
    ensures DistinctActive(options) ==> DistinctDeleted(Retired(options, kept, now))
    ensures forall d | d in Retired(options, kept, now) :: exists o | o in options :: d == Retire(o, now) && o.id !in kept
  {
    if options != [] {
      var front, o := options[..|options| - 1], options[|options| - 1];
      assert options == front + [o];
      RetiredIds(front, kept, now);
      IdSetMore(front, o);
      DeletedIdSetMore(Retired(front, kept, now), Retire(o, now));
      assert o in options;
      if DistinctActive(options) { LastActiveApart(options); }
    }
  }

  lemma LastActiveApart(options: seq<SelectOption>)
    requires options != [] && DistinctActive(options)
    ensures options[|options| - 1].id !in IdSet(options[..|options| - 1])
  {
  }

  lemma SetsAre(c: SelectConfig)
    ensures ActiveIds(c) == IdSet(c.options) && DeletedIds(c) == DeletedIdSet(c.deletedOptions)
  {
  }

  lemma DeletedOrder(s: seq<DeletedOption>)
    requires DistinctDeleted(s)
    ensures TotalOn(DeletedBefore, Elements(s)) && Distinct(s)
  {
    StringOrder(DeletedIdSet(s));
    forall x, y | x in s && y in s && x.id == y.id ensures x == y {
      var i :| 0 <= i < |s| && s[i] == x;
      var j :| 0 <= j < |s| && s[j] == y;
    }
    forall x | x in s ensures x.id in DeletedIdSet(s) {}
  }

  /** Sorting the deleted options by time and identifier loses and repeats none of them. */
  lemma SortDeleted(s: seq<DeletedOption>)
    requires DistinctDeleted(s)
    ensures DistinctDeleted(Sort(DeletedBefore, s)) && DeletedIdSet(Sort(DeletedBefore, s)) == DeletedIdSet(s)
    ensures Ascending(DeletedBefore, Sort(DeletedBefore, s))
    ensures forall o :: o in Sort(DeletedBefore, s) <==> o in s
  {
    DeletedOrder(s);
    SortAscending(DeletedBefore, s);
    var r := Sort(DeletedBefore, s);
    forall o ensures o in r <==> o in s {
      assert o in r <==> o in Elements(r);
    }
    forall i, j | 0 <= i < j < |r| ensures r[i] != r[j] {
      assert DeletedBefore(r[i], r[j]);
      StringLessTotal(r[i].id, r[j].id);
    }
    SameDeleted(r, s);
  }

  lemma SameDeleted(r: seq<DeletedOption>, s: seq<DeletedOption>)
    requires Distinct(r) && DistinctDeleted(s) && forall o :: o in r <==> o in s
    ensures DistinctDeleted(r) && DeletedIdSet(r) == DeletedIdSet(s)
  {
    forall i, j | 0 <= i < j < |r| ensures r[i].id != r[j].id {
      assert r[i] in s && r[j] in s;
      var k :| 0 <= k < |s| && s[k] == r[i];
      var m :| 0 <= m < |s| && s[m] == r[j];
    }
  }

  lemma ConcatDeleted(a: seq<DeletedOption>, b: seq<DeletedOption>)
    ensures DeletedIdSet(a + b) == DeletedIdSet(a) + DeletedIdSet(b)
    ensures DistinctDeleted(a) && DistinctDeleted(b) && DeletedIdSet(a) !! DeletedIdSet(b) ==> DistinctDeleted(a + b)
  {
    forall i, j | 0 <= i < |a| && 0 <= j < |b| && DeletedIdSet(a) !! DeletedIdSet(b) ensures a[i].id != b[j].id {
      assert a[i] in a && b[j] in b;
      assert a[i].id in DeletedIdSet(a) && b[j].id in DeletedIdSet(b);
    }
  }

  lemma {:induction false} ActiveNames(lib: Library, input: seq<OptionInput>, next: nat, i: nat)
    requires i < |input|
    ensures ActiveOf(lib, input, next)[i] == OptionFor(lib, input[i], next + NewCount(input[..i]))
  {
    if i < |input| - 1 {
      ActiveNames(lib, input[..|input| - 1], next, i);
      assert input[..|input| - 1][..i] == input[..i];
    }
  }

  lemma LastIdNew(lib: Library, c: SelectConfig, front: seq<OptionInput>, o: OptionInput, next: nat)
    requires Lawful(lib) && Unused(lib, c, next) && NamedIds(front) <= AllIds(c) && Extends(lib, c, front, o)
    ensures OptionFor(lib, o, next + NewCount(front)).id !in IdSet(ActiveOf(lib, front, next))
  {
    if o.id.Some? {
      FitsExtends(lib, c, front, o, next);
    } else {
      UnusedAt(lib, c, next, next + NewCount(front));
      NewIdLater(lib, c, front, next);
    }
  }

  lemma UnusedAt(lib: Library, c: SelectConfig, next: nat, n: nat)
    requires Unused(lib, c, next) && n >= next
    ensures lib.newOptionId(n) !in AllIds(c)
  {
  }

  lemma NewIdLater(lib: Library, c: SelectConfig, front: seq<OptionInput>, next: nat)
    requires Lawful(lib) && NamedIds(front) <= AllIds(c) && lib.newOptionId(next + NewCount(front)) !in AllIds(c)
    ensures lib.newOptionId(next + NewCount(front)) !in IdSet(ActiveOf(lib, front, next))
  {
    NotYetGenerated(lib, next, next + NewCount(front), next + NewCount(front));
    ActiveIdIs(lib, front, next, lib.newOptionId(next + NewCount(front)));
  }

  lemma {:induction false} ActiveDistinct(lib: Library, c: SelectConfig, input: seq<OptionInput>, next: nat)
    requires Lawful(lib) && Unused(lib, c, next) && ItemsOk(lib, c, input)
    ensures DistinctActive(ActiveOf(lib, input, next))
  {
    if input != [] {
      var front, last := input[..|input| - 1], input[|input| - 1];
      ActiveDistinct(lib, c, front, next);
      NamedIdsKnown(lib, c, front);
      LastActive(lib, c, front, last, next);
    }
  }

  lemma LastActive(lib: Library, c: SelectConfig, front: seq<OptionInput>, last: OptionInput, next: nat)
    requires Lawful(lib) && Unused(lib, c, next) && NamedIds(front) <= AllIds(c) && Extends(lib, c, front, last)
    requires DistinctActive(ActiveOf(lib, front, next))
    ensures DistinctActive(ActiveOf(lib, front, next) + [OptionFor(lib, last, next + NewCount(front))])
  {
    LastIdNew(lib, c, front, last, next);
    ActiveApart(ActiveOf(lib, front, next), OptionFor(lib, last, next + NewCount(front)));
  }

  lemma ActiveApart(before: seq<SelectOption>, o: SelectOption)
    requires DistinctActive(before) && o.id !in IdSet(before)
    ensures DistinctActive(before + [o])
  {
    forall i | 0 <= i < |before| ensures before[i].id != o.id {
      assert before[i] in before;
    }
  }

  lemma {:induction false} NamedIdsKnown(lib: Library, c: SelectConfig, input: seq<OptionInput>)
    requires ItemsOk(lib, c, input)
    ensures NamedIds(input) <= AllIds(c)
  {
    if input != [] {
      var front, last := input[..|input| - 1], input[|input| - 1];
      NamedIdsKnown(lib, c, front);
      SlicePlus(input, |input| - 1);
      SliceAll(input);
      NamedIdsMore(front, last);
    }
  }

  ghost predicate ActiveAre(active: seq<SelectOption>, named: set<string>, made: set<string>) {
    forall id :: id in IdSet(active) <==> id in named || id in made
  }

  ghost predicate Foreign(ids: set<string>, c: SelectConfig) {
    forall id | id in ids :: id !in AllIds(c)
  }

  /** Identities are conserved: every old identifier is still there, active or deleted and never both, and the only
      additions are `made`. Deleted options keep name and color. */
  ghost predicate Conserved(c: SelectConfig, d: SelectConfig, named: set<string>, made: set<string>, now: int) {
    && (forall id :: id in AllIds(d) <==> id in AllIds(c) || id in made)
    && Foreign(made, c) && DistinctIds(d)
    && (forall id :: id in ActiveIds(d) <==> id in named || id in made)
    && (forall id :: id in DeletedIds(d) <==> id in AllIds(c) && id !in named)
    && DeletedAsBefore(c, d.deletedOptions, now)
  }

  ghost predicate DeletedAsBefore(c: SelectConfig, deleted: seq<DeletedOption>, now: int) {
    (forall o | o in deleted :: o in c.deletedOptions || exists a | a in c.options :: o == Retire(a, now))
  }

  lemma UpdateConserves(lib: Library, c: SelectConfig, input: seq<OptionInput>, next: nat, now: int) returns (made: set<string>)
    requires Lawful(lib) && DistinctIds(c) && Unused(lib, c, next) && ItemsOk(lib, c, input)
    ensures made == Generated(lib, next, next + NewCount(input))
    ensures Conserved(c, Updated(lib, c, input, next, now), NamedIds(input), made, now)
  {
    made := MadeSet(lib, c, next, next + NewCount(input));
    ConservesWith(lib, c, input, next, now, made);
  }

  lemma MadeSet(lib: Library, c: SelectConfig, first: nat, last: nat) returns (made: set<string>)
    requires Unused(lib, c, first)
    ensures made == Generated(lib, first, last) && Foreign(made, c)
  {
    made := Generated(lib, first, last);
    GeneratedApart(lib, c, first, last);
  }

  lemma ConservesWith(lib: Library, c: SelectConfig, input: seq<OptionInput>, next: nat, now: int, made: set<string>)
    requires Lawful(lib) && DistinctIds(c) && Unused(lib, c, next) && ItemsOk(lib, c, input)
    requires made == Generated(lib, next, next + NewCount(input)) && Foreign(made, c)
    ensures Conserved(c, Updated(lib, c, input, next, now), NamedIds(input), made, now)
  {
    ActiveFacts(lib, c, input, next, made);
    ReplacedConserves(c, ActiveOf(lib, input, next), NamedIds(input), made, now);
  }

  /** A new active list: different identifiers, each of them named from the old configuration or made. */
  ghost predicate Admitted(c: SelectConfig, active: seq<SelectOption>, named: set<string>, made: set<string>) {
    DistinctActive(active) && ActiveAre(active, named, made) && named <= AllIds(c) && Foreign(made, c)
  }

  lemma ReplacedConserves(c: SelectConfig, active: seq<SelectOption>, named: set<string>, made: set<string>, now: int)
    requires DistinctIds(c) && Admitted(c, active, named, made)
    ensures Conserved(c, Replaced(c, active, now), named, made, now)
  {
    UpdatedDeleted(c, IdSet(active), now);
    Regroup(c, Replaced(c, active, now), named, made, now);
  }

  lemma ActiveFacts(lib: Library, c: SelectConfig, input: seq<OptionInput>, next: nat, made: set<string>)
    requires Lawful(lib) && Unused(lib, c, next) && ItemsOk(lib, c, input)
    requires made == Generated(lib, next, next + NewCount(input)) && Foreign(made, c)
    ensures Admitted(c, ActiveOf(lib, input, next), NamedIds(input), made)
  {
    ActiveDistinct(lib, c, input, next);
    ActiveIdsAre(lib, input, next);
    NamedIdsKnown(lib, c, input);
  }

  lemma Regroup(c: SelectConfig, d: SelectConfig, named: set<string>, made: set<string>, now: int)
    requires ActiveAre(d.options, named, made) && named <= AllIds(c) && Foreign(made, c)
    requires DeletedIdSet(d.deletedOptions) == (DeletedIds(c) - IdSet(d.options)) + (ActiveIds(c) - IdSet(d.options))
    requires DistinctActive(d.options) && DistinctDeleted(d.deletedOptions) && DeletedAsBefore(c, d.deletedOptions, now)
    ensures Conserved(c, d, named, made, now)
  {
    SetsAre(d);
  }

  /** Deleted options are listed by time of deletion, then identifier. */
  lemma DeletedInOrder(lib: Library, c: SelectConfig, input: seq<OptionInput>, next: nat, now: int)
    requires DistinctIds(c)
    ensures Ascending(DeletedBefore, Updated(lib, c, input, next, now).deletedOptions)
  {
    var kept := IdSet(ActiveOf(lib, input, next));
    SetsAre(c);
    StillDeletedIds(c.deletedOptions, kept);
    RetiredIds(c.options, kept, now);
    ConcatDeleted(StillDeleted(c.deletedOptions, kept), Retired(c.options, kept, now));
    SortDeleted(StillDeleted(c.deletedOptions, kept) + Retired(c.options, kept, now));
  }

  lemma UpdatedDeleted(c: SelectConfig, kept: set<string>, now: int)
    requires DistinctIds(c)
    ensures var d := Sort(DeletedBefore, StillDeleted(c.deletedOptions, kept) + Retired(c.options, kept, now));
            && DeletedIdSet(d) == (DeletedIds(c) - kept) + (ActiveIds(c) - kept)
            && DistinctDeleted(d) && DeletedAsBefore(c, d, now)
  {
    var still, retired := StillDeleted(c.deletedOptions, kept), Retired(c.options, kept, now);
    SetsAre(c);
    StillDeletedIds(c.deletedOptions, kept);
    RetiredIds(c.options, kept, now);
    ConcatDeleted(still, retired);
    SortDeleted(still + retired);
    forall o | o in still + retired ensures o in c.deletedOptions || exists a | a in c.options :: o == Retire(a, now) {
      assert o in still || o in retired;
    }
  }

  lemma {:induction false} GeneratedApart(lib: Library, c: SelectConfig, first: nat, last: nat)
    requires Unused(lib, c, first)
    ensures Foreign(Generated(lib, first, last), c)
  {
    if first < last { GeneratedApart(lib, c, first, last - 1); }
  }

  // ----- well-formedness -----

  lemma {:induction false} DistinctSize(deleted: seq<DeletedOption>)
    requires DistinctDeleted(deleted)
    ensures |DeletedIdSet(deleted)| == |deleted|
  {
    if deleted != [] {
      var front, o := deleted[..|deleted| - 1], deleted[|deleted| - 1];
      assert deleted == front + [o];
      DistinctSize(front);
      DeletedIdSetMore(front, o);
      LastDeletedApart(deleted);
    }
  }

  lemma {:induction false} DistinctActiveSize(options: seq<SelectOption>)
    requires DistinctActive(options)
    ensures |IdSet(options)| == |options|
  {
    if options != [] {
      var front, o := options[..|options| - 1], options[|options| - 1];
      assert options == front + [o];
      DistinctActiveSize(front);
      IdSetMore(front, o);
      LastActiveApart(options);
    }
  }

  function Total(c: SelectConfig): nat {
    |c.options| + |c.deletedOptions|
  }

  /** With distinct identifiers, the option count is the identifier count. */
  lemma TotalIsIds(c: SelectConfig)
    requires DistinctIds(c)
    ensures Total(c) == |AllIds(c)| == |ActiveIds(c)| + |DeletedIds(c)|
  {
    SetsAre(c);
    DistinctSize(c.deletedOptions);
    DistinctActiveSize(c.options);
  }

  lemma {:induction false} NotYetGenerated(lib: Library, first: nat, last: nat, n: nat)
    requires Lawful(lib) && last <= n
    ensures lib.newOptionId(n) !in Generated(lib, first, last)
  {
    if first < last { NotYetGenerated(lib, first, last - 1, n); }
  }

  lemma {:induction false} GeneratedSize(lib: Library, first: nat, last: nat)
    requires Lawful(lib) && first <= last
    ensures |Generated(lib, first, last)| == last - first
  {
    if first < last {
      GeneratedSize(lib, first, last - 1);
      GeneratedMore(lib, first, last - 1);
      NotYetGenerated(lib, first, last - 1, last - 1);
      OneMoreCounts(Generated(lib, first, last - 1), lib.newOptionId(last - 1));
    }
  }

  lemma OneMoreCounts(ids: set<string>, id: string)
    requires id !in ids
    ensures |ids + {id}| == |ids| + 1
  {
  }

  lemma {:induction false} GeneratedTyped(lib: Library, first: nat, last: nat)
    requires Lawful(lib)
    ensures forall id | id in Generated(lib, first, last) :: lib.optionId(id)
  {
    if first < last { GeneratedTyped(lib, first, last - 1); }
  }

  /** Replacing the option list keeps the configuration well formed and adds exactly as many options as entries came
      without identifier. */
  lemma UpdateKeeps(lib: Library, c: SelectConfig, input: seq<OptionInput>, next: nat, now: int)
    requires Lawful(lib) && WellFormed(lib, c) && Unused(lib, c, next) && Acceptable(lib, c, input)
    ensures WellFormed(lib, Updated(lib, c, input, next, now))
    ensures Unused(lib, Updated(lib, c, input, next, now), next + NewCount(input))
    ensures Total(Updated(lib, c, input, next, now)) == Total(c) + NewCount(input)
  {
    UpdateUnused(lib, c, input, next, now);
    UpdateTotal(lib, c, input, next, now);
    RoomLeft(lib, c, input);
    UpdateWellFormed(lib, c, input, next, now);
  }

  lemma RoomLeft(lib: Library, c: SelectConfig, input: seq<OptionInput>)
    requires DistinctIds(c) && Acceptable(lib, c, input)
    ensures |input| <= MAX_ACTIVE && Total(c) + NewCount(input) <= MAX_TOTAL && ItemsOk(lib, c, input)
  {
    TotalIsIds(c);
  }

  /** The new active list together with the identifiers it names and those it makes, as plain sets. */
  lemma NewActive(lib: Library, c: SelectConfig, input: seq<OptionInput>, next: nat)
    returns (active: seq<SelectOption>, named: set<string>, made: set<string>)
    requires Lawful(lib) && Unused(lib, c, next) && ItemsOk(lib, c, input)
    ensures active == ActiveOf(lib, input, next) && Admitted(c, active, named, made)
    ensures SizedAs(made, NewCount(input)) && Made(lib, made, next + NewCount(input))
  {
    active, named := ActiveOf(lib, input, next), NamedIds(input);
    made := MadeIds(lib, next, NewCount(input));
    MadeForeign(lib, c, next, next + NewCount(input), made);
    ActiveFacts(lib, c, input, next, made);
  }

  ghost predicate SizedAs(ids: set<string>, n: nat) {
    |ids| == n
  }

  lemma MadeForeign(lib: Library, c: SelectConfig, first: nat, last: nat, made: set<string>)
    requires Unused(lib, c, first) && made == Generated(lib, first, last)
    ensures Foreign(made, c)
  {
    GeneratedApart(lib, c, first, last);
  }

  lemma MadeIds(lib: Library, first: nat, count: nat) returns (made: set<string>)
    requires Lawful(lib)
    ensures made == Generated(lib, first, first + count) && Made(lib, made, first + count) && SizedAs(made, count)
  {
    made := Generated(lib, first, first + count);
    GeneratedMade(lib, first, first + count);
  }

  /** Generated identifiers, all of them before number `last`. */
  ghost predicate Made(lib: Library, made: set<string>, last: nat) {
    (forall id | id in made :: lib.optionId(id)) && (forall n | n >= last :: lib.newOptionId(n) !in made)
  }

  lemma GeneratedMade(lib: Library, first: nat, last: nat)
    requires Lawful(lib) && first <= last
    ensures Made(lib, Generated(lib, first, last), last) && |Generated(lib, first, last)| == last - first
  {
    GeneratedTyped(lib, first, last);
    GeneratedSize(lib, first, last);
    forall n | n >= last ensures lib.newOptionId(n) !in Generated(lib, first, last) {
      NotYetGenerated(lib, first, last, n);
    }
  }

  lemma UpdateUnused(lib: Library, c: SelectConfig, input: seq<OptionInput>, next: nat, now: int)
    requires Lawful(lib) && DistinctIds(c) && Unused(lib, c, next) && ItemsOk(lib, c, input)
    ensures Unused(lib, Updated(lib, c, input, next, now), next + NewCount(input))
  {
    var active, named, made := NewActive(lib, c, input, next);
    ReplacedUnused(lib, c, active, named, made, next, next + NewCount(input), now);
  }

  lemma ReplacedUnused(lib: Library, c: SelectConfig, active: seq<SelectOption>, named: set<string>, made: set<string>,
                       first: nat, last: nat, now: int)
    requires DistinctIds(c) && Unused(lib, c, first) && first <= last && Made(lib, made, last)
    requires Admitted(c, active, named, made)
    ensures Unused(lib, Replaced(c, active, now), last)
  {
    ReplacedConserves(c, active, named, made, now);
  }

  lemma UpdateTotal(lib: Library, c: SelectConfig, input: seq<OptionInput>, next: nat, now: int)
    requires Lawful(lib) && DistinctIds(c) && Unused(lib, c, next) && ItemsOk(lib, c, input)
    ensures Total(Updated(lib, c, input, next, now)) == Total(c) + NewCount(input)
  {
    var active, named, made := NewActive(lib, c, input, next);
    ReplacedTotal(c, active, named, made, NewCount(input), now);
  }

  lemma ReplacedTotal(c: SelectConfig, active: seq<SelectOption>, named: set<string>, made: set<string>, n: nat, now: int)
    requires DistinctIds(c) && Admitted(c, active, named, made) && |made| == n
    ensures Total(Replaced(c, active, now)) == Total(c) + n
  {
    ReplacedConserves(c, active, named, made, now);
    ConservedTotal(c, Replaced(c, active, now), named, made, now);
  }

  lemma ConservedTotal(c: SelectConfig, d: SelectConfig, named: set<string>, made: set<string>, now: int)
    requires DistinctIds(c) && Conserved(c, d, named, made, now)
    ensures Total(d) == Total(c) + |made|
  {
    TotalIsIds(c);
    TotalIsIds(d);
    assert AllIds(d) == AllIds(c) + made;
  }

  lemma UpdateWellFormed(lib: Library, c: SelectConfig, input: seq<OptionInput>, next: nat, now: int)
    requires Lawful(lib) && WellFormed(lib, c) && Unused(lib, c, next) && ItemsOk(lib, c, input) && |input| <= MAX_ACTIVE
    requires Total(Updated(lib, c, input, next, now)) <= MAX_TOTAL
    ensures WellFormed(lib, Updated(lib, c, input, next, now))
  {
    UpdatedNames(lib, c, input, next);
    var active, named, made := NewActive(lib, c, input, next);
    ReplacedWellFormed(lib, c, active, named, made, next + NewCount(input), now);
  }

  lemma ReplacedWellFormed(lib: Library, c: SelectConfig, active: seq<SelectOption>, named: set<string>, made: set<string>,
                           last: nat, now: int)
    requires WellFormed(lib, c) && Admitted(c, active, named, made) && Made(lib, made, last)
    requires NamesOk(lib, active) && |active| <= MAX_ACTIVE && Total(Replaced(c, active, now)) <= MAX_TOTAL
    ensures WellFormed(lib, Replaced(c, active, now))
  {
    ReplacedConserves(c, active, named, made, now);
    DeletedNames(c, Replaced(c, active, now).deletedOptions, now);
  }

  ghost predicate NamesOk(lib: Library, options: seq<SelectOption>) {
    && (forall i, j | 0 <= i < j < |options| :: lib.fold(options[i].name) != lib.fold(options[j].name))
    && (forall o | o in options :: |o.name| <= 100)
  }

  lemma {:induction false} UpdatedNames(lib: Library, c: SelectConfig, input: seq<OptionInput>, next: nat)
    requires Lawful(lib) && ItemsOk(lib, c, input)
    ensures NamesOk(lib, ActiveOf(lib, input, next))
  {
    if input != [] {
      var front, last := input[..|input| - 1], input[|input| - 1];
      UpdatedNames(lib, c, front, next);
      ActiveNamesIn(lib, front, next);
      NamesMore(lib, c, front, last, ActiveOf(lib, front, next), OptionFor(lib, last, next + NewCount(front)));
    }
  }

  lemma {:induction false} ActiveNamesIn(lib: Library, input: seq<OptionInput>, next: nat)
    ensures forall o | o in ActiveOf(lib, input, next) :: exists p | p in input :: o.name == NameOf(lib, p)
  {
    if input != [] {
      var front, last := input[..|input| - 1], input[|input| - 1];
      ActiveNamesIn(lib, front, next);
      forall o | o in ActiveOf(lib, input, next) ensures exists p | p in input :: o.name == NameOf(lib, p) {
        if o in ActiveOf(lib, front, next) {
          var p :| p in front && o.name == NameOf(lib, p);
          assert p in input;
        } else {
          assert last in input && o.name == NameOf(lib, last);
        }
      }
    }
  }

  lemma NamesMore(lib: Library, c: SelectConfig, front: seq<OptionInput>, last: OptionInput, before: seq<SelectOption>, o: SelectOption)
    requires Lawful(lib) && NamesOk(lib, before) && Extends(lib, c, front, last) && o.name == NameOf(lib, last)
    requires forall q | q in before :: exists p | p in front :: q.name == NameOf(lib, p)
    ensures NamesOk(lib, before + [o])
  {
    forall i | 0 <= i < |before| ensures lib.fold(before[i].name) != lib.fold(o.name) {
      assert before[i] in before;
      var p :| p in front && before[i].name == NameOf(lib, p);
      assert Apart(lib, p, last);
    }
  }

  lemma DeletedNames(c: SelectConfig, deleted: seq<DeletedOption>, now: int)
    requires DeletedAsBefore(c, deleted, now)
    requires (forall o | o in c.options :: |o.name| <= 100) && (forall o | o in c.deletedOptions :: |o.name| <= 100)
    ensures forall o | o in deleted :: |o.name| <= 100
  {
  }

  // ----- any run of choices and updates -----

  datatype OptionState = OptionState(config: SelectConfig, next: nat)

  /** A choice resolved in a committed batch, or a submitted option list. */
  datatype OptionStep = Choose(input: ChoiceOption, previous: Value) | Replace(list: seq<OptionInput>, now: int)

  /** A refused step changes nothing. */
  function After(lib: Library, s: OptionState, step: OptionStep): OptionState {
    match step
    case Choose(input, previous) =>
      (match ResolveOption(lib, s.config, input, previous, s.next)
       case Ok(r) => OptionState(r.config, r.next)
       case Err(_) => s)
    case Replace(list, now) =>
      if Acceptable(lib, s.config, list) then
        OptionState(Updated(lib, s.config, list, s.next, now), s.next + NewCount(list))
      else s
  }

  function AfterAll(lib: Library, s: OptionState, steps: seq<OptionStep>): OptionState {
    if steps == [] then s else After(lib, AfterAll(lib, s, steps[..|steps| - 1]), steps[|steps| - 1])
  }

  ghost predicate Sound(lib: Library, s: OptionState) {
    WellFormed(lib, s.config) && Unused(lib, s.config, s.next)
  }

  /** Nothing is lost between two states, and every identifier generated in between became an option. */
  ghost predicate Conserves(s: OptionState, u: OptionState) {
    && AllIds(s.config) <= AllIds(u.config) && s.next <= u.next
    && Total(u.config) - Total(s.config) == u.next - s.next
  }

  lemma StepConserves(lib: Library, s: OptionState, step: OptionStep)
    requires Lawful(lib) && Sound(lib, s)
    ensures Sound(lib, After(lib, s, step)) && Conserves(s, After(lib, s, step))
  {
    match step
    case Choose(input, previous) =>
      if ResolveOption(lib, s.config, input, previous, s.next).Ok? {
        ChooseConserves(lib, s, input, previous);
      }
    case Replace(list, now) =>
      if Acceptable(lib, s.config, list) {
        UpdateKeeps(lib, s.config, list, s.next, now);
        UpdateLosesNone(lib, s.config, list, s.next, now);
      }
  }

  lemma ChooseConserves(lib: Library, s: OptionState, input: ChoiceOption, previous: Value)
    requires Lawful(lib) && Sound(lib, s) && ResolveOption(lib, s.config, input, previous, s.next).Ok?
    ensures var u := After(lib, s, Choose(input, previous)); Sound(lib, u) && Conserves(s, u)
  {
    ResolveOptionKeeps(lib, s.config, input, previous, s.next);
    GrownKeeps(s.config, After(lib, s, Choose(input, previous)).config);
  }

  lemma UpdateLosesNone(lib: Library, c: SelectConfig, input: seq<OptionInput>, next: nat, now: int)
    requires Lawful(lib) && DistinctIds(c) && Unused(lib, c, next) && ItemsOk(lib, c, input)
    ensures AllIds(c) <= AllIds(Updated(lib, c, input, next, now))
  {
    var made := UpdateConserves(lib, c, input, next, now);
  }

  /** Over any run: the configuration stays well formed, no identity disappears, and the options added are exactly
      the identifiers generated. */
  lemma {:induction false} RunConserves(lib: Library, s: OptionState, steps: seq<OptionStep>)
    requires Lawful(lib) && Sound(lib, s)
    ensures Sound(lib, AfterAll(lib, s, steps)) && Conserves(s, AfterAll(lib, s, steps))
  {
    if steps != [] {
      var front := steps[..|steps| - 1];
      RunConserves(lib, s, front);
      StepConserves(lib, AfterAll(lib, s, front), steps[|steps| - 1]);
    }
  }

  /** So no stored cell is ever left pointing at nothing. */
  lemma StoredStaysStored(lib: Library, s: OptionState, steps: seq<OptionStep>, v: Value, t: FieldType)
    requires Lawful(lib) && Sound(lib, s) && IsChoice(t) && Stored(lib, v, t, Choices(s.config))
    ensures Stored(lib, v, t, Choices(AfterAll(lib, s, steps).config))
  {
    RunConserves(lib, s, steps);
    var d := AfterAll(lib, s, steps).config;
    forall id | KnownOption(s.config, id) ensures KnownOption(d, id) {
      assert id in AllIds(d);
    }
  }

  // ----- a new field's option list -----

  const EMPTY := SelectConfig([], [])

  /** In a new field's list no entry may name an option, so it passes the test of an empty configuration exactly when
      its names are good and pairwise different. */
  lemma NewItemsMean(lib: Library, input: seq<OptionInput>)
    ensures ItemsOk(lib, EMPTY, input) <==>
              && (forall i | 0 <= i < |input| :: WellNamed(lib, input[i]) && input[i].id.None?)
              && (forall i, j | 0 <= i < j < |input| :: lib.fold(NameOf(lib, input[i])) != lib.fold(NameOf(lib, input[j])))
  {
    assert AllIds(EMPTY) == {};
    ItemsOkMeans(lib, EMPTY, input);
    if ItemsOk(lib, EMPTY, input) {
      forall i, j | 0 <= i < j < |input| ensures lib.fold(NameOf(lib, input[i])) != lib.fold(NameOf(lib, input[j])) {
        assert Apart(lib, input[i], input[j]);
      }
    }
  }

  /** What creation accepts is well formed: where every run starts. */
  lemma NewConfigIsSound(lib: Library, input: seq<OptionInput>, next: nat)
    requires Lawful(lib) && |input| <= MAX_ACTIVE && ItemsOk(lib, EMPTY, input)
    ensures Sound(lib, OptionState(SelectConfig(ActiveOf(lib, input, next), []), next + NewCount(input)))
  {
    assert AllIds(EMPTY) == {};
    TotalIsIds(EMPTY);
    UpdateKeeps(lib, EMPTY, input, next, 0);
  }

  method NormalizeNewSelectConfig(lib: Library, input: seq<OptionInput>, next: nat)
    returns (result: Option<SelectConfig>, next': nat)
    ensures result.Some? <==> |input| <= MAX_ACTIVE && ItemsOk(lib, EMPTY, input)
    ensures result.Some? ==> result.value == SelectConfig(ActiveOf(lib, input, next), []) && next' == next + NewCount(input)
  {
    if |input| > MAX_ACTIVE {
      return None, next;
    }
    assert AllIds(EMPTY) == {};
    var options: seq<SelectOption> := [];
    var ok, made, seenNames: set<string> := true, 0, {};
    ghost var seenIds: set<string> := {};
    var index := 0;
    while index < |input|
      invariant 0 <= index <= |input|
      invariant ok ==> ItemsOk(lib, EMPTY, input[..index])
      invariant ok ==> Scanned(lib, input[..index], next, options, seenIds, seenNames, made)
      invariant !ok ==> !ItemsOk(lib, EMPTY, input)
    {
      var option := input[index];
      SlicePlus(input, index);
      if ok {
        ScanStep(lib, EMPTY, input[..index], option, next, options, seenIds, seenNames, made);
        ItemsPrefix(lib, EMPTY, input, index + 1);
      }
      if option.id.Some? || !WellNamed(lib, option) || lib.fold(NameOf(lib, option)) in seenNames {
        ok := false;
      } else {
        seenNames := seenNames + {lib.fold(NameOf(lib, option))};
        seenIds := seenIds + {lib.newOptionId(next + made)};
        options := options + [OptionFor(lib, option, next + made)];
        made := made + 1;
      }
      index := index + 1;
    }
    SliceAll(input);
    return if ok then Some(SelectConfig(options, [])) else None, next + made;
  }
}
