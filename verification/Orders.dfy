/** Sorting with respect to a caller-supplied order, and the fact every caller needs:
    a strictly ascending sequence is determined by the set of its elements. */
module Orders {

  /** `less` is a strict total order on the elements of `s`. */
  ghost predicate TotalOn<T(!new)>(less: (T, T) -> bool, s: set<T>) {
    && (forall x | x in s :: !less(x, x))
    && (forall x, y, z | x in s && y in s && z in s :: less(x, y) && less(y, z) ==> less(x, z))
    && (forall x, y | x in s && y in s :: less(x, y) || x == y || less(y, x))
  }

  ghost function Elements<T(!new)>(s: seq<T>): set<T> {
    set x | x in s
  }

  /** Strictly ascending: no element twice. */
  ghost predicate Ascending<T(!new)>(less: (T, T) -> bool, s: seq<T>) {
    forall i, j | 0 <= i < j < |s| :: less(s[i], s[j])
  }

  /** Ascending with ties allowed. */
  ghost predicate Sorted<T(!new)>(less: (T, T) -> bool, s: seq<T>) {
    forall i, j | 0 <= i < j < |s| :: !less(s[j], s[i])
  }

  ghost predicate Distinct<T(!new)>(s: seq<T>) {
    forall i, j | 0 <= i < j < |s| :: s[i] != s[j]
  }

  function Insert<T>(less: (T, T) -> bool, x: T, s: seq<T>): (r: seq<T>)
    ensures multiset(r) == multiset(s) + multiset{x}
  {
    if s == [] || less(x, s[0]) then
      assert [x] + s == [x] + s;
      [x] + s
    else
      assert s == [s[0]] + s[1..];
      [s[0]] + Insert(less, x, s[1..])
  }

  function Sort<T>(less: (T, T) -> bool, s: seq<T>): (r: seq<T>)
    ensures multiset(r) == multiset(s)
    ensures |r| == |s|
  {
    if s == [] then []
    else
      assert s == [s[0]] + s[1..];
      var r := Insert(less, s[0], Sort(less, s[1..]));
      assert |r| == |multiset(r)| == |multiset(s)| == |s|;
      r
  }

  lemma {:induction false} CardinalityMonotone<T>(a: set<T>, b: set<T>)
    requires a <= b
    ensures |a| <= |b|
  {
    if x :| x in a {
      CardinalityMonotone(a - {x}, b - {x});
    }
  }

  lemma SameElements<T(!new)>(a: seq<T>, b: seq<T>)
    requires multiset(a) == multiset(b)
    ensures Elements(a) == Elements(b)
  {
    forall x ensures x in a <==> x in b {
      assert x in a <==> x in multiset(a);
      assert x in b <==> x in multiset(b);
    }
  }

  lemma {:induction false} InsertSorted<T(!new)>(less: (T, T) -> bool, x: T, s: seq<T>)
    requires TotalOn(less, Elements(s) + {x})
    requires Sorted(less, s)
    ensures Sorted(less, Insert(less, x, s))
  {
    if s != [] && !less(x, s[0]) {
      var rest := Insert(less, x, s[1..]);
      InsertSorted(less, x, s[1..]);
      forall k | 0 <= k < |rest| ensures !less(rest[k], s[0]) {
        InsertMember(less, x, s[1..], rest[k]);
      }
    }
  }

  lemma InsertMember<T(!new)>(less: (T, T) -> bool, x: T, s: seq<T>, y: T)
    ensures y in Insert(less, x, s) ==> y in s || y == x
  {
    if y in Insert(less, x, s) {
      assert y in multiset(Insert(less, x, s));
      assert y in multiset(s) + multiset{x};
    }
  }

  lemma {:induction false} SortSorted<T(!new)>(less: (T, T) -> bool, s: seq<T>)
    requires TotalOn(less, Elements(s))
    ensures Sorted(less, Sort(less, s))
  {
    if s != [] {
      SortSorted(less, s[1..]);
      var rest := Sort(less, s[1..]);
      SameElements(rest, s[1..]);
      assert Elements(rest) + {s[0]} == Elements(s);
      InsertSorted(less, s[0], rest);
    }
  }

  /** Sorting a duplicate-free sequence gives a strictly ascending one with the same elements. */
  lemma SortAscending<T(!new)>(less: (T, T) -> bool, s: seq<T>)
    requires TotalOn(less, Elements(s))
    requires Distinct(s)
    ensures Ascending(less, Sort(less, s))
    ensures Elements(Sort(less, s)) == Elements(s)
  {
    var r := Sort(less, s);
    SortSorted(less, s);
    SameElements(r, s);
    DistinctMultiset(s);
    forall i, j | 0 <= i < j < |r| ensures less(r[i], r[j]) {
      if r[i] == r[j] {
        RepeatedMultiset(r, i, j);
        assert false;
      }
    }
  }

  lemma {:induction false} DistinctMultiset<T(!new)>(s: seq<T>)
    requires Distinct(s)
    ensures forall x :: multiset(s)[x] <= 1
  {
    if s != [] {
      DistinctMultiset(s[1..]);
      assert s == [s[0]] + s[1..];
      assert s[0] !in s[1..];
    }
  }

  lemma RepeatedMultiset<T(!new)>(s: seq<T>, i: nat, j: nat)
    requires i < j < |s| && s[i] == s[j]
    ensures multiset(s)[s[i]] >= 2
  {
    assert s == s[..j] + s[j..];
    assert s[j..] == [s[j]] + s[j + 1..];
    assert s[i] in s[..j];
  }

  /** Two strictly ascending sequences over the same set are equal. */
  lemma {:induction false} AscendingUnique<T(!new)>(less: (T, T) -> bool, a: seq<T>, b: seq<T>)
    requires TotalOn(less, Elements(a))
    requires Ascending(less, a) && Ascending(less, b)
    requires Elements(a) == Elements(b)
    ensures a == b
  {
    assert b != [] ==> b[0] in Elements(b);
    if a != [] {
      assert a[0] in Elements(b);
      var j :| 0 <= j < |b| && b[j] == a[0];
      assert b[0] in Elements(a);
      var i :| 0 <= i < |a| && a[i] == b[0];
      assert a[0] == b[0];
      forall x ensures x in Elements(a[1..]) <==> x in Elements(b[1..]) {
        if x in a[1..] {
          var k :| 0 <= k < |a[1..]| && a[1..][k] == x;
          assert less(a[0], a[k + 1]);
          assert x in Elements(b);
          var m :| 0 <= m < |b| && b[m] == x;
          assert b[1..][m - 1] == x;
        }
        if x in b[1..] {
          var k :| 0 <= k < |b[1..]| && b[1..][k] == x;
          assert less(b[0], b[k + 1]);
          assert x in Elements(a);
          var m :| 0 <= m < |a| && a[m] == x;
          assert a[1..][m - 1] == x;
        }
      }
      AscendingUnique(less, a[1..], b[1..]);
    }
  }

  /** Code-point order on strings, as Go's `<` and sort.Strings use it. */
  predicate StringLess(a: string, b: string) {
    if b == [] then false
    else if a == [] then true
    else a[0] < b[0] || (a[0] == b[0] && StringLess(a[1..], b[1..]))
  }

  lemma {:induction false} StringLessTrans(a: string, b: string, c: string)
    requires StringLess(a, b) && StringLess(b, c)
    ensures StringLess(a, c)
  {
    if a != [] && a[0] == b[0] && b[0] == c[0] {
      StringLessTrans(a[1..], b[1..], c[1..]);
    }
  }

  lemma {:induction false} StringLessTotal(a: string, b: string)
    ensures !StringLess(a, a)
    ensures StringLess(a, b) || a == b || StringLess(b, a)
  {
    if a != [] {
      StringLessTotal(a[1..], if b == [] then [] else b[1..]);
      if b != [] && a[0] == b[0] && a[1..] == b[1..] {
        assert a == [a[0]] + a[1..] == b;
      }
    }
  }

  lemma StringOrder(s: set<string>)
    ensures TotalOn(StringLess, s)
  {
    forall x, y | x in s && y in s
      ensures !StringLess(x, x)
      ensures StringLess(x, y) || x == y || StringLess(y, x)
    {
      StringLessTotal(x, y);
    }
    forall x, y, z | x in s && y in s && z in s && StringLess(x, y) && StringLess(y, z)
      ensures StringLess(x, z)
    {
      StringLessTrans(x, y, z);
    }
  }

  predicate IsLeast(m: string, s: set<string>) {
    m in s && forall x | x in s && x != m :: StringLess(m, x)
  }

  lemma {:induction false} HasLeast(s: set<string>)
    requires s != {}
    ensures exists m :: IsLeast(m, s)
  {
    assert (forall y :: y !in s) ==> s == {};
    var y :| y in s;
    var rest := s - {y};
    if rest != {} {
      HasLeast(rest);
      var m :| IsLeast(m, rest);
      LeastOfMore(s, y, m);
    } else {
      forall x | x in s ensures x == y {
        assert x !in rest;
      }
      assert IsLeast(y, s);
    }
  }

  lemma LeastOfMore(s: set<string>, y: string, m: string)
    requires y in s && IsLeast(m, s - {y})
    ensures exists least :: IsLeast(least, s)
  {
    StringLessTotal(y, m);
    var least := if StringLess(y, m) then y else m;
    forall x | x in s && x != least ensures StringLess(least, x) {
      if x != y && x != m && least == y {
        assert x in s - {y};
        StringLessTrans(y, m, x);
      }
    }
    assert IsLeast(least, s);
  }

  lemma LeastIsOne(s: set<string>)
    ensures forall m, n | IsLeast(m, s) && IsLeast(n, s) :: m == n
  {
    forall m, n | IsLeast(m, s) && IsLeast(n, s) ensures m == n {
      if m != n {
        StringLessTotal(m, m);
        StringLessTrans(m, n, m);
        assert false;
      }
    }
  }

  /** The elements of a set in code-point order. */
  function SortedSet(s: set<string>): (r: seq<string>)
    ensures |r| == |s|
  {
    if s == {} then []
    else
      HasLeast(s);
      LeastIsOne(s);
      var m :| IsLeast(m, s);
      [m] + SortedSet(s - {m})
  }

  lemma {:induction false} SortedSetElements(s: set<string>)
    ensures Elements(SortedSet(s)) == s
    ensures forall x :: x in SortedSet(s) <==> x in s
    ensures Ascending(StringLess, SortedSet(s)) && Distinct(SortedSet(s))
  {
    if s != {} {
      HasLeast(s);
      LeastIsOne(s);
      var m, rest := SortedSet(s)[0], SortedSet(s)[1..];
      assert IsLeast(m, s);
      SortedSetElements(s - {m});
      LeastFirst(s, m, rest);
      assert SortedSet(s) == [m] + rest;
    }
  }

  lemma LeastFirst(s: set<string>, m: string, rest: seq<string>)
    requires IsLeast(m, s) && Elements(rest) == s - {m} && Ascending(StringLess, rest) && Distinct(rest)
    ensures Elements([m] + rest) == s && (forall x :: x in [m] + rest <==> x in s)
    ensures Ascending(StringLess, [m] + rest) && Distinct([m] + rest)
  {
    forall x ensures x in [m] + rest <==> x in s {
      assert x in rest <==> x in Elements(rest);
    }
    forall i | 0 <= i < |rest| ensures StringLess(m, rest[i]) && m != rest[i] {
      assert rest[i] in Elements(rest);
    }
  }

  lemma SortedSetMembers(s: set<string>)
    ensures forall x :: x in SortedSet(s) <==> x in s
  {
    SortedSetElements(s);
  }
}
