/** Strict total orders, least elements and sorted listings.
    The catalog keeps its names and keys in ordered trees; everything the ordering is used for
    (prefix probes, rank precedence, sorted output) is stated with the notions of this module. */
module Order {
  type Name = string

  ghost predicate StrictTotal<T(!new)>(less: (T, T) -> bool) {
    && (forall x: T :: !less(x, x))
    && (forall x: T, y: T, z: T :: less(x, y) && less(y, z) ==> less(x, z))
    && (forall x: T, y: T :: x == y || less(x, y) || less(y, x))
  }

  ghost predicate Ascending<T(!new)>(less: (T, T) -> bool, s: seq<T>) {
    forall i, j | 0 <= i < j < |s| :: less(s[i], s[j])
  }

  ghost predicate IsLeast<T>(less: (T, T) -> bool, s: set<T>, m: T) {
    m in s && forall x | x in s :: x == m || less(m, x)
  }

  /** Every nonempty finite set has a least element. */
  lemma {:induction false} HasLeast<T(!new)>(less: (T, T) -> bool, s: set<T>)
    requires StrictTotal(less) && s != {}
    ensures exists m :: IsLeast(less, s, m)
    decreases |s|
  {
    var x :| x in s;
    if s == {x} {
      assert IsLeast(less, s, x);
    } else {
      HasLeast(less, s - {x});
      var n :| IsLeast(less, s - {x}, n);
      var m := if less(x, n) then x else n;
      forall y | y in s ensures y == m || less(m, y) {
        if y != x { assert y in s - {x}; }
      }
      assert IsLeast(less, s, m);
    }
  }

  ghost function Least<T(!new)>(less: (T, T) -> bool, s: set<T>): (m: T)
    requires StrictTotal(less) && s != {}
    ensures IsLeast(less, s, m)
  {
    HasLeast(less, s);
    var m :| IsLeast(less, s, m);
    m
  }

  lemma LeastIsUnique<T(!new)>(less: (T, T) -> bool, s: set<T>, m: T)
    requires StrictTotal(less) && IsLeast(less, s, m)
    ensures Least(less, s) == m
  {
    var l := Least(less, s);
    assert (l == m || less(l, m)) && (m == l || less(m, l));
  }

  /** The elements of a set in ascending order: what iterating an ordered tree yields. */
  ghost function Listing<T(!new)>(less: (T, T) -> bool, s: set<T>): (l: seq<T>)
    requires StrictTotal(less)
    ensures Ascending(less, l)
    ensures forall x :: x in l <==> x in s
    decreases |s|
  {
    if s == {} then []
    else
      var m := Least(less, s);
      [m] + Listing(less, s - {m})
  }

  /** An ascending sequence is determined by its elements. */
  lemma {:induction false} AscendingUnique<T(!new)>(less: (T, T) -> bool, a: seq<T>, b: seq<T>)
    requires StrictTotal(less) && Ascending(less, a) && Ascending(less, b)
    requires forall x :: x in a <==> x in b
    ensures a == b
    decreases |a|
  {
    assert b != [] ==> b[0] in b;
    if a != [] {
      assert a[0] in b && b != [];
      assert b[0] in a;
      var i :| 0 <= i < |b| && b[i] == a[0];
      var j :| 0 <= j < |a| && a[j] == b[0];
      assert a[0] == b[0] by {
        assert forall k | 0 < k < |b| :: less(b[0], b[k]);
        assert forall k | 0 < k < |a| :: less(a[0], a[k]);
      }
      forall x ensures x in a[1..] <==> x in b[1..] {
        if x in a[1..] {
          var k :| 1 <= k < |a| && a[k] == x;
          assert less(a[0], x);
          assert x in b;
        }
        if x in b[1..] {
          var k :| 1 <= k < |b| && b[k] == x;
          assert less(b[0], x);
          assert x in a;
        }
      }
      AscendingUnique(less, a[1..], b[1..]);
      assert a == [a[0]] + a[1..] && b == [b[0]] + b[1..];
    }
  }

  /** A loop that keeps taking the least remaining element produces the listing. */
  lemma AppendLeast<T(!new)>(less: (T, T) -> bool, done: seq<T>, rest: set<T>, m: T)
    requires StrictTotal(less) && Ascending(less, done) && IsLeast(less, rest, m)
    requires forall x, y | x in done && y in rest :: less(x, y)
    ensures Ascending(less, done + [m])
    ensures forall x, y | x in done + [m] && y in rest - {m} :: less(x, y)
  {
  }

  lemma ListingUnique<T(!new)>(less: (T, T) -> bool, s: set<T>, l: seq<T>)
    requires StrictTotal(less) && Ascending(less, l)
    requires forall x :: x in l <==> x in s
    ensures l == Listing(less, s)
  {
    AscendingUnique(less, l, Listing(less, s));
  }

  // ----- names: lexicographic comparison -----

  predicate NameLess(a: Name, b: Name) {
    b != "" && (a == "" || a[0] < b[0] || (a[0] == b[0] && NameLess(a[1..], b[1..])))
  }

  lemma {:induction false} NameLessTransitive(a: Name, b: Name, c: Name)
    requires NameLess(a, b) && NameLess(b, c)
    ensures NameLess(a, c)
    decreases |a|
  {
    if a != "" && a[0] == b[0] && b[0] == c[0] { NameLessTransitive(a[1..], b[1..], c[1..]); }
  }

  lemma {:induction false} NameLessIrreflexive(a: Name)
    ensures !NameLess(a, a)
    decreases |a|
  {
    if a != "" { NameLessIrreflexive(a[1..]); }
  }

  lemma {:induction false} NameLessTotal(a: Name, b: Name)
    ensures a == b || NameLess(a, b) || NameLess(b, a)
    decreases |a|
  {
    if a != "" && b != "" && a[0] == b[0] {
      NameLessTotal(a[1..], b[1..]);
      assert a == [a[0]] + a[1..] && b == [b[0]] + b[1..];
    }
  }

  lemma NamesAreOrdered()
    ensures StrictTotal(NameLess)
  {
    forall x: Name ensures !NameLess(x, x) { NameLessIrreflexive(x); }
    forall x: Name, y: Name, z: Name | NameLess(x, y) && NameLess(y, z) ensures NameLess(x, z) {
      NameLessTransitive(x, y, z);
    }
    forall x: Name, y: Name ensures x == y || NameLess(x, y) || NameLess(y, x) { NameLessTotal(x, y); }
  }

  // ----- duplicate-free sequences -----

  ghost predicate Distinct<T>(s: seq<T>) {
    forall i, j | 0 <= i < j < |s| :: s[i] != s[j]
  }

  ghost function Elements<T>(s: seq<T>): set<T> { set x | x in s }

  /** A duplicate-free sequence is as long as its element set is large. */
  lemma {:induction false} DistinctSize<T>(s: seq<T>)
    requires Distinct(s)
    ensures |s| == |Elements(s)|
    decreases |s|
  {
    if s == [] {
      assert Elements(s) == {};
    } else {
      var last := |s| - 1;
      DistinctSize(s[..last]);
      assert s == s[..last] + [s[last]];
      assert Elements(s) == Elements(s[..last]) + {s[last]};
      assert s[last] !in s[..last];
    }
  }

  lemma AscendingIsDistinct<T(!new)>(less: (T, T) -> bool, s: seq<T>)
    requires StrictTotal(less) && Ascending(less, s)
    ensures Distinct(s)
  {
    forall i, j | 0 <= i < j < |s| ensures s[i] != s[j] { assert less(s[i], s[j]); }
  }

  lemma ListingSize<T(!new)>(less: (T, T) -> bool, s: set<T>)
    requires StrictTotal(less)
    ensures |Listing(less, s)| == |s|
  {
    var l := Listing(less, s);
    AscendingIsDistinct(less, l);
    DistinctSize(l);
    assert Elements(l) == s;
  }

  /** A sequence is duplicate-free exactly when it holds nothing twice, in whatever order. */
  lemma {:induction false} DistinctCounts<T>(s: seq<T>)
    requires Distinct(s)
    ensures forall x :: multiset(s)[x] <= 1
    decreases |s|
  {
    if s != [] {
      var front, last := s[..|s| - 1], s[|s| - 1];
      DistinctCounts(front);
      assert s == front + [last] && last !in front;
      assert multiset(front)[last] == 0;
    }
  }

  lemma CountsDistinct<T>(s: seq<T>)
    requires forall x :: multiset(s)[x] <= 1
    ensures Distinct(s)
  {
    forall i, j | 0 <= i < j < |s| ensures s[i] != s[j] {
      assert s == s[..j] + s[j..] && s[i] in s[..j] && s[j] in s[j..];
      assert multiset(s)[s[i]] == multiset(s[..j])[s[i]] + multiset(s[j..])[s[i]];
    }
  }

  lemma InsertedOnce<T>(s: seq<T>, at: nat, x: T)
    requires at <= |s|
    ensures multiset(s[..at] + [x] + s[at..]) == multiset(s) + multiset{x}
  {
    assert s == s[..at] + s[at..];
  }
}
