/** `Array.prototype.sort` with a comparator, as ECMAScript 2019 and later define it:
    a stable sort. The comparator returns a number whose sign orders two elements. */
module Sorting {
  import opened Seqs

  /** `a` may stand before `b`: the comparator does not ask to swap them. */
  predicate NotAfter<T>(cmp: (T, T) -> int, a: T, b: T) {
    cmp(a, b) <= 0
  }

  /** `cmp` is a consistent comparator: swapping its arguments flips the sign of its
      result, and "not after" is transitive. Only for such comparators does the
      language pin down the order that `sort` produces. */
  ghost predicate IsComparator<T(!new)>(cmp: (T, T) -> int) {
    && (forall a, b :: cmp(a, b) < 0 <==> cmp(b, a) > 0)
    && (forall a, b, c {:trigger NotAfter(cmp, a, b), NotAfter(cmp, b, c)}
          :: NotAfter(cmp, a, b) && NotAfter(cmp, b, c) ==> NotAfter(cmp, a, c))
  }

  /** No element of `s` comes after a later one under `cmp`. */
  ghost predicate SortedBy<T>(s: seq<T>, cmp: (T, T) -> int) {
    forall i, j :: 0 <= i < j < |s| ==> NotAfter(cmp, s[i], s[j])
  }

  /** The elements of `s` that `cmp` ranks equal to `x`, in their order in `s`. */
  function EqualKeys<T>(s: seq<T>, x: T, cmp: (T, T) -> int): seq<T> {
    if s == [] then [] else (if cmp(s[0], x) == 0 then [s[0]] else []) + EqualKeys(s[1..], x, cmp)
  }

  /** `EqualKeys` is the filter by any predicate that picks exactly the elements equal to `x`. */
  lemma {:induction false} EqualKeysIsFilter<T>(s: seq<T>, x: T, cmp: (T, T) -> int, p: T -> bool)
    requires forall i :: 0 <= i < |s| ==> (p(s[i]) <==> cmp(s[i], x) == 0)
    ensures EqualKeys(s, x, cmp) == Filter(s, p)
  {
    if s != [] {
      assert forall i :: 0 <= i < |s[1..]| ==> s[1..][i] == s[i + 1];
      EqualKeysIsFilter(s[1..], x, cmp, p);
    }
  }

  /** Inserts `x` before the first element of `s` that it does not come after. */
  function Insert<T>(x: T, s: seq<T>, cmp: (T, T) -> int): (r: seq<T>)
    ensures multiset(r) == multiset(s) + multiset{x}
  {
    if s == [] || cmp(x, s[0]) <= 0 then [x] + s
    else
      assert s == [s[0]] + s[1..];
      [s[0]] + Insert(x, s[1..], cmp)
  }

  lemma {:induction false} InsertSorted<T(!new)>(x: T, s: seq<T>, cmp: (T, T) -> int)
    requires IsComparator(cmp) && SortedBy(s, cmp)
    ensures SortedBy(Insert(x, s, cmp), cmp)
  {
    if s != [] && cmp(x, s[0]) > 0 {
      var t := Insert(x, s[1..], cmp);
      InsertSorted(x, s[1..], cmp);
      var r := Insert(x, s, cmp);
      assert r == [s[0]] + t;
      forall i, j | 0 <= i < j < |r| ensures NotAfter(cmp, r[i], r[j]) {
        if i == 0 {
          var e := t[j - 1];
          assert e in multiset(t);
          if e != x {
            assert e in multiset(s[1..]);
            var k :| 0 <= k < |s[1..]| && s[1..][k] == e;
            assert s[k + 1] == e;
          }
        } else {
          assert r[i] == t[i - 1] && r[j] == t[j - 1];
        }
      }
    } else if s != [] {
      var r := Insert(x, s, cmp);
      assert r == [x] + s;
      forall i, j | 0 <= i < j < |r| ensures NotAfter(cmp, r[i], r[j]) {
        if i == 0 && j > 1 {
          assert NotAfter(cmp, x, s[0]) && NotAfter(cmp, s[0], s[j - 1]);
        }
      }
    }
  }

  /** Inserting `x` puts it first among the elements equal to it and moves no other element
      relative to its equals. */
  lemma {:induction false} InsertEqualKeys<T(!new)>(x: T, s: seq<T>, y: T, cmp: (T, T) -> int)
    requires IsComparator(cmp)
    ensures EqualKeys(Insert(x, s, cmp), y, cmp)
         == if cmp(x, y) == 0 then [x] + EqualKeys(s, y, cmp) else EqualKeys(s, y, cmp)
  {
    var r := Insert(x, s, cmp);
    if s == [] || cmp(x, s[0]) <= 0 {
      assert r[0] == x && r[1..] == s;
      assert EqualKeys(r, y, cmp) == (if cmp(x, y) == 0 then [x] else []) + EqualKeys(s, y, cmp);
    } else {
      var t := Insert(x, s[1..], cmp);
      InsertEqualKeys(x, s[1..], y, cmp);
      assert r[0] == s[0] && r[1..] == t;
      var head := if cmp(s[0], y) == 0 then [s[0]] else [];
      assert EqualKeys(r, y, cmp) == head + EqualKeys(t, y, cmp);
      assert EqualKeys(s, y, cmp) == head + EqualKeys(s[1..], y, cmp);
      if cmp(x, y) == 0 {
        if cmp(s[0], y) == 0 {
          assert NotAfter(cmp, x, y) && NotAfter(cmp, y, s[0]);
          assert false;
        }
        assert head == [];
        assert EqualKeys(r, y, cmp) == [x] + EqualKeys(s[1..], y, cmp);
      } else {
        assert EqualKeys(r, y, cmp) == head + EqualKeys(s[1..], y, cmp);
      }
    }
  }

  /** The stable sort: a permutation of `s`, ordered by `cmp`, in which elements that
      compare equal keep their relative order from `s`. */
  function Sort<T(!new)>(s: seq<T>, cmp: (T, T) -> int): (r: seq<T>)
    ensures multiset(r) == multiset(s) && |r| == |s|
    ensures IsComparator(cmp) ==> SortedBy(r, cmp)
    ensures IsComparator(cmp) ==> forall y :: EqualKeys(r, y, cmp) == EqualKeys(s, y, cmp)
  {
    if s == [] then []
    else
      var t := Sort(s[1..], cmp);
      assert s == [s[0]] + s[1..];
      InsertSortedIfComparator(s[0], t, cmp);
      InsertEqualKeysIfComparator(s[0], s, t, cmp);
      Insert(s[0], t, cmp)
  }

  lemma InsertSortedIfComparator<T(!new)>(x: T, s: seq<T>, cmp: (T, T) -> int)
    ensures IsComparator(cmp) && SortedBy(s, cmp) ==> SortedBy(Insert(x, s, cmp), cmp)
  {
    if IsComparator(cmp) && SortedBy(s, cmp) {
      InsertSorted(x, s, cmp);
    }
  }

  lemma InsertEqualKeysIfComparator<T(!new)>(x: T, s: seq<T>, t: seq<T>, cmp: (T, T) -> int)
    requires s != [] && x == s[0]
    ensures IsComparator(cmp) && (forall y :: EqualKeys(t, y, cmp) == EqualKeys(s[1..], y, cmp))
         ==> forall y :: EqualKeys(Insert(x, t, cmp), y, cmp) == EqualKeys(s, y, cmp)
  {
    if IsComparator(cmp) && (forall y :: EqualKeys(t, y, cmp) == EqualKeys(s[1..], y, cmp)) {
      forall y ensures EqualKeys(Insert(x, t, cmp), y, cmp) == EqualKeys(s, y, cmp) {
        InsertEqualKeys(x, t, y, cmp);
      }
    }
  }
}
