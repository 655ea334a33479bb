/** Text order, and the sort that the Go library provides, as functions.
    `Sort` stands for sort.Slice: the library promises a sorted permutation, and every use
    in this project sorts by a strict order whose ties are identical elements. */
module Ordering {

  datatype Option<+T> = None | Some(value: T)

  /** Go's `<` on strings and SQLite's BINARY comparison: lexicographic by character. */
  predicate TextLess(a: string, b: string) {
    b != "" && (a == "" || a[0] < b[0] || (a[0] == b[0] && TextLess(a[1..], b[1..])))
  }

  lemma TextLessIrreflexive(a: string)
    ensures !TextLess(a, a)
  {
  }

  lemma {:induction false} TextLessTransitive(a: string, b: string, c: string)
    requires TextLess(a, b) && TextLess(b, c)
    ensures TextLess(a, c)
  {
    if a != "" && a[0] == b[0] == c[0] {
      TextLessTransitive(a[1..], b[1..], c[1..]);
    }
  }

  lemma TextLessAsymmetric(a: string, b: string)
    ensures !(TextLess(a, b) && TextLess(b, a))
  {
    if TextLess(a, b) && TextLess(b, a) {
      TextLessTransitive(a, b, a);
      TextLessIrreflexive(a);
    }
  }

  lemma {:induction false} TextLessTotal(a: string, b: string)
    ensures TextLess(a, b) || TextLess(b, a) || a == b
  {
    if a != "" && b != "" && a[0] == b[0] {
      TextLessTotal(a[1..], b[1..]);
      assert a == [a[0]] + a[1..] && b == [b[0]] + b[1..];
    }
  }

  /** `less` never sorts an element before itself, is transitive, and orders distinct elements. */
  ghost predicate StrictOrder<T(!new)>(less: (T, T) -> bool) {
    && (forall x :: !less(x, x))
    && (forall x, y, z :: less(x, y) && less(y, z) ==> less(x, z))
    && (forall x, y :: less(x, y) || less(y, x) || x == y)
  }

  ghost predicate SortedBy<T(!new)>(s: seq<T>, less: (T, T) -> bool) {
    forall i, j :: 0 <= i < j < |s| ==> !less(s[j], s[i])
  }

  function Insert<T>(x: T, s: seq<T>, less: (T, T) -> bool): (r: seq<T>)
    ensures multiset(r) == multiset(s) + multiset{x}
  {
    if s == [] || less(x, s[0]) then
      [x] + s
    else
      assert s == [s[0]] + s[1..];
      [s[0]] + Insert(x, s[1..], less)
  }

  function Sort<T>(s: seq<T>, less: (T, T) -> bool): (r: seq<T>)
    ensures multiset(r) == multiset(s)
    ensures |r| == |s|
  {
    if s == [] then
      []
    else
      assert s == [s[0]] + s[1..];
      var r := Insert(s[0], Sort(s[1..], less), less);
      assert |multiset(r)| == |multiset(s)|;
      r
  }

  lemma {:induction false} InsertKeepsSorted<T(!new)>(x: T, s: seq<T>, less: (T, T) -> bool)
    requires StrictOrder(less) && SortedBy(s, less)
    ensures SortedBy(Insert(x, s, less), less)
  {
    var r := Insert(x, s, less);
    if s == [] {
    } else if less(x, s[0]) {
      assert forall y :: less(y, x) ==> less(y, s[0]);
      forall i, j | 0 <= i < j < |r| ensures !less(r[j], r[i]) {
        assert r[j] == s[j - 1];
      }
    } else {
      var rest := Insert(x, s[1..], less);
      InsertKeepsSorted(x, s[1..], less);
      forall j | 1 <= j < |r| ensures !less(r[j], r[0]) {
        assert r[j] == rest[j - 1];
        assert rest[j - 1] in multiset(rest);
        assert r[j] == x || r[j] in s[1..];
      }
    }
  }

  lemma {:induction false} SortSorts<T(!new)>(s: seq<T>, less: (T, T) -> bool)
    requires StrictOrder(less)
    ensures SortedBy(Sort(s, less), less)
  {
    if s != [] {
      SortSorts(s[1..], less);
      InsertKeepsSorted(s[0], Sort(s[1..], less), less);
    }
  }
}
