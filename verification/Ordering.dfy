/** Python's string order, and sorted enumerations of sets of distinct keys. */
module Ordering {

  /** Code point order on strings, which Python's tuple and string comparisons use. */
  predicate StringLess(a: string, b: string) {
    if a == [] then b != []
    else b != [] && (a[0] < b[0] || (a[0] == b[0] && StringLess(a[1..], b[1..])))
  }

  ghost predicate Asymmetric<T(!new)>(less: (T, T) -> bool) {
    forall a, b :: !(less(a, b) && less(b, a))
  }

  ghost predicate StrictTotal<T(!new)>(less: (T, T) -> bool) {
    && Asymmetric(less)
    && (forall a, b, c :: less(a, b) && less(b, c) ==> less(a, c))
    && (forall a, b :: a != b ==> less(a, b) || less(b, a))
  }

  lemma {:induction false} StringLessAsymmetric(a: string, b: string)
    ensures !(StringLess(a, b) && StringLess(b, a))
  {
    if a != [] && b != [] {
      StringLessAsymmetric(a[1..], b[1..]);
    }
  }

  lemma {:induction false} StringLessTransitive(a: string, b: string, c: string)
    requires StringLess(a, b) && StringLess(b, c)
    ensures StringLess(a, c)
  {
    if a != [] && a[0] == b[0] == c[0] {
      StringLessTransitive(a[1..], b[1..], c[1..]);
    }
  }

  lemma {:induction false} StringLessConnected(a: string, b: string)
    requires a != b
    ensures StringLess(a, b) || StringLess(b, a)
  {
    if a != [] && b != [] && a[0] == b[0] {
      assert a == [a[0]] + a[1..] && b == [b[0]] + b[1..];
      StringLessConnected(a[1..], b[1..]);
    }
  }

  lemma StringLessStrictTotal()
    ensures StrictTotal(StringLess)
  {
    forall a, b ensures !(StringLess(a, b) && StringLess(b, a)) {
      StringLessAsymmetric(a, b);
    }
    forall a, b, c | StringLess(a, b) && StringLess(b, c) ensures StringLess(a, c) {
      StringLessTransitive(a, b, c);
    }
    forall a: string, b: string | a != b ensures StringLess(a, b) || StringLess(b, a) {
      StringLessConnected(a, b);
    }
  }

  /** Tuple order on tuples of strings of one length. */
  predicate TupleLess(a: seq<string>, b: seq<string>) {
    if a == [] then b != []
    else b != [] && (StringLess(a[0], b[0]) || (a[0] == b[0] && TupleLess(a[1..], b[1..])))
  }

  lemma {:induction false} TupleLessAsymmetric(a: seq<string>, b: seq<string>)
    ensures !(TupleLess(a, b) && TupleLess(b, a))
  {
    if a != [] && b != [] {
      StringLessAsymmetric(a[0], b[0]);
      TupleLessAsymmetric(a[1..], b[1..]);
    }
  }

  lemma {:induction false} TupleLessTransitive(a: seq<string>, b: seq<string>, c: seq<string>)
    requires TupleLess(a, b) && TupleLess(b, c)
    ensures TupleLess(a, c)
  {
    if a != [] {
      StringLessAsymmetric(b[0], b[0]);
      if a[0] == b[0] == c[0] {
        TupleLessTransitive(a[1..], b[1..], c[1..]);
      } else if StringLess(a[0], b[0]) && StringLess(b[0], c[0]) {
        StringLessTransitive(a[0], b[0], c[0]);
      }
    }
  }

  lemma {:induction false} TupleLessConnected(a: seq<string>, b: seq<string>)
    requires a != b
    ensures TupleLess(a, b) || TupleLess(b, a)
  {
    if a != [] && b != [] {
      if a[0] == b[0] {
        assert a == [a[0]] + a[1..] && b == [b[0]] + b[1..];
        TupleLessConnected(a[1..], b[1..]);
      } else {
        StringLessConnected(a[0], b[0]);
      }
    }
  }

  lemma TupleLessStrictTotal()
    ensures StrictTotal(TupleLess)
  {
    forall a, b ensures !(TupleLess(a, b) && TupleLess(b, a)) {
      TupleLessAsymmetric(a, b);
    }
    forall a, b, c | TupleLess(a, b) && TupleLess(b, c) ensures TupleLess(a, c) {
      TupleLessTransitive(a, b, c);
    }
    forall a: seq<string>, b: seq<string> | a != b ensures TupleLess(a, b) || TupleLess(b, a) {
      TupleLessConnected(a, b);
    }
  }

  ghost predicate Ascending<T>(less: (T, T) -> bool, s: seq<T>) {
    forall i, j :: 0 <= i < j < |s| ==> less(s[i], s[j])
  }

  lemma AscendingTail<T(!new)>(less: (T, T) -> bool, s: seq<T>)
    requires Asymmetric(less) && Ascending(less, s) && s != []
    ensures s == [s[0]] + s[1..] && Ascending(less, s[1..])
    ensures forall x :: x in s[1..] <==> x in s && x != s[0]
    ensures forall x :: x in s[1..] ==> less(s[0], x)
  {
    assert !less(s[0], s[0]);
    forall x | x in s[1..] ensures x in s && less(s[0], x) {
      var j :| 0 <= j < |s| - 1 && s[1..][j] == x;
      assert s[j + 1] == x;
    }
    forall x | x in s && x != s[0] ensures x in s[1..] {
      var j :| 0 <= j < |s| && s[j] == x;
      assert s[1..][j - 1] == x;
    }
  }

  lemma HasMember<T>(s: seq<T>)
    ensures s != [] ==> exists x :: x in s
  {
    assert s != [] ==> s[0] in s;
  }

  /** Strictly ascending sequences over the same elements are the same sequence: sorting by a
      key that tells elements apart leaves no freedom. */
  lemma {:induction false} AscendingIsUnique<T(!new)>(less: (T, T) -> bool, s: seq<T>, t: seq<T>)
    requires Asymmetric(less) && Ascending(less, s) && Ascending(less, t)
    requires forall x :: x in s <==> x in t
    ensures s == t
  {
    HasMember(s);
    HasMember(t);
    if s != [] {
      assert s[0] in t && t[0] in s;
      assert s[0] == t[0];
      AscendingTail(less, s);
      AscendingTail(less, t);
      AscendingIsUnique(less, s[1..], t[1..]);
    }
  }

  /** Inserts a new element at its place in an ascending sequence. */
  function Insert<T(!new)>(less: (T, T) -> bool, x: T, s: seq<T>): (r: seq<T>)
    requires StrictTotal(less) && Ascending(less, s) && x !in s
    ensures Ascending(less, r)
    ensures forall y :: y in r <==> y == x || y in s
  {
    if s == [] then [x]
    else if less(x, s[0]) then [x] + s
    else
      AscendingTail(less, s);
      var tail := Insert(less, x, s[1..]);
      assert forall y :: y in tail ==> less(s[0], y);
      [s[0]] + tail
  }

  /** sorted(...) on a set: the set's elements in ascending order. */
  ghost function SortedElements<T(!new)>(less: (T, T) -> bool, xs: set<T>): (s: seq<T>)
    requires StrictTotal(less)
    ensures Ascending(less, s)
    ensures forall x :: x in s <==> x in xs
  {
    if xs == {} then []
    else
      var x :| x in xs;
      Insert(less, x, SortedElements(less, xs - {x}))
  }

  /** Sorting visits the set in no particular order and still has one possible result. */
  method SortSet<T(==,!new)>(less: (T, T) -> bool, xs: set<T>) returns (s: seq<T>)
    requires StrictTotal(less)
    ensures s == SortedElements(less, xs)
  {
    s := [];
    var rest := xs;
    while rest != {}
      invariant rest <= xs
      invariant Ascending(less, s)
      invariant forall x :: x in s <==> x in xs && x !in rest
      decreases rest
    {
      var x :| x in rest;
      s := Insert(less, x, s);
      rest := rest - {x};
    }
    AscendingIsUnique(less, s, SortedElements(less, xs));
  }
}
