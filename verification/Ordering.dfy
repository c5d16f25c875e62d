/** Iteration order of the std::set and std::map keys the server walks over. */
module Ordering {

  ghost predicate StrictTotal<T(!new)>(less: (T, T) -> bool) {
    && (forall x :: !less(x, x))
    && (forall x, y :: x != y ==> less(x, y) || less(y, x))
    && (forall x, y, z :: less(x, y) && less(y, z) ==> less(x, z))
  }

  lemma {:induction false} HasLeast<T(!new)>(s: set<T>, less: (T, T) -> bool)
    requires s != {} && StrictTotal(less)
    ensures exists x :: x in s && forall y :: y in s && y != x ==> less(x, y)
  {
    var x :| x in s;
    if s != {x} {
      HasLeast(s - {x}, less);
      var m :| m in s - {x} && forall y :: y in s - {x} && y != m ==> less(m, y);
      var least := if less(m, x) then m else x;
      assert least in s && forall y :: y in s && y != least ==> less(least, y);
    }
  }

  function Least<T(!new)>(s: set<T>, less: (T, T) -> bool): (x: T)
    requires s != {} && StrictTotal(less)
    ensures x in s && forall y :: y in s && y != x ==> less(x, y)
  {
    HasLeast(s, less);
    var x :| x in s && forall y :: y in s && y != x ==> less(x, y);
    x
  }

  /** The elements of s in iteration order, each once. */
  function Ascending<T(!new)>(s: set<T>, less: (T, T) -> bool): (order: seq<T>)
    requires StrictTotal(less)
    ensures |order| == |s|
  {
    if s == {} then []
    else
      var x := Least(s, less);
      [x] + Ascending(s - {x}, less)
  }

  ghost predicate Enumerates<T(!new)>(order: seq<T>, s: set<T>, less: (T, T) -> bool) {
    && (forall x :: x in order <==> x in s)
    && (forall i, j :: 0 <= i < j < |order| ==> less(order[i], order[j]))
  }

  lemma {:induction false} AscendingEnumerates<T(!new)>(s: set<T>, less: (T, T) -> bool)
    requires StrictTotal(less)
    ensures Enumerates(Ascending(s, less), s, less)
  {
    if s != {} {
      var x := Least(s, less);
      AscendingEnumerates(s - {x}, less);
    }
  }

  /** An enumeration in ascending order is the only one. */
  lemma {:induction false} AscendingUnique<T(!new)>(s: set<T>, order: seq<T>, less: (T, T) -> bool)
    requires StrictTotal(less) && Enumerates(order, s, less)
    ensures order == Ascending(s, less)
  {
    if order == [] {
      assert s == {};
    } else {
      assert order[0] in s;
      var x := Least(s, less);
      assert x in order;
      var rest := order[1..];
      assert order == [x] + rest;
      forall y ensures y in rest <==> y in s - {x} {}
      AscendingUnique(s - {x}, rest, less);
    }
  }

  // ---- file descriptors ----

  predicate FdLess(a: int, b: int) { a < b }

  function Fds(s: set<int>): (order: seq<int>)
    ensures |order| == |s|
  {
    Ascending(s, FdLess)
  }

  lemma FdsEnumerate(s: set<int>)
    ensures forall x :: x in Fds(s) <==> x in s
    ensures forall i, j :: 0 <= i < j < |Fds(s)| ==> Fds(s)[i] < Fds(s)[j]
  {
    AscendingEnumerates(s, FdLess);
    forall i, j | 0 <= i < j < |Fds(s)| ensures Fds(s)[i] < Fds(s)[j] {
      assert FdLess(Fds(s)[i], Fds(s)[j]);
    }
  }

  // ---- channel names, compared like std::string ----

  predicate NameLess(a: string, b: string) {
    if b == "" then false
    else if a == "" then true
    else a[0] < b[0] || (a[0] == b[0] && NameLess(a[1..], b[1..]))
  }

  lemma {:induction false} NameLessIrreflexive(a: string)
    ensures !NameLess(a, a)
  {
    if a != "" {
      NameLessIrreflexive(a[1..]);
    }
  }

  lemma {:induction false} NameLessConnected(a: string, b: string)
    requires a != b
    ensures NameLess(a, b) || NameLess(b, a)
  {
    if a != "" && b != "" && a[0] == b[0] {
      assert a == [a[0]] + a[1..] && b == [b[0]] + b[1..];
      NameLessConnected(a[1..], b[1..]);
    }
  }

  lemma {:induction false} NameLessTransitive(a: string, b: string, c: string)
    requires NameLess(a, b) && NameLess(b, c)
    ensures NameLess(a, c)
  {
    if a != "" && a[0] == b[0] && b[0] == c[0] {
      NameLessTransitive(a[1..], b[1..], c[1..]);
    }
  }

  lemma NamesAreOrdered()
    ensures StrictTotal(NameLess)
  {
    forall a ensures !NameLess(a, a) { NameLessIrreflexive(a); }
    forall a, b | a != b ensures NameLess(a, b) || NameLess(b, a) { NameLessConnected(a, b); }
    forall a, b, c | NameLess(a, b) && NameLess(b, c) ensures NameLess(a, c) {
      NameLessTransitive(a, b, c);
    }
  }

  function Names(s: set<string>): (order: seq<string>)
    ensures |order| == |s|
  {
    NamesAreOrdered();
    Ascending(s, NameLess)
  }

  lemma NamesEnumerate(s: set<string>)
    ensures forall x :: x in Names(s) <==> x in s
    ensures forall i, j :: 0 <= i < j < |Names(s)| ==> NameLess(Names(s)[i], Names(s)[j])
    ensures forall i, j :: 0 <= i < j < |Names(s)| ==> Names(s)[i] != Names(s)[j]
  {
    NamesAreOrdered();
    AscendingEnumerates(s, NameLess);
    forall i, j | 0 <= i < j < |Names(s)| ensures Names(s)[i] != Names(s)[j] {
      NameLessIrreflexive(Names(s)[i]);
    }
  }

  // ---- laws of Fds ----

  lemma FdsMember(s: set<int>, i: nat)
    requires i < |s|
    ensures Fds(s)[i] in s
  {
    FdsEnumerate(s);
    assert Fds(s)[i] in Fds(s);
  }

  lemma FdsDistinct(s: set<int>, i: nat, j: nat)
    requires i < j < |s|
    ensures Fds(s)[i] != Fds(s)[j]
  {
    FdsEnumerate(s);
  }

  /** A strictly ascending enumeration of a set of descriptors is unique. */
  lemma FdsUnique(s: set<int>, order: seq<int>)
    requires forall x :: x in order <==> x in s
    requires forall i, j :: 0 <= i < j < |order| ==> order[i] < order[j]
    ensures order == Fds(s)
  {
    AscendingUnique(s, order, FdLess);
  }

  /** Likewise for names. */
  lemma NamesUnique(s: set<string>, order: seq<string>)
    requires forall x :: x in order <==> x in s
    requires forall i, j :: 0 <= i < j < |order| ==> NameLess(order[i], order[j])
    ensures order == Names(s)
  {
    NamesAreOrdered();
    AscendingUnique(s, order, NameLess);
  }

  lemma FdsFirst(s: set<int>)
    requires s != {}
    ensures |Fds(s)| > 0 && Fds(s)[0] in s
    ensures forall y :: y in s ==> Fds(s)[0] <= y
  {
    FdsEnumerate(s);
    assert |Fds(s)| == |s|;
    assert Fds(s)[0] in Fds(s);
    forall y | y in s ensures Fds(s)[0] <= y {
      assert y in Fds(s);
    }
  }

  /** The first of the enumeration is the one element below all others. */
  lemma FdsHead(s: set<int>, least: int)
    requires least in s && forall y :: y in s ==> least <= y
    ensures |Fds(s)| > 0 && Fds(s)[0] == least
  {
    FdsFirst(s);
  }

  /** Adding an element above all others appends it to the enumeration. */
  lemma FdsAppend(s: set<int>, x: int)
    requires forall y :: y in s ==> y < x
    ensures Fds(s + {x}) == Fds(s) + [x]
  {
    FdsEnumerate(s);
    var order := Fds(s) + [x];
    forall i, j | 0 <= i < j < |order| ensures order[i] < order[j] {
      if j == |order| - 1 {
        assert order[i] in Fds(s);
      }
    }
    forall y ensures y in order <==> y in s + {x} {}
    FdsUnique(s + {x}, order);
  }

  /** Without its least element the set is enumerated by the tail. */
  lemma FdsDropFirst(s: set<int>)
    requires s != {}
    ensures |Fds(s)| > 0 && Fds(s - {Fds(s)[0]}) == Fds(s)[1..]
  {
    FdsEnumerate(s);
    var order := Fds(s);
    assert |order| == |s|;
    assert order == [order[0]] + order[1..];
    forall y ensures y in order[1..] <==> y in s - {order[0]} {
      assert y in order <==> y in s;
    }
    FdsUnique(s - {order[0]}, order[1..]);
  }
}
