/** Total orders on strings and pairs, and the ascending listing of a set. */
module Ordering {
  ghost predicate TotalOrder<T(!new)>(le: (T, T) -> bool) {
    && (forall a, b :: le(a, b) || le(b, a))
    && (forall a, b :: le(a, b) && le(b, a) ==> a == b)
    && (forall a, b, c :: le(a, b) && le(b, c) ==> le(a, c))
  }

  /** Code-point order of strings. */
  predicate TextLe(a: string, b: string) {
    a == [] || (b != [] && (a[0] < b[0] || (a[0] == b[0] && TextLe(a[1..], b[1..]))))
  }

  lemma {:induction false} TextTotal(a: string, b: string)
    ensures TextLe(a, b) || TextLe(b, a)
    ensures TextLe(a, b) && TextLe(b, a) ==> a == b
  {
    if a != [] && b != [] && a[0] == b[0] {
      TextTotal(a[1..], b[1..]);
      assert a == [a[0]] + a[1..] && b == [b[0]] + b[1..];
    }
  }

  lemma {:induction false} TextTrans(a: string, b: string, c: string)
    requires TextLe(a, b) && TextLe(b, c)
    ensures TextLe(a, c)
  {
    if a != [] && a[0] == b[0] == c[0] {
      TextTrans(a[1..], b[1..], c[1..]);
    }
  }

  /** A text comes before another if it starts it, or if it has the smaller character where
      they first differ. */
  ghost predicate Precedes(a: string, b: string) {
    a <= b || exists k :: 0 <= k < |a| && k < |b| && DifferAt(a, b, k)
  }

  predicate DifferAt(a: string, b: string, k: nat)
    requires k < |a| && k < |b|
  {
    a[..k] == b[..k] && a[k] < b[k]
  }

  lemma SameStart(a: string, b: string, k: nat)
    requires k < |a| && k < |b| && DifferAt(a, b, k)
    ensures k > 0 ==> a[0] == b[0]
  {
    if k > 0 { assert a[0] == a[..k][0] && b[0] == b[..k][0]; }
  }

  /** Texts are compared character by character. */
  lemma {:induction false} TextLeSpelled(a: string, b: string)
    ensures TextLe(a, b) <==> Precedes(a, b)
  {
    if a != [] && b != [] && a[0] == b[0] {
      var (x, y) := (a[1..], b[1..]);
      TextLeSpelled(x, y);
      assert a == [a[0]] + x && b == [b[0]] + y;
      if k :| 0 <= k < |x| && k < |y| && DifferAt(x, y, k) {
        assert a[..k + 1] == [a[0]] + x[..k] && b[..k + 1] == [b[0]] + y[..k];
        assert DifferAt(a, b, k + 1);
      }
      if k :| 0 <= k < |a| && k < |b| && DifferAt(a, b, k) {
        assert k > 0;
        assert x[..k - 1] == a[..k][1..] && y[..k - 1] == b[..k][1..];
        assert DifferAt(x, y, k - 1);
      }
    } else if a != [] && b != [] {
      if a[0] < b[0] { assert DifferAt(a, b, 0); }
      if k :| 0 <= k < |a| && k < |b| && DifferAt(a, b, k) {
        SameStart(a, b, k);
      }
    }
  }

  ghost predicate IsLeast<T(!new)>(le: (T, T) -> bool, m: T, s: set<T>) {
    m in s && forall x :: x in s ==> le(m, x)
  }

  method Least<T(==,!new)>(le: (T, T) -> bool, s: set<T>) returns (m: T)
    requires TotalOrder(le) && s != {}
    ensures IsLeast(le, m, s)
  {
    m :| m in s;
    var rest := s - {m};
    while rest != {}
      invariant m in s && rest <= s && forall x :: x in s - rest ==> le(m, x)
    {
      var x :| x in rest;
      rest := rest - {x};
      if le(x, m) {
        m := x;
      }
    }
  }

  /** The elements of the set in ascending order, each once. */
  ghost predicate IsListing<T(!new)>(le: (T, T) -> bool, s: set<T>, q: seq<T>) {
    && (forall x :: x in s <==> x in q)
    && (forall i, j :: 0 <= i < j < |q| ==> q[i] != q[j] && le(q[i], q[j]))
  }

  method Sorted<T(==,!new)>(le: (T, T) -> bool, s: set<T>) returns (q: seq<T>)
    requires TotalOrder(le)
    ensures IsListing(le, s, q)
  {
    q := [];
    var rest := s;
    while rest != {}
      invariant rest <= s && forall x :: x in s - rest <==> x in q
      invariant forall i, j :: 0 <= i < j < |q| ==> q[i] != q[j] && le(q[i], q[j])
      invariant forall i, y :: 0 <= i < |q| && y in rest ==> q[i] != y && le(q[i], y)
    {
      var m := Least(le, rest);
      q := q + [m];
      rest := rest - {m};
    }
  }
}
