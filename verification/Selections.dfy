/** In-order selections from a sequence. */
module Selections {

  /** `a` arises from `b` by dropping elements: same order, nothing repeated. */
  predicate Selection<T(==)>(a: seq<T>, b: seq<T>)
    decreases |b|
  {
    a == [] || (b != [] && ((a[0] == b[0] && Selection(a[1..], b[1..])) || Selection(a, b[1..])))
  }

  lemma {:induction false} SelectionSelf<T>(a: seq<T>)
    ensures Selection(a, a)
  {
    if a != [] { SelectionSelf(a[1..]); }
  }

  lemma {:induction false} SelectionAppend<T>(a: seq<T>, b: seq<T>, c: seq<T>, d: seq<T>)
    requires Selection(a, b) && Selection(c, d)
    ensures Selection(a + c, b + d)
    decreases |b|
  {
    if b == [] {
      assert a + c == c && b + d == d;
    } else {
      assert (b + d)[0] == b[0] && (b + d)[1..] == b[1..] + d;
      if a != [] && a[0] == b[0] && Selection(a[1..], b[1..]) {
        SelectionAppend(a[1..], b[1..], c, d);
        assert (a + c)[1..] == a[1..] + c;
      } else {
        SelectionAppend(a, b[1..], c, d);
      }
    }
  }

  lemma SelectionWiden<T>(a: seq<T>, before: seq<T>, b: seq<T>, after: seq<T>)
    requires Selection(a, b)
    ensures Selection(a, before + b + after)
  {
    SelectionAppend([], before, a, b);
    assert [] + a == a;
    SelectionAppend(a, before + b, [], after);
    assert a + [] == a;
  }

  lemma {:induction false} SelectionMember<T>(a: seq<T>, b: seq<T>, x: T)
    requires Selection(a, b) && x in a
    ensures x in b
    decreases |b|
  {
    if a[0] == b[0] && Selection(a[1..], b[1..]) {
      if x != a[0] { SelectionMember(a[1..], b[1..], x); }
    } else {
      SelectionMember(a, b[1..], x);
    }
  }

  lemma {:induction false} SelectionMultiset<T>(a: seq<T>, b: seq<T>)
    requires Selection(a, b)
    ensures multiset(a) <= multiset(b)
    decreases |b|
  {
    if a != [] {
      assert a == [a[0]] + a[1..] && b == [b[0]] + b[1..];
      if a[0] == b[0] && Selection(a[1..], b[1..]) {
        SelectionMultiset(a[1..], b[1..]);
      } else {
        SelectionMultiset(a, b[1..]);
      }
    }
  }

  lemma {:induction false} PrefixSelection<T>(a: seq<T>, n: nat, b: seq<T>)
    requires n <= |a| && Selection(a, b)
    ensures Selection(a[..n], b)
    decreases |b|
  {
    if n > 0 {
      if a[0] == b[0] && Selection(a[1..], b[1..]) {
        PrefixSelection(a[1..], n - 1, b[1..]);
        assert a[..n][1..] == a[1..][..n - 1];
      } else {
        PrefixSelection(a, n, b[1..]);
      }
    }
  }
}
