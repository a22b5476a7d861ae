/** Byte-wise string order and the uniqueness of sorted listings. */
module Ordering {

  /** Go's `<` on strings. */
  predicate StringLess(a: string, b: string)
    decreases |a|
  {
    if b == "" then false
    else if a == "" then true
    else a[0] < b[0] || (a[0] == b[0] && StringLess(a[1..], b[1..]))
  }

  lemma {:induction false} StringLessTotal(a: string, b: string)
    ensures a != b ==> StringLess(a, b) || StringLess(b, a)
    ensures !(StringLess(a, b) && StringLess(b, a))
    decreases |a|
  {
    if a != "" && b != "" {
      StringLessTotal(a[1..], b[1..]);
      if a[0] == b[0] && a[1..] == b[1..] { assert a == [a[0]] + a[1..] && b == [b[0]] + b[1..]; }
    }
  }

  lemma {:induction false} StringLessTransitive(a: string, b: string, c: string)
    requires StringLess(a, b) && StringLess(b, c)
    ensures StringLess(a, c)
    decreases |a|
  {
    if a != "" && a[0] == b[0] == c[0] { StringLessTransitive(a[1..], b[1..], c[1..]); }
  }

  ghost predicate Sorted<T>(less: (T, T) -> bool, s: seq<T>) {
    forall i, j | 0 <= i < j < |s| :: less(s[i], s[j])
  }

  ghost predicate SameElements<T(!new)>(s: seq<T>, t: seq<T>) {
    forall x :: x in s <==> x in t
  }

  ghost predicate Asymmetric<T>(less: (T, T) -> bool, s: seq<T>) {
    forall x, y | x in s && y in s && less(x, y) :: !less(y, x)
  }

  /** A strict linear order on the elements of a sequence without repetitions. */
  ghost predicate Linear<T>(less: (T, T) -> bool, s: seq<T>) {
    && Asymmetric(less, s)
    && (forall x, y | x in s && y in s && x != y :: less(x, y) || less(y, x))
    && (forall x, y, z | x in s && y in s && z in s && less(x, y) && less(y, z) :: less(x, z))
  }

  /** There is only one way to list the same elements in order. */
  lemma {:induction false} SortedUnique<T(!new)>(less: (T, T) -> bool, s: seq<T>, t: seq<T>)
    requires Sorted(less, s) && Sorted(less, t) && SameElements(s, t) && Asymmetric(less, s)
    ensures s == t
    decreases |s|
  {
    if s == [] {
      assert forall k | 0 <= k < |t| :: t[k] in s;
    } else {
      assert s[0] in t && t != [];
      assert t[0] in s;
      assert s[0] == t[0] by {
        var j :| 0 <= j < |t| && t[j] == s[0];
        var i :| 0 <= i < |s| && s[i] == t[0];
      }
      TailSame(less, s, t);
      SortedUnique(less, s[1..], t[1..]);
      assert s == [s[0]] + s[1..] && t == [t[0]] + t[1..];
    }
  }

  lemma TailSame<T(!new)>(less: (T, T) -> bool, s: seq<T>, t: seq<T>)
    requires s != [] && t != [] && s[0] == t[0] && SameElements(s, t)
    requires Sorted(less, s) && Sorted(less, t) && Asymmetric(less, s)
    ensures SameElements(s[1..], t[1..])
  {
    forall x ensures x in s[1..] <==> x in t[1..] {
      if x in s[1..] {
        var i :| 0 <= i < |s| - 1 && s[1..][i] == x;
        assert x in t && less(s[0], s[i + 1]);
      }
      if x in t[1..] {
        var i :| 0 <= i < |t| - 1 && t[1..][i] == x;
        assert x in s && less(t[0], t[i + 1]) && t[0] in s;
      }
    }
  }

  lemma StringsLinear(s: seq<string>)
    ensures Linear(StringLess, s)
  {
    forall x, y | x in s && y in s ensures StringLess(x, y) ==> !StringLess(y, x) { StringLessTotal(x, y); }
    forall x, y | x in s && y in s && x != y ensures StringLess(x, y) || StringLess(y, x) { StringLessTotal(x, y); }
    forall x, y, z | x in s && y in s && z in s && StringLess(x, y) && StringLess(y, z) ensures StringLess(x, z) {
      StringLessTransitive(x, y, z);
    }
  }

  function Insert<T>(less: (T, T) -> bool, x: T, s: seq<T>): seq<T> {
    if s == [] || less(x, s[0]) then [x] + s else [s[0]] + Insert(less, x, s[1..])
  }

  /** Stands for the library sort. */
  function Sort<T>(less: (T, T) -> bool, s: seq<T>): seq<T> {
    if s == [] then [] else Insert(less, s[0], Sort(less, s[1..]))
  }

  lemma {:induction false} InsertElements<T(!new)>(less: (T, T) -> bool, x: T, s: seq<T>)
    ensures forall y :: y in Insert(less, x, s) <==> y == x || y in s
    ensures |Insert(less, x, s)| == |s| + 1
  {
    if s != [] && !less(x, s[0]) {
      InsertElements(less, x, s[1..]);
      assert forall y :: y in s <==> y == s[0] || y in s[1..];
    }
  }

  lemma {:induction false} InsertSorted<T(!new)>(less: (T, T) -> bool, x: T, s: seq<T>)
    requires Sorted(less, s) && x !in s && Linear(less, [x] + s)
    ensures Sorted(less, Insert(less, x, s))
  {
    assert forall y :: y in [x] + s <==> y == x || y in s;
    if s == [] {
    } else if less(x, s[0]) {
      var r := [x] + s;
      forall i, j | 0 <= i < j < |r| ensures less(r[i], r[j]) {
        if i == 0 && j > 1 { assert less(s[0], s[j - 1]) && r[j] == s[j - 1]; }
      }
    } else {
      assert Linear(less, [x] + s[1..]) by {
        assert forall y :: y in [x] + s[1..] ==> y in [x] + s;
      }
      InsertSorted(less, x, s[1..]);
      InsertElements(less, x, s[1..]);
      var tail := Insert(less, x, s[1..]);
      forall y | y in tail ensures less(s[0], y) {
        if y != x {
          var k :| 0 <= k < |s| - 1 && s[1..][k] == y;
          assert less(s[0], s[k + 1]);
        } else {
          assert s[0] in [x] + s && x in [x] + s;
        }
      }
      assert Insert(less, x, s) == [s[0]] + tail;
    }
  }

  ghost predicate Distinct<T>(s: seq<T>) {
    forall i, j | 0 <= i < j < |s| :: s[i] != s[j]
  }

  lemma {:induction false} SortCorrect<T(!new)>(less: (T, T) -> bool, s: seq<T>)
    requires Distinct(s) && Linear(less, s)
    ensures SameElements(Sort(less, s), s) && |Sort(less, s)| == |s|
    ensures Sorted(less, Sort(less, s))
  {
    if s != [] {
      var rest := Sort(less, s[1..]);
      assert forall y :: y in s[1..] ==> y in s;
      SortCorrect(less, s[1..]);
      assert s[0] !in s[1..];
      InsertElements(less, s[0], rest);
      assert forall y :: y in s <==> y == s[0] || y in s[1..];
      assert Linear(less, [s[0]] + rest) by {
        assert forall y :: y in [s[0]] + rest ==> y in s;
      }
      InsertSorted(less, s[0], rest);
    }
  }
}
