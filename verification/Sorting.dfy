/**
  * The host language's stable array sort, given a comparator as "may stand before or level with".
  * Sorting itself is a runtime service; what the models use are the facts below.
  */
module Sorting {

  ghost predicate TotalPreorder<T(!new)>(le: (T, T) -> bool) {
    && (forall a, b :: le(a, b) || le(b, a))
    && (forall a, b, c :: le(a, b) && le(b, c) ==> le(a, c))
  }

  predicate Sorted<T>(s: seq<T>, le: (T, T) -> bool) {
    forall i, j :: 0 <= i < j < |s| ==> le(s[i], s[j])
  }

  function Insert<T>(x: T, s: seq<T>, le: (T, T) -> bool): (r: seq<T>)
    ensures |r| == |s| + 1
  {
    if s == [] then [x]
    else if le(x, s[0]) then [x] + s
    else [s[0]] + Insert(x, s[1..], le)
  }

  /** Stable: an element is put before every later element it is level with. */
  function SortBy<T>(s: seq<T>, le: (T, T) -> bool): (r: seq<T>)
    ensures |r| == |s|
  {
    if s == [] then [] else Insert(s[0], SortBy(s[1..], le), le)
  }

  lemma {:induction false} InsertMultiset<T>(x: T, s: seq<T>, le: (T, T) -> bool)
    ensures multiset(Insert(x, s, le)) == multiset{x} + multiset(s)
  {
    if s == [] {
    } else if le(x, s[0]) {
      assert multiset([x] + s) == multiset{x} + multiset(s);
    } else {
      InsertMultiset(x, s[1..], le);
      assert s == [s[0]] + s[1..];
      assert multiset([s[0]] + Insert(x, s[1..], le)) == multiset{s[0]} + multiset(Insert(x, s[1..], le));
    }
  }

  lemma {:induction false} SortMultiset<T>(s: seq<T>, le: (T, T) -> bool)
    ensures multiset(SortBy(s, le)) == multiset(s)
  {
    if s != [] {
      SortMultiset(s[1..], le);
      InsertMultiset(s[0], SortBy(s[1..], le), le);
      assert s == [s[0]] + s[1..];
    }
  }

  lemma SortMembers<T>(s: seq<T>, le: (T, T) -> bool)
    ensures forall x :: x in SortBy(s, le) <==> x in s
  {
    SortMultiset(s, le);
    forall x ensures x in SortBy(s, le) <==> x in s {
      assert x in multiset(s) <==> x in s;
      assert x in multiset(SortBy(s, le)) <==> x in SortBy(s, le);
    }
  }

  lemma {:induction false} InsertSorted<T(!new)>(x: T, s: seq<T>, le: (T, T) -> bool)
    requires TotalPreorder(le) && Sorted(s, le)
    ensures Sorted(Insert(x, s, le), le)
  {
    if s != [] && !le(x, s[0]) {
      var rest := Insert(x, s[1..], le);
      InsertSorted(x, s[1..], le);
      InsertMultiset(x, s[1..], le);
      forall y | y in rest ensures le(s[0], y) {
        assert y in multiset(rest);
        assert y == x || y in multiset(s[1..]);
        if y != x { assert y in s[1..]; }
      }
    }
  }

  lemma {:induction false} SortSorted<T(!new)>(s: seq<T>, le: (T, T) -> bool)
    requires TotalPreorder(le)
    ensures Sorted(SortBy(s, le), le)
  {
    if s != [] {
      SortSorted(s[1..], le);
      InsertSorted(s[0], SortBy(s[1..], le), le);
    }
  }

  /** A list already in order is left alone. */
  lemma {:induction false} SortOfSorted<T>(s: seq<T>, le: (T, T) -> bool)
    requires Sorted(s, le)
    ensures SortBy(s, le) == s
  {
    if s != [] {
      SortOfSorted(s[1..], le);
      if |s| > 1 { assert le(s[0], s[1]); }
    }
  }

  /** Two sorted lists of the same elements start with the same one, when ties are broken. */
  lemma SortedHead<T(!new)>(a: seq<T>, b: seq<T>, le: (T, T) -> bool)
    requires Sorted(a, le) && Sorted(b, le)
    requires a != [] && b != []
    requires a[0] in b && b[0] in a
    requires forall x, y :: x in a && y in a && le(x, y) && le(y, x) ==> x == y
    ensures a[0] == b[0]
  {
    var i :| 0 <= i < |b| && b[i] == a[0];
    var j :| 0 <= j < |a| && a[j] == b[0];
    if i != 0 && j != 0 {
      assert le(b[0], b[i]) && le(a[0], a[j]);
    }
  }

  lemma TailMultiset<T>(a: seq<T>)
    requires a != []
    ensures multiset(a[1..]) == multiset(a) - multiset{a[0]}
  {
    assert a == [a[0]] + a[1..];
  }

  /** With ties broken, the order of a sorted list is decided by its elements alone. */
  lemma {:induction false} SortedUnique<T(!new)>(a: seq<T>, b: seq<T>, le: (T, T) -> bool)
    requires Sorted(a, le) && Sorted(b, le)
    requires multiset(a) == multiset(b)
    requires forall x, y :: x in a && y in a && le(x, y) && le(y, x) ==> x == y
    ensures a == b
  {
    assert |a| == |multiset(a)| == |multiset(b)| == |b|;
    if a != [] {
      assert a[0] in multiset(b) && b[0] in multiset(a);
      SortedHead(a, b, le);
      TailMultiset(a);
      TailMultiset(b);
      SortedUnique(a[1..], b[1..], le);
      assert a == [a[0]] + a[1..] && b == [b[0]] + b[1..];
    }
  }

  predicate Distinct<T(==)>(s: seq<T>) {
    forall i, j :: 0 <= i < j < |s| ==> s[i] != s[j]
  }

  /** Distinct elements stay distinct under sorting. */
  lemma DistinctKept<T>(s: seq<T>, le: (T, T) -> bool)
    requires Distinct(s)
    ensures Distinct(SortBy(s, le))
  {
    SortMultiset(s, le);
    var r := SortBy(s, le);
    forall i, j | 0 <= i < j < |r| ensures r[i] != r[j] {
      CountDistinct(s, r[i]);
      if r[i] == r[j] {
        CountTwice(r, i, j);
        assert false;
      }
    }
  }

  lemma {:induction false} CountDistinct<T>(s: seq<T>, x: T)
    requires Distinct(s)
    ensures multiset(s)[x] <= 1
  {
    if s != [] {
      assert s == [s[0]] + s[1..];
      CountDistinct(s[1..], x);
      forall y | y in s[1..] ensures y != s[0] {
        var j :| 0 <= j < |s[1..]| && s[1..][j] == y;
        assert s[0] != s[j + 1];
      }
      assert x in s[1..] <==> x in multiset(s[1..]);
    }
  }

  lemma CountTwice<T>(s: seq<T>, i: nat, j: nat)
    requires i < j < |s| && s[i] == s[j]
    ensures multiset(s)[s[i]] >= 2
  {
    assert s == s[..j] + s[j..];
    assert s[..j][i] in multiset(s[..j]);
    assert s[j..][0] in multiset(s[j..]);
  }

  /** Some a stands before some b. */
  predicate Precedes<T(==)>(s: seq<T>, a: T, b: T) {
    exists i, j :: 0 <= i < j < |s| && s[i] == a && s[j] == b
  }

  lemma PrecedesTail<T>(s: seq<T>, a: T, b: T)
    requires s != [] && Precedes(s, a, b)
    ensures (a == s[0] && b in s[1..]) || Precedes(s[1..], a, b)
  {
    var i, j :| 0 <= i < j < |s| && s[i] == a && s[j] == b;
    assert s[1..][j - 1] == b;
    if i > 0 { assert s[1..][i - 1] == a; }
  }

  lemma PrecedesCons<T>(h: T, s: seq<T>, a: T, b: T)
    requires (a == h && b in s) || Precedes(s, a, b)
    ensures Precedes([h] + s, a, b)
  {
    var r := [h] + s;
    if Precedes(s, a, b) {
      var i, j :| 0 <= i < j < |s| && s[i] == a && s[j] == b;
      assert r[i + 1] == a && r[j + 1] == b;
    } else {
      var j :| 0 <= j < |s| && s[j] == b;
      assert r[0] == a && r[j + 1] == b;
    }
  }

  lemma PrecedesAppend<T>(s: seq<T>, last: T, a: T, b: T)
    requires Precedes(s, a, b) || (a in s && b == last)
    ensures Precedes(s + [last], a, b)
  {
    var r := s + [last];
    if Precedes(s, a, b) {
      var i, j :| 0 <= i < j < |s| && s[i] == a && s[j] == b;
      assert r[i] == a && r[j] == b;
    } else {
      var i :| 0 <= i < |s| && s[i] == a;
      assert r[i] == a && r[|s|] == b;
    }
  }

  lemma {:induction false} InsertBefore<T>(x: T, s: seq<T>, le: (T, T) -> bool, y: T)
    requires y in s && le(x, y)
    ensures Precedes(Insert(x, s, le), x, y)
  {
    if le(x, s[0]) {
      PrecedesCons(x, s, x, y);
    } else {
      InsertBefore(x, s[1..], le, y);
      PrecedesCons(s[0], Insert(x, s[1..], le), x, y);
    }
  }

  lemma InsertHas<T>(x: T, s: seq<T>, le: (T, T) -> bool, y: T)
    requires y in s
    ensures y in Insert(x, s, le)
  {
    InsertMultiset(x, s, le);
    assert y in multiset(Insert(x, s, le));
  }

  lemma {:induction false} InsertKeepsOrder<T>(x: T, s: seq<T>, le: (T, T) -> bool, a: T, b: T)
    requires Precedes(s, a, b)
    ensures Precedes(Insert(x, s, le), a, b)
  {
    if le(x, s[0]) {
      PrecedesCons(x, s, a, b);
    } else {
      PrecedesTail(s, a, b);
      if Precedes(s[1..], a, b) {
        InsertKeepsOrder(x, s[1..], le, a, b);
      } else {
        InsertHas(x, s[1..], le, b);
      }
      PrecedesCons(s[0], Insert(x, s[1..], le), a, b);
    }
  }

  /** Stability: what stands before something it may stand before, stays before it. */
  lemma {:induction false} SortStable<T>(s: seq<T>, le: (T, T) -> bool, a: T, b: T)
    requires Precedes(s, a, b) && le(a, b)
    ensures Precedes(SortBy(s, le), a, b)
  {
    PrecedesTail(s, a, b);
    var rest := SortBy(s[1..], le);
    if Precedes(s[1..], a, b) {
      SortStable(s[1..], le, a, b);
      InsertKeepsOrder(s[0], rest, le, a, b);
    } else {
      SortMembers(s[1..], le);
      InsertBefore(a, rest, le, b);
    }
  }

  /** `slice(0, max)`, which counts from the end for a negative bound. */
  function TakeFirst<T>(s: seq<T>, max: int): (r: seq<T>)
    ensures r <= s
  {
    if max >= 0 then if max < |s| then s[..max] else s
    else if |s| + max > 0 then s[..|s| + max] else []
  }
}
