/** What Go's sort.SliceStable and sort.Strings promise: a stable insertion
    order, and the uniqueness of a sorted arrangement. */
module Sorting {
  import opened Strings

  ghost predicate TotalPreorder<T(!new)>(leq: (T, T) -> bool) {
    && (forall a, b :: leq(a, b) || leq(b, a))
    && (forall a, b, c :: leq(a, b) && leq(b, c) ==> leq(a, c))
  }

  /** Different members of s are never tied. */
  ghost predicate Untied<T(!new)>(leq: (T, T) -> bool, s: seq<T>) {
    forall a, b :: a in s && b in s && leq(a, b) && leq(b, a) ==> a == b
  }

  ghost predicate Sorted<T>(leq: (T, T) -> bool, s: seq<T>) {
    forall i, j :: 0 <= i < j < |s| ==> leq(s[i], s[j])
  }

  /** x goes after every member that is not greater, so ties keep their order. */
  function Insert<T>(leq: (T, T) -> bool, s: seq<T>, x: T): (r: seq<T>)
    ensures |r| == |s| + 1
  {
    if s == [] || leq(s[|s| - 1], x) then s + [x]
    else Insert(leq, s[..|s| - 1], x) + [s[|s| - 1]]
  }

  function Sort<T>(leq: (T, T) -> bool, s: seq<T>): (r: seq<T>)
    ensures |r| == |s|
  {
    if s == [] then [] else Insert(leq, Sort(leq, s[..|s| - 1]), s[|s| - 1])
  }

  lemma {:induction false} InsertKeeps<T>(leq: (T, T) -> bool, s: seq<T>, x: T)
    ensures multiset(Insert(leq, s, x)) == multiset(s) + multiset{x}
  {
    if s != [] && !leq(s[|s| - 1], x) {
      InsertKeeps(leq, s[..|s| - 1], x);
      assert s == s[..|s| - 1] + [s[|s| - 1]];
    }
  }

  lemma {:induction false} SortKeeps<T>(leq: (T, T) -> bool, s: seq<T>)
    ensures multiset(Sort(leq, s)) == multiset(s)
  {
    if s != [] {
      SortKeeps(leq, s[..|s| - 1]);
      InsertKeeps(leq, Sort(leq, s[..|s| - 1]), s[|s| - 1]);
      assert s == s[..|s| - 1] + [s[|s| - 1]];
    }
  }

  /** Sorting changes neither the length nor the members. */
  lemma SortMembers<T>(leq: (T, T) -> bool, s: seq<T>)
    ensures forall x :: x in Sort(leq, s) <==> x in s
  {
    SortKeeps(leq, s);
    forall x ensures x in Sort(leq, s) <==> x in s {
      assert x in multiset(s) <==> x in s;
      assert x in multiset(Sort(leq, s)) <==> x in Sort(leq, s);
    }
  }

  lemma {:induction false} InsertSorted<T(!new)>(leq: (T, T) -> bool, s: seq<T>, x: T)
    requires TotalPreorder(leq) && Sorted(leq, s)
    ensures Sorted(leq, Insert(leq, s, x))
  {
    if s != [] && !leq(s[|s| - 1], x) {
      var front, last := s[..|s| - 1], s[|s| - 1];
      InsertSorted(leq, front, x);
      InsertKeeps(leq, front, x);
      var r := Insert(leq, front, x);
      forall i | 0 <= i < |r| ensures leq(r[i], last) {
        assert r[i] in multiset(r);
        if r[i] != x {
          assert r[i] in front;
        }
      }
    }
  }

  lemma {:induction false} SortSorts<T(!new)>(leq: (T, T) -> bool, s: seq<T>)
    requires TotalPreorder(leq)
    ensures Sorted(leq, Sort(leq, s))
  {
    if s != [] {
      SortSorts(leq, s[..|s| - 1]);
      InsertSorted(leq, Sort(leq, s[..|s| - 1]), s[|s| - 1]);
    }
  }

  lemma SortedLast<T(!new)>(leq: (T, T) -> bool, a: seq<T>, b: seq<T>)
    requires Sorted(leq, a) && Sorted(leq, b) && multiset(a) == multiset(b) && a != [] && b != []
    requires Untied(leq, a) && forall x :: leq(x, x)
    ensures a[|a| - 1] == b[|b| - 1]
  {
    var x, y := a[|a| - 1], b[|b| - 1];
    assert x in multiset(b) && y in multiset(a);
    var i :| 0 <= i < |b| && b[i] == x;
    var j :| 0 <= j < |a| && a[j] == y;
    assert leq(x, y) && leq(y, x);
  }

  lemma CancelLast<T>(front: seq<T>, front': seq<T>, x: T)
    requires multiset(front + [x]) == multiset(front' + [x])
    ensures multiset(front) == multiset(front') && |front| == |front'|
  {
    assert multiset(front) == multiset(front + [x]) - multiset{x} == multiset(front' + [x]) - multiset{x} ==
      multiset(front');
    assert |multiset(front)| == |front| && |multiset(front')| == |front'|;
  }

  function Take<T>(s: seq<T>, n: nat): seq<T> {
    if n < |s| then s[..n] else s
  }

  lemma InTake<T>(s: seq<T>, n: nat, i: nat)
    requires i < |s|
    ensures i < n ==> s[i] in Take(s, n)
  {
    assert i < n ==> Take(s, n)[i] == s[i];
  }

  ghost predicate NoDup<T>(s: seq<T>) {
    forall i, j :: 0 <= i < j < |s| ==> s[i] != s[j]
  }

  lemma {:induction false} NoDupCount<T>(s: seq<T>, x: T)
    requires NoDup(s)
    ensures multiset(s)[x] <= 1
  {
    if s != [] {
      NoDupCount(s[..|s| - 1], x);
      assert s == s[..|s| - 1] + [s[|s| - 1]];
    }
  }

  lemma CountSnoc<T>(s: seq<T>, last: T, x: T)
    ensures multiset(s + [last])[x] == multiset(s)[x] + (if last == x then 1 else 0)
  {
  }

  lemma PairCounts<T>(s: seq<T>, i: nat, j: nat)
    requires i < j < |s| && s[i] == s[j]
    ensures multiset(s)[s[i]] >= 2
  {
    assert s == s[..j] + [s[j]] + s[j + 1..];
    assert multiset(s) == multiset(s[..j]) + multiset{s[j]} + multiset(s[j + 1..]);
    assert s[i] in s[..j];
  }

  lemma CountNoDup<T>(s: seq<T>)
    requires forall x :: multiset(s)[x] <= 1
    ensures NoDup(s)
  {
    forall i, j | 0 <= i < j < |s| ensures s[i] != s[j] {
      if s[i] == s[j] {
        PairCounts(s, i, j);
      }
    }
  }

  /** Sorting introduces no duplicate. */
  lemma SortNoDup<T>(leq: (T, T) -> bool, s: seq<T>)
    requires NoDup(s)
    ensures NoDup(Sort(leq, s))
  {
    SortKeeps(leq, s);
    forall x ensures multiset(Sort(leq, s))[x] <= 1 {
      NoDupCount(s, x);
    }
    CountNoDup(Sort(leq, s));
  }

  /** The size of the set of members of a sequence without duplicates. */
  lemma {:induction false} NoDupSize<T>(s: seq<T>, members: set<T>)
    requires NoDup(s) && members == set x | x in s
    ensures |members| == |s|
  {
    if s != [] {
      var front, last := s[..|s| - 1], s[|s| - 1];
      assert s == front + [last];
      NoDupSize(front, set x | x in front);
      assert members == (set x | x in front) + {last};
    }
  }

  /** Two lists of the same members, each without duplicates, are permutations. */
  lemma SameMembers<T>(a: seq<T>, b: seq<T>)
    requires NoDup(a) && NoDup(b) && forall x :: x in a <==> x in b
    ensures multiset(a) == multiset(b)
  {
    forall x ensures multiset(a)[x] == multiset(b)[x] {
      NoDupCount(a, x);
      NoDupCount(b, x);
      assert x in multiset(a) <==> x in a;
      assert x in multiset(b) <==> x in b;
    }
  }

  function Map<T, U>(f: T -> U, s: seq<T>): (r: seq<U>)
    ensures |r| == |s| && forall i :: 0 <= i < |s| ==> r[i] == f(s[i])
  {
    seq(|s|, i requires 0 <= i < |s| => f(s[i]))
  }

  lemma Around<T>(s: seq<T>, i: nat)
    requires i < |s|
    ensures s == s[..i] + [s[i]] + s[i + 1..]
  {
  }

  lemma TakeOut<T>(s: seq<T>, i: nat)
    requires i < |s|
    ensures multiset(s) == multiset(s[..i] + s[i + 1..]) + multiset{s[i]}
  {
    Around(s, i);
  }

  lemma MapTakeOut<T, U>(f: T -> U, s: seq<T>, i: nat)
    requires i < |s|
    ensures multiset(Map(f, s)) == multiset(Map(f, s[..i] + s[i + 1..])) + multiset{f(s[i])}
  {
    var m := Map(f, s);
    TakeOut(m, i);
    assert m[..i] + m[i + 1..] == Map(f, s[..i] + s[i + 1..]);
  }

  lemma Without<T>(a: seq<T>, b: seq<T>, i: nat, j: nat)
    requires multiset(a) == multiset(b) && i < |a| && j < |b| && a[i] == b[j]
    ensures multiset(a[..i] + a[i + 1..]) == multiset(b[..j] + b[j + 1..])
  {
    TakeOut(a, i);
    TakeOut(b, j);
    var x := a[i];
    assert multiset(a[..i] + a[i + 1..]) == multiset(a) - multiset{x};
    assert multiset(b[..j] + b[j + 1..]) == multiset(b) - multiset{x};
  }

  lemma Find<T>(a: seq<T>, b: seq<T>) returns (i: nat)
    requires multiset(a) == multiset(b) && a != []
    ensures i < |b| && b[i] == a[0]
  {
    assert a[0] in multiset(b);
    i :| 0 <= i < |b| && b[i] == a[0];
  }

  /** Mapping permuted lists gives permuted lists. */
  lemma {:induction false} MapKeeps<T, U>(f: T -> U, a: seq<T>, b: seq<T>)
    requires multiset(a) == multiset(b)
    ensures multiset(Map(f, a)) == multiset(Map(f, b))
    decreases |a|
  {
    if a == [] {
      assert |multiset(b)| == 0;
    } else {
      var i := Find(a, b);
      Without(a, b, 0, i);
      MapKeeps(f, a[..0] + a[1..], b[..i] + b[i + 1..]);
      MapTakeOut(f, a, 0);
      MapTakeOut(f, b, i);
    }
  }

  /** Without ties the sorted arrangement of a multiset is unique. */
  lemma {:induction false} SortedUnique<T(!new)>(leq: (T, T) -> bool, a: seq<T>, b: seq<T>)
    requires Sorted(leq, a) && Sorted(leq, b) && multiset(a) == multiset(b)
    requires Untied(leq, a) && forall x :: leq(x, x)
    ensures a == b
    decreases |a|
  {
    assert |a| == |multiset(a)| == |multiset(b)| == |b|;
    if a != [] {
      SortedLast(leq, a, b);
      var x, front, front' := a[|a| - 1], a[..|a| - 1], b[..|b| - 1];
      assert a == front + [x] && b == front' + [x];
      CancelLast(front, front', x);
      SortedUnique(leq, front, front');
    }
  }

  /** So a sort forgets the order its input came in. */
  lemma SortForgetsOrder<T(!new)>(leq: (T, T) -> bool, a: seq<T>, b: seq<T>)
    requires TotalPreorder(leq) && multiset(a) == multiset(b) && Untied(leq, a)
    ensures Sort(leq, a) == Sort(leq, b)
  {
    SortSorts(leq, a);
    SortSorts(leq, b);
    SortKeeps(leq, a);
    SortKeeps(leq, b);
    SortMembers(leq, a);
    SortedUnique(leq, Sort(leq, a), Sort(leq, b));
  }

  /** A sequence that is already in order is left alone. */
  lemma {:induction false} SortFixes<T>(leq: (T, T) -> bool, s: seq<T>)
    requires Sorted(leq, s)
    ensures Sort(leq, s) == s
  {
    if s != [] {
      var front, last := s[..|s| - 1], s[|s| - 1];
      SortFixes(leq, front);
      SortLast(leq, front, last);
      assert front + [last] == s;
    }
  }

  lemma SortLast<T>(leq: (T, T) -> bool, front: seq<T>, last: T)
    requires Sort(leq, front) == front && (front == [] || leq(front[|front| - 1], last))
    ensures Sort(leq, front + [last]) == front + [last]
  {
    assert (front + [last])[..|front|] == front;
    InsertLast(leq, front, last);
  }

  lemma InsertLast<T>(leq: (T, T) -> bool, s: seq<T>, x: T)
    requires s == [] || leq(s[|s| - 1], x)
    ensures Insert(leq, s, x) == s + [x]
  {
  }

  /** sort.SliceStable: reorders the slice it is given. */
  method SortInPlace<T>(a: array<T>, leq: (T, T) -> bool)
    modifies a
    ensures a[..] == Sort(leq, old(a[..]))
  {
    var s := Sort(leq, a[..]);
    forall i | 0 <= i < a.Length {
      a[i] := s[i];
    }
  }

  // ----- strings ------------------------------------------------------------------

  lemma LeqIsOrder()
    ensures TotalPreorder(Leq)
  {
    forall a, b ensures Leq(a, b) || Leq(b, a) {
      LessTrichotomy(a, b);
    }
    forall a, b, c | Leq(a, b) && Leq(b, c) ensures Leq(a, c) {
      if a != b && b != c {
        LessTransitive(a, b, c);
      }
    }
  }

  lemma LeqUntied(s: seq<string>)
    ensures Untied(Leq, s)
  {
    forall a, b | a in s && b in s && Leq(a, b) && Leq(b, a) ensures a == b {
      LessTrichotomy(a, b);
    }
  }
}
