/** The stable sort of a vector (`sort_by`, `sort`), as a function, with what identifies its result. */
module Sorting {
  import opened Common

  /** `le` compares any two elements and is transitive; ties between different elements are allowed. */
  ghost predicate TotalPreorder<T(!new)>(le: (T, T) -> bool) {
    && (forall x, y :: le(x, y) || le(y, x))
    && (forall x, y, z :: le(x, y) && le(y, z) ==> le(x, z))
  }

  ghost predicate SortedBy<T>(le: (T, T) -> bool, s: seq<T>) {
    forall i, j :: 0 <= i < j < |s| ==> le(s[i], s[j])
  }

  function Insert<T>(le: (T, T) -> bool, x: T, s: seq<T>): (r: seq<T>) {
    if s == [] || le(x, s[0]) then [x] + s else [s[0]] + Insert(le, x, s[1..])
  }

  function Sort<T>(le: (T, T) -> bool, s: seq<T>): (r: seq<T>) {
    if s == [] then [] else Insert(le, s[0], Sort(le, s[1..]))
  }

  lemma {:induction false} InsertPermutes<T>(le: (T, T) -> bool, x: T, s: seq<T>)
    ensures multiset(Insert(le, x, s)) == multiset([x] + s)
  {
    if s != [] && !le(x, s[0]) {
      InsertPermutes(le, x, s[1..]);
      assert s == [s[0]] + s[1..];
    }
  }

  lemma {:induction false} SortPermutes<T>(le: (T, T) -> bool, s: seq<T>)
    ensures multiset(Sort(le, s)) == multiset(s)
    ensures |Sort(le, s)| == |s|
  {
    if s != [] {
      SortPermutes(le, s[1..]);
      InsertPermutes(le, s[0], Sort(le, s[1..]));
      assert s == [s[0]] + s[1..];
      assert |Sort(le, s)| == |multiset(Sort(le, s))| == |multiset(s)|;
    }
  }

  lemma {:induction false} InsertSorts<T(!new)>(le: (T, T) -> bool, x: T, s: seq<T>)
    requires TotalPreorder(le) && SortedBy(le, s)
    ensures SortedBy(le, Insert(le, x, s))
  {
    if s != [] && !le(x, s[0]) {
      var rest := Insert(le, x, s[1..]);
      InsertSorts(le, x, s[1..]);
      InsertPermutes(le, x, s[1..]);
      forall j | 0 <= j < |rest| ensures le(s[0], rest[j]) {
        assert rest[j] in multiset(rest);
        assert rest[j] in [x] + s[1..];
      }
    }
  }

  lemma {:induction false} SortSorts<T(!new)>(le: (T, T) -> bool, s: seq<T>)
    requires TotalPreorder(le)
    ensures SortedBy(le, Sort(le, s))
  {
    if s != [] {
      SortSorts(le, s[1..]);
      InsertSorts(le, s[0], Sort(le, s[1..]));
    }
  }

  lemma TailMultiset<T>(s: seq<T>)
    requires s != []
    ensures multiset(s[1..]) == multiset(s) - multiset{s[0]}
  {
    assert s == [s[0]] + s[1..];
  }

  /** Two sorted arrangements of the same elements agree when no two different elements tie. */
  lemma {:induction false} SortedUnique<T(!new)>(le: (T, T) -> bool, a: seq<T>, b: seq<T>)
    requires SortedBy(le, a) && SortedBy(le, b)
    requires multiset(a) == multiset(b)
    requires forall x, y :: x in a && y in a && le(x, y) && le(y, x) ==> x == y
    ensures a == b
  {
    assert |a| == |multiset(a)| == |multiset(b)| == |b|;
    if a != [] {
      SameFirst(le, a, b);
      TailMultiset(a);
      TailMultiset(b);
      SortedUnique(le, a[1..], b[1..]);
      SameHeadAndTail(a, b);
    }
  }

  lemma SameHeadAndTail<T>(a: seq<T>, b: seq<T>)
    requires a != [] && b != [] && a[0] == b[0] && a[1..] == b[1..]
    ensures a == b
  {
    assert a == [a[0]] + a[1..] && b == [b[0]] + b[1..];
  }

  lemma SameFirst<T(!new)>(le: (T, T) -> bool, a: seq<T>, b: seq<T>)
    requires a != [] && b != [] && SortedBy(le, a) && SortedBy(le, b)
    requires multiset(a) == multiset(b)
    requires forall x, y :: x in a && y in a && le(x, y) && le(y, x) ==> x == y
    ensures a[0] == b[0]
  {
    assert a[0] in multiset(b) && b[0] in multiset(a);
    var i :| 0 <= i < |b| && b[i] == a[0];
    var j :| 0 <= j < |a| && a[j] == b[0];
    assert a[0] in a && a[j] in a;
  }

  /** A list that is already in order is left as it is. */
  lemma {:induction false} SortKeepsSorted<T>(le: (T, T) -> bool, s: seq<T>)
    requires SortedBy(le, s)
    ensures Sort(le, s) == s
  {
    if s != [] {
      SortKeepsSorted(le, s[1..]);
      assert s == [s[0]] + s[1..];
    }
  }

  predicate Tied<T>(le: (T, T) -> bool, x: T, y: T) {
    le(x, y) && le(y, x)
  }

  function TiedWith<T>(le: (T, T) -> bool, z: T): (p: T -> bool) {
    y => Tied(le, z, y)
  }

  lemma {:induction false} InsertStable<T(!new)>(le: (T, T) -> bool, x: T, s: seq<T>, z: T)
    requires TotalPreorder(le)
    ensures Filter(Insert(le, x, s), TiedWith(le, z)) == Filter([x] + s, TiedWith(le, z))
  {
    var p := TiedWith(le, z);
    if s != [] && !le(x, s[0]) {
      InsertStable(le, x, s[1..], z);
      assert ([s[0]] + Insert(le, x, s[1..]))[1..] == Insert(le, x, s[1..]);
      assert ([x] + s)[1..] == s && ([x] + s[1..])[1..] == s[1..];
      assert !(p(x) && p(s[0]));
    }
  }

  /** Elements that tie keep the order they came in. */
  lemma {:induction false} SortStable<T(!new)>(le: (T, T) -> bool, s: seq<T>, z: T)
    requires TotalPreorder(le)
    ensures Filter(Sort(le, s), TiedWith(le, z)) == Filter(s, TiedWith(le, z))
  {
    if s != [] {
      SortStable(le, s[1..], z);
      InsertStable(le, s[0], Sort(le, s[1..]), z);
      assert ([s[0]] + Sort(le, s[1..]))[1..] == Sort(le, s[1..]);
    }
  }

  /** Every arrangement of the elements sorts to the same list. */
  ghost predicate OrderIrrelevant<T(!new)>(le: (T, T) -> bool, s: seq<T>) {
    forall t: seq<T> :: multiset(t) == multiset(s) ==> Sort(le, t) == Sort(le, s)
  }

  ghost predicate NoTies<T(!new)>(le: (T, T) -> bool, s: seq<T>) {
    forall x, y :: x in s && y in s && Tied(le, x, y) ==> x == y
  }

  lemma NoTiesSortAlike<T(!new)>(le: (T, T) -> bool, s: seq<T>, t: seq<T>)
    requires TotalPreorder(le) && NoTies(le, s) && multiset(t) == multiset(s)
    ensures Sort(le, t) == Sort(le, s)
  {
    SortSorts(le, s);
    SortSorts(le, t);
    SortPermutes(le, s);
    SortPermutes(le, t);
    forall x | x in Sort(le, s) ensures x in s { assert x in multiset(Sort(le, s)); }
    forall x, y | x in Sort(le, s) && y in Sort(le, s) && le(x, y) && le(y, x) ensures x == y {
      assert Tied(le, x, y);
    }
    SortedUnique(le, Sort(le, s), Sort(le, t));
  }

  /** The result does not depend on the order of the input exactly when no two different elements tie. */
  lemma OrderIrrelevantIff<T(!new)>(le: (T, T) -> bool, s: seq<T>)
    requires TotalPreorder(le)
    ensures OrderIrrelevant(le, s) <==> NoTies(le, s)
  {
    if NoTies(le, s) {
      forall t: seq<T> | multiset(t) == multiset(s) ensures Sort(le, t) == Sort(le, s) {
        NoTiesSortAlike(le, s, t);
      }
    } else {
      var x, y :| x in s && y in s && Tied(le, x, y) && x != y;
      TiesMakeOrderMatter(le, s, x, y);
    }
  }

  lemma TiesMakeOrderMatter<T(!new)>(le: (T, T) -> bool, s: seq<T>, x: T, y: T)
    requires TotalPreorder(le) && x in s && y in s && Tied(le, x, y) && x != y
    ensures !OrderIrrelevant(le, s)
  {
    var rest := RemoveFirst(RemoveFirst(s, x), y);
    var t, u := [x, y] + rest, [y, x] + rest;
    Rearranged(s, x, y);
    SwappedTiesSortApart(le, x, y, rest);
    SortsApart(le, s, t, u);
  }

  lemma SortsApart<T(!new)>(le: (T, T) -> bool, s: seq<T>, t: seq<T>, u: seq<T>)
    requires multiset(t) == multiset(s) && multiset(u) == multiset(s) && Sort(le, t) != Sort(le, u)
    ensures !OrderIrrelevant(le, s)
  {
  }

  lemma SwappedTiesSortApart<T(!new)>(le: (T, T) -> bool, x: T, y: T, rest: seq<T>)
    requires TotalPreorder(le) && Tied(le, x, y) && x != y
    ensures Sort(le, [x, y] + rest) != Sort(le, [y, x] + rest)
  {
    var t, u := [x, y] + rest, [y, x] + rest;
    TiedPairFirst(le, x, y, rest);
    TiedPairFirst(le, y, x, rest);
    SortStable(le, t, x);
    SortStable(le, u, x);
    assert Filter(t, TiedWith(le, x))[0] == x && Filter(u, TiedWith(le, x))[0] == y;
  }

  lemma TiedPairFirst<T(!new)>(le: (T, T) -> bool, x: T, y: T, rest: seq<T>)
    requires TotalPreorder(le) && Tied(le, x, y)
    ensures Filter([x, y] + rest, TiedWith(le, x)) == [x, y] + Filter(rest, TiedWith(le, x))
    ensures Filter([x, y] + rest, TiedWith(le, y)) == [x, y] + Filter(rest, TiedWith(le, y))
  {
    assert le(x, x) && le(y, y);
    FilterConcat([x, y], rest, TiedWith(le, x));
    FilterConcat([x, y], rest, TiedWith(le, y));
    FilterAll([x, y], TiedWith(le, x));
    FilterAll([x, y], TiedWith(le, y));
  }

  lemma Rearranged<T>(s: seq<T>, x: T, y: T)
    requires x in s && y in s && x != y
    ensures var rest := RemoveFirst(RemoveFirst(s, x), y);
            multiset([x, y] + rest) == multiset(s) && multiset([y, x] + rest) == multiset(s)
  {
    RemoveFirstMultiset(s, x);
    RemoveFirstMultiset(RemoveFirst(s, x), y);
    PutBack(s, RemoveFirst(RemoveFirst(s, x), y), x, y);
  }

  lemma PutBack<T>(s: seq<T>, rest: seq<T>, x: T, y: T)
    requires x in s && y in s && x != y
    requires multiset(rest) == multiset(s) - multiset{x} - multiset{y}
    ensures multiset([x, y] + rest) == multiset(s) && multiset([y, x] + rest) == multiset(s)
  {
    TakeOutAndPutBack(multiset(s), x, y);
    assert multiset([x, y] + rest) == multiset{x, y} + multiset(rest);
    assert multiset([y, x] + rest) == multiset{x, y} + multiset(rest);
  }

  lemma TakeOutAndPutBack<T>(m: multiset<T>, x: T, y: T)
    requires x in m && y in m && x != y
    ensures multiset{x, y} + (m - multiset{x} - multiset{y}) == m
  {
  }
}
