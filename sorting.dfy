/** `ORDER BY k1 DESC, k2 DESC LIMIT n` over the rows a query selects: a
    stable insertion sort on a pair of natural keys, then a prefix. */
module Sorting {

  /** `a` sorts before `b`, or level with it, in descending order on the
      first key and then on the second. */
  predicate AtLeast(a: (nat, nat), b: (nat, nat)) {
    a.0 > b.0 || (a.0 == b.0 && a.1 >= b.1)
  }

  predicate SortedDesc<T>(xs: seq<T>, key: T -> (nat, nat)) {
    forall i, j :: 0 <= i < j < |xs| ==> AtLeast(key(xs[i]), key(xs[j]))
  }

  /** `x` placed after every element whose key is at least its own. */
  function Insert<T>(xs: seq<T>, x: T, key: T -> (nat, nat)): seq<T>
    decreases |xs|
  {
    if xs == [] then [x]
    else if AtLeast(key(xs[0]), key(x)) then [xs[0]] + Insert(xs[1..], x, key)
    else [x] + xs
  }

  /** Insertion sort, rows taken in table order, so equal keys keep that order. */
  function Sort<T>(xs: seq<T>, key: T -> (nat, nat)): seq<T>
    decreases |xs|
  {
    if xs == [] then [] else Insert(Sort(xs[..|xs| - 1], key), xs[|xs| - 1], key)
  }

  /** `LIMIT n` */
  function Limit<T>(xs: seq<T>, n: nat): seq<T> {
    if |xs| <= n then xs else xs[..n]
  }

  lemma {:induction false} InsertPermutes<T>(xs: seq<T>, x: T, key: T -> (nat, nat))
    ensures multiset(Insert(xs, x, key)) == multiset(xs) + multiset{x}
    decreases |xs|
  {
    if xs != [] && AtLeast(key(xs[0]), key(x)) {
      InsertPermutes(xs[1..], x, key);
      assert xs == [xs[0]] + xs[1..];
    }
  }

  lemma {:induction false} InsertSorted<T>(xs: seq<T>, x: T, key: T -> (nat, nat))
    requires SortedDesc(xs, key)
    ensures SortedDesc(Insert(xs, x, key), key)
    decreases |xs|
  {
    if xs != [] && AtLeast(key(xs[0]), key(x)) {
      var rest := Insert(xs[1..], x, key);
      InsertSorted(xs[1..], x, key);
      InsertPermutes(xs[1..], x, key);
      forall j | 0 <= j < |rest| ensures AtLeast(key(xs[0]), key(rest[j])) {
        assert rest[j] in multiset(rest);
        assert rest[j] == x || rest[j] in multiset(xs[1..]);
      }
    }
  }

  /** The sorted rows are the selected rows, rearranged, in descending key order. */
  lemma {:induction false} SortSpec<T>(xs: seq<T>, key: T -> (nat, nat))
    ensures multiset(Sort(xs, key)) == multiset(xs)
    ensures SortedDesc(Sort(xs, key), key)
    decreases |xs|
  {
    if xs != [] {
      var init := xs[..|xs| - 1];
      SortSpec(init, key);
      InsertPermutes(Sort(init, key), xs[|xs| - 1], key);
      InsertSorted(Sort(init, key), xs[|xs| - 1], key);
      assert xs == init + [xs[|xs| - 1]];
    }
  }

  /** `ORDER BY ... LIMIT n` keeps at most `n` of the selected rows, in
      descending key order, and every row it drops sorts no higher than any
      row it keeps. */
  lemma TopRows<T>(xs: seq<T>, key: T -> (nat, nat), n: nat)
    ensures var sorted := Sort(xs, key);
            var top := Limit(sorted, n);
            |top| <= n && |top| == (if |xs| <= n then |xs| else n)
            && top == sorted[..|top|] && SortedDesc(top, key)
            && multiset(top) + multiset(sorted[|top|..]) == multiset(xs)
            && (forall i, j :: 0 <= i < |top| <= j < |sorted| ==> AtLeast(key(top[i]), key(sorted[j])))
  {
    var sorted := Sort(xs, key);
    SortSpec(xs, key);
    assert |sorted| == |xs| by {
      assert |multiset(sorted)| == |multiset(xs)|;
    }
    var top := Limit(sorted, n);
    assert sorted == top + sorted[|top|..];
  }
}
