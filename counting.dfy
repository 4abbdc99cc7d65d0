/**
 * Frequency counting as pandas' Series.value_counts() does it, head(n) on
 * the result, and value_counts().sort_index() for integer keys.
 *
 * pandas promises no particular order between values of equal count, so
 * these functions are specified by properties only: every entry carries the
 * true number of occurrences, no value is listed twice, counts never
 * increase along the result, and every value of the input is listed.
 */
module Counting {

  /** No value occurs twice in s. */
  predicate NoDup<T(==)>(s: seq<T>) { forall i, j :: 0 <= i < j < |s| ==> s[i] != s[j] }

  function Elems<T>(s: seq<T>): set<T> { set x | x in s }

  function Min(a: int, b: int): int { if a <= b then a else b }

  /** Number of occurrences of x in xs. */
  function Count<T(==)>(xs: seq<T>, x: T): nat { multiset(xs)[x] }

  /** The first components of a sequence of pairs. */
  function Keys<K, V>(ps: seq<(K, V)>): (ks: seq<K>)
    ensures |ks| == |ps|
  {
    seq(|ps|, i requires 0 <= i < |ps| => ps[i].0)
  }

  /** Without repetitions, a sequence has as many elements as its set. */
  lemma {:induction false} NoDupCard<T>(s: seq<T>)
    requires NoDup(s)
    ensures |Elems(s)| == |s|
  {
    if |s| > 0 {
      var init := s[..|s| - 1];
      assert s == init + [s[|s| - 1]];
      assert Elems(s) == Elems(init) + {s[|s| - 1]};
      NoDupCard(init);
    }
  }

  /** The distinct values of xs, in order of first appearance. */
  function Distinct<T(==, !new)>(xs: seq<T>): (d: seq<T>)
    ensures NoDup(d)
    ensures forall x :: x in d <==> x in xs
  {
    if |xs| == 0 then []
    else
      var init := xs[..|xs| - 1];
      var x := xs[|xs| - 1];
      assert xs == init + [x];
      var d := Distinct(init);
      if x in d then d else d + [x]
  }

  // ---------------------------------------------------------------------------
  // value_counts(): distinct values ordered by non-increasing count
  // ---------------------------------------------------------------------------

  predicate ByCountDesc<T(==)>(s: seq<T>, xs: seq<T>)
  {
    forall i, j :: 0 <= i < j < |s| ==> Count(xs, s[i]) >= Count(xs, s[j])
  }

  /** Insertion of x in front of the first value counted less often than x. */
  function InsertByCount<T(==, !new)>(x: T, s: seq<T>, xs: seq<T>): (r: seq<T>)
    requires ByCountDesc(s, xs)
    ensures |r| == |s| + 1
    ensures forall y :: y in r <==> y == x || y in s
    ensures ByCountDesc(r, xs)
    ensures x !in s && NoDup(s) ==> NoDup(r)
  {
    if |s| == 0 || Count(xs, x) >= Count(xs, s[0]) then [x] + s
    else
      assert forall y :: y in s[1..] ==> Count(xs, y) <= Count(xs, s[0]);
      var rest := InsertByCount(x, s[1..], xs);
      assert x !in s && NoDup(s) ==> s[0] !in rest;
      [s[0]] + rest
  }

  /** Insertion sort of keys by non-increasing count in xs. */
  function SortByCount<T(==, !new)>(keys: seq<T>, xs: seq<T>): (r: seq<T>)
    ensures |r| == |keys| && ByCountDesc(r, xs)
    ensures forall y :: y in r <==> y in keys
    ensures NoDup(keys) ==> NoDup(r)
  {
    if |keys| == 0 then []
    else
      assert forall y :: y in keys <==> y == keys[0] || y in keys[1..];
      InsertByCount(keys[0], SortByCount(keys[1..], xs), xs)
  }

  /** Each key paired with its number of occurrences in xs. */
  function Tally<T(==)>(keys: seq<T>, xs: seq<T>): (r: seq<(T, nat)>)
    ensures Keys(r) == keys
  {
    var r := seq(|keys|, i requires 0 <= i < |keys| => (keys[i], Count(xs, keys[i])));
    assert Keys(r) == keys;
    r
  }

  /**
   * xs.value_counts(): one entry per distinct value with its number of
   * occurrences, in non-increasing order of count.
   */
  function ValueCounts<T(==, !new)>(xs: seq<T>): (r: seq<(T, nat)>)
    ensures NoDup(Keys(r))
    ensures forall x :: x in Keys(r) <==> x in xs
    ensures |r| == |Elems(xs)|
    ensures forall i :: 0 <= i < |r| ==> r[i].1 == Count(xs, r[i].0) && r[i].1 > 0
    ensures forall i, j :: 0 <= i < j < |r| ==> r[i].1 >= r[j].1
  {
    var ks := SortByCount(Distinct(xs), xs);
    var r := Tally(ks, xs);
    NoDupCard(ks);
    assert Elems(ks) == Elems(xs);
    assert forall i :: 0 <= i < |r| ==> r[i].0 == ks[i] && ks[i] in xs;
    r
  }

  /** Series.head(n). */
  function Take<T>(s: seq<T>, n: nat): (r: seq<T>)
  {
    if n <= |s| then s[..n] else s
  }

  /**
   * xs.value_counts().head(n): a selection of at most n entries of the full
   * counts, in non-increasing order of count, of which nothing left out is
   * counted more often than the last entry kept.
   */
  function Top<T(==, !new)>(xs: seq<T>, n: nat): (t: seq<(T, nat)>)
    ensures |t| == Min(n, |Elems(xs)|)
    ensures NoDup(Keys(t))
    ensures forall i :: 0 <= i < |t| ==> t[i].0 in xs && t[i].1 == Count(xs, t[i].0)
    ensures forall i, j :: 0 <= i < j < |t| ==> t[i].1 >= t[j].1
    ensures forall x :: x in xs && x !in Keys(t) ==> |t| == n && (n > 0 ==> Count(xs, x) <= t[n - 1].1)
  {
    var r := ValueCounts(xs);
    TakeCounts(xs, r, n);
    Take(r, n)
  }

  /** The first n entries of full counts keep their properties, and nothing left out beats the last one kept. */
  lemma TakeCounts<T(!new)>(xs: seq<T>, r: seq<(T, nat)>, n: nat)
    requires NoDup(Keys(r)) && |r| == |Elems(xs)|
    requires forall x :: x in Keys(r) <==> x in xs
    requires forall i, j :: 0 <= i < j < |r| ==> r[i].1 >= r[j].1
    requires forall i :: 0 <= i < |r| ==> r[i].1 == Count(xs, r[i].0)
    ensures var t := Take(r, n);
      |t| == Min(n, |Elems(xs)|) && NoDup(Keys(t))
      && (forall i :: 0 <= i < |t| ==> t[i].0 in xs && t[i].1 == Count(xs, t[i].0))
      && (forall i, j :: 0 <= i < j < |t| ==> t[i].1 >= t[j].1)
      && forall x :: x in xs && x !in Keys(t) ==> |t| == n && (n > 0 ==> Count(xs, x) <= t[n - 1].1)
  {
    var t := Take(r, n);
    assert Keys(t) == Take(Keys(r), n);
    assert forall i :: 0 <= i < |t| ==> t[i] == r[i] && Keys(r)[i] == r[i].0;
    TakeOmitted(xs, r, n);
  }

  lemma TakeOmitted<T(!new)>(xs: seq<T>, r: seq<(T, nat)>, n: nat)
    requires forall x :: x in Keys(r) <==> x in xs
    requires forall i, j :: 0 <= i < j < |r| ==> r[i].1 >= r[j].1
    requires forall i :: 0 <= i < |r| ==> r[i].1 == Count(xs, r[i].0)
    ensures forall x :: x in xs && x !in Keys(Take(r, n)) ==>
      |Take(r, n)| == n && (n > 0 ==> Count(xs, x) <= Take(r, n)[n - 1].1)
  {
    var t := Take(r, n);
    assert Keys(t) == Take(Keys(r), n);
    forall x | x in xs && x !in Keys(t)
      ensures |t| == n && (n > 0 ==> Count(xs, x) <= t[n - 1].1)
    {
      var j :| 0 <= j < |r| && Keys(r)[j] == x;
    }
  }

  // ---------------------------------------------------------------------------
  // value_counts().sort_index(): distinct integers in ascending order
  // ---------------------------------------------------------------------------

  predicate StrictlyAscending(s: seq<int>) { forall i, j :: 0 <= i < j < |s| ==> s[i] < s[j] }

  function InsertAscending(y: int, s: seq<int>): (r: seq<int>)
    requires StrictlyAscending(s) && y !in s
    ensures |r| == |s| + 1 && StrictlyAscending(r)
    ensures forall z :: z in r <==> z == y || z in s
  {
    if |s| == 0 || y < s[0] then
      assert forall z :: z in s ==> y < z by {
        forall z | z in s ensures y < z {
          var k :| 0 <= k < |s| && s[k] == z;
          assert k == 0 || s[0] < s[k];
        }
      }
      [y] + s
    else
      var tail := s[1..];
      assert StrictlyAscending(tail);
      var rest := InsertAscending(y, tail);
      assert forall z :: z in tail ==> s[0] < z;
      assert s[0] < y;
      var r := [s[0]] + rest;
      assert forall z :: z in s <==> z == s[0] || z in tail by {
        assert s == [s[0]] + tail;
      }
      SnocAscending(s[0], rest);
      r
  }

  lemma SnocAscending(x: int, rest: seq<int>)
    requires StrictlyAscending(rest) && forall z :: z in rest ==> x < z
    ensures StrictlyAscending([x] + rest)
  {
    var r := [x] + rest;
    forall i, j | 0 <= i < j < |r| ensures r[i] < r[j] {
      assert r[j] == rest[j - 1];
      if i > 0 {
        assert r[i] == rest[i - 1];
      } else {
        assert rest[j - 1] in rest;
      }
    }
  }

  function SortAscending(s: seq<int>): (r: seq<int>)
    requires NoDup(s)
    ensures |r| == |s| && StrictlyAscending(r)
    ensures forall z :: z in r <==> z in s
  {
    if |s| == 0 then []
    else
      assert forall z :: z in s <==> z == s[0] || z in s[1..];
      InsertAscending(s[0], SortAscending(s[1..]))
  }

  /**
   * ys.value_counts().sort_index(): one entry per distinct integer with its
   * number of occurrences, in strictly ascending order of the integer.
   */
  function CountsByKey(ys: seq<int>): (r: seq<(int, nat)>)
    ensures StrictlyAscending(Keys(r))
    ensures forall y :: y in Keys(r) <==> y in ys
    ensures forall i :: 0 <= i < |r| ==> r[i].1 == Count(ys, r[i].0) && r[i].1 > 0
  {
    var ks := SortAscending(Distinct(ys));
    var r := Tally(ks, ys);
    assert forall i :: 0 <= i < |r| ==> r[i].0 == ks[i] && ks[i] in ys;
    r
  }
}
