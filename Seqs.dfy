/**
  Generic sequence helpers: the model's versions of `Array.prototype.findIndex`,
  `find`, `filter`, a counting function, and removal of one entry.
*/
module Seqs {
  import opened Wrappers

  /** Index of the first element satisfying `p`, or `|s|` when there is none. */
  function FirstIndex<T>(s: seq<T>, p: T -> bool): (k: nat)
    ensures k <= |s|
    ensures forall j :: 0 <= j < k ==> !p(s[j])
    ensures k < |s| ==> p(s[k])
  {
    if s == [] then 0
    else if p(s[0]) then 0
    else 1 + FirstIndex(s[1..], p)
  }

  /** `FirstIndex` is determined by its two defining properties. */
  lemma FirstIndexIs<T>(s: seq<T>, p: T -> bool, k: nat)
    requires k <= |s|
    requires forall j :: 0 <= j < k ==> !p(s[j])
    requires k < |s| ==> p(s[k])
    ensures FirstIndex(s, p) == k
  {
  }

  /** `Array.prototype.find`: the first element satisfying `p`. */
  function FirstWhere<T>(s: seq<T>, p: T -> bool): (r: Option<T>)
    ensures r.None? <==> forall j :: 0 <= j < |s| ==> !p(s[j])
    ensures r.Some? ==> r.value in s && p(r.value)
  {
    var k := FirstIndex(s, p);
    if k < |s| then Some(s[k]) else None
  }

  /** What `FirstWhere` finds is the element at the first index satisfying `p`. */
  lemma FirstWhereIsFirst<T>(s: seq<T>, p: T -> bool)
    ensures FirstWhere(s, p).Some? ==>
      exists k :: 0 <= k < |s| && s[k] == FirstWhere(s, p).value && forall j :: 0 <= j < k ==> !p(s[j])
  {
    var k := FirstIndex(s, p);
    if k < |s| {
      assert s[k] == FirstWhere(s, p).value;
    }
  }

  /** A member other than the head is a member of the tail. */
  lemma InTail<T>(s: seq<T>, x: T)
    requires x in s && x != s[0]
    ensures x in s[1..]
  {
    assert s == [s[0]] + s[1..];
  }

  /** `Array.prototype.filter`: the elements satisfying `p`, in their order. */
  function Filter<T(!new)>(s: seq<T>, p: T -> bool): (r: seq<T>)
    ensures |r| <= |s|
    ensures forall x :: x in r <==> x in s && p(x)
  {
    if s == [] then []
    else (if p(s[0]) then [s[0]] else []) + Filter(s[1..], p)
  }

  lemma {:induction false} FilterAppend<T(!new)>(a: seq<T>, b: seq<T>, p: T -> bool)
    ensures Filter(a + b, p) == Filter(a, p) + Filter(b, p)
  {
    if a == [] {
      assert a + b == b;
    } else {
      assert (a + b)[1..] == a[1..] + b;
      FilterAppend(a[1..], b, p);
    }
  }

  /** One step of `Filter`, seen as a multiset. */
  lemma FilterConsMultiset<T(!new)>(s: seq<T>, p: T -> bool)
    requires s != []
    ensures multiset(Filter(s, p))
         == (if p(s[0]) then multiset{s[0]} else multiset{}) + multiset(Filter(s[1..], p))
  {
    if p(s[0]) {
      assert Filter(s, p) == [s[0]] + Filter(s[1..], p);
    } else {
      assert Filter(s, p) == Filter(s[1..], p);
    }
  }

  /** Filtering by `p` and by its negation splits the multiset of elements. */
  lemma {:induction false} FilterSplitsMultiset<T(!new)>(s: seq<T>, p: T -> bool, q: T -> bool)
    requires forall x :: q(x) == !p(x)
    ensures multiset(Filter(s, p)) + multiset(Filter(s, q)) == multiset(s)
  {
    if s != [] {
      var t := s[1..];
      FilterSplitsMultiset(t, p, q);
      FilterConsMultiset(s, p);
      FilterConsMultiset(s, q);
      assert q(s[0]) == !p(s[0]);
      MultisetCons(s);
      UnionStep(multiset{s[0]}, p(s[0]), multiset(Filter(s, p)), multiset(Filter(t, p)),
                multiset(Filter(s, q)), multiset(Filter(t, q)), multiset(t));
    }
  }

  lemma MultisetCons<T>(s: seq<T>)
    requires s != []
    ensures multiset(s) == multiset{s[0]} + multiset(s[1..])
  {
    assert s == [s[0]] + s[1..];
  }

  /** The multiset step of `FilterSplitsMultiset`: the head goes to exactly one side. */
  lemma UnionStep<T>(h: multiset<T>, left: bool, a: multiset<T>, a': multiset<T>,
                     b: multiset<T>, b': multiset<T>, t: multiset<T>)
    requires a == (if left then h else multiset{}) + a'
    requires b == (if left then multiset{} else h) + b'
    requires a' + b' == t
    ensures a + b == h + t
  {
  }

  /** `find` over a sequence partitioned by `q`: when what it finds fails
      `q`, no element satisfying `q` satisfies `p`. */
  lemma FirstWhereAfterPartition<T(!new)>(s: seq<T>, q: T -> bool, nq: T -> bool, p: T -> bool)
    requires forall x :: nq(x) == !q(x)
    ensures var r := FirstWhere(Filter(s, q) + Filter(s, nq), p);
            r.Some? && !q(r.value) ==> forall x :: x in s && q(x) ==> !p(x)
  {
    var a, o := Filter(s, q), Filter(s, q) + Filter(s, nq);
    var k := FirstIndex(o, p);
    forall i | 0 <= i < |a| ensures q(o[i]) && o[i] == a[i] {
      assert a[i] in a;
    }
    if k < |o| && !q(o[k]) {
      forall x | x in s && q(x) ensures !p(x) {
        assert x in a;
        var j :| 0 <= j < |a| && a[j] == x;
        assert o[j] == x;
      }
    }
  }

  /** `find` finds nothing exactly when no member satisfies `p`. */
  lemma FirstWhereNoneIff<T>(s: seq<T>, p: T -> bool)
    ensures FirstWhere(s, p).None? <==> forall x :: x in s ==> !p(x)
  {
  }

  /** Number of elements satisfying `p`. */
  function CountWhere<T>(s: seq<T>, p: T -> bool): nat
  {
    if s == [] then 0 else (if p(s[0]) then 1 else 0) + CountWhere(s[1..], p)
  }

  lemma {:induction false} CountAppend<T>(a: seq<T>, b: seq<T>, p: T -> bool)
    ensures CountWhere(a + b, p) == CountWhere(a, p) + CountWhere(b, p)
  {
    if a == [] {
      assert a + b == b;
    } else {
      assert (a + b)[1..] == a[1..] + b;
      CountAppend(a[1..], b, p);
    }
  }

  lemma {:induction false} CountPositive<T>(s: seq<T>, p: T -> bool)
    requires CountWhere(s, p) > 0
    ensures exists i :: 0 <= i < |s| && p(s[i])
  {
    if !p(s[0]) {
      CountPositive(s[1..], p);
      var i :| 0 <= i < |s[1..]| && p(s[1..][i]);
      assert p(s[i + 1]);
    }
  }

  /** `s` without its entry at index `i`. */
  function RemoveAt<T>(s: seq<T>, i: nat): (r: seq<T>)
    requires i < |s|
    ensures |r| == |s| - 1
    ensures forall j :: 0 <= j < i ==> r[j] == s[j]
    ensures forall j :: i <= j < |r| ==> r[j] == s[j + 1]
  {
    s[..i] + s[i + 1..]
  }

  lemma CountRemoveAt<T>(s: seq<T>, i: nat, p: T -> bool)
    requires i < |s|
    ensures CountWhere(RemoveAt(s, i), p) == CountWhere(s, p) - (if p(s[i]) then 1 else 0)
  {
    var a, b := s[..i], s[i + 1..];
    assert s == a + ([s[i]] + b);
    CountAppend(a, b, p);
    CountAppend(a, [s[i]] + b, p);
    CountCons(s[i], b, p);
  }

  lemma CountCons<T>(x: T, t: seq<T>, p: T -> bool)
    ensures CountWhere([x] + t, p) == (if p(x) then 1 else 0) + CountWhere(t, p)
  {
    assert ([x] + t)[1..] == t;
  }

  lemma CountSnoc<T>(s: seq<T>, x: T, p: T -> bool)
    ensures CountWhere(s + [x], p) == CountWhere(s, p) + (if p(x) then 1 else 0)
  {
    CountAppend(s, [x], p);
  }
}
