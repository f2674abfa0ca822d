/**
 * The LINQ and `string.Join` operations the services use, over Dafny sequences:
 * `Where` (an order-preserving filter), `Select` (an element-wise map) and `Join`.
 */
module Collections {

  /**
   * LINQ `Where`: keeps the elements that satisfy `p`, in their original order.
   * Its properties are the lemmas below: `WhereSound`, `WhereCount`, `WhereKeepsOrder`.
   */
  function Where<T>(s: seq<T>, p: T -> bool): seq<T> {
    if s == [] then []
    else if p(s[0]) then [s[0]] + Where(s[1..], p)
    else Where(s[1..], p)
  }

  /** Everything `Where` returns comes from the input and satisfies the filter. */
  lemma {:induction false} WhereSound<T>(s: seq<T>, p: T -> bool)
    ensures forall x :: x in Where(s, p) ==> x in s && p(x)
  {
    if s != [] {
      WhereSound(s[1..], p);
    }
  }

  /** `Where` keeps every occurrence of an element that satisfies `p`, and none of one that does not. */
  lemma {:induction false} WhereCount<T>(s: seq<T>, p: T -> bool, x: T)
    ensures multiset(Where(s, p))[x] == if p(x) then multiset(s)[x] else 0
  {
    if s != [] {
      WhereCount(s[1..], p, x);
      assert s == [s[0]] + s[1..];
      if p(s[0]) {
        assert Where(s, p) == [s[0]] + Where(s[1..], p);
      }
    }
  }

  /** LINQ `Select`: applies `f` to every element. */
  function Select<T, U>(s: seq<T>, f: T -> U): (r: seq<U>)
    ensures |r| == |s|
    ensures forall i :: 0 <= i < |s| ==> r[i] == f(s[i])
  {
    seq(|s|, i requires 0 <= i < |s| => f(s[i]))
  }

  /** Mapping keeps sub-multisets: the images of part of `b` are part of the images of `b`. */
  lemma {:induction false} SelectSubMultiset<T, U>(a: seq<T>, b: seq<T>, f: T -> U)
    requires multiset(a) <= multiset(b)
    ensures multiset(Select(a, f)) <= multiset(Select(b, f))
  {
    if a != [] {
      assert a[0] in multiset(a);
      var k :| 0 <= k < |b| && b[k] == a[0];
      var rest := b[..k] + b[k + 1..];
      DropMatchingElement(a, b, k);
      SelectSubMultiset(a[1..], rest, f);
      SelectWithout(b, k, f);
      assert Select(a, f) == [f(a[0])] + Select(a[1..], f);
    }
  }

  /** Taking the first element of `a` out of `a` and one copy of it out of `b` keeps `a` within `b`. */
  lemma DropMatchingElement<T>(a: seq<T>, b: seq<T>, k: int)
    requires multiset(a) <= multiset(b) && a != [] && 0 <= k < |b| && b[k] == a[0]
    ensures multiset(a[1..]) <= multiset(b[..k] + b[k + 1..])
  {
    var rest := b[..k] + b[k + 1..];
    assert a == [a[0]] + a[1..];
    assert b == b[..k] + [b[k]] + b[k + 1..];
    assert multiset(b) == multiset(rest) + multiset{b[k]};
    forall y ensures multiset(a[1..])[y] <= multiset(rest)[y] {
      assert multiset(a)[y] <= multiset(b)[y];
    }
  }

  /** The images of `b` are the images of `b` without its `k`-th element, plus that element's image. */
  lemma SelectWithout<T, U>(b: seq<T>, k: int, f: T -> U)
    requires 0 <= k < |b|
    ensures multiset(Select(b, f)) == multiset(Select(b[..k] + b[k + 1..], f)) + multiset{f(b[k])}
  {
    assert Select(b, f) == Select(b[..k], f) + [f(b[k])] + Select(b[k + 1..], f);
    assert Select(b[..k] + b[k + 1..], f) == Select(b[..k], f) + Select(b[k + 1..], f);
  }

  /** The elements of `s` appear in strictly increasing order of `key`. */
  ghost predicate StrictlyIncreasingBy<T>(s: seq<T>, key: T -> int) {
    forall i, j :: 0 <= i < j < |s| ==> key(s[i]) < key(s[j])
  }

  /** A filter every element passes leaves the sequence as it is. */
  lemma {:induction false} WhereAll<T>(s: seq<T>, p: T -> bool)
    requires forall y :: y in s ==> p(y)
    ensures Where(s, p) == s
  {
    if s != [] {
      WhereAll(s[1..], p);
    }
  }

  /** A filter that rejects exactly one element, which occurs once, removes exactly one element. */
  lemma {:induction false} WhereDropsOne<T>(s: seq<T>, p: T -> bool, x: T)
    requires multiset(s)[x] == 1 && !p(x)
    requires forall y :: y in s && y != x ==> p(y)
    ensures |Where(s, p)| == |s| - 1
  {
    assert s == [s[0]] + s[1..];
    if s[0] == x {
      assert multiset(s[1..])[x] == 0;
      WhereAll(s[1..], p);
    } else {
      WhereDropsOne(s[1..], p, x);
    }
  }

  /** In a strictly increasing sequence the head is below everything after it. */
  lemma HeadBelowTail<T>(s: seq<T>, key: T -> int)
    requires s != [] && StrictlyIncreasingBy(s, key)
    ensures StrictlyIncreasingBy(s[1..], key)
    ensures forall x :: x in s[1..] ==> key(s[0]) < key(x)
  {
    var tail := s[1..];
    forall i, j | 0 <= i < j < |tail| ensures key(tail[i]) < key(tail[j]) {
      assert tail[i] == s[i + 1] && tail[j] == s[j + 1];
    }
    forall x | x in tail ensures key(s[0]) < key(x) {
      var k :| 0 <= k < |tail| && tail[k] == x;
      assert s[k + 1] == x;
    }
  }

  /** `Where` keeps the relative order of the elements it retains. */
  lemma {:induction false} WhereKeepsOrder<T>(s: seq<T>, p: T -> bool, key: T -> int)
    requires StrictlyIncreasingBy(s, key)
    ensures StrictlyIncreasingBy(Where(s, p), key)
  {
    if s != [] {
      HeadBelowTail(s, key);
      WhereKeepsOrder(s[1..], p, key);
      WhereSound(s[1..], p);
      var rest := Where(s[1..], p);
      if p(s[0]) {
        assert Where(s, p) == [s[0]] + rest;
        ConsIncreasing(s[0], rest, key);
      } else {
        assert Where(s, p) == rest;
      }
    }
  }

  /** Putting an element below everything in front of an increasing sequence keeps it increasing. */
  lemma ConsIncreasing<T>(h: T, rest: seq<T>, key: T -> int)
    requires StrictlyIncreasingBy(rest, key)
    requires forall x :: x in rest ==> key(h) < key(x)
    ensures StrictlyIncreasingBy([h] + rest, key)
  {
    var r := [h] + rest;
    forall i, j | 0 <= i < j < |r| ensures key(r[i]) < key(r[j]) {
      assert r[j] == rest[j - 1] && rest[j - 1] in rest;
      if i > 0 {
        assert r[i] == rest[i - 1];
      }
    }
  }

  /** `string.Join(sep, xs)`: the strings of `xs` with `sep` between consecutive ones. */
  function Join(sep: string, xs: seq<string>): string {
    if |xs| == 0 then ""
    else if |xs| == 1 then xs[0]
    else xs[0] + sep + Join(sep, xs[1..])
  }

  /** `a` occurs as a contiguous piece of `b`. */
  predicate IsInfix(a: string, b: string) {
    exists k | 0 <= k <= |b| - |a| :: OccursAt(a, b, k)
  }

  /** `a` occurs in `b` starting at index `k`. */
  predicate OccursAt(a: string, b: string, k: int) {
    0 <= k <= |b| - |a| && b[k..k + |a|] == a
  }

  /** Every joined string occurs in the result of `Join`. */
  lemma {:induction false} JoinContainsEach(sep: string, xs: seq<string>, i: nat)
    requires i < |xs|
    ensures IsInfix(xs[i], Join(sep, xs))
  {
    var joined := Join(sep, xs);
    if i == 0 {
      assert OccursAt(xs[0], joined, 0);
    } else {
      JoinContainsEach(sep, xs[1..], i - 1);
      var rest := Join(sep, xs[1..]);
      assert xs[1..][i - 1] == xs[i];
      var k :| 0 <= k <= |rest| - |xs[i]| && OccursAt(xs[i], rest, k);
      var offset := |xs[0]| + |sep|;
      assert joined == xs[0] + sep + rest;
      assert joined[offset + k..offset + k + |xs[i]|] == rest[k..k + |xs[i]|];
      assert OccursAt(xs[i], joined, offset + k);
    }
  }
}
