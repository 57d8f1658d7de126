/** lodash's `_.uniq`, which removes duplicates keeping first occurrences,
    with the facts about it that the dashboard flag fold needs. */
module Lodash {

  ghost predicate NoDuplicates<T>(s: seq<T>) {
    forall i, j :: 0 <= i < j < |s| ==> s[i] != s[j]
  }

  /** `_.uniq`: the last element of `s` is kept exactly when it does not
      already occur in the de-duplicated prefix, so each element survives
      at its first occurrence. */
  function Uniq<T(==,!new)>(s: seq<T>): (r: seq<T>)
    ensures NoDuplicates(r)
    ensures forall x :: x in r <==> x in s
    ensures |r| <= |s|
    decreases |s|
  {
    if |s| == 0 then []
    else
      var prefix := Uniq(s[..|s| - 1]);
      var last := s[|s| - 1];
      assert forall x :: x in s <==> x in s[..|s| - 1] || x == last by {
        assert s == s[..|s| - 1] + [last];
      }
      if last in prefix then prefix else prefix + [last]
  }

  /** Index of the first occurrence of `x` in `s`. */
  function FirstIndex<T(==)>(s: seq<T>, x: T): (i: nat)
    requires x in s
    ensures i < |s| && s[i] == x && x !in s[..i]
  {
    if s[0] == x then 0
    else
      assert x in s[1..] by { assert s == [s[0]] + s[1..]; }
      var k := 1 + FirstIndex(s[1..], x);
      assert s[..k] == [s[0]] + s[1..][..k - 1];
      k
  }

  /** Any position holding `x` with no earlier `x` is the first index: it
      follows from `FirstIndex`'s own contract, since either index lying
      before the other would put `x` in the shorter prefix. */
  lemma FirstIndexUnique<T>(s: seq<T>, x: T, k: nat)
    requires k < |s| && s[k] == x && x !in s[..k]
    ensures FirstIndex(s, x) == k
  {
  }

  /** The first occurrence of an element is unaffected by what follows it. */
  lemma FirstIndexOfPrefix<T>(p: seq<T>, q: seq<T>, x: T)
    requires x in p
    ensures FirstIndex(p + q, x) == FirstIndex(p, x)
  {
    var j := FirstIndex(p, x);
    assert (p + q)[..j] == p[..j];
    FirstIndexUnique(p + q, x, j);
  }

  /** A duplicate-free sequence is left unchanged by `_.uniq`. */
  lemma {:induction false} UniqOfDistinct<T(!new)>(s: seq<T>)
    requires NoDuplicates(s)
    ensures Uniq(s) == s
    decreases |s|
  {
    if |s| > 0 {
      var init := s[..|s| - 1];
      assert NoDuplicates(init);
      UniqOfDistinct(init);
      assert s[|s| - 1] !in init;
      assert s == init + [s[|s| - 1]];
    }
  }

  /** De-duplicating a prefix first and then the whole is the same as
      de-duplicating the whole once. */
  lemma {:induction false} UniqAppend<T(!new)>(a: seq<T>, b: seq<T>)
    ensures Uniq(Uniq(a) + b) == Uniq(a + b)
    decreases |b|
  {
    if |b| == 0 {
      assert Uniq(a) + b == Uniq(a);
      assert a + b == a;
      UniqOfDistinct(Uniq(a));
    } else {
      var init := b[..|b| - 1];
      var last := b[|b| - 1];
      UniqAppend(a, init);
      assert (Uniq(a) + b)[..|Uniq(a) + b| - 1] == Uniq(a) + init;
      assert (a + b)[..|a + b| - 1] == a + init;
      assert (Uniq(a) + b)[|Uniq(a) + b| - 1] == last;
      assert (a + b)[|a + b| - 1] == last;
    }
  }

  /** `_.uniq` lists elements in the order of their first occurrence. */
  lemma {:induction false} UniqFirstOccurrenceOrder<T(!new)>(s: seq<T>)
    ensures forall i, j :: 0 <= i < j < |Uniq(s)| ==>
              FirstIndex(s, Uniq(s)[i]) < FirstIndex(s, Uniq(s)[j])
    decreases |s|
  {
    if |s| > 0 {
      var init := s[..|s| - 1];
      var last := s[|s| - 1];
      var prefix := Uniq(init);
      UniqFirstOccurrenceOrder(init);
      assert s == init + [last];
      forall x | x in init
        ensures FirstIndex(s, x) == FirstIndex(init, x)
      {
        FirstIndexOfPrefix(init, [last], x);
      }
      if last !in prefix {
        assert FirstIndex(s, last) == |init| by {
          assert s[|init|] == last;
          assert s[..|init|] == init;
        }
        forall i, j | 0 <= i < j < |Uniq(s)|
          ensures FirstIndex(s, Uniq(s)[i]) < FirstIndex(s, Uniq(s)[j])
        {
          assert Uniq(s)[i] == prefix[i];
          assert prefix[i] in init;
          if j < |prefix| {
            assert Uniq(s)[j] == prefix[j];
          }
        }
      }
    }
  }
}
