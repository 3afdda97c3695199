/** `itertools.permutations(pool, r)`, which the matchmaker uses to
    enumerate the ordered tuples of distinct champions: the r-tuples of
    distinct positions of `pool`, in lexicographic order of those
    positions. */
module Permutations {
  import opened Common

  function RemoveAt<T>(s: seq<T>, i: nat): (r: seq<T>)
    requires i < |s|
    ensures |r| == |s| - 1
  {
    s[..i] + s[i + 1..]
  }

  /** Each tuple of `ps` with `x` in front. */
  function Prepend<T>(x: T, ps: seq<seq<T>>): (r: seq<seq<T>>)
    ensures |r| == |ps| && forall k :: 0 <= k < |ps| ==> r[k] == [x] + ps[k]
  {
    seq(|ps|, k requires 0 <= k < |ps| => [x] + ps[k])
  }

  function Arrangements<T>(pool: seq<T>, r: nat): seq<seq<T>>
    decreases r, 1
  {
    if r == 0 then [[]] else ArrangementsFrom(pool, 0, r)
  }

  /** The r-tuples whose first element is at position `i` or later. */
  function ArrangementsFrom<T>(pool: seq<T>, i: nat, r: nat): seq<seq<T>>
    requires 0 < r && i <= |pool|
    decreases r, 0, |pool| - i
  {
    if i == |pool| then []
    else Prepend(pool[i], Arrangements(RemoveAt(pool, i), r - 1)) + ArrangementsFrom(pool, i + 1, r)
  }

  /** Every element of RemoveAt(pool, i) comes from `pool`; when `pool` has
      no duplicates, none of them is pool[i] and they stay distinct. */
  lemma RemoveAtElements<T>(pool: seq<T>, i: nat)
    requires i < |pool|
    ensures forall x :: x in RemoveAt(pool, i) ==> x in pool
    ensures Distinct(pool) ==> Distinct(RemoveAt(pool, i)) && pool[i] !in RemoveAt(pool, i)
    ensures Distinct(pool) ==> forall x :: x in pool && x != pool[i] ==> x in RemoveAt(pool, i)
  {
    var rest := RemoveAt(pool, i);
    assert forall k :: 0 <= k < |rest| ==> rest[k] == if k < i then pool[k] else pool[k + 1];
    if Distinct(pool) {
      forall x | x in pool && x != pool[i]
        ensures x in rest
      {
        var k :| 0 <= k < |pool| && pool[k] == x;
        if k < i {
          assert rest[k] == x;
        } else {
          assert rest[k - 1] == x;
        }
      }
    }
  }

  /** Every tuple of `ps` has length r and draws its elements from `pool`. */
  predicate Tuples<T(==)>(ps: seq<seq<T>>, pool: seq<T>, r: nat)
  {
    forall p :: p in ps ==> |p| == r && forall x :: x in p ==> x in pool
  }

  /** No tuple of `ps` repeats an element. */
  predicate AllDistinct<T(==)>(ps: seq<seq<T>>)
  {
    forall p :: p in ps ==> Distinct(p)
  }

  /** Soundness: every tuple has length r, draws its elements from the
      pool, and repeats none when the pool has no duplicates. */
  lemma {:induction false} ArrangementsSound<T>(pool: seq<T>, r: nat)
    ensures Tuples(Arrangements(pool, r), pool, r)
    ensures Distinct(pool) ==> AllDistinct(Arrangements(pool, r))
    decreases r, 1
  {
    if r > 0 {
      ArrangementsFromSound(pool, 0, r);
    }
  }

  lemma {:induction false} ArrangementsFromSound<T>(pool: seq<T>, i: nat, r: nat)
    requires 0 < r && i <= |pool|
    ensures Tuples(ArrangementsFrom(pool, i, r), pool, r)
    ensures Distinct(pool) ==> AllDistinct(ArrangementsFrom(pool, i, r))
    decreases r, 0, |pool| - i
  {
    if i < |pool| {
      var rest := RemoveAt(pool, i);
      var tails := Arrangements(rest, r - 1);
      ArrangementsSound(rest, r - 1);
      RemoveAtElements(pool, i);
      ArrangementsFromSound(pool, i + 1, r);
      PrependSound(pool[i], tails, rest, pool, r);
      ConcatSound(Prepend(pool[i], tails), ArrangementsFrom(pool, i + 1, r), pool, r);
    }
  }

  lemma ConcatSound<T>(a: seq<seq<T>>, b: seq<seq<T>>, pool: seq<T>, r: nat)
    requires Tuples(a, pool, r) && Tuples(b, pool, r)
    ensures Tuples(a + b, pool, r)
    ensures AllDistinct(a) && AllDistinct(b) ==> AllDistinct(a + b)
  {
  }

  /** Putting an element of the pool in front of tuples of length r - 1 drawn
      from the rest of the pool gives tuples of length r drawn from the pool,
      distinct ones when the tails are and the element is not in the rest. */
  lemma PrependSound<T>(x: T, tails: seq<seq<T>>, rest: seq<T>, pool: seq<T>, r: nat)
    requires 0 < r && x in pool && forall y :: y in rest ==> y in pool
    requires Tuples(tails, rest, r - 1)
    requires Distinct(pool) ==> x !in rest && AllDistinct(tails)
    ensures Tuples(Prepend(x, tails), pool, r)
    ensures Distinct(pool) ==> AllDistinct(Prepend(x, tails))
  {
    var head := Prepend(x, tails);
    forall p | p in head
      ensures |p| == r && (forall y :: y in p ==> y in pool) && (Distinct(pool) ==> Distinct(p))
    {
      var k :| 0 <= k < |head| && head[k] == p;
      var tail := tails[k];
      assert p == [x] + tail;
      assert forall y :: y in p ==> y == x || y in tail;
      if Distinct(pool) {
        forall a, b | 0 <= a < b < |p|
          ensures p[a] != p[b]
        {
          assert p[b] == tail[b - 1];
          assert tail in tails && tail[b - 1] in tail;
          if a > 0 {
            assert p[a] == tail[a - 1];
          }
        }
      }
    }
  }

  /** The tuples starting at a later position are among those starting at
      an earlier one. */
  lemma {:induction false} ArrangementsFromMono<T>(pool: seq<T>, i: nat, j: nat, r: nat)
    requires 0 < r && i <= j <= |pool|
    ensures forall p :: p in ArrangementsFrom(pool, j, r) ==> p in ArrangementsFrom(pool, i, r)
    decreases j - i
  {
    if i < j {
      ArrangementsFromMono(pool, i + 1, j, r);
    }
  }

  /** Completeness: every tuple of r distinct elements of a pool without
      duplicates is produced. */
  lemma {:induction false} ArrangementsComplete<T>(pool: seq<T>, r: nat, p: seq<T>)
    requires Distinct(pool) && Distinct(p) && |p| == r
    requires forall x :: x in p ==> x in pool
    ensures p in Arrangements(pool, r)
    decreases r
  {
    if r > 0 {
      assert p[0] in p;
      var i :| 0 <= i < |pool| && pool[i] == p[0];
      var rest := RemoveAt(pool, i);
      var tail := p[1..];
      TailFits(pool, i, p);
      ArrangementsComplete(rest, r - 1, tail);
      PrependMember(pool[i], Arrangements(rest, r - 1), tail);
      assert p == [pool[i]] + tail;
      assert p in ArrangementsFrom(pool, i, r);
      ArrangementsFromMono(pool, 0, i, r);
    }
  }

  /** Once its first element, found at position i of the pool, is taken
      off, the rest of a tuple is a tuple of the rest of the pool. */
  lemma TailFits<T>(pool: seq<T>, i: nat, p: seq<T>)
    requires Distinct(pool) && Distinct(p) && p != [] && i < |pool| && pool[i] == p[0]
    requires forall x :: x in p ==> x in pool
    ensures Distinct(p[1..])
    ensures forall x :: x in p[1..] ==> x in RemoveAt(pool, i)
  {
    var tail := p[1..];
    RemoveAtElements(pool, i);
    forall x | x in tail
      ensures x in RemoveAt(pool, i)
    {
      var k :| 0 <= k < |tail| && tail[k] == x;
      assert p[k + 1] == x && p[0] != p[k + 1];
    }
    assert forall a :: 0 <= a < |tail| ==> tail[a] == p[a + 1];
  }

  lemma PrependMember<T>(x: T, tails: seq<seq<T>>, tail: seq<T>)
    requires tail in tails
    ensures [x] + tail in Prepend(x, tails)
  {
    var k :| 0 <= k < |tails| && tails[k] == tail;
    assert Prepend(x, tails)[k] == [x] + tail;
  }
}
