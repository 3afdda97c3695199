/** The matches of a round-robin tournament, after `gen_matches` in
    python-lib/prologin/concours/stechec/management/commands/launch_roundrobin.py:
    every ordered tuple of NPLAYERS tournament champions from
    `itertools.product`, the tuples that hold a champion twice skipped, each
    scheduled `repeat` times, on each of the tournament's maps when the
    contest uses maps. Champions and maps are their ids; the settings are
    parameters. */
module RoundRobinLaunch {
  import opened Common
  import opened Permutations

  /** `itertools.product(pool, repeat=n)`: the n-tuples of the pool, the
      first element varying slowest. */
  function Product<T>(pool: seq<T>, n: nat): seq<seq<T>>
    decreases n, 1
  {
    if n == 0 then [[]] else ProductFrom(pool, 0, n)
  }

  /** The n-tuples whose first element is at position `i` or later. */
  function ProductFrom<T>(pool: seq<T>, i: nat, n: nat): seq<seq<T>>
    requires 0 < n && i <= |pool|
    decreases n, 0, |pool| - i
  {
    if i == |pool| then []
    else Prepend(pool[i], Product(pool, n - 1)) + ProductFrom(pool, i + 1, n)
  }

  /** Every tuple of the product has length n and draws its elements from
      the pool. */
  lemma {:induction false} ProductSound<T>(pool: seq<T>, n: nat)
    ensures Tuples(Product(pool, n), pool, n)
    decreases n, 1
  {
    if n > 0 {
      ProductFromSound(pool, 0, n);
    }
  }

  lemma {:induction false} ProductFromSound<T>(pool: seq<T>, i: nat, n: nat)
    requires 0 < n && i <= |pool|
    ensures Tuples(ProductFrom(pool, i, n), pool, n)
    decreases n, 0, |pool| - i
  {
    if i < |pool| {
      var tails := Product(pool, n - 1);
      ProductSound(pool, n - 1);
      ProductFromSound(pool, i + 1, n);
      var head := Prepend(pool[i], tails);
      forall p | p in head
        ensures |p| == n && forall x :: x in p ==> x in pool
      {
        var k :| 0 <= k < |head| && head[k] == p;
        assert p == [pool[i]] + tails[k];
        assert forall x :: x in p ==> x == pool[i] || x in tails[k];
      }
      ConcatSound(head, ProductFrom(pool, i + 1, n), pool, n);
    }
  }

  lemma {:induction false} ProductFromMono<T>(pool: seq<T>, i: nat, j: nat, n: nat)
    requires 0 < n && i <= j <= |pool|
    ensures forall p :: p in ProductFrom(pool, j, n) ==> p in ProductFrom(pool, i, n)
    decreases j - i
  {
    if i < j {
      ProductFromMono(pool, i + 1, j, n);
    }
  }

  /** Every n-tuple of elements of the pool is in the product. */
  lemma {:induction false} ProductComplete<T>(pool: seq<T>, n: nat, p: seq<T>)
    requires |p| == n && forall x :: x in p ==> x in pool
    ensures p in Product(pool, n)
    decreases n
  {
    if n > 0 {
      assert p[0] in p;
      var i :| 0 <= i < |pool| && pool[i] == p[0];
      var tail := p[1..];
      assert forall x :: x in tail ==> x in p;
      ProductComplete(pool, n - 1, tail);
      var tails := Product(pool, n - 1);
      var k :| 0 <= k < |tails| && tails[k] == tail;
      assert Prepend(pool[i], tails)[k] == p;
      assert p in ProductFrom(pool, i, n);
      ProductFromMono(pool, 0, i, n);
    }
  }

  /** The tuples the launcher keeps: those without a champion twice. */
  function Kept(tuples: seq<seq<nat>>): (r: seq<seq<nat>>)
    ensures forall p :: p in r <==> p in tuples && Distinct(p)
  {
    if tuples == [] then []
    else
      var init := tuples[..|tuples| - 1];
      var last := tuples[|tuples| - 1];
      assert tuples == init + [last];
      Kept(init) + (if Distinct(last) then [last] else [])
  }

  /** For a tournament whose champions are all different, the tuples kept
      are exactly the orderings of NPLAYERS different champions, the
      tuples `itertools.permutations` yields. */
  lemma KeptArePermutations(pool: seq<nat>, n: nat, p: seq<nat>)
    requires Distinct(pool)
    ensures p in Kept(Product(pool, n)) <==> p in Arrangements(pool, n)
  {
    ProductSound(pool, n);
    ArrangementsSound(pool, n);
    if p in Arrangements(pool, n) {
      ProductComplete(pool, n, p);
    }
    if p in Kept(Product(pool, n)) {
      ArrangementsComplete(pool, n, p);
    }
  }

  /** One match to create: its champions, and its map when maps are used. */
  datatype Scheduled = Scheduled(champions: seq<nat>, onMap: Option<nat>)

  datatype LaunchError = NoMaps

  /** One round of a tuple's matches: one per map, or a single one. */
  function Round(chs: seq<nat>, useMaps: bool, maps: seq<nat>): (r: seq<Scheduled>)
    ensures |r| == if useMaps then |maps| else 1
  {
    if useMaps then seq(|maps|, k requires 0 <= k < |maps| => Scheduled(chs, Some(maps[k])))
    else [Scheduled(chs, None)]
  }

  /** `for r in range(repeat)`: the rounds of a tuple, none when `repeat`
      is not positive. */
  function Rounds(chs: seq<nat>, repeat: int, useMaps: bool, maps: seq<nat>): (r: seq<Scheduled>)
    decreases if repeat < 0 then 0 else repeat
  {
    if repeat <= 0 then [] else Rounds(chs, repeat - 1, useMaps, maps) + Round(chs, useMaps, maps)
  }

  /** The matches of the tuples in order, those of a tuple that holds a
      champion twice skipped. */
  function ScheduledFor(tuples: seq<seq<nat>>, repeat: int, useMaps: bool, maps: seq<nat>): seq<Scheduled>
  {
    if tuples == [] then []
    else
      var last := tuples[|tuples| - 1];
      ScheduledFor(tuples[..|tuples| - 1], repeat, useMaps, maps)
        + (if Distinct(last) then Rounds(last, repeat, useMaps, maps) else [])
  }

  /** `gen_matches`: an error when the contest uses maps and the tournament
      has none, otherwise the matches of every tuple of the product. */
  function GenMatchesSpec(players: seq<nat>, nplayers: nat, repeat: int, useMaps: bool, maps: seq<nat>)
    : (r: Result<seq<Scheduled>, LaunchError>)
    ensures r.Err? <==> useMaps && maps == []
  {
    if useMaps && maps == [] then Err(NoMaps)
    else Ok(ScheduledFor(Product(players, nplayers), repeat, useMaps, maps))
  }

  /** The number of matches each kept tuple gets. */
  function PerTuple(repeat: int, useMaps: bool, maps: seq<nat>): nat
  {
    (if repeat < 0 then 0 else repeat) * (if useMaps then |maps| else 1)
  }

  lemma {:induction false} RoundsCount(chs: seq<nat>, repeat: int, useMaps: bool, maps: seq<nat>)
    ensures |Rounds(chs, repeat, useMaps, maps)| == PerTuple(repeat, useMaps, maps)
    decreases if repeat < 0 then 0 else repeat
  {
    if repeat > 0 {
      RoundsCount(chs, repeat - 1, useMaps, maps);
    }
  }

  /** Each kept tuple gets `repeat` matches, times the number of maps when
      maps are used. */
  lemma {:induction false} ScheduledCount(tuples: seq<seq<nat>>, repeat: int, useMaps: bool, maps: seq<nat>)
    ensures |ScheduledFor(tuples, repeat, useMaps, maps)| == |Kept(tuples)| * PerTuple(repeat, useMaps, maps)
  {
    if tuples != [] {
      var init := tuples[..|tuples| - 1];
      var last := tuples[|tuples| - 1];
      var per := PerTuple(repeat, useMaps, maps);
      ScheduledCount(init, repeat, useMaps, maps);
      RoundsCount(last, repeat, useMaps, maps);
      assert |Kept(tuples)| == |Kept(init)| + (if Distinct(last) then 1 else 0);
      MulSucc(|Kept(init)|, per);
    }
  }

  lemma MulSucc(k: nat, per: nat)
    ensures (k + 1) * per == k * per + per
  {
  }

  /** What every match of a tuple's rounds is: that tuple, on one of the
      maps when maps are used and without one otherwise. */
  predicate MatchOf(s: Scheduled, chs: seq<nat>, useMaps: bool, maps: seq<nat>)
  {
    s.champions == chs && (if useMaps then s.onMap.Some? && s.onMap.value in maps else s.onMap.None?)
  }

  lemma {:induction false} RoundsSound(chs: seq<nat>, repeat: int, useMaps: bool, maps: seq<nat>)
    ensures forall s :: s in Rounds(chs, repeat, useMaps, maps) ==> MatchOf(s, chs, useMaps, maps)
    decreases if repeat < 0 then 0 else repeat
  {
    if repeat > 0 {
      RoundsSound(chs, repeat - 1, useMaps, maps);
      var round := Round(chs, useMaps, maps);
      assert forall k :: 0 <= k < |round| ==> MatchOf(round[k], chs, useMaps, maps);
    }
  }

  /** Every match pits a kept tuple, hence no champion against itself. */
  lemma {:induction false} ScheduledSound(tuples: seq<seq<nat>>, repeat: int, useMaps: bool, maps: seq<nat>)
    ensures forall s :: s in ScheduledFor(tuples, repeat, useMaps, maps) ==>
      s.champions in Kept(tuples) && MatchOf(s, s.champions, useMaps, maps)
  {
    if tuples != [] {
      var init := tuples[..|tuples| - 1];
      var last := tuples[|tuples| - 1];
      ScheduledSound(init, repeat, useMaps, maps);
      RoundsSound(last, repeat, useMaps, maps);
      assert forall p :: p in init ==> p in tuples;
    }
  }

  /** Every match of a launched round-robin holds NPLAYERS different
      champions of the tournament, on one of its maps when maps are used. */
  lemma GenMatchesSound(players: seq<nat>, nplayers: nat, repeat: int, useMaps: bool, maps: seq<nat>, s: Scheduled)
    requires GenMatchesSpec(players, nplayers, repeat, useMaps, maps).Ok?
    requires s in GenMatchesSpec(players, nplayers, repeat, useMaps, maps).value
    ensures |s.champions| == nplayers && Distinct(s.champions)
    ensures forall c :: c in s.champions ==> c in players
    ensures useMaps ==> s.onMap.Some? && s.onMap.value in maps
  {
    var tuples := Product(players, nplayers);
    ScheduledSound(tuples, repeat, useMaps, maps);
    ProductSound(players, nplayers);
  }

  lemma {:induction false} RoundsComplete(chs: seq<nat>, repeat: int, useMaps: bool, maps: seq<nat>, m: nat)
    requires repeat >= 1 && (useMaps ==> m in maps)
    ensures Scheduled(chs, if useMaps then Some(m) else None) in Rounds(chs, repeat, useMaps, maps)
  {
    var round := Round(chs, useMaps, maps);
    if useMaps {
      var k :| 0 <= k < |maps| && maps[k] == m;
      assert round[k] == Scheduled(chs, Some(m));
    } else {
      assert round[0] == Scheduled(chs, None);
    }
    assert Rounds(chs, repeat, useMaps, maps) == Rounds(chs, repeat - 1, useMaps, maps) + round;
  }

  lemma {:induction false} ScheduledComplete(tuples: seq<seq<nat>>, repeat: int, useMaps: bool, maps: seq<nat>,
                                             p: seq<nat>, m: nat)
    requires repeat >= 1 && (useMaps ==> m in maps)
    requires p in tuples && Distinct(p)
    ensures Scheduled(p, if useMaps then Some(m) else None) in ScheduledFor(tuples, repeat, useMaps, maps)
  {
    var init := tuples[..|tuples| - 1];
    var last := tuples[|tuples| - 1];
    assert tuples == init + [last];
    if p == last {
      RoundsComplete(p, repeat, useMaps, maps, m);
    } else {
      ScheduledComplete(init, repeat, useMaps, maps, p, m);
    }
  }

  /** With `repeat` at least 1, every ordering of NPLAYERS different
      champions of the tournament plays, on every map when maps are used. */
  lemma GenMatchesComplete(players: seq<nat>, nplayers: nat, repeat: int, useMaps: bool, maps: seq<nat>,
                           p: seq<nat>, m: nat)
    requires repeat >= 1 && (useMaps ==> m in maps)
    requires |p| == nplayers && Distinct(p) && forall c :: c in p ==> c in players
    ensures GenMatchesSpec(players, nplayers, repeat, useMaps, maps).Ok?
    ensures Scheduled(p, if useMaps then Some(m) else None) in GenMatchesSpec(players, nplayers, repeat, useMaps, maps).value
  {
    ProductComplete(players, nplayers, p);
    ScheduledComplete(Product(players, nplayers), repeat, useMaps, maps, p, m);
  }

  /** The count the launcher announces: every kept tuple `repeat` times,
      times the number of maps when maps are used. */
  lemma GenMatchesCount(players: seq<nat>, nplayers: nat, repeat: int, useMaps: bool, maps: seq<nat>)
    requires GenMatchesSpec(players, nplayers, repeat, useMaps, maps).Ok?
    ensures |GenMatchesSpec(players, nplayers, repeat, useMaps, maps).value|
            == |Kept(Product(players, nplayers))| * PerTuple(repeat, useMaps, maps)
  {
    ScheduledCount(Product(players, nplayers), repeat, useMaps, maps);
  }

  /** The rounds of one tuple, appended to the matches. */
  method AppendRounds(matches: seq<Scheduled>, chs: seq<nat>, repeat: int, useMaps: bool, maps: seq<nat>)
    returns (r: seq<Scheduled>)
    ensures r == matches + Rounds(chs, repeat, useMaps, maps)
  {
    r := matches;
    var k := 0;
    while k < repeat
      invariant 0 <= k <= (if repeat < 0 then 0 else repeat)
      invariant r == matches + Rounds(chs, k, useMaps, maps)
    {
      if useMaps {
        var j := 0;
        while j < |maps|
          invariant 0 <= j <= |maps|
          invariant r == matches + Rounds(chs, k, useMaps, maps) + Round(chs, useMaps, maps)[..j]
        {
          assert Round(chs, useMaps, maps)[..j + 1] == Round(chs, useMaps, maps)[..j] + [Scheduled(chs, Some(maps[j]))];
          r := r + [Scheduled(chs, Some(maps[j]))];
          j := j + 1;
        }
        assert Round(chs, useMaps, maps)[..j] == Round(chs, useMaps, maps);
      } else {
        r := r + [Scheduled(chs, None)];
      }
      k := k + 1;
    }
  }

  /** `gen_matches`. */
  method GenMatches(players: seq<nat>, nplayers: nat, repeat: int, useMaps: bool, maps: seq<nat>)
    returns (r: Result<seq<Scheduled>, LaunchError>)
    ensures r == GenMatchesSpec(players, nplayers, repeat, useMaps, maps)
  {
    if useMaps && maps == [] {
      return Err(NoMaps);
    }
    var tuples := Product(players, nplayers);
    var matches: seq<Scheduled> := [];
    var i := 0;
    while i < |tuples|
      invariant 0 <= i <= |tuples|
      invariant matches == ScheduledFor(tuples[..i], repeat, useMaps, maps)
    {
      assert tuples[..i + 1][..i] == tuples[..i];
      var chs := tuples[i];
      if Distinct(chs) {
        matches := AppendRounds(matches, chs, repeat, useMaps, maps);
      }
      i := i + 1;
    }
    assert tuples[..i] == tuples;
    r := Ok(matches);
  }
}
