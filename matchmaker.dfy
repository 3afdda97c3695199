/** The tournament matchmaker of prologin/matchmaker/matchmaker.py: the
    queue of prepared matches, the index of prepared matches by champion,
    cancellation of the matches of champions that left, scheduling of the
    matches of new champions and the batches handed to the database.

    A MatchItem is a mutable object in the source. Here every MatchItem
    ever built lives in the `items` sequence of the matchmaker and is
    referred to by its position there, so that the queue and the index
    share objects exactly as they do in the source. */
module Matchmaker {
  import opened Common
  import opened Permutations

  type Champion = nat
  type MapId = nat

  /** A prepared match: its players in order, its map, and whether it was
      cancelled before being created. */
  datatype MatchItem = MatchItem(champions: seq<Champion>, board: Option<MapId>, cancelled: bool)

  /** `get_matches_with`, as values: `repeat` rounds of one match per map
      when maps are used, else `repeat` copies of the bare match. */
  function MatchesWith(chs: seq<Champion>, repeat: int, useMaps: bool, maps: seq<MapId>): (r: seq<MatchItem>)
    ensures |r| == (if repeat <= 0 then 0 else if useMaps then repeat * |maps| else repeat)
    ensures forall k :: 0 <= k < |r| ==> r[k].champions == chs && !r[k].cancelled
    ensures forall k :: 0 <= k < |r| ==> (r[k].board.Some? <==> useMaps)
    decreases repeat
  {
    if repeat <= 0 then []
    else MatchesWith(chs, repeat - 1, useMaps, maps) + (if useMaps then Round(chs, maps) else [MatchItem(chs, None, false)])
  }

  /** One round of matches between `chs`, one per map. */
  function Round(chs: seq<Champion>, maps: seq<MapId>): seq<MatchItem>
  {
    seq(|maps|, m requires 0 <= m < |maps| => MatchItem(chs, Some(maps[m]), false))
  }

  /** The positions from `start` on, `n` of them. */
  function Range(start: nat, n: nat): (r: seq<nat>)
    ensures |r| == n && forall k :: 0 <= k < n ==> r[k] == start + k
  {
    seq(n, k requires 0 <= k < n => start + k)
  }

  /** Every map appears in every round. */
  lemma {:induction false} MatchesWithMaps(chs: seq<Champion>, repeat: int, maps: seq<MapId>, m: MapId)
    requires repeat > 0 && m in maps
    ensures MatchItem(chs, Some(m), false) in MatchesWith(chs, repeat, true, maps)
  {
    var k :| 0 <= k < |maps| && maps[k] == m;
    var prev := MatchesWith(chs, repeat - 1, true, maps);
    assert MatchesWith(chs, repeat, true, maps)[|prev| + k] == Round(chs, maps)[k];
  }

  /** The items at positions `ids`. */
  function Values(items: seq<MatchItem>, ids: seq<nat>): seq<MatchItem>
    requires forall k :: 0 <= k < |ids| ==> ids[k] < |items|
  {
    seq(|ids|, k requires 0 <= k < |ids| => items[ids[k]])
  }

  /** Ids into a prefix keep their values when items are appended, and the
      values of two id lists joined are theirs joined. */
  lemma ValuesAppend(items: seq<MatchItem>, longer: seq<MatchItem>, ids: seq<nat>, more: seq<nat>)
    requires |items| <= |longer| && longer[..|items|] == items
    requires forall k :: 0 <= k < |ids| ==> ids[k] < |items|
    requires forall k :: 0 <= k < |more| ==> more[k] < |longer|
    ensures Values(longer, ids + more) == Values(items, ids) + Values(longer, more)
  {
    assert forall k :: 0 <= k < |ids| ==> longer[ids[k]] == items[ids[k]];
  }

  /** The ids of items appended after `prefix` give back those items. */
  lemma ValuesOfRange(prefix: seq<MatchItem>, xs: seq<MatchItem>)
    ensures Values(prefix + xs, Range(|prefix|, |xs|)) == xs
  {
  }

  /** Ids that all point at the item after `prefix` give that item each time. */
  lemma ValuesOfShared(prefix: seq<MatchItem>, base: MatchItem, ids: seq<nat>)
    requires forall k :: 0 <= k < |ids| ==> ids[k] == |prefix|
    ensures Values(prefix + [base], ids) == seq(|ids|, k => base)
  {
  }

  /** The index of prepared matches by champion (a defaultdict of sets). */
  type Index = map<Champion, set<nat>>

  predicate Indexed(index: Index, c: Champion, id: nat)
  {
    c in index && id in index[c]
  }

  /** `matches_with_champion[c].add(match)`. */
  function AddTo(index: Index, c: Champion, id: nat): (r: Index)
    ensures forall d :: d in r <==> d in index || d == c
    ensures forall d, j: nat :: Indexed(r, d, j) <==> Indexed(index, d, j) || (d == c && j == id)
  {
    index[c := (if c in index then index[c] else {}) + {id}]
  }

  /** Indexing one match under each of its champions, in order. */
  function IndexUnder(index: Index, cs: seq<Champion>, id: nat): (r: Index)
    ensures forall c :: c in r <==> c in index || c in cs
    ensures forall c, j: nat :: Indexed(r, c, j) <==> Indexed(index, c, j) || (j == id && c in cs)
  {
    if cs == [] then index
    else AddTo(IndexUnder(index, cs[..|cs| - 1], id), cs[|cs| - 1], id)
  }

  /** Indexing a sequence of matches, in order. */
  function IndexMatches(index: Index, items: seq<MatchItem>, ids: seq<nat>): (r: Index)
    requires forall k :: 0 <= k < |ids| ==> ids[k] < |items|
    ensures forall c, j: nat :: Indexed(r, c, j) <==>
      Indexed(index, c, j) || exists k :: 0 <= k < |ids| && ids[k] == j && c in items[j].champions
  {
    if ids == [] then index
    else
      var r := IndexUnder(IndexMatches(index, items, ids[..|ids| - 1]), items[ids[|ids| - 1]].champions, ids[|ids| - 1]);
      assert forall k :: 0 <= k < |ids| - 1 ==> ids[..|ids| - 1][k] == ids[k];
      r
  }

  /** `matches_with_champion[c].add(match)` as the source writes it: the
      set holds MatchItems, which compare by value (champions, map and the
      cancelled flag), so a match equal to one already indexed under `c` is
      not added. */
  function AddToByValue(items: seq<MatchItem>, index: Index, c: Champion, id: nat): (r: Index)
    requires id < |items|
    ensures forall d, j: nat :: Indexed(r, d, j) ==> Indexed(index, d, j) || (d == c && j == id)
    ensures Indexed(r, c, id) <==> Indexed(index, c, id) || !HasEqual(items, index, c, id)
  {
    if HasEqual(items, index, c, id) then index
    else AddTo(index, c, id)
  }

  /** A match equal in value to match `id` is already indexed under `c`. */
  predicate HasEqual(items: seq<MatchItem>, index: Index, c: Champion, id: nat)
    requires id < |items|
  {
    c in index && exists k :: k in index[c] && k < |items| && items[k] == items[id]
  }

  function IndexUnderByValue(items: seq<MatchItem>, index: Index, cs: seq<Champion>, id: nat): (r: Index)
    requires id < |items|
  {
    if cs == [] then index
    else AddToByValue(items, IndexUnderByValue(items, index, cs[..|cs| - 1], id), cs[|cs| - 1], id)
  }

  function IndexMatchesByValue(index: Index, items: seq<MatchItem>, ids: seq<nat>): (r: Index)
    requires forall k :: 0 <= k < |ids| ==> ids[k] < |items|
  {
    if ids == [] then index
    else IndexUnderByValue(items, IndexMatchesByValue(index, items, ids[..|ids| - 1]), items[ids[|ids| - 1]].champions, ids[|ids| - 1])
  }

  /** With maps and two rounds, `get_matches_with` yields two equal matches;
      indexed by value only the first is under its champions, so cancelling
      champion 1 leaves the second one live in the queue. */
  lemma ByValueCancelMisses()
    ensures var items := MatchesWith([1, 2], 2, true, [7]);
      items == [MatchItem([1, 2], Some(7), false), MatchItem([1, 2], Some(7), false)]
      && var after := MarkCancelled(items, Prepared(IndexMatchesByValue(map[], items, [0, 1]), {1}));
      !after[1].cancelled && 1 in after[1].champions
  {
    var a := MatchItem([1, 2], Some(7), false);
    var items := MatchesWith([1, 2], 2, true, [7]);
    assert MatchesWith([1, 2], 1, true, [7]) == [a];
    assert items == [a, a];
    var index := IndexMatchesByValue(map[], items, [0, 1]);
    TwoEqualIndexedOnce(items);
    PreparedMembers(index, {1});
    assert Prepared(index, {1}) == {0};
  }

  /** Two equal items, indexed by value: both champions point to the first
      only. */
  lemma TwoEqualIndexedOnce(items: seq<MatchItem>)
    requires items == [MatchItem([1, 2], Some(7), false), MatchItem([1, 2], Some(7), false)]
    ensures IndexMatchesByValue(map[], items, [0, 1]) == map[1 := {0}, 2 := {0}]
  {
    var first := IndexMatchesByValue(map[], items, [0]);
    assert [0, 1][..1] == [0] && [0][..0] == [] && [1, 2][..1] == [1] && [1][..0] == [];
    assert !HasEqual(items, map[], 1, 0);
    assert AddTo(map[], 1, 0) == map[1 := {} + {0}];
    assert {} + {0} == {0};
    assert AddToByValue(items, map[], 1, 0) == map[1 := {0}];
    assert IndexUnderByValue(items, map[], [1], 0) == map[1 := {0}];
    assert !HasEqual(items, map[1 := {0}], 2, 0);
    assert AddTo(map[1 := {0}], 2, 0) == map[1 := {0}, 2 := {} + {0}];
    assert IndexMatchesByValue(map[], items, []) == map[] && items[0].champions == [1, 2];
    assert first == IndexUnderByValue(items, map[], [1, 2], 0);
    assert first == map[1 := {0}, 2 := {0}];
    assert HasEqual(items, first, 1, 1) && HasEqual(items, first, 2, 1) by {
      assert 0 in first[1] && 0 in first[2] && items[0] == items[1];
    }
    assert IndexUnderByValue(items, first, [1], 1) == first;
  }

  /** The items with positions in `s` marked cancelled. */
  function MarkCancelled(items: seq<MatchItem>, s: set<nat>): (r: seq<MatchItem>)
    ensures |r| == |items|
    ensures forall j :: 0 <= j < |items| ==> r[j].champions == items[j].champions && r[j].board == items[j].board
    ensures forall j :: 0 <= j < |items| ==> (r[j].cancelled <==> items[j].cancelled || j in s)
  {
    seq(|items|, j requires 0 <= j < |items| => if j in s then items[j].(cancelled := true) else items[j])
  }

  lemma MarkCancelledNone(items: seq<MatchItem>)
    ensures MarkCancelled(items, {}) == items
  {
  }

  lemma MarkCancelledUnion(items: seq<MatchItem>, a: set<nat>, b: set<nat>)
    ensures MarkCancelled(MarkCancelled(items, a), b) == MarkCancelled(items, a + b)
  {
  }

  /** The matches indexed under any of `olds`. */
  ghost function Prepared(index: Index, olds: set<Champion>): set<nat>
    decreases olds
  {
    if olds == {} then {}
    else
      var c :| c in olds;
      (if c in index then index[c] else {}) + Prepared(index, olds - {c})
  }

  /** A match is prepared for `olds` exactly when it is indexed under one
      of them. */
  lemma {:induction false} PreparedMembers(index: Index, olds: set<Champion>)
    ensures forall j: nat :: j in Prepared(index, olds) <==> exists c :: c in olds && Indexed(index, c, j)
    decreases olds
  {
    if olds != {} {
      var c :| c in olds && Prepared(index, olds) == (if c in index then index[c] else {}) + Prepared(index, olds - {c});
      PreparedMembers(index, olds - {c});
    }
  }

  lemma PreparedStep(index: Index, done: set<Champion>, c: Champion)
    ensures Prepared(index, done + {c}) == Prepared(index, done) + (if c in index then index[c] else {})
  {
    PreparedMembers(index, done + {c});
    PreparedMembers(index, done);
  }

  /** Cancelling one more champion `c` on top of those in `done`. */
  lemma CancelStep(items: seq<MatchItem>, index: Index, done: set<Champion>, c: Champion)
    requires c !in done
    ensures (index - done) - {c} == index - (done + {c})
    ensures var rest := index - done;
      MarkCancelled(MarkCancelled(items, Prepared(index, done)), if c in rest then rest[c] else {})
      == MarkCancelled(items, Prepared(index, done + {c}))
  {
    PreparedStep(index, done, c);
    MarkCancelledUnion(items, Prepared(index, done), if c in index then index[c] else {});
  }

  /** `create_matches`: up to `n` matches from the front of the queue,
      cancelled ones being dropped on the way; returns the taken matches and
      how many entries of the queue were consumed. */
  function TakeBatch(items: seq<MatchItem>, queue: seq<nat>, n: int): (r: (seq<nat>, nat))
    requires forall k :: 0 <= k < |queue| ==> queue[k] < |items|
    ensures |r.0| <= (if n <= 0 then 0 else n) && r.1 <= |queue|
    ensures forall k :: 0 <= k < |r.0| ==> r.0[k] in queue && !items[r.0[k]].cancelled
    decreases |queue|
  {
    if n <= 0 || queue == [] then ([], 0)
    else if items[queue[0]].cancelled then
      var r := TakeBatch(items, queue[1..], n);
      (r.0, r.1 + 1)
    else
      var r := TakeBatch(items, queue[1..], n - 1);
      ([queue[0]] + r.0, r.1 + 1)
  }

  /** The live (not cancelled) matches of a queue, in order. */
  function Live(items: seq<MatchItem>, queue: seq<nat>): (r: seq<nat>)
    requires forall k :: 0 <= k < |queue| ==> queue[k] < |items|
    ensures |r| <= |queue|
  {
    if queue == [] then []
    else (if items[queue[0]].cancelled then [] else [queue[0]]) + Live(items, queue[1..])
  }

  /** What create_matches takes is exactly the live matches of the part of
      the queue it consumed, in FIFO order; it stops before the end of the
      queue only when the batch is full. */
  lemma TakeBatchFifo(items: seq<MatchItem>, queue: seq<nat>, n: int)
    requires forall k :: 0 <= k < |queue| ==> queue[k] < |items|
    ensures TakeBatch(items, queue, n).0 == Live(items, queue[..TakeBatch(items, queue, n).1])
    ensures |TakeBatch(items, queue, n).0| < n ==> TakeBatch(items, queue, n).1 == |queue|
  {
    TakeBatchLive(items, queue, n);
    TakeBatchFull(items, queue, n);
  }

  lemma {:induction false} TakeBatchLive(items: seq<MatchItem>, queue: seq<nat>, n: int)
    requires forall k :: 0 <= k < |queue| ==> queue[k] < |items|
    ensures TakeBatch(items, queue, n).0 == Live(items, queue[..TakeBatch(items, queue, n).1])
    decreases |queue|
  {
    if n > 0 && queue != [] {
      var m := if items[queue[0]].cancelled then n else n - 1;
      var t := TakeBatch(items, queue[1..], m);
      TakeBatchLive(items, queue[1..], m);
      var eaten := queue[..t.1 + 1];
      assert eaten[0] == queue[0] && eaten[1..] == queue[1..][..t.1];
      assert Live(items, eaten) == (if items[queue[0]].cancelled then [] else [queue[0]]) + Live(items, queue[1..][..t.1]);
    } else {
      assert queue[..0] == [];
    }
  }

  lemma {:induction false} TakeBatchFull(items: seq<MatchItem>, queue: seq<nat>, n: int)
    requires forall k :: 0 <= k < |queue| ==> queue[k] < |items|
    ensures |TakeBatch(items, queue, n).0| < n ==> TakeBatch(items, queue, n).1 == |queue|
    decreases |queue|
  {
    if n > 0 && queue != [] {
      TakeBatchFull(items, queue[1..], if items[queue[0]].cancelled then n else n - 1);
    }
  }

  /** A live queued match is indexed under each of its champions, so that
      cancelling a champion reaches all of its queued matches. */
  ghost predicate IndexCovers(items: seq<MatchItem>, index: Index, queue: seq<nat>)
  {
    forall q, c ::
      (0 <= q < |queue| && queue[q] < |items| && !items[queue[q]].cancelled && c in items[queue[q]].champions)
      ==> Indexed(index, c, queue[q])
  }

  /** One match popped off the front of a queue: a cancelled one is
      skipped, a live one taken. */
  lemma TakeBatchStep(items: seq<MatchItem>, queue: seq<nat>, taken: seq<nat>, n: int)
    requires forall k :: 0 <= k < |queue| ==> queue[k] < |items|
    requires queue != [] && n > 0
    ensures var m := queue[0];
      var t := TakeBatch(items, queue[1..], if items[m].cancelled then n else n - 1);
      var after := if items[m].cancelled then taken else taken + [m];
      taken + TakeBatch(items, queue, n).0 == after + t.0 && TakeBatch(items, queue, n).1 == t.1 + 1
  {
    var m := queue[0];
    var t := TakeBatch(items, queue[1..], if items[m].cancelled then n else n - 1);
    if !items[m].cancelled {
      assert taken + ([m] + t.0) == (taken + [m]) + t.0;
    }
  }

  /** The queue and the index refer to built items, and the index covers
      the live queued matches. */
  ghost predicate Consistent(items: seq<MatchItem>, index: Index, queue: seq<nat>)
  {
    (forall k :: 0 <= k < |queue| ==> queue[k] < |items|)
    && (forall c, j: nat :: Indexed(index, c, j) ==> j < |items|)
    && IndexCovers(items, index, queue)
  }

  /** Appending items keeps the queue and the index consistent. */
  lemma ExtendConsistent(items: seq<MatchItem>, longer: seq<MatchItem>, index: Index, queue: seq<nat>)
    requires Consistent(items, index, queue)
    requires |items| <= |longer| && longer[..|items|] == items
    ensures Consistent(longer, index, queue)
  {
    assert forall k :: 0 <= k < |queue| ==> longer[queue[k]] == items[queue[k]];
  }

  /** Cancelling the matches of `olds` keeps the index consistent and
      leaves no live queued match with an old champion. */
  lemma CancelConsistent(items: seq<MatchItem>, index: Index, queue: seq<nat>, olds: set<Champion>)
    requires Consistent(items, index, queue)
    ensures Consistent(MarkCancelled(items, Prepared(index, olds)), index - olds, queue)
    ensures var after := MarkCancelled(items, Prepared(index, olds));
      forall q, c ::
        (0 <= q < |queue| && !after[queue[q]].cancelled && c in after[queue[q]].champions) ==> c !in olds
  {
    var after := MarkCancelled(items, Prepared(index, olds));
    PreparedMembers(index, olds);
    assert forall c, j: nat :: Indexed(index - olds, c, j) ==> Indexed(index, c, j);
    forall q, c | 0 <= q < |queue| && !after[queue[q]].cancelled && c in after[queue[q]].champions
      ensures c !in olds && Indexed(index - olds, c, queue[q])
    {
      assert Indexed(index, c, queue[q]);
    }
  }

  lemma ConsistentSuffix(items: seq<MatchItem>, index: Index, queue: seq<nat>, k: nat)
    requires Consistent(items, index, queue) && k <= |queue|
    ensures Consistent(items, index, queue[k..])
  {
    var rest := queue[k..];
    assert forall q :: 0 <= q < |rest| ==> rest[q] == queue[q + k];
  }

  class MatchMaker {
    /** `champions`: the champions currently taking part. */
    var champions: set<Champion>
    /** Every MatchItem built so far; the queue and index refer to them by position. */
    var items: seq<MatchItem>
    /** `matches_with_champion`. */
    var index: Index
    /** `next_matches`. */
    var queue: seq<nat>
    const maps: seq<MapId>
    const useMaps: bool
    const repeat: int
    const nplayers: nat
    const batchSize: int

    ghost predicate Valid()
      reads this
    {
      Consistent(items, index, queue)
    }

    constructor (maps: seq<MapId>, useMaps: bool, repeat: int, nplayers: nat, batchSize: int)
      ensures Valid() && this.maps == maps && this.useMaps == useMaps && this.repeat == repeat
      ensures this.nplayers == nplayers && this.batchSize == batchSize
      ensures champions == {} && items == [] && index == map[] && queue == []
    {
      this.maps := maps;
      this.useMaps := useMaps;
      this.repeat := repeat;
      this.nplayers := nplayers;
      this.batchSize := batchSize;
      champions := {};
      items := [];
      index := map[];
      queue := [];
    }

    /** `get_matches_with`: builds the MatchItems between `chs`. Without
        maps one object is yielded `repeat` times; with maps each yielded
        match is a new object. */
    method GetMatchesWith(chs: seq<Champion>) returns (ids: seq<nat>)
      modifies this`items
      ensures |old(items)| <= |items| && items[..|old(items)|] == old(items)
      ensures forall k :: 0 <= k < |ids| ==> |old(items)| <= ids[k] < |items|
      ensures Values(items, ids) == MatchesWith(chs, repeat, useMaps, maps)
      ensures useMaps ==> Distinct(ids)
      ensures !useMaps ==> forall k :: 0 <= k < |ids| ==> ids[k] == |old(items)|
    {
      var base := MatchItem(chs, None, false);
      var shared := |items|;
      items := items + [base];
      ids := [];
      var r := 0;
      while r < repeat
        invariant 0 <= r <= (if repeat > 0 then repeat else 0)
        invariant useMaps ==>
          items == old(items) + [base] + MatchesWith(chs, r, true, maps) && ids == Range(shared + 1, |MatchesWith(chs, r, true, maps)|)
        invariant !useMaps ==> items == old(items) + [base] && ids == seq(r, k => shared)
      {
        if useMaps {
          var round := AppendRound(chs);
          ids := ids + round;
        } else {
          ids := ids + [shared];
        }
        r := r + 1;
      }
      assert items[..shared] == old(items);
      if useMaps {
        ValuesOfRange(old(items) + [base], MatchesWith(chs, repeat, true, maps));
      } else {
        ValuesOfShared(old(items), base, ids);
        assert MatchesWith(chs, repeat, false, maps) == seq(|ids|, k => base) by {
          forall k | 0 <= k < |ids|
            ensures MatchesWith(chs, repeat, false, maps)[k] == base
          {
          }
        }
      }
    }

    /** One round of `get_matches_with` with maps: a new match per map. */
    method AppendRound(chs: seq<Champion>) returns (ids: seq<nat>)
      modifies this`items
      ensures items == old(items) + Round(chs, maps)
      ensures ids == Range(|old(items)|, |maps|)
    {
      ids := [];
      var m := 0;
      while m < |maps|
        invariant 0 <= m <= |maps|
        invariant items == old(items) + Round(chs, maps[..m])
        invariant ids == Range(|old(items)|, m)
      {
        assert Round(chs, maps[..m + 1]) == Round(chs, maps[..m]) + [MatchItem(chs, Some(maps[m]), false)];
        ids := ids + [|items|];
        items := items + [MatchItem(chs, Some(maps[m]), false)];
        m := m + 1;
      }
      assert maps[..m] == maps;
    }

    /** `make_matches`, corrected: each match is indexed under each of its
        champions by identity (as written, a match equal in value to one
        already indexed is not added; see AddToByValue), then the matches
        join the back of the queue in order. */
    method MakeMatches(ids: seq<nat>)
      requires Valid()
      requires forall k :: 0 <= k < |ids| ==> ids[k] < |items|
      modifies this`index, this`queue
      ensures Valid()
      ensures index == IndexMatches(old(index), items, ids)
      ensures queue == old(queue) + ids
    {
      var k := 0;
      while k < |ids|
        invariant 0 <= k <= |ids|
        invariant index == IndexMatches(old(index), items, ids[..k]) && queue == old(queue)
      {
        assert ids[..k + 1][..k] == ids[..k];
        var cs := items[ids[k]].champions;
        var i := 0;
        while i < |cs|
          invariant 0 <= i <= |cs|
          invariant index == IndexUnder(IndexMatches(old(index), items, ids[..k]), cs[..i], ids[k])
          invariant queue == old(queue)
        {
          assert cs[..i + 1][..i] == cs[..i];
          index := AddTo(index, cs[i], ids[k]);
          i := i + 1;
        }
        assert cs[..i] == cs;
        k := k + 1;
      }
      assert ids[..k] == ids;
      queue := queue + ids;
    }

    /** `cancel_matches`, its in-memory part: every prepared match indexed
        under an old champion is marked cancelled and the champion leaves
        the index. */
    method CancelMatches(olds: set<Champion>)
      requires Valid()
      modifies this`items, this`index
      ensures Valid()
      ensures items == MarkCancelled(old(items), Prepared(old(index), olds))
      ensures index == old(index) - olds
      ensures forall q, c ::
        (0 <= q < |queue| && !items[queue[q]].cancelled && c in items[queue[q]].champions) ==> c !in olds
    {
      CancelEach(olds);
      CancelConsistent(old(items), old(index), queue, olds);
    }

    /** The loop of `cancel_matches` over the old champions. */
    method CancelEach(olds: set<Champion>)
      modifies this`items, this`index
      ensures items == MarkCancelled(old(items), Prepared(old(index), olds))
      ensures index == old(index) - olds
    {
      var todo := olds;
      ghost var done: set<Champion> := {};
      MarkCancelledNone(items);
      while todo != {}
        invariant done + todo == olds && done !! todo
        invariant items == MarkCancelled(old(items), Prepared(old(index), done))
        invariant index == old(index) - done
      {
        var c :| c in todo;
        CancelStep(old(items), old(index), done, c);
        CancelChampion(c);
        done := done + {c};
        todo := todo - {c};
      }
    }

    /** One step of `cancel_matches`: the champion's entry is popped from
        the index and each of its matches marked cancelled. */
    method CancelChampion(c: Champion)
      modifies this`items, this`index
      ensures index == old(index) - {c}
      ensures items == MarkCancelled(old(items), if c in old(index) then old(index)[c] else {})
    {
      if c in index {
        var popped := index[c];
        index := index - {c};
        CancelAll(popped);
      } else {
        MarkCancelledNone(items);
      }
    }

    /** The inner loop of `cancel_matches`: each match of the popped set
        is marked cancelled. */
    method CancelAll(popped: set<nat>)
      modifies this`items
      ensures items == MarkCancelled(old(items), popped)
    {
      var rest := popped;
      MarkCancelledNone(items);
      assert popped - rest == {};
      while rest != {}
        invariant rest <= popped
        invariant items == MarkCancelled(old(items), popped - rest)
      {
        var j :| j in rest;
        if j < |items| {
          items := items[j := items[j].(cancelled := true)];
        }
        assert items == MarkCancelled(old(items), (popped - rest) + {j});
        assert (popped - rest) + {j} == popped - (rest - {j});
        rest := rest - {j};
      }
    }

    /** `create_matches`: with the pending limit not reached
        (`limitReached` is the database answer), takes up to `batchSize`
        matches off the front of the queue, skipping cancelled ones; the
        taken matches are the ones written to the database. */
    method CreateMatches(limitReached: bool) returns (created: seq<nat>)
      requires Valid()
      modifies this`queue
      ensures Valid()
      ensures limitReached ==> created == [] && queue == old(queue)
      ensures !limitReached ==>
        created == TakeBatch(items, old(queue), batchSize).0 && queue == old(queue)[TakeBatch(items, old(queue), batchSize).1..]
    {
      if limitReached {
        return [];
      }
      created, queue := PopBatch(items, queue, batchSize);
      ConsistentSuffix(items, index, old(queue), TakeBatch(items, old(queue), batchSize).1);
    }

    /** The loop of `create_matches`: matches are popped off the front of
        `queue` until `batchSize` live ones are taken or the queue is empty;
        `rest` is what is left of the queue. */
    static method PopBatch(items: seq<MatchItem>, queue: seq<nat>, batchSize: int) returns (created: seq<nat>, rest: seq<nat>)
      requires forall k :: 0 <= k < |queue| ==> queue[k] < |items|
      ensures created == TakeBatch(items, queue, batchSize).0
      ensures rest == queue[TakeBatch(items, queue, batchSize).1..]
    {
      created := [];
      rest := queue;
      ghost var eaten := 0;
      assert created + TakeBatch(items, rest, batchSize - |created|).0 == TakeBatch(items, rest, batchSize - |created|).0;
      while |created| < batchSize && rest != []
        invariant eaten <= |queue| && rest == queue[eaten..]
        invariant TakeBatch(items, queue, batchSize) ==
          (created + TakeBatch(items, rest, batchSize - |created|).0,
           eaten + TakeBatch(items, rest, batchSize - |created|).1)
        decreases |rest|
      {
        var m := rest[0];
        TakeBatchStep(items, rest, created, batchSize - |created|);
        rest := rest[1..];
        eaten := eaten + 1;
        if items[m].cancelled {
          continue;
        }
        created := created + [m];
      }
      assert created + [] == created;
    }

    /** `make_matches_for_champions`: the matches of every ordered tuple of
        `nplayers` distinct champions of `pool` that contains a new
        champion. `pool` lists current and new champions. */
    method MakeMatchesForChampions(pool: seq<Champion>, news: set<Champion>) returns (ids: seq<nat>)
      requires Valid()
      modifies this`items, this`index, this`queue
      ensures Valid()
      ensures |old(items)| <= |items| && items[..|old(items)|] == old(items)
      ensures forall k :: 0 <= k < |ids| ==> |old(items)| <= ids[k] < |items|
      ensures index == IndexMatches(old(index), items, ids) && queue == old(queue) + ids
      ensures Values(items, ids) == NewMatches(Arrangements(pool, nplayers), news, repeat, useMaps, maps)
    {
      ids := ScheduleTuples(Arrangements(pool, nplayers), news);
      ExtendConsistent(old(items), items, index, queue);
      MakeMatches(ids);
    }

    /** The loop of `make_matches_for_champions`: the matches of each tuple
        holding a new champion are built, in order. */
    method ScheduleTuples(tuples: seq<seq<Champion>>, news: set<Champion>) returns (ids: seq<nat>)
      modifies this`items
      ensures |old(items)| <= |items| && items[..|old(items)|] == old(items)
      ensures forall k :: 0 <= k < |ids| ==> |old(items)| <= ids[k] < |items|
      ensures Values(items, ids) == NewMatches(tuples, news, repeat, useMaps, maps)
    {
      ids := [];
      var i := 0;
      while i < |tuples|
        invariant 0 <= i <= |tuples|
        invariant |old(items)| <= |items| && items[..|old(items)|] == old(items)
        invariant forall k :: 0 <= k < |ids| ==> |old(items)| <= ids[k] < |items|
        invariant Values(items, ids) == NewMatches(tuples[..i], news, repeat, useMaps, maps)
      {
        assert tuples[..i + 1][..i] == tuples[..i];
        var chs := tuples[i];
        if exists c :: c in chs && c in news {
          ghost var items0 := items;
          var more := GetMatchesWith(chs);
          ValuesAppend(items0, items, ids, more);
          ids := ids + more;
        }
        i := i + 1;
      }
      assert tuples[..i] == tuples;
    }

    /** `new_champions_watch`: `latest` is the champion query's answer.
        Matches of champions that left are cancelled (over the corrected
        index of MakeMatches), matches of newcomers scheduled, and
        `latest` becomes the set of current champions. */
    method NewChampionsWatch(latest: seq<Champion>) returns (ghost ids: seq<nat>)
      requires Valid() && Distinct(latest)
      modifies this`champions, this`items, this`index, this`queue
      ensures Valid()
      ensures champions == set c | c in latest
      ensures |old(items)| <= |items|
      ensures forall k :: 0 <= k < |ids| ==> |old(items)| <= ids[k] < |items|
      ensures index == IndexMatches(old(index) - (old(champions) - champions), items, ids)
      ensures queue == old(queue) + ids
      ensures forall j :: 0 <= j < |old(items)| ==>
        items[j] == MarkCancelled(old(items), Prepared(old(index), old(champions) - champions))[j]
      ensures Values(items, ids) ==
        if champions - old(champions) == {} then []
        else NewMatches(Arrangements(latest, nplayers), champions - old(champions), repeat, useMaps, maps)
    {
      var now := set c | c in latest;
      var olds := champions - now;
      if olds != {} {
        CancelMatches(olds);
      } else {
        assert MarkCancelled(items, Prepared(index, olds)) == items;
        assert index - olds == index;
      }
      ghost var mid := items;
      var news := now - champions;
      ids := [];
      if news != {} {
        ids := MakeMatchesForChampions(latest, news);
        assert forall j :: 0 <= j < |old(items)| ==> items[j] == mid[j];
      }
      champions := now;
    }
  }

  /** The matches make_matches_for_champions schedules for the tuples
      `tuples`: those of every tuple holding a new champion, in order. */
  function NewMatches(tuples: seq<seq<Champion>>, news: set<Champion>, repeat: int, useMaps: bool, maps: seq<MapId>): seq<MatchItem>
  {
    if tuples == [] then []
    else NewMatches(tuples[..|tuples| - 1], news, repeat, useMaps, maps)
         + (if exists c :: c in tuples[|tuples| - 1] && c in news then MatchesWith(tuples[|tuples| - 1], repeat, useMaps, maps)
            else [])
  }

  /** Every scheduled match contains a new champion, and none of them is
      cancelled. */
  lemma {:induction false} NewMatchesHaveNewcomer(tuples: seq<seq<Champion>>, news: set<Champion>, repeat: int, useMaps: bool, maps: seq<MapId>)
    ensures forall m :: m in NewMatches(tuples, news, repeat, useMaps, maps) ==>
      !m.cancelled && exists c :: c in m.champions && c in news
  {
    if tuples != [] {
      NewMatchesHaveNewcomer(tuples[..|tuples| - 1], news, repeat, useMaps, maps);
    }
  }

  /** Every tuple holding a new champion gets all its matches scheduled:
      with maps in use, one per map in each round; without, the bare
      match. */
  lemma {:induction false} NewMatchesComplete(tuples: seq<seq<Champion>>, news: set<Champion>, repeat: int, useMaps: bool,
                                              maps: seq<MapId>, chs: seq<Champion>)
    requires chs in tuples && exists c :: c in chs && c in news
    requires repeat > 0
    ensures forall m :: m in MatchesWith(chs, repeat, useMaps, maps) ==> m in NewMatches(tuples, news, repeat, useMaps, maps)
    ensures !useMaps ==> MatchItem(chs, None, false) in NewMatches(tuples, news, repeat, false, maps)
    ensures useMaps ==> forall b :: b in maps ==> MatchItem(chs, Some(b), false) in NewMatches(tuples, news, repeat, true, maps)
  {
    NewMatchesContain(tuples, news, repeat, useMaps, maps, chs);
    if !useMaps {
      var ms := MatchesWith(chs, repeat, false, maps);
      assert ms[0] == MatchItem(chs, None, false);
    } else {
      forall b | b in maps
        ensures MatchItem(chs, Some(b), false) in NewMatches(tuples, news, repeat, true, maps)
      {
        MatchesWithMaps(chs, repeat, maps, b);
      }
    }
  }

  lemma {:induction false} NewMatchesContain(tuples: seq<seq<Champion>>, news: set<Champion>, repeat: int, useMaps: bool,
                                             maps: seq<MapId>, chs: seq<Champion>)
    requires chs in tuples && exists c :: c in chs && c in news
    ensures forall m :: m in MatchesWith(chs, repeat, useMaps, maps) ==> m in NewMatches(tuples, news, repeat, useMaps, maps)
  {
    var init := tuples[..|tuples| - 1];
    if chs != tuples[|tuples| - 1] {
      assert chs in init;
      NewMatchesContain(init, news, repeat, useMaps, maps, chs);
    }
  }

  /** `bootstrap`'s missing matches: the multiset difference of the
      desired matches and those already in the tournament (a Counter
      subtraction followed by `elements()`). */
  function Missing(desired: seq<MatchItem>, current: seq<MatchItem>): (r: seq<MatchItem>)
    ensures multiset(r) == multiset(desired) - multiset(current)
  {
    MissingFrom(desired, multiset(desired) - multiset(current))
  }

  /** The elements of `counts`, grouped by first occurrence in `order`
      (the order of a Counter's keys). */
  function MissingFrom(order: seq<MatchItem>, counts: multiset<MatchItem>): (r: seq<MatchItem>)
    requires forall m :: m in counts ==> m in order
    ensures multiset(r) == counts
    decreases |order|
  {
    if order == [] then []
    else
      var m := order[0];
      var rest := counts[m := 0];
      assert forall x :: x in rest ==> x in order[1..];
      Repeat(m, counts[m]) + MissingFrom(order[1..], rest)
  }

  function Repeat(m: MatchItem, n: nat): (r: seq<MatchItem>)
    ensures multiset(r) == multiset{}[m := n]
  {
    if n == 0 then [] else [m] + Repeat(m, n - 1)
  }
}
