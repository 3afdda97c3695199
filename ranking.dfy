/** The ranking of a tournament's players, after `TournamentView.players` in
    python-lib/prologin/concours/stechec/views.py: the players come in the
    order of the query (by decreasing score), and each gets a rank and an
    `ex_aequo` flag, a player with the same score as the one before sharing
    its rank. */
module Ranking {
  import opened Common

  datatype Player = Player(champion: nat, score: int, rank: nat, exAequo: bool)

  function Scores(ps: seq<Player>): (r: seq<int>)
    ensures |r| == |ps| && forall i :: 0 <= i < |ps| ==> r[i] == ps[i].score
  {
    seq(|ps|, i requires 0 <= i < |ps| => ps[i].score)
  }

  /** Whether player `i` has the score of the player before. */
  predicate SameAsPrevious(scores: seq<int>, i: nat)
    requires i < |scores|
  {
    i > 0 && scores[i - 1] == scores[i]
  }

  /** The 0-based position where the run of equal scores holding player
      `i` starts. */
  function RunStart(scores: seq<int>, i: nat): (r: nat)
    requires i < |scores|
    ensures r <= i
    ensures forall j :: r <= j <= i ==> scores[j] == scores[i]
    ensures r == 0 || scores[r - 1] != scores[r]
  {
    if !SameAsPrevious(scores, i) then i else RunStart(scores, i - 1)
  }

  /** Scores in the order the query returns them. */
  predicate Descending(scores: seq<int>)
  {
    forall i, j :: 0 <= i < j < |scores| ==> scores[i] >= scores[j]
  }

  /** In a descending list, the run holding a player starts at the first
      player with that score: its rank is one plus the number of players
      with a strictly higher score. */
  lemma RankIsFirstWithScore(scores: seq<int>, i: nat)
    requires Descending(scores) && i < |scores|
    ensures var r := RunStart(scores, i);
      scores[r] == scores[i] && forall j :: 0 <= j < r ==> scores[j] > scores[i]
  {
    var r := RunStart(scores, i);
    if r > 0 {
      assert scores[r - 1] >= scores[r];
      forall j | 0 <= j < r
        ensures scores[j] > scores[i]
      {
        assert scores[j] >= scores[r - 1];
      }
    }
  }

  /** A player is ex aequo exactly when it has the rank of the player
      before; ranks never decrease along the list; the first player has
      rank 1. */
  lemma ExAequoSharesRank(scores: seq<int>, i: nat)
    requires 0 < i < |scores|
    ensures SameAsPrevious(scores, i) <==> RunStart(scores, i) == RunStart(scores, i - 1)
    ensures RunStart(scores, i - 1) <= RunStart(scores, i)
    ensures RunStart(scores, 0) == 0
  {
  }

  /** Each player given its rank, one plus the start of its run, and its
      flag. */
  function Ranked(ps: seq<Player>): (r: seq<Player>)
    ensures |r| == |ps|
  {
    seq(|ps|, i requires 0 <= i < |ps| =>
      ps[i].(rank := RunStart(Scores(ps), i) + 1, exAequo := SameAsPrevious(Scores(ps), i)))
  }

  /** The ranking keeps each player and its score in place; the first
      player has rank 1 and is not ex aequo; in a descending list a
      player's rank is one plus the number of players with a higher
      score, and it is ex aequo exactly when it shares the rank of the
      player before. */
  lemma RankedPlayer(ps: seq<Player>, i: nat)
    requires i < |ps|
    ensures var r := Ranked(ps)[i];
      r.champion == ps[i].champion && r.score == ps[i].score
    ensures Ranked(ps)[0].rank == 1 && !Ranked(ps)[0].exAequo
    ensures Descending(Scores(ps)) ==>
      var r := Ranked(ps)[i].rank - 1;
      ps[r].score == ps[i].score && forall j :: 0 <= j < r ==> ps[j].score > ps[i].score
    ensures i > 0 ==> (Ranked(ps)[i].exAequo <==> Ranked(ps)[i].rank == Ranked(ps)[i - 1].rank)
  {
    var scores := Scores(ps);
    if Descending(scores) {
      RankIsFirstWithScore(scores, i);
    }
    if i > 0 {
      ExAequoSharesRank(scores, i);
    }
  }

  /** `players`: the loop over the players, which writes each one's rank
      and `ex_aequo` flag in place. */
  method RankPlayers(players: array<Player>)
    modifies players
    ensures players[..] == Ranked(old(players[..]))
  {
    ghost var before := players[..];
    ghost var scores := Scores(before);
    ghost var ranked := Ranked(before);
    var rank := 1;
    var previousScore: Option<int> := None;
    var i := 0;
    while i < players.Length
      invariant 0 <= i <= players.Length
      invariant players[..i] == ranked[..i]
      invariant players[i..] == before[i..]
      invariant i == 0 ==> previousScore.None?
      invariant i > 0 ==> previousScore == Some(scores[i - 1]) && rank == RunStart(scores, i - 1) + 1
    {
      assert players[i] == before[i];
      var score := players[i].score;
      var exAequo := true;
      if previousScore.None? || previousScore.value != score {
        rank := i + 1;
        exAequo := false;
        previousScore := Some(score);
      }
      players[i] := players[i].(rank := rank, exAequo := exAequo);
      assert players[i] == ranked[i];
      i := i + 1;
    }
    assert players[..] == players[..i];
  }
}
