/** The evaluation of a round-robin tournament, after
    python-lib/prologin/concours/stechec/management/commands/evaluate_roundrobin.py:
    once every match of the tournament is done, each champion's score is
    either its number of win points or the sum of its match scores. The
    database queries become parameters: the match counts, the players of
    each match, and the champions of the tournament's players. */
module RoundRobinEval {
  import opened Common

  /** A champion's entry in one match, with the score it got there. */
  datatype MatchPlayer = MatchPlayer(champion: nat, score: int)

  type Match = seq<MatchPlayer>

  datatype Scoring = Wins | Cumulative

  datatype EvalError = NotOver(done: nat, total: nat) | EmptyMatch

  /** `defaultdict(int)` lookup. */
  function Get(m: map<nat, int>, k: nat): int
  {
    if k in m then m[k] else 0
  }

  // ---------------------------------------------------------------------
  // Cumulative scoring

  /** The sum of `c`'s scores over the entries of one match. */
  function MatchScoreOf(m: Match, c: nat): int
  {
    if m == [] then 0
    else MatchScoreOf(m[..|m| - 1], c) + (if m[|m| - 1].champion == c then m[|m| - 1].score else 0)
  }

  /** The sum of `c`'s scores over all matches. */
  function CumScore(ms: seq<Match>, c: nat): int
  {
    if ms == [] then 0 else CumScore(ms[..|ms| - 1], c) + MatchScoreOf(ms[|ms| - 1], c)
  }

  /** Cumulative scores add up over the matches: splitting the matches in
      two splits each champion's score in two. */
  lemma {:induction false} CumScoreAppend(a: seq<Match>, b: seq<Match>, c: nat)
    ensures CumScore(a + b, c) == CumScore(a, c) + CumScore(b, c)
  {
    if b != [] {
      assert (a + b)[..|a + b| - 1] == a + b[..|b| - 1];
      assert (a + b)[|a + b| - 1] == b[|b| - 1];
      CumScoreAppend(a, b[..|b| - 1], c);
    } else {
      assert a + b == a;
    }
  }

  /** A champion that plays no match scores 0. */
  lemma {:induction false} CumScoreAbsent(ms: seq<Match>, c: nat)
    requires forall i, j :: 0 <= i < |ms| && 0 <= j < |ms[i]| ==> ms[i][j].champion != c
    ensures CumScore(ms, c) == 0
  {
    if ms != [] {
      var init := ms[..|ms| - 1];
      MatchScoreAbsent(ms[|ms| - 1], c);
      assert forall i :: 0 <= i < |init| ==> init[i] == ms[i];
      CumScoreAbsent(init, c);
    }
  }

  lemma {:induction false} MatchScoreAbsent(m: Match, c: nat)
    requires forall j :: 0 <= j < |m| ==> m[j].champion != c
    ensures MatchScoreOf(m, c) == 0
  {
    if m != [] {
      MatchScoreAbsent(m[..|m| - 1], c);
    }
  }

  // ---------------------------------------------------------------------
  // Wins scoring

  /** The highest score of a match. */
  function MaxScore(m: Match): (r: int)
    requires m != []
    ensures forall j :: 0 <= j < |m| ==> m[j].score <= r
    ensures exists j :: 0 <= j < |m| && m[j].score == r
  {
    if |m| == 1 then m[0].score
    else
      var r := MaxScore(m[..|m| - 1]);
      assert forall j :: 0 <= j < |m| - 1 ==> m[..|m| - 1][j] == m[j];
      if m[|m| - 1].score > r then m[|m| - 1].score else r
  }

  /** The champions with the highest score, in the order of the entries. */
  function Winners(m: Match, best: int): (r: seq<nat>)
    ensures |r| <= |m|
    ensures forall c :: c in r <==> exists j :: 0 <= j < |m| && m[j].champion == c && m[j].score == best
  {
    if m == [] then []
    else
      var init := m[..|m| - 1];
      assert forall j :: 0 <= j < |init| ==> init[j] == m[j];
      Winners(init, best) + (if m[|m| - 1].score == best then [m[|m| - 1].champion] else [])
  }

  /** The increments one match makes to the win points: 2 for a sole
      winner, 1 for each of several. */
  function Awards(m: Match): seq<(nat, int)>
    requires m != []
  {
    var w := Winners(m, MaxScore(m));
    if |w| == 1 then [(w[0], 2)]
    else seq(|w|, i requires 0 <= i < |w| => (w[i], 1))
  }

  /** The points a list of increments gives `c`. */
  function PointsOf(aw: seq<(nat, int)>, c: nat): int
  {
    if aw == [] then 0
    else PointsOf(aw[..|aw| - 1], c) + (if aw[|aw| - 1].0 == c then aw[|aw| - 1].1 else 0)
  }

  /** The points a list of increments hands out in all. */
  function Total(aw: seq<(nat, int)>): int
  {
    if aw == [] then 0 else Total(aw[..|aw| - 1]) + aw[|aw| - 1].1
  }

  lemma {:induction false} TotalOnes(aw: seq<(nat, int)>)
    requires forall i :: 0 <= i < |aw| ==> aw[i].1 == 1
    ensures Total(aw) == |aw|
  {
    if aw != [] {
      TotalOnes(aw[..|aw| - 1]);
    }
  }

  /** A match has at least one winner; it hands out 2 points in all when
      there is one, and one point per winner when several tie. */
  lemma AwardsTotal(m: Match)
    requires m != []
    ensures |Winners(m, MaxScore(m))| >= 1
    ensures var w := Winners(m, MaxScore(m));
      Total(Awards(m)) == if |w| == 1 then 2 else |w|
  {
    var j :| 0 <= j < |m| && m[j].score == MaxScore(m);
    assert m[j].champion in Winners(m, MaxScore(m));
    var w := Winners(m, MaxScore(m));
    if |w| != 1 {
      TotalOnes(Awards(m));
    }
  }

  /** The sole top scorer of a match gets 2 points from it. */
  lemma SoleWinnerGetsTwo(m: Match, c: nat)
    requires m != [] && Winners(m, MaxScore(m)) == [c]
    ensures PointsOf(Awards(m), c) == 2
  {
    assert Awards(m)[..0] == [];
  }

  /** The champions a list of increments goes to, in order. */
  function Receivers(aw: seq<(nat, int)>): seq<nat>
  {
    seq(|aw|, i requires 0 <= i < |aw| => aw[i].0)
  }

  /** With one point per increment, a champion gets as many points as it
      appears among the receivers. */
  lemma {:induction false} PointsOfOnes(aw: seq<(nat, int)>, c: nat)
    requires forall i :: 0 <= i < |aw| ==> aw[i].1 == 1
    ensures PointsOf(aw, c) == multiset(Receivers(aw))[c]
  {
    if aw != [] {
      var init := aw[..|aw| - 1];
      PointsOfOnes(init, c);
      assert Receivers(aw) == Receivers(init) + [aw[|aw| - 1].0];
    }
  }

  /** When several champions tie for the best score, each gets one point
      per place it holds among the winners, and a champion that is not a
      winner gets nothing. */
  lemma TiedWinnerPoints(m: Match, c: nat)
    requires m != [] && |Winners(m, MaxScore(m))| != 1
    ensures PointsOf(Awards(m), c) == multiset(Winners(m, MaxScore(m)))[c]
  {
    var aw := Awards(m);
    PointsOfOnes(aw, c);
    assert Receivers(aw) == Winners(m, MaxScore(m));
  }

  /** A champion below the best score of a match gets no point from it. */
  lemma LoserGetsNothing(m: Match, c: nat)
    requires m != [] && c !in Winners(m, MaxScore(m))
    ensures PointsOf(Awards(m), c) == 0
  {
    var w := Winners(m, MaxScore(m));
    if |w| == 1 {
      assert Awards(m)[..0] == [];
    } else {
      TiedWinnerPoints(m, c);
    }
  }

  /** The win points of `c` over all matches. */
  function WinPoints(ms: seq<Match>, c: nat): int
    requires forall i :: 0 <= i < |ms| ==> ms[i] != []
  {
    if ms == [] then 0 else WinPoints(ms[..|ms| - 1], c) + PointsOf(Awards(ms[|ms| - 1]), c)
  }

  /** A champion that plays no match gets no win point. */
  lemma {:induction false} WinPointsAbsent(ms: seq<Match>, c: nat)
    requires forall i :: 0 <= i < |ms| ==> ms[i] != []
    requires forall i, j :: 0 <= i < |ms| && 0 <= j < |ms[i]| ==> ms[i][j].champion != c
    ensures WinPoints(ms, c) == 0
  {
    if ms != [] {
      var init := ms[..|ms| - 1];
      assert forall i :: 0 <= i < |init| ==> init[i] == ms[i];
      WinPointsAbsent(init, c);
      var last := ms[|ms| - 1];
      assert forall j :: 0 <= j < |last| ==> last[j].champion != c;
      LoserGetsNothing(last, c);
    }
  }

  // ---------------------------------------------------------------------
  // The command

  /** A champion's score under the tournament's scoring option. */
  function ScoreOf(ms: seq<Match>, c: nat, scoring: Scoring): int
    requires forall i :: 0 <= i < |ms| ==> ms[i] != []
  {
    match scoring
    case Wins => WinPoints(ms, c)
    case Cumulative => CumScore(ms, c)
  }

  /** What the command sets as the score of each tournament player. */
  function Evaluation(done: nat, total: nat, ms: seq<Match>, players: seq<nat>, scoring: Scoring)
    : (r: Result<seq<int>, EvalError>)
    ensures done < total ==> r == Err(NotOver(done, total))
    ensures r.Ok? ==> |r.value| == |players|
  {
    if done < total then Err(NotOver(done, total))
    else if exists i :: 0 <= i < |ms| && ms[i] == [] then Err(EmptyMatch)
    else Ok(seq(|players|, i requires 0 <= i < |players| => ScoreOf(ms, players[i], scoring)))
  }

  /** Adds the entries of one match to the cumulative scores. */
  method AddMatchScores(cum: map<nat, int>, m: Match) returns (r: map<nat, int>)
    ensures forall c :: Get(r, c) == Get(cum, c) + MatchScoreOf(m, c)
  {
    r := cum;
    var j := 0;
    while j < |m|
      invariant 0 <= j <= |m|
      invariant forall c :: Get(r, c) == Get(cum, c) + MatchScoreOf(m[..j], c)
    {
      assert m[..j + 1][..j] == m[..j];
      r := r[m[j].champion := Get(r, m[j].champion) + m[j].score];
      j := j + 1;
    }
    assert m[..j] == m;
  }

  /** The `max` of the scores of a non-empty match. */
  method HighestScore(m: Match) returns (best: int)
    requires m != []
    ensures best == MaxScore(m)
  {
    best := m[0].score;
    var k := 1;
    while k < |m|
      invariant 1 <= k <= |m|
      invariant best == MaxScore(m[..k])
    {
      assert m[..k + 1][..k] == m[..k];
      if m[k].score > best {
        best := m[k].score;
      }
      k := k + 1;
    }
    assert m[..k] == m;
  }

  /** The list of the champions that reach the best score. */
  method TopScorers(m: Match, best: int) returns (winners: seq<nat>)
    ensures winners == Winners(m, best)
  {
    winners := [];
    var k := 0;
    while k < |m|
      invariant 0 <= k <= |m|
      invariant winners == Winners(m[..k], best)
    {
      assert m[..k + 1][..k] == m[..k];
      if m[k].score == best {
        winners := winners + [m[k].champion];
      }
      k := k + 1;
    }
    assert m[..k] == m;
  }

  /** Adds one point to each of several winners. */
  method AddTies(wins: map<nat, int>, aw: seq<(nat, int)>) returns (r: map<nat, int>)
    requires forall i :: 0 <= i < |aw| ==> aw[i].1 == 1
    ensures forall c :: Get(r, c) == Get(wins, c) + PointsOf(aw, c)
  {
    r := wins;
    var i := 0;
    while i < |aw|
      invariant 0 <= i <= |aw|
      invariant forall c :: Get(r, c) == Get(wins, c) + PointsOf(aw[..i], c)
    {
      assert aw[..i + 1][..i] == aw[..i];
      r := r[aw[i].0 := Get(r, aw[i].0) + 1];
      i := i + 1;
    }
    assert aw[..i] == aw;
  }

  /** Adds a match's win points: 2 to a sole winner, 1 to each of
      several. */
  method AddMatchWins(wins: map<nat, int>, m: Match) returns (r: map<nat, int>)
    requires m != []
    ensures forall c :: Get(r, c) == Get(wins, c) + PointsOf(Awards(m), c)
  {
    var best := HighestScore(m);
    var winners := TopScorers(m, best);
    if |winners| == 1 {
      r := wins[winners[0] := Get(wins, winners[0]) + 2];
      assert Awards(m)[..0] == [];
    } else {
      r := AddTies(wins, seq(|winners|, i requires 0 <= i < |winners| => (winners[i], 1)));
    }
  }

  /** The loop over the matches: each adds its scores to the cumulative
      scores and its win points to the wins; `max` of an empty match fails
      (false). */
  method ScoreMatches(ms: seq<Match>) returns (ok: bool, wins: map<nat, int>, cum: map<nat, int>)
    ensures ok <==> forall j :: 0 <= j < |ms| ==> ms[j] != []
    ensures ok ==> forall c :: Get(cum, c) == CumScore(ms, c) && Get(wins, c) == WinPoints(ms, c)
  {
    wins, cum := map[], map[];
    var i := 0;
    while i < |ms|
      invariant 0 <= i <= |ms|
      invariant forall j :: 0 <= j < i ==> ms[j] != []
      invariant forall c :: Get(cum, c) == CumScore(ms[..i], c)
      invariant forall c :: Get(wins, c) == WinPoints(ms[..i], c)
    {
      assert ms[..i + 1][..i] == ms[..i];
      cum := AddMatchScores(cum, ms[i]);
      if ms[i] == [] {
        return false, wins, cum;
      }
      wins := AddMatchWins(wins, ms[i]);
      i := i + 1;
    }
    assert ms[..i] == ms;
    ok := true;
  }

  /** The score set on each tournament player, from the table the scoring
      option selects. */
  method PlayerScores(ms: seq<Match>, players: seq<nat>, scoring: Scoring, wins: map<nat, int>, cum: map<nat, int>)
    returns (scores: seq<int>)
    requires forall j :: 0 <= j < |ms| ==> ms[j] != []
    requires forall c :: Get(cum, c) == CumScore(ms, c) && Get(wins, c) == WinPoints(ms, c)
    ensures |scores| == |players|
    ensures forall j :: 0 <= j < |players| ==> scores[j] == ScoreOf(ms, players[j], scoring)
  {
    scores := [];
    var k := 0;
    while k < |players|
      invariant 0 <= k <= |players|
      invariant |scores| == k
      invariant forall j :: 0 <= j < k ==> scores[j] == ScoreOf(ms, players[j], scoring)
    {
      var s := match scoring
               case Wins => Get(wins, players[k])
               case Cumulative => Get(cum, players[k]);
      scores := scores + [s];
      k := k + 1;
    }
  }

  /** `handle`: refuses a tournament with matches not done yet, then
      scores every match and sets each tournament player's score. */
  method Evaluate(done: nat, total: nat, ms: seq<Match>, players: seq<nat>, scoring: Scoring)
    returns (r: Result<seq<int>, EvalError>)
    ensures r == Evaluation(done, total, ms, players, scoring)
  {
    if done < total {
      return Err(NotOver(done, total));
    }
    var ok, wins, cum := ScoreMatches(ms);
    if !ok {
      return Err(EmptyMatch);
    }
    var scores := PlayerScores(ms, players, scoring, wins, cum);
    ghost var e := Evaluation(done, total, ms, players, scoring);
    assert scores == e.value;
    r := Ok(scores);
  }
}
