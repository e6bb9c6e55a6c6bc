/** The end-of-game aggregation of the game-over screen in App.tsx: the
    winning score, the first player holding it, every player holding it,
    and whether the game ends with a single player's completion, a tie
    or a sole winner. */
module GameOver {

  /** `Math.max(...scores)` for a non-empty list of scores. */
  function MaxScore(scores: seq<int>): (m: int)
    requires |scores| > 0
    ensures exists k :: 0 <= k < |scores| && scores[k] == m
    ensures forall k :: 0 <= k < |scores| ==> scores[k] <= m
  {
    MaxFrom(scores, 0)
  }

  /** The largest of `scores[i..]`. */
  function MaxFrom(scores: seq<int>, i: nat): (m: int)
    requires i < |scores|
    ensures exists k :: i <= k < |scores| && scores[k] == m
    ensures forall k :: i <= k < |scores| ==> scores[k] <= m
    decreases |scores| - i
  {
    if i == |scores| - 1 then scores[i]
    else
      var rest := MaxFrom(scores, i + 1);
      if scores[i] >= rest then scores[i] else rest
  }

  /** `s.indexOf(x)`: the first position holding `x`, or -1. */
  function IndexOf(s: seq<int>, x: int): (i: int)
    ensures -1 <= i < |s|
    ensures i == -1 <==> forall k :: 0 <= k < |s| ==> s[k] != x
    ensures 0 <= i ==> s[i] == x && forall k :: 0 <= k < i ==> s[k] != x
  {
    IndexFrom(s, x, 0)
  }

  /** The first position at or after `from` holding `x`, or -1. */
  function IndexFrom(s: seq<int>, x: int, from: nat): (i: int)
    requires from <= |s|
    ensures i == -1 || from <= i < |s|
    ensures i == -1 <==> forall k :: from <= k < |s| ==> s[k] != x
    ensures 0 <= i ==> s[i] == x && forall k :: from <= k < i ==> s[k] != x
    decreases |s| - from
  {
    if from == |s| then -1
    else if s[from] == x then from
    else IndexFrom(s, x, from + 1)
  }

  /** The one-based numbers of the players among `scores[..n]` whose
      score is `m`, in order. */
  function HoldingBelow(scores: seq<int>, m: int, n: nat): (r: seq<nat>)
    requires n <= |scores|
    ensures forall k :: 0 <= k < |r| ==> 1 <= r[k] <= n && scores[r[k] - 1] == m
    ensures forall k, l :: 0 <= k < l < |r| ==> r[k] < r[l]
  {
    if n == 0 then []
    else
      var front := HoldingBelow(scores, m, n - 1);
      var r := front + (if scores[n - 1] == m then [n] else []);
      assert forall k :: 0 <= k < |front| ==> r[k] == front[k];
      r
  }

  /** Every player of `scores[..n]` whose score is `m` is listed. */
  lemma {:induction false} HoldingBelowComplete(scores: seq<int>, m: int, n: nat, i: nat)
    requires n <= |scores| && i < n && scores[i] == m
    ensures i + 1 in HoldingBelow(scores, m, n)
  {
    var front := HoldingBelow(scores, m, n - 1);
    if i < n - 1 {
      HoldingBelowComplete(scores, m, n - 1, i);
      assert i + 1 in front;
    }
  }

  /** The one-based numbers of the players whose score is `m`, in order:
      `scores.map((s, i) => s === m ? i + 1 : -1)` with the -1 entries
      filtered out. */
  function Holding(scores: seq<int>, m: int): (r: seq<nat>)
    ensures forall k :: 0 <= k < |r| ==> 1 <= r[k] <= |scores| && scores[r[k] - 1] == m
    ensures forall k, l :: 0 <= k < l < |r| ==> r[k] < r[l]
    ensures forall i :: 0 <= i < |scores| && scores[i] == m ==> i + 1 in r
  {
    var r := HoldingBelow(scores, m, |scores|);
    forall i | 0 <= i < |scores| && scores[i] == m
      ensures i + 1 in r
    {
      HoldingBelowComplete(scores, m, |scores|, i);
    }
    r
  }

  /** `winningPlayers`. When there are no scores, `Math.max` gives
      minus infinity, which no score equals, so nobody wins. */
  function WinningPlayers(scores: seq<int>): (r: seq<nat>)
    ensures |scores| == 0 ==> r == []
  {
    if |scores| == 0 then [] else Holding(scores, MaxScore(scores))
  }

  /** What `getWinnerText` announces. `Winner(i)` names `playerNames[i]`;
      `i` is `winnerIndex`, which is -1 when there are no scores. */
  datatype Outcome = Complete | Tie | Winner(index: int)

  /** The outcome of a game of `numPlayers` players with the final
      `scores`. */
  function GameOutcome(numPlayers: nat, scores: seq<int>): (o: Outcome)
    ensures o == Complete <==> numPlayers == 1
    ensures o.Winner? ==> -1 <= o.index < |scores| && (o.index == -1 <==> |scores| == 0)
  {
    if numPlayers == 1 then Complete
    else if |WinningPlayers(scores)| > 1 then Tie
    else if |scores| == 0 then Winner(-1)
    else Winner(IndexOf(scores, MaxScore(scores)))
  }

  /** A player is among the winning players exactly when no score beats
      theirs. */
  lemma WinningPlayersAreTheBest(scores: seq<int>, i: nat)
    requires i < |scores|
    ensures i + 1 in WinningPlayers(scores) <==> forall k :: 0 <= k < |scores| ==> scores[k] <= scores[i]
  {
    var m := MaxScore(scores);
    if i + 1 in WinningPlayers(scores) {
      var k :| 0 <= k < |WinningPlayers(scores)| && WinningPlayers(scores)[k] == i + 1;
    }
  }

  /** Somebody always holds the winning score. */
  lemma SomebodyWins(scores: seq<int>)
    requires |scores| > 0
    ensures |WinningPlayers(scores)| >= 1
  {
    var m := MaxScore(scores);
    var i :| 0 <= i < |scores| && scores[i] == m;
    assert i + 1 in WinningPlayers(scores);
  }

  /** Two different members make a sequence longer than one. */
  lemma TwoMembers(w: seq<nat>, x: nat, y: nat)
    requires x in w && y in w && x != y
    ensures |w| > 1
  {
  }

  /** Two different players share the best score exactly when more than
      one player holds it. */
  lemma SharedIffSeveral(scores: seq<int>)
    requires |scores| > 0
    ensures |WinningPlayers(scores)| > 1 <==>
              exists i, j :: 0 <= i < j < |scores| && scores[i] == scores[j] == MaxScore(scores)
  {
    var m := MaxScore(scores);
    if |Holding(scores, m)| > 1 {
      SeveralShared(scores, m);
    }
    forall i, j | 0 <= i < j < |scores| && scores[i] == scores[j] == m
      ensures |Holding(scores, m)| > 1
    {
      SharedSeveral(scores, m, i, j);
    }
  }

  /** More than one holder: the first two of them share the score. */
  lemma SeveralShared(scores: seq<int>, m: int)
    requires |Holding(scores, m)| > 1
    ensures exists i, j :: 0 <= i < j < |scores| && scores[i] == scores[j] == m
  {
    var w := Holding(scores, m);
    var i, j := w[0] - 1, w[1] - 1;
    assert scores[i] == m && scores[j] == m && i < j;
  }

  /** Two players sharing the score are two different holders. */
  lemma SharedSeveral(scores: seq<int>, m: int, i: nat, j: nat)
    requires 0 <= i < j < |scores| && scores[i] == scores[j] == m
    ensures |Holding(scores, m)| > 1
  {
    TwoMembers(Holding(scores, m), i + 1, j + 1);
  }

  /** A game of several players ends in a tie exactly when two different
      players share the best score. */
  lemma TieIffBestShared(numPlayers: nat, scores: seq<int>)
    requires numPlayers != 1 && |scores| > 0
    ensures GameOutcome(numPlayers, scores) == Tie <==>
              exists i, j :: 0 <= i < j < |scores| && scores[i] == scores[j] == MaxScore(scores)
  {
    SharedIffSeveral(scores);
  }

  /** A sole winner of a game of several players is the player with the
      best score, and everybody else scored strictly less. */
  lemma SoleWinnerIsStrictlyAhead(numPlayers: nat, scores: seq<int>, w: int)
    requires |scores| > 0 && GameOutcome(numPlayers, scores) == Winner(w)
    ensures 0 <= w < |scores| && scores[w] == MaxScore(scores)
    ensures forall k :: 0 <= k < |scores| && k != w ==> scores[k] < scores[w]
  {
    var m := MaxScore(scores);
    assert |Holding(scores, m)| <= 1 && w == IndexOf(scores, m);
    forall k | 0 <= k < |scores| && k != w
      ensures scores[k] < scores[w]
    {
      if scores[k] == m {
        if k < w {
          assert false;
        } else {
          SharedSeveral(scores, m, w, k);
        }
      }
    }
  }
}
