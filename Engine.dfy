/** The game engine inside the `App` component of App.tsx: its React state
    fields become the fields of class `Game`, its handlers and timer
    callbacks become methods. Timers are explicit queues of pending
    callbacks; the environment fires them one at a time (`Tick`,
    `RotationDelayExpired`, `TurnChangeFinished`). */
module Engine {
  import opened Helpers

  type Symbol = string

  datatype Option<T> = None | Some(value: T)

  /** Seconds a player has per turn in a game of several players. */
  const TurnSeconds: nat := 30
  /** The setup screen offers one to four players. */
  const MaxPlayers: nat := 4
  /** Level `l` has `3 + l` symbols, capped by the size of the pool. */
  const BaseItems: nat := 3

  /** The `gameState` values. */
  datatype Phase = Setup | NameEntry | Playing | Won

  /** Mini games have 4 levels, full games 8. */
  datatype GameMode = Mini | Full

  /** `gameConfig`; `pool` is the symbol list of the chosen theme. */
  datatype Config = Config(numPlayers: nat, pool: seq<Symbol>, mode: GameMode)

  /** The `switchTurn` closure that a non-improving move hands to its 500 ms
      timeout, with the values it captured. */
  datatype SwitchCall = SwitchCall(player: nat, players: nat, phase: Phase)

  predicate ValidConfig(c: Config)
  {
    1 <= c.numPlayers <= MaxPlayers && Distinct(c.pool)
  }

  // ---------------------------------------------------------------------
  // Rules
  // ---------------------------------------------------------------------

  /** `Math.min(3 + level, pool.length)`. */
  function LevelSize(level: nat, poolSize: nat): (n: nat)
    ensures n <= poolSize && n <= BaseItems + level
    ensures n == poolSize || n == BaseItems + level
  {
    if BaseItems + level <= poolSize then BaseItems + level else poolSize
  }

  /** `gameMode === 'mini' ? 4 : 8`. */
  function LevelCount(mode: GameMode): (n: nat)
    ensures n >= 1
  {
    match mode
    case Mini => 4
    case Full => 8
  }

  /** Points for a move that takes the correct-count from `before` to
      `after`: 10 per position gained, 5 per position lost. */
  function ScoreDelta(before: int, after: int): (d: int)
    ensures d > 0 <==> after > before
    ensures d < 0 <==> after < before
    ensures after >= before ==> d == 10 * (after - before)
    ensures after <= before ==> d == 5 * (after - before)
  {
    if after > before then (after - before) * 10
    else if after < before then (after - before) * 5
    else 0
  }

  /** Points for completing level `level`. */
  function LevelBonus(level: nat): (b: nat)
    ensures b >= 200
  {
    200 + level * 100
  }

  /** A move followed by the move that undoes it never loses points: the
      player is left `5` points up per position that changed. */
  lemma {:induction false} UndoNetsGain(p: seq<Symbol>, c: seq<Symbol>, i: nat, j: nat)
    requires |p| == |c| && i < |p| && j < |p|
    ensures var q := Swap(p, i, j);
            ScoreDelta(MatchCount(p, c), MatchCount(q, c))
            + ScoreDelta(MatchCount(q, c), MatchCount(Swap(q, i, j), c))
            == 5 * Abs(MatchCount(q, c) - MatchCount(p, c))
  {
    SwapTwice(p, i, j);
  }

  function Abs(x: int): nat { if x < 0 then -x else x }

  /** A swap of two different positions moves the correct-count by at
      most 2, so it earns between -10 and +20 points. */
  lemma SwapScoreBounds(p: seq<Symbol>, c: seq<Symbol>, i: nat, j: nat)
    requires |p| == |c| && i < |p| && j < |p| && i != j
    ensures -10 <= ScoreDelta(MatchCount(p, c), MatchCount(Swap(p, i, j), c)) <= 20
  {
    SwapMatchCount(p, c, i, j);
  }

  /** `(currentPlayer + 1) % numPlayers`: the next player in turn. */
  function NextPlayer(p: nat, n: nat): (q: nat)
    requires n > 0
    ensures q < n
    ensures p < n ==> q == if p + 1 < n then p + 1 else 0
  {
    (p + 1) % n
  }

  /** The player whose turn it is after `k` rotations starting at `p`. */
  function Rotate(p: nat, n: nat, k: nat): (q: nat)
    requires n > 0
    ensures k > 0 || p < n ==> q < n
  {
    if k == 0 then p else NextPlayer(Rotate(p, n, k - 1), n)
  }

  /** Within one round of `n` rotations the turn moves `k` places on,
      wrapping around at most once. */
  lemma {:induction false} RotateOffset(p: nat, n: nat, k: nat)
    requires p < n && k <= n
    ensures Rotate(p, n, k) == if p + k < n then p + k else p + k - n
  {
    if k > 0 {
      RotateOffset(p, n, k - 1);
    }
  }

  /** After `n` rotations the turn is back with the player who had it. */
  lemma RotateFullRound(p: nat, n: nat)
    requires p < n
    ensures Rotate(p, n, n) == p
  {
    RotateOffset(p, n, n);
  }

  /** Every player gets a turn within one round of rotations. */
  lemma RotationVisitsEveryone(p: nat, n: nat, q: nat)
    requires p < n && q < n
    ensures exists k :: 0 <= k < n && Rotate(p, n, k) == q
  {
    var k := if q >= p then q - p else q + n - p;
    RotateOffset(p, n, k);
  }

  /** `Array(players).fill(0)`. */
  function Zeros(n: nat): (s: seq<int>)
    ensures |s| == n && forall k :: 0 <= k < n ==> s[k] == 0
  {
    seq(n, _ => 0)
  }

  // ---------------------------------------------------------------------
  // What the state fields keep between events
  // ---------------------------------------------------------------------

  /** Every player index in `ps` is one of `n` players. */
  predicate AllBelow(ps: seq<nat>, n: nat)
  {
    forall k :: 0 <= k < |ps| ==> ps[k] < n
  }

  /** Every pending `switchTurn` call captured a game of `n` players and
      one of its players. */
  predicate CallsFor(calls: seq<SwitchCall>, n: nat)
  {
    forall k :: 0 <= k < |calls| ==> calls[k].player < n && calls[k].players == n
  }

  /** Every player index held by the state or by a pending callback is
      one of the players, and the turn timer is within its 30 seconds. */
  predicate TurnsInRange(numPlayers: nat, currentPlayer: nat, turnTimeLeft: nat, winner: Option<nat>,
                        turnChangeInfo: Option<nat>, pendingTurnEnds: seq<nat>, pendingSwitches: seq<SwitchCall>)
  {
    && 1 <= numPlayers <= MaxPlayers
    && currentPlayer < numPlayers
    && turnTimeLeft <= TurnSeconds
    && (winner.Some? ==> winner.value < numPlayers)
    && (turnChangeInfo.Some? ==> turnChangeInfo.value < numPlayers && pendingTurnEnds != [])
    && AllBelow(pendingTurnEnds, numPlayers)
    && CallsFor(pendingSwitches, numPlayers)
  }

  /** The player's order is a permutation of the secret order, whose
      symbols are distinct, `correctCount` is its correct-count and the
      selection is a position of the board. */
  predicate OrderConsistent(playerOrder: seq<Symbol>, correctOrder: seq<Symbol>, correctCount: nat,
                           selectedItemIndex: Option<nat>)
  {
    && |playerOrder| == |correctOrder|
    && multiset(playerOrder) == multiset(correctOrder)
    && Distinct(correctOrder)
    && correctCount == MatchCount(playerOrder, correctOrder)
    && (selectedItemIndex.Some? ==> selectedItemIndex.value < |playerOrder|)
  }

  /** Levels stay below `maxLevels`, the game is over only on the win
      screen of the last level, and while a level is shown there is one
      score per player and the secret order has the level's size. */
  predicate PhaseConsistent(level: nat, maxLevels: nat, isGameOver: bool, gameState: Phase, winner: Option<nat>,
                            playerScores: seq<int>, numPlayers: nat, correctOrder: seq<Symbol>,
                            gameTheme: seq<Symbol>, gameConfig: Option<Config>)
  {
    && level < maxLevels
    && Distinct(gameTheme)
    && (gameConfig.Some? ==> ValidConfig(gameConfig.value))
    && (isGameOver ==> gameState == Won)
    && (gameState == Won ==> winner.Some? && (isGameOver <==> level + 1 >= maxLevels))
    && (gameState == Playing || gameState == Won ==>
          |playerScores| == numPlayers && |correctOrder| == LevelSize(level, |gameTheme|))
  }

  // ---------------------------------------------------------------------
  // Level generation (the first half of startNewLevel)
  // ---------------------------------------------------------------------

  /** Draws the secret order of level `level` as a prefix of a shuffle of
      `pool` and a deranged starting order from it, then counts the
      correct positions. `found` is false when the derangement attempts
      ran out. */
  method GenerateLevel(pool: seq<Symbol>, level: nat, poolDraws: seq<nat>, attempts: seq<seq<nat>>)
    returns (found: bool, correct: seq<Symbol>, initial: seq<Symbol>, count: nat)
    ensures correct == FisherYates(pool, poolDraws)[..LevelSize(level, |pool|)]
    ensures |correct| == LevelSize(level, |pool|)
    ensures found ==> |initial| == |correct| && multiset(initial) == multiset(correct)
    ensures found ==> count == MatchCount(initial, correct)
    ensures found && |correct| <= 1 ==> initial == correct
    ensures found && |correct| > 1 ==> IsDerangement(initial, correct) && count == 0
    ensures found && |correct| > 1 ==>
              exists k :: 0 <= k < |attempts| && initial == FisherYates(correct, attempts[k])
                          && forall m :: 0 <= m < k ==> HasFixedPoint(correct, attempts[m])
    ensures found && Distinct(pool) ==> Distinct(correct) && Distinct(initial)
    ensures !found ==> |correct| > 1 && forall k :: 0 <= k < |attempts| ==> HasFixedPoint(correct, attempts[k])
  {
    var numItems := LevelSize(level, |pool|);
    var themeItems := Shuffle(pool, poolDraws);
    correct := themeItems[..numItems];
    var tries;
    found, tries, initial := GenerateDerangement(correct, attempts);
    if found {
      count := GetCorrectPositions(initial, correct);
      if |correct| > 1 {
        MatchCountZeroIffDerangement(initial, correct);
        assert initial == FisherYates(correct, attempts[tries - 1]);
      }
      if Distinct(pool) {
        DistinctPermutation(pool, themeItems);
        DistinctPrefix(themeItems, numItems);
        DistinctPermutation(correct, initial);
      }
    } else {
      count := 0;
    }
  }

  // ---------------------------------------------------------------------
  // The App component's state
  // ---------------------------------------------------------------------

  class Game {
    var gameState: Phase
    var gameConfig: Option<Config>
    var numPlayers: nat
    var playerNames: seq<string>
    var level: nat
    var maxLevels: nat
    var isGameOver: bool
    var correctOrder: seq<Symbol>
    var playerOrder: seq<Symbol>
    var playerScores: seq<int>
    var correctCount: nat
    var selectedItemIndex: Option<nat>
    var winner: Option<nat>
    var currentPlayer: nat
    /** The symbol pool of the theme being played (`THEMES[gameTheme]`). */
    var gameTheme: seq<Symbol>
    var turnTimeLeft: nat
    var isBoardLocked: bool
    var turnChangeInfo: Option<nat>
    /** `switchTurn` closures waiting on their 500 ms timeout, oldest first. */
    var pendingSwitches: seq<SwitchCall>
    /** Next players of turn changes waiting on their 2.5 s timeout, oldest first. */
    var pendingTurnEnds: seq<nat>

    /** What holds of the state between any two events, split by the
        fields each part reads. */
    ghost predicate Valid()
      reads this
    {
      OrderInvariant() && TurnInvariant() && PhaseInvariant()
    }

    ghost predicate OrderInvariant()
      reads this`playerOrder, this`correctOrder, this`correctCount, this`selectedItemIndex
    {
      OrderConsistent(playerOrder, correctOrder, correctCount, selectedItemIndex)
    }

    ghost predicate TurnInvariant()
      reads this`numPlayers, this`currentPlayer, this`winner, this`turnChangeInfo,
            this`pendingTurnEnds, this`pendingSwitches, this`turnTimeLeft
    {
      TurnsInRange(numPlayers, currentPlayer, turnTimeLeft, winner, turnChangeInfo, pendingTurnEnds, pendingSwitches)
    }

    ghost predicate PhaseInvariant()
      reads this`level, this`maxLevels, this`isGameOver, this`gameState, this`winner,
            this`playerScores, this`numPlayers, this`correctOrder, this`gameTheme, this`gameConfig
    {
      PhaseConsistent(level, maxLevels, isGameOver, gameState, winner, playerScores, numPlayers,
                      correctOrder, gameTheme, gameConfig)
    }

    /** The initial values of the `useState` hooks. */
    constructor ()
      ensures Valid()
      ensures gameState == Setup && gameConfig == None && numPlayers == 1 && playerNames == []
      ensures level == 0 && maxLevels == 5 && !isGameOver
      ensures correctOrder == [] && playerOrder == [] && playerScores == [] && correctCount == 0
      ensures selectedItemIndex == None && winner == None && currentPlayer == 0
      ensures turnTimeLeft == TurnSeconds && !isBoardLocked && turnChangeInfo == None
      ensures pendingSwitches == [] && pendingTurnEnds == []
    {
      gameState, gameConfig, numPlayers, playerNames := Setup, None, 1, [];
      level, maxLevels, isGameOver := 0, 5, false;
      correctOrder, playerOrder, playerScores, correctCount := [], [], [], 0;
      selectedItemIndex, winner, currentPlayer := None, None, 0;
      gameTheme := [];
      turnTimeLeft, isBoardLocked, turnChangeInfo := TurnSeconds, false, None;
      pendingSwitches, pendingTurnEnds := [], [];
    }

    // -------------------------------------------------------------------
    // Level start
    // -------------------------------------------------------------------

    /** What `startNewLevel(newLevel, players, pool, startingPlayer)` leaves
        behind when its derangement loop finishes. */
    twostate predicate LevelStarted(newLevel: nat, players: nat, pool: seq<Symbol>, startingPlayer: nat,
                                    poolDraws: seq<nat>, attempts: seq<seq<nat>>)
      reads this`correctOrder, this`playerOrder, this`correctCount, this`playerScores,
            this`level, this`gameState, this`selectedItemIndex, this`winner,
            this`currentPlayer, this`turnTimeLeft
    {
      && correctOrder == FisherYates(pool, poolDraws)[..LevelSize(newLevel, |pool|)]
      && |playerOrder| == |correctOrder| && multiset(playerOrder) == multiset(correctOrder)
      && (|correctOrder| <= 1 ==> playerOrder == correctOrder)
      && (|correctOrder| > 1 ==>
            IsDerangement(playerOrder, correctOrder) && correctCount == 0
            && exists k :: 0 <= k < |attempts| && playerOrder == FisherYates(correctOrder, attempts[k])
                           && forall m :: 0 <= m < k ==> HasFixedPoint(correctOrder, attempts[m]))
      && correctCount == MatchCount(playerOrder, correctOrder)
      && (Distinct(pool) ==> Distinct(correctOrder))
      && playerScores == (if newLevel == 0 then Zeros(players) else old(playerScores))
      && level == newLevel && gameState == Playing
      && selectedItemIndex == None && winner == None
      && currentPlayer == startingPlayer && turnTimeLeft == TurnSeconds
    }

    /** `startNewLevel`. When the derangement attempts run out (`started`
        false) nothing is committed, as the source commits nothing while it
        is still looping. */
    method StartNewLevel(newLevel: nat, players: nat, pool: seq<Symbol>, startingPlayer: nat,
                         poolDraws: seq<nat>, attempts: seq<seq<nat>>)
      returns (started: bool)
      modifies this`correctOrder, this`playerOrder, this`correctCount, this`playerScores,
               this`level, this`gameState, this`selectedItemIndex, this`winner,
               this`currentPlayer, this`turnTimeLeft
      ensures started ==> LevelStarted(newLevel, players, pool, startingPlayer, poolDraws, attempts)
      ensures !started ==> unchanged(this)
      ensures !started ==>
                var correct := FisherYates(pool, poolDraws)[..LevelSize(newLevel, |pool|)];
                |correct| > 1 && forall k :: 0 <= k < |attempts| ==> HasFixedPoint(correct, attempts[k])
    {
      var correct, initial, count;
      started, correct, initial, count := GenerateLevel(pool, newLevel, poolDraws, attempts);
      if !started {
        return;
      }
      correctOrder := correct;
      playerOrder := initial;
      correctCount := count;
      if newLevel == 0 {
        playerScores := Zeros(players);
      }
      level := newLevel;
      gameState := Playing;
      selectedItemIndex := None;
      winner := None;
      currentPlayer := startingPlayer;
      turnTimeLeft := TurnSeconds;
    }

    /** `handleSetupComplete`: records the chosen configuration. */
    method HandleSetupComplete(players: nat, pool: seq<Symbol>, mode: GameMode)
      requires Valid() && gameState == Setup
      requires 1 <= players <= MaxPlayers && Distinct(pool)
      modifies this`gameConfig, this`gameState
      ensures Valid()
      ensures gameConfig == Some(Config(players, pool, mode)) && gameState == NameEntry
    {
      gameConfig := Some(Config(players, pool, mode));
      gameState := NameEntry;
    }

    /** The Back button of the name-entry screen: back to setup, keeping
        the configuration. */
    method HandleBack()
      requires Valid() && gameState == NameEntry
      modifies this`gameState
      ensures Valid() && gameState == Setup
    {
      gameState := Setup;
    }

    /** `startGame`: a no-op without a configuration; otherwise adopts it
        and starts level 0 with player 0. The callbacks of an earlier game
        have all fired by then (see README). */
    method StartGame(names: seq<string>, poolDraws: seq<nat>, attempts: seq<seq<nat>>)
      returns (started: bool)
      requires Valid()
      requires pendingSwitches == [] && pendingTurnEnds == []
      modifies this`correctOrder, this`playerOrder, this`correctCount, this`playerScores,
               this`level, this`gameState, this`selectedItemIndex, this`winner,
               this`currentPlayer, this`turnTimeLeft,
               this`numPlayers, this`playerNames, this`gameTheme, this`maxLevels, this`isGameOver
      ensures Valid()
      ensures old(gameConfig) == None ==> !started
      ensures !started ==> unchanged(this)
      ensures started ==>
                var cfg := old(gameConfig).value;
                && old(gameConfig).Some?
                && LevelStarted(0, cfg.numPlayers, cfg.pool, 0, poolDraws, attempts)
                && numPlayers == cfg.numPlayers && playerNames == names && gameTheme == cfg.pool
                && maxLevels == LevelCount(cfg.mode) && !isGameOver
    {
      if gameConfig == None {
        return false;
      }
      var cfg := gameConfig.value;
      started := StartNewLevel(0, cfg.numPlayers, cfg.pool, 0, poolDraws, attempts);
      if started {
        AdoptConfig(cfg, names);
      }
    }

    /** The settings `startGame` copies out of the configuration, once
        level 0 of that configuration has been set up. */
    method AdoptConfig(cfg: Config, names: seq<string>)
      requires ValidConfig(cfg) && OrderInvariant()
      requires gameState == Playing && level == 0 && winner == None && currentPlayer == 0
      requires |playerScores| == cfg.numPlayers && |correctOrder| == LevelSize(0, |cfg.pool|)
      requires turnTimeLeft <= TurnSeconds && turnChangeInfo == None
      requires pendingSwitches == [] && pendingTurnEnds == []
      requires gameConfig.Some? ==> ValidConfig(gameConfig.value)
      modifies this`numPlayers, this`playerNames, this`gameTheme, this`maxLevels, this`isGameOver
      ensures Valid()
      ensures numPlayers == cfg.numPlayers && playerNames == names && gameTheme == cfg.pool
      ensures maxLevels == LevelCount(cfg.mode) && !isGameOver
    {
      numPlayers := cfg.numPlayers;
      playerNames := names;
      gameTheme := cfg.pool;
      maxLevels := LevelCount(cfg.mode);
      isGameOver := false;
    }

    /** `handleNextLevel`, offered by the win screen of a game that is not
        over: the next level, started by the winner of this one. */
    method HandleNextLevel(poolDraws: seq<nat>, attempts: seq<seq<nat>>) returns (started: bool)
      requires Valid()
      requires gameState == Won && !isGameOver && winner.Some?
      modifies this`correctOrder, this`playerOrder, this`correctCount, this`playerScores,
               this`level, this`gameState, this`selectedItemIndex, this`winner,
               this`currentPlayer, this`turnTimeLeft
      ensures Valid()
      ensures !started ==> unchanged(this)
      ensures started ==>
                LevelStarted(old(level) + 1, numPlayers, gameTheme, old(winner).value, poolDraws, attempts)
                && level == old(level) + 1 && currentPlayer == old(winner).value
                && playerScores == old(playerScores)
    {
      var startingPlayer := match winner case Some(w) => w case None => 0;
      started := StartNewLevel(level + 1, numPlayers, gameTheme, startingPlayer, poolDraws, attempts);
    }

    /** `handlePlayAgain`: back to the setup screen with no scores. */
    method HandlePlayAgain()
      requires Valid()
      modifies this`gameState, this`isGameOver, this`level, this`playerScores,
               this`playerNames, this`gameConfig
      ensures Valid()
      ensures gameState == Setup && !isGameOver && level == 0 && playerScores == []
      ensures playerNames == [] && gameConfig == None
    {
      LeaveGame();
      playerNames := [];
      gameConfig := None;
    }

    /** The first half of `handlePlayAgain`: the setup screen, level 0 and
        no scores. */
    method LeaveGame()
      requires Valid()
      modifies this`gameState, this`isGameOver, this`level, this`playerScores
      ensures Valid()
      ensures gameState == Setup && !isGameOver && level == 0 && playerScores == []
    {
      gameState := Setup;
      isGameOver := false;
      level := 0;
      playerScores := [];
    }

    // -------------------------------------------------------------------
    // Moves
    // -------------------------------------------------------------------

    /** `handleWin`: the winner takes the level bonus; the game is over
        after the last level. */
    method HandleWin(winningPlayer: nat)
      requires Valid() && (gameState == Playing || gameState == Won) && winningPlayer < numPlayers
      modifies this`winner, this`playerScores, this`isGameOver, this`gameState
      ensures Valid()
      ensures winner == Some(winningPlayer)
      ensures playerScores == old(playerScores)[winningPlayer := old(playerScores)[winningPlayer] + LevelBonus(level)]
      ensures isGameOver == (old(isGameOver) || level + 1 >= maxLevels)
      ensures gameState == Won
    {
      winner := Some(winningPlayer);
      var bonusPoints := LevelBonus(level);
      playerScores := playerScores[winningPlayer := playerScores[winningPlayer] + bonusPoints];
      if level + 1 >= maxLevels {
        isGameOver := true;
      }
      gameState := Won;
    }

    /** The effect of a move to `newOrder` by the current player: the
        correct-count is recomputed, only the mover's score changes, a
        solved board wins the level, and otherwise a move that did not
        improve the count costs the turn in a game of several players. */
    twostate predicate MoveApplied(newOrder: seq<Symbol>)
      reads this`playerOrder, this`correctCount, this`correctOrder, this`currentPlayer,
            this`playerScores, this`level, this`maxLevels, this`winner, this`gameState,
            this`isGameOver, this`isBoardLocked, this`pendingSwitches, this`turnTimeLeft,
            this`numPlayers
      requires |newOrder| == |correctOrder|
    {
      var before := old(correctCount);
      var after := MatchCount(newOrder, correctOrder);
      var mover := old(currentPlayer);
      var solved := after == |correctOrder| && |correctOrder| > 0;
      var bonus := if solved then LevelBonus(level) else 0;
      && playerOrder == newOrder && correctCount == after
      && mover < |old(playerScores)|
      && playerScores == old(playerScores)[mover := old(playerScores)[mover] + ScoreDelta(before, after) + bonus]
      && (solved ==>
            winner == Some(mover) && gameState == Won
            && isGameOver == (old(isGameOver) || level + 1 >= maxLevels)
            && isBoardLocked == old(isBoardLocked) && pendingSwitches == old(pendingSwitches)
            && turnTimeLeft == old(turnTimeLeft))
      && (!solved ==>
            winner == old(winner) && gameState == old(gameState) && isGameOver == old(isGameOver))
      && (!solved && after <= before && numPlayers > 1 ==>
            isBoardLocked && turnTimeLeft == old(turnTimeLeft)
            && pendingSwitches == old(pendingSwitches) + [SwitchCall(mover, numPlayers, old(gameState))])
      && (!solved && !(after <= before && numPlayers > 1) ==>
            turnTimeLeft == TurnSeconds && isBoardLocked == old(isBoardLocked)
            && pendingSwitches == old(pendingSwitches))
    }

    /** No field that a move touches has changed. */
    twostate predicate BoardUnchanged()
      reads this`playerOrder, this`correctCount, this`playerScores, this`winner,
            this`gameState, this`isGameOver, this`isBoardLocked, this`pendingSwitches,
            this`turnTimeLeft
    {
      && playerOrder == old(playerOrder) && correctCount == old(correctCount)
      && playerScores == old(playerScores) && winner == old(winner)
      && gameState == old(gameState) && isGameOver == old(isGameOver)
      && isBoardLocked == old(isBoardLocked) && pendingSwitches == old(pendingSwitches)
      && turnTimeLeft == old(turnTimeLeft)
    }

    /** The first half of `processMove`: the new order and its
        correct-count are stored and the mover's score changes by the
        points the move earned. */
    method ScoreMove(newOrder: seq<Symbol>) returns (before: nat, after: nat)
      requires OrderInvariant() && currentPlayer < |playerScores|
      requires |newOrder| == |correctOrder| && multiset(newOrder) == multiset(correctOrder)
      requires selectedItemIndex.Some? ==> selectedItemIndex.value < |newOrder|
      modifies this`playerOrder, this`correctCount, this`playerScores
      ensures OrderInvariant()
      ensures before == old(correctCount) && after == MatchCount(newOrder, correctOrder)
      ensures playerOrder == newOrder && correctCount == after
      ensures playerScores == old(playerScores)[currentPlayer := old(playerScores)[currentPlayer] + ScoreDelta(before, after)]
    {
      before := correctCount;
      after := GetCorrectPositions(newOrder, correctOrder);
      var scoreChange := ScoreDelta(before, after);
      if scoreChange != 0 {
        playerScores := playerScores[currentPlayer := playerScores[currentPlayer] + scoreChange];
      }
      playerOrder := newOrder;
      correctCount := after;
    }

    /** The second half of `processMove` for a board that is not solved:
        in a game of several players a move that did not improve the
        correct-count locks the board and schedules the turn switch;
        any other move restarts the turn timer. */
    method EndMove(before: nat, after: nat)
      requires TurnInvariant()
      modifies this`isBoardLocked, this`pendingSwitches, this`turnTimeLeft
      ensures TurnInvariant()
      ensures after <= before && numPlayers > 1 ==>
                isBoardLocked && turnTimeLeft == old(turnTimeLeft)
                && pendingSwitches == old(pendingSwitches) + [SwitchCall(currentPlayer, numPlayers, gameState)]
      ensures !(after <= before && numPlayers > 1) ==>
                turnTimeLeft == TurnSeconds && isBoardLocked == old(isBoardLocked)
                && pendingSwitches == old(pendingSwitches)
    {
      if after <= before && numPlayers > 1 {
        isBoardLocked := true;
        pendingSwitches := pendingSwitches + [SwitchCall(currentPlayer, numPlayers, gameState)];
      } else {
        turnTimeLeft := TurnSeconds;
      }
    }

    /** `processMove`. */
    method ProcessMove(newOrder: seq<Symbol>)
      requires Valid() && gameState == Playing
      requires |newOrder| == |correctOrder| && multiset(newOrder) == multiset(correctOrder)
      requires selectedItemIndex.Some? ==> selectedItemIndex.value < |newOrder|
      modifies this`playerOrder, this`correctCount, this`playerScores, this`winner,
               this`isGameOver, this`gameState, this`isBoardLocked, this`pendingSwitches,
               this`turnTimeLeft
      ensures Valid()
      ensures MoveApplied(newOrder)
    {
      var before, after := ScoreMove(newOrder);
      FinishMove(before, after);
    }

    /** The second half of `processMove`, once the new order is stored:
        a solved board wins the level, any other board ends the move. */
    method FinishMove(before: nat, after: nat)
      requires Valid() && gameState == Playing && after == correctCount
      modifies this`playerScores, this`winner, this`isGameOver, this`gameState,
               this`isBoardLocked, this`pendingSwitches, this`turnTimeLeft
      ensures Valid()
      ensures var solved := after == |correctOrder| && |correctOrder| > 0;
              var bonus := if solved then LevelBonus(level) else 0;
              && playerScores == old(playerScores)[currentPlayer := old(playerScores)[currentPlayer] + bonus]
              && (solved ==>
                    winner == Some(currentPlayer) && gameState == Won
                    && isGameOver == (old(isGameOver) || level + 1 >= maxLevels)
                    && isBoardLocked == old(isBoardLocked) && pendingSwitches == old(pendingSwitches)
                    && turnTimeLeft == old(turnTimeLeft))
              && (!solved ==>
                    winner == old(winner) && gameState == old(gameState) && isGameOver == old(isGameOver))
              && (!solved && after <= before && numPlayers > 1 ==>
                    isBoardLocked && turnTimeLeft == old(turnTimeLeft)
                    && pendingSwitches == old(pendingSwitches) + [SwitchCall(currentPlayer, numPlayers, old(gameState))])
              && (!solved && !(after <= before && numPlayers > 1) ==>
                    turnTimeLeft == TurnSeconds && isBoardLocked == old(isBoardLocked)
                    && pendingSwitches == old(pendingSwitches))
    {
      if after == |correctOrder| && |correctOrder| > 0 {
        HandleWin(currentPlayer);
        return;
      }
      EndMove(before, after);
    }

    /** `handleItemClick(index)`: the first click selects a symbol, the second
        swaps it with the clicked one (unless it is the same) and clears the
        selection. Ignored while the level is won or the board is locked. */
    method HandleItemClick(index: nat)
      requires Valid() && (gameState == Playing || gameState == Won)
      requires index < |playerOrder|
      modifies this`selectedItemIndex, this`playerOrder, this`correctCount, this`playerScores,
               this`winner, this`isGameOver, this`gameState, this`isBoardLocked,
               this`pendingSwitches, this`turnTimeLeft
      ensures Valid()
      ensures old(gameState) == Won || old(isBoardLocked) ==> unchanged(this)
      ensures old(gameState) != Won && !old(isBoardLocked) && old(selectedItemIndex) == None ==>
                selectedItemIndex == Some(index) && BoardUnchanged()
      ensures old(gameState) != Won && !old(isBoardLocked) && old(selectedItemIndex) == Some(index) ==>
                selectedItemIndex == None && BoardUnchanged()
      ensures old(gameState) != Won && !old(isBoardLocked)
              && old(selectedItemIndex).Some? && old(selectedItemIndex).value != index ==>
                selectedItemIndex == None
                && MoveApplied(Swap(old(playerOrder), old(selectedItemIndex).value, index))
    {
      if gameState == Won || isBoardLocked {
        return;
      }
      if selectedItemIndex == None {
        selectedItemIndex := Some(index);
      } else {
        SecondClick(index);
      }
    }

    /** The second click of `handleItemClick`: swaps the selected symbol
        with the clicked one unless it is the same, then clears the
        selection. */
    method SecondClick(index: nat)
      requires Valid() && gameState == Playing && selectedItemIndex.Some?
      requires index < |playerOrder|
      modifies this`selectedItemIndex, this`playerOrder, this`correctCount, this`playerScores,
               this`winner, this`isGameOver, this`gameState, this`isBoardLocked,
               this`pendingSwitches, this`turnTimeLeft
      ensures Valid() && selectedItemIndex == None
      ensures old(selectedItemIndex) == Some(index) ==> BoardUnchanged()
      ensures old(selectedItemIndex) != Some(index) ==>
                MoveApplied(Swap(old(playerOrder), old(selectedItemIndex).value, index))
    {
      var selected := selectedItemIndex.value;
      if selected != index {
        var newOrder := Swap(playerOrder, selected, index);
        SwapExchanges(playerOrder, selected, index);
        ProcessMove(newOrder);
      }
      ClearSelection();
    }

    /** `setSelectedItemIndex(null)`. */
    method ClearSelection()
      requires Valid()
      modifies this`selectedItemIndex
      ensures Valid() && selectedItemIndex == None
    {
      selectedItemIndex := None;
    }

    /** `handleDrop(index)` for a drag that started on `dragged`: swaps the
        two symbols unless nothing is dragged, the drop lands where the
        drag started, the level is won or the board is locked. */
    method HandleDrop(dragged: Option<nat>, index: nat)
      requires Valid() && (gameState == Playing || gameState == Won)
      requires index < |playerOrder| && (dragged.Some? ==> dragged.value < |playerOrder|)
      modifies this`playerOrder, this`correctCount, this`playerScores, this`winner,
               this`isGameOver, this`gameState, this`isBoardLocked, this`pendingSwitches,
               this`turnTimeLeft
      ensures Valid()
      ensures dragged == None || dragged == Some(index) || old(gameState) == Won || old(isBoardLocked) ==>
                unchanged(this)
      ensures dragged.Some? && dragged.value != index && old(gameState) != Won && !old(isBoardLocked) ==>
                MoveApplied(Swap(old(playerOrder), dragged.value, index))
    {
      if dragged == None || dragged == Some(index) || gameState == Won || isBoardLocked {
        return;
      }
      var newOrder := Swap(playerOrder, dragged.value, index);
      SwapExchanges(playerOrder, dragged.value, index);
      ProcessMove(newOrder);
    }

    // -------------------------------------------------------------------
    // Turns and the timer
    // -------------------------------------------------------------------

    /** `switchTurn`, run with the values its closure captured: unless the
        level was won or there is a single player, announces the next
        player and schedules the end of the announcement. */
    method SwitchTurn(call: SwitchCall)
      requires Valid()
      requires call.player < numPlayers && call.players == numPlayers
      modifies this`turnChangeInfo, this`pendingTurnEnds
      ensures Valid()
      ensures call.phase == Won || call.players <= 1 ==> unchanged(this)
      ensures call.phase != Won && call.players > 1 ==>
                var next := NextPlayer(call.player, call.players);
                turnChangeInfo == Some(next) && pendingTurnEnds == old(pendingTurnEnds) + [next]
    {
      if call.phase == Won || call.players <= 1 {
        return;
      }
      var nextPlayer := NextPlayer(call.player, call.players);
      turnChangeInfo := Some(nextPlayer);
      pendingTurnEnds := pendingTurnEnds + [nextPlayer];
    }

    /** One second of the turn timer. The interval runs only while a level
        of a game of several players is being played and time is left; when
        the time reaches 0 the board locks and the turn switches. */
    method Tick()
      requires Valid()
      modifies this`turnTimeLeft, this`isBoardLocked, this`turnChangeInfo, this`pendingTurnEnds
      ensures Valid()
      ensures old(gameState) != Playing || numPlayers <= 1 || old(turnTimeLeft) == 0 ==> unchanged(this)
      ensures old(gameState) == Playing && numPlayers > 1 && old(turnTimeLeft) > 1 ==>
                turnTimeLeft == old(turnTimeLeft) - 1
                && isBoardLocked == old(isBoardLocked) && turnChangeInfo == old(turnChangeInfo)
                && pendingTurnEnds == old(pendingTurnEnds)
      ensures old(gameState) == Playing && numPlayers > 1 && old(turnTimeLeft) == 1 ==>
                turnTimeLeft == 0 && isBoardLocked
                && turnChangeInfo == Some(NextPlayer(currentPlayer, numPlayers))
                && pendingTurnEnds == old(pendingTurnEnds) + [NextPlayer(currentPlayer, numPlayers)]
    {
      if gameState != Playing || numPlayers <= 1 || turnTimeLeft == 0 {
        return;
      }
      turnTimeLeft := turnTimeLeft - 1;  // Math.max(0, t - 1) with t > 0
      if turnTimeLeft == 0 {
        isBoardLocked := true;
        SwitchTurn(SwitchCall(currentPlayer, numPlayers, gameState));
      }
    }

    /** The 500 ms timeout of the oldest non-improving move fires its
        `switchTurn` closure. */
    method RotationDelayExpired()
      requires Valid() && pendingSwitches != []
      modifies this`pendingSwitches, this`turnChangeInfo, this`pendingTurnEnds
      ensures Valid()
      ensures pendingSwitches == old(pendingSwitches)[1..]
      ensures var call := old(pendingSwitches)[0];
              if call.phase == Won || call.players <= 1 then
                turnChangeInfo == old(turnChangeInfo) && pendingTurnEnds == old(pendingTurnEnds)
              else
                var next := NextPlayer(call.player, call.players);
                turnChangeInfo == Some(next) && pendingTurnEnds == old(pendingTurnEnds) + [next]
    {
      var call := pendingSwitches[0];
      pendingSwitches := pendingSwitches[1..];
      SwitchTurn(call);
    }

    /** The 2.5 s timeout of the oldest turn announcement fires: the
        announced player takes the turn with a full timer and an unlocked
        board. */
    method TurnChangeFinished()
      requires Valid() && pendingTurnEnds != []
      modifies this`pendingTurnEnds, this`turnChangeInfo, this`currentPlayer,
               this`selectedItemIndex, this`turnTimeLeft, this`isBoardLocked
      ensures Valid()
      ensures pendingTurnEnds == old(pendingTurnEnds)[1..]
      ensures turnChangeInfo == None && currentPlayer == old(pendingTurnEnds)[0]
      ensures selectedItemIndex == None && turnTimeLeft == TurnSeconds && !isBoardLocked
    {
      var nextPlayer := pendingTurnEnds[0];
      pendingTurnEnds := pendingTurnEnds[1..];
      turnChangeInfo := None;
      TakeTurn(nextPlayer);
    }

    /** The announced player takes the turn: no selection, a full timer and
        an unlocked board. */
    method TakeTurn(nextPlayer: nat)
      requires Valid() && nextPlayer < numPlayers
      modifies this`currentPlayer, this`selectedItemIndex, this`turnTimeLeft, this`isBoardLocked
      ensures Valid()
      ensures currentPlayer == nextPlayer && selectedItemIndex == None
      ensures turnTimeLeft == TurnSeconds && !isBoardLocked
    {
      currentPlayer := nextPlayer;
      selectedItemIndex := None;
      turnTimeLeft := TurnSeconds;
      isBoardLocked := false;
    }
  }
}
