# SEQO game engine in Dafny

SEQO is a browser puzzle game. Each level has a secret order of emoji
symbols drawn from a theme. The player starts from a scrambled copy of it
in which no symbol is in its place. They swap two symbols at a time until
the order is right.

Scoring and turns work like this:

- A move earns 10 points per position gained and loses 5 per position lost.
- Solving a level earns a bonus of `200 + 100 * level`.
- In a game of two to four players, a move that does not improve the
  correct-count costs the turn. So does letting the 30-second turn timer
  run out.
- After the last level, the game-over screen announces one of three
  results: completion (for one player), a tie, or a sole winner.

This project models the engine of that game, all of it in `App.tsx`:

- **`Helpers`** (`Helpers.dfy`) covers `shuffle`, `generateDerangement` and
  `getCorrectPositions`. `shuffle` is an in-place Fisher–Yates loop over an
  array. It is proved equal to the functional specification `FisherYates`,
  and `FisherYates` is proved to be a permutation of its input.
  `Math.random` is an oracle: a sequence of natural numbers whose k-th
  entry, taken modulo `i + 1`, is the index the k-th call yields.
- **`Engine`** (`Engine.dfy`) has the rules (points, bonus, level sizes,
  rotation of turns) and the class `Game`. The fields of `Game` are the
  React state of the `App` component. Its methods are the handlers and
  timer callbacks.
  - `Game.Valid()` is the invariant that every handler keeps:
    - the player's order is a permutation of the secret order;
    - the correct-count is current;
    - every player index held by the state or by a waiting callback names
      one of the players;
    - the game is over only on the win screen of the last level.
  - `setTimeout` callbacks are explicit queues. The 500 ms `switchTurn`
    closures are kept together with the values they captured. The 2.5 s
    turn completions are kept with their next player. The environment
    fires the oldest entry of each queue (`RotationDelayExpired`,
    `TurnChangeFinished`) and the one-second interval (`Tick`).
- **`GameOver`** (`GameOver.dfy`) is the game-over screen's aggregation:
  `Math.max`, `indexOf`, the list of players holding the best score, and
  the outcome that `getWinnerText` announces.
- **`PlayerNames`** (`PlayerNames.dfy`) is the name-entry screen's
  `finalNames`. It uses JavaScript's `trim` over the ECMAScript white space
  and line terminators (sections 12.2 and 12.3 of ECMA-262). A blank name
  becomes `Player <n>`.

## Model

| member | source | states |
|---|---|---|
| Helpers.Swap | App.tsx:11 | the destructuring swap (also App.tsx:780 and App.tsx:812) keeps the length of the sequence |
| Helpers.SwapExchanges | App.tsx:11 | the destructuring swap exchanges exactly the two positions, leaves every other one alone and keeps the multiset of symbols |
| Helpers.SwapTwice | App.tsx:11 | swapping the same two positions twice restores the sequence |
| Helpers.DistinctPermutation | App.tsx:640-642 | a permutation of a duplicate-free theme is duplicate-free, so every secret order has distinct symbols |
| Helpers.DistinctPrefix | App.tsx:642 | the `slice(0, numItems)` prefix of a duplicate-free shuffle is duplicate-free |
| Helpers.MatchesBelow | App.tsx:38-44 | the count of agreeing positions below `n` is at most `n` |
| Helpers.MatchCount | App.tsx:38-44 | the correct-count of two orders of equal length is at most their length |
| Helpers.GetCorrectPositions | App.tsx:36-45 | 0 when the lengths differ; otherwise the loop's count equals `MatchCount`, which is at most the length |
| Helpers.MatchCountIsCardinality | App.tsx:39-43 | the correct-count is the size of the set of positions where the player's order matches the secret order |
| Helpers.MatchCountFullIffEqual | App.tsx:760 | the count equals the length exactly when the two orders are equal, i.e. the level is solved |
| Helpers.MatchCountZeroIffDerangement | App.tsx:24-29 | the count is 0 exactly when no symbol is in its place |
| Helpers.MatchCountUpdate | App.tsx:39-43 | changing one position changes the count by what that position contributes before and after |
| Helpers.SwapMatchCount | App.tsx:778-780 | a swap of two positions changes the count only through those two positions, so by at most 2 |
| Helpers.Pick | App.tsx:10 | `Math.floor(Math.random() * (i + 1))` lies in `[0, i]` |
| Helpers.Passes | App.tsx:8-12 | the shuffle passes from position `i` down to 1, each swapping with the oracle's index in `[0, i]`, keep the length |
| Helpers.FisherYates | App.tsx:7-14 | the order `shuffle` returns for an oracle has the input's length (its permutation property is `FisherYatesPermutes`) |
| Helpers.PassesPermute | App.tsx:9-12 | any number of shuffle passes permutes the sequence |
| Helpers.FisherYatesPermutes | App.tsx:7-14 | whatever the random oracle answers, the shuffle is a permutation of its input |
| Helpers.Shuffle | App.tsx:7-14 | the in-place loop returns exactly `FisherYates(items, draws)`, a permutation of the input |
| Helpers.PassStep | App.tsx:9-12 | one in-place swap of the loop leaves the remaining passes with the same final order |
| Helpers.IsDerangement | App.tsx:24-29 | no position holds the same symbol in both orders; a derangement of a non-empty order differs from it |
| Helpers.GenerateDerangement | App.tsx:16-33 | inputs of length at most 1 come back unchanged; otherwise the result is the first attempt's shuffle that is a derangement, every earlier attempt left a symbol in place, and the result is a permutation; if the attempts run out, all of them had a fixed point |
| Engine.LevelSize | App.tsx:640 | `Math.min(3 + level, pool length)` is one of the two and bounded by both |
| Engine.LevelCount | App.tsx:674 | defined as the source's `gameMode === 'mini' ? 4 : 8`; its ensures states only that a game has at least one level |
| Engine.ScoreDelta | App.tsx:740-746 | points are positive exactly when the count rises and negative exactly when it falls, 10 per position gained and 5 per position lost |
| Engine.LevelBonus | App.tsx:682 | the level bonus is at least 200 |
| Engine.UndoNetsGain | App.tsx:740-746 | a move followed by the swap that undoes it leaves the player 5 points up per position that changed |
| Engine.SwapScoreBounds | App.tsx:736-746 | a swap of two different symbols earns between -10 and +20 points |
| Engine.NextPlayer | App.tsx:704 | `(currentPlayer + 1) % numPlayers` is the next player, wrapping from the last to the first |
| Engine.Rotate | App.tsx:704 | repeated `switchTurn` rotations from a player always name one of the players |
| Engine.RotateOffset | App.tsx:704 | within one round of rotations the turn moves `k` places on, wrapping at most once |
| Engine.RotateFullRound | App.tsx:704 | after `numPlayers` rotations the turn is back with the same player |
| Engine.RotationVisitsEveryone | App.tsx:704 | every player gets the turn within one round |
| Engine.Zeros | App.tsx:651-653 | `Array(players).fill(0)` has one zero per player |
| Engine.GenerateLevel | App.tsx:639-649 | the secret order is a `LevelSize` prefix of the shuffled theme; the starting order is a deranged permutation of it (or the order itself for at most one symbol) with correct-count 0; both are duplicate-free for a duplicate-free theme |
| Engine.Game.constructor | App.tsx:602-624 | the initial values of the state hooks, satisfying `Valid()` |
| Engine.Game.StartNewLevel | App.tsx:639-661 | the level's orders and count as in `GenerateLevel`; scores reset to zeros only at level 0; playing phase, no selection or winner, the starting player, a full timer; nothing changes while the derangement has not terminated |
| Engine.Game.HandleSetupComplete | App.tsx:663-666 | stores the chosen configuration and moves to name entry, keeping `Valid()` |
| Engine.Game.HandleBack | App.tsx:847 | the name-entry screen's Back button returns to setup, keeping `Valid()` |
| Engine.Game.StartGame | App.tsx:668-677 | a no-op without a configuration; otherwise level 0 is started with player 0, and the players, names, theme and level count are adopted, keeping `Valid()` |
| Engine.Game.AdoptConfig | App.tsx:670-675 | copies player count, names, theme and level count out of the configuration and clears game over, keeping `Valid()` |
| Engine.Game.HandleNextLevel | App.tsx:826-828 | starts the next level with the scores kept and the last winner to move, keeping `Valid()` |
| Engine.Game.HandlePlayAgain | App.tsx:830-837 | back to setup: level 0, no scores, names or configuration, not over, keeping `Valid()` |
| Engine.Game.LeaveGame | App.tsx:831-834 | setup phase, not over, level 0 and no scores, keeping `Valid()` |
| Engine.Game.HandleWin | App.tsx:679-699 | records the winner, adds the level bonus to the winner's score only, marks the game over after the last level and shows the win screen, keeping `Valid()` |
| Engine.Game.ScoreMove | App.tsx:737-756 | stores the new order and its correct-count and changes only the mover's score, by `ScoreDelta` |
| Engine.Game.EndMove | App.tsx:765-770 | a non-improving move in a game of several players locks the board and queues a `switchTurn` call for the mover; any other move restarts the timer |
| Engine.Game.FinishMove | App.tsx:760-770 | a solved, non-empty board wins the level for the mover with the bonus; otherwise `EndMove`'s effect with winner and phase unchanged |
| Engine.Game.ProcessMove | App.tsx:736-771 | `MoveApplied`: the new order and count, only the mover's score changes (points plus any bonus), a solved board wins, and a non-improving move in a game of several players locks the board and queues the turn switch; `Valid()` is kept |
| Engine.Game.HandleItemClick | App.tsx:773-788 | ignored on the win screen or a locked board; a first click selects, a click on the selected symbol deselects, and a click on another symbol applies the swap as `ProcessMove` and clears the selection |
| Engine.Game.SecondClick | App.tsx:776-787 | the second click either deselects (same symbol) or applies the swap of the two positions, and the selection ends empty |
| Engine.Game.ClearSelection | App.tsx:786 | the selection is cleared, keeping `Valid()` |
| Engine.Game.HandleDrop | App.tsx:807-820 | ignored without a drag, on the start position, on the win screen or a locked board; otherwise applies the swap of the dragged and dropped positions as `ProcessMove` |
| Engine.Game.SwitchTurn | App.tsx:701-716 | with the captured values: nothing on a won level or for one player; otherwise announces the next player and queues the turn completion for them |
| Engine.Game.Tick | App.tsx:718-734 | outside play, for one player or at 0 nothing happens; otherwise the timer counts down by one, and on reaching 0 the board locks and the turn switches to the next player |
| Engine.Game.RotationDelayExpired | App.tsx:766-767 | the oldest queued `switchTurn` closure runs with its captured values and leaves the queue |
| Engine.Game.TurnChangeFinished | App.tsx:709-715 | the oldest turn completion gives the turn to its captured next player with no selection, a full timer and an unlocked board |
| Engine.Game.TakeTurn | App.tsx:711-714 | current player, selection, timer and lock as the completion sets them, keeping `Valid()` |
| GameOver.MaxScore | App.tsx:249 | `Math.max(...scores)` is one of the scores and no score exceeds it |
| GameOver.MaxFrom | App.tsx:249 | the largest of `scores[i..]` is one of them and no score there exceeds it |
| GameOver.IndexOf | App.tsx:250 | `indexOf` finds the first position holding the value, and gives -1 exactly when no position does |
| GameOver.IndexFrom | App.tsx:250 | the first position at or after `from` holding the value, or -1 exactly when none does |
| GameOver.HoldingBelow | App.tsx:251-253 | the listed one-based numbers of the prefix's players hold the score and increase strictly |
| GameOver.HoldingBelowComplete | App.tsx:251-253 | every player of the prefix holding the score is listed |
| GameOver.Holding | App.tsx:251-253 | the listed one-based player numbers hold the score, increase strictly, and include every player who holds it |
| GameOver.WinningPlayers | App.tsx:249-253 | with no scores nobody holds `Math.max`'s minus infinity |
| GameOver.GameOutcome | App.tsx:255-258 | "complete" exactly for one player; a sole winner's index is a score position, -1 only when there are no scores |
| GameOver.WinningPlayersAreTheBest | App.tsx:249-253 | a player is among the winning players exactly when nobody scored more |
| GameOver.SomebodyWins | App.tsx:249-253 | with at least one score somebody holds the winning score |
| GameOver.SharedIffSeveral | App.tsx:251-257 | several winning players exactly when two different players share the best score |
| GameOver.TieIffBestShared | App.tsx:255-258 | a game of several players is a tie exactly when two different players share the best score |
| GameOver.SoleWinnerIsStrictlyAhead | App.tsx:249-258 | an announced sole winner (with scores present) holds the best score, and every other player scored strictly less |
| PlayerNames.SkipSpace | App.tsx:512 | the end of the leading white space of a suffix |
| PlayerNames.SkipSpaceBack | App.tsx:512 | the start of the trailing white space of a prefix |
| PlayerNames.TextStart | App.tsx:512 | where `trim` starts: everything before it is white space, and the character there is not |
| PlayerNames.TextEnd | App.tsx:512 | where `trim` ends: everything after it is white space, the character before it is not, and it meets the start only for an all-white-space name |
| PlayerNames.Trim | App.tsx:512 | a non-empty trim neither starts nor ends with white space; the trim is empty exactly when the name is all white space |
| PlayerNames.TrimIsInfix | App.tsx:512 | the trim is a contiguous part of the name and what it drops at either end is white space |
| PlayerNames.TrimmedIsFixed | App.tsx:512 | a string without white space at either end is its own trim |
| PlayerNames.TrimIdempotent | App.tsx:512 | trimming twice is trimming once |
| PlayerNames.NatToString | App.tsx:512 | `${index + 1}` is a non-empty decimal numeral without a leading zero |
| PlayerNames.ParseNatToString | App.tsx:512 | reading the numeral back gives the number |
| PlayerNames.NatToStringInjective | App.tsx:512 | different numbers have different numerals |
| PlayerNames.FinalName | App.tsx:512 | the trimmed name when it is not blank, otherwise `Player ` and the one-based number |
| PlayerNames.FinalNames | App.tsx:512 | one name per entry, each the `FinalName` of its entry and position |
| PlayerNames.FinalNamesAreTrimmed | App.tsx:512 | every final name is non-empty and its own trim |
| PlayerNames.DefaultNamesDiffer | App.tsx:512 | two players who both left their name blank get different names |
| PlayerNames.FinalNamesIdempotent | App.tsx:512 | filling in the final names again changes nothing |

## Left out

- Rendering: the JSX screens, colours, animations, the light/dark theme toggle, `localStorage` and the `data-player-theme` attribute are not modelled. The render conditions of each screen are kept as preconditions: the board's handlers need the playing or won phase (`App.tsx:843-926`), `HandleSetupComplete` needs the setup screen, and `HandleNextLevel` needs the win screen of a game that is not over (`App.tsx:858`).
- Engine.Game.HandlePlayAgain: the game-over screen offers it only when the game is over (`App.tsx:855`); the model allows it from any valid state, which is more permissive.
- Engine.Game.HandleDrop: the drag plumbing (`handleDragStart`, `handleDragOver`, `handleDragEnd`, `handleDragLeave` and the `draggedItemIndex`/`dragOverItemIndex` fields) is left out; the dragged index is a parameter, `None` when no drag is in progress.
- Purely visual state: `pointChange`, `swappedIndices` and `pointsWon`, with their clearing timeouts, carry no game logic and are left out.
- Themes: `THEMES`, `THEME_NAMES` and the `constants` module are not part of this model. A theme is represented by its symbol list (`Game.gameTheme`, `Config.pool`). Themes are assumed duplicate-free (`ValidConfig`). The initial `gameTheme` is the empty list.
- Randomness: `Math.random` is an oracle, and its uniformity is not modelled. The shuffle of the theme and each derangement attempt read separate oracles, where the program reads one stream.
- Helpers.GenerateDerangement: the source loops until it finds a derangement. The model consumes a finite list of attempts, and `found` is false when they run out. Such a run has not terminated, so `StartNewLevel`, `StartGame` and `HandleNextLevel` commit nothing in that case. Termination with probability 1 is not modelled.
- Helpers.GetCorrectPositions: the null checks are left out because sequences cannot be null. The length check is modelled.
- Helpers.Shuffle: the promise that the input is not modified holds by value semantics. The input is a `seq`, and the array is a fresh copy.
- Time: wall-clock time is not modelled. Each timeout and interval firing is an event the environment chooses, and the queues fire in order of scheduling. The model does not order one queue's events against the other's.
- Timeouts are never cancelled, matching the code. A 500 ms or 2.5 s callback scheduled before a win, a new level or a restart still fires later with the values it captured. The model lets it, and `Valid()` holds throughout.
- Engine.Game.StartGame: requires that no callback of an earlier game is still waiting. All of them fire within 3 s, well before the setup and name screens can be passed again.
- Engine.Game.StartGame: the source queues the configuration updates before it calls `startNewLevel`. The model starts the level and then adopts the configuration. React commits all of these updates together, so the final state is the same.
- Engine.Game.Tick: one firing of the interval, together with the effect's re-run. The re-run is what locks the board and switches the turn at 0. The ordering of a pending timer against React's commit is not modelled.
- Error cases that the code does not have are not modelled. The code never reports invalid configurations or indices; the model states them as preconditions instead, because the UI cannot produce them.
- GameOver: the text of `getWinnerDeclaration`, with its `join(' & ')` of names, is not modelled. `GameOutcome` names the winner by index.
- GameOver.WinningPlayers: with no scores, `Math.max()` is minus infinity and `indexOf` gives -1. The model returns an empty list and `Winner(-1)`. Floating-point scores are not modelled; scores are integers.
