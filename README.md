# Snake game core, modelled in Dafny

This project models the rule logic of a browser snake game and proves properties of it.
Everything else in the game (drawing, sound and the UI frameworks) is outside the model.
The model covers six components, one Dafny module each:

- **Grid** (`grid.dfy`): cells, unit directions, the 20×20 board and the occupancy test
  shared by every component.
- **GameLogic** (`game_logic.dfy`): the Vue-era primitives. It covers snake moves, direction
  checks, collisions and the food-effect resolver. It also covers wall clustering by flood
  fill and the moving of wall groups, the teleports and the wall and food generators.
- **SnakeGame** (`snake_game.dfy`): the React-era pure game step `processGameTick` and its
  helpers. These cover moving, colliding, eating (mushroom doubles, poison shrinks),
  scoring, replacing food and key handling.
- **Variants** (`variants.dfy`): the two snake-logic files share names but not rules. Each
  member here runs or evaluates both on the same input and states where they agree and
  where they differ.
- **BotLogic** (`bot_logic.dfy`): the time-gated bot step with its five per-type direction
  policies, the valid-move filter, bot collisions and bot creation.
- **Storage** (`storage.dfy`): the top-five high-score table.
- **Constants** (`constants.dfy`): the food table, wall layouts, speeds, teleport settings
  and `getGameSize`.
- **Progression** (`progression.dfy`): the `ProgressionSystem` class. It is a Dafny class
  whose one field `data` holds the player's progression. Its methods update that field in
  place. They cover:
  - the level-up loop;
  - achievement and step progress;
  - the duplicate-free unlock lists;
  - level rewards and the unlock count;
  - end-of-game statistics;
  - the seasonal calendar.

Modelling conventions:

- **Randomness.** Every `Math.random()` is an explicit argument, so every property holds
  for all random choices.
  - An index draw `Math.floor(Math.random() * n)` is any natural number taken modulo `n`.
  - A loop with an attempt cap draws from a function `nat -> nat`, one draw per attempt.
  - A comparison against a rate written in hundredths is an integer draw in [0, 100).
  - The uncapped wall loop takes a finite sequence of draws.
- **Time.** `Date.now()` and `currentTime` are integer parameters.
- **Distances.** The bot logic's Euclidean distances are only ever compared against bounds,
  so they are compared squared.
- **Mutual recursion.** Four progression methods call each other in a cycle:
  - `addExperience` calls `checkLevelUnlocks`;
  - `checkLevelUnlocks` calls `unlockReward`;
  - `unlockReward` calls `updateUnlocksCount`;
  - `updateUnlocksCount` calls `addExperience`.

  The model keeps this recursion. It terminates because the number of locked achievements
  drops before every nested `addExperience`.

## Model

| member | source | states |
|---|---|---|
| GameLogic.MoveSnake | src/utils/gameLogic.ts:274-284 | the result is one cell longer, its head is the old head plus the direction, and the rest is the input unchanged |
| GameLogic.ValidDirectionIffNotReversal | src/utils/gameLogic.ts:286-291 | on unit directions a change is refused exactly when it reverses the current direction; keeping the direction is always allowed |
| GameLogic.CheckCollisions | src/utils/gameLogic.ts:207-234 | a collision happens iff the head is off the board, on a wall, on any cell of the snake or on any cell of the other snake |
| GameLogic.TailIsNotExempt | src/utils/gameLogic.ts:223-226 | the snake's own last cell counts as an obstacle (there is no tail exemption) |
| GameLogic.UpdateSnakeWithFood | src/utils/gameLogic.ts:236-272 | mushroom: n cells become 2n − 1, the old cells are kept and the new ones copy the last cell. Poison: two cells go when n > 3, otherwise the snake is unchanged. Golden: two copies of the last cell and double points. Every other kind: one copy and the points |
| GameLogic.DefaultBranchKinds | src/utils/gameLogic.ts:259-271 | the default growth branch is taken exactly by the kinds other than mushroom and poison |
| GameLogic.AdjacentUnvisited | src/utils/gameLogic.ts:152-155 | the neighbours found are exactly the walls one step from the current cell that are not yet visited |
| GameLogic.FloodFill | src/utils/gameLogic.ts:140-158 | the group found from a wall is connected, duplicate-free and made of unvisited walls; it is closed under adjacency among the walls; the visited set grows by exactly the group |
| GameLogic.GroupWalls | src/utils/gameLogic.ts:132-166 | the groups partition the distinct walls into non-empty, 4-connected, duplicate-free groups with no wall of one group next to a wall of another |
| GameLogic.SeparatedGroups | src/utils/gameLogic.ts:132-166 | no cell of one group is adjacent to a cell of a later group |
| GameLogic.GroupingKeepsCount | src/utils/gameLogic.ts:132-166 | for duplicate-free walls the groups together hold as many cells as the walls |
| GameLogic.Translate | src/utils/gameLogic.ts:108-111 | every cell of a group is moved by the same direction |
| GameLogic.MoveGroup | src/utils/gameLogic.ts:113-125 | a group is either kept as it was or translated as a whole, and a translated group lies on the board and off every snake cell |
| GameLogic.MoveGroups | src/utils/gameLogic.ts:100-126 | the loop emits the groups, each moved or kept, in order |
| GameLogic.MoveWalls | src/utils/gameLogic.ts:91-129 | no walls stay no walls. The groups are a grouping of the walls. Duplicate-free walls keep their number. Every new wall is an old wall or a free board cell off both snakes |
| GameLogic.MovedWallsCount | src/utils/gameLogic.ts:91-129 | moving the groups of duplicate-free walls keeps their number |
| GameLogic.MovedWallsSafe | src/utils/gameLogic.ts:113-125 | every wall after the move is an old wall or a board cell off both snakes |
| GameLogic.GenerateRandomWalls | src/utils/gameLogic.ts:4-45 | when the draws suffice, the result has exactly `count` cells (none for a non-positive count), all on the board and none on the three reserved cells |
| GameLogic.RandomWallsShape | src/utils/gameLogic.ts:12-42 | from any placeable start, the walls stay on the board and off the reserved cells |
| GameLogic.RandomWallsDuplicate | src/utils/gameLogic.ts:25-39 | a concrete run of draws gives a wall twice (the extra neighbour is not checked against existing walls) |
| GameLogic.RandomWallsNoDups | src/utils/gameLogic.ts:18-39 | with the neighbour also checked against existing walls, the walls are duplicate-free |
| GameLogic.Placed | src/utils/gameLogic.ts:70-73 | a pattern placed at a base cell is each offset added to the base |
| GameLogic.GenerateMovingWalls | src/utils/gameLogic.ts:47-89 | the walls are on the board, off the reserved cells and distinct. A non-positive count gives none. Otherwise there are fewer than count + 3 |
| GameLogic.MovingWallsValid | src/utils/gameLogic.ts:64-86 | every accepted pattern keeps the walls placeable and duplicate-free |
| GameLogic.PlacedNoDups | src/utils/gameLogic.ts:56-62 | each of the four patterns places distinct cells |
| GameLogic.PatternsFitGrid | src/utils/gameLogic.ts:66-73 | a pattern placed at a drawn base lies on the board |
| GameLogic.FoodCandidate | src/utils/gameLogic.ts:183-188 | every drawn food cell is on the board |
| GameLogic.FirstFreeAttemptSpec | src/utils/gameLogic.ts:181-191 | the loop stops at the first free draw, or after the 101st attempt |
| GameLogic.DrawFoodCell | src/utils/gameLogic.ts:181-191 | the cell is the draw at the first free attempt |
| GameLogic.DrawFoodKind | src/utils/gameLogic.ts:193-202 | the kind chosen is the one whose cumulative-rate interval holds the draw |
| GameLogic.GenerateFood | src/utils/gameLogic.ts:168-205 | the food is on the board; it is off every occupied cell iff some attempt drew a free cell; its kind's rate interval holds the draw |
| GameLogic.FindValidTeleportPositions | src/utils/gameLogic.ts:293-320 | the list holds exactly the board cells off the snake, walls and other snake at Manhattan distance ≥ minDistance from the head, each once, in scan order |
| GameLogic.ExecuteRandomTeleport | src/utils/gameLogic.ts:322-342 | only the head changes. It moves to a valid target when one exists and the snake is returned unchanged otherwise |
| GameLogic.WrapCoord | src/utils/gameLogic.ts:358-362 | a coordinate one step off the board re-enters on the opposite edge, and one on the board is kept |
| GameLogic.FreeAmong | src/utils/gameLogic.ts:371-386 | the neighbours kept are exactly those on the board and unblocked, in order |
| GameLogic.StopAt | src/utils/gameLogic.ts:364-393 | a ray cell ends the walk with itself when unblocked, or with its first free neighbour; a blocked cell with no free neighbour continues the walk |
| GameLogic.DirectionalSafe | src/utils/gameLogic.ts:354-399 | the walk's result is the head or an unblocked board cell |
| GameLogic.ExecuteDirectionalTeleport | src/utils/gameLogic.ts:344-403 | the target is the head or an unblocked board cell, found within one lap of the ray |
| GameLogic.DirectionalLapReturnsToHead | src/utils/gameLogic.ts:354-362 | the wrapped ray from a board cell comes back to it after GRID_SIZE steps |
| GameLogic.DirectionalGuardNeverFires | src/utils/gameLogic.ts:395-398 | between board cells the Manhattan distance is at most 38, below the guard's bound of 40 |
| GameLogic.DirectionalBoundedAgrees | src/utils/gameLogic.ts:344-403 | when the head is unblocked, the loop as written ends within one lap and gives the bounded model's answer |
| GameLogic.DirectionalTrapNeverReturns | src/utils/gameLogic.ts:354-399 | with the head on a wall and the top two rows walled, the loop as written never returns |
| SnakeGame.Lookup | react/snake-game-logic.ts:119-121 | a name found is paired with its entry, and None means no entry has the name |
| SnakeGame.LookupTable | react/snake-game-logic.ts:23-33 | each food name finds its own entry |
| SnakeGame.MoveSnake | react/snake-game-logic.ts:36-50 | same length; the head is the old head plus the direction; the rest is the old body without its last cell |
| SnakeGame.CheckWallCollision | react/snake-game-logic.ts:53-55 | true iff the cell is off the 20×20 board |
| SnakeGame.CheckSelfCollision | react/snake-game-logic.ts:58-63 | true iff a later segment equals the head |
| SnakeGame.SelfCollisionNeedsBody | react/snake-game-logic.ts:58-63 | a snake of at most one cell never hits itself |
| SnakeGame.CheckObstacleCollision | react/snake-game-logic.ts:66-68 | true iff the head is on a wall |
| SnakeGame.CheckFoodCollision | react/snake-game-logic.ts:71-73 | the least index of a food under the head, or −1 when there is none |
| SnakeGame.EatRegularFood | react/snake-game-logic.ts:76-87 | one cell longer, new head in front, the whole old body kept |
| SnakeGame.Doubled | react/snake-game-logic.ts:90-101 | n ≥ 1 cells become 2n − 1: the old cells first, then copies of the last |
| SnakeGame.EatMushroom | react/snake-game-logic.ts:90-101 | the loop builds the doubled snake |
| SnakeGame.PoisonLength | react/snake-game-logic.ts:104-116 | poison never lengthens and never takes a snake longer than 3 below 3 |
| SnakeGame.Poisoned | react/snake-game-logic.ts:104-116 | the poisoned snake is a prefix of the snake, of the poison length |
| SnakeGame.EatPoison | react/snake-game-logic.ts:104-116 | the pops leave the poisoned snake |
| SnakeGame.CalculateScoreChange | react/snake-game-logic.ts:119-125 | a kind with no own entry in the food table keeps the score; a known one gives a score that is never negative and at least the score plus its points |
| SnakeGame.Candidate | react/snake-game-logic.ts:135-138 | every drawn cell is on the board |
| SnakeGame.FreeCandidateNone | react/snake-game-logic.ts:128-152 | no position comes back iff every remaining attempt drew an occupied cell |
| SnakeGame.FreeCandidateFirst | react/snake-game-logic.ts:140-146 | the position returned is free and is the first free draw |
| SnakeGame.GenerateFoodPosition | react/snake-game-logic.ts:128-152 | the loop returns the first free draw among 100 attempts, or None |
| SnakeGame.ReactRatesSum | react/snake-game-logic.ts:23-33 | the nine spawn rates sum to exactly 100 hundredths |
| SnakeGame.KindAtInterval | react/snake-game-logic.ts:155-167 | the kind chosen is the first whose running rate sum exceeds the draw |
| SnakeGame.DetermineFoodType | react/snake-game-logic.ts:155-167 | the loop returns the kind chosen by the running sums |
| SnakeGame.GenerateFood | react/snake-game-logic.ts:170-184 | the food is placed on the first free draw with the chosen kind, or there is none |
| SnakeGame.RemoveAt | react/snake-game-logic.ts:249 | the eaten food goes and the others keep their order |
| SnakeGame.GrowShape | react/snake-game-logic.ts:234-243 | for a snake of n cells, a mushroom leaves 2n + 1, poison the poison length of n and other food n + 1; the kept cells are a prefix of the moved snake |
| SnakeGame.ReplaceSpec | react/snake-game-logic.ts:248-255 | the eaten food is removed and at most one food is added, on a cell off the snake, the other foods and the walls |
| SnakeGame.ProcessGameTick | react/snake-game-logic.ts:187-268 | the step collides, moves, eats, scores and replaces food as the tick function states |
| SnakeGame.TickCollision | react/snake-game-logic.ts:207-221 | a head off the board, on a wall or on any pre-move cell (tail included) returns the inputs with gameOver set and no food eaten, and only such a head ends the game |
| SnakeGame.TickMove | react/snake-game-logic.ts:256-259 | with no hit and no food, the snake keeps its length with the new head and the tail dropped; foods and score stay |
| SnakeGame.TickEat | react/snake-game-logic.ts:229-255 | with no hit and a food under the head, the snake grows by the food's effect, the food is replaced and the score changes by calculateScoreChange, never negative |
| SnakeGame.TickEatLength | react/snake-game-logic.ts:229-255 | after eating, a snake of n cells has 2n + 1 cells (mushroom), the poison length of n (poison) or n + 1 |
| SnakeGame.TickMushroomOutcome | react/snake-game-logic.ts:235-237 | a 3-cell snake eating a mushroom ends with 7 cells and score 105 |
| SnakeGame.TickPoisonOutcome | react/snake-game-logic.ts:238-242 | a 5-cell snake eating poison ends with 3 cells and score 90 |
| SnakeGame.TickTailHit | react/snake-game-logic.ts:218-221 | moving onto the cell the tail is about to leave ends the game |
| SnakeGame.ValidChangeIffNotReversal | react/snake-game-logic.ts:271-283 | on unit directions a change is refused exactly when it reverses the current direction |
| SnakeGame.KeyDirection | react/snake-game-logic.ts:290-305 | a mapped key gives a unit direction |
| SnakeGame.DirectionFromKeySpec | react/snake-game-logic.ts:286-313 | among the map's own keys, exactly the 12 arrow and WASD keys are mapped; a direction is returned iff the key is mapped and is not a reversal |
| Variants.MoveSnakeVariants | react/snake-game-logic.ts:36-50 | the Vue-era move is the React-era move with the old tail kept at the end |
| Variants.PoisonVariants | react/snake-game-logic.ts:104-116 | the two poison rules agree except at length 4, where one leaves 2 cells and the other 3 |
| Variants.MushroomVariants | react/snake-game-logic.ts:229-237 | the two mushroom rules agree (2n − 1), but the React step applies it to the moved snake and leaves 2n + 1 |
| Variants.DirectionChecksAgreeOnUnits | react/snake-game-logic.ts:271-283 | the two direction checks agree on unit directions |
| Variants.DirectionChecksDisagreeOnDiagonal | src/utils/gameLogic.ts:286-291 | from (1, 1) to (1, −1) the Vue-era check refuses and the React-era check accepts |
| Variants.SelfCollisionAgrees | react/snake-game-logic.ts:207-221 | without a second snake both files refuse the same heads |
| Variants.FoodTablesDiffer | react/snake-game-logic.ts:23-33 | the tables have 12 and 9 kinds, and the apple's rate is 26 against 25 hundredths |
| BotLogic.TypeTables | src/utils/botLogic.ts:76-97 | every type waits 500 to 1000 ms between moves and has a positive speed; the five types are distinct |
| BotLogic.GetDirectionTowards | src/utils/botLogic.ts:120-129 | a unit direction on the x axis iff \|dx\| > \|dy\| strictly; it shortens the Manhattan distance by one; (0, −1) when the cells coincide |
| BotLogic.IsValidPosition | src/utils/botLogic.ts:132-138 | true iff the cell is on the board and not an obstacle |
| BotLogic.ValidAmong | src/utils/botLogic.ts:141-156 | the directions kept are exactly those leading to a valid cell |
| BotLogic.ValidMovesInOrder | src/utils/botLogic.ts:141-156 | the moves come in the order up, right, down, left |
| BotLogic.GetValidMoves | src/utils/botLogic.ts:141-156 | the loop returns exactly the valid directions in order |
| BotLogic.Nearest | src/utils/botLogic.ts:190-194 | the nearest player is a player, and no player is closer |
| BotLogic.NearestIsFirst | src/utils/botLogic.ts:190-194 | among equally near players the first is chosen |
| BotLogic.Prefer | src/utils/botLogic.ts:199-201 | the ideal direction is taken when it is a valid move, otherwise a valid move is drawn |
| BotLogic.Choose | src/utils/botLogic.ts:179-260 | every policy picks a valid move |
| BotLogic.ChooseMove | src/utils/botLogic.ts:179-260 | the switch picks the policy's direction and the patrol index after the move |
| BotLogic.UpdateBot | src/utils/botLogic.ts:159-275 | the copied bot is updated field by field into the step's result |
| BotLogic.BotStepGate | src/utils/botLogic.ts:166-168 | an inactive bot, or one whose interval has not elapsed, is returned unchanged |
| BotLogic.BotStepTrapped | src/utils/botLogic.ts:170-177 | a trapped bot keeps its position and clock and only turns to one of the four directions |
| BotLogic.BotStepMoves | src/utils/botLogic.ts:264-275 | otherwise the bot takes a valid move one cell along it, onto a board cell that is not an obstacle, and stamps the clock. The clamp changes nothing |
| BotLogic.ChaserPursues | src/utils/botLogic.ts:187-208 | a chaser within aggro range of the nearest player takes the ideal direction when it is valid, and gets one step closer |
| BotLogic.GuardReturns | src/utils/botLogic.ts:210-227 | a guard more than 3 from home takes the ideal direction home when it is valid, and gets one step closer |
| BotLogic.BotStepPatrol | src/utils/botLogic.ts:229-249 | within distance 1 of its waypoint a patrol bot advances its index cyclically, otherwise the index stays |
| BotLogic.BotStepWellFormed | src/utils/botLogic.ts:159-275 | a step keeps the patrol index within the waypoints |
| BotLogic.UpdateAllBots | src/utils/botLogic.ts:301-308 | each bot is stepped on its own, in order |
| BotLogic.CheckBotCollisions | src/utils/botLogic.ts:280-284 | true iff an active bot is on the head |
| BotLogic.InactiveBotsHarmless | src/utils/botLogic.ts:280-284 | inactive bots never collide |
| BotLogic.SpawnCandidate | src/utils/botLogic.ts:37-42 | every drawn spawn cell is on the board |
| BotLogic.SpawnFromSpec | src/utils/botLogic.ts:36-45 | the spawn cell is on the board and is free whenever some remaining attempt drew a free cell |
| BotLogic.FindSpawn | src/utils/botLogic.ts:31-45 | the do-while loop returns the spawn cell |
| BotLogic.PatrolPoint | src/utils/botLogic.ts:105-108 | every waypoint is on the board |
| BotLogic.GeneratePatrolPoints | src/utils/botLogic.ts:100-112 | three to five waypoints, each on the board |
| BotLogic.CreateBot | src/utils/botLogic.ts:27-74 | the bot gets its id, the drawn type, spawn cell and direction, and its type's speed, colour and interval. A chaser gets aggro range 6. A guard gets 4 and its spawn as home. A patrol bot gets 3 to 5 waypoints and index 0 |
| BotLogic.Decimal | src/utils/botLogic.ts:291 | a number's decimal text is non-empty and made of digits |
| BotLogic.DecimalInjective | src/utils/botLogic.ts:291 | different numbers have different decimal texts |
| BotLogic.BotIdsDistinct | src/utils/botLogic.ts:291 | the ids `bot-i` are pairwise distinct |
| BotLogic.InitializedSnoc | src/utils/botLogic.ts:290-295 | a new bot created against all earlier positions extends the initialised bots |
| BotLogic.InitializeBots | src/utils/botLogic.ts:287-298 | `count` bots (none for a non-positive count) with distinct ids `bot-0`…; each is created against the given positions and those of the bots before it |
| Storage.Insert | src/utils/storage.ts:22 | inserting into a descending list keeps it descending and adds exactly one copy of the score |
| Storage.SortDesc | src/utils/storage.ts:22 | the scores, sorted from highest to lowest, as a permutation |
| Storage.SortedPermutationUnique | src/utils/storage.ts:22 | two descending lists with the same scores are equal, so any correct sort gives the same table |
| Storage.UpdateHighScores | src/utils/storage.ts:21-25 | the table is descending with min(5, n + 1) entries. Its scores were all offered, duplicates kept. Every score left out is no higher than every score kept |
| Storage.LowScoreKeepsTable | src/utils/storage.ts:22 | a score no higher than the entries of a full sorted table leaves its first five entries |
| Storage.TableFromSorted | src/utils/storage.ts:22 | the table is the front of any descending arrangement of the offered scores |
| Constants.Props | src/utils/constants.ts:22-35 | each kind's properties are its table entry |
| Constants.TableIndex | src/utils/constants.ts:22-35 | each kind has its row in the table |
| Constants.FoodTableKeys | src/utils/constants.ts:22-35 | 12 distinct kinds, one row each |
| Constants.SpawnRatesInRange | src/utils/constants.ts:22-35 | every rate lies in (0, 100] hundredths |
| Constants.SpawnRatesSum | src/utils/constants.ts:22-35 | the rates sum to exactly 100 hundredths |
| Constants.CumulativeRateIncreasing | src/utils/constants.ts:22-35 | the running rate sums strictly increase |
| Constants.RateIntervalUnique | src/utils/constants.ts:22-35 | a draw falls in the rate interval of exactly one kind |
| Constants.PointsSigns | src/utils/constants.ts:22-35 | poison is worth negative points; apple, golden, berry, super, banana, cherry and watermelon are worth positive points |
| Constants.WallLayoutInGrid | src/utils/constants.ts:38-77 | every cell of a layout lies in [0, 20)² |
| Constants.WallLayoutsInGrid | src/utils/constants.ts:38-77 | all layouts lie on the board; `none` and `random` are empty |
| Constants.SpeedsOrdered | src/utils/constants.ts:82 | slow > normal > fast > 0 (milliseconds per tick) |
| Constants.TeleportConstantsReasonable | src/utils/constants.ts:85-86 | 0 < cooldown < 30000 and 0 < range < 20 |
| Constants.GetGameSize | src/utils/constants.ts:16-19 | width equals height, which is the grid size in 25-pixel cells |
| Constants.DefaultGridSize | src/utils/constants.ts:4-5 | the default grid is the board the logic uses, 500 × 500 pixels |
| Progression.Threshold | src/utils/progressionSystem.ts:43 | the threshold of a level is 100 · 1.5^(level − 1) rounded down, never below 100 |
| Progression.FirstThresholds | src/utils/progressionSystem.ts:43 | the first thresholds are 100, 150, 225 and 337 |
| Progression.CostSplit | src/utils/progressionSystem.ts:36-47 | climbing in two legs costs as much as climbing at once |
| Progression.CostAtLeast | src/utils/progressionSystem.ts:36-47 | each level climbed costs at least 100 experience |
| Progression.Advance | src/utils/progressionSystem.ts:78-82 | a snake length is a record (the maximum of old and new); any other statistic accumulates, capped at the requirement |
| Progression.AdvanceStep | src/utils/progressionSystem.ts:106-117 | an incomplete step tracking the statistic follows the progress rule and is completed iff it reaches its requirement; any other step is untouched |
| Progression.CompletedCount | src/utils/progressionSystem.ts:121-122 | the completed steps number no more than the steps, and all of them iff every step is completed |
| Progression.AdvanceRegular | src/utils/progressionSystem.ts:76-87 | a locked step-less achievement tracking the statistic follows the progress rule and unlocks iff it reaches its requirement; an unlocked one is untouched |
| Progression.LockedUpdate | src/utils/progressionSystem.ts:84-85 | unlocking one locked achievement lowers the number locked by one |
| Progression.GrewKeepsMember | src/utils/progressionSystem.ts:395-423 | an unlocked item stays unlocked as the lists grow |
| Progression.NoDupsSnoc | src/utils/progressionSystem.ts:400-402 | pushing an absent id keeps a list duplicate-free |
| Progression.WithReward | src/utils/progressionSystem.ts:398-423 | the item joins its list unless present (a pattern changes nothing). The lists only grow and stay duplicate-free. The unlock total rises by one exactly for a new item |
| Progression.LevelReward | src/utils/progressionSystem.ts:430-443 | a reward exists exactly at levels 5, 10, 15, 20, 25 and 30, and none is a pattern |
| Progression.TrackStep | src/utils/progressionSystem.ts:1781-1797 | an incomplete step takes its tracked count and is completed iff it reaches its requirement; a completed step is untouched |
| Progression.TrackSteps | src/utils/progressionSystem.ts:1780-1799 | every step is tracked on its own |
| Progression.CountUnlocks | src/utils/progressionSystem.ts:1771-1776 | a locked achievement counting unlocks takes the sum of the four list lengths as progress and unlocks iff that meets its requirement |
| Progression.GameExperienceMonotone | src/utils/progressionSystem.ts:158-166 | a game no worse in every statistic earns no less experience, and a game with no negative statistic earns none negative |
| Progression.CurrentSeasonalEvents | src/utils/progressionSystem.ts:1476-1511 | no event twice; the holiday event runs exactly Dec 24–31 and Halloween exactly Oct 25–31 |
| Progression.SeasonWindows | src/utils/progressionSystem.ts:1481-1499 | spring is Mar 20–Jun 21, summer Jun 21–Sep 23, fall Sep 23–Dec 21, winter Dec 21–Mar 19 |
| Progression.SeasonsCoverYear | src/utils/progressionSystem.ts:1481-1499 | every date has a season; Jun 21, Sep 23 and Dec 21 have two and Mar 20 only spring |
| Progression.GrewKeepsSelection | src/utils/progressionSystem.ts:1751-1757 | growing lists keep a valid selection valid |
| Progression.GainSettled | src/utils/progressionSystem.ts:30-31 | adding experience raises the current and the total experience by the amount |
| Progression.ClimbSettled | src/utils/progressionSystem.ts:37-43 | a level-up pays the old threshold, raises the level and sets the formula's threshold |
| Progression.LevelUpSettled | src/utils/progressionSystem.ts:36-47 | a level-up and its reward extend the settled account of the cycle while the locked count or the experience drops |
| Progression.ReplaceSettled | src/utils/progressionSystem.ts:1771-1776 | an unlock-count update is bookkeeping that costs 50 experience (paid separately) when it unlocks |
| Progression.TrackStepsSettled | src/utils/progressionSystem.ts:1780-1799 | tracking the steps is bookkeeping that unlocks nothing |
| Progression.RewardSettled | src/utils/progressionSystem.ts:395-423 | adding a reward to the lists is bookkeeping that keeps the data valid |
| Progression.TrackedUpToNext | src/utils/progressionSystem.ts:1770-1801 | one more turn of the unlock-count loop extends what the turns so far have done |
| Progression.ProgressedJoin | src/utils/progressionSystem.ts:57-97 | two consecutive ranges of turns of the achievement loop make one |
| Progression.NoUnlockProgressed | src/utils/progressionSystem.ts:57-97 | a turn that unlocks nothing progresses its achievement only and leaves the locked count |
| Progression.UnlockProgressed | src/utils/progressionSystem.ts:64-94 | a turn that unlocks its achievement, then settles its reward and bonus, progresses it and lowers the locked count |
| Progression.KeepsCompleted | src/utils/progressionSystem.ts:114-116 | completed steps stay completed |
| Progression.SettledThenAdvanced | src/utils/progressionSystem.ts:168-186 | after a settled gain and later reports, the total experience has grown by at least the gain, and by exactly the gain when no achievement unlocked |
| Progression.ReportedNext | src/utils/progressionSystem.ts:57-98 | a turn that returns the achievement it unlocked keeps the returned list equal, by id, to the achievements unlocked by their own progress so far, each locked before and unlocked after |
| Progression.TurnedNext | src/utils/progressionSystem.ts:57-98 | one more turn of the achievement loop keeps its whole account: progress rule, returned list, rewards unlocked, and no experience without an unlock |
| Progression.DefaultData | src/utils/progressionSystem.ts:469-505 | a new player's data is valid: a level of at least 1 with the formula's threshold, duplicate-free lists, and a selected skin and trail that are unlocked |
| Progression.ProgressionSystem.constructor | src/utils/progressionSystem.ts:469-505 | a new system holds the default data |
| Progression.ProgressionSystem.AddExperience | src/utils/progressionSystem.ts:29-51 | the cycle is settled with the amount; with no unlock-count unlock, the total grows by exactly the amount. On return the experience is below the threshold. leveledUp holds iff the level rose, and then newLevel is the new level |
| Progression.ProgressionSystem.CheckLevelUnlocks | src/utils/progressionSystem.ts:430-443 | the level's reward, when it has one, is unlocked; any other level changes nothing |
| Progression.ProgressionSystem.UnlockReward | src/utils/progressionSystem.ts:395-428 | afterwards the item is unlocked. A pattern or an item already held changes nothing. With no unlock-count unlock, the lists are the old ones with the item added |
| Progression.ProgressionSystem.PushReward | src/utils/progressionSystem.ts:398-425 | the item is pushed onto its list when absent, and wasNewUnlock tells whether a list changed |
| Progression.ProgressionSystem.UpdateUnlocksCount | src/utils/progressionSystem.ts:1760-1802 | every locked achievement counting unlocks whose requirement the total meets ends unlocked; with no unlock, each achievement is tracked against the starting totals and nothing else changes |
| Progression.ProgressionSystem.TrackAt | src/utils/progressionSystem.ts:1770-1800 | one turn of the unlock-count loop: the achievement's count, then its steps |
| Progression.ProgressionSystem.CountAt | src/utils/progressionSystem.ts:1771-1777 | a locked achievement counting unlocks takes the total and, when that meets its requirement, unlocks and earns 50 experience |
| Progression.ProgressionSystem.GrantRewards | src/utils/progressionSystem.ts:69-74 | the achievement's reward is unlocked, the unlock count refreshed and the bonus experience settled |
| Progression.ProgressionSystem.UpdateMultiStepAchievement | src/utils/progressionSystem.ts:103-123 | every step follows the step rule, and the achievement's progress is the number of completed steps |
| Progression.ProgressionSystem.AdvanceAchievement | src/utils/progressionSystem.ts:58-87 | an unlocked achievement is untouched. A step-less one follows the regular rule. One with steps advances them and unlocks iff all of them are completed |
| Progression.ProgressionSystem.ProgressAt | src/utils/progressionSystem.ts:57-96 | one turn of the achievement loop. The achievement is returned iff this turn unlocked it, and its reward is then unlocked; without an unlock the total experience is unchanged |
| Progression.ProgressionSystem.UpdateAchievementProgress | src/utils/progressionSystem.ts:54-101 | regular achievements follow the progress rule. An achievement unlocks by its own progress only through its rule (all steps completed for one with steps). No achievement is relocked and the lists only grow. The returned achievements are unlocked, number no more than those that unlocked, and their rewards are unlocked. Every returned achievement was locked before and is unlocked after, and every achievement unlocked by its own progress is returned. Without an unlock the total experience is unchanged |
| Progression.ProgressionSystem.Report | src/utils/progressionSystem.ts:171-184 | one report with its returned list unused: achievements never relocked, lists only grown, statistics and selections kept, level and total never lower, total unchanged without an unlock |
| Progression.ProgressionSystem.AwardGame | src/utils/progressionSystem.ts:168-186 | the experience and the reports in source order. The total grows by at least the experience gained, and by exactly that when no achievement unlocks. No achievement is relocked, the lists only grow, statistics and selections stay |
| Progression.ProgressionSystem.RecordGameEnd | src/utils/progressionSystem.ts:126-186 | one more game and the running totals. Highest score and longest snake are maxima. A perfect game is counted iff score ≥ 500 without a wall broken. The total experience grows by exactly the game's experience, floor(score/10) + floor(gameTime/1000) + 2·foods plus the 50/30/25 bonuses, when no achievement unlocks, and by at least that otherwise |
| Progression.ProgressionSystem.SetSelected | src/utils/progressionSystem.ts:1751-1757 | an unlocked skin or trail becomes the selection, and anything else changes nothing |

## Left out

- Drawing, particles, screen shake, sound, the Vue composables and the PixiJS component are
  not part of this model. Neither are the test files, except as the origin of some properties.
- `saveHighScores`, `loadHighScores`, `loadProgressionData` and `saveProgressionData` are
  browser-storage I/O and are not part of this model. Neither are the `console` calls.
- Daily, weekly and seasonal challenges, `updateSeasonalEvents`, event points, `lastPlayed`
  and the display-only getters of `ProgressionSystem` are left out. They read the clock or
  only present data.
- `averageGameTime` is a floating-point division and is not kept in the statistics.
- Floating-point rates are written in hundredths and bot speeds and sizes in tenths. The
  source compares its draws with floating-point running sums (some, such as 0.68 or 1.0,
  come out a rounding error away from the decimal value), so the model agrees with it
  except on draws within float rounding of a boundary.
- Lookups by name (`FOOD_TYPES[type]`, `directionMap[key]`) see only the table's own
  entries. In the source these are plain object literals, so a name inherited from the
  object prototype (`toString`, `constructor`, `valueOf`, `__proto__`) is found as well: it
  gives a NaN score in `calculateScoreChange`, a non-null non-direction in
  `getDirectionFromKey`, and the plain-growth branch in `processGameTick`. No game input
  produces such a name; the statements of SnakeGame.CalculateScoreChange,
  SnakeGame.DirectionFromKeySpec and SnakeGame.ProcessGameTick hold for own names only.
- Statistical claims about `Math.random` are not modelled: properties hold for every choice
  of draws, not in distribution.
- Bullets, magnet charges and the random grow and shrink effects are left out. The source
  declares them but has no logic for them, so the food kinds `bullet`, `growth` and
  `shrink` take the default growth branch. Multiplayer winner resolution does not exist in
  the source either.
- Achievement names, descriptions and icons, and reward names beyond an id, are dropped.
  Only a representative handful of the default achievements is modelled.
- An achievement whose `steps` is absent and one whose `steps` is empty are both `steps ==
  []`. The source treats them alike.
- Achievements are values in the model. The source pushes the very objects it mutates into
  the returned list, so the model does not capture that aliasing.
- Progression.Threshold: computed exactly as 100 · 3^(L−1) div 2^(L−1). The source's
  floating-point `Math.pow(1.5, L − 1)` may round differently at very high levels.
- Progression.ProgressionSystem.AddExperience: the total grows by exactly `amount` only
  when no unlock-count achievement unlocks during the call. Each such unlock adds 50 more
  through the nested `addExperience(50)`, which the Settled predicate accounts for.
- Progression.ProgressionSystem.RecordGameEnd: the total experience grows by exactly the
  game's experience when no achievement unlocks during the call, and by at least that
  otherwise. The 50, 100 or 200 each unlock adds is stated per turn (ProgressAt, CountAt)
  but not summed over the call. Progression.ProgressionSystem.AwardGame is stated the same
  way.
- GameLogic.ExecuteDirectionalTeleport: the walk is bounded by one lap of the ray and
  returns the head afterwards. The loop as written can run forever (see Findings).
- GameLogic.GenerateRandomWalls: the uncapped loop takes a finite sequence of draws and
  returns None when they run out before `count` walls are placed.
- SnakeGame.ProcessGameTick: returns None where the source throws. That is an empty snake,
  or an eaten food whose kind has no own entry in the food table (a prototype name, which
  the source does not throw on, is covered by the line on lookups above).
- BotLogic.UpdateBot: requires that a patrol index, when present, names one of the
  waypoints; otherwise the source reads an undefined waypoint and throws.
- BotLogic.CreateBot: requires a positive grid size. The same holds for FindSpawn,
  GeneratePatrolPoints and InitializeBots, which draw cells modulo the grid size.
- Constants: `GRID_SIZES`, `HEAD_SHAPES`, `HEAD_COLORS` and `BG_COLORS` are display options
  that no modelled rule reads.
- The game logic imports a `GRID_SIZE` that the constants file does not export (it exports
  `DEFAULT_GRID_SIZE`). One constant `GRID_SIZE = 20` serves both.

## Findings

| source | as written | input that shows it | evidently intended | confidence | as-written member | corrected member |
|---|---|---|---|---|---|---|
| src/utils/gameLogic.ts:25-39 | the extra wall next to a new wall is checked against the reserved cells only, not against the walls already placed | draws 5, 5, 0, 6, 5, 1, 1 with count 3: (5, 5) is placed alone, then (6, 5) with its left neighbour, which is (5, 5) again | generated walls are distinct | high (not executed) | GameLogic.RandomWallsDuplicate | GameLogic.RandomWallsNoDups |
| src/utils/gameLogic.ts:354-399 | the safety guard compares the Manhattan distance of wrapped coordinates with 40, which it never exceeds, so the loop relies on reaching an unblocked cell | snake [(0, 0)] moving right with the top two rows walled (the head's own cell included): every ray cell is blocked and has no free neighbour | the walk stops after at most one lap and falls back to the head | high (not executed) | GameLogic.DirectionalTrapNeverReturns | GameLogic.ExecuteDirectionalTeleport |

The React-era tests expect a 3-cell snake eating a mushroom to end with 6 cells
(react/snake-game-tests.ts:403). The step as written leaves 7, because the moved snake still
has its tail when it is doubled; SnakeGame.TickMushroomOutcome states the 7.
