/** Computer-controlled bots (src/utils/botLogic.ts, records from src/types/bot.ts): a
    time-gated step that picks a direction among the free neighbouring cells by the bot's
    type, collision with the snake's head, and spawning. Each `Math.random()` is an
    explicit draw; `Date.now()` is a parameter. Distances are compared squared. */
module BotLogic {
  import opened Grid

  datatype BotType = Wanderer | Chaser | Guard | Patrol | RandomWalker

  /** `Bot`. `speed` and `size` are in tenths of a cell (0.7 is 7); the optional fields
      are None where the source leaves them undefined. */
  datatype Bot = Bot(
    id: string, kind: BotType, x: int, y: int, direction: Pos,
    speed: int, color: string, size: int,
    lastMoveTime: int, moveInterval: int,
    targetPosition: Option<Pos>, patrolPoints: Option<seq<Pos>>, currentPatrolIndex: Option<int>,
    aggroRange: Option<int>, isActive: bool)
  {
    function At(): Pos {
      Pos(x, y)
    }
  }

  /** Up, right, down, left: the order in which moves are offered. */
  const DIRECTIONS: seq<Pos> := [Pos(0, -1), Pos(1, 0), Pos(0, 1), Pos(-1, 0)]

  /** The order in which `createBot` draws a type. */
  const BOT_TYPES: seq<BotType> := [Wanderer, Chaser, Guard, Patrol, RandomWalker]

  function Color(t: BotType): string {
    match t
    case Wanderer => "#ff6b6b"
    case Chaser => "#ffa500"
    case Guard => "#8b4513"
    case Patrol => "#4b0082"
    case RandomWalker => "#ff1493"
  }

  /** `getSpeedForType`, in tenths. */
  function SpeedFor(t: BotType): int {
    match t
    case Wanderer => 7
    case Chaser => 12
    case Guard => 5
    case Patrol => 8
    case RandomWalker => 10
  }

  /** `getMoveIntervalForType`, in milliseconds. */
  function MoveIntervalFor(t: BotType): int {
    match t
    case Wanderer => 800
    case Chaser => 600
    case Guard => 1000
    case Patrol => 700
    case RandomWalker => 500
  }

  /** Every type waits a positive interval, the guard longest and the random walker
      shortest, and every type moves less than two cells per tick. */
  lemma TypeTables()
    ensures forall t: BotType :: 500 <= MoveIntervalFor(t) <= 1000 && 0 < SpeedFor(t) < 20
    ensures |BOT_TYPES| == 5 && forall i, j :: 0 <= i < j < |BOT_TYPES| ==> BOT_TYPES[i] != BOT_TYPES[j]
  {
  }

  /** A patrol index, when present with its waypoints, names one of them: otherwise the
      source reads an undefined waypoint and throws. */
  predicate WellFormed(bot: Bot) {
    bot.patrolPoints.Some? && bot.currentPatrolIndex.Some? ==>
      0 <= bot.currentPatrolIndex.value < |bot.patrolPoints.value|
  }

  // ---------------------------------------------------------------------------
  // Geometry

  /** `getDistance(a, b) <= range`, decided on squared distances. */
  predicate DistanceAtMost(a: Pos, b: Pos, range: int) {
    range >= 0 && Dist2(a, b) <= range * range
  }

  /** `getDirectionTowards`: one step along the axis with the larger gap; ties go to the
      y axis, and a zero gap steps up. */
  function GetDirectionTowards(from: Pos, to: Pos): (d: Pos)
    ensures IsUnit(d)
    ensures d.x != 0 <==> Abs(to.x - from.x) > Abs(to.y - from.y)
    ensures from != to ==> Manhattan(Add(from, d), to) + 1 == Manhattan(from, to)
    ensures from == to ==> d == Pos(0, -1)
  {
    var dx := to.x - from.x;
    var dy := to.y - from.y;
    if Abs(dx) > Abs(dy) then Pos(if dx > 0 then 1 else -1, 0)
    else Pos(0, if dy > 0 then 1 else -1)
  }

  /** `isValidPosition`: on the board and not an obstacle. */
  function IsValidPosition(p: Pos, gridSize: int, obstacles: seq<Pos>): (ok: bool)
    ensures ok <==> 0 <= p.x < gridSize && 0 <= p.y < gridSize && p !in obstacles
  {
    if p.x < 0 || p.x >= gridSize || p.y < 0 || p.y >= gridSize then false
    else !Occupied(obstacles, p)
  }

  /** The directions of `ds` whose target from `from` is a valid position, in order. */
  function ValidAmong(ds: seq<Pos>, from: Pos, gridSize: int, obstacles: seq<Pos>): (r: seq<Pos>)
    ensures |r| <= |ds|
    ensures forall d :: d in r <==> d in ds && IsValidPosition(Add(from, d), gridSize, obstacles)
  {
    if |ds| == 0 then []
    else
      var last := ds[|ds| - 1];
      assert forall d :: d in ds <==> d in ds[..|ds| - 1] || d == last;
      ValidAmong(ds[..|ds| - 1], from, gridSize, obstacles)
        + (if IsValidPosition(Add(from, last), gridSize, obstacles) then [last] else [])
  }

  /** `[d]` when stepping along `d` from `from` is valid, `[]` otherwise. */
  function Keep(d: Pos, from: Pos, gridSize: int, obstacles: seq<Pos>): seq<Pos> {
    if IsValidPosition(Add(from, d), gridSize, obstacles) then [d] else []
  }

  /** The valid moves are the valid directions in the order up, right, down, left. */
  lemma ValidMovesInOrder(from: Pos, gridSize: int, obstacles: seq<Pos>)
    ensures ValidAmong(DIRECTIONS, from, gridSize, obstacles)
              == Keep(Pos(0, -1), from, gridSize, obstacles) + Keep(Pos(1, 0), from, gridSize, obstacles)
               + Keep(Pos(0, 1), from, gridSize, obstacles) + Keep(Pos(-1, 0), from, gridSize, obstacles)
  {
    var d1 := [Pos(0, -1)];
    var d2 := d1 + [Pos(1, 0)];
    var d3 := d2 + [Pos(0, 1)];
    assert d2[..1] == d1 && d3[..2] == d2 && DIRECTIONS[..3] == d3;
    assert ValidAmong(d1, from, gridSize, obstacles) == Keep(Pos(0, -1), from, gridSize, obstacles);
    assert ValidAmong(d2, from, gridSize, obstacles) == ValidAmong(d1, from, gridSize, obstacles) + Keep(Pos(1, 0), from, gridSize, obstacles);
    assert ValidAmong(d3, from, gridSize, obstacles) == ValidAmong(d2, from, gridSize, obstacles) + Keep(Pos(0, 1), from, gridSize, obstacles);
    assert ValidAmong(DIRECTIONS, from, gridSize, obstacles) == ValidAmong(d3, from, gridSize, obstacles) + Keep(Pos(-1, 0), from, gridSize, obstacles);
  }

  /** `getValidMoves`: walks DIRECTIONS and keeps the valid targets. */
  method GetValidMoves(bot: Bot, gridSize: int, obstacles: seq<Pos>) returns (validMoves: seq<Pos>)
    ensures validMoves == ValidAmong(DIRECTIONS, bot.At(), gridSize, obstacles)
  {
    validMoves := [];
    for i := 0 to |DIRECTIONS|
      invariant validMoves == ValidAmong(DIRECTIONS[..i], bot.At(), gridSize, obstacles)
    {
      var direction := DIRECTIONS[i];
      var newPosition := Pos(bot.x + direction.x, bot.y + direction.y);
      assert DIRECTIONS[..i + 1][..i] == DIRECTIONS[..i];
      if IsValidPosition(newPosition, gridSize, obstacles) {
        validMoves := validMoves + [direction];
      }
    }
    assert DIRECTIONS[..|DIRECTIONS|] == DIRECTIONS;
  }

  /** The `reduce` that finds the nearest player: a later player replaces the one kept only
      when strictly closer. */
  function Nearest(from: Pos, players: seq<Pos>): (r: Pos)
    requires |players| > 0
    ensures r in players
    ensures forall q :: q in players ==> Dist2(from, r) <= Dist2(from, q)
  {
    if |players| == 1 then
      players[0]
    else
      var init := players[..|players| - 1];
      var player := players[|players| - 1];
      assert forall q :: q in players <==> q in init || q == player;
      var nearest := Nearest(from, init);
      if Dist2(from, player) < Dist2(from, nearest) then player else nearest
  }

  /** Ties keep the earlier player: the nearest is the first player at the least distance. */
  lemma {:induction false} NearestIsFirst(from: Pos, players: seq<Pos>)
    requires |players| > 0
    ensures exists i :: 0 <= i < |players| && players[i] == Nearest(from, players)
                        && forall j :: 0 <= j < i ==> Dist2(from, players[j]) > Dist2(from, Nearest(from, players))
  {
    var r := Nearest(from, players);
    if |players| == 1 {
      assert players[0] == r;
    } else {
      var init := players[..|players| - 1];
      var last := |players| - 1;
      NearestIsFirst(from, init);
      var nearest := Nearest(from, init);
      var i :| 0 <= i < |init| && init[i] == nearest && forall j :: 0 <= j < i ==> Dist2(from, init[j]) > Dist2(from, nearest);
      assert forall j :: 0 <= j < last ==> players[j] == init[j];
      if Dist2(from, players[last]) < Dist2(from, nearest) {
        assert r == players[last];
        forall j | 0 <= j < last
          ensures Dist2(from, players[j]) > Dist2(from, r)
        {
          assert players[j] in init;
        }
        assert 0 <= last < |players| && players[last] == r && forall j :: 0 <= j < last ==> Dist2(from, players[j]) > Dist2(from, r);
      } else {
        assert r == nearest;
        assert 0 <= i < |players| && players[i] == r && forall j :: 0 <= j < i ==> Dist2(from, players[j]) > Dist2(from, r);
      }
    }
  }

  /** `validMoves.find(m => m equals ideal) || validMoves[random index]`. */
  function Prefer(ideal: Pos, moves: seq<Pos>, pick: nat): (d: Pos)
    requires |moves| > 0
    ensures d in moves
    ensures ideal in moves ==> d == ideal
  {
    if Occupied(moves, ideal) then ideal else moves[pick % |moves|]
  }

  // ---------------------------------------------------------------------------
  // The bot step

  /** The direction a bot of each type takes among `moves` (non-empty). */
  function Choose(bot: Bot, players: seq<Pos>, moves: seq<Pos>, pick: nat, coin: nat): (d: Pos)
    requires |moves| > 0 && WellFormed(bot)
    ensures d in moves
  {
    var random := moves[pick % |moves|];
    match bot.kind
    case Wanderer => random
    case Chaser =>
      if bot.aggroRange.Some? && bot.aggroRange.value != 0 && |players| > 0 then
        var nearest := Nearest(bot.At(), players);
        if DistanceAtMost(bot.At(), nearest, bot.aggroRange.value) then
          Prefer(GetDirectionTowards(bot.At(), nearest), moves, pick)
        else random
      else random
    case Guard =>
      if bot.targetPosition.Some? && !DistanceAtMost(bot.At(), bot.targetPosition.value, 3) then
        Prefer(GetDirectionTowards(bot.At(), bot.targetPosition.value), moves, pick)
      else random
    case Patrol =>
      if bot.patrolPoints.Some? && bot.currentPatrolIndex.Some? then
        var target := bot.patrolPoints.value[bot.currentPatrolIndex.value];
        if DistanceAtMost(bot.At(), target, 1) then random
        else Prefer(GetDirectionTowards(bot.At(), target), moves, pick)
      else random
    case RandomWalker =>
      if coin % 10 < 3 then random else Prefer(bot.direction, moves, pick)
  }

  /** The patrol index after a move: advanced, cyclically, once the waypoint is reached. */
  function NextPatrolIndex(bot: Bot): Option<int>
    requires WellFormed(bot)
  {
    if bot.kind == Patrol && bot.patrolPoints.Some? && bot.currentPatrolIndex.Some?
       && DistanceAtMost(bot.At(), bot.patrolPoints.value[bot.currentPatrolIndex.value], 1)
    then Some((bot.currentPatrolIndex.value + 1) % |bot.patrolPoints.value|)
    else bot.currentPatrolIndex
  }

  /** The bot `updateBot` returns; `pick` is the index draw and `coin` the random walker's
      draw in tenths. */
  function BotStep(bot: Bot, currentTime: int, gridSize: int, players: seq<Pos>, obstacles: seq<Pos>,
                   pick: nat, coin: nat): Bot
    requires WellFormed(bot)
  {
    if !bot.isActive || currentTime - bot.lastMoveTime < bot.moveInterval then bot
    else
      var moves := ValidAmong(DIRECTIONS, bot.At(), gridSize, obstacles);
      if |moves| == 0 then bot.(direction := DIRECTIONS[pick % |DIRECTIONS|])
      else
        var d := Choose(bot, players, moves, pick, coin);
        bot.(direction := d, x := bot.x + d.x, y := bot.y + d.y, lastMoveTime := currentTime,
             currentPatrolIndex := NextPatrolIndex(bot))
  }

  function Clamp(lo: int, hi: int, v: int): int {
    if v < lo then lo else if v > hi then hi else v
  }

  /** The `switch (bot.type)` of `updateBot`: the direction taken among `validMoves`, and
      the patrol index the bot carries on with. */
  method ChooseMove(bot: Bot, players: seq<Pos>, validMoves: seq<Pos>, pick: nat, coin: nat)
    returns (newDirection: Pos, patrolIndex: Option<int>)
    requires |validMoves| > 0 && WellFormed(bot)
    ensures newDirection == Choose(bot, players, validMoves, pick, coin)
    ensures patrolIndex == NextPatrolIndex(bot)
  {
    patrolIndex := bot.currentPatrolIndex;
    newDirection := validMoves[pick % |validMoves|];
    match bot.kind {
      case Wanderer =>
      case Chaser =>
        if bot.aggroRange.Some? && bot.aggroRange.value != 0 && |players| > 0 {
          var nearestPlayer := Nearest(bot.At(), players);
          if DistanceAtMost(bot.At(), nearestPlayer, bot.aggroRange.value) {
            newDirection := Prefer(GetDirectionTowards(bot.At(), nearestPlayer), validMoves, pick);
          }
        }
      case Guard =>
        if bot.targetPosition.Some? && !DistanceAtMost(bot.At(), bot.targetPosition.value, 3) {
          newDirection := Prefer(GetDirectionTowards(bot.At(), bot.targetPosition.value), validMoves, pick);
        }
      case Patrol =>
        if bot.patrolPoints.Some? && bot.currentPatrolIndex.Some? {
          var currentTarget := bot.patrolPoints.value[bot.currentPatrolIndex.value];
          if DistanceAtMost(bot.At(), currentTarget, 1) {
            patrolIndex := Some((bot.currentPatrolIndex.value + 1) % |bot.patrolPoints.value|);
          } else {
            newDirection := Prefer(GetDirectionTowards(bot.At(), currentTarget), validMoves, pick);
          }
        }
      case RandomWalker =>
        if coin % 10 >= 3 {
          newDirection := Prefer(bot.direction, validMoves, pick);
        }
    }
  }

  /** `updateBot`: the gate, the trapped case, the choice, the move and the clamp (which,
      the move being valid, never changes anything). */
  method UpdateBot(bot: Bot, currentTime: int, gridSize: int, players: seq<Pos>, obstacles: seq<Pos>,
                   pick: nat, coin: nat) returns (updated: Bot)
    requires WellFormed(bot)
    ensures updated == BotStep(bot, currentTime, gridSize, players, obstacles, pick, coin)
  {
    if !bot.isActive || currentTime - bot.lastMoveTime < bot.moveInterval {
      return bot;
    }
    updated := bot;
    var validMoves := GetValidMoves(bot, gridSize, obstacles);
    if |validMoves| == 0 {
      updated := updated.(direction := DIRECTIONS[pick % |DIRECTIONS|]);
      return;
    }
    var newDirection, patrolIndex := ChooseMove(bot, players, validMoves, pick, coin);
    updated := updated.(currentPatrolIndex := patrolIndex);
    updated := updated.(direction := newDirection, x := bot.x + newDirection.x, y := bot.y + newDirection.y,
                        lastMoveTime := currentTime);
    assert IsValidPosition(updated.At(), gridSize, obstacles);
    updated := updated.(x := Clamp(0, gridSize - 1, updated.x), y := Clamp(0, gridSize - 1, updated.y));
  }

  /** An inactive bot, or one whose interval has not elapsed, is returned unchanged. */
  lemma BotStepGate(bot: Bot, currentTime: int, gridSize: int, players: seq<Pos>, obstacles: seq<Pos>, pick: nat, coin: nat)
    requires WellFormed(bot)
    requires !bot.isActive || currentTime - bot.lastMoveTime < bot.moveInterval
    ensures BotStep(bot, currentTime, gridSize, players, obstacles, pick, coin) == bot
  {
  }

  /** A due bot with no valid move stays put, keeps its clock, and only turns to one of
      the four directions. */
  lemma BotStepTrapped(bot: Bot, currentTime: int, gridSize: int, players: seq<Pos>, obstacles: seq<Pos>, pick: nat, coin: nat)
    requires WellFormed(bot)
    requires bot.isActive && currentTime - bot.lastMoveTime >= bot.moveInterval
    requires ValidAmong(DIRECTIONS, bot.At(), gridSize, obstacles) == []
    ensures var r := BotStep(bot, currentTime, gridSize, players, obstacles, pick, coin);
            r == bot.(direction := r.direction) && r.direction in DIRECTIONS
  {
  }

  /** A due bot with a valid move takes one: it moves one cell along a valid direction onto
      a board cell that is not an obstacle, stamps the clock, and changes nothing else but
      its patrol index. */
  lemma BotStepMoves(bot: Bot, currentTime: int, gridSize: int, players: seq<Pos>, obstacles: seq<Pos>, pick: nat, coin: nat)
    requires WellFormed(bot)
    requires bot.isActive && currentTime - bot.lastMoveTime >= bot.moveInterval
    requires ValidAmong(DIRECTIONS, bot.At(), gridSize, obstacles) != []
    ensures var r := BotStep(bot, currentTime, gridSize, players, obstacles, pick, coin);
            && r.direction in ValidAmong(DIRECTIONS, bot.At(), gridSize, obstacles)
            && IsUnit(r.direction) && r.At() == Add(bot.At(), r.direction)
            && 0 <= r.x < gridSize && 0 <= r.y < gridSize && r.At() !in obstacles
            && r == bot.(direction := r.direction, x := r.x, y := r.y, lastMoveTime := currentTime,
                         currentPatrolIndex := r.currentPatrolIndex)
  {
  }

  /** A chaser whose nearest player is within its aggro range heads for that player
      whenever the step is a valid move, and then closes the Manhattan gap by one. */
  lemma ChaserPursues(bot: Bot, currentTime: int, gridSize: int, players: seq<Pos>, obstacles: seq<Pos>, pick: nat, coin: nat)
    requires WellFormed(bot) && bot.kind == Chaser
    requires bot.isActive && currentTime - bot.lastMoveTime >= bot.moveInterval
    requires bot.aggroRange.Some? && bot.aggroRange.value != 0 && |players| > 0
    requires DistanceAtMost(bot.At(), Nearest(bot.At(), players), bot.aggroRange.value)
    requires GetDirectionTowards(bot.At(), Nearest(bot.At(), players)) in ValidAmong(DIRECTIONS, bot.At(), gridSize, obstacles)
    ensures var r := BotStep(bot, currentTime, gridSize, players, obstacles, pick, coin);
            var target := Nearest(bot.At(), players);
            && r.direction == GetDirectionTowards(bot.At(), target)
            && (bot.At() != target ==> Manhattan(r.At(), target) + 1 == Manhattan(bot.At(), target))
  {
    var moves := ValidAmong(DIRECTIONS, bot.At(), gridSize, obstacles);
    var ideal := GetDirectionTowards(bot.At(), Nearest(bot.At(), players));
    assert |moves| > 0;
    assert Choose(bot, players, moves, pick, coin) == ideal;
  }

  /** A guard more than 3 cells from home heads back whenever the step is a valid move,
      and then closes the Manhattan gap by one. */
  lemma GuardReturns(bot: Bot, currentTime: int, gridSize: int, players: seq<Pos>, obstacles: seq<Pos>, pick: nat, coin: nat)
    requires WellFormed(bot) && bot.kind == Guard
    requires bot.isActive && currentTime - bot.lastMoveTime >= bot.moveInterval
    requires bot.targetPosition.Some? && Dist2(bot.At(), bot.targetPosition.value) > 9
    requires GetDirectionTowards(bot.At(), bot.targetPosition.value) in ValidAmong(DIRECTIONS, bot.At(), gridSize, obstacles)
    ensures var r := BotStep(bot, currentTime, gridSize, players, obstacles, pick, coin);
            var home := bot.targetPosition.value;
            && r.direction == GetDirectionTowards(bot.At(), home)
            && Manhattan(r.At(), home) + 1 == Manhattan(bot.At(), home)
  {
    var home := bot.targetPosition.value;
    var moves := ValidAmong(DIRECTIONS, bot.At(), gridSize, obstacles);
    var ideal := GetDirectionTowards(bot.At(), home);
    assert |moves| > 0;
    Dist2Self(bot.At());
    assert bot.At() != home;
    assert Choose(bot, players, moves, pick, coin) == ideal;
  }

  /** A patrol bot advances its index cyclically once within distance 1 of its waypoint,
      keeps it otherwise, and the index stays within the waypoint list. */
  lemma BotStepPatrol(bot: Bot, currentTime: int, gridSize: int, players: seq<Pos>, obstacles: seq<Pos>, pick: nat, coin: nat)
    requires WellFormed(bot)
    requires bot.kind == Patrol && bot.patrolPoints.Some? && bot.currentPatrolIndex.Some?
    requires bot.isActive && currentTime - bot.lastMoveTime >= bot.moveInterval
    requires |ValidAmong(DIRECTIONS, bot.At(), gridSize, obstacles)| > 0
    ensures var r := BotStep(bot, currentTime, gridSize, players, obstacles, pick, coin);
            var i := bot.currentPatrolIndex.value;
            var points := bot.patrolPoints.value;
            && (Dist2(bot.At(), points[i]) <= 1 ==> r.currentPatrolIndex == Some(if i + 1 == |points| then 0 else i + 1))
            && (Dist2(bot.At(), points[i]) > 1 ==> r.currentPatrolIndex == Some(i))
            && WellFormed(r)
  {
    var i := bot.currentPatrolIndex.value;
    var points := bot.patrolPoints.value;
    var r := BotStep(bot, currentTime, gridSize, players, obstacles, pick, coin);
    assert r.currentPatrolIndex == NextPatrolIndex(bot);
    NextIndexWraps(i, |points|);
  }

  lemma NextIndexWraps(i: int, n: int)
    requires 0 <= i < n
    ensures (i + 1) % n == if i + 1 == n then 0 else i + 1
  {
    if i + 1 == n {
      assert (i + 1) % n == n % n == 0;
    }
  }

  /** Every step keeps a bot well formed. */
  lemma BotStepWellFormed(bot: Bot, currentTime: int, gridSize: int, players: seq<Pos>, obstacles: seq<Pos>, pick: nat, coin: nat)
    requires WellFormed(bot)
    ensures WellFormed(BotStep(bot, currentTime, gridSize, players, obstacles, pick, coin))
  {
  }

  /** `updateAllBots`: every bot stepped with its own draws. */
  method UpdateAllBots(bots: seq<Bot>, currentTime: int, gridSize: int, players: seq<Pos>, obstacles: seq<Pos>,
                       picks: nat -> nat, coins: nat -> nat) returns (updated: seq<Bot>)
    requires forall i :: 0 <= i < |bots| ==> WellFormed(bots[i])
    ensures |updated| == |bots|
    ensures forall i :: 0 <= i < |bots| ==>
              updated[i] == BotStep(bots[i], currentTime, gridSize, players, obstacles, picks(i), coins(i))
              && updated[i].id == bots[i].id && WellFormed(updated[i])
  {
    updated := [];
    for i := 0 to |bots|
      invariant |updated| == i
      invariant forall k :: 0 <= k < i ==>
                  updated[k] == BotStep(bots[k], currentTime, gridSize, players, obstacles, picks(k), coins(k))
                  && updated[k].id == bots[k].id && WellFormed(updated[k])
    {
      var next := UpdateBot(bots[i], currentTime, gridSize, players, obstacles, picks(i), coins(i));
      BotStepWellFormed(bots[i], currentTime, gridSize, players, obstacles, picks(i), coins(i));
      updated := updated + [next];
    }
  }

  // ---------------------------------------------------------------------------
  // Collisions

  /** `checkBotCollisions`: some active bot stands on the head. */
  function CheckBotCollisions(head: Pos, bots: seq<Bot>): (hit: bool)
    ensures hit <==> exists i :: 0 <= i < |bots| && bots[i].isActive && bots[i].At() == head
  {
    if |bots| == 0 then false
    else if bots[0].isActive && bots[0].x == head.x && bots[0].y == head.y then true
    else
      assert forall i :: 1 <= i < |bots| ==> bots[i] == bots[1..][i - 1];
      CheckBotCollisions(head, bots[1..])
  }

  /** Deactivating every bot clears all collisions. */
  lemma InactiveBotsHarmless(head: Pos, bots: seq<Bot>)
    requires forall i :: 0 <= i < |bots| ==> !bots[i].isActive
    ensures !CheckBotCollisions(head, bots)
  {
  }

  // ---------------------------------------------------------------------------
  // Spawning

  /** The draws one `createBot` call consumes: the type, the spawn attempts (attempt t uses
      2t and 2t + 1), the direction, and the patrol waypoints (0 for their number, 2i + 1
      and 2i + 2 for waypoint i). */
  datatype BotDraws = BotDraws(kind: nat, spawn: nat -> nat, direction: nat, patrol: nat -> nat)

  function SpawnCandidate(gridSize: int, draw: nat -> nat, t: nat): (p: Pos)
    requires gridSize > 0
    ensures 0 <= p.x < gridSize && 0 <= p.y < gridSize
  {
    Pos(draw(2 * t) % gridSize, draw(2 * t + 1) % gridSize)
  }

  /** The spawn cell from attempt `t` on: the first free candidate, or the 50th candidate
      when all 50 were taken. */
  function SpawnFrom(gridSize: int, existing: seq<Pos>, draw: nat -> nat, t: nat): Pos
    requires gridSize > 0 && t < 50
    decreases 50 - t
  {
    if t == 49 || SpawnCandidate(gridSize, draw, t) !in existing then SpawnCandidate(gridSize, draw, t)
    else SpawnFrom(gridSize, existing, draw, t + 1)
  }

  /** The spawn cell is on the board, and it is free unless every one of the 50 attempts
      drew a taken cell. */
  lemma {:induction false} SpawnFromSpec(gridSize: int, existing: seq<Pos>, draw: nat -> nat, t: nat)
    requires gridSize > 0 && t < 50
    ensures var p := SpawnFrom(gridSize, existing, draw, t);
            && 0 <= p.x < gridSize && 0 <= p.y < gridSize
            && (p !in existing || forall s :: t <= s < 50 ==> SpawnCandidate(gridSize, draw, s) in existing)
    decreases 50 - t
  {
    if t < 49 && SpawnCandidate(gridSize, draw, t) in existing {
      SpawnFromSpec(gridSize, existing, draw, t + 1);
    }
  }

  /** The `do ... while` spawn loop of `createBot`. */
  method FindSpawn(gridSize: int, existing: seq<Pos>, draw: nat -> nat) returns (position: Pos)
    requires gridSize > 0
    ensures position == SpawnFrom(gridSize, existing, draw, 0)
  {
    var attempts := 0;
    var maxAttempts := 50;
    while true
      invariant 0 <= attempts < maxAttempts
      invariant SpawnFrom(gridSize, existing, draw, 0) == SpawnFrom(gridSize, existing, draw, attempts)
      decreases maxAttempts - attempts
    {
      position := SpawnCandidate(gridSize, draw, attempts);
      attempts := attempts + 1;
      if !(attempts < maxAttempts && Occupied(existing, position)) {
        break;
      }
    }
  }

  function PatrolPoint(gridSize: int, draw: nat -> nat, i: nat): (p: Pos)
    requires gridSize > 0
    ensures 0 <= p.x < gridSize && 0 <= p.y < gridSize
  {
    Pos(draw(2 * i + 1) % gridSize, draw(2 * i + 2) % gridSize)
  }

  /** `generatePatrolPoints`: 3 to 5 waypoints on the board. */
  method GeneratePatrolPoints(gridSize: int, draw: nat -> nat) returns (points: seq<Pos>)
    requires gridSize > 0
    ensures |points| == draw(0) % 3 + 3 && 3 <= |points| <= 5
    ensures forall i :: 0 <= i < |points| ==> points[i] == PatrolPoint(gridSize, draw, i)
    ensures forall i :: 0 <= i < |points| ==> 0 <= points[i].x < gridSize && 0 <= points[i].y < gridSize
  {
    points := [];
    var numPoints := draw(0) % 3 + 3;
    for i := 0 to numPoints
      invariant |points| == i
      invariant forall k :: 0 <= k < i ==> points[k] == PatrolPoint(gridSize, draw, k)
    {
      points := points + [PatrolPoint(gridSize, draw, i)];
    }
  }

  /** `createBot`: a drawn type on a spawn cell, facing a drawn direction, with the type's
      speed, colour and interval, stamped `now`, active, and with its type-specific fields. */
  method CreateBot(id: string, gridSize: int, existing: seq<Pos>, draws: BotDraws, now: int) returns (bot: Bot)
    requires gridSize > 0
    ensures bot.id == id && bot.kind == BOT_TYPES[draws.kind % |BOT_TYPES|]
    ensures bot.At() == SpawnFrom(gridSize, existing, draws.spawn, 0)
    ensures bot.direction == DIRECTIONS[draws.direction % |DIRECTIONS|]
    ensures bot.speed == SpeedFor(bot.kind) && bot.color == Color(bot.kind) && bot.size == 8
    ensures bot.moveInterval == MoveIntervalFor(bot.kind) && bot.lastMoveTime == now && bot.isActive
    ensures bot.kind == Patrol ==>
              && bot.patrolPoints.Some? && 3 <= |bot.patrolPoints.value| <= 5
              && (forall i :: 0 <= i < |bot.patrolPoints.value| ==>
                    0 <= bot.patrolPoints.value[i].x < gridSize && 0 <= bot.patrolPoints.value[i].y < gridSize)
              && bot.currentPatrolIndex == Some(0)
              && bot.aggroRange.None? && bot.targetPosition.None?
    ensures bot.kind == Guard ==>
              bot.aggroRange == Some(4) && bot.targetPosition == Some(bot.At())
              && bot.patrolPoints.None? && bot.currentPatrolIndex.None?
    ensures bot.kind == Chaser ==>
              bot.aggroRange == Some(6) && bot.targetPosition.None? && bot.patrolPoints.None? && bot.currentPatrolIndex.None?
    ensures bot.kind in {Wanderer, RandomWalker} ==>
              bot.aggroRange.None? && bot.targetPosition.None? && bot.patrolPoints.None? && bot.currentPatrolIndex.None?
    ensures WellFormed(bot)
  {
    var kind := BOT_TYPES[draws.kind % |BOT_TYPES|];
    var position := FindSpawn(gridSize, existing, draws.spawn);
    bot := Bot(id, kind, position.x, position.y, DIRECTIONS[draws.direction % |DIRECTIONS|],
               SpeedFor(kind), Color(kind), 8, now, MoveIntervalFor(kind), None, None, None, None, true);
    if kind == Patrol {
      var points := GeneratePatrolPoints(gridSize, draws.patrol);
      bot := bot.(patrolPoints := Some(points), currentPatrolIndex := Some(0));
    } else if kind == Guard {
      bot := bot.(aggroRange := Some(4), targetPosition := Some(position));
    } else if kind == Chaser {
      bot := bot.(aggroRange := Some(6));
    }
  }

  /** Decimal digits of `n`: the `${i}` of a bot id. */
  function Decimal(n: nat): (s: string)
    ensures |s| > 0 && forall k :: 0 <= k < |s| ==> '0' <= s[k] <= '9'
  {
    if n < 10 then [Digit(n)] else Decimal(n / 10) + [Digit(n % 10)]
  }

  function Digit(d: nat): (c: char)
    requires d < 10
    ensures '0' <= c <= '9'
  {
    "0123456789"[d]
  }

  /** A number of two or more digits prints as its tenth followed by its last digit. */
  lemma DecimalShape(n: nat)
    ensures n < 10 ==> Decimal(n) == [Digit(n)]
    ensures n >= 10 ==> |Decimal(n)| >= 2 && Decimal(n) == Decimal(n / 10) + [Digit(n % 10)]
  {
  }

  lemma DigitInjective(d: nat, e: nat)
    requires d < 10 && e < 10 && Digit(d) == Digit(e)
    ensures d == e
  {
  }

  /** Different numbers print differently, so the bot ids are distinct. */
  lemma {:induction false} DecimalInjective(a: nat, b: nat)
    requires Decimal(a) == Decimal(b)
    ensures a == b
    decreases a
  {
    DecimalShape(a);
    DecimalShape(b);
    var s := Decimal(a);
    assert s[|s| - 1] == Digit(a % 10);
    assert Decimal(b)[|Decimal(b)| - 1] == Digit(b % 10);
    DigitInjective(a % 10, b % 10);
    if a >= 10 && b >= 10 {
      assert Decimal(a / 10) == s[..|s| - 1] == Decimal(b / 10);
      DecimalInjective(a / 10, b / 10);
    }
  }

  function Cells(bots: seq<Bot>): (r: seq<Pos>)
    ensures |r| == |bots| && forall i :: 0 <= i < |bots| ==> r[i] == bots[i].At()
  {
    seq(|bots|, i requires 0 <= i < |bots| => bots[i].At())
  }

  /** The first |bots| bots `initializeBots` makes: ids bot-0, bot-1, ..., active, well
      formed, each spawned against the given positions and the bots before it. */
  predicate Initialized(bots: seq<Bot>, gridSize: int, existing: seq<Pos>, draws: nat -> BotDraws)
    requires gridSize > 0
  {
    forall k {:trigger bots[k]} :: 0 <= k < |bots| ==>
      && bots[k].id == "bot-" + Decimal(k) && bots[k].isActive && WellFormed(bots[k])
      && bots[k].At() == SpawnFrom(gridSize, existing + Cells(bots[..k]), draws(k).spawn, 0)
  }

  lemma InitializedSnoc(bots: seq<Bot>, bot: Bot, gridSize: int, existing: seq<Pos>, draws: nat -> BotDraws)
    requires gridSize > 0 && Initialized(bots, gridSize, existing, draws)
    requires bot.id == "bot-" + Decimal(|bots|) && bot.isActive && WellFormed(bot)
    requires bot.At() == SpawnFrom(gridSize, existing + Cells(bots), draws(|bots|).spawn, 0)
    ensures Initialized(bots + [bot], gridSize, existing, draws)
  {
    var all := bots + [bot];
    forall k | 0 <= k < |all|
      ensures && all[k].id == "bot-" + Decimal(k) && all[k].isActive && WellFormed(all[k])
              && all[k].At() == SpawnFrom(gridSize, existing + Cells(all[..k]), draws(k).spawn, 0)
    {
      if k < |bots| {
        assert all[..k] == bots[..k];
        assert all[k] == bots[k];
      } else {
        assert all[..k] == bots;
      }
    }
  }

  /** `initializeBots`: `count` bots named bot-0, bot-1, ...; each spawns away from the
      given positions and the bots made before it (when a free cell was drawn). */
  method InitializeBots(count: int, gridSize: int, existing: seq<Pos>, draws: nat -> BotDraws, now: nat -> int)
    returns (bots: seq<Bot>)
    requires gridSize > 0
    ensures |bots| == if count > 0 then count else 0
    ensures Initialized(bots, gridSize, existing, draws)
    ensures forall i, j :: 0 <= i < j < |bots| ==> bots[i].id != bots[j].id
  {
    bots := [];
    var allPositions := existing;
    var i := 0;
    while i < count
      invariant i == |bots| && (if count > 0 then i <= count else i == 0)
      invariant allPositions == existing + Cells(bots)
      invariant Initialized(bots, gridSize, existing, draws)
    {
      var bot := CreateBot("bot-" + Decimal(i), gridSize, allPositions, draws(i), now(i));
      InitializedSnoc(bots, bot, gridSize, existing, draws);
      bots := bots + [bot];
      allPositions := allPositions + [bot.At()];
      i := i + 1;
    }
    forall i, j | 0 <= i < j < |bots|
      ensures bots[i].id != bots[j].id
    {
      BotIdsDistinct(i, j);
    }
  }

  lemma BotIdsDistinct(i: nat, j: nat)
    requires i != j
    ensures "bot-" + Decimal(i) != "bot-" + Decimal(j)
  {
    if "bot-" + Decimal(i) == "bot-" + Decimal(j) {
      assert Decimal(i) == ("bot-" + Decimal(i))[4..] == ("bot-" + Decimal(j))[4..] == Decimal(j);
      DecimalInjective(i, j);
    }
  }
}
