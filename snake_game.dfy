/** The React-era game step (react/snake-game-logic.ts): a pure tick that collides,
    moves, eats, scores and replaces food, with its helpers. The file keeps its own food
    table and its own rules; where they differ from the Vue-era primitives, see the
    Variants module. Every `Math.random()` is an explicit argument. */
module SnakeGame {
  import opened Grid

  /** A food item; `kind` is the string key the source looks up in FOOD_TYPES. */
  datatype Food = Food(pos: Pos, kind: string)

  /** The optional `effect` of a food kind. */
  datatype Effect = NoEffect | Double | Shrink

  /** Points, spawn rate in hundredths and effect of one kind. */
  datatype FoodKind = FoodKind(points: int, rate: int, effect: Effect)

  /** `FOOD_TYPES`, in insertion order. */
  const FOOD_TYPES: seq<(string, FoodKind)> := [
    ("apple", FoodKind(10, 25, NoEffect)),
    ("golden", FoodKind(50, 8, NoEffect)),
    ("berry", FoodKind(20, 15, NoEffect)),
    ("super", FoodKind(100, 4, NoEffect)),
    ("banana", FoodKind(15, 13, NoEffect)),
    ("cherry", FoodKind(25, 10, NoEffect)),
    ("watermelon", FoodKind(30, 7, NoEffect)),
    ("mushroom", FoodKind(5, 8, Double)),
    ("poison", FoodKind(-10, 10, Shrink))
  ]

  /** `FOOD_TYPES[name]`: None for a name with no entry. */
  function Lookup(table: seq<(string, FoodKind)>, name: string): (r: Option<FoodKind>)
    ensures r.Some? ==> (name, r.value) in table
    ensures r.None? <==> forall i :: 0 <= i < |table| ==> table[i].0 != name
  {
    if |table| == 0 then None
    else if table[0].0 == name then Some(table[0].1)
    else
      var r := Lookup(table[1..], name);
      assert forall i :: 1 <= i < |table| ==> table[i] == table[1..][i - 1];
      r
  }

  /** In a table with distinct keys a lookup finds the one entry of its key. */
  lemma {:induction false} LookupDistinct(table: seq<(string, FoodKind)>, i: nat)
    requires i < |table|
    requires forall a, b :: 0 <= a < b < |table| ==> table[a].0 != table[b].0
    ensures Lookup(table, table[i].0) == Some(table[i].1)
  {
    if i > 0 {
      assert table[i] == table[1..][i - 1];
      LookupDistinct(table[1..], i - 1);
    }
  }

  /** No key of FOOD_TYPES appears twice, so every entry is reachable by its key. */
  lemma LookupTable(i: nat)
    requires i < |FOOD_TYPES|
    ensures Lookup(FOOD_TYPES, FOOD_TYPES[i].0) == Some(FOOD_TYPES[i].1)
  {
    var initials := ['a', 'g', 'b', 's', 'b', 'c', 'w', 'm', 'p'];
    assert forall a :: 0 <= a < |FOOD_TYPES| ==> FOOD_TYPES[a].0[0] == initials[a];
    assert FOOD_TYPES[2].0[1] != FOOD_TYPES[4].0[1];
    LookupDistinct(FOOD_TYPES, i);
  }

  // ---------------------------------------------------------------------------
  // Moves and collisions

  /** `moveSnake`: new head in front, tail dropped; the length is kept. */
  method MoveSnake(snake: seq<Pos>, direction: Pos) returns (moved: seq<Pos>)
    requires |snake| > 0
    ensures |moved| == |snake|
    ensures moved[0] == Add(snake[0], direction)
    ensures moved[1..] == snake[..|snake| - 1]
  {
    moved := snake;
    var head := Add(moved[0], direction);
    moved := [head] + moved;
    moved := moved[..|moved| - 1];
  }

  /** `checkWallCollision`. */
  function CheckWallCollision(head: Pos): (hit: bool)
    ensures hit <==> !InGrid(head)
  {
    head.x < 0 || head.x >= GRID_SIZE || head.y < 0 || head.y >= GRID_SIZE
  }

  /** `checkSelfCollision`: the head against the later segments (false for an empty
      snake, whose slice is empty). */
  function CheckSelfCollision(snake: seq<Pos>): (hit: bool)
    ensures hit <==> exists k :: 1 <= k < |snake| && snake[k] == snake[0]
  {
    if |snake| == 0 then false
    else
      assert forall k :: 1 <= k < |snake| ==> snake[k] == snake[1..][k - 1];
      Occupied(snake[1..], snake[0])
  }

  /** A one-cell snake never collides with itself. */
  lemma SelfCollisionNeedsBody(snake: seq<Pos>)
    requires |snake| <= 1
    ensures !CheckSelfCollision(snake)
  {
  }

  /** `checkObstacleCollision`. */
  function CheckObstacleCollision(head: Pos, walls: seq<Pos>): (hit: bool)
    ensures hit <==> head in walls
  {
    Occupied(walls, head)
  }

  /** `checkFoodCollision` (`findIndex`): the least index of a food on the head, or -1. */
  function CheckFoodCollision(head: Pos, foods: seq<Food>): (r: int)
    ensures -1 <= r < |foods|
    ensures r == -1 <==> forall j :: 0 <= j < |foods| ==> foods[j].pos != head
    ensures r >= 0 ==> foods[r].pos == head && forall j :: 0 <= j < r ==> foods[j].pos != head
  {
    if |foods| == 0 then -1
    else if foods[0].pos == head then 0
    else
      var k := CheckFoodCollision(head, foods[1..]);
      assert forall j :: 1 <= j < |foods| ==> foods[j] == foods[1..][j - 1];
      if k == -1 then -1 else k + 1
  }

  // ---------------------------------------------------------------------------
  // Eating

  /** `eatRegularFood`: new head in front, tail kept. */
  method EatRegularFood(snake: seq<Pos>, direction: Pos) returns (grown: seq<Pos>)
    requires |snake| > 0
    ensures |grown| == |snake| + 1
    ensures grown[0] == Add(snake[0], direction) && grown[1..] == snake
  {
    grown := snake;
    var head := Add(grown[0], direction);
    grown := [head] + grown;
  }

  /** A snake of length n grown to 2n - 1 by copies of its last cell (empty stays empty). */
  function Doubled(snake: seq<Pos>): (r: seq<Pos>)
    ensures |snake| > 0 ==> |r| == 2 * |snake| - 1
    ensures |snake| == 0 ==> r == []
    ensures r[..|snake|] == snake
    ensures forall k :: |snake| <= k < |r| ==> r[k] == snake[|snake| - 1]
  {
    if |snake| == 0 then []
    else snake + seq(|snake| - 1, _ => snake[|snake| - 1])
  }

  /** `eatMushroom`: pushes copies of the last segment `length - 1` times. */
  method EatMushroom(snake: seq<Pos>) returns (grown: seq<Pos>)
    ensures grown == Doubled(snake)
  {
    grown := snake;
    var currentLength := |grown|;
    var i := 0;
    while i < currentLength - 1
      invariant 0 <= i <= if currentLength > 0 then currentLength - 1 else 0
      invariant |grown| == currentLength + i
      invariant grown[..currentLength] == snake
      invariant forall k :: currentLength <= k < |grown| ==> grown[k] == snake[currentLength - 1]
    {
      var lastSegment := grown[|grown| - 1];
      grown := grown + [lastSegment];
      i := i + 1;
    }
    assert grown == Doubled(snake);
  }

  /** The length poison leaves: two cells fewer, but never below 3 once above it. */
  function PoisonLength(n: nat): (r: nat)
    ensures r <= n && (n > 3 ==> r >= 3)
  {
    if n > 3 then (if n - 2 > 3 then n - 2 else 3) else n
  }

  function Poisoned(snake: seq<Pos>): (r: seq<Pos>)
    ensures |r| == PoisonLength(|snake|) && r == snake[..|r|]
  {
    snake[..PoisonLength(|snake|)]
  }

  /** `eatPoison`: pops the tail while the snake is longer than 3, at most twice. */
  method EatPoison(snake: seq<Pos>) returns (shrunk: seq<Pos>)
    ensures shrunk == Poisoned(snake)
  {
    shrunk := snake;
    var minLength := 3;
    if |shrunk| > minLength {
      shrunk := shrunk[..|shrunk| - 1];
      if |shrunk| > minLength {
        shrunk := shrunk[..|shrunk| - 1];
      }
    }
  }

  /** `calculateScoreChange`: the score plus the kind's points, floored at 0; an unknown
      kind leaves the score as it is. */
  function CalculateScoreChange(kind: string, currentScore: int): (r: int)
    ensures Lookup(FOOD_TYPES, kind).None? ==> r == currentScore
    ensures Lookup(FOOD_TYPES, kind).Some? ==>
              r >= 0 && r >= currentScore + Lookup(FOOD_TYPES, kind).value.points
              && (r == 0 || r == currentScore + Lookup(FOOD_TYPES, kind).value.points)
  {
    match Lookup(FOOD_TYPES, kind)
    case None => currentScore
    case Some(food) =>
      var newScore := currentScore + food.points;
      if 0 > newScore then 0 else newScore
  }

  // ---------------------------------------------------------------------------
  // Food generation

  /** The cell drawn on attempt `t` (draws 2t and 2t + 1). */
  function Candidate(draw: nat -> nat, t: nat): (p: Pos)
    ensures InGrid(p)
  {
    Pos(draw(2 * t) % GRID_SIZE, draw(2 * t + 1) % GRID_SIZE)
  }

  /** The first free candidate among attempts t .. 99, or None. */
  function FreeCandidate(occupied: seq<Pos>, draw: nat -> nat, t: nat): Option<Pos>
    decreases 100 - t
  {
    if t >= 100 then None
    else if Candidate(draw, t) !in occupied then Some(Candidate(draw, t))
    else FreeCandidate(occupied, draw, t + 1)
  }

  /** No position is found exactly when every remaining attempt draws an occupied cell. */
  lemma {:induction false} FreeCandidateNone(occupied: seq<Pos>, draw: nat -> nat, t: nat)
    ensures FreeCandidate(occupied, draw, t).None? <==> forall s :: t <= s < 100 ==> Candidate(draw, s) in occupied
    decreases 100 - t
  {
    if t < 100 && Candidate(draw, t) in occupied {
      FreeCandidateNone(occupied, draw, t + 1);
    }
  }

  /** A position found is free and is the cell of the first attempt that drew a free cell. */
  lemma {:induction false} FreeCandidateFirst(occupied: seq<Pos>, draw: nat -> nat, t: nat)
    requires FreeCandidate(occupied, draw, t).Some?
    ensures var p := FreeCandidate(occupied, draw, t).value;
            p !in occupied
            && exists s :: t <= s < 100 && p == Candidate(draw, s) && forall q :: t <= q < s ==> Candidate(draw, q) in occupied
    decreases 100 - t
  {
    if Candidate(draw, t) in occupied {
      FreeCandidateFirst(occupied, draw, t + 1);
      var p := FreeCandidate(occupied, draw, t).value;
      var s :| t + 1 <= s < 100 && p == Candidate(draw, s) && forall q :: t + 1 <= q < s ==> Candidate(draw, q) in occupied;
      assert forall q :: t <= q < s ==> Candidate(draw, q) in occupied;
    }
  }

  /** One attempt: a free cell is the answer, an occupied one passes to the next attempt. */
  lemma FreeCandidateStep(occupied: seq<Pos>, draw: nat -> nat, t: nat)
    requires t < 100
    ensures Candidate(draw, t) !in occupied ==> FreeCandidate(occupied, draw, t) == Some(Candidate(draw, t))
    ensures Candidate(draw, t) in occupied ==> FreeCandidate(occupied, draw, t) == FreeCandidate(occupied, draw, t + 1)
  {
  }

  /** `generateFoodPosition`: at most 100 attempts, null when all were occupied. */
  method GenerateFoodPosition(occupied: seq<Pos>, draw: nat -> nat) returns (r: Option<Pos>)
    ensures r == FreeCandidate(occupied, draw, 0)
  {
    var maxAttempts := 100;
    var attempts := 0;
    r := None;
    while attempts < maxAttempts
      invariant 0 <= attempts <= maxAttempts
      invariant FreeCandidate(occupied, draw, 0) == FreeCandidate(occupied, draw, attempts)
    {
      var position := Candidate(draw, attempts);
      FreeCandidateStep(occupied, draw, attempts);
      var isOccupied := Occupied(occupied, position);
      if !isOccupied {
        r := Some(position);
        break;
      }
      attempts := attempts + 1;
    }
  }

  /** Sum of the spawn rates of the first `n` kinds. */
  function Cumulative(n: nat): int
    requires n <= |FOOD_TYPES|
  {
    if n == 0 then 0 else Cumulative(n - 1) + FOOD_TYPES[n - 1].1.rate
  }

  lemma ReactRatesSum()
    ensures Cumulative(|FOOD_TYPES|) == 100
  {
    assert Cumulative(5) == 25 + 8 + 15 + 4 + 13;
    assert Cumulative(9) == 65 + 10 + 7 + 8 + 10;
  }

  /** The kind a draw `rand` (hundredths) selects from kind `i` on: the first whose
      running sum exceeds it, 'apple' after the last. */
  function KindAt(rand: int, i: nat): string
    requires i <= |FOOD_TYPES|
    decreases |FOOD_TYPES| - i
  {
    if i == |FOOD_TYPES| then "apple"
    else if rand < Cumulative(i + 1) then FOOD_TYPES[i].0
    else KindAt(rand, i + 1)
  }

  /** Every draw in [0, 1) selects the kind whose interval holds it; the 'apple' fallback
      is never what decides. */
  lemma {:induction false} KindAtInterval(rand: int, i: nat)
    requires i < |FOOD_TYPES| && Cumulative(i) <= rand < 100
    ensures exists j :: i <= j < |FOOD_TYPES| && KindAt(rand, i) == FOOD_TYPES[j].0
                        && Cumulative(j) <= rand < Cumulative(j + 1)
    decreases |FOOD_TYPES| - i
  {
    ReactRatesSum();
    if rand >= Cumulative(i + 1) {
      if i + 1 == |FOOD_TYPES| {
        assert false;
      }
      KindAtInterval(rand, i + 1);
    }
  }

  /** `determineFoodType`, with the draw `rateDraw % 100` in hundredths. */
  method DetermineFoodType(rateDraw: nat) returns (kind: string)
    ensures kind == KindAt(rateDraw % 100, 0)
  {
    var rand := rateDraw % 100;
    var cumulative := 0;
    var i := 0;
    while i < |FOOD_TYPES|
      invariant i <= |FOOD_TYPES| && cumulative == Cumulative(i)
      invariant KindAt(rand, 0) == KindAt(rand, i)
    {
      cumulative := cumulative + FOOD_TYPES[i].1.rate;
      if rand < cumulative {
        return FOOD_TYPES[i].0;
      }
      i := i + 1;
    }
    return "apple";
  }

  function Cells(foods: seq<Food>): (r: seq<Pos>)
    ensures |r| == |foods| && forall k :: 0 <= k < |foods| ==> r[k] == foods[k].pos
  {
    seq(|foods|, k requires 0 <= k < |foods| => foods[k].pos)
  }

  /** The food `generateFood` makes, if any. */
  function NewFood(snake: seq<Pos>, existingFoods: seq<Food>, walls: seq<Pos>, draw: nat -> nat, rateDraw: nat): Option<Food> {
    match FreeCandidate(snake + Cells(existingFoods) + walls, draw, 0)
    case None => None
    case Some(p) => Some(Food(p, KindAt(rateDraw % 100, 0)))
  }

  /** `generateFood`: a free cell off the snake, the foods and the walls, with a drawn kind. */
  method GenerateFood(snake: seq<Pos>, existingFoods: seq<Food>, walls: seq<Pos>, draw: nat -> nat, rateDraw: nat)
    returns (r: Option<Food>)
    ensures r == NewFood(snake, existingFoods, walls, draw, rateDraw)
  {
    var occupiedPositions := snake + Cells(existingFoods) + walls;
    var position := GenerateFoodPosition(occupiedPositions, draw);
    if position.None? {
      return None;
    }
    var kind := DetermineFoodType(rateDraw);
    return Some(Food(position.value, kind));
  }

  // ---------------------------------------------------------------------------
  // The game tick

  datatype TickResult = TickResult(snake: seq<Pos>, foods: seq<Food>, score: int, gameOver: bool, foodEaten: Option<string>)

  /** `foods.filter((_, index) => index !== k)`. */
  function RemoveAt(foods: seq<Food>, k: nat): (r: seq<Food>)
    requires k < |foods|
    ensures |r| == |foods| - 1
    ensures forall j :: 0 <= j < k ==> r[j] == foods[j]
    ensures forall j :: k <= j < |r| ==> r[j] == foods[j + 1]
  {
    foods[..k] + foods[k + 1..]
  }

  /** The tick's ending: on a hit the inputs come back unchanged with gameOver set. */
  predicate Hit(snake: seq<Pos>, newHead: Pos, walls: seq<Pos>) {
    CheckWallCollision(newHead) || CheckObstacleCollision(newHead, walls) || newHead in snake
  }

  /** The snake after eating a food with `effect`, from the moved snake (new head
      in front of the whole old body). */
  function Grow(moved: seq<Pos>, effect: Effect): (grown: seq<Pos>)
    requires |moved| > 0
  {
    if effect == Double then Doubled(moved)
    else if effect == Shrink then Poisoned(moved[..|moved| - 1])
    else moved
  }

  /** For a snake of n cells (moved has n + 1), a mushroom leaves 2n + 1 cells, poison the
      poison length of n and anything else n + 1; the cells kept are the moved snake's
      prefix, the cells added copies of its tail. */
  lemma GrowShape(moved: seq<Pos>, effect: Effect)
    requires |moved| > 0
    ensures var n := |moved| - 1;
            var grown := Grow(moved, effect);
            && |grown| == (if effect == Double then 2 * n + 1 else if effect == Shrink then PoisonLength(n) else n + 1)
            && grown[..Min(|grown|, n + 1)] == moved[..Min(|grown|, n + 1)]
            && forall k :: n + 1 <= k < |grown| ==> grown[k] == moved[n]
  {
  }

  /** The food list after the food at `k` was eaten: it goes, and a new one comes when a
      free cell was drawn. */
  function Replace(grown: seq<Pos>, foods: seq<Food>, k: nat, walls: seq<Pos>, draw: nat -> nat, rateDraw: nat): seq<Food>
    requires k < |foods|
  {
    var rest := RemoveAt(foods, k);
    match NewFood(grown, rest, walls, draw, rateDraw)
    case None => rest
    case Some(f) => rest + [f]
  }

  /** The eaten food is removed and at most one food is added, on a cell off the grown
      snake, the other foods and the walls. */
  lemma ReplaceSpec(grown: seq<Pos>, foods: seq<Food>, k: nat, walls: seq<Pos>, draw: nat -> nat, rateDraw: nat)
    requires k < |foods|
    ensures var r := Replace(grown, foods, k, walls, draw, rateDraw);
            var rest := RemoveAt(foods, k);
            r == rest || (|r| == |foods| && r[..|rest|] == rest && r[|rest|].pos !in grown + Cells(rest) + walls)
  {
    var rest := RemoveAt(foods, k);
    var f := NewFood(grown, rest, walls, draw, rateDraw);
    if f.Some? {
      FreeCandidateFirst(grown + Cells(rest) + walls, draw, 0);
      assert (rest + [f.value])[..|rest|] == rest;
    }
  }

  /** What `processGameTick` returns; None where it throws (an empty snake, or an eaten
      food whose kind has no FOOD_TYPES entry). */
  function Tick(snake: seq<Pos>, direction: Pos, foods: seq<Food>, walls: seq<Pos>, score: int,
                draw: nat -> nat, rateDraw: nat): Option<TickResult>
  {
    if |snake| == 0 then None
    else
      var newHead := Add(snake[0], direction);
      if Hit(snake, newHead, walls) then Some(TickResult(snake, foods, score, true, None))
      else
        var moved := [newHead] + snake;
        var k := CheckFoodCollision(newHead, foods);
        if k == -1 then Some(TickResult(moved[..|moved| - 1], foods, score, false, None))
        else
          match Lookup(FOOD_TYPES, foods[k].kind)
          case None => None
          case Some(props) =>
            var grown := Grow(moved, props.effect);
            Some(TickResult(grown, Replace(grown, foods, k, walls, draw, rateDraw),
                            CalculateScoreChange(foods[k].kind, score), false, Some(foods[k].kind)))
  }

  /** `processGameTick`: collide, move, eat, score, replace the eaten food. */
  method ProcessGameTick(snake: seq<Pos>, direction: Pos, foods: seq<Food>, walls: seq<Pos>, score: int,
                         draw: nat -> nat, rateDraw: nat) returns (r: Option<TickResult>)
    ensures r == Tick(snake, direction, foods, walls, score, draw, rateDraw)
  {
    if |snake| == 0 {
      return None;
    }
    var newHead := Add(snake[0], direction);
    if CheckWallCollision(newHead) {
      return Some(TickResult(snake, foods, score, true, None));
    }
    if CheckObstacleCollision(newHead, walls) {
      return Some(TickResult(snake, foods, score, true, None));
    }
    var newSnake := [newHead] + snake;
    if Occupied(snake, newHead) {
      return Some(TickResult(snake, foods, score, true, None));
    }
    var foodIndex := CheckFoodCollision(newHead, foods);
    var newFoods := foods;
    var newScore := score;
    var foodEaten: Option<string> := None;
    if foodIndex != -1 {
      var eatenFood := foods[foodIndex];
      foodEaten := Some(eatenFood.kind);
      var foodType := Lookup(FOOD_TYPES, eatenFood.kind);
      if foodType.None? {
        return None;
      }
      if foodType.value.effect == Double {
        newSnake := EatMushroom(newSnake);
      } else if foodType.value.effect == Shrink {
        newSnake := newSnake[..|newSnake| - 1];
        newSnake := EatPoison(newSnake);
      }
      newScore := CalculateScoreChange(eatenFood.kind, score);
      newFoods := RemoveAt(foods, foodIndex);
      var newFood := GenerateFood(newSnake, newFoods, walls, draw, rateDraw);
      if newFood.Some? {
        newFoods := newFoods + [newFood.value];
      }
    } else {
      newSnake := newSnake[..|newSnake| - 1];
    }
    return Some(TickResult(newSnake, newFoods, newScore, false, foodEaten));
  }

  /** A boundary, obstacle or self hit (the whole pre-move body, tail included) ends the
      game and hands back the snake, foods and score untouched; no hit never ends it. */
  lemma TickCollision(snake: seq<Pos>, direction: Pos, foods: seq<Food>, walls: seq<Pos>, score: int,
                      draw: nat -> nat, rateDraw: nat)
    requires |snake| > 0
    ensures var newHead := Add(snake[0], direction);
            var r := Tick(snake, direction, foods, walls, score, draw, rateDraw);
            && ((!InGrid(newHead) || newHead in walls || newHead in snake) ==>
                  r == Some(TickResult(snake, foods, score, true, None)))
            && (r.Some? && r.value.gameOver ==> !InGrid(newHead) || newHead in walls || newHead in snake)
  {
  }

  /** Without a hit and without food the snake moves: same length, new head, tail dropped. */
  lemma TickMove(snake: seq<Pos>, direction: Pos, foods: seq<Food>, walls: seq<Pos>, score: int,
                 draw: nat -> nat, rateDraw: nat)
    requires |snake| > 0
    requires var newHead := Add(snake[0], direction);
             !Hit(snake, newHead, walls) && forall j :: 0 <= j < |foods| ==> foods[j].pos != newHead
    ensures var r := Tick(snake, direction, foods, walls, score, draw, rateDraw);
            && r.Some? && !r.value.gameOver && r.value.foodEaten.None?
            && |r.value.snake| == |snake| && r.value.snake[0] == Add(snake[0], direction)
            && r.value.snake[1..] == snake[..|snake| - 1]
            && r.value.foods == foods && r.value.score == score
  {
    var newHead := Add(snake[0], direction);
    assert CheckFoodCollision(newHead, foods) == -1;
  }

  /** Eating a known kind: the tick goes on, reports the kind, grows the moved snake by
      the kind's effect, scores the floored sum and replaces the eaten food. */
  lemma TickEat(snake: seq<Pos>, direction: Pos, foods: seq<Food>, walls: seq<Pos>, score: int,
                draw: nat -> nat, rateDraw: nat, k: nat)
    requires |snake| > 0
    requires var newHead := Add(snake[0], direction);
             !Hit(snake, newHead, walls) && k == CheckFoodCollision(newHead, foods)
    requires Lookup(FOOD_TYPES, foods[k].kind).Some?
    ensures var r := Tick(snake, direction, foods, walls, score, draw, rateDraw);
            var grown := Grow([Add(snake[0], direction)] + snake, Lookup(FOOD_TYPES, foods[k].kind).value.effect);
            && r == Some(TickResult(grown, Replace(grown, foods, k, walls, draw, rateDraw),
                                    CalculateScoreChange(foods[k].kind, score), false, Some(foods[k].kind)))
            && r.value.score >= 0
  {
  }

  function Min(a: int, b: int): int {
    if a < b then a else b
  }

  /** Eating a known kind, counted: a snake of n cells ends with 2n + 1 cells after a
      mushroom (the moved snake still has its tail when it doubles), PoisonLength(n) after
      poison, and n + 1 after any other kind. */
  lemma TickEatLength(snake: seq<Pos>, direction: Pos, foods: seq<Food>, walls: seq<Pos>, score: int,
                      draw: nat -> nat, rateDraw: nat, k: nat)
    requires |snake| > 0
    requires var newHead := Add(snake[0], direction);
             !Hit(snake, newHead, walls) && k == CheckFoodCollision(newHead, foods)
    requires Lookup(FOOD_TYPES, foods[k].kind).Some?
    ensures var r := Tick(snake, direction, foods, walls, score, draw, rateDraw);
            var effect := Lookup(FOOD_TYPES, foods[k].kind).value.effect;
            && r.Some? && !r.value.gameOver && r.value.foodEaten == Some(foods[k].kind)
            && |r.value.snake| == (if effect == Double then 2 * |snake| + 1
                                   else if effect == Shrink then PoisonLength(|snake|) else |snake| + 1)
            && r.value.score == CalculateScoreChange(foods[k].kind, score)
  {
    TickEat(snake, direction, foods, walls, score, draw, rateDraw, k);
    var effect := Lookup(FOOD_TYPES, foods[k].kind).value.effect;
    GrowShape([Add(snake[0], direction)] + snake, effect);
  }

  /** A three-cell snake eating a mushroom ends with 7 cells and 105 points. */
  lemma TickMushroomOutcome(draw: nat -> nat, rateDraw: nat)
    ensures var r := Tick([Pos(10, 10), Pos(9, 10), Pos(8, 10)], Pos(1, 0), [Food(Pos(11, 10), "mushroom")], [], 100, draw, rateDraw);
            r.Some? && |r.value.snake| == 7 && r.value.score == 105 && r.value.foodEaten == Some("mushroom")
  {
    var snake := [Pos(10, 10), Pos(9, 10), Pos(8, 10)];
    var foods := [Food(Pos(11, 10), "mushroom")];
    assert Add(snake[0], Pos(1, 0)) == Pos(11, 10) && !Hit(snake, Pos(11, 10), []);
    assert CheckFoodCollision(Pos(11, 10), foods) == 0;
    LookupTable(7);
    TickEatLength(snake, Pos(1, 0), foods, [], 100, draw, rateDraw, 0);
  }

  /** A five-cell snake eating poison ends with 3 cells and 90 points. */
  lemma TickPoisonOutcome(draw: nat -> nat, rateDraw: nat)
    ensures var r := Tick([Pos(10, 10), Pos(9, 10), Pos(8, 10), Pos(7, 10), Pos(6, 10)], Pos(1, 0),
                          [Food(Pos(11, 10), "poison")], [], 100, draw, rateDraw);
            r.Some? && |r.value.snake| == 3 && r.value.score == 90 && r.value.foodEaten == Some("poison")
  {
    var snake := [Pos(10, 10), Pos(9, 10), Pos(8, 10), Pos(7, 10), Pos(6, 10)];
    var foods := [Food(Pos(11, 10), "poison")];
    assert Add(snake[0], Pos(1, 0)) == Pos(11, 10) && !Hit(snake, Pos(11, 10), []);
    assert CheckFoodCollision(Pos(11, 10), foods) == 0;
    LookupTable(8);
    TickEatLength(snake, Pos(1, 0), foods, [], 100, draw, rateDraw, 0);
  }

  /** Turning into the cell the tail occupies before the move is a self hit. */
  lemma TickTailHit(draw: nat -> nat, rateDraw: nat)
    ensures var r := Tick([Pos(10, 10), Pos(9, 10), Pos(9, 11), Pos(10, 11)], Pos(0, 1), [], [], 100, draw, rateDraw);
            r.Some? && r.value.gameOver
  {
  }

  // ---------------------------------------------------------------------------
  // Direction input

  /** `isValidDirectionChange`: on an axis where both directions move, they may not
      cancel; the x axis decides first. */
  predicate IsValidDirectionChange(current: Pos, next: Pos) {
    if current.x != 0 && next.x != 0 then current.x + next.x != 0
    else if current.y != 0 && next.y != 0 then current.y + next.y != 0
    else true
  }

  /** Among unit directions exactly the reversal is rejected. */
  lemma ValidChangeIffNotReversal(current: Pos, next: Pos)
    requires IsUnit(current) && IsUnit(next)
    ensures IsValidDirectionChange(current, next) <==> next != Neg(current)
  {
  }

  /** The arrow and WASD key table. */
  function KeyDirection(key: string): (r: Option<Pos>)
    ensures r.Some? ==> IsUnit(r.value)
  {
    if key == "ArrowUp" || key == "w" || key == "W" then Some(Pos(0, -1))
    else if key == "ArrowDown" || key == "s" || key == "S" then Some(Pos(0, 1))
    else if key == "ArrowLeft" || key == "a" || key == "A" then Some(Pos(-1, 0))
    else if key == "ArrowRight" || key == "d" || key == "D" then Some(Pos(1, 0))
    else None
  }

  /** `getDirectionFromKey`: the key's direction unless it reverses the current one. */
  function GetDirectionFromKey(key: string, current: Pos): Option<Pos> {
    match KeyDirection(key)
    case None => None
    case Some(d) => if IsValidDirectionChange(current, d) then Some(d) else None
  }

  /** Exactly the twelve arrow and WASD keys map to a direction; for a unit current
      direction the answer is that direction unless it is the reversal, and null otherwise. */
  lemma DirectionFromKeySpec(key: string, current: Pos)
    requires IsUnit(current)
    ensures KeyDirection(key).Some? <==>
              key in {"ArrowUp", "ArrowDown", "ArrowLeft", "ArrowRight", "w", "W", "s", "S", "a", "A", "d", "D"}
    ensures GetDirectionFromKey(key, current).Some? <==>
              KeyDirection(key).Some? && KeyDirection(key).value != Neg(current)
    ensures GetDirectionFromKey(key, current).Some? ==> GetDirectionFromKey(key, current) == KeyDirection(key)
  {
    if KeyDirection(key).Some? {
      ValidChangeIffNotReversal(current, KeyDirection(key).value);
    }
  }
}
