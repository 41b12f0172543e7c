/** Where the two snake-logic files disagree. The Vue-era primitives
    (src/utils/gameLogic.ts, module GameLogic) and the React-era game step
    (react/snake-game-logic.ts, module SnakeGame) share names but not rules: each
    member here runs or evaluates both on the same input and states how the answers relate. */
module Variants {
  import opened Grid
  import GameLogic
  import SnakeGame
  import Constants

  /** `moveSnake` keeps the tail in the Vue file and drops it in the React file: the Vue
      result is the React result with the old tail appended. */
  method MoveSnakeVariants(snake: seq<Pos>, direction: Pos) returns (vue: seq<Pos>, react: seq<Pos>)
    requires |snake| > 0
    ensures |vue| == |snake| + 1 && |react| == |snake|
    ensures react == vue[..|snake|] && vue[|snake|] == snake[|snake| - 1]
  {
    vue := GameLogic.MoveSnake(snake, direction);
    react := SnakeGame.MoveSnake(snake, direction);
  }

  /** Poison on the primitives: the Vue file drops two cells whenever the snake is longer
      than 3, the React file never goes below 3 cells. They agree except at length 4,
      where the Vue snake ends with 2 cells and the React one with 3. */
  method PoisonVariants(snake: seq<Pos>) returns (vue: seq<Pos>, react: seq<Pos>)
    requires |snake| > 0
    ensures vue == react <==> |snake| != 4
    ensures |snake| == 4 ==> |vue| == 2 && |react| == 3
    ensures |vue| <= |react| && vue == react[..|vue|]
  {
    var outcome := GameLogic.UpdateSnakeWithFood(snake, Constants.Poison, -10);
    vue := outcome.newSnake;
    react := SnakeGame.EatPoison(snake);
  }

  /** The mushroom primitives agree (2n - 1 cells from n), but the React tick applies it to
      the moved snake, which still has its tail, so a snake of n cells ends a mushroom
      tick with 2n + 1. */
  method MushroomVariants(snake: seq<Pos>, direction: Pos) returns (vue: seq<Pos>, react: seq<Pos>, tick: seq<Pos>)
    requires |snake| > 0
    ensures vue == react && |react| == 2 * |snake| - 1
    ensures |tick| == 2 * |snake| + 1
  {
    var outcome := GameLogic.UpdateSnakeWithFood(snake, Constants.Mushroom, 5);
    vue := outcome.newSnake;
    react := SnakeGame.EatMushroom(snake);
    var moved := [Add(snake[0], direction)] + snake;
    tick := SnakeGame.EatMushroom(moved);
  }

  /** The two direction checks agree on the four unit directions... */
  lemma DirectionChecksAgreeOnUnits(current: Pos, next: Pos)
    requires IsUnit(current) && IsUnit(next)
    ensures GameLogic.IsValidDirection(current, next) <==> SnakeGame.IsValidDirectionChange(current, next)
  {
    GameLogic.ValidDirectionIffNotReversal(current, next);
    SnakeGame.ValidChangeIffNotReversal(current, next);
  }

  /** ...but not on diagonals: from (1, 1) to (1, -1) the Vue check refuses (the y
      components cancel) and the React check accepts (its x test decides first). */
  lemma DirectionChecksDisagreeOnDiagonal()
    ensures !GameLogic.IsValidDirection(Pos(1, 1), Pos(1, -1))
    ensures SnakeGame.IsValidDirectionChange(Pos(1, 1), Pos(1, -1))
  {
  }

  /** Both files treat the whole pre-move body as an obstacle, tail included, and both
      refuse the same heads when there is no second snake. */
  lemma SelfCollisionAgrees(snake: seq<Pos>, head: Pos, walls: seq<Pos>)
    ensures GameLogic.CheckCollisions(head, snake, walls, []) <==> SnakeGame.Hit(snake, head, walls)
  {
  }

  /** The food tables differ: twelve kinds in the Vue file, nine in the React file, with
      different rates for the kinds they share (apple 0.26 against 0.25). */
  lemma FoodTablesDiffer()
    ensures |Constants.FOOD_TABLE| == 12 && |SnakeGame.FOOD_TYPES| == 9
    ensures Constants.Props(Constants.Apple).rate == 26
    ensures SnakeGame.Lookup(SnakeGame.FOOD_TYPES, "apple") == Some(SnakeGame.FoodKind(10, 25, SnakeGame.NoEffect))
  {
  }
}
