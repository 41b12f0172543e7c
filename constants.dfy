/** The game's constant tables (src/utils/constants.ts): food kinds with their
    points, spawn rates and effects, the wall layouts, speeds and teleport settings. */
module Constants {
  import opened Grid

  const DEFAULT_GRID_SIZE: int := 20
  const CELL_SIZE: int := 25

  /** The food kinds that have an entry in the food table, in the table's order. */
  datatype FoodType =
    | Apple | Golden | Berry | Super | Banana | Cherry | Watermelon
    | Mushroom | Poison | BulletFood | Growth | ShrinkFood

  /** The optional `effect` of a food kind. */
  datatype Effect = Plain | Double | Shrink | Bullet | RandomGrow | RandomShrink | Magnet

  /** Points, spawn rate in hundredths (0.26 is 26) and effect of one food kind. */
  datatype FoodProps = FoodProps(points: int, rate: int, effect: Effect)

  /** `FOOD_TYPES` in insertion order; the order decides which kind a spawn draw selects. */
  const FOOD_TABLE: seq<(FoodType, FoodProps)> := [
    (Apple, FoodProps(10, 26, Plain)),
    (Golden, FoodProps(50, 5, Plain)),
    (Berry, FoodProps(20, 14, Plain)),
    (Super, FoodProps(100, 3, Plain)),
    (Banana, FoodProps(15, 11, Plain)),
    (Cherry, FoodProps(25, 9, Plain)),
    (Watermelon, FoodProps(30, 5, Plain)),
    (Mushroom, FoodProps(5, 5, Double)),
    (Poison, FoodProps(-10, 5, Shrink)),
    (BulletFood, FoodProps(20, 5, Bullet)),
    (Growth, FoodProps(15, 6, RandomGrow)),
    (ShrinkFood, FoodProps(-5, 6, RandomShrink))
  ]

  /** `FOOD_TYPES[t]`. */
  function Props(t: FoodType): (p: FoodProps)
    ensures (t, p) in FOOD_TABLE
  {
    match t
    case Apple => FOOD_TABLE[0].1
    case Golden => FOOD_TABLE[1].1
    case Berry => FOOD_TABLE[2].1
    case Super => FOOD_TABLE[3].1
    case Banana => FOOD_TABLE[4].1
    case Cherry => FOOD_TABLE[5].1
    case Watermelon => FOOD_TABLE[6].1
    case Mushroom => FOOD_TABLE[7].1
    case Poison => FOOD_TABLE[8].1
    case BulletFood => FOOD_TABLE[9].1
    case Growth => FOOD_TABLE[10].1
    case ShrinkFood => FOOD_TABLE[11].1
  }

  /** Sum of the spawn rates of the first `n` table entries: the running `cumulative` of
      the food-kind draw. */
  function CumulativeRate(n: nat): int
    requires n <= |FOOD_TABLE|
  {
    if n == 0 then 0 else CumulativeRate(n - 1) + FOOD_TABLE[n - 1].1.rate
  }

  /** Every spawn rate lies in (0, 1]. */
  lemma SpawnRatesInRange()
    ensures forall i :: 0 <= i < |FOOD_TABLE| ==> 0 < FOOD_TABLE[i].1.rate <= 100
  {
  }

  /** The spawn rates add up to exactly 1. */
  lemma SpawnRatesSum()
    ensures CumulativeRate(|FOOD_TABLE|) == 100
  {
    assert CumulativeRate(4) == 26 + 5 + 14 + 3;
    assert CumulativeRate(8) == 48 + 11 + 9 + 5 + 5;
    assert CumulativeRate(12) == 78 + 5 + 5 + 6 + 6;
  }

  /** Every kind widens the running sum, so the kinds split [0, 1) into disjoint
      consecutive intervals. */
  lemma {:induction false} CumulativeRateIncreasing(i: nat, j: nat)
    requires i < j <= |FOOD_TABLE|
    ensures CumulativeRate(i) < CumulativeRate(j)
    decreases j
  {
    SpawnRatesInRange();
    if i < j - 1 {
      CumulativeRateIncreasing(i, j - 1);
    }
  }

  /** A draw falls in at most one kind's interval. */
  lemma RateIntervalUnique(u: int, i: nat, j: nat)
    requires i < |FOOD_TABLE| && j < |FOOD_TABLE|
    requires CumulativeRate(i) <= u < CumulativeRate(i + 1)
    requires CumulativeRate(j) <= u < CumulativeRate(j + 1)
    ensures i == j
  {
    if i < j {
      if i + 1 < j {
        CumulativeRateIncreasing(i + 1, j);
      }
    } else if j < i {
      if j + 1 < i {
        CumulativeRateIncreasing(j + 1, i);
      }
    }
  }

  /** Poison loses points, the plain fruits score. */
  lemma PointsSigns()
    ensures Props(Poison).points < 0
    ensures forall t :: t in {Apple, Golden, Berry, Super, Banana, Cherry, Watermelon} ==> Props(t).points > 0
  {
  }

  /** Every table kind appears exactly once, so the table is a faithful record keyed by kind. */
  lemma FoodTableKeys()
    ensures |FOOD_TABLE| == 12
    ensures forall i, j :: 0 <= i < j < |FOOD_TABLE| ==> FOOD_TABLE[i].0 != FOOD_TABLE[j].0
    ensures forall t: FoodType :: Props(t) == FOOD_TABLE[TableIndex(t)].1 && FOOD_TABLE[TableIndex(t)].0 == t
    ensures forall i :: 0 <= i < |FOOD_TABLE| ==> TableIndex(FOOD_TABLE[i].0) == i
  {
  }

  /** Position of a kind in the table. */
  function TableIndex(t: FoodType): (i: nat)
    ensures i < |FOOD_TABLE| && FOOD_TABLE[i].0 == t
  {
    match t
    case Apple => 0
    case Golden => 1
    case Berry => 2
    case Super => 3
    case Banana => 4
    case Cherry => 5
    case Watermelon => 6
    case Mushroom => 7
    case Poison => 8
    case BulletFood => 9
    case Growth => 10
    case ShrinkFood => 11
  }

  /** `WallPattern`; Open is the pattern the source calls 'none'. */
  datatype WallPattern = Open | Simple | Cross | Maze | Random | Moving

  /** `WALL_PATTERNS[pattern]`. */
  function WallLayout(pattern: WallPattern): seq<Pos> {
    match pattern
    case Open => []
    case Simple => [
      Pos(5, 5), Pos(6, 5), Pos(7, 5),
      Pos(12, 14), Pos(13, 14), Pos(14, 14),
      Pos(5, 14), Pos(6, 14), Pos(7, 14),
      Pos(12, 5), Pos(13, 5), Pos(14, 5)]
    case Cross => [
      Pos(5, 10), Pos(6, 10), Pos(7, 10), Pos(8, 10),
      Pos(11, 10), Pos(12, 10), Pos(13, 10), Pos(14, 10),
      Pos(10, 5), Pos(10, 6), Pos(10, 7), Pos(10, 8),
      Pos(10, 11), Pos(10, 12), Pos(10, 13), Pos(10, 14)]
    case Maze => [
      Pos(3, 3), Pos(4, 3), Pos(5, 3), Pos(3, 4), Pos(3, 5),
      Pos(14, 3), Pos(15, 3), Pos(16, 3), Pos(16, 4), Pos(16, 5),
      Pos(3, 14), Pos(3, 15), Pos(3, 16), Pos(4, 16), Pos(5, 16),
      Pos(16, 14), Pos(16, 15), Pos(16, 16), Pos(15, 16), Pos(14, 16),
      Pos(9, 9), Pos(10, 9), Pos(9, 10), Pos(10, 10)]
    case Random => []
    case Moving => [
      Pos(5, 5), Pos(6, 5), Pos(5, 6),
      Pos(15, 8), Pos(16, 8), Pos(17, 8),
      Pos(8, 15), Pos(8, 16),
      Pos(18, 12), Pos(19, 12), Pos(18, 13)]
  }

  /** Every wall of one layout lies on the default grid. */
  lemma WallLayoutInGrid(pattern: WallPattern)
    ensures forall i :: 0 <= i < |WallLayout(pattern)| ==>
      0 <= WallLayout(pattern)[i].x < DEFAULT_GRID_SIZE && 0 <= WallLayout(pattern)[i].y < DEFAULT_GRID_SIZE
  {
    match pattern
    case Open =>
    case Simple =>
    case Cross =>
    case Maze =>
    case Random =>
    case Moving =>
  }

  /** Every wall of every layout lies on the default grid; 'none' and 'random' are empty. */
  lemma WallLayoutsInGrid()
    ensures forall pattern: WallPattern :: forall i :: 0 <= i < |WallLayout(pattern)| ==>
      0 <= WallLayout(pattern)[i].x < DEFAULT_GRID_SIZE && 0 <= WallLayout(pattern)[i].y < DEFAULT_GRID_SIZE
    ensures WallLayout(Open) == [] && WallLayout(Random) == []
  {
    forall pattern: WallPattern
      ensures forall i :: 0 <= i < |WallLayout(pattern)| ==>
        0 <= WallLayout(pattern)[i].x < DEFAULT_GRID_SIZE && 0 <= WallLayout(pattern)[i].y < DEFAULT_GRID_SIZE
    {
      WallLayoutInGrid(pattern);
    }
  }

  datatype SpeedType = Slow | Normal | Fast

  /** `SPEEDS`: the tick interval in milliseconds. */
  function Speed(s: SpeedType): int {
    match s
    case Slow => 200
    case Normal => 120
    case Fast => 70
  }

  /** Slower speeds have longer tick intervals, and every interval is positive. */
  lemma SpeedsOrdered()
    ensures Speed(Slow) > Speed(Normal) > Speed(Fast) > 0
  {
  }

  const TELEPORT_COOLDOWN: int := 5000
  const TELEPORT_RANGE: int := 5

  lemma TeleportConstantsReasonable()
    ensures 0 < TELEPORT_COOLDOWN < 30000
    ensures 0 < TELEPORT_RANGE < DEFAULT_GRID_SIZE
  {
  }

  datatype GameSize = GameSize(width: int, height: int)

  /** `getGameSize`: the canvas is a square of whole cells. */
  function GetGameSize(gridSize: int): (r: GameSize)
    ensures r.width == r.height
    ensures r.width % CELL_SIZE == 0 && r.width / CELL_SIZE == gridSize
    ensures gridSize > 0 ==> r.width > 0
  {
    GameSize(gridSize * CELL_SIZE, gridSize * CELL_SIZE)
  }

  /** The size the rest of the model uses agrees with the default grid size. */
  lemma DefaultGridSize()
    ensures DEFAULT_GRID_SIZE == GRID_SIZE
    ensures GetGameSize(DEFAULT_GRID_SIZE) == GameSize(500, 500)
  {
  }
}
