/** Player progression (src/utils/progressionSystem.ts): experience and levels, achievements
    and their steps, the four lists of unlocked cosmetics, level rewards, end-of-game
    statistics and the calendar of seasonal events. The `ProgressionSystem` class keeps the
    player's progression data in fields that its methods update in place. */
module Progression {
  import opened Grid

  /** The two statistic names the progression rules single out. */
  const SNAKE_LENGTH: string := "snake_length"
  const UNLOCKS_COUNT: string := "unlocks_count"

  datatype RewardKind = Skin | Pattern | Color | Trail | HeadShape

  /** `UnlockableReward`: a cosmetic item. */
  datatype Reward = Reward(kind: RewardKind, id: string, name: string)

  /** `AchievementStep`; the kind is the statistic the step tracks. */
  datatype Step = Step(id: string, completed: bool, requirement: int, progress: int, kind: string)

  /** `Achievement` without its display text. An achievement without steps has `steps == []`. */
  datatype Achievement = Achievement(
    id: string,
    requirement: int,
    unlocked: bool,
    progress: int,
    kind: string,
    reward: Option<Reward>,
    milestone: bool,
    steps: seq<Step>)

  datatype GameMode = Single | Multiplayer

  /** `PlayerStats` without the floating-point `averageGameTime`. */
  datatype Stats = Stats(
    totalGames: int,
    totalScore: int,
    highestScore: int,
    totalFoodsEaten: int,
    totalWallsBroken: int,
    totalSurvivalTime: int,
    perfectGames: int,
    totalBulletsFired: int,
    totalTeleports: int,
    longestSnake: int,
    favoriteGameMode: GameMode)

  /** The four lists of unlocked cosmetics. */
  datatype UnlockLists = UnlockLists(skins: seq<string>, trails: seq<string>, colors: seq<string>, headShapes: seq<string>)

  // ---------------------------------------------------------------------------
  // Experience thresholds

  function Pow(b: nat, k: nat): nat {
    if k == 0 then 1 else b * Pow(b, k - 1)
  }

  lemma {:induction false} PowThreeOverTwo(k: nat)
    ensures 1 <= Pow(2, k) <= Pow(3, k)
  {
    if k > 0 {
      PowThreeOverTwo(k - 1);
    }
  }

  lemma RatioAtLeast100(a: nat, b: nat)
    requires 1 <= b <= a
    ensures 100 * a / b >= 100
  {
  }

  /** The experience level `level` asks for before the next one: 100 · 1.5^(level - 1),
      rounded down, written with integers as 100 · 3^(level - 1) div 2^(level - 1). It is
      never below 100. */
  function Threshold(level: int): (r: nat)
    requires level >= 1
    ensures r >= 100
  {
    PowThreeOverTwo(level - 1);
    RatioAtLeast100(Pow(3, level - 1), Pow(2, level - 1));
    100 * Pow(3, level - 1) / Pow(2, level - 1)
  }

  /** The first thresholds: 100, 150, 225 and 337 (337.5 rounded down). */
  lemma FirstThresholds()
    ensures Threshold(1) == 100 && Threshold(2) == 150 && Threshold(3) == 225 && Threshold(4) == 337
  {
  }

  /** The experience paid to climb from level `from` to level `to`. */
  function Cost(from: int, to: int): nat
    requires from >= 1
    decreases if to <= from then 0 else to - from
  {
    if to <= from then 0 else Cost(from, to - 1) + Threshold(to - 1)
  }

  /** Climbing in two legs costs as much as climbing at once. */
  lemma {:induction false} CostSplit(a: int, b: int, c: int)
    requires 1 <= a <= b <= c
    ensures Cost(a, c) == Cost(a, b) + Cost(b, c)
    decreases c - b
  {
    if c > b {
      CostSplit(a, b, c - 1);
    }
  }

  /** Every level climbed costs at least 100 experience. */
  lemma {:induction false} CostAtLeast(a: int, b: int)
    requires 1 <= a <= b
    ensures Cost(a, b) >= 100 * (b - a)
    decreases b - a
  {
    if b > a {
      CostAtLeast(a, b - 1);
    }
  }

  // ---------------------------------------------------------------------------
  // Achievement and step progress

  /** The progress rule shared by achievements and steps: a snake length is a record to
      beat, every other statistic accumulates up to the requirement. */
  function Advance(progress: int, requirement: int, kind: string, value: int): (r: int)
    ensures kind == SNAKE_LENGTH ==> r >= progress && r >= value && (r == progress || r == value)
    ensures kind != SNAKE_LENGTH ==> r <= requirement && (r == progress + value || r == requirement)
    ensures kind != SNAKE_LENGTH && progress + value <= requirement ==> r == progress + value
  {
    if kind == SNAKE_LENGTH then
      (if progress >= value then progress else value)
    else if requirement <= progress + value then requirement
    else progress + value
  }

  /** One step after a report of `value` for statistic `kind`: a completed step or a step
      tracking another statistic is left as it is; otherwise the progress rule applies and
      the step is completed once it reaches its requirement. */
  function AdvanceStep(s: Step, kind: string, value: int): (r: Step)
    ensures s.completed || s.kind != kind ==> r == s
    ensures r == s.(progress := r.progress, completed := r.completed)
    ensures !s.completed && s.kind == kind ==>
              r.progress == Advance(s.progress, s.requirement, kind, value) && (r.completed <==> r.progress >= s.requirement)
  {
    if s.completed || s.kind != kind then s
    else
      var p := Advance(s.progress, s.requirement, kind, value);
      s.(progress := p, completed := p >= s.requirement)
  }

  predicate AllCompleted(steps: seq<Step>) {
    forall k :: 0 <= k < |steps| ==> steps[k].completed
  }

  /** `steps.filter(step => step.completed).length`: never more than the steps, and all of
      them exactly when every step is completed. */
  function CompletedCount(steps: seq<Step>): (r: nat)
    ensures r <= |steps|
    ensures r == |steps| <==> AllCompleted(steps)
  {
    if |steps| == 0 then 0
    else
      var init := steps[..|steps| - 1];
      assert forall k :: 0 <= k < |init| ==> init[k] == steps[k];
      CompletedCount(init) + (if steps[|steps| - 1].completed then 1 else 0)
  }

  /** A regular (step-less) achievement after a report of `value` for statistic `kind`: an
      unlocked achievement or one tracking another statistic is left as it is; otherwise
      the progress rule applies and the achievement unlocks exactly when its progress
      reaches the requirement. */
  function AdvanceRegular(a: Achievement, kind: string, value: int): (r: Achievement)
    ensures a.unlocked || a.kind != kind ==> r == a
    ensures r == a.(progress := r.progress, unlocked := r.unlocked)
    ensures !a.unlocked && a.kind == kind ==>
              r.progress == Advance(a.progress, a.requirement, kind, value) && (r.unlocked <==> r.progress >= a.requirement)
  {
    if a.unlocked || a.kind != kind then a
    else
      var p := Advance(a.progress, a.requirement, kind, value);
      a.(progress := p, unlocked := p >= a.requirement)
  }

  /** The number of achievements still locked. */
  function Locked(s: seq<Achievement>): (r: nat)
    ensures r <= |s|
  {
    if |s| == 0 then 0 else (if s[0].unlocked then 0 else 1) + Locked(s[1..])
  }

  /** Unlocking one locked achievement lowers the count by one; any other change that does
      not relock leaves it. */
  lemma {:induction false} LockedUpdate(s: seq<Achievement>, i: int, x: Achievement)
    requires 0 <= i < |s| && (s[i].unlocked ==> x.unlocked)
    ensures Locked(s[i := x]) == Locked(s) - (if !s[i].unlocked && x.unlocked then 1 else 0)
    decreases |s|
  {
    var t := s[i := x];
    if i == 0 {
      assert t[1..] == s[1..];
    } else {
      assert t[1..] == s[1..][i - 1 := x];
      LockedUpdate(s[1..], i - 1, x);
    }
  }

  /** How a step may change outside the progress rule's own call: it keeps its identity,
      and a completed step is never touched again. */
  predicate StepsEvolved(s: seq<Step>, t: seq<Step>) {
    |t| == |s| &&
    forall k :: 0 <= k < |s| ==>
      t[k].id == s[k].id && t[k].kind == s[k].kind && t[k].requirement == s[k].requirement &&
      (s[k].completed ==> t[k] == s[k])
  }

  /** An achievement keeps its identity, is never relocked, and its completed steps stay
      as they are. */
  predicate Evolved(a: Achievement, b: Achievement) {
    b.id == a.id && b.kind == a.kind && b.requirement == a.requirement &&
    b.reward == a.reward && b.milestone == a.milestone &&
    (a.unlocked ==> b.unlocked) && StepsEvolved(a.steps, b.steps)
  }

  /** The achievements keep their order and identities, none is relocked, and completed
      steps stay as they are. */
  predicate Keeps(before: seq<Achievement>, after: seq<Achievement>) {
    |after| == |before| &&
    forall i :: 0 <= i < |before| ==> Evolved(before[i], after[i])
  }

  lemma KeepsTransitive(a: seq<Achievement>, b: seq<Achievement>, c: seq<Achievement>)
    requires Keeps(a, b) && Keeps(b, c)
    ensures Keeps(a, c)
  {
    forall i | 0 <= i < |a|
      ensures Evolved(a[i], c[i])
    {
      assert Evolved(a[i], b[i]) && Evolved(b[i], c[i]);
    }
  }

  /** What the unlock bookkeeping may do to the achievements: a step-less achievement that
      does not count unlocks is left alone, and only achievements that count unlocks get
      unlocked. */
  predicate OnlyTracking(before: seq<Achievement>, after: seq<Achievement>)
    requires |after| == |before|
  {
    forall i :: 0 <= i < |before| ==>
      (before[i].steps == [] && before[i].kind != UNLOCKS_COUNT ==> after[i] == before[i]) &&
      (!before[i].unlocked && after[i].unlocked ==> before[i].kind == UNLOCKS_COUNT)
  }

  /** What the unlock bookkeeping (the cycle through experience, level rewards and unlock
      counts) may do to the achievements. */
  predicate Bookkeeping(before: seq<Achievement>, after: seq<Achievement>) {
    Keeps(before, after) && OnlyTracking(before, after)
  }

  lemma BookkeepingTransitive(a: seq<Achievement>, b: seq<Achievement>, c: seq<Achievement>)
    requires Bookkeeping(a, b) && Bookkeeping(b, c)
    ensures Bookkeeping(a, c)
  {
    KeepsTransitive(a, b, c);
    forall i | 0 <= i < |a|
      ensures (a[i].steps == [] && a[i].kind != UNLOCKS_COUNT ==> c[i] == a[i]) &&
              (!a[i].unlocked && c[i].unlocked ==> a[i].kind == UNLOCKS_COUNT)
    {
      assert Evolved(a[i], b[i]);
    }
  }

  /** An achievement that needs no unlock bookkeeping: no steps, and it does not count
      unlocks. */
  predicate Regular(a: Achievement) {
    a.steps == [] && a.kind != UNLOCKS_COUNT
  }

  /** `a` was unlocked by its own progress rather than by the unlock count. */
  predicate Earned(before: Achievement, after: Achievement) {
    !before.unlocked && after.unlocked && before.kind != UNLOCKS_COUNT
  }

  // ---------------------------------------------------------------------------
  // Unlock lists

  function ListFor(u: UnlockLists, kind: RewardKind): seq<string> {
    match kind
    case Skin => u.skins
    case Trail => u.trails
    case Color => u.colors
    case HeadShape => u.headShapes
    case Pattern => []
  }

  /** The number of unlocked items, the total an `unlocks_count` achievement tracks. */
  function Total(u: UnlockLists): nat {
    |u.skins| + |u.trails| + |u.colors| + |u.headShapes|
  }

  predicate ListsValid(u: UnlockLists) {
    NoDups(u.skins) && NoDups(u.trails) && NoDups(u.colors) && NoDups(u.headShapes)
  }

  /** Every list of `before` is a prefix of the matching list of `after`. */
  predicate Grew(before: UnlockLists, after: UnlockLists) {
    before.skins <= after.skins && before.trails <= after.trails &&
    before.colors <= after.colors && before.headShapes <= after.headShapes
  }

  lemma GrewKeepsMember(u: UnlockLists, v: UnlockLists, kind: RewardKind, id: string)
    requires Grew(u, v) && id in ListFor(u, kind)
    ensures id in ListFor(v, kind)
  {
    var s, t := ListFor(u, kind), ListFor(v, kind);
    var k :| 0 <= k < |s| && s[k] == id;
    assert t[k] == id;
  }

  lemma NoDupsSnoc(s: seq<string>, x: string)
    requires x !in s
    ensures NoDups(s) ==> NoDups(s + [x])
  {
    if NoDups(s) {
      NoDupsAppend(s, [x]);
    }
  }

  /** The list effect of unlocking `r`: its id joins the list of its kind unless already
      there, and a pattern changes nothing. The lists stay duplicate-free and the total
      grows by one exactly when the item is new. */
  function WithReward(u: UnlockLists, r: Reward): (v: UnlockLists)
    ensures r.kind != Pattern ==> r.id in ListFor(v, r.kind)
    ensures Grew(u, v)
    ensures ListsValid(u) ==> ListsValid(v)
    ensures Total(v) == Total(u) + (if r.kind != Pattern && r.id !in ListFor(u, r.kind) then 1 else 0)
    ensures v == u <==> r.kind == Pattern || r.id in ListFor(u, r.kind)
  {
    match r.kind
    case Skin =>
      if r.id in u.skins then u
      else
        NoDupsSnoc(u.skins, r.id);
        u.(skins := u.skins + [r.id])
    case Trail =>
      if r.id in u.trails then u
      else
        NoDupsSnoc(u.trails, r.id);
        u.(trails := u.trails + [r.id])
    case Color =>
      if r.id in u.colors then u
      else
        NoDupsSnoc(u.colors, r.id);
        u.(colors := u.colors + [r.id])
    case HeadShape =>
      if r.id in u.headShapes then u
      else
        NoDupsSnoc(u.headShapes, r.id);
        u.(headShapes := u.headShapes + [r.id])
    case Pattern => u
  }

  /** The rewards of `checkLevelUnlocks`: one at each of levels 5, 10, 15, 20, 25 and 30,
      none of them a pattern. */
  function LevelReward(level: int): (r: Option<Reward>)
    ensures r.Some? <==> level == 5 || level == 10 || level == 15 || level == 20 || level == 25 || level == 30
    ensures r.Some? ==> r.value.kind != Pattern
  {
    if level == 5 then Some(Reward(Skin, "stripes", "Striped Snake"))
    else if level == 10 then Some(Reward(Trail, "sparkles", "Sparkle Trail"))
    else if level == 15 then Some(Reward(Color, "#ff6b6b", "Coral Red"))
    else if level == 20 then Some(Reward(Skin, "spots", "Spotted Snake"))
    else if level == 25 then Some(Reward(Trail, "fire", "Fire Trail"))
    else if level == 30 then Some(Reward(HeadShape, "star", "Star Head"))
    else None
  }

  // ---------------------------------------------------------------------------
  // Unlock-count tracking (`updateUnlocksCount`, one achievement at a time)

  /** One step under the unlock bookkeeping: the `collect_*` steps follow their list, other
      steps that count unlocks follow the total, and an incomplete step is completed once
      its progress reaches the requirement. */
  function TrackStep(s: Step, skins: nat, trails: nat, colors: nat, achievementsDone: nat, totalUnlocks: nat): (r: Step)
    ensures r == s.(progress := r.progress, completed := r.completed)
    ensures s.completed ==> r == s
    ensures !s.completed ==> (r.completed <==> r.progress >= s.requirement)
  {
    if s.completed then s
    else
      var p :=
        if s.id == "collect_skins" then skins
        else if s.id == "collect_trails" then trails
        else if s.id == "collect_colors" then colors
        else if s.id == "collect_achievements" then achievementsDone
        else if s.kind == UNLOCKS_COUNT then totalUnlocks
        else s.progress;
      s.(progress := p, completed := p >= s.requirement)
  }

  function TrackSteps(steps: seq<Step>, skins: nat, trails: nat, colors: nat, achievementsDone: nat, totalUnlocks: nat): (r: seq<Step>)
    ensures |r| == |steps|
    ensures forall k :: 0 <= k < |steps| ==> r[k] == TrackStep(steps[k], skins, trails, colors, achievementsDone, totalUnlocks)
  {
    if |steps| == 0 then []
    else [TrackStep(steps[0], skins, trails, colors, achievementsDone, totalUnlocks)]
         + TrackSteps(steps[1..], skins, trails, colors, achievementsDone, totalUnlocks)
  }

  /** A locked achievement that counts unlocks takes the total of the lists as its
      progress and unlocks once the total reaches its requirement. */
  function CountUnlocks(a: Achievement, totalUnlocks: nat): (r: Achievement)
    ensures !a.unlocked && a.kind == UNLOCKS_COUNT ==>
              r.progress == totalUnlocks && (r.unlocked <==> totalUnlocks >= a.requirement)
    ensures a.unlocked || a.kind != UNLOCKS_COUNT ==> r == a
    ensures r == a.(progress := r.progress, unlocked := r.unlocked)
  {
    if !a.unlocked && a.kind == UNLOCKS_COUNT then
      a.(progress := totalUnlocks, unlocked := totalUnlocks >= a.requirement)
    else a
  }

  /** One achievement under `updateUnlocksCount` when no level-up intervenes: the unlock
      count first, then its steps. */
  function Track(a: Achievement, skins: nat, trails: nat, colors: nat, achievementsDone: nat, totalUnlocks: nat): Achievement {
    var b := CountUnlocks(a, totalUnlocks);
    b.(steps := TrackSteps(b.steps, skins, trails, colors, achievementsDone, totalUnlocks))
  }

  /** A locked achievement counting unlocks whose requirement `totalUnlocks` meets. */
  predicate Owed(a: Achievement, totalUnlocks: int) {
    !a.unlocked && a.kind == UNLOCKS_COUNT && totalUnlocks >= a.requirement
  }

  // ---------------------------------------------------------------------------
  // End-of-game experience

  /** The experience `recordGameEnd` grants for one game: a point per 10 score, per second
      survived and two per food, plus 50 for a score of 1000, 30 for a minute survived and
      25 for a snake of 20 cells. */
  function GameExperience(score: int, gameTime: int, foodsEaten: int, snakeLength: int): int {
    var base := score / 10 + gameTime / 1000 + foodsEaten * 2;
    base + (if score >= 1000 then 50 else 0) + (if gameTime >= 60000 then 30 else 0) + (if snakeLength >= 20 then 25 else 0)
  }

  /** A better game never earns less experience, and a game with no negative statistic
      earns none below zero. */
  lemma GameExperienceMonotone(score: int, gameTime: int, foods: int, length: int,
                               score': int, gameTime': int, foods': int, length': int)
    requires score <= score' && gameTime <= gameTime' && foods <= foods' && length <= length'
    ensures GameExperience(score, gameTime, foods, length) <= GameExperience(score', gameTime', foods', length')
    ensures score >= 0 && gameTime >= 0 && foods >= 0 ==> GameExperience(score, gameTime, foods, length) >= 0
  {
  }

  // ---------------------------------------------------------------------------
  // Seasonal calendar

  datatype Theme = Spring | Summer | Fall | Winter | Holiday | Halloween

  /** `getCurrentSeasonalEvents`, by month (1 to 12) and day of the month: the themes of
      the events running on that date, in the order the source lists them. */
  function CurrentSeasonalEvents(month: int, day: int): (r: seq<Theme>)
    ensures NoDups(r)
    ensures Holiday in r <==> month == 12 && 24 <= day <= 31
    ensures Halloween in r <==> month == 10 && 25 <= day <= 31
  {
    (if (month == 3 && day >= 20) || month == 4 || month == 5 || (month == 6 && day <= 21) then [Spring] else [])
    + (if (month == 6 && day >= 21) || month == 7 || month == 8 || (month == 9 && day <= 23) then [Summer] else [])
    + (if (month == 9 && day >= 23) || month == 10 || month == 11 || (month == 12 && day <= 21) then [Fall] else [])
    + (if (month == 12 && day >= 21) || month == 1 || month == 2 || (month == 3 && day < 20) then [Winter] else [])
    + (if month == 12 && day >= 24 && day <= 31 then [Holiday] else [])
    + (if month == 10 && day >= 25 && day <= 31 then [Halloween] else [])
  }

  /** The four seasons as closed windows on the date written month·100 + day: spring
      March 20 to June 21, summer June 21 to September 23, fall September 23 to December 21,
      winter December 21 to March 19. */
  lemma SeasonWindows(month: int, day: int)
    requires 1 <= month <= 12 && 1 <= day <= 31
    ensures var r, d := CurrentSeasonalEvents(month, day), 100 * month + day;
      (Spring in r <==> 320 <= d <= 621) && (Summer in r <==> 621 <= d <= 923) &&
      (Fall in r <==> 923 <= d <= 1221) && (Winter in r <==> d >= 1221 || d < 320)
  {
  }

  /** Every date falls in at least one season; two seasons overlap only on June 21,
      September 23 and December 21, and March 20 is spring only. */
  lemma SeasonsCoverYear(month: int, day: int)
    requires 1 <= month <= 12 && 1 <= day <= 31
    ensures var r := CurrentSeasonalEvents(month, day);
      (Spring in r || Summer in r || Fall in r || Winter in r) &&
      ((Spring in r && Summer in r) <==> month == 6 && day == 21) &&
      ((Summer in r && Fall in r) <==> month == 9 && day == 23) &&
      ((Fall in r && Winter in r) <==> month == 12 && day == 21) &&
      !(Winter in r && Spring in r) && !(Spring in r && Fall in r) && !(Summer in r && Winter in r) &&
      (month == 3 && day == 20 ==> Spring in r && Winter !in r)
  {
    SeasonWindows(month, day);
  }

  // ---------------------------------------------------------------------------
  // Default data

  /** A representative handful of the default achievements: counters with and without a
      reward, a record (snake length), an unlock counter, a milestone without steps, and two
      milestones with steps (one tracking statistics, one tracking unlocks). */
  const DEFAULT_ACHIEVEMENTS: seq<Achievement> := [
    Achievement("first_steps", 1, false, 0, "games_played", None, false, []),
    Achievement("getting_started", 10, false, 0, "games_played", Some(Reward(HeadShape, "triangle", "Triangle Head")), false, []),
    Achievement("high_scorer", 500, false, 0, "score", Some(Reward(Color, "#ffd700", "Golden")), false, []),
    Achievement("giant_snake", 50, false, 0, SNAKE_LENGTH, Some(Reward(Skin, "giant", "Giant Snake")), false, []),
    Achievement("collector", 10, false, 0, UNLOCKS_COUNT, None, false, []),
    Achievement("speed_demon_master", 5000, false, 0, "speed_demon", Some(Reward(Trail, "lightning_bolt", "Lightning Bolt Trail")), true, []),
    Achievement("snake_master", 4, false, 0, "milestone", Some(Reward(Skin, "master", "Master Snake")), true, [
      Step("master_score", false, 3000, 0, "score"),
      Step("master_survival", false, 480000, 0, "survival_time"),
      Step("master_perfect", false, 10, 0, "perfect_games"),
      Step("master_length", false, 75, 0, SNAKE_LENGTH)]),
    Achievement("ultimate_collector", 4, false, 0, "milestone", Some(Reward(HeadShape, "ultimate", "Ultimate Head")), true, [
      Step("collect_skins", false, 15, 0, UNLOCKS_COUNT),
      Step("collect_trails", false, 10, 0, UNLOCKS_COUNT),
      Step("collect_colors", false, 20, 0, UNLOCKS_COUNT),
      Step("collect_achievements", false, 30, 0, UNLOCKS_COUNT)])
  ]

  // ---------------------------------------------------------------------------
  // Progression data

  /** `PlayerLevel`. */
  datatype PlayerLevel = PlayerLevel(level: int, experience: int, experienceToNext: int, totalExperience: int)

  /** `ProgressionData` without the challenge lists, event points and the last-played
      date. */
  datatype ProgressionData = ProgressionData(
    level: PlayerLevel,
    achievements: seq<Achievement>,
    unlockedSkins: seq<string>,
    unlockedTrails: seq<string>,
    unlockedColors: seq<string>,
    unlockedHeadShapes: seq<string>,
    selectedSkin: string,
    selectedTrail: string,
    stats: Stats)

  function Lists(d: ProgressionData): UnlockLists {
    UnlockLists(d.unlockedSkins, d.unlockedTrails, d.unlockedColors, d.unlockedHeadShapes)
  }

  /** Well-formed data: a level of at least 1 whose threshold is the one the formula gives,
      duplicate-free unlock lists, and a selected skin and trail that are unlocked. */
  predicate ValidData(d: ProgressionData) {
    d.level.level >= 1 && d.level.experienceToNext == Threshold(d.level.level) && ListsValid(Lists(d)) &&
    d.selectedSkin in d.unlockedSkins && d.selectedTrail in d.unlockedTrails
  }

  /** How the experience and unlock cycle (`addExperience`, `checkLevelUnlocks`,
      `unlockReward`, `updateUnlocksCount`) leaves the data after a gain of `gain`
      experience: achievements only tracked (Bookkeeping), lists only grown, statistics and
      selections untouched, the level never lower; and, writing k for the number of
      achievements unlocked on the way (each worth 50 experience), the total experience has
      grown by gain + 50k, and the experience left plus the thresholds paid for the levels
      climbed equals the experience held before plus gain + 50k. */
  predicate Settled(b: ProgressionData, a: ProgressionData, gain: int) {
    b.level.level >= 1 &&
    Bookkeeping(b.achievements, a.achievements) &&
    Locked(a.achievements) <= Locked(b.achievements) &&
    Grew(Lists(b), Lists(a)) &&
    a.stats == b.stats && a.selectedSkin == b.selectedSkin && a.selectedTrail == b.selectedTrail &&
    a.level.level >= b.level.level &&
    a.level.totalExperience == b.level.totalExperience + gain + 50 * (Locked(b.achievements) - Locked(a.achievements)) &&
    a.level.experience + Cost(b.level.level, a.level.level) ==
      b.level.experience + gain + 50 * (Locked(b.achievements) - Locked(a.achievements))
  }

  lemma GrewTransitive(a: UnlockLists, b: UnlockLists, c: UnlockLists)
    requires Grew(a, b) && Grew(b, c)
    ensures Grew(a, c)
  {
    assert a.skins == b.skins[..|a.skins|] && b.skins == c.skins[..|b.skins|];
    assert a.trails == b.trails[..|a.trails|] && b.trails == c.trails[..|b.trails|];
    assert a.colors == b.colors[..|a.colors|] && b.colors == c.colors[..|b.colors|];
    assert a.headShapes == b.headShapes[..|a.headShapes|] && b.headShapes == c.headShapes[..|b.headShapes|];
  }

  lemma SettledTransitive(a: ProgressionData, b: ProgressionData, c: ProgressionData, g1: int, g2: int)
    requires Settled(a, b, g1) && Settled(b, c, g2)
    ensures Settled(a, c, g1 + g2)
  {
    BookkeepingTransitive(a.achievements, b.achievements, c.achievements);
    GrewTransitive(Lists(a), Lists(b), Lists(c));
    CostSplit(a.level.level, b.level.level, c.level.level);
  }

  /** Growing lists keep a valid selection valid. */
  lemma GrewKeepsSelection(b: ProgressionData, a: ProgressionData)
    requires Grew(Lists(b), Lists(a)) && b.selectedSkin in b.unlockedSkins && b.selectedTrail in b.unlockedTrails
    requires a.selectedSkin == b.selectedSkin && a.selectedTrail == b.selectedTrail
    ensures a.selectedSkin in a.unlockedSkins && a.selectedTrail in a.unlockedTrails
  {
    GrewKeepsMember(Lists(b), Lists(a), Skin, b.selectedSkin);
    GrewKeepsMember(Lists(b), Lists(a), Trail, b.selectedTrail);
  }

  /** Replacing one achievement by a version that keeps its identity and completed steps,
      that a step-less achievement not counting unlocks does not need, and that only an
      achievement counting unlocks may unlock by, is bookkeeping: it costs the 50
      experience an unlock earns (paid separately) when it unlocks, and nothing otherwise. */
  lemma ReplaceSettled(d: ProgressionData, i: int, x: Achievement, e: ProgressionData)
    requires ValidData(d) && 0 <= i < |d.achievements| && e == d.(achievements := d.achievements[i := x])
    requires Evolved(d.achievements[i], x)
    requires d.achievements[i].steps == [] && d.achievements[i].kind != UNLOCKS_COUNT ==> x == d.achievements[i]
    requires !d.achievements[i].unlocked && x.unlocked ==> d.achievements[i].kind == UNLOCKS_COUNT
    ensures ValidData(e)
    ensures Locked(e.achievements) == Locked(d.achievements) - (if !d.achievements[i].unlocked && x.unlocked then 1 else 0)
    ensures Settled(d, e, if !d.achievements[i].unlocked && x.unlocked then -50 else 0)
  {
    LockedUpdate(d.achievements, i, x);
    assert Lists(e) == Lists(d);
    forall j | 0 <= j < |d.achievements|
      ensures Evolved(d.achievements[j], e.achievements[j])
    {
    }
  }

  /** Tracking the steps of one achievement is bookkeeping that unlocks nothing. */
  lemma TrackStepsSettled(d: ProgressionData, i: int, skins: nat, trails: nat, colors: nat, achievementsDone: nat,
                          totalUnlocks: nat, e: ProgressionData)
    requires ValidData(d) && 0 <= i < |d.achievements|
    requires e == d.(achievements := d.achievements[i := d.achievements[i].(steps :=
                  TrackSteps(d.achievements[i].steps, skins, trails, colors, achievementsDone, totalUnlocks))])
    ensures ValidData(e)
    ensures Locked(e.achievements) == Locked(d.achievements)
    ensures Settled(d, e, 0)
  {
    var a := d.achievements[i];
    var x := e.achievements[i];
    assert StepsEvolved(a.steps, x.steps);
    if a.steps == [] {
      assert x == a;
    }
    ReplaceSettled(d, i, x, e);
  }

  /** Adding experience raises both the current and the total experience. */
  lemma GainSettled(d: ProgressionData, amount: int, e: ProgressionData)
    requires ValidData(d)
    requires e == d.(level := d.level.(experience := d.level.experience + amount,
                                      totalExperience := d.level.totalExperience + amount))
    ensures ValidData(e) && Settled(d, e, amount)
  {
    assert Lists(e) == Lists(d);
  }

  /** One level-up pays the threshold of the level left, and the new threshold is the
      formula's for the new level. */
  lemma ClimbSettled(d: ProgressionData, e: ProgressionData)
    requires ValidData(d)
    requires e == d.(level := PlayerLevel(d.level.level + 1, d.level.experience - d.level.experienceToNext,
                                          Threshold(d.level.level + 1), d.level.totalExperience))
    ensures ValidData(e) && Settled(d, e, 0)
  {
    assert Lists(e) == Lists(d);
    assert Cost(d.level.level, d.level.level + 1) == Threshold(d.level.level);
  }

  /** The data with other unlock lists. */
  function WithLists(d: ProgressionData, u: UnlockLists): (e: ProgressionData)
    ensures Lists(e) == u
  {
    d.(unlockedSkins := u.skins, unlockedTrails := u.trails, unlockedColors := u.colors, unlockedHeadShapes := u.headShapes)
  }

  /** Adding a reward to the lists is bookkeeping that keeps the data valid. */
  lemma RewardSettled(d: ProgressionData, r: Reward)
    requires ValidData(d)
    ensures ValidData(WithLists(d, WithReward(Lists(d), r)))
    ensures Settled(d, WithLists(d, WithReward(Lists(d), r)), 0)
  {
    var e := WithLists(d, WithReward(Lists(d), r));
    GrewKeepsSelection(d, e);
  }

  /** Where `updateUnlocksCount` stands after its first `i` turns, from data `o` and with
      starting totals `totalUnlocks` and `totalAchievements`: the bookkeeping so far is
      Settled, every achievement owed an unlock among the first `i` is unlocked, and when
      nothing has unlocked, the first `i` achievements are tracked and the rest untouched. */
  predicate TrackedUpTo(o: ProgressionData, d: ProgressionData, i: int, totalUnlocks: nat, totalAchievements: nat) {
    0 <= i <= |o.achievements| &&
    Settled(o, d, 0) &&
    (forall j :: 0 <= j < i && Owed(o.achievements[j], totalUnlocks) ==> d.achievements[j].unlocked) &&
    (Locked(d.achievements) == Locked(o.achievements) ==>
       d == o.(achievements := d.achievements) &&
       (forall j :: 0 <= j < i ==>
          d.achievements[j] == Track(o.achievements[j], |o.unlockedSkins|, |o.unlockedTrails|, |o.unlockedColors|,
                                     totalAchievements, totalUnlocks)) &&
       (forall j :: i <= j < |d.achievements| ==> d.achievements[j] == o.achievements[j]))
  }

  /** One more turn of `updateUnlocksCount`'s loop, as TrackAt states it, extends
      TrackedUpTo by one achievement. */
  lemma TrackedUpToNext(o: ProgressionData, b: ProgressionData, a: ProgressionData, i: int,
                        totalUnlocks: nat, totalAchievements: nat)
    requires TrackedUpTo(o, b, i, totalUnlocks, totalAchievements) && i < |o.achievements|
    requires Settled(b, a, 0)
    requires Owed(b.achievements[i], totalUnlocks) ==> a.achievements[i].unlocked
    requires Locked(a.achievements) == Locked(b.achievements) ==>
               a == b.(achievements := b.achievements[i := Track(b.achievements[i],
                 |b.unlockedSkins|, |b.unlockedTrails|, |b.unlockedColors|, totalAchievements, totalUnlocks)])
    ensures TrackedUpTo(o, a, i + 1, totalUnlocks, totalAchievements)
  {
    SettledTransitive(o, b, a, 0, 0);
    forall j | 0 <= j < i + 1 && Owed(o.achievements[j], totalUnlocks)
      ensures a.achievements[j].unlocked
    {
      assert Evolved(o.achievements[j], b.achievements[j]);
      assert Evolved(b.achievements[j], a.achievements[j]);
    }
  }

  /** What `updateAchievementProgress`'s turns over the achievements `lo` to `hi` - 1 do,
      from data `o` to data `d`, after a report of `value` for statistic `kind`: the
      achievements keep their identities and are never relocked; a regular achievement in
      the range follows the progress rule (AdvanceRegular) and one outside it is
      untouched; an achievement unlocked by its own progress lies in the range and, when it
      has steps, has all of them completed; the lists only grow; the statistics and the
      selections stay; neither the level nor the total experience goes down. */
  predicate Progressed(o: ProgressionData, d: ProgressionData, lo: int, hi: int, kind: string, value: int) {
    Keeps(o.achievements, d.achievements) &&
    (forall m :: 0 <= m < |o.achievements| && Regular(o.achievements[m]) ==>
       d.achievements[m] == if lo <= m < hi then AdvanceRegular(o.achievements[m], kind, value) else o.achievements[m]) &&
    (forall m :: 0 <= m < |o.achievements| && Earned(o.achievements[m], d.achievements[m]) ==>
       lo <= m < hi && (o.achievements[m].steps != [] ==> AllCompleted(d.achievements[m].steps))) &&
    Grew(Lists(o), Lists(d)) &&
    d.stats == o.stats && d.selectedSkin == o.selectedSkin && d.selectedTrail == o.selectedTrail &&
    d.level.level >= o.level.level && d.level.totalExperience >= o.level.totalExperience
  }

  /** What any later bookkeeping leaves standing: the achievements keep their identities
      and are never relocked, the lists only grow, the statistics and selections stay,
      neither the level nor the total experience goes down, and the total experience is
      unchanged unless some achievement unlocked. */
  predicate Advanced(o: ProgressionData, d: ProgressionData) {
    Keeps(o.achievements, d.achievements) && Grew(Lists(o), Lists(d)) &&
    d.stats == o.stats && d.selectedSkin == o.selectedSkin && d.selectedTrail == o.selectedTrail &&
    d.level.level >= o.level.level && d.level.totalExperience >= o.level.totalExperience &&
    Locked(d.achievements) <= Locked(o.achievements) &&
    (Locked(d.achievements) == Locked(o.achievements) ==> d.level.totalExperience == o.level.totalExperience)
  }

  lemma AdvancedSelf(d: ProgressionData)
    ensures Advanced(d, d)
  {
    forall i | 0 <= i < |d.achievements|
      ensures Evolved(d.achievements[i], d.achievements[i])
    {
    }
  }

  lemma AdvancedTransitive(a: ProgressionData, b: ProgressionData, c: ProgressionData)
    requires Advanced(a, b) && Advanced(b, c)
    ensures Advanced(a, c)
  {
    KeepsTransitive(a.achievements, b.achievements, c.achievements);
    GrewTransitive(Lists(a), Lists(b), Lists(c));
  }

  /** A gain of experience settled, then later bookkeeping: the total experience has grown
      by at least the gain, and by exactly the gain when no achievement unlocked on the
      way; everything Advanced keeps is kept. */
  lemma SettledThenAdvanced(a: ProgressionData, b: ProgressionData, c: ProgressionData, gain: int)
    requires Settled(a, b, gain) && Advanced(b, c)
    ensures Keeps(a.achievements, c.achievements) && Grew(Lists(a), Lists(c))
    ensures c.stats == a.stats && c.selectedSkin == a.selectedSkin && c.selectedTrail == a.selectedTrail
    ensures c.level.level >= a.level.level && c.level.totalExperience >= a.level.totalExperience + gain
    ensures Locked(c.achievements) == Locked(a.achievements) ==> c.level.totalExperience == a.level.totalExperience + gain
  {
    KeepsTransitive(a.achievements, b.achievements, c.achievements);
    GrewTransitive(Lists(a), Lists(b), Lists(c));
  }

  /** What `updateAchievementProgress` has returned after its first `i` turns, from data
      `o` to data `d`: each returned achievement is one of the first `i`, locked in `o` and
      unlocked in `d`; and every one of the first `i` that unlocked by its own progress
      has been returned. */
  predicate Reported(o: ProgressionData, d: ProgressionData, i: int, reported: seq<Achievement>)
    requires 0 <= i <= |o.achievements| && |d.achievements| == |o.achievements|
  {
    (forall k :: 0 <= k < |reported| ==>
       exists m :: 0 <= m < i && reported[k].id == o.achievements[m].id &&
                   !o.achievements[m].unlocked && d.achievements[m].unlocked) &&
    (forall m :: 0 <= m < i && Earned(o.achievements[m], d.achievements[m]) ==>
       exists k :: 0 <= k < |reported| && reported[k].id == o.achievements[m].id)
  }

  /** The returned list after a turn that returned `newlyUnlocked`. */
  function Pushed(reported: seq<Achievement>, newlyUnlocked: Option<Achievement>): seq<Achievement> {
    if newlyUnlocked.Some? then reported + [newlyUnlocked.value] else reported
  }

  /** One more turn of `updateAchievementProgress`'s loop, as ProgressAt states it,
      extends Reported by the achievement it returns, if any. */
  lemma ReportedNext(o: ProgressionData, b: ProgressionData, a: ProgressionData, i: int, kind: string, value: int,
                     reported: seq<Achievement>, newlyUnlocked: Option<Achievement>)
    requires 0 <= i < |o.achievements|
    requires Progressed(o, b, 0, i, kind, value) && Progressed(b, a, i, i + 1, kind, value)
    requires Reported(o, b, i, reported)
    requires newlyUnlocked.Some? <==> !b.achievements[i].unlocked && a.achievements[i].unlocked
    requires newlyUnlocked.Some? ==> newlyUnlocked.value.id == b.achievements[i].id
    ensures Reported(o, a, i + 1, Pushed(reported, newlyUnlocked))
  {
    var r := Pushed(reported, newlyUnlocked);
    assert Evolved(o.achievements[i], b.achievements[i]);
    forall k | 0 <= k < |r|
      ensures exists m :: 0 <= m < i + 1 && r[k].id == o.achievements[m].id &&
                          !o.achievements[m].unlocked && a.achievements[m].unlocked
    {
      if k < |reported| {
        var m :| 0 <= m < i && reported[k].id == o.achievements[m].id &&
                 !o.achievements[m].unlocked && b.achievements[m].unlocked;
        assert Evolved(b.achievements[m], a.achievements[m]);
        assert r[k] == reported[k];
      } else {
        assert r[k] == newlyUnlocked.value;
      }
    }
    forall m | 0 <= m < i + 1 && Earned(o.achievements[m], a.achievements[m])
      ensures exists k :: 0 <= k < |r| && r[k].id == o.achievements[m].id
    {
      assert Evolved(o.achievements[m], b.achievements[m]) && Evolved(b.achievements[m], a.achievements[m]);
      if m < i {
        assert !Earned(b.achievements[m], a.achievements[m]);
        assert Earned(o.achievements[m], b.achievements[m]);
        var k :| 0 <= k < |reported| && reported[k].id == o.achievements[m].id;
        assert r[k] == reported[k];
      } else {
        assert !Earned(o.achievements[m], b.achievements[m]);
        assert r[|reported|].id == o.achievements[m].id;
      }
    }
    assert |a.achievements| == |o.achievements|;
    assert (forall k :: 0 <= k < |r| ==>
       exists m :: 0 <= m < i + 1 && r[k].id == o.achievements[m].id &&
                   !o.achievements[m].unlocked && a.achievements[m].unlocked);
    assert (forall m :: 0 <= m < i + 1 && Earned(o.achievements[m], a.achievements[m]) ==>
       exists k :: 0 <= k < |r| && r[k].id == o.achievements[m].id);
    assert Reported(o, a, i + 1, r);
  }

  /** No turn yet. */
  lemma ProgressedNone(o: ProgressionData, kind: string, value: int)
    ensures Progressed(o, o, 0, 0, kind, value)
  {
    forall m | 0 <= m < |o.achievements|
      ensures Evolved(o.achievements[m], o.achievements[m])
    {
    }
  }

  /** Two consecutive ranges of turns make one. */
  lemma ProgressedJoin(o: ProgressionData, b: ProgressionData, a: ProgressionData, lo: int, mid: int, hi: int,
                       kind: string, value: int)
    requires Progressed(o, b, lo, mid, kind, value) && Progressed(b, a, mid, hi, kind, value)
    requires lo <= mid <= hi
    ensures Progressed(o, a, lo, hi, kind, value)
  {
    KeepsTransitive(o.achievements, b.achievements, a.achievements);
    GrewTransitive(Lists(o), Lists(b), Lists(a));
    forall m | 0 <= m < |o.achievements| && Regular(o.achievements[m])
      ensures a.achievements[m] == if lo <= m < hi then AdvanceRegular(o.achievements[m], kind, value) else o.achievements[m]
    {
      assert Regular(b.achievements[m]);
    }
    forall m | 0 <= m < |o.achievements| && Earned(o.achievements[m], a.achievements[m])
      ensures lo <= m < hi && (o.achievements[m].steps != [] ==> AllCompleted(a.achievements[m].steps))
    {
      assert Evolved(o.achievements[m], b.achievements[m]);
      if b.achievements[m].unlocked {
        assert Earned(o.achievements[m], b.achievements[m]);
        if o.achievements[m].steps != [] {
          KeepsCompleted(b.achievements, a.achievements, m);
        }
      } else {
        assert Earned(b.achievements[m], a.achievements[m]);
      }
    }
  }

  /** Where `updateAchievementProgress` stands after its first `i` turns, from data `o`
      to data `d`, having returned `reported`: the turns so far Progressed; the returned
      achievements are unlocked, number no more than the achievements that unlocked, have
      their rewards unlocked and are the ones Reported; and when nothing has unlocked, the
      total experience is unchanged. */
  predicate Turned(o: ProgressionData, d: ProgressionData, i: int, kind: string, value: int, reported: seq<Achievement>) {
    0 <= i <= |o.achievements| && |d.achievements| == |o.achievements| &&
    Progressed(o, d, 0, i, kind, value) &&
    |reported| + Locked(d.achievements) <= Locked(o.achievements) &&
    (forall k :: 0 <= k < |reported| ==> reported[k].unlocked) &&
    (forall k :: 0 <= k < |reported| && reported[k].reward.Some? && reported[k].reward.value.kind != Pattern ==>
       reported[k].reward.value.id in ListFor(Lists(d), reported[k].reward.value.kind)) &&
    Reported(o, d, i, reported) &&
    (Locked(d.achievements) == Locked(o.achievements) ==> d.level.totalExperience == o.level.totalExperience)
  }

  /** One more turn, as ProgressAt states it, extends Turned. */
  lemma TurnedNext(o: ProgressionData, b: ProgressionData, a: ProgressionData, i: int, kind: string, value: int,
                   reported: seq<Achievement>, newlyUnlocked: Option<Achievement>)
    requires Turned(o, b, i, kind, value, reported) && i < |o.achievements|
    requires Progressed(b, a, i, i + 1, kind, value)
    requires newlyUnlocked.Some? <==> !b.achievements[i].unlocked && a.achievements[i].unlocked
    requires newlyUnlocked.Some? ==>
               newlyUnlocked.value.unlocked && newlyUnlocked.value.id == b.achievements[i].id &&
               newlyUnlocked.value.reward == b.achievements[i].reward
    requires newlyUnlocked.Some? && newlyUnlocked.value.reward.Some? && newlyUnlocked.value.reward.value.kind != Pattern ==>
               newlyUnlocked.value.reward.value.id in ListFor(Lists(a), newlyUnlocked.value.reward.value.kind)
    requires Locked(a.achievements) + (if newlyUnlocked.Some? then 1 else 0) <= Locked(b.achievements)
    requires Locked(a.achievements) == Locked(b.achievements) ==> a.level.totalExperience == b.level.totalExperience
    ensures Turned(o, a, i + 1, kind, value, Pushed(reported, newlyUnlocked))
  {
    ReportedNext(o, b, a, i, kind, value, reported, newlyUnlocked);
    ProgressedJoin(o, b, a, 0, i, i + 1, kind, value);
    var r := Pushed(reported, newlyUnlocked);
    forall k | 0 <= k < |r| && r[k].reward.Some? && r[k].reward.value.kind != Pattern
      ensures r[k].reward.value.id in ListFor(Lists(a), r[k].reward.value.kind)
    {
      if k < |reported| {
        assert r[k] == reported[k];
        GrewKeepsMember(Lists(b), Lists(a), r[k].reward.value.kind, r[k].reward.value.id);
      }
    }
  }

  /** A turn that does not unlock its achievement. */
  lemma NoUnlockProgressed(o: ProgressionData, i: int, x: Achievement, kind: string, value: int)
    requires 0 <= i < |o.achievements| && x.unlocked == o.achievements[i].unlocked && Evolved(o.achievements[i], x)
    requires Regular(o.achievements[i]) ==> x == AdvanceRegular(o.achievements[i], kind, value)
    ensures Progressed(o, o.(achievements := o.achievements[i := x]), i, i + 1, kind, value)
    ensures Locked(o.achievements[i := x]) == Locked(o.achievements)
  {
    LockedUpdate(o.achievements, i, x);
    var d := o.(achievements := o.achievements[i := x]);
    assert Lists(d) == Lists(o);
    forall m | 0 <= m < |o.achievements|
      ensures Evolved(o.achievements[m], d.achievements[m])
    {
    }
  }

  /** A turn that unlocks its achievement, then settles the reward and the bonus. */
  lemma UnlockProgressed(o: ProgressionData, i: int, x: Achievement, d: ProgressionData, kind: string, value: int, bonus: int)
    requires 0 <= i < |o.achievements| && !o.achievements[i].unlocked && x.unlocked && Evolved(o.achievements[i], x)
    requires Regular(o.achievements[i]) ==> x == AdvanceRegular(o.achievements[i], kind, value)
    requires o.achievements[i].steps != [] ==> AllCompleted(x.steps)
    requires bonus >= 0 && Settled(o.(achievements := o.achievements[i := x]), d, bonus)
    ensures Progressed(o, d, i, i + 1, kind, value)
    ensures Locked(d.achievements) + 1 <= Locked(o.achievements)
  {
    var u := o.(achievements := o.achievements[i := x]);
    LockedUpdate(o.achievements, i, x);
    assert Lists(u) == Lists(o);
    forall m | 0 <= m < |o.achievements|
      ensures Evolved(o.achievements[m], u.achievements[m])
    {
    }
    KeepsTransitive(o.achievements, u.achievements, d.achievements);
    forall m | 0 <= m < |o.achievements| && Regular(o.achievements[m])
      ensures d.achievements[m] == if i <= m < i + 1 then AdvanceRegular(o.achievements[m], kind, value) else o.achievements[m]
    {
      assert Regular(u.achievements[m]);
    }
    forall m | 0 <= m < |o.achievements| && Earned(o.achievements[m], d.achievements[m])
      ensures i <= m < i + 1 && (o.achievements[m].steps != [] ==> AllCompleted(d.achievements[m].steps))
    {
      if m == i {
        if o.achievements[m].steps != [] {
          KeepsCompleted(u.achievements, d.achievements, m);
        }
      }
    }
    assert d.level.totalExperience >= u.level.totalExperience;
  }

  /** A level-up (ClimbSettled) followed by the bookkeeping of its reward extends a
      Settled gain, raises the level, and lowers the locked count or, failing that, the
      experience: the measure by which `addExperience`'s loop ends. */
  lemma LevelUpSettled(o: ProgressionData, before: ProgressionData, climbed: ProgressionData, after: ProgressionData,
                       amount: int)
    requires ValidData(before) && Settled(o, before, amount) && before.level.experience >= before.level.experienceToNext
    requires climbed == before.(level := PlayerLevel(before.level.level + 1,
                                                     before.level.experience - before.level.experienceToNext,
                                                     Threshold(before.level.level + 1), before.level.totalExperience))
    requires Settled(climbed, after, 0)
    ensures Settled(o, after, amount)
    ensures after.level.level > before.level.level
    ensures Locked(after.achievements) < Locked(before.achievements) ||
            (Locked(after.achievements) == Locked(before.achievements) && after.level.experience < before.level.experience)
  {
    ClimbSettled(before, climbed);
    SettledTransitive(o, before, climbed, amount, 0);
    SettledTransitive(o, climbed, after, amount, 0);
  }

  /** Completed steps stay completed. */
  lemma KeepsCompleted(b: seq<Achievement>, a: seq<Achievement>, j: int)
    requires Keeps(b, a) && 0 <= j < |b| && AllCompleted(b[j].steps)
    ensures AllCompleted(a[j].steps)
  {
    assert Evolved(b[j], a[j]);
  }

  /** The default progression data of a new player. */
  function DefaultData(): (d: ProgressionData)
    ensures ValidData(d)
  {
    FirstThresholds();
    ProgressionData(
      PlayerLevel(1, 0, 100, 0),
      DEFAULT_ACHIEVEMENTS,
      ["solid"], ["basic"], ["#00ff00", "#0080ff", "#ff0000"], ["square", "circle"],
      "solid", "basic",
      Stats(0, 0, 0, 0, 0, 0, 0, 0, 0, 0, Single))
  }

  // ---------------------------------------------------------------------------
  // The progression system

  class ProgressionSystem {
    var data: ProgressionData

    predicate Valid()
      reads this
    {
      ValidData(data)
    }

    /** `isUnlocked`; a pattern, which has no list, is never unlocked. */
    predicate IsUnlocked(kind: RewardKind, id: string)
      reads this
    {
      id in ListFor(Lists(data), kind)
    }

    /** A new player's progression. */
    constructor ()
      ensures Valid() && data == DefaultData()
    {
      data := DefaultData();
    }

    /** `addExperience`: adds `amount`, then levels up while the experience reaches the
        threshold: it pays the threshold, raises the level, computes the next threshold and
        grants the level's reward. The data is Settled with gain `amount`; on return the
        experience is below the threshold, and `leveledUp` holds exactly when the level
        rose. */
    method AddExperience(amount: int) returns (leveledUp: bool, newLevel: Option<int>)
      requires Valid()
      modifies this
      ensures Valid()
      ensures Settled(old(data), data, amount)
      ensures Locked(data.achievements) == old(Locked(data.achievements)) ==>
                data.level.totalExperience == old(data.level.totalExperience) + amount
      ensures data.level.experience < data.level.experienceToNext
      ensures leveledUp <==> data.level.level > old(data.level.level)
      ensures newLevel.Some? <==> leveledUp
      ensures newLevel.Some? ==> old(data.level.level) < newLevel.value <= data.level.level
      decreases Locked(data.achievements), 5
    {
      ghost var start := data;
      data := data.(level := data.level.(experience := data.level.experience + amount));
      data := data.(level := data.level.(totalExperience := data.level.totalExperience + amount));
      GainSettled(start, amount, data);
      leveledUp := false;
      newLevel := None;
      while data.level.experience >= data.level.experienceToNext
        invariant Valid()
        invariant Settled(old(data), data, amount)
        invariant leveledUp <==> data.level.level > old(data.level.level)
        invariant newLevel.Some? <==> leveledUp
        invariant newLevel.Some? ==> old(data.level.level) < newLevel.value <= data.level.level
        decreases Locked(data.achievements), data.level.experience
      {
        ghost var before := data;
        data := data.(level := data.level.(experience := data.level.experience - data.level.experienceToNext));
        data := data.(level := data.level.(level := data.level.level + 1));
        newLevel := Some(data.level.level);
        leveledUp := true;
        data := data.(level := data.level.(experienceToNext := Threshold(data.level.level)));
        ClimbSettled(before, data);
        ghost var climbed := data;
        CheckLevelUnlocks(data.level.level);
        LevelUpSettled(old(data), before, climbed, data, amount);
      }
    }

    /** `checkLevelUnlocks`: the reward of a level, if it has one, is unlocked; any other
        level changes nothing. */
    method CheckLevelUnlocks(level: int)
      requires Valid()
      modifies this
      ensures Valid()
      ensures Settled(old(data), data, 0)
      ensures LevelReward(level).None? ==> data == old(data)
      ensures LevelReward(level).Some? ==> IsUnlocked(LevelReward(level).value.kind, LevelReward(level).value.id)
      decreases Locked(data.achievements), 4
    {
      var reward := LevelReward(level);
      if reward.Some? {
        UnlockReward(reward.value);
      }
    }

    /** `unlockReward`: the item joins the list of its kind unless it is already there (a
        pattern has no list and changes nothing), and a new item triggers the unlock count.
        Afterwards the item is unlocked; when it already was, nothing changes; and when the
        count unlocks no achievement, the lists are the old ones with the item added. */
    method UnlockReward(reward: Reward)
      requires Valid()
      modifies this
      ensures Valid()
      ensures Settled(old(data), data, 0)
      ensures reward.kind != Pattern ==> IsUnlocked(reward.kind, reward.id)
      ensures reward.kind == Pattern || old(IsUnlocked(reward.kind, reward.id)) ==> data == old(data)
      ensures Locked(data.achievements) == old(Locked(data.achievements)) ==> Lists(data) == WithReward(old(Lists(data)), reward)
      decreases Locked(data.achievements), 3
    {
      var wasNewUnlock := PushReward(reward);
      RewardSettled(old(data), reward);
      if wasNewUnlock {
        ghost var added := data;
        UpdateUnlocksCount();
        GrewKeepsMember(Lists(added), Lists(data), reward.kind, reward.id);
        SettledTransitive(old(data), added, data, 0, 0);
      }
    }

    /** The `switch` of `unlockReward`: the item is pushed onto the list of its kind unless
        it is already there; a pattern has no list. `wasNewUnlock` tells whether a list
        changed. */
    method PushReward(reward: Reward) returns (wasNewUnlock: bool)
      modifies this
      ensures data == WithLists(old(data), WithReward(old(Lists(data)), reward))
      ensures wasNewUnlock <==> reward.kind != Pattern && reward.id !in ListFor(old(Lists(data)), reward.kind)
    {
      wasNewUnlock := false;
      match reward.kind {
        case Skin =>
          if reward.id !in data.unlockedSkins {
            data := data.(unlockedSkins := data.unlockedSkins + [reward.id]);
            wasNewUnlock := true;
          }
        case Color =>
          if reward.id !in data.unlockedColors {
            data := data.(unlockedColors := data.unlockedColors + [reward.id]);
            wasNewUnlock := true;
          }
        case Trail =>
          if reward.id !in data.unlockedTrails {
            data := data.(unlockedTrails := data.unlockedTrails + [reward.id]);
            wasNewUnlock := true;
          }
        case HeadShape =>
          if reward.id !in data.unlockedHeadShapes {
            data := data.(unlockedHeadShapes := data.unlockedHeadShapes + [reward.id]);
            wasNewUnlock := true;
          }
        case Pattern =>
      }
    }

    /** `updateUnlocksCount`: with the totals taken at the start, every achievement in turn
        is tracked (TrackAt). Every locked achievement counting unlocks whose requirement
        the starting total meets ends unlocked; and when none unlocks, each achievement is
        the tracked version of the old one and nothing else changes. */
    method UpdateUnlocksCount()
      requires Valid()
      modifies this
      ensures Valid()
      ensures Settled(old(data), data, 0)
      ensures forall i :: 0 <= i < |data.achievements| && Owed(old(data).achievements[i], Total(old(Lists(data)))) ==>
                data.achievements[i].unlocked
      ensures Locked(data.achievements) == old(Locked(data.achievements)) ==>
                data == old(data).(achievements := data.achievements) &&
                forall i :: 0 <= i < |data.achievements| ==>
                  data.achievements[i] == Track(old(data).achievements[i], |old(data).unlockedSkins|, |old(data).unlockedTrails|,
                                                |old(data).unlockedColors|, |old(data).achievements| - old(Locked(data.achievements)),
                                                Total(old(Lists(data))))
      decreases Locked(data.achievements), 2
    {
      var totalUnlocks := Total(Lists(data));
      var totalAchievements := |data.achievements| - Locked(data.achievements);
      var i := 0;
      while i < |data.achievements|
        invariant |data.achievements| == |old(data).achievements|
        invariant Valid()
        invariant TrackedUpTo(old(data), data, i, totalUnlocks, totalAchievements)
      {
        ghost var before := data;
        TrackAt(i, totalUnlocks, totalAchievements);
        TrackedUpToNext(old(data), before, data, i, totalUnlocks, totalAchievements);
        i := i + 1;
      }
    }

    /** One turn of `updateUnlocksCount`'s loop: the achievement's unlock count (CountAt),
        then its incomplete steps, which follow their list (read afresh) or the starting
        totals. */
    method TrackAt(i: int, totalUnlocks: nat, totalAchievements: nat)
      requires Valid() && 0 <= i < |data.achievements|
      modifies this
      ensures Valid()
      ensures Settled(old(data), data, 0)
      ensures Owed(old(data).achievements[i], totalUnlocks) ==> data.achievements[i].unlocked
      ensures Locked(data.achievements) == old(Locked(data.achievements)) ==>
                data == old(data).(achievements := old(data).achievements[i := Track(old(data).achievements[i],
                  |old(data).unlockedSkins|, |old(data).unlockedTrails|, |old(data).unlockedColors|, totalAchievements, totalUnlocks)])
      decreases Locked(data.achievements), 1
    {
      CountAt(i, totalUnlocks);
      ghost var counted := data;
      var b := data.achievements[i];
      var tracked := b.(steps := TrackSteps(b.steps, |data.unlockedSkins|, |data.unlockedTrails|, |data.unlockedColors|,
                                            totalAchievements, totalUnlocks));
      TrackStepsSettled(data, i, |data.unlockedSkins|, |data.unlockedTrails|, |data.unlockedColors|,
                        totalAchievements, totalUnlocks, data.(achievements := data.achievements[i := tracked]));
      data := data.(achievements := data.achievements[i := tracked]);
      SettledTransitive(old(data), counted, data, 0, 0);
    }

    /** The unlock count of one achievement: a locked achievement counting unlocks takes
        the starting total as its progress and, once that meets its requirement, unlocks
        and earns 50 experience. */
    method CountAt(i: int, totalUnlocks: nat)
      requires Valid() && 0 <= i < |data.achievements|
      modifies this
      ensures Valid()
      ensures Settled(old(data), data, 0)
      ensures Owed(old(data).achievements[i], totalUnlocks) ==> data.achievements[i].unlocked
      ensures Locked(data.achievements) == old(Locked(data.achievements)) ==>
                data == old(data).(achievements := old(data).achievements[i := CountUnlocks(old(data).achievements[i], totalUnlocks)])
      decreases Locked(data.achievements), 0
    {
      var a := data.achievements[i];
      if !a.unlocked && a.kind == UNLOCKS_COUNT {
        a := a.(progress := totalUnlocks);
        if a.progress >= a.requirement {
          a := a.(unlocked := true);
          ghost var before := data;
          ReplaceSettled(data, i, a, data.(achievements := data.achievements[i := a]));
          data := data.(achievements := data.achievements[i := a]);
          ghost var unlocked := data;
          var leveledUp, newLevel := AddExperience(50);
          SettledTransitive(before, unlocked, data, -50, 50);
        } else {
          ReplaceSettled(data, i, a, data.(achievements := data.achievements[i := a]));
          data := data.(achievements := data.achievements[i := a]);
        }
      }
    }

    /** The lines `updateAchievementProgress` repeats after unlocking an achievement: its
        reward, if any, is unlocked and the unlock count refreshed, then `bonus` experience
        is added. The data is Settled with gain `bonus`, and the reward is unlocked. */
    method GrantRewards(reward: Option<Reward>, bonus: int)
      requires Valid()
      modifies this
      ensures Valid()
      ensures Settled(old(data), data, bonus)
      ensures reward.Some? && reward.value.kind != Pattern ==> IsUnlocked(reward.value.kind, reward.value.id)
    {
      if reward.Some? {
        UnlockReward(reward.value);
        ghost var rewarded := data;
        UpdateUnlocksCount();
        SettledTransitive(old(data), rewarded, data, 0, 0);
        if reward.value.kind != Pattern {
          GrewKeepsMember(Lists(rewarded), Lists(data), reward.value.kind, reward.value.id);
        }
      }
      ghost var counted := data;
      var leveledUp, newLevel := AddExperience(bonus);
      SettledTransitive(old(data), counted, data, 0, bonus);
      if reward.Some? && reward.value.kind != Pattern {
        GrewKeepsMember(Lists(counted), Lists(data), reward.value.kind, reward.value.id);
      }
    }

    /** `updateMultiStepAchievement`: every incomplete step tracking `kind` follows the
        progress rule and is completed once it reaches its requirement; the achievement's
        progress becomes the number of completed steps. An achievement without steps is
        returned as it is. */
    method UpdateMultiStepAchievement(achievement: Achievement, kind: string, value: int) returns (updated: Achievement)
      ensures |achievement.steps| == 0 ==> updated == achievement
      ensures |achievement.steps| > 0 ==>
                updated == achievement.(steps := updated.steps, progress := CompletedCount(updated.steps))
      ensures |updated.steps| == |achievement.steps|
      ensures forall k :: 0 <= k < |updated.steps| ==> updated.steps[k] == AdvanceStep(achievement.steps[k], kind, value)
    {
      if |achievement.steps| == 0 {
        return achievement;
      }
      var steps := achievement.steps;
      var k := 0;
      while k < |steps|
        invariant |steps| == |achievement.steps| && 0 <= k <= |steps|
        invariant forall j :: 0 <= j < k ==> steps[j] == AdvanceStep(achievement.steps[j], kind, value)
        invariant forall j :: k <= j < |steps| ==> steps[j] == achievement.steps[j]
      {
        var step := steps[k];
        if !step.completed && step.kind == kind {
          if kind == SNAKE_LENGTH {
            step := step.(progress := if step.progress >= value then step.progress else value);
          } else {
            step := step.(progress := if step.requirement <= step.progress + value then step.requirement else step.progress + value);
          }
          if step.progress >= step.requirement {
            step := step.(completed := true);
          }
          steps := steps[k := step];
        }
        k := k + 1;
      }
      updated := achievement.(steps := steps, progress := CompletedCount(steps));
    }

    /** The part of `updateAchievementProgress`'s turn that concerns the achievement
        itself. A locked achievement with steps advances them (UpdateMultiStepAchievement)
        and unlocks exactly when all of them are completed; a locked achievement without
        steps follows the progress rule when it tracks `kind` and unlocks exactly when its
        progress reaches the requirement (AdvanceRegular); an unlocked achievement is left
        as it is. */
    method AdvanceAchievement(achievement: Achievement, kind: string, value: int) returns (updated: Achievement)
      ensures achievement.unlocked ==> updated == achievement
      ensures Evolved(achievement, updated)
      ensures achievement.steps == [] ==> updated == AdvanceRegular(achievement, kind, value)
      ensures !achievement.unlocked && achievement.steps != [] ==>
                updated == achievement.(steps := updated.steps, progress := CompletedCount(updated.steps),
                                        unlocked := AllCompleted(updated.steps)) &&
                |updated.steps| == |achievement.steps| &&
                forall k :: 0 <= k < |updated.steps| ==> updated.steps[k] == AdvanceStep(achievement.steps[k], kind, value)
    {
      updated := achievement;
      if updated.unlocked {
        return;
      }
      if |updated.steps| > 0 {
        updated := UpdateMultiStepAchievement(updated, kind, value);
        if AllCompleted(updated.steps) {
          updated := updated.(unlocked := true);
        }
      } else if updated.kind == kind {
        if kind == SNAKE_LENGTH {
          updated := updated.(progress := if updated.progress >= value then updated.progress else value);
        } else {
          updated := updated.(progress := if updated.requirement <= updated.progress + value then updated.requirement
                                          else updated.progress + value);
        }
        if updated.progress >= updated.requirement {
          updated := updated.(unlocked := true);
        }
      }
    }

    /** One turn of `updateAchievementProgress`'s loop, on achievement `i`: the achievement
        advances (AdvanceAchievement); if that unlocked it, its reward and its experience
        follow (100 for an achievement with steps, 200 for a milestone, 50 otherwise). The
        achievement is returned exactly when this turn unlocked it. */
    method ProgressAt(i: int, kind: string, value: int) returns (newlyUnlocked: Option<Achievement>)
      requires Valid() && 0 <= i < |data.achievements|
      modifies this
      ensures Valid()
      ensures Progressed(old(data), data, i, i + 1, kind, value)
      ensures newlyUnlocked.Some? <==> !old(data).achievements[i].unlocked && data.achievements[i].unlocked
      ensures newlyUnlocked.Some? ==>
                newlyUnlocked.value.unlocked && newlyUnlocked.value.id == old(data).achievements[i].id &&
                newlyUnlocked.value.reward == old(data).achievements[i].reward
      ensures newlyUnlocked.Some? && newlyUnlocked.value.reward.Some? && newlyUnlocked.value.reward.value.kind != Pattern ==>
                IsUnlocked(newlyUnlocked.value.reward.value.kind, newlyUnlocked.value.reward.value.id)
      ensures Locked(data.achievements) + (if newlyUnlocked.Some? then 1 else 0) <= old(Locked(data.achievements))
      ensures Locked(data.achievements) == old(Locked(data.achievements)) ==>
                data.level.totalExperience == old(data.level.totalExperience)
    {
      newlyUnlocked := None;
      var a := AdvanceAchievement(data.achievements[i], kind, value);
      if a.unlocked && !data.achievements[i].unlocked {
        data := data.(achievements := data.achievements[i := a]);
        newlyUnlocked := Some(a);
        var bonus := if |a.steps| > 0 then 100 else if a.milestone then 200 else 50;
        GrantRewards(a.reward, bonus);
        UnlockProgressed(old(data), i, a, data, kind, value, bonus);
      } else {
        NoUnlockProgressed(data, i, a, kind, value);
        data := data.(achievements := data.achievements[i := a]);
      }
    }

    /** `updateAchievementProgress`: every achievement takes its turn (ProgressAt) after a
        report of `value` for statistic `kind`. Regular achievements follow the progress
        rule, an achievement unlocks by its own progress only through its rule (all steps
        completed for one with steps), the returned achievements are unlocked, number no
        more than the achievements that unlocked, and their rewards are unlocked. Each
        returned achievement was locked at the start and is unlocked at the end, and every
        achievement that unlocked by its own progress is returned (Reported). When nothing
        unlocks, the total experience is unchanged. */
    method UpdateAchievementProgress(kind: string, value: int) returns (unlockedAchievements: seq<Achievement>)
      requires Valid()
      modifies this
      ensures Valid()
      ensures Progressed(old(data), data, 0, |old(data).achievements|, kind, value)
      ensures Advanced(old(data), data)
      ensures |unlockedAchievements| + Locked(data.achievements) <= old(Locked(data.achievements))
      ensures forall k :: 0 <= k < |unlockedAchievements| ==> unlockedAchievements[k].unlocked
      ensures forall k :: 0 <= k < |unlockedAchievements| && unlockedAchievements[k].reward.Some? &&
                          unlockedAchievements[k].reward.value.kind != Pattern ==>
                IsUnlocked(unlockedAchievements[k].reward.value.kind, unlockedAchievements[k].reward.value.id)
      ensures |data.achievements| == |old(data).achievements|
      ensures Reported(old(data), data, |old(data).achievements|, unlockedAchievements)
    {
      unlockedAchievements := [];
      ProgressedNone(data, kind, value);
      var i := 0;
      while i < |data.achievements|
        invariant |data.achievements| == |old(data).achievements|
        invariant Valid()
        invariant Turned(old(data), data, i, kind, value, unlockedAchievements)
      {
        ghost var before := data;
        var newlyUnlocked := ProgressAt(i, kind, value);
        TurnedNext(old(data), before, data, i, kind, value, unlockedAchievements, newlyUnlocked);
        if newlyUnlocked.Some? {
          unlockedAchievements := unlockedAchievements + [newlyUnlocked.value];
        }
        i := i + 1;
      }
    }

    /** `updateAchievementProgress` called for its effect alone, its returned list unused,
        as `recordGameEnd` calls it: data Advanced from `start` stays Advanced from it. */
    method Report(kind: string, value: int, ghost start: ProgressionData)
      requires Valid() && Advanced(start, data)
      modifies this
      ensures Valid() && Advanced(start, data)
    {
      ghost var before := data;
      var reported := UpdateAchievementProgress(kind, value);
      AdvancedTransitive(start, before, data);
    }

    /** What `recordGameEnd` does once the statistics are recorded: the game's experience,
        then the achievement reports in its order (the multiplayer count only for a
        multiplayer game, the perfect-game count only once there is one). The total
        experience grows by at least `expGained`, and by exactly `expGained` when no
        achievement unlocks; everything Advanced keeps is kept. */
    method AwardGame(expGained: int, score: int, gameTime: int, foodsEaten: int, wallsBroken: int, bulletsFired: int,
                     teleports: int, snakeLength: int, gameMode: GameMode)
      requires Valid()
      modifies this
      ensures Valid()
      ensures Keeps(old(data).achievements, data.achievements) && Grew(old(Lists(data)), Lists(data))
      ensures data.stats == old(data.stats) && data.selectedSkin == old(data.selectedSkin) && data.selectedTrail == old(data.selectedTrail)
      ensures data.level.level >= old(data.level.level)
      ensures data.level.totalExperience >= old(data.level.totalExperience) + expGained
      ensures Locked(data.achievements) == old(Locked(data.achievements)) ==>
                data.level.totalExperience == old(data.level.totalExperience) + expGained
    {
      var leveledUp, newLevel := AddExperience(expGained);
      ghost var start := data;
      AdvancedSelf(start);
      Report("score", score, start);
      Report("games_played", 1, start);
      Report("foods_eaten", foodsEaten, start);
      Report("walls_broken", wallsBroken, start);
      Report("survival_time", gameTime, start);
      Report("bullet_master", bulletsFired, start);
      Report("teleport_expert", teleports, start);
      Report(SNAKE_LENGTH, snakeLength, start);
      if gameMode == Multiplayer {
        Report("multiplayer_games", 1, start);
      }
      if data.stats.perfectGames > 0 {
        Report("perfect_games", data.stats.perfectGames, start);
      }
      SettledThenAdvanced(old(data), start, data, expGained);
    }

    /** `recordGameEnd` without the challenges and the date: the statistics take the game
        (one more game, running totals, records as maxima, a perfect game when the score
        reaches 500 without breaking a wall, the mode played), the game's experience is
        added (GameExperience: exactly that when no achievement unlocks, at least that
        otherwise), and the achievements take the reports. */
    method RecordGameEnd(score: int, gameTime: int, foodsEaten: int, wallsBroken: int, bulletsFired: int,
                         teleports: int, snakeLength: int, gameMode: GameMode)
      requires Valid()
      modifies this
      ensures Valid()
      ensures data.stats.totalGames == old(data.stats.totalGames) + 1
      ensures data.stats.totalScore == old(data.stats.totalScore) + score
      ensures data.stats.totalFoodsEaten == old(data.stats.totalFoodsEaten) + foodsEaten
      ensures data.stats.totalWallsBroken == old(data.stats.totalWallsBroken) + wallsBroken
      ensures data.stats.totalSurvivalTime == old(data.stats.totalSurvivalTime) + gameTime
      ensures data.stats.totalBulletsFired == old(data.stats.totalBulletsFired) + bulletsFired
      ensures data.stats.totalTeleports == old(data.stats.totalTeleports) + teleports
      ensures data.stats.highestScore == if score > old(data.stats.highestScore) then score else old(data.stats.highestScore)
      ensures data.stats.longestSnake == if snakeLength > old(data.stats.longestSnake) then snakeLength else old(data.stats.longestSnake)
      ensures data.stats.perfectGames == old(data.stats.perfectGames) + if score >= 500 && wallsBroken == 0 then 1 else 0
      ensures data.stats.favoriteGameMode == gameMode
      ensures data.level.totalExperience >= old(data.level.totalExperience) + GameExperience(score, gameTime, foodsEaten, snakeLength)
      ensures Locked(data.achievements) == old(Locked(data.achievements)) ==>
                data.level.totalExperience == old(data.level.totalExperience) + GameExperience(score, gameTime, foodsEaten, snakeLength)
      ensures data.level.level >= old(data.level.level)
      ensures Keeps(old(data).achievements, data.achievements) && Grew(old(Lists(data)), Lists(data))
      ensures data.selectedSkin == old(data.selectedSkin) && data.selectedTrail == old(data.selectedTrail)
    {
      var stats := data.stats;
      stats := stats.(totalGames := stats.totalGames + 1);
      stats := stats.(totalScore := stats.totalScore + score);
      stats := stats.(totalFoodsEaten := stats.totalFoodsEaten + foodsEaten);
      stats := stats.(totalWallsBroken := stats.totalWallsBroken + wallsBroken);
      stats := stats.(totalSurvivalTime := stats.totalSurvivalTime + gameTime);
      stats := stats.(totalBulletsFired := stats.totalBulletsFired + bulletsFired);
      stats := stats.(totalTeleports := stats.totalTeleports + teleports);
      if score > stats.highestScore {
        stats := stats.(highestScore := score);
      }
      if snakeLength > stats.longestSnake {
        stats := stats.(longestSnake := snakeLength);
      }
      if score >= 500 && wallsBroken == 0 {
        stats := stats.(perfectGames := stats.perfectGames + 1);
      }
      stats := stats.(favoriteGameMode := gameMode);
      data := data.(stats := stats);

      var expGained := score / 10;
      expGained := expGained + gameTime / 1000;
      expGained := expGained + foodsEaten * 2;
      if score >= 1000 {
        expGained := expGained + 50;
      }
      if gameTime >= 60000 {
        expGained := expGained + 30;
      }
      if snakeLength >= 20 {
        expGained := expGained + 25;
      }
      assert expGained == GameExperience(score, gameTime, foodsEaten, snakeLength);
      AwardGame(expGained, score, gameTime, foodsEaten, wallsBroken, bulletsFired, teleports, snakeLength, gameMode);
    }

    /** `setSelected`: an unlocked skin or trail becomes the selected one; anything else
        changes nothing. */
    method SetSelected(kind: RewardKind, id: string)
      requires Valid() && (kind == Skin || kind == Trail)
      modifies this
      ensures Valid()
      ensures old(IsUnlocked(kind, id)) ==>
                data == old(data).(selectedSkin := if kind == Skin then id else old(data.selectedSkin),
                                   selectedTrail := if kind == Trail then id else old(data.selectedTrail))
      ensures !old(IsUnlocked(kind, id)) ==> data == old(data)
    {
      if IsUnlocked(kind, id) {
        if kind == Skin {
          data := data.(selectedSkin := id);
        }
        if kind == Trail {
          data := data.(selectedTrail := id);
        }
      }
    }
  }
}
