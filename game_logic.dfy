/** The Vue-era game primitives (src/utils/gameLogic.ts): snake movement, direction
    checks, collisions, food effects, wall generation and movement, food spawning and
    the two teleports. Every `Math.random()` is an explicit argument. */
module GameLogic {
  import opened Grid
  import opened Constants

  // ---------------------------------------------------------------------------
  // Snake movement and direction checks

  /** `moveSnake`: a copy of the snake with a new head in front; the tail is kept
      (the caller pops it when no food is eaten). */
  method MoveSnake(snake: seq<Pos>, direction: Pos) returns (moved: seq<Pos>)
    requires |snake| > 0
    ensures |moved| == |snake| + 1
    ensures moved[0] == Add(snake[0], direction)
    ensures moved[1..] == snake
  {
    moved := snake;
    var head := Add(moved[0], direction);
    moved := [head] + moved;
  }

  /** `isValidDirection`: the new direction may not negate the current one on an axis
      where the current one moves. */
  predicate IsValidDirection(current: Pos, next: Pos) {
    if current.x != 0 && next.x == -current.x then false
    else if current.y != 0 && next.y == -current.y then false
    else true
  }

  /** Among unit directions, exactly the reversal is refused: the same direction and
      both 90 degree turns are accepted. */
  lemma ValidDirectionIffNotReversal(current: Pos, next: Pos)
    requires IsUnit(current) && IsUnit(next)
    ensures IsValidDirection(current, next) <==> next != Neg(current)
    ensures IsValidDirection(current, current)
  {
  }

  // ---------------------------------------------------------------------------
  // Collisions

  /** `checkCollisions`: boundary, then walls, then the whole snake (no cell is exempt),
      then the other snake. */
  function CheckCollisions(head: Pos, snake: seq<Pos>, walls: seq<Pos>, otherSnake: seq<Pos>): (hit: bool)
    ensures hit <==> !InGrid(head) || head in walls || head in snake || head in otherSnake
  {
    if head.x < 0 || head.x >= GRID_SIZE || head.y < 0 || head.y >= GRID_SIZE then true
    else if Occupied(walls, head) then true
    else if Occupied(snake, head) then true
    else Occupied(otherSnake, head)
  }

  /** Moving onto the current tail counts as a collision: the tail cell is not exempt
      even though a plain move would vacate it. */
  lemma TailIsNotExempt(snake: seq<Pos>, walls: seq<Pos>, otherSnake: seq<Pos>)
    requires |snake| > 0
    ensures CheckCollisions(snake[|snake| - 1], snake, walls, otherSnake)
  {
  }

  // ---------------------------------------------------------------------------
  // Food effects

  datatype FoodOutcome = FoodOutcome(newSnake: seq<Pos>, scoreChange: int)

  /** `updateSnakeWithFood`: the effect of the eaten kind decides the new body; `points`
      is the caller's score value for that kind. */
  method UpdateSnakeWithFood(snake: seq<Pos>, foodType: FoodType, points: int) returns (r: FoodOutcome)
    requires |snake| > 0
    ensures Props(foodType).effect == Double ==>
      && |r.newSnake| == 2 * |snake| - 1
      && r.newSnake[..|snake|] == snake
      && (forall k :: |snake| <= k < |r.newSnake| ==> r.newSnake[k] == snake[|snake| - 1])
      && r.scoreChange == points
    ensures Props(foodType).effect == Shrink ==>
      && r.newSnake == (if |snake| > 3 then snake[..|snake| - 2] else snake)
      && r.scoreChange == points
    ensures Props(foodType).effect != Double && Props(foodType).effect != Shrink && foodType == Golden ==>
      r == FoodOutcome(snake + [snake[|snake| - 1], snake[|snake| - 1]], points * 2)
    ensures Props(foodType).effect != Double && Props(foodType).effect != Shrink && foodType != Golden ==>
      r == FoodOutcome(snake + [snake[|snake| - 1]], points)
  {
    var newSnake := snake;
    var effect := Props(foodType).effect;
    if effect == Double {
      var currentLength := |newSnake|;
      var i := 0;
      while i < currentLength - 1
        invariant 0 <= i <= currentLength - 1
        invariant |newSnake| == currentLength + i
        invariant newSnake[..currentLength] == snake
        invariant forall k :: currentLength <= k < |newSnake| ==> newSnake[k] == snake[currentLength - 1]
      {
        var lastSegment := newSnake[|newSnake| - 1];
        newSnake := newSnake + [lastSegment];
        i := i + 1;
      }
      return FoodOutcome(newSnake, points);
    } else if effect == Shrink {
      if |newSnake| > 3 {
        newSnake := newSnake[..|newSnake| - 1];
        newSnake := newSnake[..|newSnake| - 1];
      }
      return FoodOutcome(newSnake, points);
    } else {
      var lastSegment := newSnake[|newSnake| - 1];
      newSnake := newSnake + [lastSegment];
      if foodType == Golden {
        newSnake := newSnake + [lastSegment];
        return FoodOutcome(newSnake, points * 2);
      }
      return FoodOutcome(newSnake, points);
    }
  }

  /** Only the mushroom and the poison double or shrink the snake: every other kind, the
      bullet, growth and shrink pills included, takes the growing branch (the golden apple
      by two cells and double points, the rest by one cell). */
  lemma DefaultBranchKinds(t: FoodType)
    ensures Props(t).effect != Double && Props(t).effect != Shrink <==> t != Mushroom && t != Poison
  {
  }

  // ---------------------------------------------------------------------------
  // Wall clustering and moving walls

  /** Edge-adjacent cells (Manhattan distance 1). */
  predicate Adjacent(a: Pos, b: Pos) {
    Manhattan(a, b) == 1
  }

  /** The groups laid end to end. */
  function Flatten(groups: seq<seq<Pos>>): seq<Pos> {
    if |groups| == 0 then [] else Flatten(groups[..|groups| - 1]) + groups[|groups| - 1]
  }

  /** Every cell of a group after the first touches an earlier cell of the group, so the
      group is 4-connected. */
  predicate Connected(group: seq<Pos>) {
    forall k :: 0 < k < |group| ==> TouchesEarlier(group, k)
  }

  predicate TouchesEarlier(group: seq<Pos>, k: int)
    requires 0 <= k < |group|
  {
    exists j :: 0 <= j < k && Adjacent(group[k], group[j])
  }

  /** What `groupWalls` promises: non-empty connected groups that hold every wall cell
      exactly once, no two groups touching. */
  ghost predicate IsWallGrouping(walls: seq<Pos>, groups: seq<seq<Pos>>) {
    && (forall k :: 0 <= k < |groups| ==> |groups[k]| > 0 && Connected(groups[k]))
    && NoDups(Flatten(groups))
    && (forall p :: p in Flatten(groups) <==> p in walls)
    && (forall i, j, a, b :: 0 <= i < j < |groups| && a in groups[i] && b in groups[j] ==> !Adjacent(a, b))
  }

  /** `walls.filter(w => distance === 1 && !visited.has(w))`. */
  function AdjacentUnvisited(walls: seq<Pos>, current: Pos, visited: set<Pos>): (r: seq<Pos>)
    ensures forall w :: w in r <==> w in walls && Adjacent(w, current) && w !in visited
  {
    if |walls| == 0 then []
    else
      var rest := AdjacentUnvisited(walls[1..], current, visited);
      if Adjacent(walls[0], current) && walls[0] !in visited then [walls[0]] + rest else rest
  }

  lemma {:induction false} FlattenAppend(groups: seq<seq<Pos>>, group: seq<Pos>, k: nat)
    requires k < |groups|
    ensures Flatten((groups + [group])[..k + 1]) == Flatten(groups[..k + 1])
  {
    assert (groups + [group])[..k + 1] == groups[..k + 1];
  }

  /** Flatten splits at any group boundary. */
  lemma {:induction false} FlattenSplit(groups: seq<seq<Pos>>, k: nat)
    requires k <= |groups|
    ensures Flatten(groups) == Flatten(groups[..k]) + Flatten(groups[k..])
    decreases |groups|
  {
    if k < |groups| {
      var n := |groups|;
      var init := groups[..n - 1];
      FlattenSplit(init, k);
      assert init[..k] == groups[..k];
      assert groups[k..][..|groups[k..]| - 1] == init[k..];
      assert groups[k..][|groups[k..]| - 1] == groups[n - 1];
    } else {
      assert groups[..k] == groups;
      assert groups[k..] == [];
    }
  }

  /** Every cell of group k appears in Flatten, after the cells of the earlier groups. */
  lemma {:induction false} InGroupInFlatten(groups: seq<seq<Pos>>, k: nat, p: Pos)
    requires k < |groups| && p in groups[k]
    ensures p in Flatten(groups)
    ensures p in Flatten(groups[k..])
    ensures p in Flatten(groups[..k + 1])
    decreases |groups|
  {
    var n := |groups|;
    if k == n - 1 {
      assert groups[k..] == [groups[k]];
      assert Flatten(groups[k..]) == Flatten([]) + groups[k] by {
        assert groups[k..][..0] == [];
      }
      assert groups[..k + 1] == groups;
    } else {
      InGroupInFlatten(groups[..n - 1], k, p);
      assert groups[..n - 1][..k + 1] == groups[..k + 1];
      FlattenSplit(groups, k);
      FlattenSplit(groups[..n - 1], k);
      assert groups[..n - 1][..k] == groups[..k];
      assert groups[..n - 1][k..] == groups[k..n - 1];
      assert groups[k..][..|groups[k..]| - 1] == groups[k..n - 1];
    }
  }

  /** Cells of a duplicate-free concatenation lie on one side only. */
  lemma NoDupsDisjoint(left: seq<Pos>, right: seq<Pos>, p: Pos)
    requires NoDups(left + right)
    requires p in left
    ensures p !in right
  {
    var x :| 0 <= x < |left| && left[x] == p;
    forall y | 0 <= y < |right|
      ensures right[y] != p
    {
      assert (left + right)[x] != (left + right)[|left| + y];
    }
  }

  /** Each group is closed under wall adjacency within the groups up to itself. */
  ghost predicate ClosedGroups(walls: seq<Pos>, groups: seq<seq<Pos>>) {
    forall k, c, w :: 0 <= k < |groups| && c in groups[k] && w in walls && Adjacent(c, w) ==>
      w in Flatten(groups[..k + 1])
  }

  lemma SeparatedPair(walls: seq<Pos>, groups: seq<seq<Pos>>, i: nat, j: nat, a: Pos, b: Pos)
    requires NoDups(Flatten(groups))
    requires forall p :: p in Flatten(groups) ==> p in walls
    requires ClosedGroups(walls, groups)
    requires i < j < |groups| && a in groups[i] && b in groups[j]
    ensures !Adjacent(a, b)
  {
    if Adjacent(a, b) {
      InGroupInFlatten(groups, j, b);
      assert Adjacent(b, a) && b in walls;
      assert b in Flatten(groups[..i + 1]);
      LaterNotEarlier(groups, i, j, b);
      assert false;
    }
  }

  /** In a duplicate-free grouping a cell of a later group is in no earlier one. */
  lemma LaterNotEarlier(groups: seq<seq<Pos>>, i: nat, j: nat, b: Pos)
    requires NoDups(Flatten(groups))
    requires i < j < |groups| && b in groups[j]
    ensures b !in Flatten(groups[..i + 1])
  {
    if b in Flatten(groups[..i + 1]) {
      LaterInFlatten(groups, i, j, b);
      FlattenNoDupsSplit(groups, i + 1, b);
      assert false;
    }
  }

  lemma LaterInFlatten(groups: seq<seq<Pos>>, i: nat, j: nat, b: Pos)
    requires i < j < |groups| && b in groups[j]
    ensures b in Flatten(groups[i + 1..])
  {
    var later := groups[i + 1..];
    assert later[j - (i + 1)] == groups[j];
    InGroupInFlatten(later, j - (i + 1), b);
  }

  /** A cell of the first k groups of a duplicate-free grouping is in none of the rest. */
  lemma FlattenNoDupsSplit(groups: seq<seq<Pos>>, k: nat, b: Pos)
    requires NoDups(Flatten(groups)) && k <= |groups|
    requires b in Flatten(groups[..k])
    ensures b !in Flatten(groups[k..])
  {
    FlattenSplit(groups, k);
    NoDupsDisjoint(Flatten(groups[..k]), Flatten(groups[k..]), b);
  }

  /** Separation follows from each group being closed under adjacency when it was made. */
  lemma SeparatedGroups(walls: seq<Pos>, groups: seq<seq<Pos>>)
    requires NoDups(Flatten(groups))
    requires forall p :: p in Flatten(groups) ==> p in walls
    requires ClosedGroups(walls, groups)
    ensures forall i, j, a, b :: 0 <= i < j < |groups| && a in groups[i] && b in groups[j] ==> !Adjacent(a, b)
  {
    forall i, j, a, b | 0 <= i < j < |groups| && a in groups[i] && b in groups[j]
      ensures !Adjacent(a, b)
    {
      SeparatedPair(walls, groups, i, j, a, b);
    }
  }

  /** The state of the breadth-first search of one cluster started at `wall`. */
  ghost predicate BfsState(walls: seq<Pos>, wall: Pos, visited0: set<Pos>,
                           group: seq<Pos>, visited: set<Pos>, queue: seq<Pos>)
  {
    && wall !in visited0
    && (forall p :: p in visited <==> p in visited0 || p in group)
    && NoDups(group)
    && (forall p :: p in group ==> p in walls && p !in visited0)
    && (forall p :: p in queue ==> p in walls)
    && (|group| == 0 ==> queue == [wall])
    && (|group| > 0 ==> group[0] == wall)
    && (|group| > 0 ==> forall q :: q in queue ==> exists j :: 0 <= j < |group| && Adjacent(q, group[j]))
    && Connected(group)
    && (forall c, w :: c in group && w in walls && Adjacent(c, w) ==> w in visited || w in queue)
  }

  /** Popping a cell that was already visited keeps the search state. */
  lemma BfsSkip(walls: seq<Pos>, wall: Pos, visited0: set<Pos>, group: seq<Pos>, visited: set<Pos>, queue: seq<Pos>)
    requires BfsState(walls, wall, visited0, group, visited, queue)
    requires |queue| > 0 && queue[0] in visited
    ensures BfsState(walls, wall, visited0, group, visited, queue[1..])
  {
    if |group| == 0 {
      assert false;
    }
    forall q | q in queue[1..]
      ensures exists j :: 0 <= j < |group| && Adjacent(q, group[j])
    {
      assert q in queue;
    }
    forall c, w | c in group && w in walls && Adjacent(c, w)
      ensures w in visited || w in queue[1..]
    {
      if w !in visited {
        assert w in queue && w != queue[0];
        assert w in queue[1..];
      }
    }
  }

  /** Growing the group by a connected cell keeps it connected. */
  lemma ConnectedAppend(group: seq<Pos>, current: Pos, j0: nat)
    requires Connected(group)
    requires j0 < |group| && Adjacent(current, group[j0])
    ensures Connected(group + [current])
  {
    var g := group + [current];
    forall k | 0 < k < |g|
      ensures TouchesEarlier(g, k)
    {
      if k < |group| {
        assert TouchesEarlier(group, k);
        var j :| 0 <= j < k && Adjacent(group[k], group[j]);
        assert g[k] == group[k] && g[j] == group[j];
      } else {
        assert g[k] == current && g[j0] == group[j0];
      }
    }
  }

  /** After a visit every queued cell still touches a group cell. */
  lemma BfsVisitQueue(group: seq<Pos>, queue: seq<Pos>, current: Pos, adjacent: seq<Pos>, wall: Pos)
    requires |queue| > 0 && queue[0] == current
    requires |group| == 0 ==> queue == [wall]
    requires |group| > 0 ==> forall q :: q in queue ==> exists j :: 0 <= j < |group| && Adjacent(q, group[j])
    requires forall q :: q in adjacent ==> Adjacent(q, current)
    ensures forall q :: q in queue[1..] + adjacent ==>
              exists j :: 0 <= j < |group + [current]| && Adjacent(q, (group + [current])[j])
  {
    var g := group + [current];
    forall q | q in queue[1..] + adjacent
      ensures exists j :: 0 <= j < |g| && Adjacent(q, g[j])
    {
      if q in adjacent {
        assert Adjacent(q, g[|group|]);
      } else {
        assert q in queue;
        assert |group| > 0;
        var j :| 0 <= j < |group| && Adjacent(q, group[j]);
        assert g[j] == group[j];
      }
    }
  }

  /** After a visit every wall next to a group cell is visited or queued. */
  lemma BfsVisitClosure(walls: seq<Pos>, group: seq<Pos>, visited: set<Pos>, queue: seq<Pos>, current: Pos)
    requires |queue| > 0 && queue[0] == current
    requires forall c, w :: c in group && w in walls && Adjacent(c, w) ==> w in visited || w in queue
    ensures var visited' := visited + {current};
            forall c, w :: c in group + [current] && w in walls && Adjacent(c, w) ==>
              w in visited' || w in queue[1..] + AdjacentUnvisited(walls, current, visited')
  {
    var visited' := visited + {current};
    var queue' := queue[1..] + AdjacentUnvisited(walls, current, visited');
    forall c, w | c in group + [current] && w in walls && Adjacent(c, w)
      ensures w in visited' || w in queue'
    {
      if c != current && w !in visited' {
        assert c in group;
        assert w in queue && w != queue[0];
        assert w in queue[1..];
      }
    }
  }

  /** Visiting a fresh cell appends it to the group and queues its unvisited wall
      neighbours. */
  lemma BfsVisit(walls: seq<Pos>, wall: Pos, visited0: set<Pos>, group: seq<Pos>, visited: set<Pos>, queue: seq<Pos>)
    requires BfsState(walls, wall, visited0, group, visited, queue)
    requires |queue| > 0 && queue[0] !in visited
    ensures var current := queue[0];
            var visited' := visited + {current};
            BfsState(walls, wall, visited0, group + [current], visited',
                     queue[1..] + AdjacentUnvisited(walls, current, visited'))
  {
    var current := queue[0];
    var visited' := visited + {current};
    var adjacent := AdjacentUnvisited(walls, current, visited');
    var group' := group + [current];
    assert current in queue;
    if |group| > 0 {
      var j0 :| 0 <= j0 < |group| && Adjacent(current, group[j0]);
      ConnectedAppend(group, current, j0);
      assert group'[0] == wall;
    } else {
      assert current == wall;
    }
    forall q | q in adjacent
      ensures Adjacent(q, current)
    {
    }
    BfsVisitQueue(group, queue, current, adjacent, wall);
    BfsVisitClosure(walls, group, visited, queue, current);
    assert NoDups(group') by {
      assert current !in group;
    }
  }

  /** The breadth-first search of one cluster, from the unvisited wall `wall`: the inner
      `while (queue.length > 0)` loop of `groupWalls`. */
  method FloodFill(walls: seq<Pos>, wall: Pos, visited0: set<Pos>) returns (group: seq<Pos>, visited: set<Pos>)
    requires wall in walls && wall !in visited0
    requires forall p :: p in visited0 ==> p in walls
    ensures |group| > 0 && group[0] == wall && Connected(group)
    ensures NoDups(group) && forall p :: p in group ==> p in walls && p !in visited0
    ensures forall p :: p in visited <==> p in visited0 || p in group
    ensures forall c, w :: c in group && w in walls && Adjacent(c, w) ==> w in visited
  {
    visited := visited0;
    group := [];
    var queue: seq<Pos> := [wall];
    ghost var wallSet := set p | p in walls;
    while |queue| > 0
      invariant BfsState(walls, wall, visited0, group, visited, queue)
      invariant visited <= wallSet
      decreases |wallSet - visited|, |queue|
    {
      var current := queue[0];
      if current in visited {
        BfsSkip(walls, wall, visited0, group, visited, queue);
        queue := queue[1..];
        continue;
      }
      BfsVisit(walls, wall, visited0, group, visited, queue);
      assert current in wallSet;
      assert wallSet - (visited + {current}) < wallSet - visited;
      visited := visited + {current};
      group := group + [current];
      var adjacent := AdjacentUnvisited(walls, current, visited);
      queue := queue[1..] + adjacent;
    }
  }

  /** `groupWalls`: breadth-first flood fill over the wall cells, one group per
      4-connected cluster, in order of each cluster's first wall. */
  method GroupWalls(walls: seq<Pos>) returns (groups: seq<seq<Pos>>)
    ensures IsWallGrouping(walls, groups)
  {
    groups := [];
    var visited: set<Pos> := {};
    var i := 0;
    while i < |walls|
      invariant 0 <= i <= |walls|
      invariant forall p :: p in visited <==> p in Flatten(groups)
      invariant NoDups(Flatten(groups))
      invariant forall p :: p in Flatten(groups) ==> p in walls
      invariant forall k :: 0 <= k < i ==> walls[k] in visited
      invariant forall k :: 0 <= k < |groups| ==> |groups[k]| > 0 && Connected(groups[k])
      invariant ClosedGroups(walls, groups)
    {
      var wall := walls[i];
      if wall !in visited {
        var group;
        ghost var before := visited;
        group, visited := FloodFill(walls, wall, visited);
        AppendGroup(walls, groups, group, before);
        groups := groups + [group];
      }
      i := i + 1;
    }
    forall p | p in walls
      ensures p in Flatten(groups)
    {
      var k :| 0 <= k < |walls| && walls[k] == p;
    }
    SeparatedGroups(walls, groups);
  }

  /** Appending a freshly flooded cluster keeps the outer loop's invariants. */
  lemma AppendGroup(walls: seq<Pos>, groups: seq<seq<Pos>>, group: seq<Pos>, visited: set<Pos>)
    requires forall p :: p in visited <==> p in Flatten(groups)
    requires NoDups(Flatten(groups)) && NoDups(group)
    requires forall p :: p in group ==> p !in visited
    requires ClosedGroups(walls, groups)
    requires forall c, w :: c in group && w in walls && Adjacent(c, w) ==> w in visited || w in group
    ensures Flatten(groups + [group]) == Flatten(groups) + group
    ensures NoDups(Flatten(groups + [group]))
    ensures ClosedGroups(walls, groups + [group])
  {
    FlattenAppendLast(groups, group);
    var all := Flatten(groups) + group;
    forall x, y | 0 <= x < y < |all|
      ensures all[x] != all[y]
    {
      if y >= |Flatten(groups)| && x < |Flatten(groups)| {
        assert all[y] in group && all[x] in Flatten(groups);
      }
    }
    var gs := groups + [group];
    forall k, c, w | 0 <= k < |gs| && c in gs[k] && w in walls && Adjacent(c, w)
      ensures w in Flatten(gs[..k + 1])
    {
      if k < |groups| {
        FlattenAppend(groups, group, k);
      } else {
        assert gs[..k + 1] == gs;
      }
    }
  }

  lemma FlattenAppendLast(groups: seq<seq<Pos>>, group: seq<Pos>)
    ensures Flatten(groups + [group]) == Flatten(groups) + group
  {
    assert (groups + [group])[..|groups|] == groups;
  }

  /** The four directions `moveWalls` and `generateRandomWalls` draw from, in source order. */
  const DIRECTIONS: seq<Pos> := [Pos(1, 0), Pos(-1, 0), Pos(0, 1), Pos(0, -1)]

  /** `group.map(wall => wall + direction)`. */
  function Translate(group: seq<Pos>, d: Pos): (r: seq<Pos>)
    ensures |r| == |group| && forall i :: 0 <= i < |group| ==> r[i] == Add(group[i], d)
  {
    seq(|group|, i requires 0 <= i < |group| => Add(group[i], d))
  }

  /** Every cell lies on the grid and off every occupied cell. */
  predicate CanPlace(cells: seq<Pos>, occupied: seq<Pos>) {
    forall i :: 0 <= i < |cells| ==> InGrid(cells[i]) && !Occupied(occupied, cells[i])
  }

  /** One group's move: the translated group when it fits, else the group where it was. */
  function MoveGroup(group: seq<Pos>, d: Pos, occupied: seq<Pos>): (r: seq<Pos>)
    ensures |r| == |group|
    ensures r == group || (r == Translate(group, d) && forall p :: p in r ==> InGrid(p) && p !in occupied)
  {
    var moved := Translate(group, d);
    if CanPlace(moved, occupied) then moved else group
  }

  /** Each group moved with the direction of its own draw. */
  function MovedGroups(groups: seq<seq<Pos>>, occupied: seq<Pos>, choice: nat -> nat): (r: seq<seq<Pos>>)
    ensures |r| == |groups|
  {
    seq(|groups|, k requires 0 <= k < |groups| => MoveGroup(groups[k], DIRECTIONS[choice(k) % 4], occupied))
  }

  lemma {:induction false} FlattenLengths(groups: seq<seq<Pos>>, moved: seq<seq<Pos>>)
    requires |moved| == |groups| && forall k :: 0 <= k < |groups| ==> |moved[k]| == |groups[k]|
    ensures |Flatten(moved)| == |Flatten(groups)|
    decreases |groups|
  {
    if |groups| > 0 {
      FlattenLengths(groups[..|groups| - 1], moved[..|moved| - 1]);
    }
  }

  /** Every cell of a flattened sequence comes from one of its groups. */
  lemma {:induction false} FlattenMember(groups: seq<seq<Pos>>, p: Pos)
    requires p in Flatten(groups)
    ensures exists k :: 0 <= k < |groups| && p in groups[k]
    decreases |groups|
  {
    var n := |groups|;
    if p !in groups[n - 1] {
      FlattenMember(groups[..n - 1], p);
      var k :| 0 <= k < n - 1 && p in groups[..n - 1][k];
      assert groups[..n - 1][k] == groups[k];
    }
  }

  /** A duplicate-free wall list is grouped without losing any cell. */
  lemma GroupingKeepsCount(walls: seq<Pos>, groups: seq<seq<Pos>>)
    requires NoDups(Flatten(groups)) && NoDups(walls)
    requires forall p :: p in Flatten(groups) <==> p in walls
    ensures |Flatten(groups)| == |walls|
  {
    var flat := Flatten(groups);
    NoDupsCard(flat);
    NoDupsCard(walls);
    var a := set i | 0 <= i < |flat| :: flat[i];
    var b := set i | 0 <= i < |walls| :: walls[i];
    forall p | p in a ensures p in b {
      assert p in flat;
      assert p in walls;
    }
    forall p | p in b ensures p in a {
      assert p in walls;
      assert p in flat;
    }
    assert a == b;
  }

  /** `moveWalls`: each cluster of walls tries one random step; a cluster that would leave
      the grid or land on either snake stays put. `choice(k)` is the k-th cluster's
      direction draw; `groups` is the clustering the method used. */
  method MoveWalls(currentWalls: seq<Pos>, snakePositions: seq<Pos>, snake2Positions: seq<Pos>, choice: nat -> nat)
    returns (newWalls: seq<Pos>, ghost groups: seq<seq<Pos>>)
    ensures |currentWalls| == 0 ==> newWalls == []
    ensures IsWallGrouping(currentWalls, groups)
    ensures newWalls == Flatten(MovedGroups(groups, snakePositions + snake2Positions, choice))
    ensures NoDups(currentWalls) ==> |newWalls| == |currentWalls|
    ensures forall p :: p in newWalls ==>
              p in currentWalls || (InGrid(p) && p !in snakePositions && p !in snake2Positions)
  {
    if |currentWalls| == 0 {
      groups := [];
      return currentWalls, groups;
    }
    var occupiedPositions := snakePositions + snake2Positions;
    var wallGroups := GroupWalls(currentWalls);
    groups := wallGroups;
    newWalls := MoveGroups(wallGroups, occupiedPositions, choice);
    if NoDups(currentWalls) {
      MovedWallsCount(currentWalls, groups, occupiedPositions, choice);
    }
    forall p | p in newWalls
      ensures p in currentWalls || (InGrid(p) && p !in snakePositions && p !in snake2Positions)
    {
      MovedWallsSafe(currentWalls, groups, occupiedPositions, choice, p);
    }
  }

  /** The `for (const group of wallGroups)` loop of `moveWalls`. */
  method MoveGroups(wallGroups: seq<seq<Pos>>, occupiedPositions: seq<Pos>, choice: nat -> nat) returns (newWalls: seq<Pos>)
    ensures newWalls == Flatten(MovedGroups(wallGroups, occupiedPositions, choice))
  {
    newWalls := [];
    var k := 0;
    while k < |wallGroups|
      invariant 0 <= k <= |wallGroups|
      invariant newWalls == Flatten(MovedGroups(wallGroups[..k], occupiedPositions, choice))
    {
      var group := wallGroups[k];
      var direction := DIRECTIONS[choice(k) % 4];
      var movedGroup := Translate(group, direction);
      var isValidMove := CanPlace(movedGroup, occupiedPositions);
      if isValidMove {
        newWalls := newWalls + movedGroup;
      } else {
        newWalls := newWalls + group;
      }
      MovedGroupsSnoc(wallGroups, k, occupiedPositions, choice);
      k := k + 1;
    }
    assert wallGroups[..k] == wallGroups;
  }

  lemma MovedGroupsSnoc(groups: seq<seq<Pos>>, k: nat, occupied: seq<Pos>, choice: nat -> nat)
    requires k < |groups|
    ensures Flatten(MovedGroups(groups[..k + 1], occupied, choice))
         == Flatten(MovedGroups(groups[..k], occupied, choice)) + MoveGroup(groups[k], DIRECTIONS[choice(k) % 4], occupied)
  {
    var last := MoveGroup(groups[k], DIRECTIONS[choice(k) % 4], occupied);
    assert MovedGroups(groups[..k + 1], occupied, choice) == MovedGroups(groups[..k], occupied, choice) + [last];
    FlattenAppendLast(MovedGroups(groups[..k], occupied, choice), last);
  }

  /** Moving clusters keeps the number of wall cells. */
  lemma MovedWallsCount(walls: seq<Pos>, groups: seq<seq<Pos>>, occupied: seq<Pos>, choice: nat -> nat)
    requires NoDups(Flatten(groups)) && NoDups(walls)
    requires forall p :: p in Flatten(groups) <==> p in walls
    ensures |Flatten(MovedGroups(groups, occupied, choice))| == |walls|
  {
    var moved := MovedGroups(groups, occupied, choice);
    forall k | 0 <= k < |groups|
      ensures |moved[k]| == |groups[k]|
    {
      assert moved[k] == MoveGroup(groups[k], DIRECTIONS[choice(k) % 4], occupied);
    }
    FlattenLengths(groups, moved);
    GroupingKeepsCount(walls, groups);
  }

  /** Every cell after the move is an old wall cell or a free grid cell. */
  lemma MovedWallsSafe(walls: seq<Pos>, groups: seq<seq<Pos>>, occupied: seq<Pos>, choice: nat -> nat, p: Pos)
    requires forall q :: q in Flatten(groups) ==> q in walls
    requires p in Flatten(MovedGroups(groups, occupied, choice))
    ensures p in walls || (InGrid(p) && p !in occupied)
  {
    var moved := MovedGroups(groups, occupied, choice);
    FlattenMember(moved, p);
    var j :| 0 <= j < |moved| && p in moved[j];
    assert moved[j] == MoveGroup(groups[j], DIRECTIONS[choice(j) % 4], occupied);
    if p in groups[j] {
      InGroupInFlatten(groups, j, p);
    }
  }

  // ---------------------------------------------------------------------------
  // Wall and food generation

  /** The cells generated walls keep clear: both starting heads and the first food. */
  const FORBIDDEN: seq<Pos> := [Pos(10, 10), Pos(8, 8), Pos(15, 15)]

  /** Walls a generator may hand out: on the grid and off the forbidden cells. */
  predicate WallsPlaceable(walls: seq<Pos>) {
    forall i :: 0 <= i < |walls| ==> InGrid(walls[i]) && walls[i] !in FORBIDDEN
  }

  /** `generateRandomWalls` from the `i`-th draw on, with `walls` placed so far. Each
      candidate takes two draws (x, y); a placed candidate takes a coin draw, and a coin
      that asks for a neighbour while there is room takes a direction draw. None: the
      draws ran out first. With `checkExisting` false the neighbour is checked against
      the grid and the forbidden cells only, as the source does; true adds the check
      against the walls already placed. */
  function RandomWallsFrom(count: int, draws: seq<nat>, i: nat, walls: seq<Pos>, checkExisting: bool): Option<seq<Pos>>
    requires i <= |draws|
    decreases |draws| - i
  {
    if |walls| >= count then Some(walls)
    else if |draws| - i < 2 then None
    else
      var wall := Pos(draws[i] % GRID_SIZE, draws[i + 1] % GRID_SIZE);
      if wall in FORBIDDEN || wall in walls then RandomWallsFrom(count, draws, i + 2, walls, checkExisting)
      else if |draws| - i < 3 then None
      else if draws[i + 2] % 2 == 1 && |walls| + 1 < count then
        if |draws| - i < 4 then None
        else
          var adjacent := Add(wall, DIRECTIONS[draws[i + 3] % 4]);
          var keep := InGrid(adjacent) && adjacent !in FORBIDDEN && (!checkExisting || adjacent !in walls + [wall]);
          RandomWallsFrom(count, draws, i + 4, if keep then walls + [wall] + [adjacent] else walls + [wall], checkExisting)
      else RandomWallsFrom(count, draws, i + 3, walls + [wall], checkExisting)
  }

  /** `generateRandomWalls`, drawing from `draws`; None when the draws run out before
      `count` walls are placed (the source would keep drawing). */
  method GenerateRandomWalls(count: int, draws: seq<nat>) returns (r: Option<seq<Pos>>)
    ensures r == RandomWallsFrom(count, draws, 0, [], false)
    ensures r.Some? ==> WallsPlaceable(r.value) && |r.value| == (if count > 0 then count else 0)
  {
    RandomWallsShape(count, draws, 0, [], false);
    var walls: seq<Pos> := [];
    var i := 0;
    while |walls| < count
      invariant i <= |draws|
      invariant RandomWallsFrom(count, draws, 0, [], false) == RandomWallsFrom(count, draws, i, walls, false)
      decreases |draws| - i
    {
      if |draws| - i < 2 {
        return None;
      }
      var wall := Pos(draws[i] % GRID_SIZE, draws[i + 1] % GRID_SIZE);
      i := i + 2;
      var isForbidden := Occupied(FORBIDDEN, wall);
      var present := Occupied(walls, wall);
      if !isForbidden && !present {
        walls := walls + [wall];
        if |draws| - i < 1 {
          return None;
        }
        var coin := draws[i] % 2 == 1;
        i := i + 1;
        if coin && |walls| < count {
          if |draws| - i < 1 {
            return None;
          }
          var adjacent := Add(wall, DIRECTIONS[draws[i] % 4]);
          i := i + 1;
          if InGrid(adjacent) && !Occupied(FORBIDDEN, adjacent) {
            walls := walls + [adjacent];
          }
        }
      }
    }
    return Some(walls);
  }

  /** Every finished run places exactly `count` walls (none when `count` is not
      positive), all on the grid and off the forbidden cells, after the ones it started with. */
  lemma {:induction false} RandomWallsShape(count: int, draws: seq<nat>, i: nat, walls: seq<Pos>, checkExisting: bool)
    requires i <= |draws| && WallsPlaceable(walls)
    ensures var r := RandomWallsFrom(count, draws, i, walls, checkExisting);
            r.Some? ==> && WallsPlaceable(r.value)
                        && |r.value| == (if |walls| >= count then |walls| else count)
                        && r.value[..|walls|] == walls
    decreases |draws| - i
  {
    if |walls| < count && |draws| - i >= 2 {
      var wall := Pos(draws[i] % GRID_SIZE, draws[i + 1] % GRID_SIZE);
      if wall in FORBIDDEN || wall in walls {
        RandomWallsShape(count, draws, i + 2, walls, checkExisting);
      } else if |draws| - i >= 3 {
        if draws[i + 2] % 2 == 1 && |walls| + 1 < count {
          if |draws| - i >= 4 {
            var adjacent := Add(wall, DIRECTIONS[draws[i + 3] % 4]);
            var keep := InGrid(adjacent) && adjacent !in FORBIDDEN && (!checkExisting || adjacent !in walls + [wall]);
            var next := if keep then walls + [wall] + [adjacent] else walls + [wall];
            RandomWallsShape(count, draws, i + 4, next, checkExisting);
            assert next[..|walls|] == walls;
          }
        } else {
          RandomWallsShape(count, draws, i + 3, walls + [wall], checkExisting);
          assert (walls + [wall])[..|walls|] == walls;
        }
      }
    }
  }

  /** As written, a run can place the same cell twice: (5,5), then (6,5) with a
      neighbour to the left, which is (5,5) again. */
  lemma RandomWallsDuplicate()
    ensures RandomWallsFrom(3, [5, 5, 0, 6, 5, 1, 1], 0, [], false) == Some([Pos(5, 5), Pos(6, 5), Pos(5, 5)])
    ensures !NoDups([Pos(5, 5), Pos(6, 5), Pos(5, 5)])
  {
    var draws: seq<nat> := [5, 5, 0, 6, 5, 1, 1];
    var done := [Pos(5, 5), Pos(6, 5), Pos(5, 5)];
    assert RandomWallsFrom(3, draws, 7, done, false) == Some(done);
    assert Add(Pos(6, 5), DIRECTIONS[1]) == Pos(5, 5);
    assert [Pos(5, 5)] + [Pos(6, 5)] + [Pos(5, 5)] == done;
    assert RandomWallsFrom(3, draws, 3, [Pos(5, 5)], false) == RandomWallsFrom(3, draws, 7, done, false);
    assert Pos(5, 5) !in FORBIDDEN && ([] + [Pos(5, 5)]) == [Pos(5, 5)];
    assert RandomWallsFrom(3, draws, 0, [], false) == RandomWallsFrom(3, draws, 3, [Pos(5, 5)], false);
    assert ([Pos(5, 5), Pos(6, 5), Pos(5, 5)])[0] == ([Pos(5, 5), Pos(6, 5), Pos(5, 5)])[2];
  }

  /** With the neighbour also checked against the placed walls, no cell is placed twice. */
  lemma {:induction false} RandomWallsNoDups(count: int, draws: seq<nat>, i: nat, walls: seq<Pos>)
    requires i <= |draws| && NoDups(walls)
    ensures var r := RandomWallsFrom(count, draws, i, walls, true);
            r.Some? ==> NoDups(r.value)
    decreases |draws| - i
  {
    if |walls| < count && |draws| - i >= 2 {
      var wall := Pos(draws[i] % GRID_SIZE, draws[i + 1] % GRID_SIZE);
      if wall in FORBIDDEN || wall in walls {
        RandomWallsNoDups(count, draws, i + 2, walls);
      } else if |draws| - i >= 3 {
        NoDupsAppend(walls, [wall]);
        if draws[i + 2] % 2 == 1 && |walls| + 1 < count {
          if |draws| - i >= 4 {
            var adjacent := Add(wall, DIRECTIONS[draws[i + 3] % 4]);
            if InGrid(adjacent) && adjacent !in FORBIDDEN && adjacent !in walls + [wall] {
              NoDupsAppend(walls + [wall], [adjacent]);
              RandomWallsNoDups(count, draws, i + 4, walls + [wall] + [adjacent]);
            } else {
              RandomWallsNoDups(count, draws, i + 4, walls + [wall]);
            }
          }
        } else {
          RandomWallsNoDups(count, draws, i + 3, walls + [wall]);
        }
      }
    }
  }

  /** The moving-wall shapes, as offsets from their base cell. */
  const PATTERNS: seq<seq<Pos>> := [
    [Pos(0, 0), Pos(1, 0), Pos(0, 1)],
    [Pos(0, 0), Pos(0, 1), Pos(0, 2)],
    [Pos(0, 0), Pos(1, 0)],
    [Pos(0, 0), Pos(1, 0), Pos(2, 0)]]

  /** `pattern.map(offset => base + offset)`. */
  function Placed(pattern: seq<Pos>, baseX: int, baseY: int): (r: seq<Pos>)
    ensures |r| == |pattern|
    ensures forall k :: 0 <= k < |pattern| ==> r[k] == Pos(baseX + pattern[k].x, baseY + pattern[k].y)
  {
    seq(|pattern|, k requires 0 <= k < |pattern| => Pos(baseX + pattern[k].x, baseY + pattern[k].y))
  }

  /** `hasConflict`: some new cell is forbidden, already a wall, or off the grid. */
  predicate HasConflict(newWalls: seq<Pos>, walls: seq<Pos>) {
    exists w :: w in newWalls && (w in FORBIDDEN || w in walls || !InGrid(w))
  }

  /** `generateMovingWalls` from attempt `attempt` on: attempt a draws a pattern (draw 3a),
      then a base column and row (draws 3a + 1 and 3a + 2); at most 50 attempts. */
  function MovingWallsFrom(count: int, draw: nat -> nat, attempt: nat, walls: seq<Pos>): seq<Pos>
    decreases 50 - attempt
  {
    if |walls| >= count || attempt >= 50 then walls
    else
      var newWalls := Placed(PATTERNS[draw(3 * attempt) % |PATTERNS|],
                             draw(3 * attempt + 1) % (GRID_SIZE - 3), draw(3 * attempt + 2) % (GRID_SIZE - 3));
      MovingWallsFrom(count, draw, attempt + 1, if HasConflict(newWalls, walls) then walls else walls + newWalls)
  }

  /** `generateMovingWalls`: whole patterns placed without conflicts until `count` cells
      are walled or 50 attempts are spent. */
  method GenerateMovingWalls(count: int, draw: nat -> nat) returns (walls: seq<Pos>)
    ensures walls == MovingWallsFrom(count, draw, 0, [])
    ensures WallsPlaceable(walls) && NoDups(walls)
    ensures count <= 0 ==> walls == []
    ensures count > 0 ==> |walls| < count + 3
  {
    walls := [];
    var attempts := 0;
    while |walls| < count && attempts < 50
      invariant 0 <= attempts <= 50
      invariant MovingWallsFrom(count, draw, 0, []) == MovingWallsFrom(count, draw, attempts, walls)
      decreases 50 - attempts
    {
      var pattern := PATTERNS[draw(3 * attempts) % |PATTERNS|];
      var baseX := draw(3 * attempts + 1) % (GRID_SIZE - 3);
      var baseY := draw(3 * attempts + 2) % (GRID_SIZE - 3);
      var newWalls := Placed(pattern, baseX, baseY);
      var hasConflict := HasConflict(newWalls, walls);
      if !hasConflict {
        walls := walls + newWalls;
      }
      attempts := attempts + 1;
    }
    MovingWallsValid(count, draw, 0, []);
  }

  /** Moving-wall generation only ever adds conflict-free whole patterns: the walls stay
      placeable and duplicate-free, and stop at most two cells past `count`. */
  lemma {:induction false} MovingWallsValid(count: int, draw: nat -> nat, attempt: nat, walls: seq<Pos>)
    requires WallsPlaceable(walls) && NoDups(walls)
    ensures var r := MovingWallsFrom(count, draw, attempt, walls);
            && WallsPlaceable(r) && NoDups(r)
            && |walls| <= |r| <= (if |walls| >= count then |walls| else count + 2)
            && r[..|walls|] == walls
    decreases 50 - attempt
  {
    if |walls| < count && attempt < 50 {
      var k := draw(3 * attempt) % |PATTERNS|;
      var newWalls := Placed(PATTERNS[k], draw(3 * attempt + 1) % (GRID_SIZE - 3), draw(3 * attempt + 2) % (GRID_SIZE - 3));
      if HasConflict(newWalls, walls) {
        MovingWallsValid(count, draw, attempt + 1, walls);
      } else {
        PlacedNoDups(k, draw(3 * attempt + 1) % (GRID_SIZE - 3), draw(3 * attempt + 2) % (GRID_SIZE - 3));
        NoDupsAppend(walls, newWalls);
        assert WallsPlaceable(walls + newWalls) by {
          forall i | 0 <= i < |walls + newWalls|
            ensures InGrid((walls + newWalls)[i]) && (walls + newWalls)[i] !in FORBIDDEN
          {
            if i >= |walls| {
              assert (walls + newWalls)[i] == newWalls[i - |walls|];
              assert newWalls[i - |walls|] in newWalls;
            }
          }
        }
        MovingWallsValid(count, draw, attempt + 1, walls + newWalls);
        assert (walls + newWalls)[..|walls|] == walls;
      }
    }
  }

  /** No pattern repeats a cell. */
  lemma PlacedNoDups(k: nat, baseX: int, baseY: int)
    requires k < |PATTERNS|
    ensures NoDups(Placed(PATTERNS[k], baseX, baseY))
  {
  }

  /** Every base the generator draws keeps every pattern on the grid, so the grid test in
      `hasConflict` never decides anything. */
  lemma PatternsFitGrid(k: nat, baseX: int, baseY: int)
    requires k < |PATTERNS| && 0 <= baseX < GRID_SIZE - 3 && 0 <= baseY < GRID_SIZE - 3
    ensures AllInGrid(Placed(PATTERNS[k], baseX, baseY))
  {
  }

  /** A food item: its cell and its kind. */
  datatype Food = Food(pos: Pos, kind: FoodType)

  /** The cell the food generator draws on attempt `t` (draws 2t and 2t + 1). */
  function FoodCandidate(draw: nat -> nat, t: nat): (p: Pos)
    ensures InGrid(p)
  {
    Pos(draw(2 * t) % GRID_SIZE, draw(2 * t + 1) % GRID_SIZE)
  }

  /** The attempt the food generator settles on: the first free candidate among attempts
      t.. 99, else attempt 100, kept whether free or not. */
  function FirstFreeAttempt(occupied: seq<Pos>, draw: nat -> nat, t: nat): nat
    requires t <= 100
    decreases 100 - t
  {
    if t == 100 then 100
    else if FoodCandidate(draw, t) !in occupied then t
    else FirstFreeAttempt(occupied, draw, t + 1)
  }

  /** The settled attempt comes after only occupied candidates, and is free unless it is
      the last one; so the food lands on a free cell exactly when one of the 101 candidates
      is free. */
  lemma {:induction false} FirstFreeAttemptSpec(occupied: seq<Pos>, draw: nat -> nat, t: nat)
    requires t <= 100
    ensures var r := FirstFreeAttempt(occupied, draw, t);
            && t <= r <= 100
            && (forall s :: t <= s < r ==> FoodCandidate(draw, s) in occupied)
            && (r < 100 ==> FoodCandidate(draw, r) !in occupied)
            && (FoodCandidate(draw, r) !in occupied <==>
                  exists s :: t <= s <= 100 && FoodCandidate(draw, s) !in occupied)
    decreases 100 - t
  {
    if t < 100 && FoodCandidate(draw, t) in occupied {
      FirstFreeAttemptSpec(occupied, draw, t + 1);
      var r := FirstFreeAttempt(occupied, draw, t);
      if exists s :: t <= s <= 100 && FoodCandidate(draw, s) !in occupied {
        var s :| t <= s <= 100 && FoodCandidate(draw, s) !in occupied;
        assert t + 1 <= s;
      }
    }
  }

  /** `generateFood`: up to 101 drawn cells, stopping at the first one off the snakes,
      foods and walls; then the kind whose spawn-rate interval holds the rate draw
      (`rateDraw % 100` hundredths). */
  method GenerateFood(snake: seq<Pos>, foods: seq<Pos>, walls: seq<Pos>, snake2: seq<Pos>,
                      draw: nat -> nat, rateDraw: nat) returns (food: Food)
    ensures food.pos == FoodCandidate(draw, FirstFreeAttempt(snake + foods + walls + snake2, draw, 0))
    ensures food.pos !in snake + foods + walls + snake2 <==>
              exists t :: 0 <= t <= 100 && FoodCandidate(draw, t) !in snake + foods + walls + snake2
    ensures InGrid(food.pos)
    ensures CumulativeRate(TableIndex(food.kind)) <= rateDraw % 100 < CumulativeRate(TableIndex(food.kind) + 1)
  {
    var occupied := snake + foods + walls + snake2;
    FirstFreeAttemptSpec(occupied, draw, 0);
    var pos := DrawFoodCell(occupied, draw);
    var kind := DrawFoodKind(rateDraw % 100);
    food := Food(pos, kind);
  }

  /** The placement loop of `generateFood`. */
  method DrawFoodCell(occupied: seq<Pos>, draw: nat -> nat) returns (pos: Pos)
    ensures pos == FoodCandidate(draw, FirstFreeAttempt(occupied, draw, 0))
  {
    pos := Pos(0, 0);
    var attempts := 0;
    while true
      invariant 0 <= attempts <= 100
      invariant FirstFreeAttempt(occupied, draw, 0) == FirstFreeAttempt(occupied, draw, attempts)
      decreases 100 - attempts
    {
      pos := FoodCandidate(draw, attempts);
      attempts := attempts + 1;
      if attempts > 100 {
        break;
      }
      if !Occupied(occupied, pos) {
        break;
      }
    }
  }

  /** The kind loop of `generateFood`: walks the table adding up spawn rates and takes the
      first kind whose running sum exceeds the draw; the 'apple' default is never reached
      because the rates add up to 1. */
  method DrawFoodKind(rand: int) returns (kind: FoodType)
    requires 0 <= rand < 100
    ensures CumulativeRate(TableIndex(kind)) <= rand < CumulativeRate(TableIndex(kind) + 1)
  {
    kind := Apple;
    var cumulative := 0;
    var i := 0;
    SpawnRatesSum();
    FoodTableKeys();
    while i < |FOOD_TABLE|
      invariant i <= |FOOD_TABLE| && cumulative == CumulativeRate(i) && cumulative <= rand
    {
      cumulative := cumulative + FOOD_TABLE[i].1.rate;
      if rand < cumulative {
        kind := FOOD_TABLE[i].0;
        break;
      }
      i := i + 1;
    }
  }

  // ---------------------------------------------------------------------------
  // Teleports

  /** `findValidTeleportPositions` scans column by column, each column top to bottom. */
  predicate ScanBefore(a: Pos, b: Pos) {
    a.x < b.x || (a.x == b.x && a.y < b.y)
  }

  /** A cell the random teleport may land on: on the grid, free of the snake, the walls
      and the other snake, and at least `minDistance` steps from the head. */
  predicate IsTeleportTarget(snake: seq<Pos>, walls: seq<Pos>, otherSnake: seq<Pos>, minDistance: int, p: Pos)
    requires |snake| > 0
  {
    InGrid(p) && p !in snake && p !in walls && p !in otherSnake && Manhattan(snake[0], p) >= minDistance
  }

  /** `findValidTeleportPositions`: every target cell exactly once, in scan order. */
  method FindValidTeleportPositions(snake: seq<Pos>, walls: seq<Pos>, otherSnake: seq<Pos>, minDistance: int)
    returns (validPositions: seq<Pos>)
    requires |snake| > 0
    ensures forall p :: p in validPositions <==> IsTeleportTarget(snake, walls, otherSnake, minDistance, p)
    ensures forall i, j :: 0 <= i < j < |validPositions| ==> ScanBefore(validPositions[i], validPositions[j])
  {
    var head := snake[0];
    validPositions := [];
    var occupiedPositions := snake + walls + otherSnake;
    var x := 0;
    while x < GRID_SIZE
      invariant 0 <= x <= GRID_SIZE
      invariant forall p :: p in validPositions <==> IsTeleportTarget(snake, walls, otherSnake, minDistance, p) && p.x < x
      invariant forall i, j :: 0 <= i < j < |validPositions| ==> ScanBefore(validPositions[i], validPositions[j])
      invariant forall i :: 0 <= i < |validPositions| ==> validPositions[i].x < x
    {
      var y := 0;
      while y < GRID_SIZE
        invariant 0 <= y <= GRID_SIZE
        invariant forall p :: p in validPositions <==>
                    IsTeleportTarget(snake, walls, otherSnake, minDistance, p) && ScanBefore(p, Pos(x, y))
        invariant forall i, j :: 0 <= i < j < |validPositions| ==> ScanBefore(validPositions[i], validPositions[j])
        invariant forall i :: 0 <= i < |validPositions| ==> ScanBefore(validPositions[i], Pos(x, y))
      {
        var position := Pos(x, y);
        var isOccupied := Occupied(occupiedPositions, position);
        var distance := Abs(head.x - x) + Abs(head.y - y);
        if !isOccupied && distance >= minDistance {
          validPositions := validPositions + [position];
        }
        y := y + 1;
      }
      x := x + 1;
    }
  }

  /** `executeRandomTeleport`: the head jumps to the `pick`-th target cell (at least 5 steps
      away); the body stays where it is. Without a target the snake is returned unchanged. */
  method ExecuteRandomTeleport(snake: seq<Pos>, walls: seq<Pos>, otherSnake: seq<Pos>, pick: nat) returns (newSnake: seq<Pos>)
    requires |snake| > 0
    ensures |newSnake| == |snake| && newSnake[1..] == snake[1..]
    ensures (exists p :: IsTeleportTarget(snake, walls, otherSnake, 5, p)) ==>
              IsTeleportTarget(snake, walls, otherSnake, 5, newSnake[0]) && newSnake != snake
    ensures !(exists p :: IsTeleportTarget(snake, walls, otherSnake, 5, p)) ==> newSnake == snake
  {
    var validPositions := FindValidTeleportPositions(snake, walls, otherSnake, 5);
    if |validPositions| == 0 {
      return snake;
    }
    var randomPosition := validPositions[pick % |validPositions|];
    newSnake := snake[0 := randomPosition];
    assert randomPosition in validPositions;
  }

  /** The four boundary corrections of the directional teleport, applied in order: a
      coordinate below the grid becomes the last one, one at or beyond the size becomes 0. */
  function WrapCoord(c: int): (r: int)
    ensures 0 <= r < GRID_SIZE
    ensures 0 <= c < GRID_SIZE ==> r == c
    ensures c == -1 ==> r == GRID_SIZE - 1
    ensures c == GRID_SIZE ==> r == 0
  {
    if c < 0 then GRID_SIZE - 1 else if c >= GRID_SIZE then 0 else c
  }

  function Wrap(p: Pos): Pos {
    Pos(WrapCoord(p.x), WrapCoord(p.y))
  }

  /** The cell the directional teleport examines after `k` steps from `head`. */
  function RayCell(head: Pos, d: Pos, k: nat): Pos {
    if k == 0 then head else Wrap(Add(RayCell(head, d, k - 1), d))
  }

  /** A cell the directional teleport cannot stop on: a wall, the other snake, or the
      snake's own body (its head excluded). */
  predicate Blocked(p: Pos, snake: seq<Pos>, walls: seq<Pos>, otherSnake: seq<Pos>)
    requires |snake| > 0
  {
    p in walls || p in otherSnake || p in snake[1..]
  }

  /** The eight neighbours of a blocked cell, in the order they are tried. */
  function Nearby(p: Pos): seq<Pos> {
    [Pos(p.x + 1, p.y), Pos(p.x - 1, p.y), Pos(p.x, p.y + 1), Pos(p.x, p.y - 1),
     Pos(p.x + 1, p.y + 1), Pos(p.x - 1, p.y - 1), Pos(p.x + 1, p.y - 1), Pos(p.x - 1, p.y + 1)]
  }

  /** The candidates that are on the grid and not blocked, in candidate order. */
  function FreeAmong(cands: seq<Pos>, snake: seq<Pos>, walls: seq<Pos>, otherSnake: seq<Pos>): (r: seq<Pos>)
    requires |snake| > 0
    ensures forall q :: q in r <==> q in cands && InGrid(q) && !Blocked(q, snake, walls, otherSnake)
    ensures |r| > 0 ==> InGrid(r[0]) && !Blocked(r[0], snake, walls, otherSnake)
  {
    if |cands| == 0 then []
    else
      var rest := FreeAmong(cands[1..], snake, walls, otherSnake);
      if InGrid(cands[0]) && !Blocked(cands[0], snake, walls, otherSnake) then [cands[0]] + rest else rest
  }

  /** Where one iteration of the directional teleport loop stops on reaching `next`: on
      `next` itself when it is free, else on the first free neighbour of `next`; None when
      the loop has to go on. */
  function StopAt(snake: seq<Pos>, walls: seq<Pos>, otherSnake: seq<Pos>, next: Pos): (r: Option<Pos>)
    requires |snake| > 0
    ensures r.None? ==> Blocked(next, snake, walls, otherSnake)
    ensures r.Some? ==> !Blocked(r.value, snake, walls, otherSnake) && (r.value == next || InGrid(r.value))
  {
    if !Blocked(next, snake, walls, otherSnake) then Some(next)
    else
      var nearby := FreeAmong(Nearby(next), snake, walls, otherSnake);
      if |nearby| > 0 then (assert nearby[0] in nearby; Some(nearby[0])) else None
  }

  /** Where the directional teleport ends when it has taken `k` of at most GRID_SIZE steps
      and stands on `pos`: the first ray cell where StopAt stops, or the head when the
      whole lap is blocked in. */
  function DirectionalFrom(snake: seq<Pos>, d: Pos, walls: seq<Pos>, otherSnake: seq<Pos>, k: nat, pos: Pos): Pos
    requires |snake| > 0
    decreases GRID_SIZE - k
  {
    if k >= GRID_SIZE then snake[0]
    else
      match StopAt(snake, walls, otherSnake, Wrap(Add(pos, d)))
      case Some(r) => r
      case None => DirectionalFrom(snake, d, walls, otherSnake, k + 1, Wrap(Add(pos, d)))
  }

  /** The directional teleport never lands on an obstacle: it ends on the head or on a
      free grid cell. */
  lemma {:induction false} DirectionalSafe(snake: seq<Pos>, d: Pos, walls: seq<Pos>, otherSnake: seq<Pos>, k: nat, pos: Pos)
    requires |snake| > 0
    ensures var r := DirectionalFrom(snake, d, walls, otherSnake, k, pos);
            r == snake[0] || (InGrid(r) && !Blocked(r, snake, walls, otherSnake))
    decreases GRID_SIZE - k
  {
    if k < GRID_SIZE && StopAt(snake, walls, otherSnake, Wrap(Add(pos, d))).None? {
      DirectionalSafe(snake, d, walls, otherSnake, k + 1, Wrap(Add(pos, d)));
    }
  }

  /** `executeDirectionalTeleport`, with the lap bounded to GRID_SIZE steps (see
      DirectionalLapReturnsToHead for why that bound changes nothing when the head is free). */
  method ExecuteDirectionalTeleport(snake: seq<Pos>, direction: Pos, walls: seq<Pos>, otherSnake: seq<Pos>)
    returns (target: Pos)
    requires |snake| > 0
    ensures target == DirectionalFrom(snake, direction, walls, otherSnake, 0, snake[0])
    ensures target == snake[0] || (InGrid(target) && !Blocked(target, snake, walls, otherSnake))
  {
    DirectionalSafe(snake, direction, walls, otherSnake, 0, snake[0]);
    var head := snake[0];
    var teleportPosition := head;
    var steps := 0;
    while steps < GRID_SIZE
      invariant 0 <= steps <= GRID_SIZE
      invariant DirectionalFrom(snake, direction, walls, otherSnake, 0, head)
             == DirectionalFrom(snake, direction, walls, otherSnake, steps, teleportPosition)
    {
      teleportPosition := Wrap(Add(teleportPosition, direction));
      var isBlocked := Occupied(walls, teleportPosition) || Occupied(otherSnake, teleportPosition)
                       || Occupied(snake[1..], teleportPosition);
      if isBlocked {
        var nearbyPositions := FreeAmong(Nearby(teleportPosition), snake, walls, otherSnake);
        if |nearbyPositions| > 0 {
          return nearbyPositions[0];
        }
      } else {
        return teleportPosition;
      }
      steps := steps + 1;
    }
    return head;
  }

  /** `c` moved `k` times by `e`. */
  function Advance(c: int, e: int, k: nat): int {
    if k == 0 then c else Advance(c, e, k - 1) + e
  }

  lemma {:induction false} AdvanceLinear(c: int, e: int, k: nat)
    ensures Advance(c, e, k) == c + k * e
  {
    if k > 0 {
      AdvanceLinear(c, e, k - 1);
    }
  }

  /** From a grid cell, a unit step followed by the boundary corrections is a step modulo
      the grid size. */
  lemma {:induction false} RayCellModular(head: Pos, d: Pos, k: nat)
    requires InGrid(head) && IsUnit(d)
    ensures RayCell(head, d, k) == Pos(Advance(head.x, d.x, k) % GRID_SIZE, Advance(head.y, d.y, k) % GRID_SIZE)
  {
    if k > 0 {
      var ax, ay := Advance(head.x, d.x, k - 1), Advance(head.y, d.y, k - 1);
      var prev := RayCell(head, d, k - 1);
      assert prev == Pos(ax % GRID_SIZE, ay % GRID_SIZE) by {
        RayCellModular(head, d, k - 1);
      }
      assert WrapCoord(prev.x + d.x) == Advance(head.x, d.x, k) % GRID_SIZE by {
        ModStep(ax, d.x);
      }
      assert WrapCoord(prev.y + d.y) == Advance(head.y, d.y, k) % GRID_SIZE by {
        ModStep(ay, d.y);
      }
    }
  }

  lemma ModStep(a: int, e: int)
    requires -1 <= e <= 1
    ensures WrapCoord(a % GRID_SIZE + e) == (a + e) % GRID_SIZE
  {
  }

  /** After a full lap of GRID_SIZE unit steps the ray is back on the head. */
  lemma DirectionalLapReturnsToHead(head: Pos, d: Pos)
    requires InGrid(head) && IsUnit(d)
    ensures RayCell(head, d, GRID_SIZE) == head
  {
    RayCellModular(head, d, GRID_SIZE);
    AdvanceLinear(head.x, d.x, GRID_SIZE);
    AdvanceLinear(head.y, d.y, GRID_SIZE);
  }

  /** The directional teleport loop as written: no bound on the lap, and a safety check
      that stops it only when the examined cell is more than 2 * GRID_SIZE steps from the
      head. `fuel` bounds how many iterations are unrolled; None means the loop is still
      running after `fuel` iterations. */
  function DirectionalAsWritten(snake: seq<Pos>, d: Pos, walls: seq<Pos>, otherSnake: seq<Pos>, fuel: nat, pos: Pos): Option<Pos>
    requires |snake| > 0
    decreases fuel
  {
    if fuel == 0 then None
    else
      match AsWrittenExit(snake, walls, otherSnake, Wrap(Add(pos, d)))
      case Some(r) => Some(r)
      case None => DirectionalAsWritten(snake, d, walls, otherSnake, fuel - 1, Wrap(Add(pos, d)))
  }

  /** What one iteration of the loop as written does on the cell `next` it moved to: the
      value it returns, or None when it goes on. */
  function AsWrittenExit(snake: seq<Pos>, walls: seq<Pos>, otherSnake: seq<Pos>, next: Pos): Option<Pos>
    requires |snake| > 0
  {
    match StopAt(snake, walls, otherSnake, next)
    case Some(r) => Some(r)
    case None => if Manhattan(next, snake[0]) > GRID_SIZE * 2 then Some(snake[0]) else None
  }

  /** The safety check can never fire: two grid cells are at most 2 * (GRID_SIZE - 1)
      steps apart. */
  lemma DirectionalGuardNeverFires(head: Pos, p: Pos)
    requires InGrid(head) && InGrid(p)
    ensures Manhattan(p, head) <= 2 * (GRID_SIZE - 1) < GRID_SIZE * 2
  {
  }

  /** When the head lies on the grid and is not itself blocked, the loop as written stops
      within one lap, with the answer of the bounded model. */
  lemma DirectionalBoundedAgrees(snake: seq<Pos>, d: Pos, walls: seq<Pos>, otherSnake: seq<Pos>)
    requires |snake| > 0 && InGrid(snake[0]) && IsUnit(d) && !Blocked(snake[0], snake, walls, otherSnake)
    ensures DirectionalAsWritten(snake, d, walls, otherSnake, GRID_SIZE, snake[0])
         == Some(DirectionalFrom(snake, d, walls, otherSnake, 0, snake[0]))
  {
    DirectionalLapReturnsToHead(snake[0], d);
    DirectionalAgreesFrom(snake, d, walls, otherSnake, 0, snake[0]);
  }

  /** Standing on `pos` after `k` steps, with the rest of the lap ending on the free head,
      the loop as written and the bounded model stop on the same cell. */
  lemma {:induction false} DirectionalAgreesFrom(snake: seq<Pos>, d: Pos, walls: seq<Pos>, otherSnake: seq<Pos>, k: nat, pos: Pos)
    requires |snake| > 0 && InGrid(snake[0]) && !Blocked(snake[0], snake, walls, otherSnake)
    requires k < GRID_SIZE && RayCell(pos, d, GRID_SIZE - k) == snake[0]
    ensures DirectionalAsWritten(snake, d, walls, otherSnake, GRID_SIZE - k, pos)
         == Some(DirectionalFrom(snake, d, walls, otherSnake, k, pos))
    decreases GRID_SIZE - k
  {
    var next := Wrap(Add(pos, d));
    RayCellPeel(pos, d, GRID_SIZE - k);
    if StopAt(snake, walls, otherSnake, next).None? {
      if k + 1 == GRID_SIZE {
        assert false;
      }
      DirectionalGuardNeverFires(snake[0], next);
      DirectionalAgreesFrom(snake, d, walls, otherSnake, k + 1, next);
    }
  }

  /** The ray from `p` is the ray from the cell after `p`, one step longer. */
  lemma {:induction false} RayCellPeel(p: Pos, d: Pos, n: nat)
    requires n > 0
    ensures RayCell(p, d, n) == RayCell(Wrap(Add(p, d)), d, n - 1)
  {
    if n > 1 {
      RayCellPeel(p, d, n - 1);
    }
  }

  /** Row `y` of the grid, left to right. */
  function GridRow(y: int): (r: seq<Pos>)
    ensures |r| == GRID_SIZE && forall x :: 0 <= x < GRID_SIZE ==> r[x] == Pos(x, y)
  {
    seq(GRID_SIZE, x requires 0 <= x < GRID_SIZE => Pos(x, y))
  }

  /** A head in the top-left corner with the top two rows walled, itself included. */
  const TRAP_SNAKE: seq<Pos> := [Pos(0, 0)]
  const TRAP_WALLS: seq<Pos> := GridRow(0) + GridRow(1)

  /** The trap walls cover the top two rows. */
  lemma TrapWallsCover(q: Pos)
    requires InGrid(q) && q.y <= 1
    ensures q in TRAP_WALLS
  {
    if q.y == 0 {
      assert TRAP_WALLS[q.x] == q;
    } else {
      assert TRAP_WALLS[GRID_SIZE + q.x] == q;
    }
  }

  /** The top two rows are walled and the snake is a single cell. */
  ghost predicate BoxedInSetup(snake: seq<Pos>, walls: seq<Pos>) {
    |snake| == 1 && forall q :: InGrid(q) && q.y <= 1 ==> q in walls
  }

  /** A top-row cell in that setting is blocked and has no free neighbour. */
  lemma TopRowBoxedIn(snake: seq<Pos>, walls: seq<Pos>, p: Pos)
    requires BoxedInSetup(snake, walls)
    requires InGrid(p) && p.y == 0
    ensures StopAt(snake, walls, [], p) == None
  {
  }

  /** In that setting the loop as written goes on from every top-row cell. */
  lemma TopRowNoExit(snake: seq<Pos>, walls: seq<Pos>, p: Pos)
    requires BoxedInSetup(snake, walls) && InGrid(snake[0])
    requires InGrid(p) && p.y == 0
    ensures AsWrittenExit(snake, walls, [], p) == None
  {
    TopRowBoxedIn(snake, walls, p);
    DirectionalGuardNeverFires(snake[0], p);
  }

  /** Hence, when no top-row cell lets the loop stop, the loop started on the top row
      moving along it keeps going whatever the number of iterations. */
  lemma {:induction false} DirectionalBoxedIn(snake: seq<Pos>, d: Pos, walls: seq<Pos>, other: seq<Pos>, fuel: nat, pos: Pos)
    requires |snake| > 0 && d.y == 0
    requires forall p {:trigger AsWrittenExit(snake, walls, other, p)} ::
               InGrid(p) && p.y == 0 ==> AsWrittenExit(snake, walls, other, p) == None
    requires InGrid(pos) && pos.y == 0
    ensures DirectionalAsWritten(snake, d, walls, other, fuel, pos) == None
    decreases fuel
  {
    if fuel > 0 {
      var next := Wrap(Add(pos, d));
      assert InGrid(next) && next.y == 0;
      AsWrittenContinues(snake, d, walls, other, fuel, pos);
      DirectionalBoxedIn(snake, d, walls, other, fuel - 1, next);
    }
  }

  /** An iteration of the loop as written that does not return leaves the rest of the run
      to the next cell. */
  lemma AsWrittenContinues(snake: seq<Pos>, d: Pos, walls: seq<Pos>, other: seq<Pos>, fuel: nat, pos: Pos)
    requires |snake| > 0 && fuel > 0
    requires AsWrittenExit(snake, walls, other, Wrap(Add(pos, d))) == None
    ensures DirectionalAsWritten(snake, d, walls, other, fuel, pos)
         == DirectionalAsWritten(snake, d, walls, other, fuel - 1, Wrap(Add(pos, d)))
  {
  }

  /** The loop as written never returns on TRAP_SNAKE moving right among TRAP_WALLS,
      however many iterations run; the bounded model returns the head there. */
  lemma DirectionalTrapNeverReturns(fuel: nat)
    ensures DirectionalAsWritten(TRAP_SNAKE, Pos(1, 0), TRAP_WALLS, [], fuel, Pos(0, 0)) == None
  {
    forall q | InGrid(q) && q.y <= 1
      ensures q in TRAP_WALLS
    {
      TrapWallsCover(q);
    }
    forall p | InGrid(p) && p.y == 0
      ensures AsWrittenExit(TRAP_SNAKE, TRAP_WALLS, [], p) == None
    {
      TopRowNoExit(TRAP_SNAKE, TRAP_WALLS, p);
    }
    DirectionalBoxedIn(TRAP_SNAKE, Pos(1, 0), TRAP_WALLS, [], fuel, Pos(0, 0));
  }
}
