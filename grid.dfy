/** Grid geometry shared by every component: integer cells, unit directions and
    the occupancy test that the source writes as `cells.some(c => c.x === p.x && c.y === p.y)`. */
module Grid {

  datatype Option<T> = None | Some(value: T)

  /** A grid cell or a direction vector (`Position` and `Direction` in the source). */
  datatype Pos = Pos(x: int, y: int)

  /** The one grid size the snake logic works with (20 cells per side). */
  const GRID_SIZE: int := 20

  predicate InGrid(p: Pos) {
    0 <= p.x < GRID_SIZE && 0 <= p.y < GRID_SIZE
  }

  function Add(p: Pos, d: Pos): Pos {
    Pos(p.x + d.x, p.y + d.y)
  }

  function Neg(d: Pos): Pos {
    Pos(-d.x, -d.y)
  }

  /** The four unit directions. */
  predicate IsUnit(d: Pos) {
    d == Pos(1, 0) || d == Pos(-1, 0) || d == Pos(0, 1) || d == Pos(0, -1)
  }

  function Abs(n: int): (r: nat)
    ensures r == n || r == -n
  {
    if n < 0 then -n else n
  }

  function Manhattan(a: Pos, b: Pos): nat {
    Abs(a.x - b.x) + Abs(a.y - b.y)
  }

  /** Squared Euclidean distance: the source compares `Math.sqrt` distances only against bounds. */
  function Dist2(a: Pos, b: Pos): nat {
    (a.x - b.x) * (a.x - b.x) + (a.y - b.y) * (a.y - b.y)
  }

  lemma Dist2Self(a: Pos)
    ensures Dist2(a, a) == 0
  {
  }

  /** `cells.some(c => c.x === p.x && c.y === p.y)`, scanned left to right. */
  function Occupied(cells: seq<Pos>, p: Pos): (r: bool)
    ensures r <==> exists i :: 0 <= i < |cells| && cells[i] == p
    ensures r <==> p in cells
  {
    if |cells| == 0 then false
    else if cells[0] == p then true
    else
      assert forall i :: 1 <= i < |cells| ==> cells[i] == cells[1..][i - 1];
      Occupied(cells[1..], p)
  }

  predicate NoDups<T(==)>(s: seq<T>) {
    forall i, j :: 0 <= i < j < |s| ==> s[i] != s[j]
  }

  predicate AllInGrid(cells: seq<Pos>) {
    forall i :: 0 <= i < |cells| ==> InGrid(cells[i])
  }

  /** Joining two duplicate-free sequences with no common element keeps them duplicate-free. */
  lemma NoDupsAppend<T>(a: seq<T>, b: seq<T>)
    requires NoDups(a) && NoDups(b)
    requires forall x :: x in b ==> x !in a
    ensures NoDups(a + b)
  {
    forall i, j | 0 <= i < j < |a + b|
      ensures (a + b)[i] != (a + b)[j]
    {
      if i < |a| && j >= |a| {
        assert (a + b)[j] == b[j - |a|];
        assert b[j - |a|] in b;
      }
    }
  }

  /** A duplicate-free sequence has as many distinct elements as entries. */
  lemma {:induction false} NoDupsCard<T>(s: seq<T>)
    requires NoDups(s)
    ensures |set i | 0 <= i < |s| :: s[i]| == |s|
  {
    if |s| > 0 {
      var t := s[..|s| - 1];
      assert NoDups(t);
      NoDupsCard(t);
      var st := set i | 0 <= i < |t| :: t[i];
      var ss := set i | 0 <= i < |s| :: s[i];
      assert ss == st + {s[|s| - 1]};
      assert s[|s| - 1] !in st;
    }
  }
}
