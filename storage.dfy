/** The high-score table (src/utils/storage.ts): the new score joins the saved ones, the
    lot is sorted from highest to lowest and the first five are kept. Saving to and
    loading from browser storage are left out; being values, the scores passed in are
    never modified. */
module Storage {

  const MAX_HIGH_SCORES: nat := 5

  predicate SortedDesc(s: seq<int>) {
    forall i, j :: 0 <= i < j < |s| ==> s[i] >= s[j]
  }

  /** A score no lower than the first entry of a descending list extends it. */
  lemma ConsSorted(h: int, s: seq<int>)
    requires SortedDesc(s) && (|s| > 0 ==> h >= s[0])
    ensures SortedDesc([h] + s)
  {
    forall i, j | 0 <= i < j < |s| + 1
      ensures ([h] + s)[i] >= ([h] + s)[j]
    {
      if i == 0 {
        assert s[0] >= s[j - 1];
      }
    }
  }

  /** `x` placed in a descending list before the first entry it is not below. */
  function Insert(x: int, s: seq<int>): (r: seq<int>)
    requires SortedDesc(s)
    ensures |r| == |s| + 1
    ensures r[0] == if |s| == 0 || x >= s[0] then x else s[0]
    ensures SortedDesc(r)
    ensures multiset(r) == multiset(s) + multiset{x}
  {
    if |s| == 0 || x >= s[0] then [x] + s
    else
      var rest := Insert(x, s[1..]);
      ConsSorted(s[0], rest);
      assert multiset([s[0]] + rest) == multiset(s) + multiset{x} by {
        assert s == [s[0]] + s[1..];
      }
      [s[0]] + rest
  }

  /** `sort((a, b) => b - a)`: the scores from highest to lowest. */
  function SortDesc(s: seq<int>): (r: seq<int>)
    ensures SortedDesc(r)
    ensures multiset(r) == multiset(s)
    ensures |r| == |s|
  {
    if |s| == 0 then []
    else
      assert s == [s[0]] + s[1..];
      Insert(s[0], SortDesc(s[1..]))
  }

  /** The first entry of a non-empty descending list is its highest score. */
  lemma HeadIsMax(a: seq<int>, x: int)
    requires SortedDesc(a) && x in multiset(a)
    ensures |a| > 0 && x <= a[0]
  {
    var i :| 0 <= i < |a| && a[i] == x;
  }

  /** Removing the first entry removes one copy of it from the scores. */
  lemma DropHead(a: seq<int>)
    requires |a| > 0
    ensures multiset(a[1..]) == multiset(a) - multiset{a[0]}
  {
    assert a == [a[0]] + a[1..];
  }

  /** Two descending lists holding the same scores start with the same score, and what
      follows holds the same scores again. */
  lemma SameHead(a: seq<int>, b: seq<int>)
    requires SortedDesc(a) && SortedDesc(b) && multiset(a) == multiset(b) && |a| > 0
    ensures |b| > 0 && a[0] == b[0]
    ensures SortedDesc(a[1..]) && SortedDesc(b[1..]) && multiset(a[1..]) == multiset(b[1..])
  {
    assert a[0] in multiset(b);
    HeadIsMax(b, a[0]);
    HeadIsMax(a, b[0]);
    DropHead(a);
    DropHead(b);
  }

  /** Two descending lists holding the same scores are the same list, so any correct sort
      yields the same table. */
  lemma {:induction false} SortedPermutationUnique(a: seq<int>, b: seq<int>)
    requires SortedDesc(a) && SortedDesc(b) && multiset(a) == multiset(b)
    ensures a == b
    decreases |a|
  {
    if |a| == 0 {
      assert |multiset(b)| == 0;
    } else {
      SameHead(a, b);
      SortedPermutationUnique(a[1..], b[1..]);
      assert a == [a[0]] + a[1..] && b == [b[0]] + b[1..];
    }
  }

  /** Cutting a descending list: the front and the back hold all its scores, and no score
      of the back is above one of the front. */
  lemma CutSorted(s: seq<int>, n: nat)
    requires SortedDesc(s) && n <= |s|
    ensures SortedDesc(s[..n])
    ensures multiset(s) - multiset(s[..n]) == multiset(s[n..])
    ensures multiset(s[..n]) <= multiset(s)
    ensures forall x :: x in multiset(s[n..]) ==> forall k :: 0 <= k < n ==> x <= s[..n][k]
  {
    assert s == s[..n] + s[n..];
    assert multiset(s) == multiset(s[..n]) + multiset(s[n..]);
    forall x | x in multiset(s[n..])
      ensures forall k :: 0 <= k < n ==> x <= s[..n][k]
    {
      var m :| 0 <= m < |s[n..]| && s[n..][m] == x;
      assert s[n + m] == x;
    }
  }

  /** `updateHighScores`: the five highest of the saved scores and the new one, highest
      first, duplicates kept. The table is sorted, has min(5, n + 1) entries, holds only
      scores that were offered, and every score left out is no higher than every score
      kept. */
  function UpdateHighScores(currentScore: int, existingScores: seq<int>): (r: seq<int>)
    ensures SortedDesc(r)
    ensures |r| == if |existingScores| + 1 < MAX_HIGH_SCORES then |existingScores| + 1 else MAX_HIGH_SCORES
    ensures multiset(r) <= multiset(existingScores + [currentScore])
    ensures forall x :: x in multiset(existingScores + [currentScore]) - multiset(r) ==>
              forall k :: 0 <= k < |r| ==> x <= r[k]
  {
    var all := SortDesc(existingScores + [currentScore]);
    var n := if |all| < MAX_HIGH_SCORES then |all| else MAX_HIGH_SCORES;
    CutSorted(all, n);
    all[..n]
  }

  /** A score no higher than any entry of a full, already sorted table leaves the table as
      it was (its first five entries). */
  lemma LowScoreKeepsTable(currentScore: int, existingScores: seq<int>)
    requires SortedDesc(existingScores) && |existingScores| >= MAX_HIGH_SCORES
    requires forall k :: 0 <= k < |existingScores| ==> currentScore <= existingScores[k]
    ensures UpdateHighScores(currentScore, existingScores) == existingScores[..MAX_HIGH_SCORES]
  {
    var offered := existingScores + [currentScore];
    assert SortedDesc(offered);
    SortedPermutationUnique(SortDesc(offered), offered);
  }

  /** The table is the front of any descending arrangement of the offered scores. */
  lemma TableFromSorted(currentScore: int, existingScores: seq<int>, sorted: seq<int>)
    requires SortedDesc(sorted) && multiset(sorted) == multiset(existingScores + [currentScore])
    ensures |sorted| == |existingScores| + 1
    ensures UpdateHighScores(currentScore, existingScores)
              == sorted[..if |sorted| < MAX_HIGH_SCORES then |sorted| else MAX_HIGH_SCORES]
  {
    assert |sorted| == |multiset(sorted)| == |multiset(existingScores + [currentScore])|;
    SortedPermutationUnique(SortDesc(existingScores + [currentScore]), sorted);
  }
}
