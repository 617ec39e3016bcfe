/** The cross product and Andrew's monotone-chain convex hull of
    src/server/algo.py, as the source writes it: the points are sorted in
    place by (x, y), a lower chain is built left to right on an index stack,
    then an upper chain right to left that skips the indices marked in
    `used`. Because `used[0]` is never set, the upper chain ends by pushing
    index 0 again, so the hull is a closed ring. */
module Hull {
  import opened Projection

  function Cross(l: Point2D, r: Point2D): int {
    l.x * r.y - l.y * r.x
  }

  lemma CrossAntisymmetric(a: Point2D, b: Point2D)
    ensures Cross(a, b) == -Cross(b, a)
    ensures Cross(a, a) == 0
  {
  }

  // ---------------------------------------------------------------------
  // Sorting by the key (x, y)

  /** The sort key (x, y), compared lexicographically. */
  predicate LessEq(a: Point2D, b: Point2D) {
    a.x < b.x || (a.x == b.x && a.y <= b.y)
  }

  predicate Sorted(s: seq<Point2D>) {
    forall i, j :: 0 <= i < j < |s| ==> LessEq(s[i], s[j])
  }

  /** The first element of a sorted sequence is its least. */
  lemma HeadLeast(s: seq<Point2D>, q: Point2D)
    requires Sorted(s) && q in multiset(s)
    ensures LessEq(s[0], q)
  {
    var k :| 0 <= k < |s| && s[k] == q;
    if k > 0 {
      assert LessEq(s[0], s[k]);
    }
  }

  lemma MultisetCons(s: seq<Point2D>)
    requires |s| >= 1
    ensures s == [s[0]] + s[1..]
    ensures multiset(s) == multiset{s[0]} + multiset(s[1..])
    ensures multiset(s[1..]) == multiset(s) - multiset{s[0]}
  {
    assert s == [s[0]] + s[1..];
  }

  /** s[0] goes before every element of t, a permutation of s[1..] and q,
      when q goes after s[0]. */
  lemma LeastOfRest(q: Point2D, s: seq<Point2D>, t: seq<Point2D>)
    requires Sorted(s) && |s| >= 1 && !LessEq(q, s[0])
    requires multiset(t) == multiset(s[1..]) + multiset{q}
    ensures forall k :: 0 <= k < |t| ==> LessEq(s[0], t[k])
  {
    forall k | 0 <= k < |t| ensures LessEq(s[0], t[k]) {
      assert t[k] in multiset(t);
      if t[k] != q {
        assert t[k] in multiset(s[1..]);
        var j :| 0 <= j < |s[1..]| && s[1..][j] == t[k];
        assert s[j + 1] == t[k];
      }
    }
  }

  lemma SortedCons(x: Point2D, t: seq<Point2D>)
    requires Sorted(t) && forall k :: 0 <= k < |t| ==> LessEq(x, t[k])
    ensures Sorted([x] + t)
  {
    var r := [x] + t;
    forall i, j | 0 <= i < j < |r| ensures LessEq(r[i], r[j]) {
      assert r[j] == t[j - 1];
      if i > 0 {
        assert r[i] == t[i - 1];
      }
    }
  }

  function Insert(q: Point2D, s: seq<Point2D>): (r: seq<Point2D>)
    requires Sorted(s)
    ensures Sorted(r) && multiset(r) == multiset(s) + multiset{q}
  {
    if s == [] then [q]
    else if LessEq(q, s[0]) then
      MultisetCons(s);
      [q] + s
    else
      var t := Insert(q, s[1..]);
      MultisetCons(s);
      LeastOfRest(q, s, t);
      SortedCons(s[0], t);
      [s[0]] + t
  }

  /** The sorted order list.sort produces. With the key (x, y), points with
      equal keys are equal, so stability plays no part. */
  function SortPoints(s: seq<Point2D>): (r: seq<Point2D>)
    ensures Sorted(r) && multiset(r) == multiset(s) && |r| == |s|
  {
    if s == [] then []
    else
      MultisetCons(s);
      var r := Insert(s[0], SortPoints(s[1..]));
      assert |r| == |multiset(r)| == |multiset(s)| == |s|;
      r
  }

  /** A sequence is determined by its elements once it is sorted. */
  lemma {:induction false} SortedUnique(a: seq<Point2D>, b: seq<Point2D>)
    requires Sorted(a) && Sorted(b) && multiset(a) == multiset(b)
    ensures a == b
  {
    if a == [] {
      assert |multiset(b)| == 0;
    } else {
      assert a[0] in multiset(b);
      assert b != [];
      assert b[0] in multiset(a);
      HeadLeast(a, b[0]);
      HeadLeast(b, a[0]);
      assert a[0] == b[0];
      MultisetCons(a);
      MultisetCons(b);
      assert multiset(a[1..]) == multiset(b[1..]);
      SortedUnique(a[1..], b[1..]);
    }
  }

  /** While a[j] sinks toward its place in the sorted prefix s[..i + 1]:
      the entries other than s[j] are in order, and s[j] is below all the
      entries after it. */
  predicate SiftInv(s: seq<Point2D>, i: nat, j: nat)
    requires j <= i < |s|
  {
    (forall k, l :: 0 <= k < l <= i && k != j && l != j ==> LessEq(s[k], s[l]))
    && (forall l :: j < l <= i ==> LessEq(s[j], s[l]))
  }

  lemma SiftStart(s: seq<Point2D>, i: nat)
    requires i < |s| && Sorted(s[..i])
    ensures SiftInv(s, i, i)
  {
    forall k, l | 0 <= k < l <= i && k != i && l != i ensures LessEq(s[k], s[l]) {
      assert s[k] == s[..i][k] && s[l] == s[..i][l];
    }
  }

  /** Swapping s[j - 1] and s[j] when they are out of order moves the
      sinking entry one place down. */
  lemma SiftSwap(s: seq<Point2D>, i: nat, j: nat)
    requires 0 < j <= i < |s| && SiftInv(s, i, j) && !LessEq(s[j - 1], s[j])
    ensures SiftInv(s[j - 1 := s[j]][j := s[j - 1]], i, j - 1)
    ensures multiset(s[j - 1 := s[j]][j := s[j - 1]]) == multiset(s)
  {
    var t := s[j - 1 := s[j]][j := s[j - 1]];
    forall k, l | 0 <= k < l <= i && k != j - 1 && l != j - 1 ensures LessEq(t[k], t[l]) {
      if k == j {
        assert t[k] == s[j - 1] && t[l] == s[l];
      } else if l == j {
        assert t[k] == s[k] && t[l] == s[j - 1];
      } else {
        assert t[k] == s[k] && t[l] == s[l];
      }
    }
    forall l | j - 1 < l <= i ensures LessEq(t[j - 1], t[l]) {
      if l > j {
        assert t[l] == s[l];
      }
    }
  }

  lemma SiftDone(s: seq<Point2D>, i: nat, j: nat)
    requires j <= i < |s| && SiftInv(s, i, j) && (j == 0 || LessEq(s[j - 1], s[j]))
    ensures Sorted(s[..i + 1])
  {
    var r := s[..i + 1];
    forall k, l | 0 <= k < l < |r| ensures LessEq(r[k], r[l]) {
      assert r[k] == s[k] && r[l] == s[l];
      if l == j && k < j - 1 {
        assert LessEq(s[k], s[j - 1]);
      }
    }
  }

  /** The inner loop of the insertion sort: a[i] sinks into the sorted
      prefix a[..i]. */
  method SiftDown(a: array<Point2D>, i: nat)
    requires i < a.Length && Sorted(a[..i])
    modifies a
    ensures Sorted(a[..i + 1]) && multiset(a[..]) == old(multiset(a[..]))
  {
    SiftStart(a[..], i);
    var j: nat := i;
    while j > 0 && !LessEq(a[j - 1], a[j])
      invariant j <= i && SiftInv(a[..], i, j)
      invariant multiset(a[..]) == old(multiset(a[..]))
    {
      ghost var s := a[..];
      SiftSwap(s, i, j);
      a[j - 1], a[j] := a[j], a[j - 1];
      assert a[..] == s[j - 1 := s[j]][j := s[j - 1]];
      j := j - 1;
    }
    SiftDone(a[..], i, j);
  }

  /** list.sort with the key (x, y), in place (an insertion sort here). */
  method Sort(a: array<Point2D>)
    modifies a
    ensures Sorted(a[..]) && multiset(a[..]) == old(multiset(a[..]))
  {
    var i := 0;
    while i < a.Length
      invariant i <= a.Length && Sorted(a[..i])
      invariant multiset(a[..]) == old(multiset(a[..]))
    {
      SiftDown(a, i);
      i := i + 1;
    }
    assert a[..] == a[..a.Length];
  }

  // ---------------------------------------------------------------------
  // The monotone chain, as a specification on values

  predicate IndicesIn(s: seq<nat>, n: nat) {
    forall k :: 0 <= k < |s| ==> s[k] < n
  }

  /** cross(p[b] - p[a], p[c] - p[b]): positive for a strict left turn
      a -> b -> c. */
  function Turn(p: seq<Point2D>, a: nat, b: nat, c: nat): int
    requires a < |p| && b < |p| && c < |p|
  {
    Cross(Sub(p[b], p[a]), Sub(p[c], p[b]))
  }

  /** The inner while loop: pop while the stack is longer than `floor` and
      its last two entries and `i` do not turn strictly left. What is left
      is a prefix of the stack, no shorter than `floor`, and when it is
      longer than `floor` its top two entries turn left toward `i`. */
  function PopWhile(p: seq<Point2D>, s: seq<nat>, i: nat, floor: nat): (r: seq<nat>)
    requires 1 <= floor && i < |p| && IndicesIn(s, |p|)
    ensures |r| <= |s| && r == s[..|r|]
    ensures |s| >= floor ==> |r| >= floor
    ensures |r| > floor ==> Turn(p, r[|r| - 2], r[|r| - 1], i) > 0
    decreases |s|
  {
    if |s| > floor && Turn(p, s[|s| - 2], s[|s| - 1], i) <= 0 then
      PopWhile(p, s[..|s| - 1], i, floor)
    else
      s
  }

  /** The lower-chain loop, from index i on. */
  function LowerFrom(p: seq<Point2D>, i: nat, s: seq<nat>): (r: seq<nat>)
    requires 1 <= i <= |p| && |s| >= 1 && IndicesIn(s, |p|)
    ensures |r| >= 1 && IndicesIn(r, |p|)
    decreases |p| - i
  {
    if i == |p| then s
    else LowerFrom(p, i + 1, PopWhile(p, s, i, 1) + [i])
  }

  /** The upper-chain loop, from index i down to 0; an index other than 0
      that is on the stack is what the source has marked in `used`. */
  function UpperFrom(p: seq<Point2D>, i: int, s: seq<nat>, base: nat): (r: seq<nat>)
    requires -1 <= i < |p| && 1 <= base <= |s| && IndicesIn(s, |p|)
    ensures |r| >= base && IndicesIn(r, |p|)
    decreases i + 1
  {
    if i < 0 then s
    else if 0 < i && i in s then UpperFrom(p, i - 1, s, base)
    else UpperFrom(p, i - 1, PopWhile(p, s, i, base) + [i], base)
  }

  function LowerChain(p: seq<Point2D>): (r: seq<nat>)
    requires |p| >= 1
  {
    LowerFrom(p, 1, [0])
  }

  /** The index stack calc_convex ends with, for already sorted points. */
  function ChainIndices(p: seq<Point2D>): (r: seq<nat>)
    requires |p| >= 1
    ensures IndicesIn(r, |p|)
  {
    var low := LowerChain(p);
    UpperFrom(p, |p| - 2, low, |low|)
  }

  function Gather(p: seq<Point2D>, idx: seq<nat>): (r: seq<Point2D>)
    requires IndicesIn(idx, |p|)
  {
    seq(|idx|, k requires 0 <= k < |idx| => p[idx[k]])
  }

  /** What calc_convex returns for the list `pts`. */
  function ConvexHullOf(pts: seq<Point2D>): seq<Point2D>
    requires |pts| >= 1
  {
    var p := SortPoints(pts);
    Gather(p, ChainIndices(p))
  }

  // ---------------------------------------------------------------------
  // Properties of the chain

  predicate StrictlyIncreasing(s: seq<nat>) {
    forall k, l :: 0 <= k < l < |s| ==> s[k] < s[l]
  }

  predicate Distinct(s: seq<nat>) {
    forall k, l :: 0 <= k < l < |s| ==> s[k] != s[l]
  }

  /** The turn of the stack triple ending at position k. */
  function TurnAt(p: seq<Point2D>, s: seq<nat>, k: nat): int
    requires 2 <= k < |s| && IndicesIn(s, |p|)
  {
    Turn(p, s[k - 2], s[k - 1], s[k])
  }

  /** Every stack triple from position `from` on turns strictly left. */
  predicate LeftTurnsFrom(p: seq<Point2D>, s: seq<nat>, from: nat)
    requires IndicesIn(s, |p|)
  {
    forall k :: 2 <= from <= k < |s| ==> TurnAt(p, s, k) > 0
  }

  lemma PrefixKeepsTurns(p: seq<Point2D>, s: seq<nat>, m: nat, from: nat)
    requires m <= |s| && IndicesIn(s, |p|) && LeftTurnsFrom(p, s, from)
    ensures LeftTurnsFrom(p, s[..m], from)
  {
    forall k | 2 <= from <= k < m ensures TurnAt(p, s[..m], k) > 0 {
      assert s[..m][k - 2] == s[k - 2] && s[..m][k - 1] == s[k - 1] && s[..m][k] == s[k];
      assert TurnAt(p, s, k) > 0;
    }
  }

  /** Pushing after PopWhile keeps every checked triple a left turn. */
  lemma PushKeepsTurns(p: seq<Point2D>, s: seq<nat>, i: nat, floor: nat)
    requires 1 <= floor && i < |p| && IndicesIn(s, |p|) && |s| >= floor
    requires LeftTurnsFrom(p, s, floor + 1)
    ensures var t := PopWhile(p, s, i, floor); LeftTurnsFrom(p, t + [i], floor + 1)
  {
    var t := PopWhile(p, s, i, floor);
    PrefixKeepsTurns(p, s, |t|, floor + 1);
    var u := t + [i];
    forall k | 2 <= floor + 1 <= k < |u| ensures TurnAt(p, u, k) > 0 {
      if k < |t| {
        assert u[k - 2] == t[k - 2] && u[k - 1] == t[k - 1] && u[k] == t[k];
        assert TurnAt(p, t, k) > 0;
      } else {
        assert u[k - 2] == t[|t| - 2] && u[k - 1] == t[|t| - 1] && u[k] == i;
      }
    }
  }

  lemma PushKeepsIncreasing(s: seq<nat>, t: seq<nat>, i: nat)
    requires StrictlyIncreasing(s) && |t| <= |s| && t == s[..|t|] && IndicesIn(s, i)
    ensures StrictlyIncreasing(t + [i])
  {
  }

  lemma {:induction false} LowerFromShape(p: seq<Point2D>, i: nat, s: seq<nat>)
    requires 1 <= i <= |p| && |s| >= 1 && IndicesIn(s, |p|)
    requires s[0] == 0 && s[|s| - 1] == i - 1 && StrictlyIncreasing(s) && IndicesIn(s, i)
    requires LeftTurnsFrom(p, s, 2)
    ensures var r := LowerFrom(p, i, s);
      r[0] == 0 && r[|r| - 1] == |p| - 1 && StrictlyIncreasing(r) && LeftTurnsFrom(p, r, 2)
    decreases |p| - i
  {
    if i < |p| {
      var s' := PopWhile(p, s, i, 1) + [i];
      LowerStep(p, s, i);
      PushKeepsTurns(p, s, i, 1);
      assert s'[|s'| - 1] == i;
      LowerFromShape(p, i + 1, s');
    }
  }

  /** The lower chain runs over strictly increasing indices from the first
      point to the last, turning strictly left at every inner vertex. */
  lemma LowerChainShape(p: seq<Point2D>)
    requires |p| >= 1
    ensures var low := LowerChain(p);
      low[0] == 0 && low[|low| - 1] == |p| - 1 && StrictlyIncreasing(low)
      && LeftTurnsFrom(p, low, 2)
      && (|p| >= 2 ==> |low| >= 2)
  {
    LowerFromShape(p, 1, [0]);
  }

  lemma UpperPush(p: seq<Point2D>, s: seq<nat>, i: nat, base: nat)
    requires i < |p| && 1 <= base <= |s| && IndicesIn(s, |p|)
    requires LeftTurnsFrom(p, s, base + 1) && !(0 < i && i in s)
    ensures var s' := PopWhile(p, s, i, base) + [i];
      base < |s'| && s'[|s'| - 1] == i && IndicesIn(s', |p|)
      && s'[..base] == s[..base] && LeftTurnsFrom(p, s', base + 1)
      && UpperFrom(p, i, s, base) == UpperFrom(p, i - 1, s', base)
  {
    var t := PopWhile(p, s, i, base);
    PushKeepsTurns(p, s, i, base);
    var s' := t + [i];
    assert s'[..base] == t[..base] == s[..base];
  }

  lemma {:induction false} UpperFromShape(p: seq<Point2D>, i: int, s: seq<nat>, base: nat)
    requires -1 <= i < |p| && 1 <= base <= |s| && IndicesIn(s, |p|)
    requires LeftTurnsFrom(p, s, base + 1)
    ensures var r := UpperFrom(p, i, s, base);
      r[..base] == s[..base] && LeftTurnsFrom(p, r, base + 1)
      && (i >= 0 ==> |r| > base && r[|r| - 1] == 0)
    decreases i + 1
  {
    if i >= 0 && !(0 < i && i in s) {
      UpperPush(p, s, i, base);
      UpperFromShape(p, i - 1, PopWhile(p, s, i, base) + [i], base);
    } else if i >= 0 {
      UpperFromShape(p, i - 1, s, base);
    }
  }

  /** For at least two points the index stack is a closed ring: it starts
      and ends at index 0, keeps the lower chain as its first part, and turns
      strictly left at every vertex checked while the stack was longer than
      the lower chain's base (for the lower part, longer than 1). For a
      single point it is [0]. */
  lemma ChainShape(p: seq<Point2D>)
    requires |p| >= 1
    ensures var r := ChainIndices(p); var low := LowerChain(p);
      |r| >= |low| && r[..|low|] == low
      && LeftTurnsFrom(p, r, |low| + 1)
      && (forall k :: 2 <= k < |low| ==> TurnAt(p, r, k) > 0)
      && (|p| == 1 ==> r == [0])
      && (|p| >= 2 ==> |r| >= 3 && r[0] == 0 && r[|r| - 1] == 0)
  {
    var low := LowerChain(p);
    LowerChainShape(p);
    UpperFromShape(p, |p| - 2, low, |low|);
    var r := ChainIndices(p);
    forall k | 2 <= k < |low| ensures TurnAt(p, r, k) > 0 {
      assert r[..|low|][k - 2] == r[k - 2] && r[..|low|][k - 1] == r[k - 1] && r[..|low|][k] == r[k];
      assert TurnAt(p, low, k) > 0;
    }
    assert r[0] == r[..|low|][0];
  }

  /** What calc_convex returns is made only of points of its argument; for
      two or more points it is a closed ring of at least three entries that
      starts and ends at the smallest point under (x, y); for one point it is
      that point alone. */
  lemma HullRing(pts: seq<Point2D>)
    requires |pts| >= 1
    ensures var h := ConvexHullOf(pts);
      (forall k :: 0 <= k < |h| ==> h[k] in pts)
      && (|pts| == 1 ==> h == pts)
      && (|pts| >= 2 ==> |h| >= 3 && h[0] == h[|h| - 1]
                         && forall q :: q in pts ==> LessEq(h[0], q))
  {
    HullMembers(pts);
    if |pts| >= 2 {
      HullStartsLeast(pts);
    } else {
      HullOfOne(pts);
    }
  }

  lemma HullMembers(pts: seq<Point2D>)
    requires |pts| >= 1
    ensures var h := ConvexHullOf(pts); forall k :: 0 <= k < |h| ==> h[k] in pts
  {
    var p := SortPoints(pts);
    var idx := ChainIndices(p);
    var h := ConvexHullOf(pts);
    forall k | 0 <= k < |h| ensures h[k] in pts {
      assert h[k] == p[idx[k]] && p[idx[k]] in multiset(p);
    }
  }

  lemma HullStartsLeast(pts: seq<Point2D>)
    requires |pts| >= 2
    ensures var h := ConvexHullOf(pts);
      |h| >= 3 && h[0] == h[|h| - 1] && forall q :: q in pts ==> LessEq(h[0], q)
  {
    var p := SortPoints(pts);
    var h := ConvexHullOf(pts);
    ChainShape(p);
    assert h[0] == p[0];
    forall q | q in pts ensures LessEq(h[0], q) {
      assert q in multiset(p);
      var j :| 0 <= j < |p| && p[j] == q;
    }
  }

  lemma HullOfOne(pts: seq<Point2D>)
    requires |pts| == 1
    ensures ConvexHullOf(pts) == pts
  {
    var p := SortPoints(pts);
    ChainShape(p);
    assert pts == [pts[0]] && p == [pts[0]] by {
      assert |multiset(p)| == 1 && p[0] in multiset(pts);
    }
  }

  // ---------------------------------------------------------------------
  // calc_convex

  /** `used[j]` marks exactly the indices j > 0 on the stack. */
  ghost predicate UsedMarks(used: seq<bool>, stack: seq<nat>)
  {
    forall j :: 0 < j < |used| ==> (used[j] <==> j in stack)
  }

  /** Marking a pushed index keeps `used` in step with the stack. */
  lemma MarkPush(used: seq<bool>, stack: seq<nat>, i: nat)
    requires UsedMarks(used, stack) && i < |used|
    ensures UsedMarks(used[i := true], stack + [i])
  {
  }

  /** Unmarking a popped index that occurs once keeps `used` in step. */
  lemma UnmarkPop(used: seq<bool>, stack: seq<nat>)
    requires UsedMarks(used, stack) && |stack| >= 1 && stack[|stack| - 1] < |used|
    requires stack[|stack| - 1] !in stack[..|stack| - 1]
    ensures UsedMarks(used[stack[|stack| - 1] := false], stack[..|stack| - 1])
  {
    var top := stack[|stack| - 1];
    assert stack == stack[..|stack| - 1] + [top];
  }

  /** The index popped by the inner loop is not 0 and occurs once. */
  lemma PopFresh(stack: seq<nat>, res: seq<nat>)
    requires 2 <= |res| <= |stack| && res == stack[..|res|]
    requires Distinct(stack) && stack[0] == 0
    ensures res[|res| - 1] != 0 && res[|res| - 1] !in res[..|res| - 1]
  {
    var m := |res| - 1;
    assert res[0] == stack[0] && res[m] == stack[m];
    var init := res[..m];
    forall k | 0 <= k < m ensures init[k] != res[m] {
      assert init[k] == stack[k];
    }
  }

  lemma PopPrefix(stack: seq<nat>, res: seq<nat>, n: nat)
    requires 1 <= |res| <= |stack| && res == stack[..|res|] && IndicesIn(stack, n)
    ensures IndicesIn(res, n) && res[..|res| - 1] == stack[..|res| - 1]
  {
  }

  /** Popping while the top does not turn left does not change where
      PopWhile ends. */
  lemma PopOnce(p: seq<Point2D>, res: seq<nat>, i: nat, floor: nat)
    requires 1 <= floor < |res| && i < |p| && IndicesIn(res, |p|)
    requires Turn(p, res[|res| - 2], res[|res| - 1], i) <= 0
    ensures PopWhile(p, res[..|res| - 1], i, floor) == PopWhile(p, res, i, floor)
  {
  }

  /** The source's inner while loop: pop, unmarking each popped index. */
  method PopStack(p: seq<Point2D>, used: array<bool>, stack: seq<nat>, i: nat, floor: nat)
    returns (res: seq<nat>)
    requires 1 <= floor <= |stack| && i < |p| && used.Length == |p|
    requires IndicesIn(stack, |p|) && Distinct(stack) && stack[0] == 0
    requires UsedMarks(used[..], stack) && !used[0]
    modifies used
    ensures res == PopWhile(p, stack, i, floor)
    ensures UsedMarks(used[..], res) && !used[0]
  {
    res := stack;
    while |res| > floor && Cross(Sub(p[res[|res| - 1]], p[res[|res| - 2]]),
                                 Sub(p[i], p[res[|res| - 1]])) <= 0
      invariant floor <= |res| <= |stack| && res == stack[..|res|]
      invariant PopWhile(p, res, i, floor) == PopWhile(p, stack, i, floor)
      invariant UsedMarks(used[..], res) && !used[0]
    {
      PopFresh(stack, res);
      PopPrefix(stack, res, |p|);
      assert Turn(p, res[|res| - 2], res[|res| - 1], i) <= 0;
      PopOnce(p, res, i, floor);
      var top := res[|res| - 1];
      ghost var u := used[..];
      UnmarkPop(u, res);
      res := res[..|res| - 1];
      used[top] := false;
      assert used[..] == u[top := false];
    }
  }

  lemma DistinctPush(s: seq<nat>, t: seq<nat>, i: nat)
    requires Distinct(s) && |t| <= |s| && t == s[..|t|]
    requires i > 0 ==> i !in t
    ensures i > 0 ==> Distinct(t + [i])
  {
  }

  /** One step of the lower-chain loop keeps the loop's invariant on the
      stack. */
  lemma LowerStep(p: seq<Point2D>, stack: seq<nat>, i: nat)
    requires 1 <= i < |p| && |stack| >= 1 && stack[0] == 0
    requires IndicesIn(stack, i) && StrictlyIncreasing(stack)
    ensures IndicesIn(stack, |p|) && Distinct(stack)
    ensures var s' := PopWhile(p, stack, i, 1) + [i];
      |s'| >= 1 && s'[0] == 0 && IndicesIn(s', i + 1) && StrictlyIncreasing(s')
      && LowerFrom(p, i + 1, s') == LowerFrom(p, i, stack)
  {
    var t := PopWhile(p, stack, i, 1);
    PushKeepsIncreasing(stack, t, i);
    assert t[0] == stack[0];
  }

  /** The first for loop of calc_convex: the lower chain. */
  method LowerLoop(p: seq<Point2D>, used: array<bool>) returns (stack: seq<nat>)
    requires |p| >= 1 && used.Length == |p|
    requires forall j :: 0 <= j < used.Length ==> !used[j]
    modifies used
    ensures stack == LowerChain(p)
    ensures stack[0] == 0 && IndicesIn(stack, |p|) && Distinct(stack)
    ensures UsedMarks(used[..], stack) && !used[0]
  {
    var n := |p|;
    stack := [0];
    var i := 1;
    while i < n
      invariant 1 <= i <= n
      invariant |stack| >= 1 && stack[0] == 0 && IndicesIn(stack, i) && StrictlyIncreasing(stack)
      invariant LowerFrom(p, i, stack) == LowerChain(p)
      invariant UsedMarks(used[..], stack) && !used[0]
    {
      LowerStep(p, stack, i);
      var popped := PopStack(p, used, stack, i, 1);
      ghost var u := used[..];
      MarkPush(u, popped, i);
      stack := popped + [i];
      used[i] := true;
      assert used[..] == u[i := true];
      i := i + 1;
    }
  }

  /** One push of the upper-chain loop keeps the loop's invariant on the
      stack. */
  lemma UpperStep(p: seq<Point2D>, stack: seq<nat>, k: nat, base: nat)
    requires k < |p| && 1 <= base <= |stack| && stack[0] == 0 && IndicesIn(stack, |p|)
    requires Distinct(stack) && !(0 < k && k in stack)
    ensures var s' := PopWhile(p, stack, k, base) + [k];
      base <= |s'| && s'[0] == 0 && IndicesIn(s', |p|)
      && UpperFrom(p, k, stack, base) == UpperFrom(p, k - 1, s', base)
      && (k > 0 ==> Distinct(s'))
  {
    var t := PopWhile(p, stack, k, base);
    DistinctPush(stack, t, k);
    assert t[0] == stack[0];
  }

  /** The upper-chain loop skips an index already on the stack. */
  lemma UpperSkip(p: seq<Point2D>, stack: seq<nat>, k: nat, base: nat)
    requires 0 < k < |p| && 1 <= base <= |stack| && IndicesIn(stack, |p|) && k in stack
    ensures UpperFrom(p, k, stack, base) == UpperFrom(p, k - 1, stack, base)
  {
  }

  /** What `used[k]` says about the stack. */
  lemma UsedAt(used: seq<bool>, stack: seq<nat>, k: nat)
    requires UsedMarks(used, stack) && k < |used| && !used[0]
    ensures used[k] <==> (0 < k && k in stack)
  {
  }

  /** The second for loop of calc_convex: the upper chain, continuing on the
      same stack and never popping below its height `base` on entry. */
  method UpperLoop(p: seq<Point2D>, used: array<bool>, low: seq<nat>) returns (stack: seq<nat>)
    requires |p| >= 1 && used.Length == |p|
    requires 1 <= |low| && low[0] == 0 && IndicesIn(low, |p|) && Distinct(low)
    requires UsedMarks(used[..], low) && !used[0]
    modifies used
    ensures stack == UpperFrom(p, |p| - 2, low, |low|)
  {
    var n := |p|;
    var base := |low|;
    stack := low;
    var k := n - 2;
    while k >= 0
      invariant -1 <= k <= n - 2
      invariant 1 <= base <= |stack| && stack[0] == 0 && IndicesIn(stack, n)
      invariant UpperFrom(p, k, stack, base) == UpperFrom(p, n - 2, low, base)
      invariant UsedMarks(used[..], stack)
      invariant used[0] <==> (k < 0 && n >= 2)
      invariant k >= 0 ==> Distinct(stack)
    {
      UsedAt(used[..], stack, k);
      if !used[k] {
        UpperStep(p, stack, k, base);
        var popped := PopStack(p, used, stack, k, base);
        ghost var u := used[..];
        MarkPush(u, popped, k);
        stack := popped + [k];
        used[k] := true;
        assert used[..] == u[k := true];
      } else {
        UpperSkip(p, stack, k, base);
      }
      k := k - 1;
    }
  }

  /** list.sort(key=(x, y)) on the array, as the sorted order SortPoints. */
  method SortInPlace(p: array<Point2D>)
    modifies p
    ensures p[..] == SortPoints(old(p[..]))
  {
    Sort(p);
    SortedUnique(p[..], SortPoints(old(p[..])));
  }

  /** The two chain loops of calc_convex on the sorted points. */
  method Chain(q: seq<Point2D>) returns (hull: seq<Point2D>)
    requires |q| >= 1
    ensures hull == Gather(q, ChainIndices(q))
  {
    var used := new bool[|q|](_ => false);
    var low := LowerLoop(q, used);
    var stack := UpperLoop(q, used, low);
    hull := Gather(q, stack);
  }

  method CalcConvex(p: array<Point2D>) returns (hull: seq<Point2D>)
    requires p.Length >= 1
    modifies p
    ensures p[..] == SortPoints(old(p[..]))
    ensures hull == ConvexHullOf(old(p[..]))
  {
    SortInPlace(p);
    hull := Chain(p[..]);
  }
}
