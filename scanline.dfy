/** The scanline aggregation of src/server/algo.py: MinMax / MinMaxDict,
    the per-row interval map, and calc_whole_convex, which walks the edges of
    a closed hull, records for every row the columns the edges pass
    through, and sums each row's interval with DataAccessor.query. */
module Scanline {
  import opened Wrappers
  import opened Projection
  import Accessor
  import DataManip
  import Hull

  // ---------------------------------------------------------------------
  // Minimum and maximum of what was recorded

  function Min(a: int, b: int): int { if a <= b then a else b }
  function Max(a: int, b: int): int { if a <= b then b else a }

  /** The running minimum of a non-empty sequence, folded from the left. */
  function SeqMin(s: seq<int>): int
    requires |s| > 0
  {
    if |s| == 1 then s[0] else Min(SeqMin(s[..|s| - 1]), s[|s| - 1])
  }

  function SeqMax(s: seq<int>): int
    requires |s| > 0
  {
    if |s| == 1 then s[0] else Max(SeqMax(s[..|s| - 1]), s[|s| - 1])
  }

  /** SeqMin and SeqMax are the least and the greatest element. */
  lemma {:induction false} SeqMinMax(s: seq<int>)
    requires |s| > 0
    ensures SeqMin(s) in s && SeqMax(s) in s
    ensures forall v :: v in s ==> SeqMin(s) <= v <= SeqMax(s)
  {
    if |s| > 1 {
      var init := s[..|s| - 1];
      SeqMinMax(init);
      assert s == init + [s[|s| - 1]];
      forall v | v in s ensures SeqMin(s) <= v <= SeqMax(s) {
        if v != s[|s| - 1] {
          assert v in init;
        }
      }
    }
  }

  lemma SeqMinMaxSnoc(s: seq<int>, v: int)
    requires |s| > 0
    ensures SeqMin(s + [v]) == Min(SeqMin(s), v) && SeqMax(s + [v]) == Max(SeqMax(s), v)
  {
    assert (s + [v])[..|s|] == s;
  }

  /** MinMax: the smallest and largest value it has been given. */
  class MinMax {
    var min: int
    var max: int
    ghost var seen: seq<int>

    ghost predicate Valid()
      reads this
    {
      |seen| > 0 && min == SeqMin(seen) && max == SeqMax(seen)
    }

    constructor (arg: int)
      ensures Valid() && seen == [arg]
    {
      min := arg;
      max := arg;
      seen := [arg];
    }

    method Update(arg: int)
      requires Valid()
      modifies this
      ensures Valid() && seen == old(seen) + [arg]
    {
      SeqMinMaxSnoc(seen, arg);
      min := Min(min, arg);
      max := Max(max, arg);
      seen := seen + [arg];
    }

    /** get(): (min, max); every value given lies between them. */
    function Get(): (r: (int, int))
      reads this
      requires Valid()
      ensures r.0 <= r.1 && r.0 in seen && r.1 in seen
      ensures forall v :: v in seen ==> r.0 <= v <= r.1
    {
      SeqMinMax(seen);
      (min, max)
    }
  }

  // ---------------------------------------------------------------------
  // The interval map as a function of the updates made

  /** The values recorded for key k, in update order. */
  function ValuesFor(s: seq<(int, int)>, k: int): seq<int> {
    if s == [] then []
    else ValuesFor(s[..|s| - 1], k) + (if s[|s| - 1].0 == k then [s[|s| - 1].1] else [])
  }

  /** The keys in first-insertion order, which is the iteration order of a
      Python dict. */
  function KeyOrder(s: seq<(int, int)>): seq<int> {
    if s == [] then []
    else
      var ks := KeyOrder(s[..|s| - 1]);
      if s[|s| - 1].0 in ks then ks else ks + [s[|s| - 1].0]
  }

  predicate DistinctKeys(ks: seq<int>) {
    forall i, j :: 0 <= i < j < |ks| ==> ks[i] != ks[j]
  }

  /** The values of k are exactly the values given with k. */
  lemma {:induction false} ValuesForSpec(s: seq<(int, int)>, k: int)
    ensures forall v :: v in ValuesFor(s, k) <==> exists i :: 0 <= i < |s| && s[i] == (k, v)
  {
    if s != [] {
      var init := s[..|s| - 1];
      ValuesForSpec(init, k);
      forall v ensures v in ValuesFor(s, k) <==> exists i :: 0 <= i < |s| && s[i] == (k, v) {
        if exists i :: 0 <= i < |s| && s[i] == (k, v) {
          var i :| 0 <= i < |s| && s[i] == (k, v);
          if i < |s| - 1 {
            assert init[i] == (k, v);
          }
        }
        if v in ValuesFor(s, k) && v in ValuesFor(init, k) {
          var i :| 0 <= i < |init| && init[i] == (k, v);
          assert s[i] == (k, v);
        }
      }
    }
  }

  /** The keys are exactly the updated keys, each once, and a key has a
      value exactly when it is a key. */
  lemma {:induction false} KeyOrderSpec(s: seq<(int, int)>)
    ensures DistinctKeys(KeyOrder(s))
    ensures forall k :: k in KeyOrder(s) <==> exists i :: 0 <= i < |s| && s[i].0 == k
    ensures forall k :: k in KeyOrder(s) <==> |ValuesFor(s, k)| > 0
  {
    if s != [] {
      var init := s[..|s| - 1];
      KeyOrderSpec(init);
      forall k ensures k in KeyOrder(s) <==> exists i :: 0 <= i < |s| && s[i].0 == k {
        if exists i :: 0 <= i < |s| && s[i].0 == k {
          var i :| 0 <= i < |s| && s[i].0 == k;
          if i < |s| - 1 {
            assert init[i].0 == k;
          }
        }
        if k in KeyOrder(init) {
          var i :| 0 <= i < |init| && init[i].0 == k;
          assert s[i].0 == k;
        }
      }
    }
  }

  /** One more update appends its value to its key's values and, for a new
      key, the key to the key order. */
  lemma Snoc(s: seq<(int, int)>, key: int, value: int)
    ensures var s' := s + [(key, value)];
      (forall k :: ValuesFor(s', k) == ValuesFor(s, k) + (if k == key then [value] else []))
      && KeyOrder(s') == (if key in KeyOrder(s) then KeyOrder(s) else KeyOrder(s) + [key])
  {
    var s' := s + [(key, value)];
    assert s'[..|s'| - 1] == s;
  }

  /** A key not in the key order has no values. */
  lemma Unkeyed(s: seq<(int, int)>, key: int)
    requires key !in KeyOrder(s)
    ensures ValuesFor(s, key) == []
  {
    KeyOrderSpec(s);
  }

  /** MinMaxDict: a MinMax per key, created on the key's first update. */
  class MinMaxDict {
    var dict: map<int, MinMax>
    /** The keys of dict in insertion order. */
    var keys: seq<int>
    ghost var samples: seq<(int, int)>
    ghost var Repr: set<object>

    ghost predicate Valid()
      reads this, Repr
    {
      (forall k :: k in dict ==> dict[k] in Repr)
      && (forall k, l :: k in dict && l in dict && k != l ==> dict[k] != dict[l])
      && (forall k :: k in dict ==> dict[k].Valid() && dict[k].seen == ValuesFor(samples, k))
      && keys == KeyOrder(samples)
      && (forall k :: k in dict <==> k in keys)
    }

    constructor ()
      ensures Valid() && fresh(Repr) && samples == []
    {
      dict := map[];
      keys := [];
      samples := [];
      Repr := {};
    }

    /** update(key, value): a new key gets a fresh MinMax; any other key
        keeps its object and its interval. */
    method Update(key: int, value: int)
      requires Valid()
      modifies this, Repr
      ensures Valid() && fresh(Repr - old(Repr))
      ensures samples == old(samples) + [(key, value)]
      ensures dict.Keys == old(dict.Keys) + {key}
      ensures forall k :: k in old(dict) && k != key ==>
        dict[k] == old(dict[k]) && dict[k].min == old(dict[k].min) && dict[k].max == old(dict[k].max)
    {
      if key !in dict {
        AddKey(key, value);
      } else {
        UpdateKey(key, value);
      }
    }

    /** The branch of update for a key not seen before. */
    method AddKey(key: int, value: int)
      requires Valid() && key !in dict
      modifies this
      ensures Valid() && fresh(Repr - old(Repr))
      ensures samples == old(samples) + [(key, value)]
      ensures dict.Keys == old(dict.Keys) + {key}
      ensures forall k :: k in old(dict) ==>
        dict[k] == old(dict[k]) && dict[k].min == old(dict[k].min) && dict[k].max == old(dict[k].max)
    {
      Snoc(samples, key, value);
      Unkeyed(samples, key);
      var m := new MinMax(value);
      dict, keys, Repr, samples := dict[key := m], keys + [key], Repr + {m}, samples + [(key, value)];
      assert keys == KeyOrder(samples);
      forall k | k in dict && k != key
        ensures dict[k] == old(dict[k]) && dict[k] != m && dict[k].Valid()
          && dict[k].seen == ValuesFor(samples, k)
      {
        assert k in old(dict);
      }
      assert forall k :: k in dict <==> k in keys;
    }

    /** The branch of update for a key already present: only its MinMax
        changes. */
    method UpdateKey(key: int, value: int)
      requires Valid() && key in dict
      modifies this, dict[key]
      ensures Valid() && Repr == old(Repr) && dict == old(dict)
      ensures samples == old(samples) + [(key, value)]
      ensures forall k :: k in old(dict) && k != key ==>
        dict[k].min == old(dict[k].min) && dict[k].max == old(dict[k].max)
    {
      Snoc(samples, key, value);
      var m := dict[key];
      m.Update(value);
      samples := samples + [(key, value)];
      forall k | k in dict && k != key
        ensures dict[k].Valid() && dict[k].seen == ValuesFor(samples, k)
      {
        assert dict[k] != m;
      }
    }

    /** get(key): the (min, max) of the values given with key; a missing
        key is Python's KeyError. */
    function Get(key: int): (r: Option<(int, int)>)
      reads this, Repr
      requires Valid()
      ensures r.Some? <==> |ValuesFor(samples, key)| > 0
      ensures r.Some? ==> r.value == (SeqMin(ValuesFor(samples, key)), SeqMax(ValuesFor(samples, key)))
    {
      KeyOrderSpec(samples);
      if key in dict then Some(dict[key].Get()) else None
    }

    /** get_dict().keys(): the updated keys, once each, in insertion order. */
    function Keys(): (r: seq<int>)
      reads this, Repr
      requires Valid()
      ensures DistinctKeys(r)
      ensures forall k :: k in r <==> |ValuesFor(samples, k)| > 0
      ensures r == KeyOrder(samples) && AllKeyed(r, samples)
    {
      KeyOrderSpec(samples);
      keys
    }
  }

  // ---------------------------------------------------------------------
  // The cells an edge passes through

  /** Python's int() on the exact quotient a / d: truncation toward zero. */
  function TruncDiv(a: int, d: int): int
    requires d > 0
  {
    if a >= 0 then a / d else -((-a) / d)
  }

  lemma MulMono(d: int, u: int, v: int)
    requires d > 0 && u <= v
    ensures d * u <= d * v
  {
    assert d * v - d * u == d * (v - u);
  }

  /** A truncated quotient stays between the bounds its dividend has. */
  lemma TruncDivBounds(a: int, d: int, lo: int, hi: int)
    requires d > 0 && lo * d <= a <= hi * d
    ensures lo <= TruncDiv(a, d) <= hi
  {
    var q := TruncDiv(a, d);
    if q > hi {
      MulMono(d, hi + 1, q);
    }
    if q < lo {
      MulMono(d, q, lo - 1);
    }
    assert a - d * q == if a >= 0 then a % d else -((-a) % d);
  }

  /** The truncation error is less than one divisor. */
  lemma TruncDivError(a: int, d: int)
    requires d > 0
    ensures -d < a - d * TruncDiv(a, d) < d
  {
    assert a - d * TruncDiv(a, d) == if a >= 0 then a % d else -((-a) % d);
  }

  /** int(k * x + b) with k = (y1 - y2) / (x1 - x2) and b = y1 - k * x1,
      taken exactly: the line from (x1, y1) to (x2, y2) at row x. */
  function SlopeValue(x1: int, y1: int, x2: int, y2: int, x: int): int
    requires x1 < x2
  {
    TruncDiv(y1 * (x2 - x1) + (y2 - y1) * (x - x1), x2 - x1)
  }

  /** The (row, column) updates one edge makes, as written: the row range
      of the edge is walked along the diagonal of its bounding box from
      (min x, min y) to (max x, max y). */
  function EdgeSamples(p1: Point2D, p2: Point2D): seq<(int, int)> {
    var x1 := Min(p1.x, p2.x);
    var y1 := Min(p1.y, p2.y);
    var x2 := Max(p1.x, p2.x);
    var y2 := Max(p1.y, p2.y);
    if y1 == y2 then seq(x2 - x1 + 1, j => (x1 + j, y1))
    else if x1 == x2 then seq(y2 - y1 + 1, j => (x1, y1 + j))
    else seq(x2 - x1 + 1, j => (x1 + j, SlopeValue(x1, y1, x2, y2, x1 + j)))
  }

  lemma SlopeValueInBox(x1: int, y1: int, x2: int, y2: int, x: int)
    requires x1 < x2 && y1 <= y2 && x1 <= x <= x2
    ensures y1 <= SlopeValue(x1, y1, x2, y2, x) <= y2
  {
    var d := x2 - x1;
    var a := y1 * d + (y2 - y1) * (x - x1);
    MulMono(y2 - y1 + 1, 0, x - x1);
    MulMono(y2 - y1 + 1, x - x1, d);
    assert (y2 - y1) * d - (y2 - y1) * (x - x1) == (y2 - y1) * (x2 - x);
    MulMono(y2 - y1 + 1, 0, x2 - x);
    assert y1 * d <= a <= y2 * d;
    TruncDivBounds(a, d, y1, y2);
  }

  predicate HasKey(e: seq<(int, int)>, x: int) {
    exists i :: 0 <= i < |e| && e[i].0 == x
  }

  /** Every update of an edge lies in the edge's bounding box, and every row
      from min x to max x is updated. */
  lemma EdgeSamplesInBox(p1: Point2D, p2: Point2D)
    ensures var e := EdgeSamples(p1, p2);
      forall i :: 0 <= i < |e| ==>
        Min(p1.x, p2.x) <= e[i].0 <= Max(p1.x, p2.x) && Min(p1.y, p2.y) <= e[i].1 <= Max(p1.y, p2.y)
    ensures var e := EdgeSamples(p1, p2);
      forall x :: Min(p1.x, p2.x) <= x <= Max(p1.x, p2.x) ==> HasKey(e, x)
  {
    var e := EdgeSamples(p1, p2);
    var x1, y1, x2, y2 := Min(p1.x, p2.x), Min(p1.y, p2.y), Max(p1.x, p2.x), Max(p1.y, p2.y);
    if y1 != y2 && x1 != x2 {
      forall i | 0 <= i < |e| ensures y1 <= e[i].1 <= y2 {
        SlopeValueInBox(x1, y1, x2, y2, x1 + i);
      }
    }
    forall x | x1 <= x <= x2 ensures HasKey(e, x) {
      if y1 != y2 && x1 == x2 {
        assert e[0].0 == x;
      } else {
        assert e[x - x1].0 == x;
      }
    }
  }

  /** The updates of the first n edges, i -> i + 1 for i < n. */
  function EdgesUpTo(convex: seq<Point2D>, n: nat): seq<(int, int)>
    requires n == 0 || n < |convex|
  {
    if n == 0 then [] else EdgesUpTo(convex, n - 1) + EdgeSamples(convex[n - 1], convex[n])
  }

  lemma EdgesUpToNext(convex: seq<Point2D>, i: nat)
    requires i + 1 < |convex|
    ensures EdgesUpTo(convex, i + 1) == EdgesUpTo(convex, i) + EdgeSamples(convex[i], convex[i + 1])
  {
  }

  /** The updates of calc_whole_convex: the edges i -> i + 1 for
      i < len - 1, with no edge from the last point back to the first. */
  function Boundary(convex: seq<Point2D>): seq<(int, int)> {
    if |convex| == 0 then [] else EdgesUpTo(convex, |convex| - 1)
  }

  lemma {:induction false} EdgesUpToPrefix(c: seq<Point2D>, d: seq<Point2D>, n: nat)
    requires n < |c| && n < |d| && c[..n + 1] == d[..n + 1]
    ensures EdgesUpTo(c, n) == EdgesUpTo(d, n)
  {
    if n > 0 {
      assert c[..n] == d[..n] by {
        assert c[..n] == c[..n + 1][..n];
        assert d[..n] == d[..n + 1][..n];
      }
      EdgesUpToPrefix(c, d, n - 1);
      assert c[n - 1] == c[..n + 1][n - 1] && d[n - 1] == d[..n + 1][n - 1];
      assert c[n] == c[..n + 1][n] && d[n] == d[..n + 1][n];
    }
  }

  /** Closing a ring by repeating its first point adds exactly the wrap
      edge: this is why calc_convex's closed ring is aggregated with all
      of its sides. */
  lemma ClosingPointAddsWrapEdge(c: seq<Point2D>)
    requires |c| >= 1
    ensures Boundary(c + [c[0]]) == Boundary(c) + EdgeSamples(c[|c| - 1], c[0])
  {
    var d := c + [c[0]];
    var n := |c| - 1;
    assert d[n] == c[n] && d[n + 1] == c[0];
    EdgesUpToNext(d, n);
    assert EdgesUpTo(c, n) == EdgesUpTo(d, n) by {
      if n > 0 {
        assert c[..n + 1] == d[..n + 1];
        EdgesUpToPrefix(c, d, n);
      }
    }
    calc {
      Boundary(d);
      EdgesUpTo(d, n + 1);
      EdgesUpTo(d, n) + EdgeSamples(d[n], d[n + 1]);
      Boundary(c) + EdgeSamples(c[n], c[0]);
    }
  }

  /** Every update of edge i is among those of n > i edges. */
  lemma {:induction false} EdgeInEdgesUpTo(c: seq<Point2D>, i: nat, n: nat, j: nat)
    requires i < n < |c| && j < |EdgeSamples(c[i], c[i + 1])|
    ensures EdgeSamples(c[i], c[i + 1])[j] in EdgesUpTo(c, n)
  {
    if n - 1 > i {
      EdgeInEdgesUpTo(c, i, n - 1, j);
    } else {
      assert EdgesUpTo(c, n)[|EdgesUpTo(c, i)| + j] == EdgeSamples(c[i], c[i + 1])[j];
    }
  }

  /** Every row crossed by an edge i -> i + 1 with i < len - 1 is a key of the
      interval map. */
  lemma BoundaryCoversEdges(c: seq<Point2D>, i: nat, x: int)
    requires i + 1 < |c| && Min(c[i].x, c[i + 1].x) <= x <= Max(c[i].x, c[i + 1].x)
    ensures x in KeyOrder(Boundary(c))
  {
    EdgeSamplesInBox(c[i], c[i + 1]);
    var e := EdgeSamples(c[i], c[i + 1]);
    assert HasKey(e, x);
    var j :| 0 <= j < |e| && e[j].0 == x;
    EdgeInEdgesUpTo(c, i, |c| - 1, j);
    InKeyOrder(Boundary(c), e[j]);
  }

  /** The key of every update is a key of the map. */
  lemma InKeyOrder(s: seq<(int, int)>, q: (int, int))
    requires q in s
    ensures q.0 in KeyOrder(s)
  {
    var m :| 0 <= m < |s| && s[m] == q;
    KeyOrderSpec(s);
  }

  predicate InRaster(p: Point2D) {
    0 <= p.x < Accessor.Rows && 0 <= p.y < Accessor.Cols
  }

  /** With every hull point in the raster, every update is a raster cell. */
  lemma {:induction false} EdgesInRaster(c: seq<Point2D>, n: nat)
    requires n == 0 || n < |c|
    requires forall i :: 0 <= i < |c| ==> InRaster(c[i])
    ensures forall i :: 0 <= i < |EdgesUpTo(c, n)| ==> InRaster(Point2D(EdgesUpTo(c, n)[i].0, EdgesUpTo(c, n)[i].1))
  {
    if n > 0 {
      EdgesInRaster(c, n - 1);
      EdgeSamplesInBox(c[n - 1], c[n]);
    }
  }

  // ---------------------------------------------------------------------
  // The aggregate

  predicate AllKeyed(ks: seq<int>, s: seq<(int, int)>) {
    forall k :: k in ks ==> |ValuesFor(s, k)| > 0
  }

  /** The loop `ans += query(x, min, max)` over the keys ks; the first
      IndexError ends it. */
  function SumQueries(data: array2<int>, ks: seq<int>, s: seq<(int, int)>): Result<int>
    reads data
    requires Accessor.Shaped(data) && AllKeyed(ks, s)
  {
    if ks == [] then Ok(0)
    else
      var prev := SumQueries(data, ks[..|ks| - 1], s);
      var k := ks[|ks| - 1];
      var q := Accessor.Query(data, k, SeqMin(ValuesFor(s, k)), SeqMax(ValuesFor(s, k)));
      if prev.Err? then prev
      else if q.Err? then q
      else Ok(prev.value + q.value)
  }

  /** calc_whole_convex(convex, accessor) as a function of its inputs. */
  function WholeConvex(convex: seq<Point2D>, data: array2<int>): Result<int>
    reads data
    requires Accessor.Shaped(data)
  {
    var s := Boundary(convex);
    KeyOrderSpec(s);
    SumQueries(data, KeyOrder(s), s)
  }

  /** for x in range(x1, x2 + 1): update(x, y) -- a horizontal edge. */
  method RecordRow(m: MinMaxDict, x1: int, x2: int, y: int)
    requires m.Valid() && x1 <= x2
    modifies m, m.Repr
    ensures m.Valid() && fresh(m.Repr - old(m.Repr))
    ensures m.samples == old(m.samples) + seq(x2 - x1 + 1, j => (x1 + j, y))
  {
    ghost var e := seq(x2 - x1 + 1, j => (x1 + j, y));
    var x := x1;
    while x < x2 + 1
      invariant x1 <= x <= x2 + 1
      invariant m.Valid() && fresh(m.Repr - old(m.Repr))
      invariant m.samples == old(m.samples) + e[..x - x1]
    {
      m.Update(x, y);
      assert e[..x + 1 - x1] == e[..x - x1] + [(x, y)];
      x := x + 1;
    }
    assert e[..x - x1] == e;
  }

  /** for y in range(y1, y2 + 1): update(x, y) -- a vertical edge. */
  method RecordColumn(m: MinMaxDict, x: int, y1: int, y2: int)
    requires m.Valid() && y1 <= y2
    modifies m, m.Repr
    ensures m.Valid() && fresh(m.Repr - old(m.Repr))
    ensures m.samples == old(m.samples) + seq(y2 - y1 + 1, j => (x, y1 + j))
  {
    ghost var e := seq(y2 - y1 + 1, j => (x, y1 + j));
    var y := y1;
    while y < y2 + 1
      invariant y1 <= y <= y2 + 1
      invariant m.Valid() && fresh(m.Repr - old(m.Repr))
      invariant m.samples == old(m.samples) + e[..y - y1]
    {
      m.Update(x, y);
      assert e[..y + 1 - y1] == e[..y - y1] + [(x, y)];
      y := y + 1;
    }
    assert e[..y - y1] == e;
  }

  /** for x in range(x1, x2 + 1): update(x, int(k * x + b)) -- a sloped edge. */
  method RecordSlope(m: MinMaxDict, x1: int, y1: int, x2: int, y2: int)
    requires m.Valid() && x1 < x2
    modifies m, m.Repr
    ensures m.Valid() && fresh(m.Repr - old(m.Repr))
    ensures m.samples == old(m.samples) + seq(x2 - x1 + 1, j => (x1 + j, SlopeValue(x1, y1, x2, y2, x1 + j)))
  {
    ghost var e := seq(x2 - x1 + 1, j => (x1 + j, SlopeValue(x1, y1, x2, y2, x1 + j)));
    var x := x1;
    while x < x2 + 1
      invariant x1 <= x <= x2 + 1
      invariant m.Valid() && fresh(m.Repr - old(m.Repr))
      invariant m.samples == old(m.samples) + e[..x - x1]
    {
      var y := SlopeValue(x1, y1, x2, y2, x);
      m.Update(x, y);
      assert e[..x + 1 - x1] == e[..x - x1] + [(x, y)];
      x := x + 1;
    }
    assert e[..x - x1] == e;
  }

  /** The updates of one edge, made by the branch of calc_whole_convex that
      the edge's bounding box selects. */
  method RecordEdge(m: MinMaxDict, p1: Point2D, p2: Point2D)
    requires m.Valid()
    modifies m, m.Repr
    ensures m.Valid() && fresh(m.Repr - old(m.Repr))
    ensures m.samples == old(m.samples) + EdgeSamples(p1, p2)
  {
    var x1 := Min(p1.x, p2.x);
    var y1 := Min(p1.y, p2.y);
    var x2 := Max(p1.x, p2.x);
    var y2 := Max(p1.y, p2.y);
    if y1 == y2 {
      RecordRow(m, x1, x2, y1);
    } else if x1 == x2 {
      RecordColumn(m, x1, y1, y2);
    } else {
      RecordSlope(m, x1, y1, x2, y2);
    }
  }

  /** The summing loop of calc_whole_convex over the keys ks of m, in order. */
  method SumIntervals(m: MinMaxDict, ks: seq<int>, data: array2<int>) returns (r: Result<int>)
    requires m.Valid() && AllKeyed(ks, m.samples) && Accessor.Shaped(data)
    ensures r == FoldResults(RowQueries(data, ks, m.samples), 0, 0)
  {
    ghost var ts := RowQueries(data, ks, m.samples);
    var ans := 0;
    var j := 0;
    while j < |ks|
      invariant 0 <= j <= |ks|
      invariant FoldResults(ts, j, ans) == FoldResults(ts, 0, 0)
    {
      var q := KeyQuery(m, data, ks[j]);
      assert q == ts[j];
      if q.Err? {
        return q;
      }
      ans := ans + q.value;
      j := j + 1;
    }
    r := Ok(ans);
  }

  /** calc_whole_convex: the interval map of the hull's edges, then the sum
      of the row queries in key order. */
  method CalcWholeConvex(convex: seq<Point2D>, data: array2<int>) returns (r: Result<int>)
    requires Accessor.Shaped(data)
    ensures r == WholeConvex(convex, data)
  {
    var intersections := new MinMaxDict();
    var i := 0;
    while i < |convex| - 1
      invariant 0 <= i && (i == 0 || i < |convex|)
      invariant intersections.Valid() && fresh(intersections.Repr)
      invariant intersections.samples == EdgesUpTo(convex, i)
    {
      EdgesUpToNext(convex, i);
      RecordEdge(intersections, convex[i], convex[i + 1]);
      i := i + 1;
    }
    assert intersections.samples == Boundary(convex);
    var ks := intersections.Keys();
    r := SumIntervals(intersections, ks, data);
    ghost var s := intersections.samples;
    assert ks[..0] == [];
    FoldIsSumQueries(data, ks, s, RowQueries(data, ks, s), 0, 0);
  }

  /** query(x, *intersections[x]) for one key x of the map. */
  function KeyQuery(m: MinMaxDict, data: array2<int>, x: int): (q: Result<int>)
    reads m, m.Repr, data
    requires m.Valid() && Accessor.Shaped(data) && |ValuesFor(m.samples, x)| > 0
    ensures q == Accessor.Query(data, x, SeqMin(ValuesFor(m.samples, x)), SeqMax(ValuesFor(m.samples, x)))
  {
    var (lo, hi) := m.Get(x).value;
    Accessor.Query(data, x, lo, hi)
  }

  /** The query of every key of ks, in order. */
  function RowQueries(data: array2<int>, ks: seq<int>, s: seq<(int, int)>): (ts: seq<Result<int>>)
    reads data
    requires Accessor.Shaped(data) && AllKeyed(ks, s)
    ensures |ts| == |ks|
    ensures forall j :: 0 <= j < |ks| ==>
      ts[j] == Accessor.Query(data, ks[j], SeqMin(ValuesFor(s, ks[j])), SeqMax(ValuesFor(s, ks[j])))
  {
    seq(|ks|, j requires 0 <= j < |ks| reads data =>
      Accessor.Query(data, ks[j], SeqMin(ValuesFor(s, ks[j])), SeqMax(ValuesFor(s, ks[j]))))
  }

  /** The summing loop from index j on, with `acc` summed so far: the
      first error, or the total. */
  function FoldResults(ts: seq<Result<int>>, j: nat, acc: int): Result<int>
    requires j <= |ts|
    decreases |ts| - j
  {
    if j == |ts| then Ok(acc)
    else if ts[j].Err? then ts[j]
    else FoldResults(ts, j + 1, acc + ts[j].value)
  }

  /** The loop computes SumQueries: continued from a prefix that summed to
      acc, it ends with the sum of all keys, or the first error. */
  lemma {:induction false} FoldIsSumQueries(data: array2<int>, ks: seq<int>, s: seq<(int, int)>, ts: seq<Result<int>>, j: nat, acc: int)
    requires Accessor.Shaped(data) && AllKeyed(ks, s) && j <= |ks|
    requires ts == RowQueries(data, ks, s)
    requires SumQueries(data, ks[..j], s) == Ok(acc)
    ensures FoldResults(ts, j, acc) == SumQueries(data, ks, s)
    decreases |ks| - j
  {
    if j == |ks| {
      assert ks[..j] == ks;
    } else {
      SumQueriesStep(data, ks, s, j);
      if ts[j].Err? {
        ErrorPersists(data, ks, s, j + 1);
      } else {
        FoldIsSumQueries(data, ks, s, ts, j + 1, acc + ts[j].value);
      }
    }
  }

  lemma SumQueriesStep(data: array2<int>, ks: seq<int>, s: seq<(int, int)>, j: nat)
    requires Accessor.Shaped(data) && AllKeyed(ks, s) && j < |ks|
    ensures var k := ks[j];
      var q := Accessor.Query(data, k, SeqMin(ValuesFor(s, k)), SeqMax(ValuesFor(s, k)));
      var prev := SumQueries(data, ks[..j], s);
      SumQueries(data, ks[..j + 1], s) == if prev.Err? then prev else if q.Err? then q else Ok(prev.value + q.value)
  {
    assert ks[..j + 1][..j] == ks[..j];
  }

  /** Once a query fails, the sum over any longer prefix is that error. */
  lemma {:induction false} ErrorPersists(data: array2<int>, ks: seq<int>, s: seq<(int, int)>, j: nat)
    requires Accessor.Shaped(data) && AllKeyed(ks, s) && 0 < j <= |ks|
    requires SumQueries(data, ks[..j], s).Err?
    ensures SumQueries(data, ks, s) == SumQueries(data, ks[..j], s)
    decreases |ks| - j
  {
    if j < |ks| {
      assert ks[..j + 1][..j] == ks[..j];
      ErrorPersists(data, ks, s, j + 1);
    } else {
      assert ks[..j] == ks;
    }
  }

  // ---------------------------------------------------------------------
  // The aggregate over the processed raster

  /** The population of the rows ks: each row summed over its interval. */
  function CoveredSum(tiles: seq<DataManip.Tile>, ks: seq<int>, s: seq<(int, int)>): int
    requires DataManip.WellFormed(tiles, Constant)
  {
    if ks == [] then 0
    else
      var k := ks[|ks| - 1];
      var vs := ValuesFor(s, k);
      CoveredSum(tiles, ks[..|ks| - 1], s)
        + if |vs| > 0 && 0 <= k < Accessor.Rows && 0 <= SeqMin(vs) && SeqMax(vs) < Accessor.Cols
          then DataManip.RangeSum(tiles, Constant, k, SeqMin(vs), SeqMax(vs))
          else 0
  }

  /** The interval recorded for a key lies within the columns recorded. */
  lemma IntervalInRaster(s: seq<(int, int)>, k: int)
    requires |ValuesFor(s, k)| > 0
    requires forall i :: 0 <= i < |s| ==> 0 <= s[i].1 < Accessor.Cols
    ensures 0 <= SeqMin(ValuesFor(s, k)) <= SeqMax(ValuesFor(s, k)) < Accessor.Cols
  {
    var vs := ValuesFor(s, k);
    SeqMinMax(vs);
    ValuesForSpec(s, k);
    var lo := SeqMin(vs);
    var hi := SeqMax(vs);
    assert lo in vs && hi in vs;
    var i :| 0 <= i < |s| && s[i] == (k, lo);
    var j :| 0 <= j < |s| && s[j] == (k, hi);
  }

  /** The keys before the last keep what is asked of all keys. */
  lemma InitKeys(ks: seq<int>, s: seq<(int, int)>)
    requires |ks| >= 1 && AllKeyed(ks, s) && forall k :: k in ks ==> 0 <= k < Accessor.Rows
    ensures var init := ks[..|ks| - 1];
      AllKeyed(init, s) && (forall k :: k in init ==> 0 <= k < Accessor.Rows)
      && ks[|ks| - 1] in ks
  {
    var init := ks[..|ks| - 1];
    forall k | k in init ensures k in ks {
      var i :| 0 <= i < |init| && init[i] == k;
      assert ks[i] == k;
    }
  }

  /** The query of the last key is its covered row sum. */
  lemma LastQueryInRaster(data: array2<int>, tiles: seq<DataManip.Tile>, s: seq<(int, int)>, k: int)
    requires Accessor.Processed(data, tiles) && |ValuesFor(s, k)| > 0 && 0 <= k < Accessor.Rows
    requires forall i :: 0 <= i < |s| ==> 0 <= s[i].1 < Accessor.Cols
    ensures var vs := ValuesFor(s, k);
      0 <= SeqMin(vs) <= SeqMax(vs) < Accessor.Cols
      && Accessor.Query(data, k, SeqMin(vs), SeqMax(vs))
         == Ok(DataManip.RangeSum(tiles, Constant, k, SeqMin(vs), SeqMax(vs)))
  {
    var vs := ValuesFor(s, k);
    IntervalInRaster(s, k);
    Accessor.QueryAsWritten(data, tiles, k, SeqMin(vs), SeqMax(vs));
  }

  lemma {:induction false} SumQueriesInRaster(data: array2<int>, tiles: seq<DataManip.Tile>,
                                              ks: seq<int>, s: seq<(int, int)>)
    requires Accessor.Processed(data, tiles) && AllKeyed(ks, s)
    requires forall k :: k in ks ==> 0 <= k < Accessor.Rows
    requires forall i :: 0 <= i < |s| ==> 0 <= s[i].1 < Accessor.Cols
    ensures SumQueries(data, ks, s) == Ok(CoveredSum(tiles, ks, s))
  {
    if ks != [] {
      var k := ks[|ks| - 1];
      InitKeys(ks, s);
      assert 0 <= k < Accessor.Rows && |ValuesFor(s, k)| > 0;
      SumQueriesInRaster(data, tiles, ks[..|ks| - 1], s);
      LastQueryInRaster(data, tiles, s, k);
      SumQueriesLast(data, ks, s);
      CoveredSumLast(tiles, ks, s);
    }
  }

  /** CoveredSum adds the last key's row sum when its interval lies in the
      raster. */
  lemma CoveredSumLast(tiles: seq<DataManip.Tile>, ks: seq<int>, s: seq<(int, int)>)
    requires DataManip.WellFormed(tiles, Constant) && ks != []
    ensures var k := ks[|ks| - 1];
      var vs := ValuesFor(s, k);
      |vs| > 0 && 0 <= k < Accessor.Rows && 0 <= SeqMin(vs) && SeqMax(vs) < Accessor.Cols ==>
        CoveredSum(tiles, ks, s) == CoveredSum(tiles, ks[..|ks| - 1], s) + DataManip.RangeSum(tiles, Constant, k, SeqMin(vs), SeqMax(vs))
  {
  }

  /** SumQueries adds the last key's query to the sum of the others. */
  lemma SumQueriesLast(data: array2<int>, ks: seq<int>, s: seq<(int, int)>)
    requires Accessor.Shaped(data) && AllKeyed(ks, s) && ks != [] && AllKeyed(ks[..|ks| - 1], s)
    ensures var k := ks[|ks| - 1];
      var prev := SumQueries(data, ks[..|ks| - 1], s);
      var q := Accessor.Query(data, k, SeqMin(ValuesFor(s, k)), SeqMax(ValuesFor(s, k)));
      prev.Ok? && q.Ok? ==> SumQueries(data, ks, s) == Ok(prev.value + q.value)
  {
  }

  /** With no negative data every row sum, and so their total, is at
      least 0. */
  lemma {:induction false} CoveredSumNonNegative(tiles: seq<DataManip.Tile>, ks: seq<int>, s: seq<(int, int)>)
    requires DataManip.WellFormed(tiles, Constant) && DataManip.NoNegativeData(tiles)
    ensures CoveredSum(tiles, ks, s) >= 0
  {
    if ks != [] {
      CoveredSumNonNegative(tiles, ks[..|ks| - 1], s);
      var k := ks[|ks| - 1];
      var vs := ValuesFor(s, k);
      if |vs| > 0 && 0 <= k < Accessor.Rows && 0 <= SeqMin(vs) && SeqMax(vs) < Accessor.Cols {
        SeqMinMax(vs);
        DataManip.RangeSumNonNegative(tiles, Constant, k, SeqMin(vs), SeqMax(vs));
      }
    }
  }

  /** For a hull inside the raster, calc_whole_convex never fails and is
      the sum, over the rows its edges cross, of the cleaned cells between
      the leftmost and rightmost column recorded for the row; with no
      negative data it is at least 0. */
  lemma WholeConvexInRaster(convex: seq<Point2D>, data: array2<int>, tiles: seq<DataManip.Tile>)
    requires Accessor.Processed(data, tiles)
    requires forall i :: 0 <= i < |convex| ==> InRaster(convex[i])
    ensures var s := Boundary(convex);
      forall i :: 0 <= i < |s| ==> InRaster(Point2D(s[i].0, s[i].1))
    ensures var s := Boundary(convex);
      WholeConvex(convex, data) == Ok(CoveredSum(tiles, KeyOrder(s), s))
    ensures DataManip.NoNegativeData(tiles) ==> WholeConvex(convex, data).Ok? && WholeConvex(convex, data).value >= 0
  {
    var s := Boundary(convex);
    KeyOrderSpec(s);
    EdgesInRaster(convex, if |convex| == 0 then 0 else |convex| - 1);
    forall k | k in KeyOrder(s) ensures 0 <= k < Accessor.Rows {
      var i :| 0 <= i < |s| && s[i].0 == k;
      assert InRaster(Point2D(s[i].0, s[i].1));
    }
    forall i | 0 <= i < |s| ensures 0 <= s[i].1 < Accessor.Cols {
      assert InRaster(Point2D(s[i].0, s[i].1));
    }
    SumQueriesInRaster(data, tiles, KeyOrder(s), s);
    if DataManip.NoNegativeData(tiles) {
      CoveredSumNonNegative(tiles, KeyOrder(s), s);
    }
  }

  // ---------------------------------------------------------------------
  // Finding: a descending edge is walked along the wrong diagonal

  function Abs(v: int): int { if v < 0 then -v else v }

  /** An edge whose column falls while its row rises. */
  predicate Descending(p1: Point2D, p2: Point2D) {
    (p1.x < p2.x && p1.y > p2.y) || (p1.x > p2.x && p1.y < p2.y)
  }

  /** The edge with its endpoints ordered by row. */
  function ByRow(p1: Point2D, p2: Point2D): (Point2D, Point2D) {
    if p1.x <= p2.x then (p1, p2) else (p2, p1)
  }

  /** The updates of an edge as evidently intended: the sloped branch
      follows the edge itself from its upper to its lower endpoint. */
  function EdgeSamplesIntended(p1: Point2D, p2: Point2D): seq<(int, int)> {
    var (a, b) := ByRow(p1, p2);
    if a.y == b.y then seq(b.x - a.x + 1, j => (a.x + j, a.y))
    else if a.x == b.x then seq(Max(a.y, b.y) - Min(a.y, b.y) + 1, j => (a.x, Min(a.y, b.y) + j))
    else seq(b.x - a.x + 1, j => (a.x + j, SlopeValue(a.x, a.y, b.x, b.y, a.x + j)))
  }

  /** On edges that are not descending the code does what was intended. */
  lemma NonDescendingEdgesAgree(p1: Point2D, p2: Point2D)
    requires !Descending(p1, p2)
    ensures EdgeSamples(p1, p2) == EdgeSamplesIntended(p1, p2)
  {
  }

  /** A sloped-edge cell at row offset i is within one unit of the line:
      the truncation error of SlopeValue, scaled by the row extent. */
  lemma SlopeValueNearLine(x1: int, y1: int, x2: int, y2: int, i: int)
    requires x1 < x2 && 0 <= i <= x2 - x1
    ensures Abs(Hull.Cross(Point2D(x2 - x1, y2 - y1), Point2D(i, SlopeValue(x1, y1, x2, y2, x1 + i) - y1))) < x2 - x1
  {
    var d := x2 - x1;
    var num := y1 * d + (y2 - y1) * i;
    var v := SlopeValue(x1, y1, x2, y2, x1 + i);
    assert v == TruncDiv(num, d);
    TruncDivError(num, d);
    assert d * (v - y1) == d * v - y1 * d;
    assert Hull.Cross(Point2D(d, y2 - y1), Point2D(i, v - y1)) == d * v - num;
  }

  /** The corrected updates of a sloped edge start and end at its endpoints
      and every cell recorded lies within one unit of the edge's line: the
      cross product with the edge is smaller than its row extent. */
  lemma EdgeSamplesIntendedOnEdge(p1: Point2D, p2: Point2D)
    requires p1.x != p2.x
    ensures var (a, b) := ByRow(p1, p2); var e := EdgeSamplesIntended(p1, p2);
      |e| == b.x - a.x + 1 && e[0] == (a.x, a.y) && e[|e| - 1] == (b.x, b.y)
      && forall i :: 0 <= i < |e| ==>
           (e[i].0 == a.x + i && Abs(Hull.Cross(Sub(b, a), Sub(Point2D(e[i].0, e[i].1), a))) < b.x - a.x)
  {
    var (a, b) := ByRow(p1, p2);
    var e := EdgeSamplesIntended(p1, p2);
    var d := b.x - a.x;
    if a.y != b.y {
      assert e[0] == (a.x, SlopeValue(a.x, a.y, b.x, b.y, a.x));
      assert e[d] == (b.x, SlopeValue(a.x, a.y, b.x, b.y, b.x));
      TruncDivBounds(a.y * d, d, a.y, a.y);
      assert a.y * d + (b.y - a.y) * d == b.y * d;
      TruncDivBounds(b.y * d, d, b.y, b.y);
      forall i | 0 <= i < |e|
        ensures Abs(Hull.Cross(Sub(b, a), Sub(Point2D(e[i].0, e[i].1), a))) < d
      {
        SlopeValueNearLine(a.x, a.y, b.x, b.y, i);
      }
    }
  }

  /** As written, a descending edge's first row records the column of the
      other endpoint: the cell is a whole row extent or more off the edge. */
  lemma DescendingEdgeLeavesEdge(p1: Point2D, p2: Point2D)
    requires Descending(p1, p2)
    ensures var (a, b) := ByRow(p1, p2); var e := EdgeSamples(p1, p2);
      e[0] == (a.x, b.y) && b.y != a.y
      && Abs(Hull.Cross(Sub(b, a), Sub(Point2D(e[0].0, e[0].1), a))) >= b.x - a.x
  {
    var (a, b) := ByRow(p1, p2);
    DescendingFirstSample(p1, p2);
    OtherEndOffEdge(a, b);
  }

  /** The first update of a descending edge is (row of the upper endpoint,
      column of the lower one). */
  lemma DescendingFirstSample(p1: Point2D, p2: Point2D)
    requires Descending(p1, p2)
    ensures var (a, b) := ByRow(p1, p2);
      a.x < b.x && b.y != a.y && |EdgeSamples(p1, p2)| > 0 && EdgeSamples(p1, p2)[0] == (a.x, b.y)
  {
    var (a, b) := ByRow(p1, p2);
    var d := b.x - a.x;
    var x1, y1, x2, y2 := Min(p1.x, p2.x), Min(p1.y, p2.y), Max(p1.x, p2.x), Max(p1.y, p2.y);
    assert EdgeSamples(p1, p2)[0] == (x1, SlopeValue(x1, y1, x2, y2, x1));
    TruncDivBounds(y1 * d, d, y1, y1);
  }

  /** The point in the upper endpoint's row and the lower endpoint's column
      is at least the row extent off the edge's line. */
  lemma OtherEndOffEdge(a: Point2D, b: Point2D)
    requires a.x < b.x && b.y != a.y
    ensures Abs(Hull.Cross(Sub(b, a), Sub(Point2D(a.x, b.y), a))) >= b.x - a.x
  {
    var d := b.x - a.x;
    assert Hull.Cross(Sub(b, a), Sub(Point2D(a.x, b.y), a)) == d * (b.y - a.y);
    if b.y > a.y {
      MulMono(d, 1, b.y - a.y);
    } else {
      MulMono(d, 1, a.y - b.y);
    }
  }

  /** The edge from (0, 10) to (10, 0): row 0 records column 0, not 10. */
  lemma DescendingEdgeExample()
    ensures EdgeSamples(Point2D(0, 10), Point2D(10, 0))[0] == (0, 0)
    ensures EdgeSamplesIntended(Point2D(0, 10), Point2D(10, 0))[0] == (0, 10)
  {
    DescendingEdgeLeavesEdge(Point2D(0, 10), Point2D(10, 0));
    EdgeSamplesIntendedOnEdge(Point2D(0, 10), Point2D(10, 0));
  }
}
