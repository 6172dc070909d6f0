/** Non-maximum suppression: the global greedy loop of src/yolo/yolo_postprocess.c keeps,
    class by class, what the reference of tools/yolo/export_device.py keeps. */
module Nms {
  import Layout

  /** Corners in Q16 pixels. */
  datatype Box = Box(x1: int, y1: int, x2: int, y2: int, score: nat, cls: nat)

  /** Corner k in whole pixels: >> 16 floors. */
  function Px(b: Box, k: nat): int
    requires k < 4
  {
    (if k == 0 then b.x1 else if k == 1 then b.y1 else if k == 2 then b.x2 else b.y2) / 65536
  }

  function Max(a: int, b: int): int { if a > b then a else b }
  function Min(a: int, b: int): int { if a < b then a else b }

  function Width(a: Box, b: Box): int { Min(Px(a, 2), Px(b, 2)) - Max(Px(a, 0), Px(b, 0)) }
  function Height(a: Box, b: Box): int { Min(Px(a, 3), Px(b, 3)) - Max(Px(a, 1), Px(b, 1)) }
  function Area(b: Box): int { (Px(b, 2) - Px(b, 0)) * (Px(b, 3) - Px(b, 1)) }
  function Union(a: Box, b: Box): int { Area(a) + Area(b) - Width(a, b) * Height(a, b) }

  /** Their intersection over union, in Q16, exceeds the threshold. */
  predicate Overlap(a: Box, b: Box, iouQ16: nat) {
    Width(a, b) > 0 && Height(a, b) > 0 && Union(a, b) > 0 && Width(a, b) * Height(a, b) * 65536 / Union(a, b) > iouQ16
  }

  // ---------------------------------------------------------------- what overlap means

  /** Corners are cut down to the pixel they lie in, also left of and above the image. */
  lemma PixelOfCorner(b: Box)
    ensures Px(b, 0) * 65536 <= b.x1 < Px(b, 0) * 65536 + 65536 && Px(b, 1) * 65536 <= b.y1 < Px(b, 1) * 65536 + 65536
    ensures Px(b, 2) * 65536 <= b.x2 < Px(b, 2) * 65536 + 65536 && Px(b, 3) * 65536 <= b.y2 < Px(b, 3) * 65536 + 65536
  {
  }

  /** The whole pixels from (x, y) up to but not including (x2, y2). */
  ghost function Grid(x: int, y: int, x2: int, y2: int): set<(int, int)> {
    set i, j | x <= i < x2 && y <= j < y2 :: (i, j)
  }

  ghost function Pixels(b: Box): set<(int, int)> { Grid(Px(b, 0), Px(b, 1), Px(b, 2), Px(b, 3)) }

  ghost function Column(x: int, y: int, y2: int): set<(int, int)> { set j | y <= j < y2 :: (x, j) }

  lemma {:induction false} ColumnSize(x: int, y: int, y2: int)
    requires y <= y2
    ensures |Column(x, y, y2)| == y2 - y
    decreases y2 - y
  {
    if y < y2 {
      ColumnSize(x, y, y2 - 1);
      assert Column(x, y, y2) == Column(x, y, y2 - 1) + {(x, y2 - 1)};
    } else {
      assert Column(x, y, y2) == {};
    }
  }

  lemma {:induction false} GridSize(x: int, y: int, x2: int, y2: int)
    requires x <= x2 && y <= y2
    ensures |Grid(x, y, x2, y2)| == (x2 - x) * (y2 - y)
    decreases x2 - x
  {
    if x < x2 {
      GridSize(x, y, x2 - 1, y2);
      ColumnSize(x2 - 1, y, y2);
      assert Grid(x, y, x2, y2) == Grid(x, y, x2 - 1, y2) + Column(x2 - 1, y, y2);
      assert Grid(x, y, x2 - 1, y2) !! Column(x2 - 1, y, y2);
      OneMoreColumn(x2 - x, y2 - y);
    } else {
      assert Grid(x, y, x2, y2) == {};
    }
  }

  lemma OneMoreColumn(w: int, h: int)
    ensures w * h == (w - 1) * h + h
  {
  }

  lemma UnionSize(a: set<(int, int)>, b: set<(int, int)>)
    ensures |a + b| == |a| + |b| - |a * b|
    ensures |a * b| <= |a + b|
  {
    assert a + b == a + (b - a * b) && a !! (b - a * b);
    assert a + b == a * b + (a + b - a * b);
  }

  lemma SharedPixels(a: Box, b: Box)
    ensures Pixels(a) * Pixels(b) == Grid(Max(Px(a, 0), Px(b, 0)), Max(Px(a, 1), Px(b, 1)), Min(Px(a, 2), Px(b, 2)), Min(Px(a, 3), Px(b, 3)))
    ensures Width(a, b) > 0 && Height(a, b) > 0 <==> Pixels(a) * Pixels(b) != {}
  {
    hide Px;
    GridEmptyIff(Max(Px(a, 0), Px(b, 0)), Max(Px(a, 1), Px(b, 1)), Min(Px(a, 2), Px(b, 2)), Min(Px(a, 3), Px(b, 3)));
  }

  lemma GridEmptyIff(x: int, y: int, x2: int, y2: int)
    ensures x < x2 && y < y2 <==> Grid(x, y, x2, y2) != {}
  {
    if x < x2 && y < y2 { assert (x, y) in Grid(x, y, x2, y2); }
  }

  /** Boxes overlap exactly when the pixels in both, times 65536, divided by the pixels in
      either exceed the threshold.  Boxes without pixels overlap nothing. */
  lemma OverlapIsRatio(a: Box, b: Box, iouQ16: nat)
    ensures Overlap(a, b, iouQ16) <==>
      Pixels(a) + Pixels(b) != {} && |Pixels(a) * Pixels(b)| * 65536 / |Pixels(a) + Pixels(b)| > iouQ16
  {
    SharedPixels(a, b);
    hide Pixels, Width, Height, Union;
    if Width(a, b) > 0 && Height(a, b) > 0 { PixelCounts(a, b); }
  }

  lemma PixelCounts(a: Box, b: Box)
    requires Width(a, b) > 0 && Height(a, b) > 0
    ensures |Pixels(a) * Pixels(b)| == Width(a, b) * Height(a, b) && |Pixels(a) + Pixels(b)| == Union(a, b) > 0
  {
    SharedPixels(a, b);
    BothProper(a, b);
    GridSize(Max(Px(a, 0), Px(b, 0)), Max(Px(a, 1), Px(b, 1)), Min(Px(a, 2), Px(b, 2)), Min(Px(a, 3), Px(b, 3)));
    GridSize(Px(a, 0), Px(a, 1), Px(a, 2), Px(a, 3));
    GridSize(Px(b, 0), Px(b, 1), Px(b, 2), Px(b, 3));
    UnionSize(Pixels(a), Pixels(b));
    hide Grid, Px, Max, Min;
    assert Pixels(a) + Pixels(b) != {};
  }

  lemma BothProper(a: Box, b: Box)
    requires Width(a, b) > 0 && Height(a, b) > 0
    ensures Px(a, 0) < Px(a, 2) && Px(a, 1) < Px(a, 3) && Px(b, 0) < Px(b, 2) && Px(b, 1) < Px(b, 3)
  {
    hide Px;
  }

  /** The ratio of two boxes is at most 65536, and that of a box with pixels to itself is. */
  lemma RatioAtMostOne(a: Box, b: Box, iouQ16: nat)
    ensures Overlap(a, b, iouQ16) ==> iouQ16 < 65536
    ensures Pixels(a) != {} ==> (Overlap(a, a, iouQ16) <==> iouQ16 < 65536)
  {
    OverlapIsRatio(a, b, iouQ16);
    OverlapIsRatio(a, a, iouQ16);
    UnionSize(Pixels(a), Pixels(b));
    assert Pixels(a) * Pixels(a) == Pixels(a) && Pixels(a) + Pixels(a) == Pixels(a);
    hide Overlap, Pixels;
    if Pixels(a) + Pixels(b) != {} { AtMostOne(|Pixels(a) * Pixels(b)|, |Pixels(a) + Pixels(b)|); }
    if Pixels(a) != {} { AtMostOne(|Pixels(a)|, |Pixels(a)|); }
  }

  lemma AtMostOne(part: nat, whole: nat)
    requires part <= whole && whole > 0
    ensures part * 65536 / whole <= 65536 && (part == whole ==> part * 65536 / whole == 65536)
  {
    var q := part * 65536 / whole;
    Layout.DivMod(part * 65536, whole);
    Layout.Step(65536, q, whole);
    Layout.Step(q, 65536, whole);
  }

  // ---------------------------------------------------------------- clashes

  predicate Clash(boxes: seq<Box>, iouQ16: nat, i: nat, j: nat)
    requires i < |boxes| && j < |boxes|
  {
    boxes[i].cls == boxes[j].cls && Overlap(boxes[i], boxes[j], iouQ16)
  }

  lemma ClashSymmetric(boxes: seq<Box>, iouQ16: nat, i: nat, j: nat)
    requires i < |boxes| && j < |boxes|
    ensures Clash(boxes, iouQ16, i, j) == Clash(boxes, iouQ16, j, i)
  {
    assert Width(boxes[i], boxes[j]) == Width(boxes[j], boxes[i]);
    assert Height(boxes[i], boxes[j]) == Height(boxes[j], boxes[i]);
    assert Union(boxes[i], boxes[j]) == Union(boxes[j], boxes[i]);
  }

  /** Higher score first, earlier box on ties. */
  predicate Before(boxes: seq<Box>, i: nat, j: nat)
    requires i < |boxes| && j < |boxes|
  {
    boxes[i].score > boxes[j].score || (boxes[i].score == boxes[j].score && i < j)
  }

  // ---------------------------------------------------------------- what greedy means

  predicate Indices(boxes: seq<Box>, s: seq<nat>) { forall a :: 0 <= a < |s| ==> s[a] < |boxes| }

  predicate Ranked(boxes: seq<Box>, s: seq<nat>) {
    Indices(boxes, s) && forall a, b :: 0 <= a < b < |s| ==> Before(boxes, s[a], s[b])
  }

  /** A kept box j that comes first and suppresses i. */
  predicate Beats(boxes: seq<Box>, iouQ16: nat, j: nat, i: nat) {
    i < |boxes| && j < |boxes| && Before(boxes, j, i) && Clash(boxes, iouQ16, j, i)
  }

  predicate Beaten(boxes: seq<Box>, iouQ16: nat, keep: seq<nat>, i: nat) {
    exists j :: j in keep && Beats(boxes, iouQ16, j, i)
  }

  /** keep is the greedy choice among the boxes of dom: in rank order, a box is kept
      exactly when no kept box beats it. */
  ghost predicate Greedy(boxes: seq<Box>, iouQ16: nat, dom: set<nat>, keep: seq<nat>) {
    && Ranked(boxes, keep)
    && (forall i :: i in keep ==> i in dom)
    && forall i :: i in dom ==> i < |boxes| && (i in keep <==> !Beaten(boxes, iouQ16, keep, i))
  }

  ghost function Elements(s: seq<nat>): set<nat> { set i | i in s }
  ghost predicate Known(boxes: seq<Box>, i: nat) { i < |boxes| }
  ghost function All(boxes: seq<Box>): set<nat> { set i: nat | i < |boxes| && Known(boxes, i) }
  ghost function OfClass(boxes: seq<Box>, c: nat): set<nat> { set i: nat | i < |boxes| && boxes[i].cls == c }

  // ---------------------------------------------------------------- greedy is unique

  ghost function Earlier(boxes: seq<Box>, i: nat): set<nat>
    requires i < |boxes|
  {
    set j: nat | j < |boxes| && Before(boxes, j, i)
  }

  lemma RankDrops(boxes: seq<Box>, j: nat, i: nat)
    requires i < |boxes| && j < |boxes| && Before(boxes, j, i)
    ensures Earlier(boxes, j) < Earlier(boxes, i)
  {
    assert j in Earlier(boxes, i) && j !in Earlier(boxes, j);
  }

  lemma {:induction false} KeptAgrees(boxes: seq<Box>, iouQ16: nat, dom: set<nat>, k: seq<nat>, k': seq<nat>, i: nat)
    requires Greedy(boxes, iouQ16, dom, k) && Greedy(boxes, iouQ16, dom, k') && i in dom
    ensures i in k <==> i in k'
    decreases Earlier(boxes, i)
  {
    forall j | Beats(boxes, iouQ16, j, i) && (j in k || j in k') ensures j in k && j in k' {
      RankDrops(boxes, j, i);
      KeptAgrees(boxes, iouQ16, dom, k, k', j);
    }
    assert Beaten(boxes, iouQ16, k, i) == Beaten(boxes, iouQ16, k', i);
  }

  lemma {:induction false} RankedUnique(boxes: seq<Box>, s: seq<nat>, t: seq<nat>)
    requires Ranked(boxes, s) && Ranked(boxes, t) && forall i :: i in s <==> i in t
    ensures s == t
  {
    assert (s != [] ==> s[0] in t) && (t != [] ==> t[0] in s);
    if s != [] {
      assert s[0] == t[0];
      TailMembers(boxes, s);
      TailMembers(boxes, t);
      RankedUnique(boxes, s[1..], t[1..]);
    }
  }

  lemma TailMembers(boxes: seq<Box>, s: seq<nat>)
    requires Ranked(boxes, s) && s != []
    ensures Ranked(boxes, s[1..]) && forall i :: i in s[1..] <==> i in s && i != s[0]
  {
    forall i | i in s[1..] ensures i in s && i != s[0] {
      var a :| 0 <= a < |s| - 1 && s[1..][a] == i;
      assert s[a + 1] == i && Before(boxes, s[0], s[a + 1]);
    }
  }

  lemma GreedyUnique(boxes: seq<Box>, iouQ16: nat, dom: set<nat>, k: seq<nat>, k': seq<nat>)
    requires Greedy(boxes, iouQ16, dom, k) && Greedy(boxes, iouQ16, dom, k')
    ensures k == k'
  {
    forall i ensures i in k <==> i in k' {
      if i in dom { KeptAgrees(boxes, iouQ16, dom, k, k', i); }
    }
    RankedUnique(boxes, k, k');
  }

  // ---------------------------------------------------------------- class by class

  function FilterClass(boxes: seq<Box>, s: seq<nat>, c: nat): (r: seq<nat>)
    requires Indices(boxes, s)
    ensures forall i :: i in r <==> i in s && boxes[i].cls == c
  {
    if s == [] then []
    else
      var r := FilterClass(boxes, s[..|s| - 1], c);
      assert forall i :: i in s <==> i in s[..|s| - 1] || i == s[|s| - 1];
      if boxes[s[|s| - 1]].cls == c then r + [s[|s| - 1]] else r
  }

  lemma {:induction false} FilterRanked(boxes: seq<Box>, s: seq<nat>, c: nat)
    requires Ranked(boxes, s)
    ensures Ranked(boxes, FilterClass(boxes, s, c))
  {
    if s != [] {
      var n := |s| - 1;
      FrontRanked(boxes, s);
      FilterRanked(boxes, s[..n], c);
      var r := FilterClass(boxes, s[..n], c);
      forall i | i in r ensures i < |boxes| && Before(boxes, i, s[n]) { FrontBefore(boxes, s, i); }
      hide Ranked, Before;
      if boxes[s[n]].cls == c { AppendRanked(boxes, r, s[n]); }
    }
  }

  /** What comes earlier in a ranking comes before its last. */
  lemma FrontBefore(boxes: seq<Box>, s: seq<nat>, i: nat)
    requires Ranked(boxes, s) && s != [] && i in s[..|s| - 1]
    ensures i < |boxes| && s[|s| - 1] < |boxes| && Before(boxes, i, s[|s| - 1])
  {
    hide Before;
    var b :| 0 <= b < |s| - 1 && s[..|s| - 1][b] == i;
    assert s[b] == i;
  }

  lemma FrontRanked(boxes: seq<Box>, s: seq<nat>)
    requires Ranked(boxes, s) && s != []
    ensures Ranked(boxes, s[..|s| - 1]) && s[|s| - 1] < |boxes|
  {
    hide Before;
  }

  lemma AppendRanked(boxes: seq<Box>, r: seq<nat>, x: nat)
    requires Ranked(boxes, r) && x < |boxes| && forall i :: i in r ==> i < |boxes| && Before(boxes, i, x)
    ensures Ranked(boxes, r + [x])
  {
    hide Before;
    forall a | 0 <= a < |r| ensures Before(boxes, r[a], x) { assert r[a] in r; }
  }

  /** The greedy choice among all boxes, class by class, is the greedy choice in each class. */
  lemma GreedyByClass(boxes: seq<Box>, iouQ16: nat, keep: seq<nat>, c: nat)
    requires Greedy(boxes, iouQ16, All(boxes), keep)
    ensures Greedy(boxes, iouQ16, OfClass(boxes, c), FilterClass(boxes, keep, c))
  {
    var k := FilterClass(boxes, keep, c);
    FilterRanked(boxes, keep, c);
    forall i | i in OfClass(boxes, c) ensures i in k <==> !Beaten(boxes, iouQ16, k, i) {
      assert i in All(boxes);
      if Beaten(boxes, iouQ16, keep, i) {
        var j :| j in keep && Beats(boxes, iouQ16, j, i);
        assert j in k;
      }
    }
  }

  // ---------------------------------------------------------------- the reference

  /** Stable insertion by falling score. */
  function Insert(boxes: seq<Box>, x: nat, s: seq<nat>): (r: seq<nat>)
    requires Indices(boxes, s) && x < |boxes|
    ensures Indices(boxes, r) && forall i :: i in r <==> i in s || i == x
  {
    if s == [] then [x]
    else
      var n := |s| - 1;
      assert forall i :: i in s <==> i in s[..n] || i == s[n];
      if boxes[s[n]].score >= boxes[x].score then s + [x] else Insert(boxes, x, s[..n]) + [s[n]]
  }

  lemma {:induction false} InsertRanked(boxes: seq<Box>, x: nat, s: seq<nat>)
    requires Ranked(boxes, s) && x < |boxes| && forall i: nat :: i in s ==> i < x
    ensures Ranked(boxes, Insert(boxes, x, s))
  {
    if s == [] {
      assert Insert(boxes, x, s) == [] + [x];
      AppendRanked(boxes, [], x);
    } else {
      var n := |s| - 1;
      FrontRanked(boxes, s);
      assert s[n] in s;
      if boxes[s[n]].score >= boxes[x].score {
        forall i | i in s ensures i < |boxes| && Before(boxes, i, x) {
          assert i != s[n] ==> i in s[..n];
          if i != s[n] { FrontBefore(boxes, s, i); }
        }
        AppendRanked(boxes, s, x);
      } else {
        assert forall i :: i in s[..n] ==> i in s;
        InsertRanked(boxes, x, s[..n]);
        var r := Insert(boxes, x, s[..n]);
        forall i | i in r ensures i < |boxes| && Before(boxes, i, s[n]) {
          if i != x { FrontBefore(boxes, s, i); }
        }
        AppendRanked(boxes, r, s[n]);
      }
    }
  }

  /** The first n boxes' members of class c, stably sorted by falling score. */
  function SortClass(boxes: seq<Box>, c: nat, n: nat): (r: seq<nat>)
    requires n <= |boxes|
    ensures Indices(boxes, r) && forall i: nat :: i in r <==> i < n && boxes[i].cls == c
  {
    if n == 0 then []
    else if boxes[n - 1].cls == c then Insert(boxes, n - 1, SortClass(boxes, c, n - 1))
    else SortClass(boxes, c, n - 1)
  }

  lemma {:induction false} SortRanked(boxes: seq<Box>, c: nat, n: nat)
    requires n <= |boxes|
    ensures Ranked(boxes, SortClass(boxes, c, n))
  {
    if n > 0 {
      hide Ranked, Insert;
      SortRanked(boxes, c, n - 1);
      if boxes[n - 1].cls == c { InsertRanked(boxes, n - 1, SortClass(boxes, c, n - 1)); }
    }
  }

  /** The candidates that do not overlap the best. */
  function Rest(boxes: seq<Box>, iouQ16: nat, best: nat, s: seq<nat>): (r: seq<nat>)
    requires Indices(boxes, s) && best < |boxes|
    ensures |r| <= |s| && Indices(boxes, r) && forall i :: i in r <==> i in s && !Overlap(boxes[best], boxes[i], iouQ16)
  {
    if s == [] then []
    else
      var n := |s| - 1;
      assert forall i :: i in s <==> i in s[..n] || i == s[n];
      var r := Rest(boxes, iouQ16, best, s[..n]);
      if Overlap(boxes[best], boxes[s[n]], iouQ16) then r else r + [s[n]]
  }

  lemma {:induction false} RestRanked(boxes: seq<Box>, iouQ16: nat, best: nat, s: seq<nat>)
    requires Ranked(boxes, s) && best < |boxes|
    ensures Ranked(boxes, Rest(boxes, iouQ16, best, s))
  {
    if s != [] {
      hide Ranked, Before, Overlap;
      var n := |s| - 1;
      FrontRanked(boxes, s);
      RestRanked(boxes, iouQ16, best, s[..n]);
      var r := Rest(boxes, iouQ16, best, s[..n]);
      forall i | i in r ensures i < |boxes| && Before(boxes, i, s[n]) { FrontBefore(boxes, s, i); }
      if !Overlap(boxes[best], boxes[s[n]], iouQ16) { AppendRanked(boxes, r, s[n]); }
    }
  }

  /** Take the best, drop what it overlaps, go on. */
  function TakeBest(boxes: seq<Box>, iouQ16: nat, s: seq<nat>): seq<nat>
    requires Indices(boxes, s)
    decreases |s|
  {
    if s == [] then [] else [s[0]] + TakeBest(boxes, iouQ16, Rest(boxes, iouQ16, s[0], s[1..]))
  }

  /** What the reference keeps of class c. */
  function Reference(boxes: seq<Box>, iouQ16: nat, c: nat): seq<nat> {
    TakeBest(boxes, iouQ16, SortClass(boxes, c, |boxes|))
  }

  ghost predicate OneClass(boxes: seq<Box>, s: seq<nat>, c: nat)
    requires Indices(boxes, s)
  {
    forall i :: i in s ==> boxes[i].cls == c
  }

  lemma {:induction false} TakeBestGreedy(boxes: seq<Box>, iouQ16: nat, s: seq<nat>, c: nat)
    requires Ranked(boxes, s) && OneClass(boxes, s, c)
    ensures Greedy(boxes, iouQ16, Elements(s), TakeBest(boxes, iouQ16, s))
    decreases |s|
  {
    if s != [] {
      TailMembers(boxes, s);
      var h := s[0];
      var rest := Rest(boxes, iouQ16, h, s[1..]);
      RestRanked(boxes, iouQ16, h, s[1..]);
      TakeBestGreedy(boxes, iouQ16, rest, c);
      HeadThenRest(boxes, iouQ16, s, rest, TakeBest(boxes, iouQ16, rest), c);
    }
  }

  lemma HeadFirst(boxes: seq<Box>, s: seq<nat>, i: nat)
    requires Ranked(boxes, s) && s != [] && i in s && i != s[0]
    ensures Before(boxes, s[0], i)
  {
    var a :| 0 <= a < |s| && s[a] == i;
  }

  lemma HeadThenRest(boxes: seq<Box>, iouQ16: nat, s: seq<nat>, rest: seq<nat>, k: seq<nat>, c: nat)
    requires Ranked(boxes, s) && s != [] && OneClass(boxes, s, c)
    requires forall i :: i in rest <==> i in s && i != s[0] && !Overlap(boxes[s[0]], boxes[i], iouQ16)
    requires Greedy(boxes, iouQ16, Elements(rest), k)
    ensures Greedy(boxes, iouQ16, Elements(s), [s[0]] + k)
  {
    var h := s[0];
    var keep := [h] + k;
    assert forall i :: i in keep <==> i == h || i in k;
    forall a | 0 <= a < |k| ensures Before(boxes, h, k[a]) {
      assert k[a] in k;
      HeadFirst(boxes, s, k[a]);
    }
    forall i | i in s ensures i in keep <==> !Beaten(boxes, iouQ16, keep, i) {
      if i == h {
        forall j | j in keep ensures !Beats(boxes, iouQ16, j, h) {
          if j != h { HeadFirst(boxes, s, j); }
        }
      } else {
        HeadFirst(boxes, s, i);
        if i in rest {
          assert Beaten(boxes, iouQ16, keep, i) ==> Beaten(boxes, iouQ16, k, i);
          assert forall j :: j in k ==> j in keep;
        } else {
          assert h in keep && Beats(boxes, iouQ16, h, i);
        }
      }
    }
  }

  lemma ReferenceGreedy(boxes: seq<Box>, iouQ16: nat, c: nat)
    ensures Greedy(boxes, iouQ16, OfClass(boxes, c), Reference(boxes, iouQ16, c))
  {
    var s := SortClass(boxes, c, |boxes|);
    SortRanked(boxes, c, |boxes|);
    TakeBestGreedy(boxes, iouQ16, s, c);
    assert Elements(s) == OfClass(boxes, c);
  }

  /** Class by class and in the same order, the greedy choice is the reference's. */
  lemma SameAsReference(boxes: seq<Box>, iouQ16: nat, keep: seq<nat>, c: nat)
    requires Greedy(boxes, iouQ16, All(boxes), keep)
    ensures FilterClass(boxes, keep, c) == Reference(boxes, iouQ16, c)
  {
    GreedyByClass(boxes, iouQ16, keep, c);
    ReferenceGreedy(boxes, iouQ16, c);
    GreedyUnique(boxes, iouQ16, OfClass(boxes, c), FilterClass(boxes, keep, c), Reference(boxes, iouQ16, c));
  }

  /** Kept boxes are distinct, and no two of one class overlap beyond the threshold. */
  lemma KeptApart(boxes: seq<Box>, iouQ16: nat, keep: seq<nat>, a: nat, b: nat)
    requires Greedy(boxes, iouQ16, All(boxes), keep) && a < |keep| && b < |keep| && a != b
    ensures keep[a] != keep[b] && !Clash(boxes, iouQ16, keep[a], keep[b])
  {
    var (i, j) := if a < b then (keep[a], keep[b]) else (keep[b], keep[a]);
    assert i in keep && j in keep && Before(boxes, i, j);
    ClashSymmetric(boxes, iouQ16, i, j);
  }

  /** A dropped box overlaps a kept box of its class that scores no lower. */
  lemma DroppedIsBeaten(boxes: seq<Box>, iouQ16: nat, keep: seq<nat>, i: nat)
    requires Greedy(boxes, iouQ16, All(boxes), keep) && i < |boxes| && i !in keep
    ensures exists j :: j in keep && j < |boxes| && boxes[j].cls == boxes[i].cls && boxes[j].score >= boxes[i].score
                     && Overlap(boxes[j], boxes[i], iouQ16)
  {
    assert i in All(boxes);
    var j :| j in keep && Beats(boxes, iouQ16, j, i);
  }
}
