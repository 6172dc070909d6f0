/** The suppression loop on its arrays (src/yolo/yolo_postprocess.c, nms). */
module NmsLoop {
  import opened Nms

  const MAX_BOXES: nat := 512

  // ---------------------------------------------------------------- what the loop keeps true

  /** Kept boxes are marked, ranked, clash with no other kept or open box and come before
      every open box; a marked box is kept or beaten. */
  ghost predicate Picked(boxes: seq<Box>, iouQ16: nat, removed: seq<bool>, keep: seq<nat>) {
    && |removed| == |boxes| && Ranked(boxes, keep)
    && (forall j :: j in keep ==> removed[j])
    && (forall i, j :: 0 <= i < |boxes| && !removed[i] && j in keep ==> Before(boxes, j, i) && !Clash(boxes, iouQ16, j, i))
    && (forall i :: 0 <= i < |boxes| && removed[i] && i !in keep ==> Beaten(boxes, iouQ16, keep, i))
    && (forall a, b :: 0 <= a < b < |keep| ==> !Clash(boxes, iouQ16, keep[a], keep[b]))
  }

  /** The first best open box. */
  ghost predicate Best(boxes: seq<Box>, removed: seq<bool>, best: nat, n: nat) {
    && best < n <= |boxes| == |removed| && !removed[best]
    && forall i :: 0 <= i < n && !removed[i] && i != best ==> Before(boxes, best, i)
  }

  /** Marking the best and everything it clashes with. */
  ghost predicate Marked(boxes: seq<Box>, iouQ16: nat, was: seq<bool>, now: seq<bool>, best: nat, n: nat) {
    && |was| == |now| == |boxes| && best < |boxes| && n <= |boxes|
    && forall i :: 0 <= i < |boxes| ==>
         (now[i] <==> was[i] || i == best || (i < n && Clash(boxes, iouQ16, best, i)))
  }

  lemma NothingPicked(boxes: seq<Box>, iouQ16: nat, removed: seq<bool>)
    requires |removed| == |boxes| && forall i :: 0 <= i < |boxes| ==> !removed[i]
    ensures Picked(boxes, iouQ16, removed, [])
  {
  }

  lemma PickKeeps(boxes: seq<Box>, iouQ16: nat, was: seq<bool>, now: seq<bool>, keep: seq<nat>, best: nat)
    requires Picked(boxes, iouQ16, was, keep) && Best(boxes, was, best, |boxes|) && Marked(boxes, iouQ16, was, now, best, |boxes|)
    ensures Picked(boxes, iouQ16, now, keep + [best]) && best !in keep
  {
    var keep' := keep + [best];
    assert best !in keep;
    assert forall i :: i in keep' <==> i in keep || i == best;
    forall a | 0 <= a < |keep| ensures Before(boxes, keep[a], best) && !Clash(boxes, iouQ16, keep[a], best) {
      assert keep[a] in keep;
    }
    forall i | 0 <= i < |boxes| && now[i] && i !in keep' ensures Beaten(boxes, iouQ16, keep', i) {
      if was[i] {
        var j :| j in keep && Beats(boxes, iouQ16, j, i);
        assert j in keep';
      } else {
        assert best in keep' && Beats(boxes, iouQ16, best, i);
      }
    }
  }

  lemma PickedAll(boxes: seq<Box>, iouQ16: nat, removed: seq<bool>, keep: seq<nat>)
    requires Picked(boxes, iouQ16, removed, keep) && forall i :: 0 <= i < |boxes| ==> removed[i]
    ensures Greedy(boxes, iouQ16, All(boxes), keep)
  {
    forall i | i in keep ensures !Beaten(boxes, iouQ16, keep, i) {
      var a :| 0 <= a < |keep| && keep[a] == i;
      forall j | j in keep ensures !Beats(boxes, iouQ16, j, i) {
        var b :| 0 <= b < |keep| && keep[b] == j;
        if a < b { assert Before(boxes, keep[a], keep[b]); }
      }
    }
  }

  // ---------------------------------------------------------------- the loop

  ghost function Open(removed: seq<bool>): set<nat> { set i: nat | i < |removed| && !removed[i] }

  lemma {:induction false} OpenBound(removed: seq<bool>)
    ensures |Open(removed)| <= |removed|
  {
    if removed != [] {
      var n := |removed| - 1;
      OpenBound(removed[..n]);
      assert Open(removed) <= Open(removed[..n]) + {n};
      Smaller(Open(removed), Open(removed[..n]) + {n});
    }
  }

  lemma Smaller(a: set<nat>, b: set<nat>)
    requires a <= b
    ensures |a| <= |b| && (a != b ==> |a| < |b|)
  {
    assert b == a + (b - a);
    if a != b { assert b - a != {}; }
  }

  lemma OpenShrinks(boxes: seq<Box>, iouQ16: nat, was: seq<bool>, now: seq<bool>, best: nat)
    requires Marked(boxes, iouQ16, was, now, best, |boxes|) && !was[best]
    ensures Open(now) < Open(was) && |Open(now)| < |Open(was)|
  {
    assert best in Open(was) && best !in Open(now);
    Smaller(Open(now), Open(was));
  }

  lemma MarkedFrom(boxes: seq<Box>, iouQ16: nat, was: seq<bool>, now: seq<bool>, best: nat)
    requires best < |boxes| == |was| && Marked(boxes, iouQ16, was[best := true], now, best, |boxes|)
    ensures Marked(boxes, iouQ16, was, now, best, |boxes|)
  {
  }

  lemma SomeOpen(boxes: seq<Box>, removed: seq<bool>, best: nat)
    requires Best(boxes, removed, best, |boxes|)
    ensures |Open(removed)| > 0
  {
    assert best in Open(removed);
  }

  method PixelCopies(boxes: seq<Box>, px: array2<int>, removed: array<bool>)
    requires |boxes| <= MAX_BOXES && px.Length0 == MAX_BOXES && px.Length1 == 4 && removed.Length == MAX_BOXES
    modifies px, removed
    ensures forall i :: 0 <= i < |boxes| ==> !removed[i]
    ensures Copied(boxes, px)
  {
    for i := 0 to |boxes|
      invariant forall j :: 0 <= j < i ==> !removed[j]
      invariant forall j, k :: 0 <= j < i && 0 <= k < 4 ==> px[j, k] == Px(boxes[j], k)
    {
      px[i, 0] := boxes[i].x1 / 65536;
      px[i, 1] := boxes[i].y1 / 65536;
      px[i, 2] := boxes[i].x2 / 65536;
      px[i, 3] := boxes[i].y2 / 65536;
      removed[i] := false;
    }
  }

  ghost predicate Copied(boxes: seq<Box>, px: array2<int>)
    reads px
  {
    |boxes| <= px.Length0 && px.Length1 == 4 && forall j, k :: 0 <= j < |boxes| && 0 <= k < 4 ==> px[j, k] == Px(boxes[j], k)
  }

  /** The selection loop: -1 when nothing is open. */
  method PickBest(boxes: seq<Box>, removed: array<bool>) returns (best: int)
    requires |boxes| <= removed.Length
    ensures best < 0 ==> forall i :: 0 <= i < |boxes| ==> removed[i]
    ensures best >= 0 ==> Best(boxes, removed[..|boxes|], best, |boxes|)
  {
    best := -1;
    var bestScore: nat := 0;
    for i := 0 to |boxes|
      invariant best < 0 ==> forall j :: 0 <= j < i ==> removed[j]
      invariant best >= 0 ==> Best(boxes, removed[..|boxes|], best, i) && bestScore == boxes[best].score
    {
      if !removed[i] && (best < 0 || boxes[i].score > bestScore) {
        best := i;
        bestScore := boxes[i].score;
      }
    }
  }

  /** The suppression loop: marks what the best box clashes with. */
  method Suppress(boxes: seq<Box>, px: array2<int>, removed: array<bool>, best: nat, iouQ16: nat)
    requires best < |boxes| <= removed.Length && Copied(boxes, px) && removed[best]
    modifies removed
    ensures Marked(boxes, iouQ16, old(removed[..|boxes|]), removed[..|boxes|], best, |boxes|)
  {
    ghost var was := removed[..|boxes|];
    for i := 0 to |boxes|
      invariant Marked(boxes, iouQ16, was, removed[..|boxes|], best, i)
      invariant forall j :: i <= j < |boxes| ==> removed[j] == was[j]
    {
      if removed[i] || boxes[i].cls != boxes[best].cls {
        continue;
      }
      var hit := TooClose(boxes, px, best, i, iouQ16);
      if hit {
        removed[i] := true;
      }
    }
  }

  /** One candidate against the best box. */
  method TooClose(boxes: seq<Box>, px: array2<int>, best: nat, i: nat, iouQ16: nat) returns (hit: bool)
    requires best < |boxes| && i < |boxes| && Copied(boxes, px)
    ensures hit == Overlap(boxes[best], boxes[i], iouQ16)
  {
    var bx1, by1, bx2, by2 := px[best, 0], px[best, 1], px[best, 2], px[best, 3];
    var barea := (bx2 - bx1) * (by2 - by1);
    var ix1 := if bx1 > px[i, 0] then bx1 else px[i, 0];
    var iy1 := if by1 > px[i, 1] then by1 else px[i, 1];
    var ix2 := if bx2 < px[i, 2] then bx2 else px[i, 2];
    var iy2 := if by2 < px[i, 3] then by2 else px[i, 3];
    var iw, ih := ix2 - ix1, iy2 - iy1;
    if iw <= 0 || ih <= 0 {
      return false;
    }
    var inter := iw * ih;
    var carea := (px[i, 2] - px[i, 0]) * (px[i, 3] - px[i, 1]);
    var uni := barea + carea - inter;
    if uni <= 0 {
      return false;
    }
    hit := inter * 65536 / uni > iouQ16;
  }

  /** One round: the best box is kept and what it clashes with is removed. */
  method KeepBest(boxes: seq<Box>, px: array2<int>, removed: array<bool>, keep: array<nat>, nkeep: nat, best: nat, iouQ16: nat)
    requires |boxes| <= removed.Length && nkeep < keep.Length && Copied(boxes, px)
    requires Picked(boxes, iouQ16, removed[..|boxes|], keep[..nkeep]) && Best(boxes, removed[..|boxes|], best, |boxes|)
    modifies removed, keep
    ensures Picked(boxes, iouQ16, removed[..|boxes|], keep[..nkeep + 1])
    ensures Open(removed[..|boxes|]) < old(Open(removed[..|boxes|])) && |Open(removed[..|boxes|])| < old(|Open(removed[..|boxes|])|)
  {
    hide Picked, Marked, Open, Copied;
    ghost var n, was, kept := |boxes|, removed[..|boxes|], keep[..nkeep];
    keep[nkeep] := best;
    assert keep[..nkeep + 1] == kept + [best];
    removed[best] := true;
    assert removed[..n] == was[best := true];
    Suppress(boxes, px, removed, best, iouQ16);
    MarkedFrom(boxes, iouQ16, was, removed[..n], best);
    PickKeeps(boxes, iouQ16, was, removed[..n], kept, best);
    OpenShrinks(boxes, iouQ16, was, removed[..n], best);
  }

  lemma PickedIsReference(boxes: seq<Box>, iouQ16: nat, removed: seq<bool>, keep: seq<nat>)
    requires Picked(boxes, iouQ16, removed, keep) && forall i :: 0 <= i < |boxes| ==> removed[i]
    ensures Greedy(boxes, iouQ16, All(boxes), keep)
    ensures forall c :: FilterClass(boxes, keep, c) == Reference(boxes, iouQ16, c)
  {
    PickedAll(boxes, iouQ16, removed, keep);
    forall c ensures FilterClass(boxes, keep, c) == Reference(boxes, iouQ16, c) {
      SameAsReference(boxes, iouQ16, keep, c);
    }
  }

  /** nms: keep[..n] is the greedy choice among all boxes. */
  method RunNms(boxes: seq<Box>, iouQ16: nat, keep: array<nat>) returns (nkeep: nat)
    requires |boxes| <= MAX_BOXES && keep.Length >= |boxes|
    modifies keep
    ensures nkeep <= |boxes| && Greedy(boxes, iouQ16, All(boxes), keep[..nkeep])
    ensures forall c :: FilterClass(boxes, keep[..nkeep], c) == Reference(boxes, iouQ16, c)
  {
    hide Picked, Open, Copied, Greedy, Reference, FilterClass, All;
    var px, removed := new int[MAX_BOXES, 4], new bool[MAX_BOXES];
    var n := |boxes|;
    PixelCopies(boxes, px, removed);
    NothingPicked(boxes, iouQ16, removed[..n]);
    OpenBound(removed[..n]);
    nkeep := 0;
    assert keep[..0] == [];
    var best := PickBest(boxes, removed);
    while best >= 0
      invariant nkeep <= n && Copied(boxes, px) && Picked(boxes, iouQ16, removed[..n], keep[..nkeep])
      invariant nkeep + |Open(removed[..n])| <= n
      invariant best < 0 ==> forall i :: 0 <= i < n ==> removed[..n][i]
      invariant best >= 0 ==> Best(boxes, removed[..n], best, n)
      decreases Open(removed[..n])
    {
      SomeOpen(boxes, removed[..n], best);
      KeepBest(boxes, px, removed, keep, nkeep, best, iouQ16);
      nkeep := nkeep + 1;
      best := PickBest(boxes, removed);
    }
    PickedIsReference(boxes, iouQ16, removed[..n], keep[..nkeep]);
  }
}
