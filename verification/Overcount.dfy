/** What the walk that measures a position computes on its own, on any skyline.

    When the first node starts left of the window and has height 0, the walk counts
    its columns left of the window as visited.  The waste it reports is then never too
    small, and is exact precisely in the cases named here.  The exception needs a
    skyline that no run of the packer reaches; in runs the waste is always exact. */
module Overcount {
  import opened Skyline
  import opened Window

  /** How many columns too many the walk has visited after its first node, when
      that node has height 0. */
  ghost function Excess(sky: seq<Point>, x0: int, w: int): int
    requires |sky| > 0 && sky[0].x <= x0 < sky[|sky| - 1].x
  {
    var i := Seg(sky, x0);
    Min(x0 - sky[i].x, x0 + w - sky[i + 1].x)
  }

  function Min(a: int, b: int): int {
    if a < b then a else b
  }

  /** Of the nodes from `i` on, those that reach into the last `e` columns of the
      window have height 0, or are higher than all before them and not the last. */
  ghost predicate FlatEnd(sky: seq<Point>, i: nat, x0: int, w: int, e: int)
    requires |sky| > 0 && sky[0].x <= x0
  {
    forall k :: i <= k < |sky| - 1 && x0 < sky[k].x < x0 + w && x0 + w - e < sky[k + 1].x ==>
      sky[k].y == 0 || (sky[k + 1].x < x0 + w && Top(sky, x0, sky[k].x) < sky[k].y)
  }

  // The arithmetic of one step: `g` is the gap so far, `b` and `n` are the ends
  // of the segment, `d` is what the waste exceeds by beyond `e * m`.

  lemma RaiseStep(waste: int, g: int, g': int, x0: int, b: int, m: int, y: int, e: int)
    requires g' == g + (b - x0) * (y - m)
    ensures waste + Area(b - x0 + e, y - m) - g' - e * y == waste - g - e * m
  {
    assert (b - x0 + e) * (y - m) == (b - x0) * (y - m) + e * (y - m);
    assert e * (y - m) == e * y - e * m;
  }

  lemma UnderStep(waste: int, g: int, g': int, b: int, n: int, m: int, y: int, e: int, u: int)
    requires g' == g + (n - b) * (m - y)
    ensures var e' := e + u - (n - b);
      waste + Area(u, m - y) - g' - e' * m == waste - g - e * m + (e - e') * y
  {
    var e' := e + u - (n - b);
    assert u == e' - e + (n - b);
    assert (e' - e + (n - b)) * (m - y) == (e' - e) * (m - y) + (n - b) * (m - y);
    assert (e' - e) * (m - y) == (e' - e) * m - (e' - e) * y;
    assert (e' - e) * m == e' * m - e * m;
    assert (e' - e) * y == -((e - e') * y);
  }

  lemma ProductSign(a: int, b: int)
    requires 0 <= a && 0 <= b
    ensures 0 <= a * b && (a * b == 0 <==> a == 0 || b == 0)
  {
    if 0 < a && 0 < b {
      assert a * b == a * (b - 1) + a;
      ProductSign(a, b - 1);
    }
  }

  /** The condition `FlatEnd` puts on one node. */
  ghost predicate FlatAt(sky: seq<Point>, k: nat, x0: int, w: int, e: int)
    requires k + 1 < |sky| && sky[0].x <= x0 < sky[k].x
  {
    x0 + w - e < sky[k + 1].x ==>
      sky[k].y == 0 || (sky[k + 1].x < x0 + w && Top(sky, x0, sky[k].x) < sky[k].y)
  }

  lemma FlatStep(sky: seq<Point>, i: nat, x0: int, w: int, e: int, e': int)
    requires Ascending(sky) && i + 1 < |sky| && sky[0].x <= x0 < sky[i].x < x0 + w
    requires e' == e || e' == x0 + w - sky[i + 1].x < e
    ensures FlatEnd(sky, i, x0, w, e) <==> FlatAt(sky, i, x0, w, e) && FlatEnd(sky, i + 1, x0, w, e')
  {
    forall k | i < k < |sky| - 1
      ensures sky[i + 1].x <= sky[k].x < sky[k + 1].x
    {
      AscendingAt(sky, i + 1, k);
      AscendingAt(sky, k, k + 1);
    }
  }

  lemma FlatLast(sky: seq<Point>, i: nat, x0: int, w: int, e: int)
    requires Ascending(sky) && i + 1 < |sky| && sky[0].x <= x0 < sky[i].x < x0 + w <= sky[i + 1].x && 0 < e
    ensures FlatEnd(sky, i, x0, w, e) <==> sky[i].y == 0
  {
    forall k | i < k < |sky|
      ensures x0 + w <= sky[k].x
    {
      AscendingAt(sky, i + 1, k);
    }
  }

  lemma TopSnoc(sky: seq<Point>, i: nat, x0: int)
    requires Ascending(sky) && i + 1 < |sky| && sky[0].x <= x0 < sky[i].x
    ensures sky[i].x < sky[i + 1].x
    ensures Top(sky, x0, sky[i + 1].x) == Max(Top(sky, x0, sky[i].x), sky[i].y)
  {
    AscendingAt(sky, i, i + 1);
    TopSplit(sky, x0, sky[i].x, sky[i + 1].x);
    TopOnSegment(sky, i, sky[i].x, sky[i + 1].x);
  }

  /** What a walk in state `t` before node `i` has counted too much, `e` columns
      being visited twice. */
  ghost predicate Counts(sky: seq<Point>, i: nat, x0: int, t: Tally, e: int, d: int)
    requires i < |sky| && sky[0].x <= x0 < sky[i].x
  {
    && t.minY == Top(sky, x0, sky[i].x) && t.visited == sky[i].x - x0 + e
    && t.waste == Gap(sky, x0, sky[i].x, t.minY) + e * t.minY + d
  }

  /** The excess after one more node. */
  ghost function Left(sky: seq<Point>, i: nat, x0: int, w: int, t: Tally, e: int): int
    requires i + 1 < |sky|
  {
    if sky[i].y <= t.minY && x0 + w - e < sky[i + 1].x then x0 + w - sky[i + 1].x else e
  }

  lemma CountStep(sky: seq<Point>, i: nat, x0: int, w: int, t: Tally, e: int, d: int)
    requires Ascending(sky) && i + 1 < |sky| && sky[0].x <= x0 < sky[i].x && sky[i + 1].x < x0 + w
    requires Counts(sky, i, x0, t, e, d)
    ensures var (t', e') := (Visit(t, sky[i], sky[i + 1], x0, w), Left(sky, i, x0, w, t, e));
      x0 < sky[i + 1].x && Counts(sky, i + 1, x0, t', e', d + (e - e') * sky[i].y)
  {
    hide Top, Gap, Ascending, IsTop;
    var b, n, y, m := sky[i].x, sky[i + 1].x, sky[i].y, t.minY;
    TopSnoc(sky, i, x0);
    GapSegment(sky, i, x0, b, n, m);
    var g := Gap(sky, x0, b, m);
    if y > m {
      GapRaise(sky, x0, b, m, y);
      GapSegment(sky, i, x0, b, n, y);
      RaiseStep(t.waste, g, Gap(sky, x0, n, y), x0, b, m, y, e);
    } else {
      var u := if n - b + t.visited > w then w - t.visited else n - b;
      UnderStep(t.waste, g, Gap(sky, x0, n, m), b, n, m, y, e, u);
    }
  }

  /** The last node of the walk. */
  lemma CountLast(sky: seq<Point>, i: nat, x0: int, w: int, t: Tally, e: int, d: int)
    requires Ascending(sky) && i + 1 < |sky| && sky[0].x <= x0 < sky[i].x < x0 + w <= sky[i + 1].x && 0 < e
    requires Counts(sky, i, x0, t, e, d)
    ensures var t' := Visit(t, sky[i], sky[i + 1], x0, w);
      t'.waste - Gap(sky, x0, x0 + w, t'.minY) == d + e * sky[i].y
  {
    hide Top, Gap, Ascending, IsTop;
    var b, n, y, m := sky[i].x, x0 + w, sky[i].y, t.minY;
    var g := Gap(sky, x0, b, m);
    if y > m {
      GapRaise(sky, x0, b, m, y);
      GapSegment(sky, i, x0, b, n, y);
      RaiseStep(t.waste, g, Gap(sky, x0, n, y), x0, b, m, y, e);
    } else {
      GapSegment(sky, i, x0, b, n, m);
      UnderStep(t.waste, g, Gap(sky, x0, n, m), b, n, m, y, e, w - t.visited);
    }
  }

  lemma {:induction false} OverWalk(sky: seq<Point>, i: nat, x0: int, w: int, t: Tally, e: int, d: int)
    requires Ascending(sky) && |sky| > 0 && sky[0].x <= x0 && x0 + w <= sky[|sky| - 1].x
    requires forall j :: 0 <= j < |sky| - 1 ==> 0 <= sky[j].y
    requires i + 1 < |sky| && x0 < sky[i].x < x0 + w && 0 < e
    requires Counts(sky, i, x0, t, e, d)
    ensures var r := Walk(sky, i, x0, w, t);
      var over := r.waste - Gap(sky, x0, x0 + w, r.minY);
      d <= over && (over == d <==> FlatEnd(sky, i, x0, w, e))
    decreases |sky| - i
  {
    hide Ascending, Counts, Visit, FlatEnd, Area, Gap;
    var y, n, t' := sky[i].y, sky[i + 1].x, Visit(t, sky[i], sky[i + 1], x0, w);
    WalkStep(sky, i, x0, w, t);
    WalkStep(sky, i + 1, x0, w, t');
    if n < x0 + w {
      var e' := Left(sky, i, x0, w, t, e);
      CountStep(sky, i, x0, w, t, e, d);
      OverWalk(sky, i + 1, x0, w, t', e', d + (e - e') * y);
      ProductSign(e - e', y);
      FlatStep(sky, i, x0, w, e, e');
      LevelIs(sky, i, x0, t, e, d);
    } else {
      CountLast(sky, i, x0, w, t, e, d);
      ProductSign(e, y);
      FlatLast(sky, i, x0, w, e);
    }
  }

  lemma LevelIs(sky: seq<Point>, i: nat, x0: int, t: Tally, e: int, d: int)
    requires i < |sky| && sky[0].x <= x0 < sky[i].x && Counts(sky, i, x0, t, e, d)
    ensures t.minY == Top(sky, x0, sky[i].x)
  {
  }

  /** The segment that holds `x0` has height 0 and starts left of it. */
  ghost predicate StartsLow(sky: seq<Point>, x0: int)
    requires |sky| > 0 && sky[0].x <= x0
  {
    sky[Seg(sky, x0)].x < x0 && sky[Seg(sky, x0)].y == 0
  }

  /** The reported waste of a position is never less than the area left empty
      below the rectangle, and equals it except when the walk starts low, needs
      another node, and the window does not end flat. */
  lemma WasteExact(sky: seq<Point>, width: int, height: int, x0: int, w: int)
    requires WellFormed(sky, width, height) && 0 <= x0 && 1 <= w && x0 + w <= width
    ensures var gap := Gap(sky, x0, x0 + w, Rest(sky, x0, w));
      && gap <= Waste(sky, x0, w)
      && (Waste(sky, x0, w) == gap <==>
            || !StartsLow(sky, x0)
            || x0 + w <= sky[Seg(sky, x0) + 1].x
            || FlatEnd(sky, Seg(sky, x0) + 1, x0, w, Excess(sky, x0, w)))
  {
    hide FlatEnd, Ascending, IsTop, Rest;
    var i := Seg(sky, x0);
    HeightInRange(sky, width, height, x0);
    WalkFindsRest(sky, width, height, x0, w);
    if !StartsLow(sky, x0) {
      WalkExact(sky, i, x0, w, Tally(0, 0, 0));
    } else if x0 + w <= sky[i + 1].x {
      OneSegment(sky, i, x0, w);
    } else {
      FirstCount(sky, i, x0, w);
      WalkStep(sky, i, x0, w, Tally(0, 0, 0));
      OverWalk(sky, i + 1, x0, w, Visit(Tally(0, 0, 0), sky[i], sky[i + 1], x0, w), Excess(sky, x0, w), 0);
    }
  }

  lemma OneSegment(sky: seq<Point>, i: nat, x0: int, w: int)
    requires Ascending(sky) && i + 1 < |sky| && sky[0].x <= x0 && sky[i].x <= x0 < x0 + w <= sky[i + 1].x
    requires sky[i].y == 0
    ensures var r := Walk(sky, i, x0, w, Tally(0, 0, 0));
      r.minY == 0 && r.waste == 0 && Gap(sky, x0, x0 + w, 0) == 0
  {
    GapSegment(sky, i, x0, x0, x0 + w, 0);
    WalkStep(sky, i, x0, w, Tally(0, 0, 0));
    WalkStep(sky, i + 1, x0, w, Visit(Tally(0, 0, 0), sky[i], sky[i + 1], x0, w));
  }

  lemma FirstCount(sky: seq<Point>, i: nat, x0: int, w: int)
    requires Ascending(sky) && i + 2 < |sky| && sky[0].x <= x0 && i == Seg(sky, x0) && x0 < sky[|sky| - 1].x
    requires StartsLow(sky, x0) && sky[i + 1].x < x0 + w
    ensures 0 < Excess(sky, x0, w) && x0 < sky[i + 1].x
    ensures Counts(sky, i + 1, x0, Visit(Tally(0, 0, 0), sky[i], sky[i + 1], x0, w), Excess(sky, x0, w), 0)
  {
    GapSegment(sky, i, x0, x0, sky[i + 1].x, 0);
    TopOnSegment(sky, i, x0, sky[i + 1].x);
  }

  /** The exception is not empty: on this skyline, which no run reaches, three columns
      from column 1, over heights 0, 0 and 1, leave two cells empty, but the walk on its
      own reports a waste of 3. */
  lemma WasteCanExceed()
    ensures var sky := [Point(0, 0), Point(3, 1), Point(4, SENTINEL_Y)];
      && WellFormed(sky, 4, 4)
      && Waste(sky, 1, 3) == 3
      && Gap(sky, 1, 4, Rest(sky, 1, 3)) == 2
  {
    var sky := [Point(0, 0), Point(3, 1), Point(4, SENTINEL_Y)];
    SegUnique(sky, 1, 0);
    WalkFindsRest(sky, 4, 4, 1, 3);
    TopStep(sky, 0, 1, 4);
    TopOnSegment(sky, 1, 3, 4);
    GapSegment(sky, 0, 1, 1, 3, 1);
    GapSegment(sky, 1, 1, 3, 4, 1);
    WalkStep(sky, 0, 1, 3, Tally(0, 0, 0));
  }
}
