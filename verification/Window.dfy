/** The measurement of one candidate position: the height at which a rectangle
    comes to rest, and the area wasted below it, as one walk over the skyline
    computes them. */
module Window {
  import opened Skyline

  /** The height at which a rectangle of width `w` rests at column `x`. */
  ghost function Rest(sky: seq<Point>, x: int, w: int): int
    requires |sky| > 0 && sky[0].x <= x && 1 <= w
  {
    Top(sky, x, x + w)
  }

  /** What the walk knows after some nodes. */
  datatype Tally = Tally(minY: int, visited: int, waste: int)

  function Area(w: int, h: int): int {
    w * h
  }

  /** One node of the walk: the width of its segment is `next.x - node.x`. */
  function Visit(t: Tally, node: Point, next: Point, x0: int, width: int): Tally {
    if node.y > t.minY then
      Tally(node.y,
            t.visited + next.x - Max(node.x, x0),
            t.waste + Area(t.visited, node.y - t.minY))
    else
      var under := next.x - node.x;
      var used := if under + t.visited > width then width - t.visited else under;
      Tally(t.minY, t.visited + used, t.waste + Area(used, t.minY - node.y))
  }

  /** The walk from node `i` on. */
  ghost function Walk(sky: seq<Point>, i: nat, x0: int, width: int, t: Tally): Tally
    decreases |sky| - i
  {
    if i + 1 < |sky| && sky[i].x < x0 + width then
      Walk(sky, i + 1, x0, width, Visit(t, sky[i], sky[i + 1], x0, width))
    else t
  }

  lemma WalkStep(sky: seq<Point>, i: nat, x0: int, width: int, t: Tally)
    ensures Walk(sky, i, x0, width, t)
         == if i + 1 < |sky| && sky[i].x < x0 + width
            then Walk(sky, i + 1, x0, width, Visit(t, sky[i], sky[i + 1], x0, width)) else t
  {
  }

  /** The waste that the walk reports for a rectangle of width `w` at column `x`. */
  ghost function Waste(sky: seq<Point>, x: int, w: int): int
    requires |sky| > 0 && sky[0].x <= x
  {
    Walk(sky, Seg(sky, x), x, w, Tally(0, 0, 0)).waste
  }

  lemma TopIs(sky: seq<Point>, a: int, b: int, t: int)
    requires |sky| > 0 && sky[0].x <= a < b && IsTop(sky, a, b, t)
    ensures Top(sky, a, b) == t
  {
    assert IsTop(sky, a, b, Top(sky, a, b));
  }

  lemma TopSplit(sky: seq<Point>, a: int, b: int, c: int)
    requires |sky| > 0 && sky[0].x <= a < b < c
    ensures Top(sky, a, c) == Max(Top(sky, a, b), Top(sky, b, c))
  {
    TopIs(sky, a, c, Max(Top(sky, a, b), Top(sky, b, c)));
  }

  lemma TopOnSegment(sky: seq<Point>, i: nat, a: int, b: int)
    requires Ascending(sky) && i + 1 < |sky| && sky[i].x <= a < b <= sky[i + 1].x
    ensures sky[0].x <= a && Top(sky, a, b) == sky[i].y
  {
    forall c | a <= c < b
      ensures sky[0].x <= c && Height(sky, c) == sky[i].y
    {
      HeightOnSegment(sky, i, c);
    }
  }

  lemma TopStep(sky: seq<Point>, i: nat, a: int, b: int)
    requires Ascending(sky) && i + 1 < |sky| && sky[i].x <= a < b && a < sky[i + 1].x
    ensures sky[0].x <= a && sky[0].x <= sky[i + 1].x
    ensures Top(sky, a, b) == if sky[i + 1].x < b then Max(sky[i].y, Top(sky, sky[i + 1].x, b)) else sky[i].y
  {
    var n := sky[i + 1].x;
    assert sky[0].x <= sky[i].x;
    if n < b {
      TopSplit(sky, a, n, b);
      TopOnSegment(sky, i, a, n);
    } else {
      TopOnSegment(sky, i, a, b);
    }
  }

  /** The walk raises its level to the top of the columns it still visits. */
  lemma {:induction false} WalkMinY(sky: seq<Point>, i: nat, x0: int, w: int, t: Tally)
    requires Ascending(sky) && |sky| > 0 && sky[0].x <= x0 && 1 <= w && x0 + w <= sky[|sky| - 1].x
    requires i + 1 < |sky| && sky[i].x < x0 + w && x0 < sky[i + 1].x
    ensures sky[0].x <= Max(x0, sky[i].x)
    ensures Walk(sky, i, x0, w, t).minY == Max(t.minY, Top(sky, Max(x0, sky[i].x), x0 + w))
    decreases |sky| - i
  {
    hide Area;
    TopStep(sky, i, Max(x0, sky[i].x), x0 + w);
    if sky[i + 1].x < x0 + w {
      assert sky[i + 1].x < sky[i + 2].x;
      WalkMinY(sky, i + 1, x0, w, Visit(t, sky[i], sky[i + 1], x0, w));
    }
  }

  /** From the node that holds `x0`, the walk finds the resting height. */
  lemma WalkFindsRest(sky: seq<Point>, width: int, height: int, x0: int, w: int)
    requires WellFormed(sky, width, height)
    requires 0 <= x0 && 1 <= w && x0 + w <= width
    ensures Walk(sky, Seg(sky, x0), x0, w, Tally(0, 0, 0)).minY == Rest(sky, x0, w)
    ensures 0 <= Rest(sky, x0, w) <= height
  {
    HeightInRange(sky, width, height, x0);
    WalkMinY(sky, Seg(sky, x0), x0, w, Tally(0, 0, 0));
    RestInRange(sky, width, height, x0, w);
  }

  lemma RestInRange(sky: seq<Point>, width: int, height: int, x0: int, w: int)
    requires WellFormed(sky, width, height)
    requires 0 <= x0 && 1 <= w && x0 + w <= width
    ensures 0 <= Height(sky, x0) <= Rest(sky, x0, w) <= height
  {
    HeightInRange(sky, width, height, x0);
    forall c | x0 <= c < x0 + w
      ensures Height(sky, c) <= height
    {
      HeightInRange(sky, width, height, c);
    }
    assert IsTop(sky, x0, x0 + w, Rest(sky, x0, w));
  }

  // ----- the waste -----

  /** The part of a segment inside the window, seen from level `m`. */
  lemma GapSegment(sky: seq<Point>, i: nat, x0: int, b: int, e: int, m: int)
    requires Ascending(sky) && i + 1 < |sky| && sky[0].x <= x0 <= b <= e
    requires sky[i].x <= b && e <= sky[i + 1].x
    ensures Gap(sky, x0, e, m) == Gap(sky, x0, b, m) + (e - b) * (m - sky[i].y)
  {
    forall c | b <= c < e
      ensures Height(sky, c) == sky[i].y
    {
      HeightOnSegment(sky, i, c);
    }
    GapExtend(sky, x0, b, e, m, sky[i].y);
  }

  // One step keeps the waste equal to the gap below the level, as long as the
  // visited width is right and no part of the segment lies left of the window.

  lemma RaiseExact(sky: seq<Point>, i: nat, x0: int, w: int, t: Tally, b: int, e: int)
    requires Ascending(sky) && i + 1 < |sky| && sky[0].x <= x0
    requires b == Max(x0, sky[i].x) && b < e <= sky[i + 1].x
    requires t.visited == b - x0 && t.waste == Gap(sky, x0, b, t.minY)
    requires sky[i].y > t.minY
    ensures Visit(t, sky[i], sky[i + 1], x0, w).waste == Gap(sky, x0, e, sky[i].y)
  {
    var y := sky[i].y;
    GapRaise(sky, x0, b, t.minY, y);
    GapSegment(sky, i, x0, b, e, y);
    calc {
      Gap(sky, x0, e, y);
      Gap(sky, x0, b, y) + (e - b) * (y - y);
      Gap(sky, x0, b, y);
      t.waste + (b - x0) * (y - t.minY);
      t.waste + t.visited * (y - t.minY);
    }
  }

  lemma UnderExact(sky: seq<Point>, i: nat, x0: int, w: int, t: Tally, b: int, e: int)
    requires Ascending(sky) && i + 1 < |sky| && sky[0].x <= x0
    requires b == sky[i].x && x0 <= b < e <= sky[i + 1].x && e <= x0 + w
    requires e == sky[i + 1].x || e == x0 + w
    requires t.visited == b - x0 && t.waste == Gap(sky, x0, b, t.minY)
    requires sky[i].y <= t.minY
    ensures Visit(t, sky[i], sky[i + 1], x0, w)
         == Tally(t.minY, e - x0, Gap(sky, x0, e, t.minY))
  {
    GapSegment(sky, i, x0, b, e, t.minY);
  }

  lemma {:induction false} WalkExact(sky: seq<Point>, i: nat, x0: int, w: int, t: Tally)
    requires Ascending(sky) && |sky| > 0 && sky[0].x <= x0 && 1 <= w && x0 + w <= sky[|sky| - 1].x
    requires i + 1 < |sky| && sky[i].x < x0 + w && x0 < sky[i + 1].x
    requires sky[i].x < x0 ==> sky[i].y > t.minY
    requires t.visited == Max(x0, sky[i].x) - x0
    requires t.waste == Gap(sky, x0, Max(x0, sky[i].x), t.minY)
    ensures var r := Walk(sky, i, x0, w, t);
      r.waste == Gap(sky, x0, x0 + w, r.minY)
    decreases |sky| - i
  {
    hide Area;
    var e := if sky[i + 1].x < x0 + w then sky[i + 1].x else x0 + w;
    if sky[i].y > t.minY {
      RaiseExact(sky, i, x0, w, t, Max(x0, sky[i].x), e);
    } else {
      UnderExact(sky, i, x0, w, t, sky[i].x, e);
    }
    if sky[i + 1].x < x0 + w {
      assert sky[i + 1].x < sky[i + 2].x;
      WalkExact(sky, i + 1, x0, w, Visit(t, sky[i], sky[i + 1], x0, w));
    }
  }
}
