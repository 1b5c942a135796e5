/** Two short runs of the packer that do what its results about all runs leave open. */
module Instances {
  import opened Skyline
  import opened Window
  import opened Packing
  import opened Runs
  import opened Floor

  /** A placement in terms of the nodes before and after it. */
  lemma PlacedAt(p: Packer, w: int, r: int, h: int, x: int, y: int, k: nat, j: nat, sky: seq<Point>)
    requires Valid(p) && 1 <= w <= r && 1 <= h && r == RoundUp(w, p.align) && 0 <= x <= p.width - r
    requires HasRoom(p, r, h) && HasStorage(p) && Chosen(p, r, h, x) && y == Rest(p.sky, x, r)
    requires k == Kept(p.sky, x) && k <= j < |p.sky| && (forall n :: k < n <= j ==> p.sky[n].x <= x + w)
    requires j + 1 < |p.sky| ==> x + w < p.sky[j + 1].x
    requires sky == p.sky[..k] + [Point(x, y + h), Point(Max(p.sky[j].x, x + w), p.sky[j].y)] + p.sky[j + 1..]
    ensures Packs(p, w, h, p.(sky := sky), Some(Box(x, y, w, h)))
  {
    hide Chosen, HasRoom, HasStorage, Rest, RoundUp;
    CutUnique(p.sky, k, x + w, j);
  }

  lemma KeptIs(sky: seq<Point>, x: int, i: nat)
    requires Ascending(sky) && i + 1 < |sky| && sky[i].x <= x < sky[i + 1].x
    ensures sky[0].x <= x && Seg(sky, x) == i && Kept(sky, x) == if sky[i].x < x then i + 1 else i
  {
    SegUnique(sky, x, i);
  }

  // ----- a refusal that is not final -----

  /** A bin of four columns and height one, with three nodes. */
  function Narrow(align: int, sky: seq<Point>): Packer {
    Packer(4, 1, align, false, 3, sky + [Point(4, SENTINEL_Y)])
  }

  lemma NarrowStart()
    ensures Initial(4, 1, 3) == Narrow(2, [Point(0, 0)])
    ensures Packs(Narrow(2, [Point(0, 0)]), 2, 1, Narrow(2, [Point(0, 1), Point(2, 0)]), Some(Box(0, 0, 2, 1)))
  {
    hide Chosen, HasRoom, Packs, Rest, RoundUp;
    var p := Narrow(2, [Point(0, 0)]);
    LeftEndOfFloor(p, 2, 1, 0);
    KeptIs(p.sky, 0, 0);
    RoundUpIs(2, 2, 2);
    PlacedAt(p, 2, 2, 1, 0, 0, 0, 0, Narrow(2, [Point(0, 1), Point(2, 0)]).sky);
  }

  lemma NarrowNext()
    ensures Packs(Narrow(2, [Point(0, 1), Point(2, 0)]), 1, 1,
                  Narrow(2, [Point(0, 1), Point(2, 1), Point(3, 0)]), Some(Box(2, 0, 1, 1)))
  {
    hide Chosen, HasRoom, Packs, Rest, RoundUp;
    var p := Narrow(2, [Point(0, 1), Point(2, 0)]);
    LeftEndOfFloor(p, 2, 1, 1);
    KeptIs(p.sky, 2, 1);
    RoundUpIs(1, 2, 2);
    PlacedAt(p, 1, 2, 1, 2, 0, 1, 1, Narrow(2, [Point(0, 1), Point(2, 1), Point(3, 0)]).sky);
  }

  lemma NarrowHeights()
    ensures var p := Narrow(2, [Point(0, 1), Point(2, 1), Point(3, 0)]);
      Valid(p) && forall c :: 0 <= c < 4 ==> Height(p.sky, c) == if c < 3 then 1 else 0
  {
    var p := Narrow(2, [Point(0, 1), Point(2, 1), Point(3, 0)]);
    forall c | 0 <= c < 4
      ensures Height(p.sky, c) == if c < 3 then 1 else 0
    {
      SegUnique(p.sky, c, if c < 2 then 0 else if c < 3 then 1 else 2);
    }
  }

  lemma NarrowRefusal()
    ensures var p := Narrow(2, [Point(0, 1), Point(2, 1), Point(3, 0)]);
      Valid(p) && HasStorage(p) && Packs(p, 1, 1, p, None)
  {
    var p := Narrow(2, [Point(0, 1), Point(2, 1), Point(3, 0)]);
    NarrowHeights();
    RoundUpIs(1, 2, 2);
    hide RoundUp;
    forall x | 0 <= x <= 2
      ensures 1 <= Rest(p.sky, x, 2)
    {
      RestInRange(p.sky, 4, 1, x, 2);
    }
  }

  lemma NarrowLast()
    ensures Packs(Narrow(1, [Point(0, 1), Point(2, 1), Point(3, 0)]), 1, 1,
                  Narrow(1, [Point(0, 1), Point(2, 1), Point(3, 1)]), Some(Box(3, 0, 1, 1)))
  {
    hide Chosen, HasRoom, Packs, Rest, RoundUp;
    var p := Narrow(1, [Point(0, 1), Point(2, 1), Point(3, 0)]);
    LeftEndOfFloor(p, 1, 1, 2);
    KeptIs(p.sky, 3, 2);
    RoundUpIs(1, 1, 1);
    PlacedAt(p, 1, 1, 1, 3, 0, 2, 3, Narrow(1, [Point(0, 1), Point(2, 1), Point(3, 1)]).sky);
  }

  /** A unit square is refused although a node is free, and packed once the caller has
      turned quantisation off. */
  lemma RefusalReversed()
    ensures var full := [Point(0, 1), Point(2, 1), Point(3, 0)];
      var ops := [Pack(2, 1), Pack(1, 1), Pack(1, 1), AllowOutOfMem(true), Pack(1, 1)];
      var states := [Initial(4, 1, 3), Narrow(2, [Point(0, 1), Point(2, 0)]), Narrow(2, full), Narrow(2, full),
                     Narrow(1, full), Narrow(1, [Point(0, 1), Point(2, 1), Point(3, 1)])];
      var outs := [Some(Box(0, 0, 2, 1)), Some(Box(2, 0, 1, 1)), None, None, Some(Box(3, 0, 1, 1))];
      IsRun(ops, states, outs) && HasStorage(states[2])
  {
    hide Packs, Valid;
    NarrowStart();
    NarrowNext();
    NarrowRefusal();
    NarrowLast();
  }

  // ----- columns lost to the right of a rectangle -----

  /** A bin of eleven columns and height seven, with three nodes, under best-fit. */
  function Wide(sky: seq<Point>): Packer {
    Packer(11, 7, 4, true, 3, sky + [Point(11, SENTINEL_Y)])
  }

  lemma WideStart()
    ensures Initial(11, 7, 3).(bestFit := true) == Wide([Point(0, 0)])
    ensures Packs(Wide([Point(0, 0)]), 7, 2, Wide([Point(0, 2), Point(7, 0)]), Some(Box(0, 0, 7, 2)))
  {
    hide Chosen, HasRoom, Packs, Rest, RoundUp;
    var p := Wide([Point(0, 0)]);
    LeftEndOfFloor(p, 8, 2, 0);
    KeptIs(p.sky, 0, 0);
    RoundUpIs(7, 4, 8);
    PlacedAt(p, 7, 8, 2, 0, 0, 0, 0, Wide([Point(0, 2), Point(7, 0)]).sky);
  }

  lemma WideNext()
    ensures Packs(Wide([Point(0, 2), Point(7, 0)]), 2, 3,
                  Wide([Point(0, 2), Point(7, 3), Point(9, 0)]), Some(Box(7, 0, 2, 3)))
  {
    hide Chosen, HasRoom, Packs, Rest, RoundUp;
    var p := Wide([Point(0, 2), Point(7, 0)]);
    LeftEndOfFloor(p, 4, 3, 1);
    KeptIs(p.sky, 7, 1);
    RoundUpIs(2, 4, 4);
    PlacedAt(p, 2, 4, 3, 7, 0, 1, 1, Wide([Point(0, 2), Point(7, 3), Point(9, 0)]).sky);
  }

  /** The positions that best-fit compares for a rectangle searched with width eight. */
  lemma WideChoice()
    ensures var p := Wide([Point(0, 2), Point(7, 3), Point(9, 0)]);
      Valid(p) && BestFit(p, 8, 1, 1) && Rest(p.sky, 1, 8) == 3 && Seg(p.sky, 1) == 0
  {
    hide Rest, Waste, Gap;
    var p := Wide([Point(0, 2), Point(7, 3), Point(9, 0)]);
    WideMeasured(p, 0, 7);
    WideMeasured(p, 1, 6);
    WideMeasured(p, 3, 10);
    assert p.sky[2].x == 1 + 8 && Aligned(p.sky, 8, 1);
    forall x | FitsAt(p, 8, 1, x)
      ensures NoWorse(p.sky, 8, 1, x)
    {
      assert x == 0 || x == 1 || x == 3;
    }
    SegUnique(p.sky, 1, 0);
  }

  lemma WideHeights(p: Packer)
    requires p == Wide([Point(0, 2), Point(7, 3), Point(9, 0)])
    ensures Valid(p) && FloorLast(p.sky)
    ensures forall c :: 0 <= c < 11 ==> Height(p.sky, c) == if c < 7 then 2 else if c < 9 then 3 else 0
  {
    forall c | 0 <= c < 11
      ensures Height(p.sky, c) == if c < 7 then 2 else if c < 9 then 3 else 0
    {
      SegUnique(p.sky, c, if c < 7 then 0 else if c < 9 then 1 else 2);
    }
  }

  lemma WideMeasured(p: Packer, x: int, empty: int)
    requires p == Wide([Point(0, 2), Point(7, 3), Point(9, 0)]) && 0 <= x <= 3
    requires empty == if x < 1 then 7 else 7 - x + 3 * (x - 1)
    ensures Valid(p) && Rest(p.sky, x, 8) == 3 && Waste(p.sky, x, 8) == empty
  {
    hide Valid, FloorLast, Height, Waste, Gap;
    WideHeights(p);
    assert Height(p.sky, 7) == 3;
    TopIs(p.sky, x, x + 8, 3);
    FloorLastExact(p, x, 8);
    var e := if x < 1 then 8 else 9;
    GapEmpty(p.sky, x, 3);
    GapExtend(p.sky, x, x, 7, 3, 2);
    GapExtend(p.sky, x, 7, e, 3, 3);
    GapExtend(p.sky, x, e, x + 8, 3, 0);
  }

  lemma WideLast()
    ensures Packs(Wide([Point(0, 2), Point(7, 3), Point(9, 0)]), 5, 1,
                  Wide([Point(0, 2), Point(1, 4), Point(7, 3), Point(9, 0)]), Some(Box(1, 3, 5, 1)))
  {
    hide BestFit, HasRoom, Packs, Rest, RoundUp;
    var p := Wide([Point(0, 2), Point(7, 3), Point(9, 0)]);
    WideChoice();
    WideRoom(p);
    KeptIs(p.sky, 1, 0);
    RoundUpIs(5, 4, 8);
    PlacedAt(p, 5, 8, 1, 1, 3, 1, 1, Wide([Point(0, 2), Point(1, 4), Point(7, 3), Point(9, 0)]).sky);
  }

  lemma WideRoom(p: Packer)
    requires Valid(p) && p.width == 11 && p.height == 7 && Rest(p.sky, 1, 8) == 3
    ensures HasRoom(p, 8, 1)
  {
    hide Rest;
  }

  /** The third rectangle covers columns 1 to 5, but column 6 is raised as well: nothing
      can be put below height 4 there any more. */
  lemma ColumnLost()
    ensures var last := Wide([Point(0, 2), Point(1, 4), Point(7, 3), Point(9, 0)]);
      var ops := [SetHeuristic(true), Pack(7, 2), Pack(2, 3), Pack(5, 1)];
      var states := [Initial(11, 7, 3), Wide([Point(0, 0)]), Wide([Point(0, 2), Point(7, 0)]),
                     Wide([Point(0, 2), Point(7, 3), Point(9, 0)]), last];
      var outs := [None, Some(Box(0, 0, 7, 2)), Some(Box(7, 0, 2, 3)), Some(Box(1, 3, 5, 1))];
      && IsRun(ops, states, outs)
      && Height(states[3].sky, 6) == 2 && Height(last.sky, 6) == 4
      && !RaisesExactly(states[3].sky, 1, 5)
  {
    hide Packs;
    WideStart();
    WideNext();
    WideLast();
    var before := Wide([Point(0, 2), Point(7, 3), Point(9, 0)]);
    var last := Wide([Point(0, 2), Point(1, 4), Point(7, 3), Point(9, 0)]);
    SegUnique(before.sky, 6, 0);
    SegUnique(before.sky, 1, 0);
    SegUnique(last.sky, 6, 1);
  }
}
