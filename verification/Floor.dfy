/** The floor of the bin, and why the waste of a position is right in every run.

    The walk that measures a position may count too much only if it starts inside a
    segment of height 0 and goes on to another node.  No run gets there: columns of
    height 0 are taken from their left end first, so the segment they form is always
    the last one. */
module Floor {
  import opened Skyline
  import opened Window
  import opened Packing
  import opened Overcount
  import opened Runs

  /** Only the last segment can have height 0. */
  ghost predicate FloorLast(sky: seq<Point>) {
    forall i :: 0 <= i < |sky| - 2 ==> sky[i].y != 0
  }

  /** Column `x` is on the floor, but not at its left end. */
  ghost predicate InsideFloor(sky: seq<Point>, x: int)
    requires |sky| > 0 && sky[0].x <= x
  {
    sky[Seg(sky, x)].y == 0 && sky[Seg(sky, x)].x < x
  }

  lemma RaiseFloorLast(sky: seq<Point>, width: int, height: int, x: int, w: int, top: int)
    requires WellFormed(sky, width, height) && FloorLast(sky)
    requires 0 <= x && 1 <= w && x + w <= width && 1 <= top && !InsideFloor(sky, x)
    ensures FloorLast(Raise(sky, x, w, top))
  {
    hide Splice, Ascending;
    HeightInRange(sky, width, height, x);
    var k := Kept(sky, x);
    var j, new_ := Cut(sky, k, x + w), Raise(sky, x, w, top);
    forall i | 0 <= i < |new_| - 2
      ensures new_[i].y != 0
    {
      if k + 2 <= i {
        assert new_[i] == sky[i - k - 1 + j];
      }
    }
  }

  /** A window on the floor rests on it and wastes nothing. */
  lemma OnFloor(p: Packer, x: int, r: int)
    requires Valid(p) && FloorLast(p.sky) && 0 <= x && 1 <= r && x + r <= p.width
    requires p.sky[Seg(p.sky, x)].y == 0
    ensures Seg(p.sky, x) == |p.sky| - 2
    ensures Rest(p.sky, x, r) == 0 && Waste(p.sky, x, r) == 0 && Gap(p.sky, x, x + r, 0) == 0
  {
    hide Rest, Walk, Gap;
    HeightInRange(p.sky, p.width, p.height, x);
    OneSegment(p.sky, Seg(p.sky, x), x, r);
    WalkFindsRest(p.sky, p.width, p.height, x, r);
  }

  /** To best-fit, the left end of the floor is better than a column inside it. */
  lemma LeftEndBetter(p: Packer, r: int, h: int, x: int) returns (left: int)
    requires Valid(p) && FloorLast(p.sky) && 1 <= r && 0 <= x <= p.width - r && InsideFloor(p.sky, x)
    requires Rest(p.sky, x, r) + h <= p.height
    ensures 0 <= left && FitsAt(p, r, h, left) && !NoWorse(p.sky, r, x, left)
  {
    hide Ascending, Rest, Waste;
    var i := Seg(p.sky, x);
    left := p.sky[i].x;
    OnFloor(p, x, r);
    LeftEndHeld(p, i);
    OnFloor(p, left, r);
    assert Aligned(p.sky, r, left);
  }

  /** Neither heuristic chooses a column inside the floor. */
  lemma ChosenOffFloor(p: Packer, r: int, h: int, x: int)
    requires Valid(p) && FloorLast(p.sky) && 1 <= r && Chosen(p, r, h, x) && 0 <= x <= p.width - r
    ensures !InsideFloor(p.sky, x)
  {
    hide Ascending, Rest, NoWorse, FloorLast;
    if InsideFloor(p.sky, x) {
      if p.bestFit {
        var left := LeftEndBetter(p, r, h, x);
      } else {
        BottomLeftAtNode(p, r, x);
      }
    }
  }

  lemma LeftEndHeld(p: Packer, i: nat)
    requires Valid(p) && i < |p.sky|
    ensures 0 <= p.sky[i].x && Seg(p.sky, p.sky[i].x) == i
  {
    SegUnique(p.sky, p.sky[i].x, i);
  }

  lemma FloorOrHigher(p: Packer, x: int, i: nat)
    requires Valid(p) && FloorLast(p.sky) && 0 <= x < p.width && i == |p.sky| - 2
    ensures 0 <= Height(p.sky, x) && (Height(p.sky, x) == 0 ==> p.sky[i].x <= x)
  {
    HeightInRange(p.sky, p.width, p.height, x);
  }

  lemma FloorWins(p: Packer, r: int, i: nat, x': int)
    requires Valid(p) && FloorLast(p.sky) && 1 <= r && i == |p.sky| - 2 && p.sky[i].y == 0
    requires p.sky[i].x <= p.width - r && 0 <= x' <= p.width - r
    ensures 0 <= p.sky[i].x && Rest(p.sky, p.sky[i].x, r) == 0
    ensures Rest(p.sky, x', r) > 0 || (Rest(p.sky, x', r) == 0 && p.sky[i].x <= x')
    ensures NoWorse(p.sky, r, p.sky[i].x, x')
  {
    hide Ascending, Rest, Waste, FloorLast;
    LeftEndHeld(p, i);
    OnFloor(p, p.sky[i].x, r);
    RestInRange(p.sky, p.width, p.height, x', r);
    FloorOrHigher(p, x', i);
    if Height(p.sky, x') == 0 {
      OnFloor(p, x', r);
    }
  }

  /** Both heuristics choose the left end of the floor, if the rectangle fits there. */
  lemma LeftEndOfFloor(p: Packer, r: int, h: int, i: nat)
    requires Valid(p) && FloorLast(p.sky) && 1 <= r && h <= p.height
    requires i == |p.sky| - 2 && p.sky[i].y == 0 && p.sky[i].x <= p.width - r
    ensures 0 <= p.sky[i].x && Chosen(p, r, h, p.sky[i].x) && HasRoom(p, r, h) && Rest(p.sky, p.sky[i].x, r) == 0
  {
    hide Ascending, Rest, NoWorse, FloorLast;
    var x := p.sky[i].x;
    LeftEndHeld(p, i);
    FloorWins(p, r, i, p.width - r);
    assert Aligned(p.sky, r, x);
    assert HasRoom(p, r, h) by { assert Rest(p.sky, x, r) + h <= p.height; }
    forall x' | 0 <= x' <= p.width - r
      ensures Rest(p.sky, x', r) > 0 || (Rest(p.sky, x', r) == 0 && x <= x')
      ensures NoWorse(p.sky, r, x, x')
    {
      FloorWins(p, r, i, x');
    }
  }

  lemma PlacesFloorLast(p: Packer, w: int, r: int, h: int, p': Packer, b: Box)
    requires Valid(p) && FloorLast(p.sky) && 1 <= w <= r && 1 <= h
    requires HasRoom(p, r, h) && HasStorage(p) && Places(p, w, r, h, p', b)
    ensures FloorLast(p'.sky)
  {
    hide Chosen, Raise, HasRoom, InsideFloor, FloorLast;
    RestInRange(p.sky, p.width, p.height, b.x, r);
    ChosenOffFloor(p, r, h, b.x);
    RaiseFloorLast(p.sky, p.width, p.height, b.x, w, b.y + h);
  }

  /** In every run, whatever the heuristics and the quantum, the floor is last. */
  lemma {:induction false} RunFloorLast(width: int, height: int, nodes: int,
                                        ops: seq<Op>, states: seq<Packer>, outs: seq<Option<Box>>, n: nat)
    requires 1 <= width && 1 <= height < SENTINEL_Y && 1 <= nodes
    requires IsRun(ops, states, outs) && states[0] == Initial(width, height, nodes) && n <= |ops|
    ensures Valid(states[n]) && FloorLast(states[n].sky)
  {
    hide Chosen, Raise, HasRoom, Safe, WellFormed, DefaultAlign;
    RunSafe(width, height, nodes, ops, states, outs, n);
    if n > 0 {
      RunFloorLast(width, height, nodes, ops, states, outs, n - 1);
      var p, p' := states[n - 1], states[n];
      match ops[n - 1]
      case SetHeuristic(_) =>
      case AllowOutOfMem(_) =>
      case Pack(w, h) =>
        if outs[n - 1].Some? {
          PlacesFloorLast(p, w, RoundUp(w, p.align), h, p', outs[n - 1].value);
        }
    }
  }

  /** With the floor last, the walk reports exactly the area left empty. */
  lemma FloorLastExact(p: Packer, x: int, w: int)
    requires Valid(p) && FloorLast(p.sky) && 0 <= x && 1 <= w && x + w <= p.width
    ensures Waste(p.sky, x, w) == Gap(p.sky, x, x + w, Rest(p.sky, x, w))
  {
    hide Ascending, Rest, Gap, Waste, FlatEnd;
    HeightInRange(p.sky, p.width, p.height, x);
    WasteExact(p.sky, p.width, p.height, x, w);
  }

  /** In every run, the waste reported for a position is the area left empty below a
      rectangle there: the sum of the differences between its resting height and the
      heights of its columns. */
  lemma RunWasteExact(width: int, height: int, nodes: int,
                      ops: seq<Op>, states: seq<Packer>, outs: seq<Option<Box>>, n: nat, x: int, w: int)
    requires 1 <= width && 1 <= height < SENTINEL_Y && 1 <= nodes
    requires IsRun(ops, states, outs) && states[0] == Initial(width, height, nodes) && n <= |ops|
    requires 0 <= x && 1 <= w && x + w <= width
    ensures Valid(states[n]) && states[n].width == width
    ensures Waste(states[n].sky, x, w) == Gap(states[n].sky, x, x + w, Rest(states[n].sky, x, w))
  {
    hide Safe, FloorLast, WellFormed;
    RunSafe(width, height, nodes, ops, states, outs, n);
    RunFloorLast(width, height, nodes, ops, states, outs, n);
    FloorLastExact(states[n], x, w);
  }

  /** The area left empty below a rectangle of width `r` at column `x`. */
  ghost function EmptyBelow(sky: seq<Point>, x: int, r: int): int
    requires |sky| > 0 && sky[0].x <= x && 1 <= r
  {
    Gap(sky, x, x + r, Rest(sky, x, r))
  }

  /** The best position by resting height, then empty area, then column. */
  ghost predicate LeastEmpty(p: Packer, r: int, h: int, x: int)
    requires Valid(p) && 1 <= r
  {
    && FitsAt(p, r, h, x)
    && forall x' :: FitsAt(p, r, h, x') ==>
      var (y, y') := (Rest(p.sky, x, r), Rest(p.sky, x', r));
      var (a, a') := (EmptyBelow(p.sky, x, r), EmptyBelow(p.sky, x', r));
      y < y' || (y == y' && (a < a' || (a == a' && x <= x')))
  }

  lemma BestFitLeastEmpty(p: Packer, r: int, h: int, x: int)
    requires Valid(p) && FloorLast(p.sky) && 1 <= r && BestFit(p, r, h, x)
    ensures LeastEmpty(p, r, h, x)
  {
    hide Ascending, Waste, Gap, Rest, Aligned, FloorLast;
    FloorLastExact(p, x, r);
    forall x' | FitsAt(p, r, h, x')
      ensures var (y, y') := (Rest(p.sky, x, r), Rest(p.sky, x', r));
        var (a, a') := (EmptyBelow(p.sky, x, r), EmptyBelow(p.sky, x', r));
        y < y' || (y == y' && (a < a' || (a == a' && x <= x')))
    {
      FloorLastExact(p, x', r);
      assert NoWorse(p.sky, r, x, x');
    }
  }

  /** In every run, best-fit packs a rectangle where it leaves least empty, among the
      lowest of all positions with an edge at a node. */
  lemma RunBestFit(width: int, height: int, nodes: int,
                   ops: seq<Op>, states: seq<Packer>, outs: seq<Option<Box>>, n: nat)
    requires 1 <= width && 1 <= height < SENTINEL_Y && 1 <= nodes
    requires IsRun(ops, states, outs) && states[0] == Initial(width, height, nodes) && n < |ops|
    requires ops[n].Pack? && outs[n].Some?
    ensures var p := states[n];
      Valid(p) && (p.bestFit ==> LeastEmpty(p, RoundUp(ops[n].w, p.align), ops[n].h, outs[n].value.x))
  {
    hide Safe, WellFormed, BestFit, LeastEmpty, BottomLeft, Raise, DefaultAlign, FloorLast, HasRoom;
    RunFloorLast(width, height, nodes, ops, states, outs, n);
    var p := states[n];
    if p.bestFit {
      BestFitLeastEmpty(p, RoundUp(ops[n].w, p.align), ops[n].h, outs[n].value.x);
    }
  }
}
