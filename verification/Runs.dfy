/** What every run of the packer keeps: placed rectangles stay inside the bin
    and apart, heights only grow, and no area is used twice. */
module Runs {
  import opened Arithmetic
  import opened Skyline
  import opened Window
  import opened Packing

  // ----- safety -----

  ghost predicate Inside(p: Packer, b: Box) {
    1 <= b.w && 1 <= b.h && 0 <= b.x && b.x + b.w <= p.width && 0 <= b.y && b.y + b.h <= p.height
  }

  /** Cell (`cx`, `cy`) of the bin belongs to the box. */
  ghost predicate Covers(b: Box, cx: int, cy: int) {
    b.x <= cx < b.x + b.w && b.y <= cy < b.y + b.h
  }

  ghost predicate Apart(a: Box, b: Box) {
    forall cx, cy :: !(Covers(a, cx, cy) && Covers(b, cx, cy))
  }

  ghost predicate UnderSkyline(p: Packer, b: Box)
    requires Valid(p)
  {
    forall c :: b.x <= c < b.x + b.w && 0 <= c ==> b.y + b.h <= Height(p.sky, c)
  }

  /** The packer together with the boxes placed so far. */
  ghost predicate Safe(p: Packer, boxes: seq<Box>) {
    && Valid(p)
    && (forall i :: 0 <= i < |boxes| ==> Inside(p, boxes[i]) && UnderSkyline(p, boxes[i]))
    && (forall i, j :: 0 <= i < j < |boxes| ==> Apart(boxes[i], boxes[j]))
  }

  /** Heights only grow. */
  ghost predicate Above(p: Packer, p': Packer)
    requires Valid(p) && Valid(p')
  {
    p.width == p'.width && forall c :: 0 <= c < p.width ==> Height(p.sky, c) <= Height(p'.sky, c)
  }

  lemma PlacesAbove(p: Packer, w: int, r: int, h: int, p': Packer, b: Box)
    requires Valid(p) && 1 <= w <= r && 1 <= h
    requires HasRoom(p, r, h) && HasStorage(p) && Places(p, w, r, h, p', b)
    ensures Valid(p') && Above(p, p') && UnderSkyline(p', b) && Inside(p, b)
    ensures forall c :: b.x <= c < b.x + b.w ==> Height(p.sky, c) <= b.y
  {
    hide Chosen, Raise, RaisedEnd;
    PlacesValid(p, w, r, h, p', b);
    PlacesHeights(p, w, r, h, p', b, RaisedEnd(p.sky, b.x, w));
  }

  lemma SafePlaces(p: Packer, boxes: seq<Box>, w: int, r: int, h: int, p': Packer, b: Box)
    requires Safe(p, boxes) && 1 <= w <= r && 1 <= h
    requires HasRoom(p, r, h) && HasStorage(p) && Places(p, w, r, h, p', b)
    ensures Safe(p', boxes + [b])
  {
    hide Chosen, Raise, HasRoom;
    PlacesAbove(p, w, r, h, p', b);
    forall i | 0 <= i < |boxes|
      ensures UnderSkyline(p', boxes[i]) && Apart(boxes[i], b) && Inside(p', boxes[i])
    {
      assert Inside(p, boxes[i]) && UnderSkyline(p, boxes[i]);
      forall cx, cy | Covers(boxes[i], cx, cy)
        ensures !Covers(b, cx, cy)
      {
        assert cy < boxes[i].y + boxes[i].h <= Height(p.sky, cx);
      }
    }
  }

  // ----- runs -----

  /** What a caller may do to an initialised packer. */
  datatype Op = SetHeuristic(bestFit: bool) | AllowOutOfMem(allow: bool) | Pack(w: int, h: int)

  ghost predicate Step(p: Packer, op: Op, p': Packer, out: Option<Box>)
    requires Valid(p)
  {
    match op
    case SetHeuristic(bf) => p' == p.(bestFit := bf) && out == None
    case AllowOutOfMem(a) => p' == p.(align := if a then 1 else DefaultAlign(p.width, p.nodes)) && out == None
    case Pack(w, h) => 1 <= w && 1 <= h && Packs(p, w, h, p', out)
  }

  /** A run: the operations, the states around them and what each returned. */
  ghost predicate IsRun(ops: seq<Op>, states: seq<Packer>, outs: seq<Option<Box>>) {
    && |states| == |ops| + 1 && |outs| == |ops|
    && (forall i {:trigger ops[i]} :: 0 <= i < |ops| ==>
          Valid(states[i]) ==> Step(states[i], ops[i], states[i + 1], outs[i]))
  }

  ghost function Placed(out: Option<Box>): seq<Box> {
    match out
    case None => []
    case Some(b) => [b]
  }

  ghost function Boxes(outs: seq<Option<Box>>): seq<Box> {
    if outs == [] then [] else Boxes(outs[..|outs| - 1]) + Placed(outs[|outs| - 1])
  }

  lemma StepKeeps(p: Packer, boxes: seq<Box>, op: Op, p': Packer, out: Option<Box>)
    requires Safe(p, boxes) && Step(p, op, p', out)
    ensures Safe(p', boxes + Placed(out))
    ensures Above(p, p') && p'.height == p.height && p'.nodes == p.nodes
  {
    hide Chosen, Raise, HasRoom;
    match op
    case SetHeuristic(_) =>
    case AllowOutOfMem(_) => DefaultAlignIsLeast(p.width, p.nodes);
    case Pack(w, h) =>
      if out.Some? {
        SafePlaces(p, boxes, w, RoundUp(w, p.align), h, p', out.value);
        PlacesAbove(p, w, RoundUp(w, p.align), h, p', out.value);
      }
  }

  /** The default quantum is the least one whose multiples of it cover the width
      with the nodes there are. */
  lemma DefaultAlignIsLeast(width: int, nodes: int)
    requires 1 <= width && 1 <= nodes
    ensures var a := DefaultAlign(width, nodes);
      1 <= a && width <= a * nodes < width + nodes && (a == 1 <==> width <= nodes)
  {
    var a, n := DefaultAlign(width, nodes), width + nodes - 1;
    assert a * nodes == n - n % nodes;
    if a <= 0 {
      MulLe(a, 0, nodes);
    } else if a >= 2 {
      MulLe(2, a, nodes);
    }
  }

  lemma InitialValid(width: int, height: int, nodes: int)
    requires 1 <= width && 1 <= height < SENTINEL_Y && 1 <= nodes
    ensures Safe(Initial(width, height, nodes), [])
    ensures forall c :: 0 <= c < width ==> Height(Initial(width, height, nodes).sky, c) == 0
  {
    DefaultAlignIsLeast(width, nodes);
  }

  /** Whole-run safety: after any operations on a fresh packer, all placed boxes
      lie inside the bin, no two share a cell, and each lies under the skyline. */
  lemma {:induction false} RunSafe(width: int, height: int, nodes: int,
                                   ops: seq<Op>, states: seq<Packer>, outs: seq<Option<Box>>, n: nat)
    requires 1 <= width && 1 <= height < SENTINEL_Y && 1 <= nodes
    requires IsRun(ops, states, outs) && states[0] == Initial(width, height, nodes) && n <= |ops|
    ensures Safe(states[n], Boxes(outs[..n]))
    ensures states[n].width == width && states[n].height == height && states[n].nodes == nodes
  {
    if n == 0 {
      InitialValid(width, height, nodes);
    } else {
      RunSafe(width, height, nodes, ops, states, outs, n - 1);
      StepKeeps(states[n - 1], Boxes(outs[..n - 1]), ops[n - 1], states[n], outs[n - 1]);
      assert outs[..n][..n - 1] == outs[..n - 1];
    }
  }

  lemma {:induction false} RunValid(ops: seq<Op>, states: seq<Packer>, outs: seq<Option<Box>>, n: nat)
    requires IsRun(ops, states, outs) && Valid(states[0]) && n <= |ops|
    ensures Valid(states[n]) && states[n].width == states[0].width
    ensures states[n].height == states[0].height && states[n].nodes == states[0].nodes
  {
    hide WellFormed, Step;
    if n > 0 {
      RunValid(ops, states, outs, n - 1);
      assert Safe(states[n - 1], []);
      StepKeeps(states[n - 1], [], ops[n - 1], states[n], outs[n - 1]);
    }
  }

  /** Heights never shrink along a run. */
  lemma {:induction false} RunAbove(ops: seq<Op>, states: seq<Packer>, outs: seq<Option<Box>>, m: nat, n: nat)
    requires IsRun(ops, states, outs) && m <= n <= |ops|
    requires forall i :: 0 <= i <= |ops| ==> Valid(states[i])
    ensures Above(states[m], states[n]) && states[m].height == states[n].height
    decreases n - m
  {
    hide WellFormed, Step;
    if m < n {
      RunAbove(ops, states, outs, m, n - 1);
      assert Safe(states[n - 1], []);
      StepKeeps(states[n - 1], [], ops[n - 1], states[n], outs[n - 1]);
    }
  }

  lemma RestMonotone(p: Packer, p': Packer, x: int, r: int, r': int)
    requires Valid(p) && Valid(p') && Above(p, p') && 0 <= x && 1 <= r <= r' && x + r' <= p.width
    ensures Rest(p.sky, x, r) <= Rest(p'.sky, x, r')
  {
    assert IsTop(p.sky, x, x + r, Rest(p.sky, x, r));
    assert IsTop(p'.sky, x, x + r', Rest(p'.sky, x, r'));
  }

  /** Room never comes back: once no column leaves room for `r` columns and height `h`,
      no later state of the run has room for as many columns and as much height. */
  lemma RoomNeverReturns(ops: seq<Op>, states: seq<Packer>, outs: seq<Option<Box>>,
                         m: nat, n: nat, r: int, h: int, r': int, h': int)
    requires IsRun(ops, states, outs) && m <= n <= |ops|
    requires forall i :: 0 <= i <= |ops| ==> Valid(states[i])
    requires 1 <= r <= r' && h <= h' && !HasRoom(states[m], r, h)
    ensures !HasRoom(states[n], r', h')
  {
    RunAbove(ops, states, outs, m, n);
    forall x | 0 <= x <= states[n].width - r'
      ensures Rest(states[n].sky, x, r') + h' > states[n].height
    {
      RestMonotone(states[m], states[n], x, r, r');
    }
  }

  // ----- area -----

  ghost function BoxArea(boxes: seq<Box>): int {
    if boxes == [] then 0
    else BoxArea(boxes[..|boxes| - 1]) + boxes[|boxes| - 1].w * boxes[|boxes| - 1].h
  }

  /** The area under the skyline. */
  ghost function Filled(p: Packer): int
    requires Valid(p)
  {
    -Gap(p.sky, 0, p.width, 0)
  }

  lemma {:induction false} GapUpdate(sky: seq<Point>, sky': seq<Point>, x: int, e: int, top: int, c: int)
    requires |sky| > 0 && |sky'| > 0 && sky[0].x == 0 == sky'[0].x && 0 <= x <= e && 0 <= c
    requires forall n :: 0 <= n < c ==> Height(sky', n) == if x <= n < e then top else Height(sky, n)
    ensures Gap(sky', 0, c, 0)
         == Gap(sky, 0, c, 0) - (if c <= x then 0 else Gap(sky, x, if c <= e then c else e, top))
    decreases c
  {
    if c > 0 {
      GapUpdate(sky, sky', x, e, top, c - 1);
    }
  }

  lemma {:induction false} GapNonNegative(sky: seq<Point>, a: int, b: int, m: int)
    requires |sky| > 0 && sky[0].x <= a <= b
    requires forall c :: a <= c < b ==> Height(sky, c) <= m
    ensures 0 <= Gap(sky, a, b, m)
    decreases b - a
  {
    if a < b {
      GapNonNegative(sky, a, b - 1, m);
    }
  }

  lemma GapSplit(sky: seq<Point>, a: int, b: int, c: int, m: int)
    requires |sky| > 0 && sky[0].x <= a <= b <= c
    ensures Gap(sky, a, c, m) == Gap(sky, a, b, m) + Gap(sky, b, c, m)
    decreases c - b
  {
    if b < c {
      GapSplit(sky, a, b, c - 1, m);
    }
  }

  /** Raising columns beyond the rectangle costs area, unless there are none. */
  lemma LostArea(sky: seq<Point>, a: int, e: int, y: int, top: int)
    requires |sky| > 0 && sky[0].x <= a <= e && y < top
    requires forall c :: a <= c < e ==> Height(sky, c) <= y
    ensures 0 <= Gap(sky, a, e, top) && (Gap(sky, a, e, top) == 0 <==> a == e)
  {
    hide Height;
    GapNonNegative(sky, a, e, y);
    GapRaise(sky, a, e, y, top);
    MulLe(1, top - y, e - a);
    if a == e {
      GapEmpty(sky, a, top);
    }
  }

  /** What a placement adds to the area under the skyline: the rectangle, and what
      is left empty below it, and no more exactly if the raised columns end with the
      rectangle. */
  lemma PlacesFilled(p: Packer, w: int, r: int, h: int, p': Packer, b: Box)
    requires Valid(p) && 1 <= w <= r && 1 <= h
    requires HasRoom(p, r, h) && HasStorage(p) && Places(p, w, r, h, p', b)
    ensures Valid(p') && Filled(p') >= Filled(p) + w * h + Gap(p.sky, b.x, b.x + w, b.y)
    ensures 0 <= b.x && b.x + w <= p.width && p.sky[0].x == 0 && p.sky[|p.sky| - 1].x == p.width
    ensures Filled(p') == Filled(p) + w * h + Gap(p.sky, b.x, b.x + w, b.y) <==> RaisesExactly(p.sky, b.x, w)
    ensures !p.bestFit || w == r ==> RaisesExactly(p.sky, b.x, w)
    ensures 0 <= Gap(p.sky, b.x, b.x + w, b.y)
  {
    hide Chosen, Raise, RaisedEnd, RaisesExactly, Gap, HasRoom;
    var e, top := RaisedEnd(p.sky, b.x, w), b.y + h;
    PlacesValid(p, w, r, h, p', b);
    PlacesHeights(p, w, r, h, p', b, e);
    GapUpdate(p.sky, p'.sky, b.x, e, top, p.width);
    GapSplit(p.sky, b.x, b.x + w, e, top);
    LostArea(p.sky, b.x + w, e, b.y, top);
    GapNonNegative(p.sky, b.x, b.x + w, b.y);
    GapRaise(p.sky, b.x, b.x + w, b.y, top);
  }

  lemma GapEmpty(sky: seq<Point>, a: int, m: int)
    requires |sky| > 0 && sky[0].x <= a
    ensures Gap(sky, a, a, m) == 0
  {
  }

  /** No area is used twice: after any run, the placed boxes together are no
      larger than the area under the skyline, and so than the bin. */
  lemma {:induction false} RunArea(width: int, height: int, nodes: int,
                                   ops: seq<Op>, states: seq<Packer>, outs: seq<Option<Box>>, n: nat)
    requires 1 <= width && 1 <= height < SENTINEL_Y && 1 <= nodes
    requires IsRun(ops, states, outs) && states[0] == Initial(width, height, nodes) && n <= |ops|
    ensures Valid(states[n]) && states[n].width == width && states[n].height == height
    ensures BoxArea(Boxes(outs[..n])) <= Filled(states[n]) <= width * height
  {
    hide Chosen, Raise, HasRoom, Safe, WellFormed, Gap, DefaultAlign;
    RunSafe(width, height, nodes, ops, states, outs, n);
    FilledBounded(states[n]);
    if n == 0 {
      InitialValid(width, height, nodes);
      FilledInitial(states[0]);
    } else {
      RunArea(width, height, nodes, ops, states, outs, n - 1);
      BoxesStep(outs, n);
      var p, p' := states[n - 1], states[n];
      match ops[n - 1]
      case SetHeuristic(_) =>
      case AllowOutOfMem(_) =>
      case Pack(w, h) =>
        if outs[n - 1].Some? {
          PlacesFilled(p, w, RoundUp(w, p.align), h, p', outs[n - 1].value);
        }
    }
  }

  lemma BoxesStep(outs: seq<Option<Box>>, n: nat)
    requires 0 < n <= |outs|
    ensures BoxArea(Boxes(outs[..n])) == BoxArea(Boxes(outs[..n - 1]))
      + match outs[n - 1] case None => 0 case Some(b) => b.w * b.h
  {
    assert outs[..n][..n - 1] == outs[..n - 1];
    var before := Boxes(outs[..n - 1]);
    if outs[n - 1].Some? {
      assert (before + [outs[n - 1].value])[..|before|] == before;
    } else {
      assert before + [] == before;
    }
  }

  lemma {:induction false} FilledBounded(p: Packer)
    requires Valid(p)
    ensures Filled(p) <= p.width * p.height
  {
    forall c | 0 <= c < p.width
      ensures Height(p.sky, c) <= p.height
    {
      HeightInRange(p.sky, p.width, p.height, c);
    }
    GapNonNegative(p.sky, 0, p.width, p.height);
    GapRaise(p.sky, 0, p.width, 0, p.height);
  }

  lemma FilledInitial(p: Packer)
    requires Valid(p) && forall c :: 0 <= c < p.width ==> Height(p.sky, c) == 0
    ensures Filled(p) == 0
  {
    GapEmpty(p.sky, 0, 0);
    GapExtend(p.sky, 0, 0, p.width, 0, 0);
  }
}
