/** The packer as a transition system over values.

    A `Packer` is what a context holds, its linked lists replaced by the skyline
    they represent.  `Packs` says, without naming any search, which placements
    one request may lead to; the rest of the module proves what every sequence
    of requests keeps.
  */
module Packing {
  import opened Arithmetic
  import opened Skyline
  import opened Window

  datatype Option<+T> = None | Some(value: T)

  datatype Packer = Packer(width: int, height: int, align: int, bestFit: bool, nodes: int, sky: seq<Point>)

  ghost predicate Valid(p: Packer) {
    && 1 <= p.width && 1 <= p.height < SENTINEL_Y && 1 <= p.align && 1 <= p.nodes
    && WellFormed(p.sky, p.width, p.height)
    && |p.sky| <= p.nodes + 2
  }

  /** The column quantum chosen when storage must not run out. */
  function DefaultAlign(width: int, nodes: int): int
    requires 1 <= nodes
  {
    (width + nodes - 1) / nodes
  }

  function Initial(width: int, height: int, nodes: int): Packer
    requires 1 <= nodes
  {
    Packer(width, height, DefaultAlign(width, nodes), false, nodes, [Point(0, 0), Point(width, SENTINEL_Y)])
  }

  /** `w` rounded up to a multiple of `a`. */
  function RoundUp(w: int, a: int): (r: int)
    requires 1 <= a
    ensures w <= r < w + a
  {
    w + a - 1 - (w + a - 1) % a
  }

  lemma RoundUpIsLeast(w: int, a: int, m: int)
    requires 1 <= a
    ensures RoundUp(w, a) % a == 0 && w <= RoundUp(w, a) < w + a
    ensures w <= m && m % a == 0 ==> RoundUp(w, a) <= m
  {
    var n := w + a - 1;
    assert n - n % a == (n / a) * a;
    ModIs((n / a) * a, n / a, a, 0);
    if w <= m && m % a == 0 {
      assert m == (m / a) * a;
      MulLe(m / a + 1, n / a, a);
      MulLe(n / a, m / a, a);
    }
  }

  /** The only multiple of the quantum in reach is the rounded width. */
  lemma RoundUpIs(w: int, a: int, r: int)
    requires 1 <= a && r % a == 0 && w <= r < w + a
    ensures RoundUp(w, a) == r
  {
    assert r == (r / a) * a;
    ModIs(w + a - 1, r / a, a, w + a - 1 - r);
  }

  // ----- one request -----

  /** Some position leaves a whole rectangle of width `r` inside the bin. */
  ghost predicate HasRoom(p: Packer, r: int, h: int)
    requires Valid(p) && 1 <= r
  {
    exists x :: 0 <= x <= p.width - r && Rest(p.sky, x, r) + h <= p.height
  }

  ghost predicate HasStorage(p: Packer) {
    |p.sky| < p.nodes + 2
  }

  /** Bottom-left: of all columns, the one with the lowest resting height, and of
      those the leftmost. */
  ghost predicate BottomLeft(p: Packer, r: int, x: int)
    requires Valid(p) && 1 <= r
  {
    && 0 <= x <= p.width - r
    && forall x' :: 0 <= x' <= p.width - r ==>
      Rest(p.sky, x, r) < Rest(p.sky, x', r) || (Rest(p.sky, x, r) == Rest(p.sky, x', r) && x <= x')
  }

  /** An edge of the rectangle is at a node. */
  ghost predicate Aligned(sky: seq<Point>, r: int, x: int) {
    exists i :: 0 <= i < |sky| && (sky[i].x == x || sky[i].x == x + r)
  }

  ghost predicate FitsAt(p: Packer, r: int, h: int, x: int)
    requires Valid(p) && 1 <= r
  {
    0 <= x <= p.width - r && Aligned(p.sky, r, x) && Rest(p.sky, x, r) + h <= p.height
  }

  /** The order of best-fit: resting height, then waste, then column. */
  ghost predicate NoWorse(sky: seq<Point>, r: int, x: int, x': int)
    requires |sky| > 0 && sky[0].x <= x && sky[0].x <= x' && 1 <= r
  {
    var (y, y') := (Rest(sky, x, r), Rest(sky, x', r));
    var (a, a') := (Waste(sky, x, r), Waste(sky, x', r));
    y < y' || (y == y' && (a < a' || (a == a' && x <= x')))
  }

  /** Best-fit: the best of all positions with an edge at a node. */
  ghost predicate BestFit(p: Packer, r: int, h: int, x: int)
    requires Valid(p) && 1 <= r
  {
    && FitsAt(p, r, h, x)
    && forall x' :: FitsAt(p, r, h, x') ==> NoWorse(p.sky, r, x, x')
  }

  ghost predicate Chosen(p: Packer, r: int, h: int, x: int)
    requires Valid(p) && 1 <= r
  {
    if p.bestFit then BestFit(p, r, h, x) else BottomLeft(p, r, x)
  }

  datatype Box = Box(x: int, y: int, w: int, h: int)

  /** Box `b` is a placement of a `w` by `h` rectangle for which `r` columns were
      searched, and `p'` is the packer afterwards. */
  ghost predicate Places(p: Packer, w: int, r: int, h: int, p': Packer, b: Box)
    requires Valid(p) && 1 <= w <= r
  {
    && b.w == w && b.h == h
    && 0 <= b.x <= p.width - r && Chosen(p, r, h, b.x)
    && b.y == Rest(p.sky, b.x, r)
    && p' == p.(sky := Raise(p.sky, b.x, w, b.y + h))
  }

  /** What packing one non-empty rectangle does: it succeeds exactly when there
      is room and storage, places the rectangle where the heuristic says, and
      raises the skyline there; otherwise nothing changes. */
  ghost predicate Packs(p: Packer, w: int, h: int, p': Packer, out: Option<Box>)
    requires Valid(p) && 1 <= w && 1 <= h
  {
    var r := RoundUp(w, p.align);
    if HasRoom(p, r, h) && HasStorage(p) then
      out.Some? && Places(p, w, r, h, p', out.value)
    else
      out == None && p' == p
  }

  /** Only columns that start a segment can be bottom-left. */
  lemma BottomLeftAtNode(p: Packer, r: int, x: int)
    requires Valid(p) && 1 <= r && BottomLeft(p, r, x)
    ensures p.sky[Seg(p.sky, x)].x == x
  {
    var left := p.sky[Seg(p.sky, x)].x;
    SlideLeft(p.sky, p.width, p.height, x, r);
    assert Rest(p.sky, left, r) <= Rest(p.sky, x, r);
  }

  /** A bottom-left column rests no higher than a best-fit one: being restricted
      to node positions costs no height. */
  lemma BestFitIsLowest(p: Packer, r: int, h: int, x: int, x': int)
    requires Valid(p) && 1 <= r && BestFit(p, r, h, x)
    requires 0 <= x' <= p.width - r
    ensures Rest(p.sky, x, r) <= Rest(p.sky, x', r)
  {
    var left := p.sky[Seg(p.sky, x')].x;
    SlideLeft(p.sky, p.width, p.height, x', r);
    assert Aligned(p.sky, r, left);
    if Rest(p.sky, left, r) + h <= p.height {
      assert FitsAt(p, r, h, left);
    }
  }

  /** The chosen position is inside the bin whenever there is room at all. */
  lemma ChosenFits(p: Packer, r: int, h: int, x: int)
    requires Valid(p) && 1 <= r && HasRoom(p, r, h) && Chosen(p, r, h, x) && 0 <= x <= p.width - r
    ensures Rest(p.sky, x, r) + h <= p.height
  {
    hide IsTop;
  }

  /** The rectangle starts at a node, or ends at or beyond the next one. */
  ghost predicate RaisesExactly(sky: seq<Point>, x: int, w: int)
    requires |sky| > 0 && sky[0].x <= x < sky[|sky| - 1].x
  {
    var i := Seg(sky, x);
    sky[i].x == x || sky[i + 1].x <= x + w
  }

  lemma EndsExactly(sky: seq<Point>, x: int, w: int)
    requires |sky| > 0 && sky[0].x <= x < sky[|sky| - 1].x && 1 <= w
    ensures RaisedEnd(sky, x, w) == x + w <==> RaisesExactly(sky, x, w)
  {
  }

  /** Where the columns raised by a placement end: with the rectangle, exactly if it
      starts at a node or reaches the next one. */
  lemma PlacementEnd(p: Packer, w: int, r: int, h: int, x: int)
    requires Valid(p) && 1 <= w <= r && 1 <= h
    requires Chosen(p, r, h, x) && 0 <= x <= p.width - r
    ensures p.sky != [] && p.sky[0].x <= x < p.sky[|p.sky| - 1].x
    ensures x + w <= RaisedEnd(p.sky, x, w) <= x + r
    ensures RaisedEnd(p.sky, x, w) == x + w <==> RaisesExactly(p.sky, x, w)
    ensures !p.bestFit || w == r ==> RaisesExactly(p.sky, x, w)
  {
    hide BottomLeft, Ascending, IsTop, NoWorse, RaisedEnd;
    var i := Seg(p.sky, x);
    EndsExactly(p.sky, x, w);
    RaiseFits(p.sky, p.width, p.height, x, w);
    if p.bestFit {
      var n :| 0 <= n < |p.sky| && (p.sky[n].x == x || p.sky[n].x == x + r);
      if p.sky[n].x == x {
        if n + 1 < |p.sky| {
          AscendingAt(p.sky, n, n + 1);
        }
        SegUnique(p.sky, x, n);
      } else {
        SegOrder(p.sky, x, n);
        AscendingAt(p.sky, i + 1, n);
      }
    } else {
      BottomLeftAtNode(p, r, x);
    }
  }

  /** An insertion takes at most one node from storage. */
  lemma RaiseCount(sky: seq<Point>, x: int, w: int, top: int)
    requires |sky| > 0 && sky[0].x <= x < sky[|sky| - 1].x
    ensures |Raise(sky, x, w, top)| <= |sky| + 1
  {
  }

  /** A placement is inside the bin whenever there is room at all, and leads to a
      valid packer. */
  lemma PlacesValid(p: Packer, w: int, r: int, h: int, p': Packer, b: Box)
    requires Valid(p) && 1 <= w <= r && 1 <= h
    requires HasRoom(p, r, h) && HasStorage(p) && Places(p, w, r, h, p', b)
    ensures Valid(p') && 0 <= b.x && b.x + w <= p.width && 0 <= b.y && b.y + h <= p.height
  {
    hide Raise, RaisedEnd;
    RestInRange(p.sky, p.width, p.height, b.x, r);
    RaiseWellFormed(p.sky, p.width, p.height, b.x, w, b.y + h);
    RaiseCount(p.sky, b.x, w, b.y + h);
  }

  /** The effect of a placement on the height map. */
  lemma PlacesHeights(p: Packer, w: int, r: int, h: int, p': Packer, b: Box, e: int)
    requires Valid(p) && 1 <= w <= r && 1 <= h
    requires HasRoom(p, r, h) && HasStorage(p) && Places(p, w, r, h, p', b)
    requires Valid(p') && e == RaisedEnd(p.sky, b.x, w)
    ensures b.x + w <= e <= b.x + r && (e == b.x + w <==> RaisesExactly(p.sky, b.x, w))
    ensures !p.bestFit || w == r ==> RaisesExactly(p.sky, b.x, w)
    ensures forall c :: b.x <= c < e ==> Height(p.sky, c) <= b.y
    ensures forall c :: 0 <= c < p.width ==>
      Height(p'.sky, c) == if b.x <= c < e then b.y + h else Height(p.sky, c)
  {
    hide Raise, RaisedEnd;
    PlacesValid(p, w, r, h, p', b);
    PlacementEnd(p, w, r, h, b.x);
    assert IsTop(p.sky, b.x, b.x + r, b.y);
    RaiseHeights(p.sky, p.width, p.height, b.x, w, b.y + h);
  }

  /** The specification leaves no choice: a request has one outcome. */
  lemma PacksDeterministic(p: Packer, w: int, h: int, p1: Packer, out1: Option<Box>, p2: Packer, out2: Option<Box>)
    requires Valid(p) && 1 <= w && 1 <= h
    requires Packs(p, w, h, p1, out1) && Packs(p, w, h, p2, out2)
    ensures p1 == p2 && out1 == out2
  {
    hide IsTop, RoundUp, Raise, Aligned;
    var r := RoundUp(w, p.align);
    if out1.Some? && out2.Some? {
      var x1, x2 := out1.value.x, out2.value.x;
      if p.bestFit {
        assert NoWorse(p.sky, r, x1, x2) && NoWorse(p.sky, r, x2, x1);
      } else {
        assert Rest(p.sky, x1, r) <= Rest(p.sky, x2, r) && Rest(p.sky, x2, r) <= Rest(p.sky, x1, r);
      }
    }
  }
}
