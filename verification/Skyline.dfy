/** The skyline of a partly filled bin, as a value.

    A skyline is the list of the active nodes' coordinates, the sentinel last.
    Node `i` says that the columns from its `x` up to the next node's `x` are
    filled up to its `y`.  This module gives that meaning (`Height`), the
    largest height over a window (`Top`), the wasted area below a level
    (`Gap`), the rewriting that an insertion performs (`Raise`), and what the
    rewriting does to the heights.
  */
module Skyline {

  /** The height of the sentinel node, above every usable height. */
  const SENTINEL_Y := 0x4000_0000

  datatype Point = Point(x: int, y: int)

  function Max(a: int, b: int): int {
    if a < b then b else a
  }

  ghost predicate Ascending(sky: seq<Point>) {
    forall i, j :: 0 <= i < j < |sky| ==> sky[i].x < sky[j].x
  }

  ghost predicate WellFormed(sky: seq<Point>, width: int, height: int) {
    && 2 <= |sky|
    && sky[0].x == 0
    && sky[|sky| - 1] == Point(width, SENTINEL_Y)
    && Ascending(sky)
    && (forall i :: 0 <= i < |sky| - 1 ==> 0 <= sky[i].y <= height)
  }

  // ----- heights -----

  ghost predicate Holds(sky: seq<Point>, i: int, c: int) {
    0 <= i < |sky| && sky[i].x <= c && (i + 1 < |sky| ==> c < sky[i + 1].x)
  }

  /** The node whose segment holds column `c`. */
  ghost function Seg(sky: seq<Point>, c: int): (i: nat)
    requires |sky| > 0 && sky[0].x <= c
    ensures Holds(sky, i, c)
  {
    SegExists(sky, c, |sky| - 1);
    var i: nat :| Holds(sky, i, c);
    i
  }

  lemma SegExists(sky: seq<Point>, c: int, n: nat)
    requires n < |sky| && sky[0].x <= c
    requires n + 1 < |sky| ==> c < sky[n + 1].x
    ensures exists i: nat :: Holds(sky, i, c)
  {
    if sky[n].x <= c {
      assert Holds(sky, n, c);
    } else {
      SegExists(sky, c, n - 1);
    }
  }

  ghost function Height(sky: seq<Point>, c: int): int
    requires |sky| > 0 && sky[0].x <= c
  {
    sky[Seg(sky, c)].y
  }

  lemma SegUnique(sky: seq<Point>, c: int, i: nat)
    requires Ascending(sky)
    requires sky != [] && sky[0].x <= c && Holds(sky, i, c)
    ensures Seg(sky, c) == i
  {
  }

  /** Segments are in the order of their columns. */
  lemma SegOrder(sky: seq<Point>, c: int, k: nat)
    requires Ascending(sky) && k < |sky| && sky[0].x <= c
    ensures k <= Seg(sky, c) <==> sky[k].x <= c
  {
  }

  lemma AscendingAt(sky: seq<Point>, i: nat, j: nat)
    requires Ascending(sky) && i <= j < |sky|
    ensures sky[i].x <= sky[j].x && (i < j ==> sky[i].x < sky[j].x)
  {
  }

  /** Columns left of the sentinel have a real node's height. */
  lemma HeightInRange(sky: seq<Point>, width: int, height: int, c: int)
    requires WellFormed(sky, width, height) && 0 <= c < width
    ensures Seg(sky, c) < |sky| - 1
    ensures 0 <= Height(sky, c) <= height
  {
  }

  ghost predicate IsTop(sky: seq<Point>, a: int, b: int, t: int)
    requires |sky| > 0 && sky[0].x <= a
  {
    && (forall c :: a <= c < b ==> Height(sky, c) <= t)
    && (exists c :: a <= c < b && Height(sky, c) == t)
  }

  /** The largest height over the columns `a`, ..., `b - 1`. */
  ghost function Top(sky: seq<Point>, a: int, b: int): (t: int)
    requires |sky| > 0 && sky[0].x <= a < b
    ensures IsTop(sky, a, b, t)
  {
    TopExists(sky, a, b);
    var t :| IsTop(sky, a, b, t);
    t
  }

  lemma {:induction false} TopExists(sky: seq<Point>, a: int, b: int)
    requires |sky| > 0 && sky[0].x <= a < b
    ensures exists t :: IsTop(sky, a, b, t)
    decreases b - a
  {
    if b == a + 1 {
      assert IsTop(sky, a, b, Height(sky, a));
    } else {
      TopExists(sky, a, b - 1);
      var t :| IsTop(sky, a, b - 1, t);
      assert IsTop(sky, a, b, Max(t, Height(sky, b - 1)));
    }
  }

  /** Sliding a window left until it touches a node never raises its top. */
  lemma SlideLeft(sky: seq<Point>, width: int, height: int, x: int, w: int)
    requires WellFormed(sky, width, height)
    requires 0 <= x && 1 <= w && x + w <= width
    ensures var left := sky[Seg(sky, x)].x;
      0 <= left <= x && Top(sky, left, left + w) <= Top(sky, x, x + w)
  {
    var i := Seg(sky, x);
    var left := sky[i].x;
    assert i > 0 ==> sky[0].x < sky[i].x;
    forall c | left <= c < left + w
      ensures Height(sky, c) <= Top(sky, x, x + w)
    {
      if c < x {
        SegUnique(sky, c, i);
        assert Height(sky, x) <= Top(sky, x, x + w);
      }
    }
  }

  // ----- raising a range of columns -----

  /** The first node from `j` on whose successor lies right of `limit`. */
  ghost function Cut(sky: seq<Point>, j: nat, limit: int): (r: nat)
    requires j < |sky|
    ensures j <= r < |sky|
    ensures r + 1 < |sky| ==> limit < sky[r + 1].x
    ensures forall k :: j < k <= r ==> sky[k].x <= limit
    decreases |sky| - j
  {
    if j + 1 < |sky| && sky[j + 1].x <= limit then Cut(sky, j + 1, limit) else j
  }

  lemma CutUnique(sky: seq<Point>, j: nat, limit: int, r: nat)
    requires j <= r < |sky|
    requires forall k :: j < k <= r ==> sky[k].x <= limit
    requires r + 1 < |sky| ==> limit < sky[r + 1].x
    ensures Cut(sky, j, limit) == r
    decreases r - j
  {
    if j < r {
      CutUnique(sky, j + 1, limit, r);
    }
  }

  /** How many nodes stay in front of a node inserted at column `x`. */
  ghost function Kept(sky: seq<Point>, x: int): nat
    requires |sky| > 0 && sky[0].x <= x
  {
    if sky[Seg(sky, x)].x < x then Seg(sky, x) + 1 else Seg(sky, x)
  }

  /** The nodes `k`, ..., `j` replaced by a node at `x` and a last one at `e`. */
  ghost function Splice(sky: seq<Point>, k: nat, j: nat, x: int, e: int, top: int): (new_: seq<Point>)
    requires k <= j < |sky|
    ensures |new_| == k + 1 + |sky| - j
    ensures forall n :: 0 <= n < k ==> new_[n] == sky[n]
    ensures new_[k] == Point(x, top) && new_[k + 1] == Point(e, sky[j].y)
    ensures forall n :: k + 2 <= n < |new_| ==> new_[n] == sky[n - k - 1 + j]
  {
    sky[..k] + [Point(x, top), Point(e, sky[j].y)] + sky[j + 1..]
  }

  ghost predicate SpliceFits(sky: seq<Point>, k: nat, j: nat, x: int, e: int) {
    && k <= j < |sky|
    && (0 < k ==> sky[k - 1].x < x) && x <= sky[k].x
    && x < e && sky[j].x <= e && (j + 1 < |sky| ==> e < sky[j + 1].x)
  }

  lemma AscendingConcat(a: seq<Point>, b: seq<Point>)
    requires Ascending(a) && Ascending(b)
    requires a != [] && b != [] ==> a[|a| - 1].x < b[0].x
    ensures Ascending(a + b)
  {
    forall i, j | 0 <= i < j < |a + b|
      ensures (a + b)[i].x < (a + b)[j].x
    {
      if i < |a| <= j {
        assert a[i].x <= a[|a| - 1].x < b[0].x <= b[j - |a|].x;
      }
    }
  }

  lemma SpliceAscending(sky: seq<Point>, k: nat, j: nat, x: int, e: int, top: int)
    requires Ascending(sky) && SpliceFits(sky, k, j, x, e)
    ensures Ascending(Splice(sky, k, j, x, e, top))
  {
    var middle := [Point(x, top), Point(e, sky[j].y)];
    AscendingConcat(sky[..k], middle);
    AscendingConcat(sky[..k] + middle, sky[j + 1..]);
  }

  // What a splice does to the heights left of it, inside it and right of it.

  lemma SpliceLeft(sky: seq<Point>, k: nat, j: nat, x: int, e: int, top: int, c: int)
    requires Ascending(sky) && SpliceFits(sky, k, j, x, e)
    requires sky[0].x <= c && (k == 0 ==> x == sky[0].x)
    requires c < x
    ensures Splice(sky, k, j, x, e, top)[0].x == sky[0].x
    ensures Height(Splice(sky, k, j, x, e, top), c) == Height(sky, c)
  {
    var new_ := Splice(sky, k, j, x, e, top);
    SpliceAscending(sky, k, j, x, e, top);
    SegOrder(sky, c, k);
    SegUnique(new_, c, Seg(sky, c));
  }

  lemma SpliceInside(sky: seq<Point>, k: nat, j: nat, x: int, e: int, top: int, c: int)
    requires Ascending(sky) && SpliceFits(sky, k, j, x, e)
    requires sky[0].x <= c && (k == 0 ==> x == sky[0].x)
    requires x <= c < e
    ensures Splice(sky, k, j, x, e, top)[0].x == sky[0].x
    ensures Height(Splice(sky, k, j, x, e, top), c) == top
  {
    var new_ := Splice(sky, k, j, x, e, top);
    SpliceAscending(sky, k, j, x, e, top);
    SegUnique(new_, c, k);
  }

  lemma SpliceRight(sky: seq<Point>, k: nat, j: nat, x: int, e: int, top: int, c: int)
    requires Ascending(sky) && SpliceFits(sky, k, j, x, e)
    requires sky[0].x <= c && (k == 0 ==> x == sky[0].x)
    requires e <= c
    ensures Splice(sky, k, j, x, e, top)[0].x == sky[0].x
    ensures Height(Splice(sky, k, j, x, e, top), c) == Height(sky, c)
  {
    hide Ascending, Splice;
    var new_, s := Splice(sky, k, j, x, e, top), Seg(sky, c);
    SegOrder(sky, c, j);
    SpliceAscending(sky, k, j, x, e, top);
    SegUnique(new_, c, s - j + k + 1);
  }

  /** The skyline after a node of height `top` is inserted for the columns
      `x`, ..., `x + w - 1`. */
  ghost function Raise(sky: seq<Point>, x: int, w: int, top: int): seq<Point>
    requires |sky| > 0 && sky[0].x <= x < sky[|sky| - 1].x
  {
    var j := Cut(sky, Kept(sky, x), x + w);
    Splice(sky, Kept(sky, x), j, x, Max(sky[j].x, x + w), top)
  }

  /** Where the raised columns end.  It is `x + w`, except when the new node
      starts inside a segment that reaches beyond `x + w`: then the remainder of
      that segment is raised, too. */
  ghost function RaisedEnd(sky: seq<Point>, x: int, w: int): int
    requires |sky| > 0 && sky[0].x <= x < sky[|sky| - 1].x
  {
    var i := Seg(sky, x);
    if sky[i].x < x then Max(x + w, sky[i + 1].x) else x + w
  }

  /** The segment kept last starts where the raised columns end. */
  lemma RaiseFits(sky: seq<Point>, width: int, height: int, x: int, w: int)
    requires WellFormed(sky, width, height)
    requires 0 <= x && 1 <= w && x + w <= width
    ensures var k := Kept(sky, x);
      var j := Cut(sky, k, x + w);
      && Max(sky[j].x, x + w) == RaisedEnd(sky, x, w)
      && SpliceFits(sky, k, j, x, RaisedEnd(sky, x, w))
      && (k == 0 ==> x == 0)
      && x + w <= RaisedEnd(sky, x, w) <= width
      && (j == |sky| - 1 ==> RaisedEnd(sky, x, w) == width)
  {
    var k := Kept(sky, x);
    var j := Cut(sky, k, x + w);
    var i := Seg(sky, x);
    assert k < j ==> sky[k].x < sky[j].x;
    assert j + 1 < |sky| ==> sky[j].x < sky[j + 1].x;
    assert j < |sky| - 1 ==> sky[j].x < sky[|sky| - 1].x;
    assert 0 < i ==> sky[i - 1].x < sky[i].x;
  }

  /** Insertion keeps the skyline in shape. */
  lemma RaiseWellFormed(sky: seq<Point>, width: int, height: int, x: int, w: int, top: int)
    requires WellFormed(sky, width, height)
    requires 0 <= x && 1 <= w && x + w <= width && 0 <= top <= height
    ensures WellFormed(Raise(sky, x, w, top), width, height)
  {
    var k := Kept(sky, x);
    var j := Cut(sky, k, x + w);
    RaiseFits(sky, width, height, x, w);
    SpliceAscending(sky, k, j, x, RaisedEnd(sky, x, w), top);
    SpliceYs(sky, width, height, k, j, x, RaisedEnd(sky, x, w), top);
  }

  lemma SpliceYs(sky: seq<Point>, width: int, height: int, k: nat, j: nat, x: int, e: int, top: int)
    requires |sky| > 0 && sky[|sky| - 1] == Point(width, SENTINEL_Y)
    requires forall i :: 0 <= i < |sky| - 1 ==> 0 <= sky[i].y <= height
    requires k <= j < |sky| && (j == |sky| - 1 ==> e == width) && 0 <= top <= height
    ensures var new_ := Splice(sky, k, j, x, e, top);
      && new_[|new_| - 1] == Point(width, SENTINEL_Y)
      && forall i :: 0 <= i < |new_| - 1 ==> 0 <= new_[i].y <= height
  {
  }

  /** Insertion refines an update of the height map: the raised columns get the
      new height, the others keep theirs. */
  lemma RaiseHeights(sky: seq<Point>, width: int, height: int, x: int, w: int, top: int)
    requires WellFormed(sky, width, height)
    requires 0 <= x && 1 <= w && x + w <= width && 0 <= top <= height
    ensures x + w <= RaisedEnd(sky, x, w) <= width
    ensures WellFormed(Raise(sky, x, w, top), width, height)
    ensures forall c :: 0 <= c < width ==>
      Height(Raise(sky, x, w, top), c)
      == if x <= c < RaisedEnd(sky, x, w) then top else Height(sky, c)
  {
    var k := Kept(sky, x);
    var j, e := Cut(sky, k, x + w), RaisedEnd(sky, x, w);
    RaiseFits(sky, width, height, x, w);
    RaiseWellFormed(sky, width, height, x, w, top);
    forall c | 0 <= c < width
      ensures Height(Raise(sky, x, w, top), c) == if x <= c < e then top else Height(sky, c)
    {
      if c < x {
        SpliceLeft(sky, k, j, x, e, top, c);
      } else if c < e {
        SpliceInside(sky, k, j, x, e, top, c);
      } else {
        SpliceRight(sky, k, j, x, e, top, c);
      }
    }
  }

  /** A skyline has no more nodes than columns, besides the sentinel. */
  lemma NodeCount(sky: seq<Point>, width: int, height: int)
    requires WellFormed(sky, width, height)
    ensures |sky| - 1 <= width
  {
    NodeCountAt(sky, |sky| - 1);
  }

  lemma {:induction false} NodeCountAt(sky: seq<Point>, n: nat)
    requires Ascending(sky) && n < |sky| && sky[0].x == 0
    ensures n <= sky[n].x
  {
    if n > 0 {
      NodeCountAt(sky, n - 1);
    }
  }

  // ----- areas -----

  /** The area between the heights of the columns `a`, ..., `b - 1` and level `m`. */
  ghost function Gap(sky: seq<Point>, a: int, b: int, m: int): int
    requires |sky| > 0 && sky[0].x <= a <= b
    decreases b - a
  {
    if a == b then 0 else Gap(sky, a, b - 1, m) + (m - Height(sky, b - 1))
  }

  lemma {:induction false} GapRaise(sky: seq<Point>, a: int, b: int, m: int, n: int)
    requires |sky| > 0 && sky[0].x <= a <= b
    ensures Gap(sky, a, b, n) == Gap(sky, a, b, m) + (b - a) * (n - m)
    decreases b - a
  {
    if a < b {
      GapRaise(sky, a, b - 1, m, n);
      OneMore(b - 1 - a, n - m);
    }
  }

  /** Extending a window by columns of one height adds a rectangle to the gap. */
  lemma {:induction false} GapExtend(sky: seq<Point>, a: int, b: int, c: int, m: int, y: int)
    requires |sky| > 0 && sky[0].x <= a <= b <= c
    requires forall n :: b <= n < c ==> Height(sky, n) == y
    ensures Gap(sky, a, c, m) == Gap(sky, a, b, m) + (c - b) * (m - y)
    decreases c - b
  {
    if b < c {
      GapExtend(sky, a, b, c - 1, m, y);
      OneMore(c - 1 - b, m - y);
    }
  }

  lemma HeightOnSegment(sky: seq<Point>, i: nat, c: int)
    requires Ascending(sky) && i + 1 < |sky| && sky[i].x <= c < sky[i + 1].x
    ensures sky[0].x <= c && Height(sky, c) == sky[i].y
  {
    SegUnique(sky, c, i);
  }

  lemma OneMore(n: int, d: int)
    ensures n * d + d == (n + 1) * d
  {
  }
}
