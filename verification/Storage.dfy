/** When the node storage given to a packer is enough.

    The header promises that, unless the caller opts out, widths are quantised so
    that storage never runs out.  The insertion, however, uses the exact width,
    so a run of thin rectangles can use up the nodes.  In a bin at least two high
    the promise holds exactly when there are at least as many nodes as columns. */
module Storage {
  import opened Arithmetic
  import opened Skyline
  import opened Window
  import opened Packing
  import opened Runs

  /** The request would fit, and is refused only because no node is left. */
  ghost predicate OutOfStorage(p: Packer, w: int, h: int)
    requires Valid(p) && 1 <= w
  {
    HasRoom(p, RoundUp(w, p.align), h) && !HasStorage(p)
  }

  /** The caller never opts out of quantisation. */
  ghost predicate Quantised(ops: seq<Op>) {
    forall i :: 0 <= i < |ops| ==> ops[i] != AllowOutOfMem(true)
  }

  ghost predicate Starves(width: int, height: int, nodes: int, ops: seq<Op>,
                          states: seq<Packer>, outs: seq<Option<Box>>, w: int, h: int)
    requires 1 <= nodes
  {
    && IsRun(ops, states, outs) && Quantised(ops) && 1 <= w && 1 <= h
    && states[0] == Initial(width, height, nodes)
    && Valid(states[|ops|]) && OutOfStorage(states[|ops|], w, h)
  }

  /** With a node for each column, every valid packer has a free node. */
  lemma StorageSuffices(p: Packer)
    requires Valid(p) && p.width <= p.nodes
    ensures HasStorage(p)
  {
    NodeCount(p.sky, p.width, p.height);
  }

  /** The skyline after `k` unit squares on the floor. */
  ghost function Stairs(width: int, k: nat): seq<Point> {
    seq(k, i => Point(i, 1)) + [Point(k, 0), Point(width, SENTINEL_Y)]
  }

  ghost function Thin(width: int, height: int, nodes: int, k: nat): Packer
    requires 1 <= nodes
  {
    Initial(width, height, nodes).(sky := Stairs(width, k))
  }

  lemma ThinValid(width: int, height: int, nodes: int, k: nat)
    requires 1 <= nodes < width && 1 <= height < SENTINEL_Y && k <= nodes
    ensures Valid(Thin(width, height, nodes, k))
    ensures forall c :: 0 <= c < width ==>
      Height(Stairs(width, k), c) == if c < k then 1 else 0
  {
    DefaultAlignIsLeast(width, nodes);
    var sky := Stairs(width, k);
    forall c | 0 <= c < width
      ensures Height(sky, c) == if c < k then 1 else 0
    {
      SegUnique(sky, c, if c < k then c else k);
    }
  }

  /** Where the `k`-th unit square goes: onto the floor, next to the others. */
  lemma ThinBottomLeft(width: int, height: int, nodes: int, k: nat, r: int)
    requires 1 <= nodes < width && 1 <= height < SENTINEL_Y && k < nodes
    requires Valid(Thin(width, height, nodes, k)) && 1 <= r && k + r <= width
    ensures BottomLeft(Thin(width, height, nodes, k), r, k) && Rest(Stairs(width, k), k, r) == 0
  {
    var sky := Stairs(width, k);
    ThinValid(width, height, nodes, k);
    assert IsTop(sky, k, k + r, Rest(sky, k, r));
    forall x | 0 <= x <= width - r
      ensures 0 <= Rest(sky, x, r) && (x < k ==> 0 < Rest(sky, x, r))
    {
      assert IsTop(sky, x, x + r, Rest(sky, x, r));
      assert Height(sky, x) <= Rest(sky, x, r);
    }
  }

  lemma ThinRaise(width: int, height: int, nodes: int, k: nat)
    requires 1 <= nodes < width && 1 <= height < SENTINEL_Y && k < nodes
    requires Ascending(Stairs(width, k))
    ensures Raise(Stairs(width, k), k, 1, 1) == Stairs(width, k + 1)
  {
    var sky := Stairs(width, k);
    SegUnique(sky, k, k);
    assert Cut(sky, k, k + 1) == k;
  }

  lemma ThinStep(width: int, height: int, nodes: int, k: nat)
    requires 1 <= nodes < width && 1 <= height < SENTINEL_Y && k < nodes
    ensures Valid(Thin(width, height, nodes, k))
    ensures Packs(Thin(width, height, nodes, k), 1, 1, Thin(width, height, nodes, k + 1), Some(Box(k, 0, 1, 1)))
  {
    hide Raise;
    var p, a := Thin(width, height, nodes, k), DefaultAlign(width, nodes);
    ThinValid(width, height, nodes, k);
    DefaultAlignIsLeast(width, nodes);
    RoundUpIsLeast(1, a, a);
    QuantumLeavesRoom(width, nodes, a);
    ThinBottomLeft(width, height, nodes, k, a);
    ThinRaise(width, height, nodes, k);
    assert HasRoom(p, a, 1);
  }

  /** One quantum still fits beside `nodes - 1` columns. */
  lemma QuantumLeavesRoom(width: int, nodes: int, a: int)
    requires 1 <= nodes < width && width <= a * nodes < width + nodes
    ensures nodes - 1 + a <= width
  {
    var n, d := nodes, width - nodes;
    if a >= d + 2 {
      MulLe(d + 2, a, n);
      assert (d + 2) * n == d * n + 2 * n;
      MulLe(1, n, d);
    }
  }

  /** There is room for a quantum even beside or on top of `nodes` unit squares. */
  ghost predicate Roomy(width: int, height: int, nodes: int)
    requires 1 <= nodes
  {
    nodes < width && (2 <= height || nodes + DefaultAlign(width, nodes) <= width)
  }

  /** `nodes` unit squares use up the storage, with room left for another. */
  lemma ThinStarves(width: int, height: int, nodes: int)
    requires 1 <= nodes && 1 <= height < SENTINEL_Y && Roomy(width, height, nodes)
    ensures var ops := seq(nodes, i => Pack(1, 1));
      var states := seq(nodes + 1, k requires 0 <= k => Thin(width, height, nodes, k));
      var outs := seq(nodes, k => Some(Box(k, 0, 1, 1)));
      Starves(width, height, nodes, ops, states, outs, 1, 1)
  {
    hide Packs, OutOfStorage;
    var states := seq(nodes + 1, k requires 0 <= k => Thin(width, height, nodes, k));
    forall k | 0 <= k < nodes
      ensures Packs(states[k], 1, 1, states[k + 1], Some(Box(k, 0, 1, 1)))
    {
      ThinStep(width, height, nodes, k);
    }
    assert Stairs(width, 0) == Initial(width, height, nodes).sky;
    ThinFull(width, height, nodes);
  }

  lemma ThinFull(width: int, height: int, nodes: int)
    requires 1 <= nodes && 1 <= height < SENTINEL_Y && Roomy(width, height, nodes)
    ensures Valid(Thin(width, height, nodes, nodes)) && OutOfStorage(Thin(width, height, nodes, nodes), 1, 1)
  {
    var p, a := Thin(width, height, nodes, nodes), DefaultAlign(width, nodes);
    ThinValid(width, height, nodes, nodes);
    DefaultAlignIsLeast(width, nodes);
    RoundUpIsLeast(1, a, a);
    QuantumLeavesRoom(width, nodes, a);
    var x := if 2 <= height then 0 else nodes;
    assert IsTop(p.sky, x, x + a, Rest(p.sky, x, a));
    assert HasRoom(p, a, 1);
  }

  // ----- bins of height one -----

  /** Each node in use was paid for with a cell of the bin. */
  lemma {:induction false} NodesPaid(width: int, height: int, nodes: int,
                                     ops: seq<Op>, states: seq<Packer>, outs: seq<Option<Box>>, n: nat)
    requires 1 <= width && 1 <= height < SENTINEL_Y && 1 <= nodes
    requires IsRun(ops, states, outs) && states[0] == Initial(width, height, nodes) && n <= |ops|
    ensures Valid(states[n]) && |states[n].sky| - 2 <= Filled(states[n])
  {
    hide Chosen, Raise, HasRoom, Safe, WellFormed, Gap, DefaultAlign;
    RunSafe(width, height, nodes, ops, states, outs, n);
    if n == 0 {
      InitialValid(width, height, nodes);
      FilledInitial(states[0]);
    } else {
      NodesPaid(width, height, nodes, ops, states, outs, n - 1);
      var p, p' := states[n - 1], states[n];
      match ops[n - 1]
      case SetHeuristic(_) =>
      case AllowOutOfMem(_) =>
      case Pack(w, h) =>
        if outs[n - 1].Some? {
          PlacePaid(p, w, RoundUp(w, p.align), h, p', outs[n - 1].value);
        }
    }
  }

  lemma PlacePaid(p: Packer, w: int, r: int, h: int, p': Packer, b: Box)
    requires Valid(p) && 1 <= w <= r && 1 <= h
    requires HasRoom(p, r, h) && HasStorage(p) && Places(p, w, r, h, p', b)
    ensures Valid(p') && Filled(p') - Filled(p) >= 1 >= |p'.sky| - |p.sky|
  {
    hide Chosen, Raise, HasRoom, Gap;
    PlacesFilled(p, w, r, h, p', b);
    MulLe(1, w, h);
    RaiseCount(p.sky, b.x, w, b.y + h);
  }

  /** The quantum never changes unless the caller opts out. */
  lemma {:induction false} QuantumKept(width: int, height: int, nodes: int,
                                       ops: seq<Op>, states: seq<Packer>, outs: seq<Option<Box>>, n: nat)
    requires 1 <= width && 1 <= height < SENTINEL_Y && 1 <= nodes && Quantised(ops)
    requires IsRun(ops, states, outs) && states[0] == Initial(width, height, nodes) && n <= |ops|
    ensures states[n].align == DefaultAlign(width, nodes)
  {
    hide Chosen, Raise, HasRoom, Safe, WellFormed, DefaultAlign;
    if n > 0 {
      QuantumKept(width, height, nodes, ops, states, outs, n - 1);
      RunSafe(width, height, nodes, ops, states, outs, n - 1);
      assert ops[n - 1] != AllowOutOfMem(true);
    }
  }

  lemma FloorHeights(p: Packer, x: int, r: int)
    requires Valid(p) && p.height == 1 && 0 <= x && 1 <= r && x + r <= p.width && Rest(p.sky, x, r) <= 0
    ensures |p.sky| > 0 && p.sky[0].x == 0
    ensures forall c :: 0 <= c < p.width ==> Height(p.sky, c) <= 1
    ensures forall c :: x <= c < x + r ==> Height(p.sky, c) == 0
  {
    assert IsTop(p.sky, x, x + r, Rest(p.sky, x, r));
    forall c | 0 <= c < p.width
      ensures Height(p.sky, c) <= 1 && (x <= c < x + r ==> Height(p.sky, c) == 0)
    {
      HeightInRange(p.sky, p.width, 1, c);
    }
  }

  /** A free stretch of the floor and the filled cells fit side by side. */
  lemma FloorRoom(p: Packer, x: int, r: int)
    requires Valid(p) && p.height == 1 && 0 <= x && 1 <= r && x + r <= p.width && Rest(p.sky, x, r) <= 0
    ensures Filled(p) + r <= p.width
  {
    hide WellFormed, Height, IsTop, Gap, Ascending, Rest;
    var sky, n := p.sky, p.width;
    FloorHeights(p, x, r);
    GapRaise(sky, 0, n, 0, 1);
    GapSplit(sky, 0, x, n, 1);
    GapSplit(sky, x, x + r, n, 1);
    GapNonNegative(sky, 0, x, 1);
    GapNonNegative(sky, x + r, n, 1);
    GapEmpty(sky, x, 1);
    GapExtend(sky, x, x, x + r, 1, 0);
  }

  lemma FloorState(p: Packer, w: int, h: int)
    requires Valid(p) && p.height == 1 && |p.sky| - 2 <= Filled(p) && p.width < p.nodes + p.align
    requires 1 <= w && 1 <= h
    ensures !OutOfStorage(p, w, h)
  {
    hide Gap, Rest, RoundUp, Filled, Ascending;
    if OutOfStorage(p, w, h) {
      var r := RoundUp(w, p.align);
      var x :| 0 <= x <= p.width - r && Rest(p.sky, x, r) + h <= p.height;
      QuantumAtLeast(w, p.align);
      FloorRoom(p, x, r);
    }
  }

  lemma FloorKeepsStorage(width: int, nodes: int,
                          ops: seq<Op>, states: seq<Packer>, outs: seq<Option<Box>>, w: int, h: int)
    requires 1 <= width && 1 <= nodes && width < nodes + DefaultAlign(width, nodes)
    ensures !Starves(width, 1, nodes, ops, states, outs, w, h)
  {
    hide Safe, WellFormed, OutOfStorage, DefaultAlign, Quantised, Filled, Step;
    if Starves(width, 1, nodes, ops, states, outs, w, h) {
      RunSafe(width, 1, nodes, ops, states, outs, |ops|);
      NodesPaid(width, 1, nodes, ops, states, outs, |ops|);
      QuantumKept(width, 1, nodes, ops, states, outs, |ops|);
      FloorState(states[|ops|], w, h);
    }
  }

  lemma QuantumAtLeast(w: int, a: int)
    requires 1 <= w && 1 <= a
    ensures a <= RoundUp(w, a)
  {
    RoundUpIsLeast(w, a, a);
    var r := RoundUp(w, a);
    assert r == (r / a) * a;
    MulLe(r / a, 0, a);
    MulLe(1, r / a, a);
  }

  /** The promise of the header, decided: no quantised run is ever refused for want
      of storage if and only if there is a node for each column or, in a bin of
      height one, no room for a quantum beside as many columns as there are nodes. */
  lemma StorageGuarantee(width: int, height: int, nodes: int)
    requires 1 <= width && 1 <= height < SENTINEL_Y && 1 <= nodes
    ensures (forall ops, states, outs, w, h :: !Starves(width, height, nodes, ops, states, outs, w, h))
            <==> width <= nodes || (height == 1 && width < nodes + DefaultAlign(width, nodes))
  {
    if width <= nodes {
      forall ops, states, outs, w, h
        ensures !Starves(width, height, nodes, ops, states, outs, w, h)
      {
        if IsRun(ops, states, outs) && states[0] == Initial(width, height, nodes) {
          RunSafe(width, height, nodes, ops, states, outs, |ops|);
          StorageSuffices(states[|ops|]);
        }
      }
    } else if Roomy(width, height, nodes) {
      ThinStarves(width, height, nodes);
    } else {
      forall ops, states, outs, w, h
        ensures !Starves(width, height, nodes, ops, states, outs, w, h)
      {
        FloorKeepsStorage(width, nodes, ops, states, outs, w, h);
      }
    }
  }
}
