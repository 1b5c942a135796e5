/** The skyline packer on its linked lists.

    A context owns two lists of nodes: the active ones, which form the skyline,
    and the free ones.  Ghost sequences name the nodes of each list in order.
    `State` abstracts a context to the value that module `Packing` talks about,
    and every method is specified by what it does to that value. */
module RectPack {
  import opened Skyline
  import opened Window
  import opened Packing
  import opened Runs
  import opened Choice

  class Node {
    var x: int
    var y: int
    var next: Node?

    constructor ()
    {
      x, y, next := 0, 0, null;
    }
  }

  /** A pointer to a list link: the null pointer, the head of the active list, or
      the `next` field of a node. */
  datatype Link = NoLink | Head | Next(node: Node)

  datatype FindResult = FindResult(x: int, y: int, link: Link)

  // ----- lists -----

  ghost predicate Chained(head: Node?, s: seq<Node>)
    reads s`next
  {
    && head == (if s == [] then null else s[0])
    && forall i {:trigger s[i].next} :: 0 <= i < |s| ==> s[i].next == if i + 1 < |s| then s[i + 1] else null
  }

  lemma ChainedCons(head: Node, s: seq<Node>)
    requires Chained(head.next, s)
    ensures Chained(head, [head] + s)
  {
    var t := [head] + s;
    assert t[0] == head;
    forall i | 0 <= i < |t|
      ensures t[i].next == if i + 1 < |t| then t[i + 1] else null
    {
      if i > 0 {
        assert t[i] == s[i - 1];
      }
    }
  }

  lemma ChainedTail(head: Node?, s: seq<Node>)
    requires Chained(head, s) && s != []
    ensures head == s[0] && Chained(s[0].next, s[1..])
    ensures s[0].next == if 1 < |s| then s[1] else null
  {
  }

  ghost predicate Distinct(s: seq<Node>) {
    forall i, j :: 0 <= i < j < |s| ==> s[i] != s[j]
  }

  ghost predicate Separate(a: seq<Node>, b: seq<Node>) {
    forall i, j :: 0 <= i < |a| && 0 <= j < |b| ==> a[i] != b[j]
  }

  ghost predicate Among(s: seq<Node>, pool: seq<Node>) {
    forall i :: 0 <= i < |s| ==> s[i] in pool
  }

  ghost function Points(s: seq<Node>): (sky: seq<Point>)
    reads s`x, s`y
    ensures |sky| == |s|
    ensures forall i :: 0 <= i < |s| ==> sky[i] == Point(s[i].x, s[i].y)
  {
    if s == [] then [] else [Point(s[0].x, s[0].y)] + Points(s[1..])
  }

  /** Link the first `n` nodes of an array into a list. */
  method LinkAll(nodes: array<Node>, n: int)
    requires 1 <= n <= nodes.Length && Distinct(nodes[..n])
    modifies nodes[..n]
    ensures Chained(nodes[0], nodes[..n])
  {
    ghost var s := nodes[..n];
    var i := 0;
    while i < n - 1
      invariant 0 <= i <= n - 1
      invariant forall k :: 0 <= k < i ==> s[k].next == s[k + 1]
    {
      assert nodes[i] == s[i] && nodes[i + 1] == s[i + 1];
      nodes[i].next := nodes[i + 1];
      i := i + 1;
    }
    assert nodes[i] == s[i];
    nodes[i].next := null;
  }

  lemma ExtrasApart(a: Node, b: Node, s: seq<Node>)
    requires a != b && a !in s && b !in s
    ensures Distinct([a, b]) && Separate([a, b], s)
  {
  }

  /** The heuristic and the quantum may change at any time. */
  lemma SafeTuned(p: Packer, boxes: seq<Box>, align: int, bestFit: bool)
    requires Safe(p, boxes)
    requires align == p.align || align == 1 || align == DefaultAlign(p.width, p.nodes)
    ensures Safe(p.(align := align, bestFit := bestFit), boxes)
  {
    DefaultAlignIsLeast(p.width, p.nodes);
  }

  // ----- moving nodes between the lists -----

  /** The free list after the first `m` nodes of `tail` were pushed onto `rest`. */
  ghost function Freed(tail: seq<Node>, m: nat, rest: seq<Node>): (s: seq<Node>)
    requires m <= |tail|
    ensures |s| == m + |rest|
    ensures forall j :: 0 <= j < m ==> s[j] == tail[m - 1 - j]
    ensures forall j :: m <= j < |s| ==> s[j] == rest[j - m]
  {
    seq(m, j requires 0 <= j < m => tail[m - 1 - j]) + rest
  }

  /** The active list after `node` took the place of the nodes `k`, ..., `k + m - 1`. */
  ghost function Relinked(nodes: seq<Node>, k: nat, m: nat, node: Node): (s: seq<Node>)
    requires k + m < |nodes|
    ensures |s| == |nodes| - m + 1
    ensures forall j :: 0 <= j < k ==> s[j] == nodes[j]
    ensures s[k] == node
    ensures forall j :: k < j < |s| ==> s[j] == nodes[j - 1 + m]
  {
    nodes[..k] + [node] + nodes[k + m..]
  }

  /** The list reached from `head` runs through `s` and then to `node`. */
  ghost predicate LeadsTo(head: Node?, s: seq<Node>, node: Node)
    reads s`next
  {
    && head == (if s == [] then node else s[0])
    && forall i {:trigger s[i].next} :: 0 <= i < |s| ==> s[i].next == if i + 1 < |s| then s[i + 1] else node
  }

  lemma ChainedConcat(head: Node?, s: seq<Node>, node: Node, t: seq<Node>)
    requires LeadsTo(head, s, node) && Chained(node, t) && t != []
    ensures Chained(head, s + t)
  {
    var u := s + t;
    forall i | 0 <= i < |u|
      ensures u[i].next == if i + 1 < |u| then u[i + 1] else null
    {
      if i < |s| {
        assert u[i] == s[i];
      } else {
        assert u[i] == t[i - |s|];
      }
    }
  }

  lemma LeadsToSnoc(head: Node?, s: seq<Node>, last: Node, node: Node)
    requires LeadsTo(head, s, last) && last.next == node
    ensures LeadsTo(head, s + [last], node)
  {
    var u := s + [last];
    forall i | 0 <= i < |u|
      ensures u[i].next == if i + 1 < |u| then u[i + 1] else node
    {
      assert i < |s| ==> u[i] == s[i];
    }
  }

  /** A list can be cut anywhere. */
  lemma ChainedSplit(head: Node?, s: seq<Node>, k: nat)
    requires Chained(head, s) && k < |s|
    ensures LeadsTo(head, s[..k], s[k]) && Chained(s[k], s[k..])
  {
    var t := s[k..];
    forall i | 0 <= i < |t|
      ensures t[i].next == if i + 1 < |t| then t[i + 1] else null
    {
      assert t[i] == s[k + i];
    }
    var u := s[..k];
    forall i | 0 <= i < |u|
      ensures u[i].next == if i + 1 < |u| then u[i + 1] else s[k]
    {
      assert u[i] == s[i];
    }
  }

  lemma Push(tail: seq<Node>, m: nat, rest: seq<Node>)
    requires m < |tail| && Distinct(tail) && Separate(tail, rest)
    ensures Freed(tail, m + 1, rest) == [tail[m]] + Freed(tail, m, rest)
    ensures tail[m] !in Freed(tail, m, rest) && tail[m] !in tail[m + 1..]
    ensures tail[m..] == [tail[m]] + tail[m + 1..]
  {
  }

  lemma FreedDistinct(tail: seq<Node>, m: nat, rest: seq<Node>)
    requires m <= |tail| && Distinct(tail) && Distinct(rest) && Separate(tail, rest)
    ensures Distinct(Freed(tail, m, rest))
  {
    var s := Freed(tail, m, rest);
    forall i, j | 0 <= i < j < |s|
      ensures s[i] != s[j]
    {
      if j < m {
        assert tail[m - 1 - j] != tail[m - 1 - i];
      } else if i < m {
        assert tail[m - 1 - i] != rest[j - m];
      } else {
        assert rest[i - m] != rest[j - m];
      }
    }
  }

  lemma RelinkedDistinct(nodes: seq<Node>, k: nat, m: nat, node: Node)
    requires k + m < |nodes| && Distinct(nodes) && node !in nodes
    ensures Distinct(Relinked(nodes, k, m, node))
  {
    var s := Relinked(nodes, k, m, node);
    forall i, j | 0 <= i < j < |s|
      ensures s[i] != s[j]
    {
      if j < k {
        assert nodes[i] != nodes[j];
      } else if j > k {
        if i < k {
          assert nodes[i] != nodes[j - 1 + m];
        } else if i > k {
          assert nodes[i - 1 + m] != nodes[j - 1 + m];
        }
      }
    }
  }

  lemma ListsSeparate(nodes: seq<Node>, k: nat, m: nat, node: Node, rest: seq<Node>)
    requires k + m < |nodes| && Distinct(nodes) && Separate(nodes, rest)
    requires node !in nodes && node !in rest
    ensures Separate(Relinked(nodes, k, m, node), Freed(nodes[k..], m, rest))
  {
    var a, b, tail := Relinked(nodes, k, m, node), Freed(nodes[k..], m, rest), nodes[k..];
    forall i, j | 0 <= i < |a| && 0 <= j < |b|
      ensures a[i] != b[j]
    {
      var f := if j < m then k + m - 1 - j else 0;
      assert j < m ==> b[j] == nodes[f];
      if i < k {
        assert j < m ==> nodes[i] != nodes[f];
        assert j >= m ==> nodes[i] != rest[j - m];
      } else if i > k {
        assert j < m ==> nodes[f] != nodes[i - 1 + m];
        assert j >= m ==> nodes[i - 1 + m] != rest[j - m];
      }
    }
  }

  // ----- what a search knows -----

  /** The link through which node `i` of a list is reached. */
  ghost predicate LinkTo(nodes: seq<Node>, link: Link, i: int) {
    if i == 0 then link == Head else 0 < i <= |nodes| && link == Next(nodes[i - 1])
  }

  /** What a search remembers of its best candidate. */
  ghost predicate Remembers(p: Packer, nodes: seq<Node>, r: int, h: int, seen: set<int>,
                            best: Link, bestX: int, bestY: int, bestWaste: int)
    requires Packing.Valid(p) && 1 <= r
  {
    && BestOf(p, r, h, seen, best != NoLink, bestX)
    && AllAligned(p, r, seen)
    && (best == NoLink ==> bestY == SENTINEL_Y && bestWaste == SENTINEL_Y)
    && (best != NoLink ==>
          && InRange(p, r, bestX) && bestX in seen
          && LinkTo(nodes, best, Seg(p.sky, bestX)) && bestY == Rest(p.sky, bestX, r)
          && (p.bestFit ==> bestWaste == Waste(p.sky, bestX, r)))
  }

  lemma NothingSeen(p: Packer, nodes: seq<Node>, r: int, h: int)
    requires Packing.Valid(p) && 1 <= r
    ensures Remembers(p, nodes, r, h, {}, NoLink, 0, SENTINEL_Y, SENTINEL_Y)
  {
  }

  lemma NodeFacts(p: Packer, k: nat, r: int)
    requires Packing.Valid(p) && k + 1 < |p.sky|
    ensures 0 <= p.sky[k].x < p.sky[k + 1].x <= p.width
    ensures Seg(p.sky, p.sky[k].x) == k
  {
    SegUnique(p.sky, p.sky[k].x, k);
  }

  /** Recording the left edge at node `k`. */
  lemma TakeLeft(p: Packer, nodes: seq<Node>, r: int, h: int, seen: set<int>, best: Link, bestX: int,
                 bestY: int, bestWaste: int, k: nat, prev: Link, y: int, waste: int, take: bool)
    requires Packing.Valid(p) && 1 <= r && 1 <= h
    requires Remembers(p, nodes, r, h, seen, best, bestX, bestY, bestWaste)
    requires k < |p.sky| && InRange(p, r, p.sky[k].x)
    requires LinkTo(nodes, prev, k) && prev != NoLink && Seg(p.sky, p.sky[k].x) == k
    requires forall s :: s in seen ==> s < p.sky[k].x
    requires y == Rest(p.sky, p.sky[k].x, r) && waste == Waste(p.sky, p.sky[k].x, r)
    requires take <==>
      (if p.bestFit then y + h <= p.height && (y < bestY || (y == bestY && waste < bestWaste)) else y < bestY)
    ensures Remembers(p, nodes, r, h, seen + {p.sky[k].x}, if take then prev else best,
      if take then p.sky[k].x else bestX, if take then y else bestY,
      if take && p.bestFit then waste else bestWaste)
  {
    hide Ascending, IsTop, Waste;
    var x := p.sky[k].x;
    RestInRange(p.sky, p.width, p.height, x, r);
    assert Aligned(p.sky, r, x);
    Consider(p, r, h, seen, best != NoLink, bestX, x, take);
  }

  /** The condition under which a right edge is taken is the order of best-fit. */
  lemma RightPreferred(p: Packer, nodes: seq<Node>, r: int, h: int, seen: set<int>, best: Link, bestX: int,
                       bestY: int, bestWaste: int, x: int, y: int, waste: int, take: bool)
    requires Packing.Valid(p) && 1 <= r && 1 <= h && p.bestFit && InRange(p, r, x)
    requires Remembers(p, nodes, r, h, seen, best, bestX, bestY, bestWaste)
    requires y == Rest(p.sky, x, r) && waste == Waste(p.sky, x, r)
    requires take <==>
      y + h <= p.height && y <= bestY && (y < bestY || waste < bestWaste || (waste == bestWaste && x < bestX))
    ensures take ==> Admissible(p, r, h, x) && (best != NoLink ==> InRange(p, r, bestX) && Better(p, r, x, bestX))
    ensures !take ==> Admissible(p, r, h, x) ==> best != NoLink && InRange(p, r, bestX) && Better(p, r, bestX, x)
  {
    hide Ascending, IsTop, Waste, Rest, BestOf, AllAligned, LinkTo;
  }

  /** Recording the right edge at node `t`; the column is in the segment of node `q`. */
  lemma TakeRight(p: Packer, nodes: seq<Node>, r: int, h: int, seen: set<int>, best: Link, bestX: int,
                  bestY: int, bestWaste: int, t: nat, q: nat, x: int, prev: Link, y: int, waste: int, take: bool)
    requires Packing.Valid(p) && 1 <= r && 1 <= h && p.bestFit
    requires Remembers(p, nodes, r, h, seen, best, bestX, bestY, bestWaste)
    requires t < |p.sky| && x == p.sky[t].x - r && InRange(p, r, x)
    requires q + 1 < |p.sky| && p.sky[q].x <= x < p.sky[q + 1].x && LinkTo(nodes, prev, q) && prev != NoLink
    requires y == Rest(p.sky, x, r) && waste == Waste(p.sky, x, r)
    requires take <==>
      y + h <= p.height && y <= bestY && (y < bestY || waste < bestWaste || (waste == bestWaste && x < bestX))
    requires SeenRight(p, r, seen, t)
    ensures SeenRight(p, r, seen + {x}, t + 1)
    ensures Remembers(p, nodes, r, h, seen + {x}, if take then prev else best,
      if take then x else bestX, if take then y else bestY, if take then waste else bestWaste)
  {
    hide IsTop, Waste, Rest, BestOf, LinkTo, Admissible, Better, WellFormed, SeenRight, AllAligned;
    RightPreferred(p, nodes, r, h, seen, best, bestX, bestY, bestWaste, x, y, waste, take);
    SegIs(p, x, q);
    OneMoreSeen(p, r, seen, t, x);
    Consider(p, r, h, seen, best != NoLink, bestX, x, take);
  }

  lemma SegIs(p: Packer, x: int, q: nat)
    requires Packing.Valid(p) && q + 1 < |p.sky| && p.sky[q].x <= x < p.sky[q + 1].x
    ensures |p.sky| > 0 && p.sky[0].x == 0 && 0 <= x && Seg(p.sky, x) == q
  {
    SegUnique(p.sky, x, q);
  }

  lemma OneMoreSeen(p: Packer, r: int, seen: set<int>, t: nat, x: int)
    requires t < |p.sky| && x == p.sky[t].x - r && SeenRight(p, r, seen, t) && AllAligned(p, r, seen)
    ensures SeenRight(p, r, seen + {x}, t + 1) && AllAligned(p, r, seen + {x})
  {
    assert Aligned(p.sky, r, x);
  }

  /** The right edges at the first `t` nodes are among the columns seen. */
  ghost predicate SeenRight(p: Packer, r: int, seen: set<int>, t: int) {
    forall j :: 0 <= j < t && j < |p.sky| && r <= p.sky[j].x ==> p.sky[j].x - r in seen
  }

  lemma RightEdgesDone(p: Packer, r: int, seen: set<int>)
    requires SeenRight(p, r, seen, |p.sky|)
    ensures HasRightEdges(p, r, seen)
  {
  }

  lemma LeftEdgesDone(p: Packer, r: int, seen: set<int>, k: nat)
    requires Packing.Valid(p) && k < |p.sky| && p.sky[k].x + r > p.width
    requires forall j :: 0 <= j < k ==> p.sky[j].x in seen
    ensures HasLeftEdges(p, r, seen)
  {
  }

  ghost predicate Finds(p: Packer, nodes: seq<Node>, r: int, h: int, fr: FindResult)
    requires Packing.Valid(p) && 1 <= r
  {
    if HasRoom(p, r, h) then
      && fr.link != NoLink && 0 <= fr.x <= p.width - r && Chosen(p, r, h, fr.x)
      && fr.y == Rest(p.sky, fr.x, r) && LinkTo(nodes, fr.link, Seg(p.sky, fr.x))
    else
      fr.link == NoLink || fr.y + h > p.height
  }

  /** A complete search that remembers its best candidate has found the position. */
  lemma SearchDone(p: Packer, nodes: seq<Node>, r: int, h: int, seen: set<int>, left: set<int>,
                   best: Link, bestX: int, bestY: int, bestWaste: int)
    requires Packing.Valid(p) && 1 <= r <= p.width
    requires Remembers(p, nodes, r, h, seen, best, bestX, bestY, bestWaste)
    requires left <= seen && HasLeftEdges(p, r, left) && (p.bestFit ==> HasRightEdges(p, r, seen))
    ensures Finds(p, nodes, r, h, FindResult(bestX, bestY, best))
  {
    hide Ascending, IsTop, HasRightEdges, BottomLeft, BestFit, BestOf, Aligned;
    if p.bestFit {
      LeftEdgesFind(p, r, h, seen, best != NoLink, bestX);
      if best != NoLink {
        AllEdgesSuffice(p, r, h, seen, bestX);
      }
    } else {
      LeftEdgesSuffice(p, r, h, seen, best != NoLink, bestX);
    }
  }

  /** Whether the rectangle can be placed, as the caller decides it. */
  lemma FindsDecides(p: Packer, nodes: seq<Node>, r: int, h: int, fr: FindResult)
    requires Packing.Valid(p) && 1 <= r && Finds(p, nodes, r, h, fr)
    ensures HasRoom(p, r, h) <==> fr.link != NoLink && fr.y + h <= p.height
    ensures HasRoom(p, r, h) ==>
      0 <= fr.x <= p.width - r && |p.sky| > 0 && p.sky[0].x == 0 && p.sky[|p.sky| - 1].x == p.width
      && Chosen(p, r, h, fr.x) && fr.y == Rest(p.sky, fr.x, r) && LinkTo(nodes, fr.link, Seg(p.sky, fr.x))
  {
    hide Chosen;
    if HasRoom(p, r, h) {
      ChosenFits(p, r, h, fr.x);
    }
  }

  lemma Increasing(p: Packer, i: nat, j: nat)
    requires Packing.Valid(p) && i <= j < |p.sky|
    ensures p.sky[i].x <= p.sky[j].x
  {
  }

  lemma NothingFound(p: Packer, nodes: seq<Node>, r: int, h: int)
    requires Packing.Valid(p) && 1 <= r && (r > p.width || h > p.height)
    ensures Finds(p, nodes, r, h, FindResult(0, 0, NoLink))
  {
    forall x | 0 <= x <= p.width - r
      ensures 0 <= Rest(p.sky, x, r)
    {
      RestInRange(p.sky, p.width, p.height, x, r);
    }
  }

  class Context {
    var width: int
    var height: int
    var align: int
    var bestFit: bool
    var numNodes: int
    var activeHead: Node?
    var freeHead: Node?
    const extra0: Node
    const extra1: Node

    ghost var active: seq<Node>
    ghost var free: seq<Node>
    // all nodes handed to the context
    ghost var pool: seq<Node>
    // the boxes placed since the target was initialised, oldest first
    ghost var boxes: seq<Box>

    ghost function State(): Packer
      reads `width, `height, `align, `bestFit, `numNodes, `active, active`x, active`y
    {
      Packer(width, height, align, bestFit, numNodes, Points(active))
    }

    ghost predicate Lists()
      reads `activeHead, `freeHead, `active, `free, `numNodes, `pool, active`next, free`next
    {
      && Chained(activeHead, active) && Chained(freeHead, free)
      && Distinct(active) && Distinct(free) && Separate(active, free)
      && |active| + |free| == numNodes + 2
      && Among(active, pool) && Among(free, pool)
    }

    ghost predicate Valid()
      reads this, active, free
    {
      Lists() && Safe(State(), boxes)
    }

    /** What the debug checks of the program ask for, in every valid context: the
        active list ascends strictly from column 0 to the one sentinel at the right
        end, where it stops; no node is in it twice, or free as well; and no node is
        lost. */
    lemma Shape()
      requires Valid()
      ensures active != [] && activeHead == active[0] && activeHead.x == 0
      ensures forall i :: 0 <= i < |active| - 1 ==>
        active[i].next == active[i + 1] && active[i].x < active[i + 1].x && active[i].y <= height
      ensures var last := active[|active| - 1]; last.next == null && last.x == width && last.y == SENTINEL_Y
      ensures forall i, j :: 0 <= i < j < |active| ==> active[i] != active[j]
      ensures forall n :: n in active ==> n !in free
      ensures |active| + |free| == numNodes + 2
    {
    }

    constructor ()
      ensures fresh(extra0) && fresh(extra1) && extra0 != extra1
    {
      extra0 := new Node();
      extra1 := new Node();
    }

    method SetupHeuristic(bestFit: bool)
      requires Valid()
      modifies this`bestFit
      ensures Valid() && State() == old(State()).(bestFit := bestFit)
    {
      hide Safe, Lists;
      SafeTuned(State(), boxes, align, bestFit);
      this.bestFit := bestFit;
    }

    method SetupAllowOutOfMem(allow: bool)
      requires 1 <= numNodes
      modifies this`align
      ensures align == if allow then 1 else DefaultAlign(width, numNodes)
      ensures old(Valid()) ==> Valid()
    {
      hide Safe, Lists;
      if allow {
        align := 1;
      } else {
        align := (width + numNodes - 1) / numNodes;
      }
      hide DefaultAlign;
      if old(Valid()) {
        SafeTuned(old(State()), boxes, align, bestFit);
      }
    }

    method InitTarget(width: int, height: int, nodes: array<Node>, numNodes: int)
      requires 1 <= width && 1 <= height < SENTINEL_Y && 1 <= numNodes <= nodes.Length
      requires Distinct(nodes[..numNodes])
      requires extra0 != extra1 && extra0 !in nodes[..numNodes] && extra1 !in nodes[..numNodes]
      modifies this, extra0, extra1, nodes[..numNodes]
      ensures Valid() && State() == Initial(width, height, numNodes)
      ensures boxes == [] && free == nodes[..numNodes]
      ensures pool == [extra0, extra1] + nodes[..numNodes]
    {
      hide Safe, Packing.Valid, DefaultAlign, Distinct, Separate, Chained;
      ghost var s := nodes[..numNodes];
      InitFields(width, height, nodes[0], numNodes, s);
      InitNodes(width, nodes, numNodes);
      assert Lists() by {
        ExtrasApart(extra0, extra1, s);
      }
      InitialValid(width, height, numNodes);
    }

    method InitFields(width: int, height: int, first: Node, numNodes: int, ghost s: seq<Node>)
      requires 1 <= numNodes
      modifies this
      ensures this.width == width && this.height == height && this.numNodes == numNodes
      ensures align == DefaultAlign(width, numNodes) && !bestFit
      ensures freeHead == first && activeHead == extra0
      ensures active == [extra0, extra1] && free == s && pool == active + s && boxes == []
    {
      hide Valid, DefaultAlign;
      bestFit := false;
      freeHead := first;
      activeHead := extra0;
      this.width := width;
      this.height := height;
      this.numNodes := numNodes;
      SetupAllowOutOfMem(false);
      active, free, pool := [extra0, extra1], s, [extra0, extra1] + s;
      boxes := [];
    }

    /** Link the user's nodes into the free list.  The first extra node spans the
        full width, the second is the sentinel. */
    method InitNodes(width: int, nodes: array<Node>, n: int)
      requires 1 <= n <= nodes.Length && Distinct(nodes[..n])
      requires extra0 != extra1 && extra0 !in nodes[..n] && extra1 !in nodes[..n]
      modifies extra0, extra1, nodes[..n]
      ensures Chained(nodes[0], nodes[..n]) && Chained(extra0, [extra0, extra1])
      ensures Points([extra0, extra1]) == [Point(0, 0), Point(width, SENTINEL_Y)]
    {
      extra0.x := 0;
      extra0.y := 0;
      extra0.next := extra1;
      extra1.x := width;
      extra1.y := 0x4000_0000;
      extra1.next := null;
      LinkAll(nodes, n);
    }

    /** The active list stands for `p`. */
    ghost predicate Shows(p: Packer, nodes: seq<Node>)
      reads `width, `height, `align, `bestFit, `numNodes, `active, `activeHead, active
    {
      active == nodes && Chained(activeHead, nodes) && State() == p
    }

    /** What a list that stands for `p` looks like at node `k`. */
    lemma Look(p: Packer, nodes: seq<Node>, k: nat)
      requires Shows(p, nodes) && k < |nodes|
      ensures |p.sky| == |nodes| && p.sky[k] == Point(nodes[k].x, nodes[k].y)
      ensures nodes[k].next == if k + 1 < |nodes| then nodes[k + 1] else null
      ensures activeHead == nodes[0]
      ensures width == p.width && height == p.height && bestFit == p.bestFit && align == p.align
    {
    }

    /** The walk over the nodes from `first`: the resting height at `x0`, and the waste. */
    method FindMinY(first: Node, x0: int, width: int, ghost p: Packer, ghost nodes: seq<Node>, ghost i: nat)
      returns (minY: int, waste: int)
      requires Shows(p, nodes) && Packing.Valid(p) && |nodes| == |p.sky|
      requires i + 1 < |nodes| && first == nodes[i]
      requires p.sky[i].x <= x0 < p.sky[i + 1].x
      requires 1 <= width && x0 + width <= p.width && 0 <= x0
      ensures minY == Rest(p.sky, x0, width)
      ensures waste == Waste(p.sky, x0, width)
    {
      hide Walk, Visit, Ascending, Shows;
      ghost var k := i;
      var node := first;
      var x1 := x0 + width;
      var visited := 0;
      minY, waste := 0, 0;
      Look(p, nodes, k);
      while node.x < x1
        invariant k < |nodes| && node == nodes[k] && node.x == p.sky[k].x
        invariant Walk(p.sky, k, x0, width, Tally(minY, visited, waste))
               == Walk(p.sky, i, x0, width, Tally(0, 0, 0))
        decreases |nodes| - k
      {
        assert k + 1 < |nodes|;
        Look(p, nodes, k);
        Look(p, nodes, k + 1);
        WalkStep(p.sky, k, x0, width, Tally(minY, visited, waste));
        minY, visited, waste := VisitNode(node, x0, width, minY, visited, waste);
        node := node.next;
        k := k + 1;
      }
      WalkStep(p.sky, k, x0, width, Tally(minY, visited, waste));
      SegUnique(p.sky, x0, i);
      WalkFindsRest(p.sky, p.width, p.height, x0, width);
    }

    /** One node of that walk. */
    method VisitNode(node: Node, x0: int, width: int, minY: int, visited: int, waste: int)
      returns (minY': int, visited': int, waste': int)
      requires node.next != null
      ensures Tally(minY', visited', waste')
           == Visit(Tally(minY, visited, waste), Point(node.x, node.y), Point(node.next.x, node.next.y), x0, width)
    {
      hide Area;
      minY', visited', waste' := minY, visited, waste;
      if node.y > minY' {
        waste' := waste' + Area(visited', node.y - minY');
        minY' := node.y;
        if node.x < x0 {
          visited' := visited' + node.next.x - x0;
        } else {
          visited' := visited' + node.next.x - node.x;
        }
      } else {
        var under := node.next.x - node.x;
        if under + visited' > width {
          under := width - visited';
        }
        waste' := waste' + Area(under, minY' - node.y);
        visited' := visited' + under;
      }
    }

    // ----- finding a position -----

    /** Try each node as the left edge of a rectangle of width `r`. */
    method ScanLeft(r: int, h: int, ghost p: Packer, ghost nodes: seq<Node>)
      returns (best: Link, ghost b: nat, ghost bestX: int, bestY: int, bestWaste: int, ghost seen: set<int>)
      requires Shows(p, nodes) && Packing.Valid(p) && |nodes| == |p.sky| && 1 <= r <= p.width && 1 <= h <= p.height
      ensures Remembers(p, nodes, r, h, seen, best, bestX, bestY, bestWaste)
      ensures HasLeftEdges(p, r, seen)
      ensures best != NoLink ==> b < |nodes| && LinkTo(nodes, best, b) && bestX == p.sky[b].x
      ensures best == NoLink ==> bestX == 0
    {
      hide Ascending, IsTop, Remembers, HasLeftEdges, Shows;
      ghost var k := 0;
      b := 0;
      bestWaste, bestX, bestY := 0x4000_0000, 0, 0x4000_0000;
      best, seen := NoLink, {};
      var node := activeHead;
      var prev := Head;
      NothingSeen(p, nodes, r, h);
      Look(p, nodes, 0);
      while node.x + r <= width
        invariant Shows(p, nodes)
        invariant k < |nodes| && node == nodes[k] && node.x == p.sky[k].x && LinkTo(nodes, prev, k)
        invariant Remembers(p, nodes, r, h, seen, best, bestX, bestY, bestWaste)
        invariant forall j :: 0 <= j < k ==> p.sky[j].x in seen
        invariant forall s :: s in seen ==> s < p.sky[k].x
        invariant best != NoLink ==> b < |nodes| && LinkTo(nodes, best, b) && bestX == p.sky[b].x
        invariant best == NoLink ==> bestX == 0
        decreases |nodes| - k
      {
        assert k + 1 < |nodes|;
        Look(p, nodes, k);
        Look(p, nodes, k + 1);
        NodeFacts(p, k, r);
        var y, waste := FindMinY(node, node.x, r, p, nodes, k);
        var take := false;
        if !bestFit {
          // bottom left
          if y < bestY {
            take := true;
          }
        } else {
          // best-fit: only usable if it fits vertically
          if y + h <= height {
            if y < bestY || (y == bestY && waste < bestWaste) {
              take := true;
            }
          }
        }
        TakeLeft(p, nodes, r, h, seen, best, bestX, bestY, bestWaste, k, prev, y, waste, take);
        if take {
          bestY := y;
          best := prev;
          if bestFit {
            bestWaste := waste;
          }
        }
        b, bestX := if take then k else b, if take then p.sky[k].x else bestX;
        seen := seen + {p.sky[k].x};
        prev := Next(node);
        node := node.next;
        k := k + 1;
      }
      LeftEdgesDone(p, r, seen, k);
    }

    /** Try each node as the right edge of a rectangle of width `r`. */
    method ScanRight(r: int, h: int, ghost p: Packer, ghost nodes: seq<Node>, ghost seen0: set<int>,
                     best0: Link, bestX0: int, bestY0: int, bestWaste0: int)
      returns (best: Link, bestX: int, bestY: int, bestWaste: int, ghost seen: set<int>)
      requires Shows(p, nodes) && Packing.Valid(p) && |nodes| == |p.sky| && p.bestFit
      requires 1 <= r <= p.width && 1 <= h <= p.height
      requires Remembers(p, nodes, r, h, seen0, best0, bestX0, bestY0, bestWaste0)
      requires best0 == NoLink ==> bestX0 == 0
      ensures Remembers(p, nodes, r, h, seen, best, bestX, bestY, bestWaste)
      ensures seen0 <= seen && HasRightEdges(p, r, seen)
    {
      hide Ascending, IsTop, Remembers, HasRightEdges, SeenRight, Shows;
      best, bestX, bestY, bestWaste, seen := best0, bestX0, bestY0, bestWaste0, seen0;
      ghost var t: nat, q: nat;
      var tail;
      tail, t := FirstAdmissible(r, p, nodes, seen);
      q := 0;
      var node := activeHead;
      var prev := Head;
      Look(p, nodes, 0);
      while tail != null
        invariant Shows(p, nodes)
        invariant t <= |nodes| && tail == if t < |nodes| then nodes[t] else null
        invariant q + 1 < |nodes| && node == nodes[q] && LinkTo(nodes, prev, q)
        invariant t < |nodes| ==> p.sky[q].x + r <= p.sky[t].x
        invariant prev != NoLink && seen0 <= seen && (best == NoLink ==> bestX == 0)
        invariant Remembers(p, nodes, r, h, seen, best, bestX, bestY, bestWaste)
        invariant SeenRight(p, r, seen, t)
        decreases |nodes| - t
      {
        var xpos := tail.x - r;
        assert p.sky[t].x == tail.x by { Look(p, nodes, t); }
        Increasing(p, t, |nodes| - 1);
        Increasing(p, 0, q);
        // find the left position that matches this
        prev, node, q := Advance(p, nodes, prev, node, q, xpos);
        var y, waste := FindMinY(node, xpos, r, p, nodes, q);
        assert height == p.height by { Look(p, nodes, t); }
        var take := false;
        if y + h <= height {
          if y <= bestY {
            if y < bestY || waste < bestWaste || (waste == bestWaste && xpos < bestX) {
              take := true;
            }
          }
        }
        TakeRight(p, nodes, r, h, seen, best, bestX, bestY, bestWaste, t, q, xpos, prev, y, waste, take);
        if take {
          bestX := xpos;
          bestY := y;
          bestWaste := waste;
          best := prev;
        }
        seen := seen + {xpos};
        if t + 1 < |nodes| {
          Increasing(p, t, t + 1);
        }
        assert tail.next == (if t + 1 < |nodes| then nodes[t + 1] else null) by { Look(p, nodes, t); }
        tail := tail.next;
        t := t + 1;
      }
      RightEdgesDone(p, r, seen);
    }

    /** The first node whose right-aligned rectangle starts inside the bin. */
    method FirstAdmissible(r: int, ghost p: Packer, ghost nodes: seq<Node>, ghost seen: set<int>)
      returns (tail: Node?, ghost t: nat)
      requires Shows(p, nodes) && Packing.Valid(p) && |nodes| == |p.sky| && 1 <= r <= p.width
      ensures t < |nodes| && tail == nodes[t] && r <= p.sky[t].x
      ensures SeenRight(p, r, seen, t)
    {
      hide Ascending, Shows;
      t := 0;
      tail := activeHead;
      Look(p, nodes, 0);
      while tail.x < r
        invariant t < |nodes| && tail == nodes[t] && tail.x == p.sky[t].x
        invariant SeenRight(p, r, seen, t)
        decreases |nodes| - t
      {
        assert t + 1 < |nodes|;
        Look(p, nodes, t);
        Look(p, nodes, t + 1);
        tail := tail.next;
        t := t + 1;
      }
    }

    /** Move on to the node whose segment holds column `x`. */
    method Advance(ghost p: Packer, ghost nodes: seq<Node>, prev0: Link, node0: Node, ghost q0: nat, x: int)
      returns (prev: Link, node: Node, ghost q: nat)
      requires Shows(p, nodes) && Packing.Valid(p) && |nodes| == |p.sky|
      requires q0 + 1 < |nodes| && node0 == nodes[q0]
      requires LinkTo(nodes, prev0, q0) && prev0 != NoLink && p.sky[q0].x <= x < p.width
      ensures q + 1 < |nodes| && node == nodes[q] && LinkTo(nodes, prev, q) && prev != NoLink
      ensures p.sky[q].x <= x < p.sky[q + 1].x
    {
      hide Ascending, Shows;
      prev, node, q := prev0, node0, q0;
      Look(p, nodes, q);
      Look(p, nodes, q + 1);
      while node.next.x <= x
        invariant q + 1 < |nodes| && node == nodes[q] && LinkTo(nodes, prev, q) && prev != NoLink
        invariant node.next == nodes[q + 1] && p.sky[q].x <= x && node.next.x == p.sky[q + 1].x
        decreases |nodes| - q
      {
        assert q + 2 < |nodes|;
        Look(p, nodes, q + 1);
        Look(p, nodes, q + 2);
        prev := Next(node);
        node := node.next;
        q := q + 1;
      }
    }

    /** The position the heuristic prefers, over all columns for bottom-left and
        over all columns with an edge at a node for best-fit. */
    method FindBestPos(w: int, h: int, ghost p: Packer, ghost nodes: seq<Node>) returns (fr: FindResult)
      requires Shows(p, nodes) && Packing.Valid(p) && |nodes| == |p.sky| && 1 <= w && 1 <= h
      ensures Finds(p, nodes, RoundUp(w, align), h, fr)
    {
      hide Remembers, HasLeftEdges, HasRightEdges, Finds, HasRoom, LinkTo, Shows, RoundUp;
      Look(p, nodes, 0);
      var r := Quantise(w, align);
      if r > width || h > height {
        NothingFound(p, nodes, r, h);
        fr := FindResult(0, 0, NoLink);
      } else {
        ghost var b, left, seen;
        var best, bestY, bestWaste;
        best, b, left, bestY, bestWaste, seen := ScanLeft(r, h, p, nodes);
        var bestX := 0;
        if best != NoLink {
          var target := Target(best, p, nodes, b);
          bestX := target.x;
        }
        ghost var edges := seen;
        if bestFit {
          best, bestX, bestY, bestWaste, seen := ScanRight(r, h, p, nodes, seen, best, bestX, bestY, bestWaste);
        }
        SearchDone(p, nodes, r, h, seen, edges, best, bestX, bestY, bestWaste);
        fr := FindResult(bestX, bestY, best);
      }
    }

    /** The width, aligned to a multiple of `align`. */
    static method Quantise(w: int, align: int) returns (r: int)
      requires 1 <= align
      ensures r == RoundUp(w, align)
    {
      r := w + align - 1;
      r := r - r % align;
    }

    /** The node a link points to. */
    method Target(link: Link, ghost p: Packer, ghost nodes: seq<Node>, ghost i: nat) returns (n: Node)
      requires Shows(p, nodes) && i < |nodes| && LinkTo(nodes, link, i)
      ensures n == nodes[i] && |nodes| == |p.sky| && n.x == p.sky[i].x
    {
      if link == Head {
        n := activeHead;
      } else {
        assert link.node == nodes[i - 1] && nodes[i - 1].next == nodes[i];
        n := link.node.next;
      }
    }

    // ----- packing -----

    /** Move a node to the free list. */
    method PushFree(node: Node, ghost freed: seq<Node>)
      requires Chained(freeHead, freed) && node !in freed
      modifies `freeHead, node`next
      ensures freeHead == node && Chained(freeHead, [node] + freed)
    {
      hide Chained;
      node.next := freeHead;
      ChainedCons(node, freed);
      freeHead := node;
    }

    /** From `start` on, move each node whose successor starts no later than
        `limit` to the free list, and return the first one that stays. */
    method FreeCovered(start: Node, limit: int, ghost tail: seq<Node>, ghost rest: seq<Node>)
      returns (cur: Node, ghost m: nat)
      requires tail != [] && Chained(start, tail) && Chained(freeHead, rest)
      requires Distinct(tail) && Separate(tail, rest)
      modifies `freeHead, tail`next
      ensures m < |tail| && cur == tail[m]
      ensures forall j :: 0 < j <= m ==> tail[j].x <= limit
      ensures m + 1 < |tail| ==> limit < tail[m + 1].x
      ensures Chained(cur, tail[m..]) && Chained(freeHead, Freed(tail, m, rest))
    {
      hide Chained, Distinct, Separate, Freed;
      cur, m := start, 0;
      assert Freed(tail, 0, rest) == rest;
      assert tail[0..] == tail;
      ChainedTail(cur, tail);
      while cur.next != null && cur.next.x <= limit
        invariant m < |tail| && cur == tail[m]
        invariant forall j :: 0 < j <= m ==> tail[j].x <= limit
        invariant cur.next == if m + 1 < |tail| then tail[m + 1] else null
        invariant Chained(cur, tail[m..]) && Chained(freeHead, Freed(tail, m, rest))
        decreases |tail| - m
      {
        ghost var freed := Freed(tail, m, rest);
        Push(tail, m, rest);
        ChainedTail(cur, tail[m..]);
        var next := cur.next;
        PushFree(cur, freed);
        cur := next;
        m := m + 1;
        ChainedTail(cur, tail[m..]);
      }
    }

    /** Take a node from the free list. */
    method TakeNode(x: int, y: int, ghost p: Packer, ghost nodes: seq<Node>) returns (node: Node)
      requires free != [] && Shows(p, nodes) && free[0] !in nodes && Chained(freeHead, free) && Distinct(free)
      modifies `freeHead, free[0]
      ensures node == free[0] && node.x == x && node.y == y
      ensures Chained(freeHead, free[1..]) && Shows(p, nodes)
    {
      hide Chained, Shows;
      Unfold(p, nodes);
      ChainedTail(freeHead, free);
      node := freeHead;
      node.x := x;
      node.y := y;
      freeHead := node.next;
    }

    /** Put `node` behind the link, or behind the node it points to if that one
        starts left of `x`.  `cur` is what follows. */
    method LinkNode(link: Link, node: Node, x: int, ghost p: Packer, ghost nodes: seq<Node>, ghost i: nat, ghost k: nat,
                    ghost rest: seq<Node>)
      returns (cur: Node)
      requires Shows(p, nodes) && |nodes| == |p.sky| && i + 1 < |nodes| && LinkTo(nodes, link, i)
      requires link != NoLink && Distinct(nodes) && Separate(nodes, rest) && Chained(freeHead, rest)
      requires k == if p.sky[i].x < x then i + 1 else i
      modifies `activeHead, nodes`next
      ensures LeadsTo(activeHead, nodes[..k], node) && Chained(cur, nodes[k..]) && Chained(freeHead, rest)
    {
      hide Chained, LeadsTo, Distinct, Separate, Cuttable, Shows;
      cur := Target(link, p, nodes, i);
      Look(p, nodes, i);
      if 0 < k {
        CanCut(p, nodes, k, rest);
      }
      if cur.x < x {
        // preserve the existing one, so start testing with the next one
        var next := cur.next;
        Redirect(cur, node, nodes[..k - 1], nodes[..k], nodes[k..], rest);
        cur := next;
      } else if link == Head {
        Unfold(p, nodes);
        ChainedSplit(activeHead, nodes, 0);
        activeHead := node;
        LeadsToSelf(node);
        assert nodes[..k] == [];
      } else {
        Redirect(link.node, node, nodes[..k - 1], nodes[..k], nodes[k..], rest);
      }
    }

    lemma Unfold(p: Packer, nodes: seq<Node>)
      requires Shows(p, nodes)
      ensures Chained(activeHead, nodes) && active == nodes && Points(nodes) == p.sky && |nodes| == |p.sky|
    {
    }

    /** A run of nodes that can be cut off behind its last node. */
    ghost predicate Cuttable(last: Node, front: seq<Node>, run: seq<Node>, back: seq<Node>, rest: seq<Node>)
      reads `activeHead, `freeHead, front`next, back`next, rest`next
    {
      && run == front + [last] && back != [] && last !in front && last !in back && last !in rest
      && LeadsTo(activeHead, front, last) && Chained(back[0], back) && Chained(freeHead, rest)
    }

    lemma CanCut(p: Packer, nodes: seq<Node>, k: nat, rest: seq<Node>)
      requires Shows(p, nodes) && 0 < k < |nodes| && Distinct(nodes) && Separate(nodes, rest) && Chained(freeHead, rest)
      ensures Cuttable(nodes[k - 1], nodes[..k - 1], nodes[..k], nodes[k..], rest)
    {
      hide Chained, LeadsTo, Distinct, Separate;
      Unfold(p, nodes);
      ChainedSplit(activeHead, nodes, k);
      ChainedSplit(activeHead, nodes, k - 1);
      OnlyOnce(nodes, k, rest);
    }

    /** Let the last node of a run continue with `node`. */
    method Redirect(last: Node, node: Node, ghost front: seq<Node>, ghost run: seq<Node>,
                    ghost back: seq<Node>, ghost rest: seq<Node>)
      requires Cuttable(last, front, run, back, rest)
      modifies last`next
      ensures LeadsTo(activeHead, run, node) && Chained(back[0], back) && Chained(freeHead, rest)
    {
      hide Chained, LeadsTo;
      last.next := node;
      LeadsToSnoc(activeHead, front, last, node);
    }

    /** Put a node of height `top` into the skyline at column `x`, and free the
        nodes that the `w` columns from there cover. */
    method Insert(x: int, w: int, top: int, link: Link, ghost p: Packer, ghost i: nat)
      requires Lists() && Shows(p, active) && free != [] && link != NoLink
      requires |p.sky| > 0 && p.sky[0].x <= x < p.sky[|p.sky| - 1].x
      requires i == Seg(p.sky, x) && i + 1 < |p.sky| && LinkTo(active, link, i)
      modifies `activeHead, `freeHead, `active, `free, active, free
      ensures Lists() && Points(active) == Raise(p.sky, x, w, top)
    {
      hide Chained, LeadsTo, Distinct, Separate, Raise, Freed, Relinked, Points, Shows, Among;
      hide Rejoined, Insertable, Opened;
      Unfold(p, active);
      ghost var nodes, rest, k := active, free[1..], Kept(p.sky, x);
      ghost var front, tail := nodes[..k], nodes[k..];
      OpenedAt(p, nodes, free, pool, numNodes, k, x);
      var node;
      ghost var m;
      node, m := Rewire(x, w, top, link, p, i, nodes, front, tail, rest);
      Inserted(p, nodes, front, tail, rest, k, m, node, x, w, top);
    }

    /** The changes to the nodes. */
    method Rewire(x: int, w: int, top: int, link: Link, ghost p: Packer, ghost i: nat,
                  ghost nodes: seq<Node>, ghost front: seq<Node>, ghost tail: seq<Node>, ghost rest: seq<Node>)
      returns (node: Node, ghost m: nat)
      requires Shows(p, nodes) && Chained(freeHead, free) && free != [] && Distinct(free) && rest == free[1..]
      requires |nodes| == |p.sky| && i + 1 < |nodes| && LinkTo(nodes, link, i) && link != NoLink
      requires free[0] !in nodes && Distinct(nodes) && Separate(nodes, rest)
      requires front == nodes[..(if p.sky[i].x < x then i + 1 else i)]
      requires tail == nodes[if p.sky[i].x < x then i + 1 else i..]
      requires Insertable(free[0], front, tail, rest)
      modifies `activeHead, `freeHead, nodes, free[0]
      ensures node == free[0] && node.x == x && node.y == top
      ensures Rejoined(node, x + w, front, tail, rest, p.sky[|front|..], m) && Points(front) == p.sky[..|front|]
    {
      hide Chained, LeadsTo, Distinct, Separate, Points, Shows, Rejoined, Insertable;
      var cur;
      node, cur := Attach(x, top, link, p, i, nodes, front, tail, rest);
      assert forall o: object :: o in tail ==> o in nodes;
      m := ReplaceCovered(cur, node, x + w, front, tail, rest, p.sky[|front|..]);
    }

    /** Create the new node and link it in.  `cur` is what follows. */
    method Attach(x: int, top: int, link: Link, ghost p: Packer, ghost i: nat,
                  ghost nodes: seq<Node>, ghost front: seq<Node>, ghost tail: seq<Node>, ghost rest: seq<Node>)
      returns (node: Node, cur: Node)
      requires Shows(p, nodes) && Chained(freeHead, free) && free != [] && Distinct(free) && rest == free[1..]
      requires |nodes| == |p.sky| && i + 1 < |nodes| && LinkTo(nodes, link, i) && link != NoLink
      requires free[0] !in nodes && Distinct(nodes) && Separate(nodes, rest)
      requires front == nodes[..(if p.sky[i].x < x then i + 1 else i)]
      requires tail == nodes[if p.sky[i].x < x then i + 1 else i..]
      modifies `activeHead, `freeHead, nodes`next, free[0]
      ensures node == free[0] && node.x == x && node.y == top
      ensures LeadsTo(activeHead, front, node) && Chained(cur, tail) && Chained(freeHead, rest)
      ensures Points(front) == p.sky[..|front|] && Points(tail) == p.sky[|front|..]
    {
      hide Chained, LeadsTo, Distinct, Separate, Points, Shows;
      node := TakeNode(x, top, p, nodes);
      Unfold(p, nodes);
      PointsSlice(nodes, |front|);
      cur := LinkNode(link, node, x, p, nodes, i, |front|, rest);
    }

    /** The two lists change hands. */
    ghost method Inserted(p: Packer, nodes: seq<Node>, front: seq<Node>, tail: seq<Node>, rest: seq<Node>,
                          k: nat, m: nat, node: Node, x: int, w: int, top: int)
      requires Opened(p, nodes, front, tail, rest, pool, numNodes, k, node, x)
      requires Rejoined(node, x + w, front, tail, rest, p.sky[k..], m)
      requires node.x == x && node.y == top && Points(front) == p.sky[..k]
      modifies `active, `free
      ensures Lists() && Points(active) == Raise(p.sky, x, w, top)
    {
      hide Chained, Distinct, Separate, Raise, Freed, Relinked, Points, Among;
      RelinkedApart(nodes, k, m, node, rest, pool);
      RaisedPoints(p.sky, front, tail, k, m, node, x, w, top);
      active, free := Relinked(nodes, k, m, node), Freed(tail, m, rest);
    }

    /** `node` has replaced the first `m` nodes of `tail`, those the columns up to
        `limit` cover, which are free now. */
    ghost predicate Rejoined(node: Node, limit: int, front: seq<Node>, tail: seq<Node>, rest: seq<Node>,
                             pts: seq<Point>, m: nat)
      reads `activeHead, `freeHead, node`next, front`next, tail`next, rest`next, tail`x, tail`y
    {
      && m < |tail| == |pts|
      && (forall j :: 0 < j <= m ==> pts[j].x <= limit) && (m + 1 < |tail| ==> limit < pts[m + 1].x)
      && Chained(activeHead, front + ([node] + tail[m..])) && Chained(freeHead, Freed(tail, m, rest))
      && Points(tail) == pts[m := Point(Max(pts[m].x, limit), pts[m].y)]
    }

    /** Let the list run from `node` to the first node of `tail` that the columns
        up to `limit` do not cover, and free the ones before. */
    method ReplaceCovered(start: Node, node: Node, limit: int,
                          ghost front: seq<Node>, ghost tail: seq<Node>, ghost rest: seq<Node>, ghost pts: seq<Point>)
      returns (ghost m: nat)
      requires Points(tail) == pts
      requires LeadsTo(activeHead, front, node)
      requires Chained(start, tail) && Chained(freeHead, rest) && Insertable(node, front, tail, rest)
      modifies `freeHead, tail`next, node`next, tail`x
      ensures Rejoined(node, limit, front, tail, rest, pts, m)
      ensures Points(front) == old(Points(front)) && node.x == old(node.x) && node.y == old(node.y)
    {
      hide Chained, LeadsTo, Separate, Points, Freed, Rejoined;
      var cur;
      cur, m := FreeCovered(start, limit, tail, rest);
      forall j | 0 <= j < |front|
        ensures front[j].next == old(front[j].next)
      {
        assert front[j] in front;
      }
      assert LeadsTo(activeHead, front, node);
      assert forall j :: 0 <= j < |tail| ==> Points(tail)[j] == pts[j];
      Stitch(node, cur, limit, front, tail, rest, pts, m);
      forall j | 0 <= j < |front|
        ensures front[j].x == old(front[j].x)
      {
        assert front[j] in front;
      }
    }

    /** Stitch the list back in. */
    method Stitch(node: Node, cur: Node, limit: int, ghost front: seq<Node>, ghost tail: seq<Node>,
                  ghost rest: seq<Node>, ghost pts: seq<Point>, ghost m: nat)
      requires LeadsTo(activeHead, front, node) && m < |tail| && cur == tail[m]
      requires Chained(cur, tail[m..]) && Chained(freeHead, Freed(tail, m, rest))
      requires Distinct(tail) && node !in front && node !in tail && node !in rest && Points(tail) == pts
      requires forall j :: 0 < j <= m ==> pts[j].x <= limit
      requires m + 1 < |tail| ==> limit < pts[m + 1].x
      modifies node`next, cur`x
      ensures Rejoined(node, limit, front, tail, rest, pts, m)
    {
      hide Chained, LeadsTo, Points, Freed;
      NotFreed(tail, m, rest, node);
      ghost var back := tail[m..];
      node.next := cur;
      ChainedCons(node, back);
      ChainedConcat(activeHead, front, node, [node] + back);
      if cur.x < limit {
        cur.x := limit;
      }
    }

    /** Pack one non-empty rectangle. */
    method PackRectangle(w: int, h: int) returns (fr: FindResult)
      requires Valid() && 1 <= w && 1 <= h
      modifies `activeHead, `freeHead, `active, `free, `boxes, active, free
      ensures Valid()
      ensures Packs(old(State()), w, h, State(), Outcome(fr, w, h))
      ensures boxes == old(boxes) + Placed(Outcome(fr, w, h))
    {
      hide Safe, Lists, Shows, Finds, HasRoom, Chosen, Raise, RoundUp, LinkTo, Packing.Valid, Places, HasStorage;
      ghost var p := State();
      Showing(p);
      // find best position according to heuristic
      fr := FindBestPos(w, h, p, active);
      FindsDecides(p, active, RoundUp(w, p.align), h, fr);
      // bail if it failed, if the best node doesn't fit, or if out of memory
      if fr.link == NoLink || fr.y + h > height || freeHead == null {
        fr := fr.(link := NoLink);
      } else {
        Place(fr, w, h, RoundUp(w, p.align), p);
      }
    }

    /** Put the rectangle where the search found a position for it. */
    method Place(fr: FindResult, w: int, h: int, ghost r: int, ghost p: Packer)
      requires Valid() && p == State() && free != [] && CanPlace(p, w, r, h, fr)
      requires fr.link != NoLink && LinkTo(active, fr.link, Seg(p.sky, fr.x))
      modifies `activeHead, `freeHead, `active, `free, `boxes, active, free
      ensures Valid() && Places(p, w, r, h, State(), Box(fr.x, fr.y, w, h))
      ensures boxes == old(boxes) + [Box(fr.x, fr.y, w, h)]
    {
      hide Safe, Lists, Shows, CanPlace, Raise, LinkTo, Packing.Valid, Places, Rest, State;
      Showing(p);
      Tuning(p);
      Placing(p, boxes, w, r, h, fr);
      InsertFacts(p, fr.x, w);
      Insert(fr.x, w, fr.y + h, fr.link, p, Seg(p.sky, fr.x));
      boxes := boxes + [Box(fr.x, fr.y, w, h)];
      StateIs(p, Raise(p.sky, fr.x, w, fr.y + h));
    }

    lemma Tuning(p: Packer)
      requires p == State()
      ensures width == p.width && height == p.height && align == p.align && bestFit == p.bestFit && numNodes == p.nodes
    {
    }

    lemma StateIs(p: Packer, sky: seq<Point>)
      requires width == p.width && height == p.height && align == p.align && bestFit == p.bestFit && numNodes == p.nodes
      requires Points(active) == sky
      ensures State() == p.(sky := sky)
    {
    }

    lemma InPool()
      requires Valid()
      ensures (forall i :: 0 <= i < |active| ==> active[i] in pool) && (forall i :: 0 <= i < |free| ==> free[i] in pool)
    {
      hide Safe, Chained;
    }

    lemma Showing(p: Packer)
      requires Valid() && p == State()
      ensures Shows(p, active) && Packing.Valid(p) && |active| == |p.sky|
      ensures freeHead == null <==> free == []
      ensures free == [] <==> !HasStorage(p)
    {
    }
  }

  /** The search has found a position, and there is a node for the rectangle. */
  ghost predicate CanPlace(p: Packer, w: int, r: int, h: int, fr: FindResult) {
    && Packing.Valid(p) && 1 <= w <= r && 1 <= h && HasRoom(p, r, h) && HasStorage(p)
    && 0 <= fr.x <= p.width - r && |p.sky| > 0 && p.sky[0].x == 0 && p.sky[|p.sky| - 1].x == p.width
    && fr.y == Rest(p.sky, fr.x, r) && Chosen(p, r, h, fr.x)
  }

  lemma Placing(p: Packer, boxes: seq<Box>, w: int, r: int, h: int, fr: FindResult)
    requires Safe(p, boxes) && CanPlace(p, w, r, h, fr)
    ensures Packing.Valid(p) && 1 <= w <= r && 0 <= fr.x && fr.x + w <= p.width
    ensures |p.sky| > 0 && p.sky[0].x == 0 && p.sky[|p.sky| - 1].x == p.width
    ensures var (p', b) := (p.(sky := Raise(p.sky, fr.x, w, fr.y + h)), Box(fr.x, fr.y, w, h));
      Places(p, w, r, h, p', b) && Safe(p', boxes + [b])
  {
    hide Safe, HasRoom, Chosen, Raise, Packing.Valid, HasStorage, Rest;
    var (p', b) := (p.(sky := Raise(p.sky, fr.x, w, fr.y + h)), Box(fr.x, fr.y, w, h));
    SafePlaces(p, boxes, w, r, h, p', b);
  }

  /** What a find result means for a `w` by `h` rectangle. */
  function Outcome(fr: FindResult, w: int, h: int): Option<Box> {
    if fr.link == NoLink then None else Some(Box(fr.x, fr.y, w, h))
  }

  lemma NotFreed(tail: seq<Node>, m: nat, rest: seq<Node>, node: Node)
    requires m <= |tail| && node !in tail && node !in rest
    ensures node !in Freed(tail, m, rest) && node !in tail[m..]
  {
  }

  lemma LeadsToSelf(node: Node)
    ensures LeadsTo(node, [], node)
  {
  }

  lemma OnlyOnce(nodes: seq<Node>, k: nat, rest: seq<Node>)
    requires 0 < k <= |nodes| && Distinct(nodes) && Separate(nodes, rest)
    ensures nodes[k - 1] !in rest && nodes[k - 1] !in nodes[..k - 1] && nodes[k - 1] !in nodes[k..]
    ensures nodes[..k] == nodes[..k - 1] + [nodes[k - 1]]
  {
  }

  /** The active list `nodes` is opened before its k-th node, for a node from the
      free list; `rest` stays free. */
  ghost predicate Opened(p: Packer, nodes: seq<Node>, front: seq<Node>, tail: seq<Node>, rest: seq<Node>,
                         pool: seq<Node>, n: int, k: nat, node: Node, x: int)
  {
    && k < |nodes| == |p.sky| && front == nodes[..k] && tail == nodes[k..]
    && Distinct(nodes) && Distinct(rest) && Separate(nodes, rest) && node !in nodes && node !in rest
    && Among(nodes, pool) && Among(rest, pool) && node in pool && |nodes| + 1 + |rest| == n + 2
    && p.sky[0].x <= x < p.sky[|p.sky| - 1].x && k == Kept(p.sky, x)
  }

  lemma OpenedAt(p: Packer, nodes: seq<Node>, free: seq<Node>, pool: seq<Node>, n: int, k: nat, x: int)
    requires |nodes| == |p.sky| && k < |nodes| && |nodes| + |free| == n + 2 && free != []
    requires Distinct(nodes) && Distinct(free) && Separate(nodes, free) && Among(nodes, pool) && Among(free, pool)
    requires p.sky[0].x <= x < p.sky[|p.sky| - 1].x && k == Kept(p.sky, x)
    ensures Opened(p, nodes, nodes[..k], nodes[k..], free[1..], pool, n, k, free[0], x)
    ensures Insertable(free[0], nodes[..k], nodes[k..], free[1..])
    ensures Separate(nodes, free[1..]) && free[0] !in nodes && |nodes[..k]| == k
    ensures forall n :: n in nodes[k..] ==> n in nodes
  {
    NodeIsNew(nodes, free, pool);
    TailFacts(nodes, k, free[1..], free[0]);
  }

  lemma NodeIsNew(nodes: seq<Node>, free: seq<Node>, pool: seq<Node>)
    requires Distinct(free) && Separate(nodes, free) && Among(free, pool) && free != []
    ensures free[0] in pool && Among(free[1..], pool)
    ensures free[0] !in nodes && free[0] !in free[1..]
    ensures Distinct(free[1..]) && Separate(nodes, free[1..])
  {
  }

  /** The node can go between `front` and `tail`; all lists are separate. */
  ghost predicate Insertable(node: Node, front: seq<Node>, tail: seq<Node>, rest: seq<Node>) {
    && tail != [] && Distinct(tail) && Separate(tail, rest)
    && (forall n :: n in front ==> n !in tail)
    && node !in front && node !in tail && node !in rest
  }

  lemma TailFacts(nodes: seq<Node>, k: nat, rest: seq<Node>, node: Node)
    requires k < |nodes| && Distinct(nodes) && Separate(nodes, rest) && node !in nodes && node !in rest
    ensures Insertable(node, nodes[..k], nodes[k..], rest)
    ensures forall i :: 0 <= i < |nodes[k..]| ==> nodes[k..][i] in nodes
  {
  }

  /** The lists after an insertion are free of repetitions, and hold what the
      lists before held. */
  lemma RelinkedApart(nodes: seq<Node>, k: nat, m: nat, node: Node, rest: seq<Node>, pool: seq<Node>)
    requires k + m < |nodes| && Distinct(nodes) && Distinct(rest) && Separate(nodes, rest)
    requires node !in nodes && node !in rest
    requires Among(nodes, pool) && Among(rest, pool) && node in pool
    ensures var (a, f) := (Relinked(nodes, k, m, node), Freed(nodes[k..], m, rest));
      && a == nodes[..k] + ([node] + nodes[k..][m..])
      && Distinct(a) && Distinct(f) && Separate(a, f)
      && node !in nodes[..k] && node !in nodes[k..][m..] && node !in f
      && |a| + |f| == |nodes| + 1 + |rest|
      && Among(a, pool) && Among(f, pool)
  {
    hide Separate, Distinct, Among;
    RelinkedAmong(nodes, k, m, node, rest, pool);
    TailFacts(nodes, k, rest, node);
    RelinkedDistinct(nodes, k, m, node);
    FreedDistinct(nodes[k..], m, rest);
    ListsSeparate(nodes, k, m, node, rest);
  }

  lemma InsertFacts(p: Packer, x: int, w: int)
    requires Packing.Valid(p) && 0 <= x && 1 <= w && x + w <= p.width
    ensures |p.sky| > 0 && p.sky[0].x <= x < p.sky[|p.sky| - 1].x && Seg(p.sky, x) + 1 < |p.sky|
  {
  }

  lemma RelinkedAmong(nodes: seq<Node>, k: nat, m: nat, node: Node, rest: seq<Node>, pool: seq<Node>)
    requires k + m < |nodes| && Among(nodes, pool) && Among(rest, pool) && node in pool
    ensures Among(Relinked(nodes, k, m, node), pool) && Among(Freed(nodes[k..], m, rest), pool)
  {
  }

  lemma PointsSlice(nodes: seq<Node>, k: nat)
    requires k <= |nodes|
    ensures Points(nodes[..k]) == Points(nodes)[..k] && Points(nodes[k..]) == Points(nodes)[k..]
  {
    hide Points;
  }

  lemma PointsConcat(a: seq<Node>, b: seq<Node>)
    ensures Points(a + b) == Points(a) + Points(b)
  {
    hide Points;
  }

  lemma CutAt(sky: seq<Point>, k: nat, m: nat, limit: int)
    requires k + m < |sky|
    requires forall j :: 0 < j <= m ==> sky[k..][j].x <= limit
    requires k + m + 1 < |sky| ==> limit < sky[k..][m + 1].x
    ensures Cut(sky, k, limit) == k + m
  {
    var back := sky[k..];
    forall n | k < n <= k + m
      ensures sky[n].x <= limit
    {
      assert back[n - k] == sky[n];
    }
    CutUnique(sky, k, limit, k + m);
  }

  lemma SpliceIs(sky: seq<Point>, k: nat, m: nat, x: int, e: int, top: int)
    requires k + m < |sky|
    ensures var back := sky[k..][m := Point(e, sky[k + m].y)];
      sky[..k] + ([Point(x, top)] + back[m..]) == Splice(sky, k, k + m, x, e, top)
  {
    var back := sky[k..][m := Point(e, sky[k + m].y)];
    assert back[m..] == [Point(e, sky[k + m].y)] + sky[k + m + 1..];
  }

  /** The linked nodes show the skyline raised. */
  lemma RaisedPoints(sky: seq<Point>, front: seq<Node>, tail: seq<Node>, k: nat, m: nat, node: Node,
                     x: int, w: int, top: int)
    requires m < |tail| && |sky| == k + |tail| && sky[0].x <= x < sky[|sky| - 1].x && k == Kept(sky, x)
    requires forall j :: 0 < j <= m ==> sky[k..][j].x <= x + w
    requires k + m + 1 < |sky| ==> x + w < sky[k..][m + 1].x
    requires node.x == x && node.y == top && Points(front) == sky[..k]
    requires Points(tail) == sky[k..][m := Point(Max(sky[k + m].x, x + w), sky[k + m].y)]
    ensures Points(front + ([node] + tail[m..])) == Raise(sky, x, w, top)
  {
    hide Points, Kept, Cut, Splice;
    CutAt(sky, k, m, x + w);
    SpliceIs(sky, k, m, x, Max(sky[k + m].x, x + w), top);
    PointsSlice(tail, m);
    PointsConcat([node], tail[m..]);
    PointsConcat(front, [node] + tail[m..]);
    assert Points([node]) == [Point(x, top)];
  }
}
