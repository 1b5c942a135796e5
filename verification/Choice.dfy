/** Choosing the best of a growing set of candidate columns. */
module Choice {
  import opened Skyline
  import opened Window
  import opened Packing

  ghost predicate InRange(p: Packer, r: int, x: int) {
    0 <= x <= p.width - r
  }

  /** Best-fit only considers columns where the rectangle stays inside the bin;
      bottom-left leaves that check to its caller. */
  ghost predicate Admissible(p: Packer, r: int, h: int, x: int)
    requires Valid(p) && 1 <= r && InRange(p, r, x)
  {
    p.bestFit ==> Rest(p.sky, x, r) + h <= p.height
  }

  /** The heuristic does not prefer `x'` to `x`. */
  ghost predicate Better(p: Packer, r: int, x: int, x': int)
    requires Valid(p) && 1 <= r && InRange(p, r, x) && InRange(p, r, x')
  {
    if p.bestFit then NoWorse(p.sky, r, x, x')
    else Rest(p.sky, x, r) < Rest(p.sky, x', r) || (Rest(p.sky, x, r) == Rest(p.sky, x', r) && x <= x')
  }

  /** `x` is the best admissible column seen, if `found`; otherwise there is none. */
  ghost predicate BestOf(p: Packer, r: int, h: int, seen: set<int>, found: bool, x: int)
    requires Valid(p) && 1 <= r
  {
    && (forall s :: s in seen ==> InRange(p, r, s))
    && (found ==> x in seen && Admissible(p, r, h, x))
    && (forall s :: s in seen && Admissible(p, r, h, s) ==> found && Better(p, r, x, s))
  }

  /** One more candidate, taken over exactly if it is admissible and preferred. */
  lemma Consider(p: Packer, r: int, h: int, seen: set<int>, found: bool, x: int, s: int, take: bool)
    requires Valid(p) && 1 <= r && InRange(p, r, s)
    requires BestOf(p, r, h, seen, found, x)
    requires take ==> Admissible(p, r, h, s) && (found ==> Better(p, r, s, x))
    requires !take ==> (Admissible(p, r, h, s) ==> found && Better(p, r, x, s))
    ensures BestOf(p, r, h, seen + {s}, found || take, if take then s else x)
  {
  }

  ghost predicate HasLeftEdges(p: Packer, r: int, seen: set<int>) {
    forall i :: 0 <= i < |p.sky| && p.sky[i].x + r <= p.width ==> p.sky[i].x in seen
  }

  ghost predicate HasRightEdges(p: Packer, r: int, seen: set<int>) {
    forall i :: 0 <= i < |p.sky| && r <= p.sky[i].x ==> p.sky[i].x - r in seen
  }

  ghost predicate AllAligned(p: Packer, r: int, seen: set<int>) {
    forall s :: s in seen ==> Aligned(p.sky, r, s)
  }

  /** Bottom-left over the node columns is bottom-left over all columns. */
  lemma LeftEdgesSuffice(p: Packer, r: int, h: int, seen: set<int>, found: bool, x: int)
    requires Valid(p) && 1 <= r <= p.width && !p.bestFit
    requires BestOf(p, r, h, seen, found, x) && HasLeftEdges(p, r, seen)
    ensures found && BottomLeft(p, r, x)
  {
    hide Ascending, IsTop;
    assert p.sky[0].x in seen;
    forall x' | 0 <= x' <= p.width - r
      ensures Rest(p.sky, x, r) < Rest(p.sky, x', r) || (Rest(p.sky, x, r) == Rest(p.sky, x', r) && x <= x')
    {
      var left := p.sky[Seg(p.sky, x')].x;
      SlideLeft(p.sky, p.width, p.height, x', r);
      assert left in seen;
      assert Better(p, r, x, left);
    }
  }

  /** Best-fit over all left edges finds a position whenever there is room anywhere. */
  lemma LeftEdgesFind(p: Packer, r: int, h: int, seen: set<int>, found: bool, x: int)
    requires Valid(p) && 1 <= r <= p.width && p.bestFit
    requires BestOf(p, r, h, seen, found, x) && HasLeftEdges(p, r, seen)
    ensures found <==> HasRoom(p, r, h)
  {
    hide Ascending, IsTop, Better;
    forall x' | 0 <= x' <= p.width - r && Rest(p.sky, x', r) + h <= p.height
      ensures found
    {
      var left := p.sky[Seg(p.sky, x')].x;
      SlideLeft(p.sky, p.width, p.height, x', r);
      assert left in seen && Admissible(p, r, h, left);
    }
  }

  /** Best-fit over all left and right edges finds the best position. */
  lemma AllEdgesSuffice(p: Packer, r: int, h: int, seen: set<int>, x: int)
    requires Valid(p) && 1 <= r <= p.width && p.bestFit
    requires BestOf(p, r, h, seen, true, x) && Aligned(p.sky, r, x)
    requires HasLeftEdges(p, r, seen) && HasRightEdges(p, r, seen)
    ensures BestFit(p, r, h, x)
  {
    hide Ascending, IsTop, NoWorse;
    forall x' | FitsAt(p, r, h, x')
      ensures NoWorse(p.sky, r, x, x')
    {
      var n :| 0 <= n < |p.sky| && (p.sky[n].x == x' || p.sky[n].x == x' + r);
      assert x' in seen;
      assert Better(p, r, x, x');
    }
  }

  // ----- a best column exists -----

  /** The columns below `n` that the heuristic considers. */
  ghost function Candidates(p: Packer, r: int, n: nat): set<int> {
    set x | 0 <= x < n && (p.bestFit ==> Aligned(p.sky, r, x))
  }

  lemma BetterTotal(p: Packer, r: int, x: int, x': int)
    requires Valid(p) && 1 <= r && InRange(p, r, x) && InRange(p, r, x')
    ensures Better(p, r, x, x') || Better(p, r, x', x)
  {
  }

  lemma {:induction false} BestCandidate(p: Packer, r: int, h: int, n: nat) returns (found: bool, x: int)
    requires Valid(p) && 1 <= r && n <= p.width - r + 1
    ensures BestOf(p, r, h, Candidates(p, r, n), found, x)
  {
    hide Ascending, Rest, Waste, Aligned;
    if n == 0 {
      return false, 0;
    }
    found, x := BestCandidate(p, r, h, n - 1);
    var s, seen := n - 1, Candidates(p, r, n - 1);
    if p.bestFit && !Aligned(p.sky, r, s) {
      assert Candidates(p, r, n) == seen;
    } else {
      assert Candidates(p, r, n) == seen + {s};
      if found {
        BetterTotal(p, r, x, s);
      }
      var take := Admissible(p, r, h, s) && (found ==> !Better(p, r, x, s));
      Consider(p, r, h, seen, found, x, s, take);
      found, x := found || take, if take then s else x;
    }
  }

  lemma CandidatesEdges(p: Packer, r: int)
    requires Valid(p) && 1 <= r <= p.width
    ensures var seen := Candidates(p, r, p.width - r + 1);
      HasLeftEdges(p, r, seen) && (p.bestFit ==> HasRightEdges(p, r, seen))
  {
    forall i | 0 <= i < |p.sky|
      ensures 0 <= p.sky[i].x <= p.width && Aligned(p.sky, r, p.sky[i].x) && Aligned(p.sky, r, p.sky[i].x - r)
    {
      assert p.sky[0].x <= p.sky[i].x <= p.sky[|p.sky| - 1].x;
    }
  }

  /** Whenever there is room, the heuristic has a column to choose. */
  lemma ChosenExists(p: Packer, r: int, h: int) returns (x: int)
    requires Valid(p) && 1 <= r && HasRoom(p, r, h)
    ensures 0 <= x <= p.width - r && Chosen(p, r, h, x)
  {
    hide WellFormed, Rest, HasLeftEdges, HasRightEdges, Aligned, BestFit, BottomLeft, Better, Admissible;
    var found;
    var seen := Candidates(p, r, p.width - r + 1);
    found, x := BestCandidate(p, r, h, p.width - r + 1);
    CandidatesEdges(p, r);
    if p.bestFit {
      LeftEdgesFind(p, r, h, seen, found, x);
      AllEdgesSuffice(p, r, h, seen, x);
    } else {
      LeftEdgesSuffice(p, r, h, seen, found, x);
    }
  }

  /** Every request has an outcome. */
  lemma PacksTotal(p: Packer, w: int, h: int) returns (p': Packer, out: Option<Box>)
    requires Valid(p) && 1 <= w && 1 <= h
    ensures Packs(p, w, h, p', out)
  {
    hide WellFormed, Rest, Chosen, Raise, HasRoom;
    var r := RoundUp(w, p.align);
    p', out := p, None;
    if HasRoom(p, r, h) && HasStorage(p) {
      var x := ChosenExists(p, r, h);
      Within(p, x);
      var y := Rest(p.sky, x, r);
      p', out := p.(sky := Raise(p.sky, x, w, y + h)), Some(Box(x, y, w, h));
    }
  }

  lemma Within(p: Packer, x: int)
    requires Valid(p) && 0 <= x < p.width
    ensures |p.sky| > 0 && p.sky[0].x <= x < p.sky[|p.sky| - 1].x
  {
  }
}
