/** Packing an array of rectangles: sort, pack in that order, unsort. */
module PackRects {
  import opened Packing
  import opened Runs
  import opened RectPack

  /** The coordinates of a rectangle that could not be packed. */
  const MAXVAL := 0x7fff_ffff

  datatype Rect = Rect(id: int, w: int, h: int, x: int, y: int, wasPacked: int)

  function HeightCompare(p: Rect, q: Rect): int {
    if p.h > q.h then -1
    else if p.h < q.h then 1
    else if p.w > q.w then -1
    else if p.w < q.w then 1
    else 0
  }

  function OriginalOrder(p: Rect, q: Rect): int {
    if p.wasPacked < q.wasPacked then -1
    else if p.wasPacked > q.wasPacked then 1
    else 0
  }

  // ----- sorting -----

  /** Each index below `n` exactly once. */
  ghost predicate Permutation(perm: seq<nat>, n: nat) {
    && |perm| == n
    && (forall i :: 0 <= i < n ==> perm[i] < n)
    && (forall i, j :: 0 <= i < j < n ==> perm[i] != perm[j])
  }

  ghost predicate Rearranged(now: seq<Rect>, was: seq<Rect>, perm: seq<nat>) {
    && Permutation(perm, |was|) && |now| == |was|
    && (forall i :: 0 <= i < |now| ==> now[i] == was[perm[i]])
  }

  ghost predicate Ordering(cmp: (Rect, Rect) -> int) {
    && (forall a, b :: cmp(a, b) <= 0 || cmp(b, a) <= 0)
    && (forall a, b, c :: cmp(a, b) <= 0 && cmp(b, c) <= 0 ==> cmp(a, c) <= 0)
  }

  ghost predicate SortedBy(cmp: (Rect, Rect) -> int, s: seq<Rect>) {
    forall i, j :: 0 <= i < j < |s| ==> cmp(s[i], s[j]) <= 0
  }

  /** Stands for the library sort: all that is known is that the result is sorted
      and a permutation.  Equal elements may end up in any order. */
  method Sort(rects: array<Rect>, cmp: (Rect, Rect) -> int) returns (ghost perm: seq<nat>)
    requires Ordering(cmp)
    modifies rects
    ensures Rearranged(rects[..], old(rects[..]), perm) && SortedBy(cmp, rects[..])
  {
    hide Rearranged, Ordering;
    ghost var was := rects[..];
    perm := seq(rects.Length, i requires 0 <= i => i);
    Unmoved(was, perm);
    var i := 0;
    while i < rects.Length
      invariant 0 <= i <= rects.Length
      invariant Rearranged(rects[..], was, perm)
      invariant Settled(cmp, rects[..], i)
    {
      ghost var now := rects[..];
      var m := Least(rects, cmp, i);
      Swapped(now, was, perm, i, m);
      SettledMore(cmp, now, i, m);
      rects[i], rects[m] := rects[m], rects[i];
      assert rects[..] == Swap(now, i, m);
      perm := Swap(perm, i, m);
      i := i + 1;
    }
  }

  /** The first `n` elements precede all that follow them. */
  ghost predicate Settled(cmp: (Rect, Rect) -> int, s: seq<Rect>, n: int) {
    forall j, k :: 0 <= j < n && j < k < |s| ==> cmp(s[j], s[k]) <= 0
  }

  ghost function Swap<T>(s: seq<T>, i: nat, m: nat): seq<T>
    requires i < |s| && m < |s|
  {
    s[i := s[m]][m := s[i]]
  }

  lemma Unmoved(was: seq<Rect>, perm: seq<nat>)
    requires |perm| == |was| && forall i :: 0 <= i < |perm| ==> perm[i] == i
    ensures Rearranged(was, was, perm)
  {
  }

  lemma Swapped(now: seq<Rect>, was: seq<Rect>, perm: seq<nat>, i: nat, m: nat)
    requires Rearranged(now, was, perm) && i < |now| && m < |now|
    ensures |perm| == |now| && Rearranged(Swap(now, i, m), was, Swap(perm, i, m))
  {
  }

  lemma SettledMore(cmp: (Rect, Rect) -> int, s: seq<Rect>, i: nat, m: nat)
    requires i <= m < |s| && Settled(cmp, s, i)
    requires forall k :: i <= k < |s| ==> cmp(s[m], s[k]) <= 0
    ensures Settled(cmp, Swap(s, i, m), i + 1)
  {
    var t := Swap(s, i, m);
    forall j, k | 0 <= j < i + 1 && j < k < |t|
      ensures cmp(t[j], t[k]) <= 0
    {
      assert t[k] == s[if k == m then i else if k == i then m else k];
      assert t[j] == if j == i then s[m] else s[j];
    }
  }

  /** An element from index `i` on that none of the others there precedes. */
  method Least(rects: array<Rect>, cmp: (Rect, Rect) -> int, i: nat) returns (m: nat)
    requires Ordering(cmp) && i < rects.Length
    ensures i <= m < rects.Length
    ensures forall k :: i <= k < rects.Length ==> cmp(rects[m], rects[k]) <= 0
  {
    m := i;
    var j := i + 1;
    while j < rects.Length
      invariant i <= m < j <= rects.Length
      invariant forall k :: i <= k < j ==> cmp(rects[m], rects[k]) <= 0
    {
      if cmp(rects[j], rects[m]) <= 0 {
        m := j;
      }
      j := j + 1;
    }
  }

  lemma ComparatorsOrder()
    ensures Ordering(HeightCompare) && Ordering(OriginalOrder)
  {
  }

  /** Distinct numbers below `n`, in order, are 0, ..., n - 1. */
  lemma {:induction false} SortedPermutation(perm: seq<nat>, n: nat, i: nat)
    requires Permutation(perm, n) && i < n
    requires forall a, b :: 0 <= a < b < n ==> perm[a] <= perm[b]
    ensures perm[i] == i
  {
    AtLeast(perm, n, i);
    AtMost(perm, n, i);
  }

  lemma {:induction false} AtLeast(perm: seq<nat>, n: nat, i: nat)
    requires Permutation(perm, n) && i < n
    requires forall a, b :: 0 <= a < b < n ==> perm[a] <= perm[b]
    ensures i <= perm[i]
  {
    if i > 0 {
      AtLeast(perm, n, i - 1);
      assert perm[i - 1] != perm[i];
    }
  }

  lemma {:induction false} AtMost(perm: seq<nat>, n: nat, i: nat)
    requires Permutation(perm, n) && i < n
    requires forall a, b :: 0 <= a < b < n ==> perm[a] <= perm[b]
    ensures perm[i] <= i
    decreases n - i
  {
    if i + 1 < n {
      AtMost(perm, n, i + 1);
      assert perm[i] != perm[i + 1];
    }
  }

  // ----- packing in order -----

  ghost predicate Sized(rects: seq<Rect>) {
    forall i :: 0 <= i < |rects| ==> 0 <= rects[i].w && 0 <= rects[i].h
  }

  predicate Empty(r: Rect) {
    r.w == 0 || r.h == 0
  }

  /** One rectangle's turn: empty ones need no space. */
  ghost predicate Turn(p: Packer, r: Rect, p': Packer, out: Option<Box>)
    requires Valid(p) && 0 <= r.w && 0 <= r.h
  {
    if Empty(r) then p' == p && out == None else Packs(p, r.w, r.h, p', out)
  }

  /** The rectangles are packed one after the other, which leads from state to
      state of the trace. */
  ghost predicate Turns(rects: seq<Rect>, trace: seq<Packer>, outs: seq<Option<Box>>)
    requires Sized(rects)
  {
    && |outs| <= |rects| && |trace| == |outs| + 1
    && (forall i :: 0 <= i <= |outs| ==> Valid(trace[i]))
    && (forall i {:trigger outs[i]} :: 0 <= i < |outs| ==> Turn(trace[i], rects[i], trace[i + 1], outs[i]))
  }

  /** Where a rectangle is placed. */
  function Located(r: Rect, out: Option<Box>): Rect {
    if Empty(r) then r.(x := 0, y := 0)
    else match out
      case None => r.(x := MAXVAL, y := MAXVAL)
      case Some(b) => r.(x := b.x, y := b.y)
  }

  /** What the caller gets back for a rectangle. */
  function Reported(r: Rect, out: Option<Box>): Rect {
    Located(r, out).(wasPacked := if Empty(r) || out.Some? then 1 else 0)
  }

  function Tagged(rects: seq<Rect>): (s: seq<Rect>)
    ensures |s| == |rects|
  {
    seq(|rects|, i requires 0 <= i < |rects| => rects[i].(wasPacked := i))
  }

  // ----- the array -----

  method Tag(rects: array<Rect>)
    modifies rects
    ensures rects[..] == Tagged(old(rects[..]))
  {
    var i := 0;
    while i < rects.Length
      invariant 0 <= i <= rects.Length
      invariant forall k :: 0 <= k < rects.Length ==>
        rects[k] == if k < i then old(rects[k]).(wasPacked := k) else old(rects[k])
    {
      rects[i] := rects[i].(wasPacked := i);
      i := i + 1;
    }
  }

  /** Pack the rectangles of the array in the order they are in. */
  method PackSorted(c: Context, rects: array<Rect>) returns (ghost trace: seq<Packer>, ghost outs: seq<Option<Box>>)
    requires c.Valid() && Sized(rects[..])
    modifies c, c.pool, rects
    ensures c.Valid() && c.pool == old(c.pool)
    ensures Turns(old(rects[..]), trace, outs) && |outs| == rects.Length
    ensures trace[0] == old(c.State()) && trace[|outs|] == c.State()
    ensures c.boxes == old(c.boxes) + Boxes(outs)
    ensures forall k :: 0 <= k < rects.Length ==> rects[k] == Located(old(rects[k]), outs[k])
  {
    hide Turn, Located, Turns, Sized, Context.Valid, Context.State, PartlyLocated, Boxes;
    ghost var was := rects[..];
    trace, outs := [c.State()], [];
    NoTurns(was, c);
    var i := 0;
    while i < rects.Length
      invariant 0 <= i <= rects.Length == |was|
      invariant c.Valid() && c.pool == old(c.pool)
      invariant |outs| == i && Turns(was, trace, outs) && |trace| == i + 1
      invariant trace[0] == old(c.State()) && trace[i] == c.State()
      invariant c.boxes == old(c.boxes) + Boxes(outs)
      invariant PartlyLocated(rects[..], was, outs)
    {
      PartlyAt(rects[..], was, outs);
      ghost var out := PackAt(c, rects, i);
      NoTurns(was, c);
      OneMoreTurn(was, trace, outs, c.State(), out);
      trace, outs := trace + [c.State()], outs + [out];
      i := i + 1;
    }
    LocatedAll(rects[..], was, outs);
  }

  /** The rectangles that had their turn are located, the others are as before. */
  ghost predicate PartlyLocated(now: seq<Rect>, was: seq<Rect>, outs: seq<Option<Box>>) {
    && |outs| <= |was| == |now|
    && forall k :: 0 <= k < |was| ==> now[k] == if k < |outs| then Located(was[k], outs[k]) else was[k]
  }

  lemma PartlyAt(now: seq<Rect>, was: seq<Rect>, outs: seq<Option<Box>>)
    requires PartlyLocated(now, was, outs) && |outs| < |was| && Sized(was)
    ensures |now| == |was| && now[|outs|] == was[|outs|]
    ensures 0 <= was[|outs|].w && 0 <= was[|outs|].h
    ensures forall out :: PartlyLocated(now[|outs| := Located(was[|outs|], out)], was, outs + [out])
  {
  }

  lemma LocatedAll(now: seq<Rect>, was: seq<Rect>, outs: seq<Option<Box>>)
    requires PartlyLocated(now, was, outs) && |outs| == |was|
    ensures forall k :: 0 <= k < |was| ==> now[k] == Located(was[k], outs[k])
  {
  }

  method PackAt(c: Context, rects: array<Rect>, i: nat) returns (ghost out: Option<Box>)
    requires c.Valid() && i < rects.Length && 0 <= rects[i].w && 0 <= rects[i].h
    modifies c, c.pool, rects
    ensures c.Valid() && c.pool == old(c.pool) && Valid(old(c.State()))
    ensures Turn(old(c.State()), old(rects[i]), c.State(), out)
    ensures c.boxes == old(c.boxes) + Placed(out)
    ensures rects[..] == old(rects[..])[i := Located(old(rects[i]), out)]
  {
    hide Context.Valid, Context.State, Turn, Located;
    var r;
    r, out := PackOne(c, rects[i]);
    rects[i] := r;
  }

  lemma NoTurns(rects: seq<Rect>, c: Context)
    requires Sized(rects) && c.Valid()
    ensures Turns(rects, [c.State()], []) && Valid(c.State())
    ensures Boxes([]) == [] && PartlyLocated(rects, rects, [])
  {
  }

  lemma OneMoreTurn(rects: seq<Rect>, trace: seq<Packer>, outs: seq<Option<Box>>, p: Packer, out: Option<Box>)
    requires Sized(rects) && Turns(rects, trace, outs) && |outs| < |rects| && Valid(p)
    requires Valid(trace[|outs|]) && 0 <= rects[|outs|].w && 0 <= rects[|outs|].h
    requires Turn(trace[|outs|], rects[|outs|], p, out)
    ensures Turns(rects, trace + [p], outs + [out])
    ensures Boxes(outs + [out]) == Boxes(outs) + Placed(out)
  {
    hide Turn, Valid, Sized;
    BoxesSnoc(outs, out);
    var t, o := trace + [p], outs + [out];
    forall i | 0 <= i < |o|
      ensures 0 <= rects[i].w && 0 <= rects[i].h && Valid(t[i]) && Turn(t[i], rects[i], t[i + 1], o[i])
    {
      assert i < |outs| ==> o[i] == outs[i] && t[i] == trace[i] && t[i + 1] == trace[i + 1];
      SizedAt(rects, i);
    }
  }

  lemma SizedAt(rects: seq<Rect>, i: nat)
    requires Sized(rects) && i < |rects|
    ensures 0 <= rects[i].w && 0 <= rects[i].h
  {
  }

  lemma BoxesSnoc(outs: seq<Option<Box>>, out: Option<Box>)
    ensures Boxes(outs + [out]) == Boxes(outs) + Placed(out)
  {
    assert (outs + [out])[..|outs|] == outs;
  }

  /** One rectangle's turn. */
  method PackOne(c: Context, r: Rect) returns (r': Rect, ghost out: Option<Box>)
    requires c.Valid() && 0 <= r.w && 0 <= r.h
    modifies c, c.pool
    ensures c.Valid() && c.pool == old(c.pool) && Valid(old(c.State()))
    ensures Turn(old(c.State()), r, c.State(), out)
    ensures c.boxes == old(c.boxes) + Placed(out) && r' == Located(r, out)
  {
    hide Context.Valid, Packs;
    NoTurns([], c);
    out := None;
    if r.w == 0 || r.h == 0 {
      r' := r.(x := 0, y := 0);  // empty rect needs no space
    } else {
      c.InPool();
      var fr := c.PackRectangle(r.w, r.h);
      if fr.link != NoLink {
        r' := r.(x := fr.x, y := fr.y);
      } else {
        r' := r.(x := MAXVAL, y := MAXVAL);
      }
      out := Outcome(fr, r.w, r.h);
    }
  }

  /** A rectangle counts as packed unless it is at the impossible position. */
  function Flag(r: Rect): Rect {
    r.(wasPacked := if r.x == MAXVAL && r.y == MAXVAL then 0 else 1)
  }

  method SetFlags(rects: array<Rect>) returns (all: int)
    modifies rects
    ensures forall k :: 0 <= k < rects.Length ==> rects[k] == Flag(old(rects[k]))
    ensures all == if forall k :: 0 <= k < rects.Length ==> rects[k].wasPacked == 1 then 1 else 0
  {
    all := 1;
    var i := 0;
    while i < rects.Length
      invariant 0 <= i <= rects.Length
      invariant forall k :: 0 <= k < rects.Length ==>
        rects[k] == if k < i then Flag(old(rects[k])) else old(rects[k])
      invariant all == if forall k :: 0 <= k < i ==> rects[k].wasPacked == 1 then 1 else 0
    {
      rects[i] := rects[i].(wasPacked := if rects[i].x == MAXVAL && rects[i].y == MAXVAL then 0 else 1);
      if rects[i].wasPacked == 0 {
        all := 0;
      }
      i := i + 1;
    }
  }

  ghost function Reordered(rects: seq<Rect>, order: seq<nat>): (s: seq<Rect>)
    requires Permutation(order, |rects|)
    ensures |s| == |rects|
  {
    seq(|rects|, i requires 0 <= i < |rects| => rects[order[i]])
  }

  /** The rectangle packed in turn `i` is back at its index, with what happened to it. */
  ghost predicate Delivered(now: seq<Rect>, was: seq<Rect>, order: seq<nat>, outs: seq<Option<Box>>)
    requires Permutation(order, |was|) && |outs| == |was|
  {
    |now| == |was| && forall i :: 0 <= i < |was| ==> now[order[i]] == Reported(was[order[i]], outs[i])
  }

  /** The tags play no part in packing. */
  lemma TagsIgnored(rects: seq<Rect>, tagged: seq<Rect>, trace: seq<Packer>, outs: seq<Option<Box>>)
    requires Sized(rects) && Sized(tagged) && |rects| == |tagged| && Turns(tagged, trace, outs)
    requires forall i :: 0 <= i < |rects| ==> tagged[i].w == rects[i].w && tagged[i].h == rects[i].h
    ensures Turns(rects, trace, outs)
  {
    hide Valid, Packs;
  }

  /** The second sort undoes the first, whatever both did to equal elements. */
  lemma Unsorted(order: seq<nat>, back: seq<nat>, n: nat, p: nat)
    requires Permutation(order, n) && Permutation(back, n) && p < n
    requires forall a, b :: 0 <= a < b < n ==> order[back[a]] <= order[back[b]]
    ensures back[order[p]] == p
  {
    var both: seq<nat> := seq(n, i requires 0 <= i < n => order[back[i]]);
    assert Permutation(both, n) by {
      forall i, j | 0 <= i < j < n
        ensures both[i] != both[j]
      {
        assert back[i] != back[j];
        assert back[i] < back[j] || back[j] < back[i];
      }
    }
    SortedPermutation(both, n, order[p]);
    var q := back[order[p]];
    assert order[q] == order[p];
  }

  /** The flag computed from the coordinates is the truth. */
  lemma FlagIsReport(p: Packer, r: Rect, p': Packer, out: Option<Box>)
    requires Valid(p) && 0 <= r.w && 0 <= r.h && Turn(p, r, p', out)
    ensures Flag(Located(r, out)) == Reported(r, out)
  {
    hide Places, HasRoom;
    if !Empty(r) && out.Some? {
      PlacesValid(p, r.w, RoundUp(r.w, p.align), r.h, p', out.value);
    }
  }

  /** Higher rectangles come first, and of those as high, the wider ones. */
  ghost predicate TallestFirst(s: seq<Rect>) {
    forall i, j :: 0 <= i < j < |s| ==> s[i].h > s[j].h || (s[i].h == s[j].h && s[i].w >= s[j].w)
  }

  lemma HeightOrder(s: seq<Rect>)
    ensures SortedBy(HeightCompare, s) <==> TallestFirst(s)
  {
    forall i, j | 0 <= i < j < |s|
      ensures HeightCompare(s[i], s[j]) <= 0 <==> s[i].h > s[j].h || (s[i].h == s[j].h && s[i].w >= s[j].w)
    {
    }
  }

  /** Pack all rectangles of an array into the target.

      The result is 1 exactly if all were packed.  Each rectangle is back at its
      index, with what happened to it: `order[i]` is the index of the rectangle
      packed in turn `i`, and `outs[i]` where it went. */
  method PackRects(c: Context, rects: array<Rect>)
    returns (all: int, ghost order: seq<nat>, ghost trace: seq<Packer>, ghost outs: seq<Option<Box>>)
    requires c.Valid() && Sized(rects[..])
    modifies c, c.pool, rects
    ensures c.Valid() && c.pool == old(c.pool) && c.boxes == old(c.boxes) + Boxes(outs)
    ensures Permutation(order, rects.Length) && |outs| == rects.Length
    ensures Sized(Reordered(old(rects[..]), order)) && TallestFirst(Reordered(old(rects[..]), order))
    ensures Turns(Reordered(old(rects[..]), order), trace, outs)
    ensures trace[0] == old(c.State()) && trace[rects.Length] == c.State()
    ensures Delivered(rects[..], old(rects[..]), order, outs)
    ensures all == if forall k :: 0 <= k < rects.Length ==> rects[k].wasPacked == 1 then 1 else 0
  {
    hide Turns, Context.Valid, Context.State, Permutation, Sized, SortedBy, Located, Reported, Rearranged;
    hide TallestFirst, Delivered;
    ghost var was := rects[..];
    order := SortByHeight(c, rects);
    ghost var tagged := rects[..];
    trace, outs := PackSorted(c, rects);
    ghost var packed := rects[..];
    TagsIgnored(Reordered(was, order), tagged, trace, outs);
    all := Unsort(c, rects, was, order, trace, outs);
  }

  /** Sort the rectangles by height and tag them so that this can be undone. */
  method SortByHeight(c: Context, rects: array<Rect>) returns (ghost order: seq<nat>)
    requires c.Valid() && Sized(rects[..])
    modifies rects
    ensures c.Valid() && c.State() == old(c.State())
    ensures Permutation(order, rects.Length)
    ensures Sized(rects[..]) && Sized(Reordered(old(rects[..]), order))
    ensures TallestFirst(Reordered(old(rects[..]), order))
    ensures forall i :: 0 <= i < rects.Length ==>
      rects[i] == old(rects[..])[order[i]].(wasPacked := order[i])
      && Reordered(old(rects[..]), order)[i] == old(rects[..])[order[i]]
  {
    hide Context.Valid, Context.State, Ordering, Tagged, TallestFirst;
    ghost var was := rects[..];
    ComparatorsOrder();
    Tag(rects);
    assert c.Valid() && c.State() == old(c.State());
    order := Sort(rects, HeightCompare);
    SortedFacts(was, rects[..], order);
  }

  /** Bring the packed rectangles back to their indices and set their flags. */
  method Unsort(c: Context, rects: array<Rect>, ghost was: seq<Rect>, ghost order: seq<nat>,
                ghost trace: seq<Packer>, ghost outs: seq<Option<Box>>)
    returns (all: int)
    requires c.Valid() && Permutation(order, |was|) && |outs| == |was| == rects.Length
    requires Sized(Reordered(was, order)) && Turns(Reordered(was, order), trace, outs)
    requires forall i :: 0 <= i < |was| ==>
      rects[i] == Located(was[order[i]].(wasPacked := order[i]), outs[i])
    modifies rects
    ensures c.Valid() && c.State() == old(c.State())
    ensures Delivered(rects[..], was, order, outs)
    ensures all == if forall k :: 0 <= k < rects.Length ==> rects[k].wasPacked == 1 then 1 else 0
  {
    hide Context.Valid, Context.State, Ordering, Turns, Sized, Located, Reported, Flag;
    hide Delivered, Rearranged, SortedBy, Permutation;
    ghost var packed := rects[..];
    ComparatorsOrder();
    ghost var back := Sort(rects, OriginalOrder);
    assert c.Valid() && c.State() == old(c.State());
    ghost var unsorted := rects[..];
    all := SetFlags(rects);
    UnsortedFacts(was, order, back, packed, unsorted, rects[..], trace, outs);
  }

  lemma SortedFacts(was: seq<Rect>, tagged: seq<Rect>, order: seq<nat>)
    requires Sized(was) && Rearranged(tagged, Tagged(was), order) && SortedBy(HeightCompare, tagged)
    ensures Permutation(order, |was|)
    ensures Sized(tagged) && Sized(Reordered(was, order)) && TallestFirst(Reordered(was, order))
    ensures forall i :: 0 <= i < |was| ==> tagged[i] == was[order[i]].(wasPacked := order[i])
    ensures forall i :: 0 <= i < |was| ==> Reordered(was, order)[i] == was[order[i]]
  {
    var r := Reordered(was, order);
    forall i, j | 0 <= i < j < |r|
      ensures HeightCompare(r[i], r[j]) <= 0
    {
      assert HeightCompare(tagged[i], tagged[j]) <= 0;
    }
    HeightOrder(r);
  }

  lemma UnsortedFacts(was: seq<Rect>, order: seq<nat>, back: seq<nat>, packed: seq<Rect>, unsorted: seq<Rect>,
                      now: seq<Rect>, trace: seq<Packer>, outs: seq<Option<Box>>)
    requires Permutation(order, |was|) && Sized(Reordered(was, order)) && |outs| == |was| == |packed|
    requires Turns(Reordered(was, order), trace, outs)
    requires forall i :: 0 <= i < |was| ==>
      packed[i] == Located(was[order[i]].(wasPacked := order[i]), outs[i])
    requires Rearranged(unsorted, packed, back) && SortedBy(OriginalOrder, unsorted)
    requires |now| == |was| && forall k :: 0 <= k < |now| ==> now[k] == Flag(unsorted[k])
    ensures Delivered(now, was, order, outs)
  {
    hide Turns, Turn, Valid;
    var n := |was|;
    forall a, b | 0 <= a < b < n
      ensures order[back[a]] <= order[back[b]]
    {
      assert OriginalOrder(unsorted[a], unsorted[b]) <= 0;
    }
    forall i | 0 <= i < n
      ensures now[order[i]] == Reported(was[order[i]], outs[i])
    {
      Unsorted(order, back, n, i);
      TurnAt(Reordered(was, order), trace, outs, i);
      FlagIsReport(trace[i], Reordered(was, order)[i], trace[i + 1], outs[i]);
    }
  }

  // ----- what the caller may rely on -----

  predicate PackedNonEmpty(r: Rect) {
    r.wasPacked == 1 && !Empty(r)
  }

  function BoxOf(r: Rect): Box {
    Box(r.x, r.y, r.w, r.h)
  }

  /** The box of turn `i` among the boxes placed. */
  lemma {:induction false} BoxAt(outs: seq<Option<Box>>, i: nat)
    requires i < |outs| && outs[i].Some?
    ensures |Boxes(outs[..i])| < |Boxes(outs)|
    ensures Boxes(outs)[|Boxes(outs[..i])|] == outs[i].value
    decreases |outs|
  {
    var n := |outs| - 1;
    var init := outs[..n];
    if i < n {
      BoxAt(init, i);
      assert init[..i] == outs[..i];
    }
  }

  lemma BoxesOrdered(outs: seq<Option<Box>>, i: nat, j: nat)
    requires i < j < |outs| && outs[i].Some? && outs[j].Some?
    ensures |Boxes(outs[..i])| < |Boxes(outs[..j])|
  {
    BoxAt(outs[..j], i);
    assert outs[..j][..i] == outs[..i];
  }

  /** What the caller reads off a rectangle.  An empty one is at the origin and counts
      as packed.  Any other one is packed, and where its turn put it, exactly if some
      column had room at its turn and a node was free; else both coordinates are the
      largest 32-bit integer. */
  lemma Verdict(was: seq<Rect>, now: seq<Rect>, order: seq<nat>, trace: seq<Packer>, outs: seq<Option<Box>>, i: nat)
    requires Permutation(order, |was|) && |outs| == |was| && Delivered(now, was, order, outs)
    requires Sized(Reordered(was, order)) && Turns(Reordered(was, order), trace, outs) && i < |was|
    ensures order[i] < |was| == |now| && |trace| == |was| + 1 && Valid(trace[i])
    ensures var (r, q, p) := (was[order[i]], now[order[i]], trace[i]);
      if r.w == 0 || r.h == 0 then q.x == 0 && q.y == 0 && q.wasPacked == 1 && trace[i + 1] == p
      else
        && 1 <= r.w && 1 <= r.h && Packs(p, r.w, r.h, trace[i + 1], outs[i])
        && if HasRoom(p, RoundUp(r.w, p.align), r.h) && HasStorage(p)
           then outs[i] == Some(Box(q.x, q.y, r.w, r.h)) && q.wasPacked == 1
           else q.x == 0x7fff_ffff && q.y == 0x7fff_ffff && q.wasPacked == 0
  {
    hide Turns, Valid, Places, HasRoom, HasStorage, RoundUp;
    TurnAt(Reordered(was, order), trace, outs, i);
    if outs[i].Some? {
      TurnBox(Reordered(was, order), trace, outs, i);
    }
  }

  /** A packed non-empty rectangle is where its turn put it. */
  lemma ReportedBox(was: seq<Rect>, now: seq<Rect>, order: seq<nat>, trace: seq<Packer>, outs: seq<Option<Box>>, i: nat)
    requires Permutation(order, |was|) && |outs| == |was| && Delivered(now, was, order, outs)
    requires Sized(Reordered(was, order)) && Turns(Reordered(was, order), trace, outs) && i < |was|
    ensures order[i] < |was| == |now|
    ensures var (r, q) := (was[order[i]], now[order[i]]);
      && q.id == r.id && q.w == r.w && q.h == r.h
      && (PackedNonEmpty(q) ==> outs[i] == Some(BoxOf(q)))
  {
    hide Turns, Valid;
    if PackedNonEmpty(now[order[i]]) {
      TurnBox(Reordered(was, order), trace, outs, i);
    }
  }

  /** Every packed rectangle, also a single one, is inside the target and apart from
      everything packed before. */
  lemma PackedInside(was: seq<Rect>, now: seq<Rect>, order: seq<nat>, trace: seq<Packer>, outs: seq<Option<Box>>,
                     p: Packer, before: seq<Box>, i: nat)
    requires Permutation(order, |was|) && |outs| == |was| == |now| && Delivered(now, was, order, outs)
    requires Sized(Reordered(was, order)) && Turns(Reordered(was, order), trace, outs)
    requires Safe(p, before + Boxes(outs))
    requires i < |was| && PackedNonEmpty(now[order[i]])
    ensures Inside(p, BoxOf(now[order[i]]))
    ensures forall k :: 0 <= k < |before| ==> Apart(before[k], BoxOf(now[order[i]]))
  {
    hide Turns, Valid, UnderSkyline, Apart, Inside, Delivered, Sized, BoxOf, PackedNonEmpty, Reordered;
    ReportedBox(was, now, order, trace, outs, i);
    BoxAt(outs, i);
    InsideIn(p, before, Boxes(outs), |Boxes(outs[..i])|);
  }

  /** Any two rectangles packed in one call are apart. */
  lemma PackedApart(was: seq<Rect>, now: seq<Rect>, order: seq<nat>, trace: seq<Packer>, outs: seq<Option<Box>>,
                    p: Packer, before: seq<Box>, i: nat, j: nat)
    requires Permutation(order, |was|) && |outs| == |was| == |now| && Delivered(now, was, order, outs)
    requires Sized(Reordered(was, order)) && Turns(Reordered(was, order), trace, outs)
    requires Safe(p, before + Boxes(outs))
    requires i < j < |was| && PackedNonEmpty(now[order[i]]) && PackedNonEmpty(now[order[j]])
    ensures Apart(BoxOf(now[order[i]]), BoxOf(now[order[j]]))
  {
    hide Turns, Valid, UnderSkyline, Apart, Inside, Delivered, Sized, BoxOf, PackedNonEmpty, Reordered;
    ReportedBox(was, now, order, trace, outs, i);
    ReportedBox(was, now, order, trace, outs, j);
    BoxAt(outs, i);
    BoxAt(outs, j);
    BoxesOrdered(outs, i, j);
    ApartIn(p, before, Boxes(outs), |Boxes(outs[..i])|, |Boxes(outs[..j])|);
  }

  lemma InsideIn(p: Packer, before: seq<Box>, boxes: seq<Box>, i: nat)
    requires Safe(p, before + boxes) && i < |boxes|
    ensures Inside(p, boxes[i])
    ensures forall k :: 0 <= k < |before| ==> Apart(before[k], boxes[i])
  {
    hide Valid, UnderSkyline, Apart, Inside;
    var all, m := before + boxes, |before|;
    assert all[m + i] == boxes[i];
    forall k | 0 <= k < |before|
      ensures Apart(before[k], boxes[i])
    {
      assert all[k] == before[k];
    }
  }

  lemma ApartIn(p: Packer, before: seq<Box>, boxes: seq<Box>, i: nat, j: nat)
    requires Safe(p, before + boxes) && i < j < |boxes|
    ensures Apart(boxes[i], boxes[j])
  {
    hide Valid, UnderSkyline, Apart, Inside;
    var all, m := before + boxes, |before|;
    assert all[m + i] == boxes[i] && all[m + j] == boxes[j];
  }

  lemma TurnAt(rects: seq<Rect>, trace: seq<Packer>, outs: seq<Option<Box>>, i: nat)
    requires Sized(rects) && Turns(rects, trace, outs) && i < |outs|
    ensures |trace| == |outs| + 1 && Valid(trace[i]) && 0 <= rects[i].w && 0 <= rects[i].h
    ensures Turn(trace[i], rects[i], trace[i + 1], outs[i])
  {
    hide Turn, Valid;
  }

  lemma TurnBox(rects: seq<Rect>, trace: seq<Packer>, outs: seq<Option<Box>>, i: nat)
    requires Sized(rects) && Turns(rects, trace, outs) && i < |outs| && outs[i].Some?
    ensures !Empty(rects[i]) && outs[i].value.w == rects[i].w && outs[i].value.h == rects[i].h
  {
    TurnAt(rects, trace, outs, i);
  }
}
