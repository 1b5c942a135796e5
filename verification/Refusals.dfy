/** When a refused rectangle stays refused.

    Heights only grow, so what is refused for want of room stays refused as long as
    the quantum stays.  A caller that turns quantisation off after a refusal may find
    room after all; exactly when is decided here. */
module Refusals {
  import opened Skyline
  import opened Window
  import opened Packing
  import opened Choice
  import opened Runs
  import opened Storage

  lemma RoundUpMonotone(w: int, w': int, a: int)
    requires 1 <= a && w <= w'
    ensures RoundUp(w, a) <= RoundUp(w', a)
  {
    RoundUpIsLeast(w', a, RoundUp(w', a));
    RoundUpIsLeast(w, a, RoundUp(w', a));
  }

  /** Without a free node, nothing is packed any more. */
  lemma {:induction false} NoStorageStays(ops: seq<Op>, states: seq<Packer>, outs: seq<Option<Box>>, m: nat, n: nat)
    requires IsRun(ops, states, outs) && Valid(states[0]) && m <= n <= |ops| && !HasStorage(states[m])
    ensures !HasStorage(states[n])
    decreases n - m
  {
    hide WellFormed, Places, HasRoom;
    if m < n {
      NoStorageStays(ops, states, outs, m, n - 1);
      RunValid(ops, states, outs, n - 1);
      RunValid(ops, states, outs, n);
      assert Step(states[n - 1], ops[n - 1], states[n], outs[n - 1]);
    }
  }

  /** A request refused for any reason, and a later one for as much height and a width
      that is searched as no less: that one is refused, too. */
  lemma RequestRefused(ops: seq<Op>, states: seq<Packer>, outs: seq<Option<Box>>, m: nat, n: nat)
    requires IsRun(ops, states, outs) && m <= n < |ops| && forall i :: 0 <= i <= |ops| ==> Valid(states[i])
    requires ops[m].Pack? && ops[n].Pack? && outs[m] == None && ops[m].h <= ops[n].h
    requires RoundUp(ops[m].w, states[m].align) <= RoundUp(ops[n].w, states[n].align)
    ensures outs[n] == None
  {
    hide WellFormed, RoundUp, HasRoom, Places, HasStorage;
    assert Step(states[m], ops[m], states[m + 1], outs[m]) && Step(states[n], ops[n], states[n + 1], outs[n]);
    if HasStorage(states[m]) {
      RoomNeverReturns(ops, states, outs, m, n, RoundUp(ops[m].w, states[m].align), ops[m].h,
                       RoundUp(ops[n].w, states[n].align), ops[n].h);
    } else {
      NoStorageStays(ops, states, outs, m, n);
    }
  }

  /** While the caller keeps the quantisation on, a refused rectangle, or one as large,
      is never packed. */
  lemma QuantisedRefusal(width: int, height: int, nodes: int,
                         ops: seq<Op>, states: seq<Packer>, outs: seq<Option<Box>>, m: nat, n: nat)
    requires 1 <= width && 1 <= height < SENTINEL_Y && 1 <= nodes && Quantised(ops)
    requires IsRun(ops, states, outs) && states[0] == Initial(width, height, nodes) && m <= n < |ops|
    requires ops[m].Pack? && ops[n].Pack? && outs[m] == None && ops[m].w <= ops[n].w && ops[m].h <= ops[n].h
    ensures outs[n] == None
  {
    hide WellFormed, RoundUp, DefaultAlign, Step, Quantised;
    forall i | 0 <= i <= |ops|
      ensures Valid(states[i])
    {
      RunSafe(width, height, nodes, ops, states, outs, i);
    }
    QuantumKept(width, height, nodes, ops, states, outs, m);
    QuantumKept(width, height, nodes, ops, states, outs, n);
    RoundUpMonotone(ops[m].w, ops[n].w, states[m].align);
    RequestRefused(ops, states, outs, m, n);
  }

  /** A run from `p` that ends with a `w` by `h` rectangle packed. */
  ghost predicate PacksLater(p: Packer, w: int, h: int, ops: seq<Op>, states: seq<Packer>, outs: seq<Option<Box>>) {
    && IsRun(ops, states, outs) && states[0] == p
    && 0 < |ops| && ops[|ops| - 1] == Pack(w, h) && outs[|ops| - 1].Some?
  }

  /** Whatever is packed later would have had room now, at its exact width. */
  lemma LaterMeansRoom(p: Packer, w: int, h: int, w': int, h': int,
                       ops: seq<Op>, states: seq<Packer>, outs: seq<Option<Box>>)
    requires Valid(p) && 1 <= w <= w' && h <= h' && PacksLater(p, w', h', ops, states, outs)
    ensures HasRoom(p, w, h) && HasStorage(p)
  {
    hide WellFormed, RoundUp, Places, HasRoom, HasStorage;
    var n := |ops| - 1;
    forall i | 0 <= i <= |ops|
      ensures Valid(states[i])
    {
      RunValid(ops, states, outs, i);
    }
    assert Step(states[n], ops[n], states[n + 1], outs[n]);
    var r' := RoundUp(w', states[n].align);
    RoundUpIsLeast(w', states[n].align, r');
    if !HasRoom(p, w, h) {
      RoomNeverReturns(ops, states, outs, 0, n, w, h, r', h');
    }
    if !HasStorage(p) {
      NoStorageStays(ops, states, outs, 0, n);
    }
  }

  /** If there is room for the exact width and a node, the caller may turn quantisation
      off and pack. */
  lemma TurnOffAndPack(p: Packer, w: int, h: int)
    returns (ops: seq<Op>, states: seq<Packer>, outs: seq<Option<Box>>)
    requires Valid(p) && 1 <= w && 1 <= h && HasRoom(p, w, h) && HasStorage(p)
    ensures PacksLater(p, w, h, ops, states, outs)
  {
    hide WellFormed, Places, HasRoom, HasStorage, RoundUp;
    var q := p.(align := 1);
    RoomAnyQuantum(p, q, w, h);
    var p', out := PacksTotal(q, w, h);
    RoundUpIs(w, 1, w);
    ops, states, outs := [AllowOutOfMem(true), Pack(w, h)], [p, q, p'], [None, out];
  }

  lemma RoomAnyQuantum(p: Packer, q: Packer, r: int, h: int)
    requires Valid(p) && 1 <= r && q == p.(align := 1)
    ensures Valid(q) && (HasRoom(q, r, h) <==> HasRoom(p, r, h)) && (HasStorage(q) <==> HasStorage(p))
  {
    hide Ascending, Rest;
    if x :| 0 <= x <= p.width - r && Rest(p.sky, x, r) + h <= p.height {
      assert Rest(q.sky, x, r) + h <= q.height;
    }
  }

  /** A refusal is final, for the rectangle and for all as large, whatever the caller
      does: if and only if there is no room for its exact width, or no node is free. */
  lemma RefusalFinal(p: Packer, w: int, h: int)
    requires Valid(p) && 1 <= w && 1 <= h && Packs(p, w, h, p, None)
    ensures (forall w', h', ops, states, outs :: w <= w' && h <= h' ==> !PacksLater(p, w', h', ops, states, outs))
            <==> !HasRoom(p, w, h) || !HasStorage(p)
  {
    hide Valid, HasRoom, HasStorage, RoundUp, PacksLater;
    if HasRoom(p, w, h) && HasStorage(p) {
      var ops, states, outs := TurnOffAndPack(p, w, h);
      assert PacksLater(p, w, h, ops, states, outs);
    } else {
      forall w', h', ops, states, outs | w <= w' && h <= h'
        ensures !PacksLater(p, w', h', ops, states, outs)
      {
        if PacksLater(p, w', h', ops, states, outs) {
          LaterMeansRoom(p, w, h, w', h', ops, states, outs);
        }
      }
    }
  }
}
