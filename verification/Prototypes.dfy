/** Function prototypes and the capability words attached to them.

    Prototypes form a finite graph, which may have cycles.  `IsOurProto` searches
    it for a word with the marker bit; `ElevateProto` attaches one fresh word to
    everything below a closure's prototype. */
module Prototypes {
  import opened Capabilities

  /** A capability word in memory. */
  class Word {
    var value: bv64

    constructor (value: bv64)
      ensures this.value == value
    {
      this.value := value;
    }
  }

  class Proto {
    var userdata: Word?
    const p: seq<Proto?>

    constructor (userdata: Word?, p: seq<Proto?>)
      ensures this.userdata == userdata && this.p == p
    {
      this.userdata := userdata;
      this.p := p;
    }
  }

  // ----- paths -----

  /** The node reached from `n` by taking the children with these indices. */
  ghost function Follow(n: Proto?, path: seq<nat>): Proto? {
    if n == null || path == [] then n
    else if path[0] < |n.p| then Follow(n.p[path[0]], path[1..])
    else null
  }

  ghost predicate Closed(universe: set<Proto>) {
    forall n, i :: n in universe && 0 <= i < |n.p| && n.p[i] != null ==> n.p[i] in universe
  }

  /** Like `Follow`, through nodes with userdata only. */
  ghost function FollowLive(n: Proto?, path: seq<nat>, universe: set<Proto>): Proto?
    requires Closed(universe) && (n == null || n in universe)
    reads universe`userdata
    decreases |path|
  {
    if n == null || n.userdata == null then null
    else if path == [] then n
    else if path[0] < |n.p| then FollowLive(n.p[path[0]], path[1..], universe)
    else null
  }

  predicate HasMarker(value: bv64) {
    value & OUR_CAPABILITY == OUR_CAPABILITY
  }

  ghost function Words(universe: set<Proto>): set<object>
    reads universe`userdata
  {
    set n | n in universe && n.userdata != null :: n.userdata as object
  }

  ghost predicate Marked(n: Proto)
    reads n`userdata, if n.userdata == null then {} else {n.userdata}
  {
    n.userdata != null && HasMarker(n.userdata.value)
  }

  ghost predicate LeadsToMark(root: Proto?, path: seq<nat>, universe: set<Proto>)
    requires Closed(universe) && (root == null || root in universe)
    reads universe`userdata, Words(universe)
  {
    var n := FollowLive(root, path, universe);
    n != null && n in universe && Marked(n)
  }

  /** A prototype with the marker can be reached through prototypes with userdata. */
  ghost predicate MarkReachable(root: Proto?, universe: set<Proto>)
    requires Closed(universe) && (root == null || root in universe)
    reads universe`userdata, Words(universe)
  {
    exists path :: LeadsToMark(root, path, universe)
  }

  /** A marked prototype is reachable if and only if the prototype has userdata, and is
      marked itself, or one is reachable from a child. */
  lemma MarkUnfolds(n: Proto, universe: set<Proto>)
    requires Closed(universe) && n in universe
    ensures MarkReachable(n, universe) <==>
      && n.userdata != null
      && (Marked(n) || exists i :: 0 <= i < |n.p| && MarkReachable(n.p[i], universe))
  {
    if path :| LeadsToMark(n, path, universe) {
      if path != [] {
        assert LeadsToMark(n.p[path[0]], path[1..], universe);
      }
    }
    if n.userdata != null {
      if Marked(n) {
        assert LeadsToMark(n, [], universe);
      }
      if i :| 0 <= i < |n.p| && MarkReachable(n.p[i], universe) {
        var path :| LeadsToMark(n.p[i], path, universe);
        assert ([i] + path)[1..] == path;
        assert LeadsToMark(n, [i] + path, universe);
      }
    }
  }

  // ----- the search -----

  class VisitedSet {
    var elems: set<Proto>

    constructor ()
      ensures elems == {}
    {
      elems := {};
    }
  }

  /** `n` cannot lead out of `done`: it is no live prototype, or is one of them. */
  ghost predicate Caught(n: Proto?, done: set<Proto>)
    reads (if n == null then {} else {n})`userdata
  {
    n == null || n.userdata == null || n in done
  }

  /** The nodes of `some` are live, unmarked, and their children are caught. */
  ghost predicate Exhausted(some: set<Proto>, done: set<Proto>, universe: set<Proto>)
    requires Closed(universe) && some <= universe
    reads universe`userdata, Words(universe)
  {
    forall n :: n in some ==>
      n.userdata != null && !Marked(n) && forall i :: 0 <= i < |n.p| ==> Caught(n.p[i], done)
  }

  method IsOurProtoInternal(proto: Proto?, visited: VisitedSet, ghost universe: set<Proto>)
    returns (found: bool, ghost path: seq<nat>)
    requires Closed(universe) && (proto == null || proto in universe) && visited.elems <= universe
    modifies visited
    ensures old(visited.elems) <= visited.elems <= universe
    ensures found ==> LeadsToMark(proto, path, universe)
    ensures !found ==>
      && Caught(proto, visited.elems)
      && Exhausted(visited.elems - old(visited.elems), visited.elems, universe)
    decreases universe - visited.elems
  {
    path := [];
    if proto == null || proto.userdata == null || proto in visited.elems {
      return false, [];
    }
    visited.elems := visited.elems + {proto};
    if HasMarker(proto.userdata.value) {
      return true, [];
    }
    var i := 0;
    while i < |proto.p|
      invariant 0 <= i <= |proto.p|
      invariant old(visited.elems) + {proto} <= visited.elems <= universe
      invariant forall j :: 0 <= j < i ==> Caught(proto.p[j], visited.elems)
      invariant Exhausted(visited.elems - old(visited.elems) - {proto}, visited.elems, universe)
    {
      found, path := IsOurProtoInternal(proto.p[i], visited, universe);
      if found {
        ghost var child := path;
        path := [i] + child;
        assert path[1..] == child;
        return true, path;
      }
      i := i + 1;
    }
    return false, [];
  }

  /** The nodes caught by an exhausted search cannot lead to a mark. */
  lemma {:induction false} NoWayOut(n: Proto?, path: seq<nat>, done: set<Proto>, universe: set<Proto>)
    requires Closed(universe) && (n == null || n in universe) && done <= universe
    requires Exhausted(done, done, universe) && Caught(n, done)
    ensures !LeadsToMark(n, path, universe)
    decreases |path|
  {
    if n != null && n.userdata != null && path != [] && path[0] < |n.p| {
      NoWayOut(n.p[path[0]], path[1..], done, universe);
    }
  }

  /** True exactly if a marked prototype is reachable, cycles or not. */
  method IsOurProto(proto: Proto?, ghost universe: set<Proto>) returns (found: bool)
    requires Closed(universe) && (proto == null || proto in universe)
    ensures found == MarkReachable(proto, universe)
  {
    var visited := new VisitedSet();
    ghost var path;
    found, path := IsOurProtoInternal(proto, visited, universe);
    if !found {
      assert visited.elems - {} == visited.elems;
      forall path
        ensures !LeadsToMark(proto, path, universe)
      {
        NoWayOut(proto, path, visited.elems, universe);
      }
    }
  }

  // ----- marking -----

  ghost predicate Reaches(n: Proto, c: Proto) {
    exists path :: Follow(n, path) == c
  }

  ghost predicate Acyclic(universe: set<Proto>) {
    forall n, path :: n in universe && path != [] ==> Follow(n, path) != n
  }

  ghost predicate NoNullChild(universe: set<Proto>) {
    forall n, i :: n in universe && 0 <= i < |n.p| ==> n.p[i] != null
  }

  /** Everything below a prototype, itself included. */
  ghost function Below(n: Proto, universe: set<Proto>): set<Proto> {
    set c | c in universe && Reaches(n, c)
  }

  lemma ReachesSelf(n: Proto)
    ensures Reaches(n, n)
  {
    assert Follow(n, []) == n;
  }

  /** Whatever a child reaches, its parent reaches. */
  lemma ReachesChild(n: Proto, i: nat, c: Proto)
    requires i < |n.p| && n.p[i] != null && Reaches(n.p[i], c)
    ensures Reaches(n, c)
  {
    var path :| Follow(n.p[i], path) == c;
    assert ([i] + path)[1..] == path;
    assert Follow(n, [i] + path) == c;
  }

  /** What a prototype reaches, other than itself, one of its children reaches. */
  lemma ReachesSplit(n: Proto, c: Proto)
    requires Reaches(n, c) && c != n
    ensures exists i :: 0 <= i < |n.p| && n.p[i] != null && Reaches(n.p[i], c)
  {
    var path :| Follow(n, path) == c;
    assert Follow(n.p[path[0]], path[1..]) == c;
  }

  /** In an acyclic graph there is less below a child than below its parent. */
  lemma ChildBelow(n: Proto, i: nat, universe: set<Proto>)
    requires Closed(universe) && Acyclic(universe) && n in universe && i < |n.p| && n.p[i] != null
    ensures Below(n.p[i], universe) < Below(n, universe)
  {
    forall c | c in Below(n.p[i], universe)
      ensures c in Below(n, universe)
    {
      ReachesChild(n, i, c);
    }
    ReachesSelf(n);
    assert n in Below(n, universe);
    if n in Below(n.p[i], universe) {
      var path :| Follow(n.p[i], path) == n;
      assert ([i] + path)[1..] == path;
      assert Follow(n, [i] + path) == n;
    }
  }

  ghost predicate ReachedByChild(n: Proto, k: nat, c: Proto) {
    exists i :: 0 <= i < k && i < |n.p| && n.p[i] != null && Reaches(n.p[i], c)
  }

  method ElevateProtoInternal(proto: Proto, word: Word, ghost universe: set<Proto>)
    requires Closed(universe) && Acyclic(universe) && NoNullChild(universe) && proto in universe
    modifies universe`userdata
    ensures forall n :: n in universe ==>
      n.userdata == if Reaches(proto, n) then word else old(n.userdata)
    decreases Below(proto, universe)
  {
    proto.userdata := word;
    var i := 0;
    while i < |proto.p|
      invariant 0 <= i <= |proto.p|
      invariant forall n :: n in universe ==>
        n.userdata == if n == proto || ReachedByChild(proto, i, n) then word else old(n.userdata)
    {
      ChildBelow(proto, i, universe);
      ElevateProtoInternal(proto.p[i], word, universe);
      i := i + 1;
    }
    forall n | n in universe
      ensures Reaches(proto, n) <==> n == proto || ReachedByChild(proto, |proto.p|, n)
    {
      ChildrenReach(proto, n);
    }
  }

  lemma ChildrenReach(n: Proto, c: Proto)
    ensures Reaches(n, c) <==> c == n || ReachedByChild(n, |n.p|, c)
  {
    if Reaches(n, c) && c != n {
      ReachesSplit(n, c);
    }
    ReachesSelf(n);
    if ReachedByChild(n, |n.p|, c) {
      var i :| 0 <= i < |n.p| && n.p[i] != null && Reaches(n.p[i], c);
      ReachesChild(n, i, c);
    }
  }

  /** A closure, as far as its prototype goes. */
  class Closure {
    const p: Proto

    constructor (p: Proto)
      ensures this.p == p
    {
      this.p := p;
    }
  }

  /** Attach one new word to everything below the closure's prototype, and to
      nothing else.  The word says what was asked for, and a search from any of
      the prototypes then finds the marker exactly if it was asked for. */
  method ElevateProto(closure: Closure, identity: bv64, addOurs: bool, ghost universe: set<Proto>)
    returns (ghost word: Word)
    requires Closed(universe) && Acyclic(universe) && NoNullChild(universe) && closure.p in universe
    modifies universe`userdata
    ensures fresh(word) && word.value == WordFor(identity, addOurs)
    ensures forall n :: n in universe ==>
      n.userdata == if Reaches(closure.p, n) then word else old(n.userdata)
    ensures forall n :: n in universe && Reaches(closure.p, n) ==>
      (MarkReachable(n, universe) <==> addOurs)
  {
    var value := IdentityToCapabilities(identity, addOurs);
    var inMemory := new Word(value);
    ElevateProtoInternal(closure.p, inMemory, universe);
    word := inMemory;
    MarkerAsAsked(identity, addOurs);
    forall n | n in universe && Reaches(closure.p, n)
      ensures MarkReachable(n, universe) <==> addOurs
    {
      OneWordBelow(n, closure.p, inMemory, universe);
    }
  }

  /** Below a prototype all of whose descendants carry one word, a search sees
      that word only. */
  lemma OneWordBelow(n: Proto, root: Proto, word: Word, universe: set<Proto>)
    requires Closed(universe) && n in universe && Reaches(root, n)
    requires forall c :: c in universe && Reaches(root, c) ==> c.userdata == word
    ensures MarkReachable(n, universe) <==> HasMarker(word.value)
  {
    if HasMarker(word.value) {
      assert LeadsToMark(n, [], universe);
    } else {
      forall path
        ensures !LeadsToMark(n, path, universe)
      {
        LiveStaysBelow(n, path, universe);
        var c := FollowLive(n, path, universe);
        if c != null {
          ReachesTransitive(root, n, c);
        }
      }
    }
  }

  lemma {:induction false} LiveStaysBelow(n: Proto?, path: seq<nat>, universe: set<Proto>)
    requires Closed(universe) && (n == null || n in universe)
    ensures var c := FollowLive(n, path, universe);
      c != null ==> n != null && c in universe && Reaches(n, c)
    decreases |path|
  {
    if n != null {
      ReachesSelf(n);
      if n.userdata != null && path != [] && path[0] < |n.p| {
        LiveStaysBelow(n.p[path[0]], path[1..], universe);
        if FollowLive(n, path, universe) != null {
          ReachesChild(n, path[0], FollowLive(n, path, universe));
        }
      }
    }
  }

  lemma {:induction false} FollowConcat(n: Proto?, a: seq<nat>, b: seq<nat>)
    requires Follow(n, a) != null
    ensures Follow(n, a + b) == Follow(Follow(n, a), b)
    decreases |a|
  {
    if a == [] {
      assert a + b == b;
    } else {
      assert (a + b)[1..] == a[1..] + b;
      FollowConcat(n.p[a[0]], a[1..], b);
    }
  }

  lemma ReachesTransitive(a: Proto, b: Proto, c: Proto)
    requires Reaches(a, b) && Reaches(b, c)
    ensures Reaches(a, c)
  {
    var x :| Follow(a, x) == b;
    var y :| Follow(b, y) == c;
    FollowConcat(a, x, y);
    assert Follow(a, x + y) == c;
  }
}
