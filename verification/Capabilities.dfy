/** Words as sets of bits. */
module BitSets {

  function Union(a: bv64, b: bv64): bv64 {
    a | b
  }

  /** The word has none of these bits. */
  predicate Misses(word: bv64, bits: bv64) {
    word & bits == 0
  }

  /** All of the bits are in the word. */
  predicate Within(bits: bv64, word: bv64) {
    bits | word == word
  }

  lemma WithinUnion(a: bv64, b: bv64, word: bv64)
    ensures Within(a, word) && Within(b, word) ==> Within(Union(a, b), word)
  {
    if Within(a, word) && Within(b, word) {
      UnionWithin(a, b, word);
    }
  }

  lemma UnionWithin(a: bv64, b: bv64, word: bv64)
    requires Within(a, word) && Within(b, word)
    ensures Within(Union(a, b), word)
  {
  }

  lemma WithinTrans(a: bv64, b: bv64, c: bv64)
    requires Within(a, b) && Within(b, c)
    ensures Within(a, c)
  {
  }

  lemma WithinSides(a: bv64, b: bv64)
    ensures Within(a, Union(a, b)) && Within(b, Union(a, b))
  {
  }

  lemma WithinEqual(a: bv64, b: bv64)
    requires Within(a, b) && Within(b, a)
    ensures a == b
  {
  }

  lemma UnionMisses(a: bv64, b: bv64, bits: bv64)
    ensures Misses(Union(a, b), bits) <==> Misses(a, bits) && Misses(b, bits)
  {
    hide Misses, Union;
    if Misses(Union(a, b), bits) {
      MissesLeft(a, b, bits);
      MissesRight(a, b, bits);
    }
    if Misses(a, bits) && Misses(b, bits) {
      MissesBoth(a, b, bits);
    }
  }

  lemma MissesLeft(a: bv64, b: bv64, bits: bv64)
    requires Misses(Union(a, b), bits)
    ensures Misses(a, bits)
  {
  }

  lemma MissesRight(a: bv64, b: bv64, bits: bv64)
    requires Misses(Union(a, b), bits)
    ensures Misses(b, bits)
  {
  }

  lemma MissesBoth(a: bv64, b: bv64, bits: bv64)
    requires Misses(a, bits) && Misses(b, bits)
    ensures Misses(Union(a, b), bits)
  {
  }
}

/** Capability words: what an identity may do, folded from a table of names. */
module Capabilities {
  import opened BitSets

  const OUR_CAPABILITY: bv64 := 0x1_0000_0000_0000
  const BASIC_CAPABILITIES: bv64 := 0x3_ffff_ff00

  datatype Name =
    | Plugin | LocalUser | WritePlayer | RobloxScript | RobloxEngine | NotAccessible
    | RunClientScript | RunServerScript | AccessOutsideWrite | Unassigned | AssetRequire
    | LoadString | ScriptGlobals | CreateInstances | Basic | Audio | DataStore | Network
    | Physics | UI | CSG | Chat | Animation | Avatar | Input | Environment | RemoteEvent
    | LegacySound | Players | CapabilityControl | PluginOrOpenCloud | Assistant

  /** A table entry is a mask, or the number of a single bit. */
  datatype Entry = Mask(mask: bv64) | Bit(index: bv64)

  function Lookup(name: Name): (entry: Entry)
    ensures entry.Bit? ==> entry.index < 64
  {
    match name
    case Plugin => Mask(0x1)
    case LocalUser => Mask(0x2)
    case WritePlayer => Mask(0x4)
    case RobloxScript => Mask(0x8)
    case RobloxEngine => Mask(0x10)
    case NotAccessible => Mask(0x20)
    case RunClientScript => Bit(0x8)
    case RunServerScript => Bit(0x9)
    case AccessOutsideWrite => Bit(0xb)
    case Unassigned => Bit(0xf)
    case AssetRequire => Bit(0x10)
    case LoadString => Bit(0x11)
    case ScriptGlobals => Bit(0x12)
    case CreateInstances => Bit(0x13)
    case Basic => Bit(0x14)
    case Audio => Bit(0x15)
    case DataStore => Bit(0x16)
    case Network => Bit(0x17)
    case Physics => Bit(0x18)
    case UI => Bit(0x19)
    case CSG => Bit(0x1a)
    case Chat => Bit(0x1b)
    case Animation => Bit(0x1c)
    case Avatar => Bit(0x1d)
    case Input => Bit(0x1e)
    case Environment => Bit(0x1f)
    case RemoteEvent => Bit(0x20)
    case LegacySound => Bit(0x21)
    case Players => Bit(0x22)
    case CapabilityControl => Bit(0x23)
    case PluginOrOpenCloud => Bit(0x3d)
    case Assistant => Bit(0x3e)
  }

  /** The names listed for an identity; most identities have no list. */
  function NamesOf(identity: bv8): seq<Name> {
    if identity == 3 then
      [RunServerScript, Plugin, LocalUser, RobloxScript, RunClientScript, AccessOutsideWrite, Avatar,
       RemoteEvent, Environment, Input, LegacySound, Players, CapabilityControl]
    else if identity == 2 then
      [CSG, Chat, Animation, RemoteEvent, Avatar, LegacySound, Players, CapabilityControl]
    else if identity == 4 then
      [Plugin, LocalUser, RemoteEvent, Avatar, LegacySound, Players, CapabilityControl]
    else if identity == 6 then
      [RunServerScript, Plugin, LocalUser, Avatar, RobloxScript, RunClientScript, AccessOutsideWrite,
       Input, Environment, RemoteEvent, PluginOrOpenCloud, LegacySound]
    else if identity == 8 then
      [Plugin, LocalUser, WritePlayer, RobloxScript, RobloxEngine, NotAccessible, RunClientScript,
       RunServerScript, AccessOutsideWrite, Unassigned, AssetRequire, LoadString, ScriptGlobals,
       CreateInstances, Basic, Audio, DataStore, Network, Physics, UI, CSG, Chat, Animation, Avatar,
       Input, Environment, RemoteEvent, PluginOrOpenCloud, Assistant, LegacySound, Players,
       CapabilityControl]
    else []
  }

  function Bits(entry: Entry): bv64
    requires entry.Bit? ==> entry.index < 64
  {
    match entry
    case Mask(m) => m
    case Bit(i) => 1 << i
  }

  function BitsOf(name: Name): bv64 {
    Bits(Lookup(name))
  }

  function Fold(names: seq<Name>, acc: bv64): bv64 {
    if names == [] then acc else Fold(names[1..], Union(acc, BitsOf(names[0])))
  }

  /** The table is keyed by bytes, so only the low byte of an identity counts. */
  function LowByte(identity: bv64): bv8 {
    (identity & 0xff) as bv8
  }

  function Base(addOurs: bool): bv64 {
    BASIC_CAPABILITIES | (if addOurs then OUR_CAPABILITY else 0)
  }

  function WordFor(identity: bv64, addOurs: bool): bv64 {
    Fold(NamesOf(LowByte(identity)), Base(addOurs))
  }

  method IdentityToCapabilities(identity: bv64, addOurs: bool) returns (final: bv64)
    ensures final == WordFor(identity, addOurs)
  {
    final := Base(addOurs);
    var names := NamesOf(LowByte(identity));
    var i := 0;
    while i < |names|
      invariant 0 <= i <= |names|
      invariant Fold(names[i..], final) == Fold(names, Base(addOurs))
    {
      final := final | Bits(Lookup(names[i]));
      i := i + 1;
    }
  }

  /** Folding is union: a set of bits is missed exactly if the start word and all
      named entries miss it, in whatever order the names come. */
  lemma {:induction false} FoldIsUnion(names: seq<Name>, acc: bv64, bits: bv64)
    ensures Misses(Fold(names, acc), bits) <==>
      Misses(acc, bits) && forall i :: 0 <= i < |names| ==> Misses(BitsOf(names[i]), bits)
  {
    hide BitsOf, Union, Misses;
    if names != [] {
      FoldIsUnion(names[1..], Union(acc, BitsOf(names[0])), bits);
      UnionMisses(acc, BitsOf(names[0]), bits);
      TailMisses(names, bits);
    }
  }

  lemma TailMisses(names: seq<Name>, bits: bv64)
    requires names != []
    ensures (forall i :: 0 <= i < |names| ==> Misses(BitsOf(names[i]), bits)) <==>
      && Misses(BitsOf(names[0]), bits)
      && forall i :: 0 <= i < |names[1..]| ==> Misses(BitsOf(names[1..][i]), bits)
  {
    hide BitsOf, Union, Misses;
    assert forall i :: 1 <= i < |names| ==> names[i] == names[1..][i - 1];
  }

  /** No name stands for the marker bit. */
  lemma NoNameMarks(name: Name)
    ensures Misses(BitsOf(name), OUR_CAPABILITY)
  {
  }

  lemma OneBit(a: bv64)
    ensures a & OUR_CAPABILITY == OUR_CAPABILITY <==> a & OUR_CAPABILITY != 0
  {
  }

  /** The marker bit of a word is what the caller asked for, for every identity. */
  lemma MarkerAsAsked(identity: bv64, addOurs: bool)
    ensures WordFor(identity, addOurs) & OUR_CAPABILITY == OUR_CAPABILITY <==> addOurs
  {
    var names := NamesOf(LowByte(identity));
    FoldIsUnion(names, Base(addOurs), OUR_CAPABILITY);
    forall i | 0 <= i < |names|
      ensures Misses(BitsOf(names[i]), OUR_CAPABILITY)
    {
      NoNameMarks(names[i]);
    }
    OneBit(WordFor(identity, addOurs));
  }

  // ----- the words, bit by bit -----

  lemma {:induction false} FoldWithin(names: seq<Name>, acc: bv64, word: bv64)
    requires Within(acc, word) && forall i :: 0 <= i < |names| ==> Within(BitsOf(names[i]), word)
    ensures Within(Fold(names, acc), word)
  {
    hide BitsOf, Union, Within;
    if names != [] {
      UnionWithin(acc, BitsOf(names[0]), word);
      assert forall i :: 0 <= i < |names[1..]| ==> names[1..][i] == names[i + 1];
      FoldWithin(names[1..], Union(acc, BitsOf(names[0])), word);
    }
  }

  lemma {:induction false} FoldHolds(names: seq<Name>, acc: bv64)
    ensures Within(acc, Fold(names, acc))
    ensures forall i :: 0 <= i < |names| ==> Within(BitsOf(names[i]), Fold(names, acc))
  {
    hide BitsOf, Union;
    if names != [] {
      var next := Union(acc, BitsOf(names[0]));
      hide Within;
      FoldHolds(names[1..], next);
      WithinSides(acc, BitsOf(names[0]));
      WithinTrans(acc, next, Fold(names, acc));
      WithinTrans(BitsOf(names[0]), next, Fold(names, acc));
      assert forall i :: 1 <= i < |names| ==> names[i] == names[1..][i - 1];
    }
  }

  /** The names whose bits the base word lacks. */
  predicate Special(name: Name) {
    || name.Plugin? || name.LocalUser? || name.WritePlayer? || name.RobloxScript? || name.RobloxEngine?
    || name.NotAccessible? || name.Players? || name.CapabilityControl? || name.PluginOrOpenCloud? || name.Assistant?
  }

  lemma OthersAreBasic(name: Name)
    requires !Special(name)
    ensures Within(BitsOf(name), BASIC_CAPABILITIES)
  {
  }

  lemma LowBits()
    ensures BitsOf(Plugin) == 0x1 && BitsOf(LocalUser) == 0x2 && BitsOf(WritePlayer) == 0x4
    ensures BitsOf(RobloxScript) == 0x8 && BitsOf(RobloxEngine) == 0x10 && BitsOf(NotAccessible) == 0x20
  {
  }

  lemma MiddleBits()
    ensures BitsOf(Players) == 0x4_0000_0000 && BitsOf(CapabilityControl) == 0x8_0000_0000
  {
  }

  lemma HighBits()
    ensures BitsOf(PluginOrOpenCloud) == 0x2000_0000_0000_0000 && BitsOf(Assistant) == 0x4000_0000_0000_0000
  {
  }

  /** The special names of a list. */
  predicate Adds(key: bv8, name: Name) {
    if key == 2 then name.Players? || name.CapabilityControl?
    else if key == 3 then
      name.Plugin? || name.LocalUser? || name.RobloxScript? || name.Players? || name.CapabilityControl?
    else if key == 4 then name.Plugin? || name.LocalUser? || name.Players? || name.CapabilityControl?
    else if key == 6 then name.Plugin? || name.LocalUser? || name.RobloxScript? || name.PluginOrOpenCloud?
    else key == 8 && Special(name)
  }

  /** What they add to the base word. */
  function Added(key: bv8): bv64 {
    if key == 2 then 0xc_0000_0000
    else if key == 3 then 0xc_0000_000b
    else if key == 4 then 0xc_0000_0003
    else if key == 6 then 0x2000_0000_0000_000b
    else if key == 8 then 0x6000_000c_0000_003f
    else 0
  }

  lemma ListAdds(key: bv8, i: nat)
    requires i < |NamesOf(key)| && Special(NamesOf(key)[i])
    ensures Adds(key, NamesOf(key)[i])
  {
  }

  /** Where a special name is in its list. */
  function Position(key: bv8, name: Name): nat {
    if key == 2 then if name.Players? then 6 else 7
    else if key == 3 then
      if name.Plugin? then 1 else if name.LocalUser? then 2 else if name.RobloxScript? then 3
      else if name.Players? then 11 else 12
    else if key == 4 then
      if name.Plugin? then 0 else if name.LocalUser? then 1 else if name.Players? then 5 else 6
    else if key == 6 then
      if name.Plugin? then 1 else if name.LocalUser? then 2 else if name.RobloxScript? then 4 else 10
    else
      match name
      case Plugin => 0
      case LocalUser => 1
      case WritePlayer => 2
      case RobloxScript => 3
      case RobloxEngine => 4
      case NotAccessible => 5
      case PluginOrOpenCloud => 27
      case Assistant => 28
      case Players => 30
      case _ => 31
  }

  lemma AddsListed(key: bv8, name: Name)
    requires Adds(key, name)
    ensures Position(key, name) < |NamesOf(key)| && NamesOf(key)[Position(key, name)] == name
  {
  }

  lemma AddsWithin(key: bv8, name: Name)
    requires Adds(key, name)
    ensures Within(BitsOf(name), Added(key))
  {
    hide BitsOf;
    LowBits();
    MiddleBits();
    HighBits();
  }

  lemma Both(a: bv64, b: bv64, word: bv64)
    requires Within(a, word) && Within(b, word)
    ensures Within(a | b, word)
  {
  }

  /** A word that has the bits of all special names has all that they add. */
  lemma AddedCovered(key: bv8, word: bv64)
    requires forall name :: Adds(key, name) ==> Within(BitsOf(name), word)
    ensures key in {2, 3, 4, 6, 8} ==> Within(Added(key), word)
  {
    hide BitsOf, Within;
    LowBits();
    MiddleBits();
    HighBits();
    if key == 3 || key == 4 || key == 6 || key == 8 {
      assert Adds(key, Plugin) && Adds(key, LocalUser);
      Both(0x1, 0x2, word);
    }
    if key == 2 || key == 3 || key == 4 || key == 8 {
      assert Adds(key, Players) && Adds(key, CapabilityControl);
      Both(0x4_0000_0000, 0x8_0000_0000, word);
    }
    if key == 3 || key == 6 || key == 8 {
      assert Adds(key, RobloxScript);
      Both(0x3, 0x8, word);
    }
    if key == 3 {
      Both(0xb, 0xc_0000_0000, word);
    } else if key == 4 {
      Both(0x3, 0xc_0000_0000, word);
    } else if key == 6 {
      assert Adds(key, PluginOrOpenCloud);
      Both(0xb, 0x2000_0000_0000_0000, word);
    } else if key == 8 {
      assert Adds(key, WritePlayer) && Adds(key, RobloxEngine) && Adds(key, NotAccessible);
      assert Adds(key, PluginOrOpenCloud) && Adds(key, Assistant);
      Both(0xb, 0x4, word);
      Both(0xf, 0x10, word);
      Both(0x1f, 0x20, word);
      Both(0x3f, 0xc_0000_0000, word);
      Both(0x2000_0000_0000_0000, 0x4000_0000_0000_0000, word);
      Both(0xc_0000_003f, 0x6000_0000_0000_0000, word);
    }
  }

  /** The word of a list is the base word and what the list adds. */
  lemma WordOfList(key: bv8, addOurs: bool)
    ensures Fold(NamesOf(key), Base(addOurs)) == Union(Base(addOurs), Added(key))
  {
    hide BitsOf, Union, Within, Base, Added;
    var names, base := NamesOf(key), Base(addOurs);
    var word, full := Fold(names, base), Union(base, Added(key));
    WithinSides(base, Added(key));
    BaseHasBasic(addOurs);
    WithinTrans(BASIC_CAPABILITIES, base, full);
    forall i | 0 <= i < |names|
      ensures Within(BitsOf(names[i]), full)
    {
      if Special(names[i]) {
        ListAdds(key, i);
        AddsWithin(key, names[i]);
        WithinTrans(BitsOf(names[i]), Added(key), full);
      } else {
        OthersAreBasic(names[i]);
        WithinTrans(BitsOf(names[i]), BASIC_CAPABILITIES, full);
      }
    }
    FoldWithin(names, base, full);
    FoldHolds(names, base);
    forall name | Adds(key, name)
      ensures Within(BitsOf(name), word)
    {
      AddsListed(key, name);
    }
    AddedWithin(key, word);
    UnionWithin(base, Added(key), word);
    WithinEqual(word, full);
  }

  lemma AddedWithin(key: bv8, word: bv64)
    requires forall name :: Adds(key, name) ==> Within(BitsOf(name), word)
    ensures Within(Added(key), word)
  {
    if key == 2 || key == 3 || key == 4 || key == 6 || key == 8 {
      AddedCovered(key, word);
    }
  }

  lemma BaseHasBasic(addOurs: bool)
    ensures Within(BASIC_CAPABILITIES, Base(addOurs))
  {
  }

  lemma LowByteIs(identity: bv64, key: bv8)
    ensures LowByte(identity) == key <==> identity & 0xff == key as bv64
  {
  }

  /** The word of every identity, in full: the base word, what the table adds for its
      low byte, and bit 48 if it is asked for. */
  lemma WordIs(identity: bv64, addOurs: bool)
    ensures var low := identity & 0xff;
      WordFor(identity, addOurs) == (if addOurs then 0x1_0000_0000_0000 else 0)
        | (if low == 2 then 0xf_ffff_ff00
           else if low == 3 then 0xf_ffff_ff0b
           else if low == 4 then 0xf_ffff_ff03
           else if low == 6 then 0x2000_0003_ffff_ff0b
           else if low == 8 then 0x6000_000f_ffff_ff3f
           else 0x3_ffff_ff00)
  {
    hide Fold, NamesOf, LowByte;
    LowByteIs(identity, 2);
    LowByteIs(identity, 3);
    LowByteIs(identity, 4);
    LowByteIs(identity, 6);
    LowByteIs(identity, 8);
    WordOfList(LowByte(identity), addOurs);
  }

  // ----- the key of the table -----

  /** What the table lists for the whole identity, not for its low byte. */
  function NamesOfWhole(identity: bv64): seq<Name> {
    if identity < 0x100 then NamesOf(LowByte(identity)) else []
  }

  predicate Listed(low: bv64) {
    low == 2 || low == 3 || low == 4 || low == 6 || low == 8
  }

  /** Only identities that fit a byte are looked up as they are: for any other, the word
      is what the table says if and only if its low byte is not listed. */
  lemma KeyIsByte(identity: bv64, addOurs: bool)
    ensures WordFor(identity, addOurs) == Fold(NamesOfWhole(identity), Base(addOurs))
            <==> identity < 0x100 || !Listed(identity & 0xff)
  {
    hide Fold, NamesOf, LowByte;
    WordIs(identity, addOurs);
    FoldNone(Base(addOurs));
  }

  lemma FoldNone(acc: bv64)
    ensures Fold([], acc) == acc
  {
  }

  /** Identity 259 is given the word of identity 3, which is not the base word. */
  lemma Identity259(addOurs: bool)
    ensures WordFor(259, addOurs) == WordFor(3, addOurs) != Base(addOurs)
  {
    hide WordFor;
    WordIs(259, addOurs);
    WordIs(3, addOurs);
  }
}
