/** Constants kept encrypted byte by byte, and the two loops that decrypt them. */
module Oxorany {
  import opened Arithmetic

  const SIZE_LIMIT := 0x1_0000_0000_0000_0000

  /** The values of size_t. */
  type SizeT = n: nat | n < SIZE_LIMIT

  function Sum(a: SizeT, b: SizeT): SizeT {
    (a + b) % SIZE_LIMIT
  }

  function Difference(a: SizeT, b: SizeT): SizeT {
    (a - b) % SIZE_LIMIT
  }

  type Byte = n: nat | n < 0x100

  // ----- bits -----

  predicate Odd(a: nat) {
    a % 2 == 1
  }

  function Half(a: nat): nat {
    a / 2
  }

  /** The number with the given last bit and the given bits before it. */
  function Join(half: nat, odd: bool): nat {
    2 * half + if odd then 1 else 0
  }

  function BitXor(a: nat, b: nat): nat
    decreases a + b
  {
    if a == 0 && b == 0 then 0 else Join(BitXor(a / 2, b / 2), Odd(a) != Odd(b))
  }

  function BitAnd(a: nat, b: nat): nat
    decreases a + b
  {
    if a == 0 && b == 0 then 0 else Join(BitAnd(a / 2, b / 2), Odd(a) && Odd(b))
  }

  lemma Joined(a: nat)
    ensures a == Join(Half(a), Odd(a))
  {
  }

  lemma JoinParts(half: nat, odd: bool)
    ensures Half(Join(half, odd)) == half && Odd(Join(half, odd)) == odd
  {
  }

  lemma XorParts(a: nat, b: nat)
    ensures Half(BitXor(a, b)) == BitXor(Half(a), Half(b)) && Odd(BitXor(a, b)) == (Odd(a) != Odd(b))
  {
    if a != 0 || b != 0 {
      JoinParts(BitXor(a / 2, b / 2), Odd(a) != Odd(b));
    }
  }

  /** Adding is the exclusive or, and twice the carries. */
  lemma {:induction false} SumIsXorAnd(a: nat, b: nat)
    ensures a + b == BitXor(a, b) + 2 * BitAnd(a, b)
    ensures BitAnd(a, b) == BitAnd(b, a)
    decreases a + b
  {
    if a != 0 || b != 0 {
      SumIsXorAnd(a / 2, b / 2);
      Joined(a);
      Joined(b);
    }
  }

  lemma {:induction false} XorTwice(a: nat, b: nat)
    ensures BitXor(BitXor(a, b), b) == a
    decreases a + b
  {
    if a != 0 || b != 0 {
      var x := BitXor(a, b);
      assert Half(a) + Half(b) < a + b;
      hide BitXor, Half, Odd, Join;
      XorTwice(Half(a), Half(b));
      XorParts(a, b);
      XorParts(x, b);
      Joined(a);
      Joined(BitXor(x, b));
    }
  }

  function Pow2(n: nat): (p: nat)
    ensures p > 0
  {
    if n == 0 then 1 else 2 * Pow2(n - 1)
  }

  lemma HalfMod(a: nat, p: nat)
    requires p > 0
    ensures a % (2 * p) == Join(Half(a) % p, Odd(a))
  {
    var q, r := Half(a) / p, Half(a) % p;
    Joined(a);
    assert Half(a) == q * p + r;
    assert q * (2 * p) == 2 * (q * p);
    ModIs(a, q, 2 * p, Join(r, Odd(a)));
  }

  /** The low bits of an exclusive or depend on the low bits only. */
  lemma {:induction false} XorLow(a: nat, b: nat, n: nat)
    ensures BitXor(a, b) % Pow2(n) == BitXor(a % Pow2(n), b % Pow2(n))
  {
    if n > 0 {
      var p := Pow2(n - 1);
      assert Pow2(n) == 2 * p;
      hide BitXor, Half, Odd, Join, Pow2;
      XorLow(Half(a), Half(b), n - 1);
      HalfMod(a, p);
      HalfMod(b, p);
      HalfMod(BitXor(a, b), p);
      XorParts(a, b);
      JoinXor(Half(a) % p, Odd(a), Half(b) % p, Odd(b));
    }
  }

  lemma {:induction false} XorBounded(a: nat, b: nat, n: nat)
    requires a < Pow2(n) && b < Pow2(n)
    ensures BitXor(a, b) < Pow2(n)
  {
    if n > 0 {
      XorBounded(a / 2, b / 2, n - 1);
      XorParts(a, b);
      Joined(BitXor(a, b));
    }
  }

  lemma JoinXor(g: nat, c: bool, h: nat, d: bool)
    ensures BitXor(Join(g, c), Join(h, d)) == Join(BitXor(g, h), c != d)
  {
    hide BitXor, Half, Odd, Join;
    var a, b := Join(g, c), Join(h, d);
    JoinParts(g, c);
    JoinParts(h, d);
    XorParts(a, b);
    Joined(BitXor(a, b));
  }

  lemma Limits()
    ensures Pow2(8) == 0x100 && Pow2(64) == SIZE_LIMIT
  {
    assert Pow2(8) == 0x100;
    assert Pow2(16) == 0x1_0000;
    assert Pow2(24) == 0x100_0000;
    assert Pow2(32) == 0x1_0000_0000;
    assert Pow2(40) == 0x100_0000_0000;
    assert Pow2(48) == 0x1_0000_0000_0000;
    assert Pow2(56) == 0x100_0000_0000_0000;
  }

  lemma XorFits(a: SizeT, b: SizeT)
    ensures BitXor(a, b) < SIZE_LIMIT
  {
    hide Pow2;
    Limits();
    XorBounded(a, b, 64);
  }

  // ----- one byte -----

  function EncryptByte(key: SizeT, c: Byte, i: SizeT): Byte {
    BitXor(Sum(c, Product(key, 7)), Sum(i, key)) % 0x100
  }

  /** The exclusive or is computed from sums, all of them modulo the limit. */
  function DecryptByte(key: SizeT, c: Byte, i: SizeT): Byte {
    Difference(XorBySums(c, Sum(i, key)), Product(key, 7)) % 0x100
  }

  function Product(a: SizeT, b: SizeT): SizeT {
    (a * b) % SIZE_LIMIT
  }

  function XorBySums(a: SizeT, b: SizeT): SizeT {
    Difference(Sum(a, b), Sum(BitAnd(a, b) % SIZE_LIMIT, BitAnd(b, a) % SIZE_LIMIT))
  }

  lemma ModDifference(s: nat, d: nat)
    ensures (s % SIZE_LIMIT - d % SIZE_LIMIT) % SIZE_LIMIT == (s - d) % SIZE_LIMIT
  {
  }

  lemma ModDouble(n: nat)
    ensures Sum(n % SIZE_LIMIT, n % SIZE_LIMIT) == (2 * n) % SIZE_LIMIT
  {
    var q, r := n / SIZE_LIMIT, n % SIZE_LIMIT;
    ModIs(2 * n, 2 * q + (r + r) / SIZE_LIMIT, SIZE_LIMIT, (r + r) % SIZE_LIMIT);
  }

  lemma WrappedDifference(s: nat, x: SizeT, n: nat)
    requires s == x + 2 * n
    ensures Difference(s % SIZE_LIMIT, Sum(n % SIZE_LIMIT, n % SIZE_LIMIT)) == x
  {
    hide Sum;
    ModDouble(n);
    ModDifference(s, 2 * n);
  }

  /** In spite of the wrapping, the sums give the exclusive or. */
  lemma SumsAreXor(a: SizeT, b: SizeT)
    ensures XorBySums(a, b) == BitXor(a, b)
  {
    hide BitXor, BitAnd;
    SumIsXorAnd(a, b);
    XorFits(a, b);
    WrappedDifference(a + b, BitXor(a, b), BitAnd(a, b));
  }

  lemma LowByteOf(n: int)
    ensures (n % SIZE_LIMIT) % 0x100 == n % 0x100
  {
  }

  lemma LowSum(a: SizeT, b: SizeT)
    ensures Sum(a, b) % 0x100 == (a + b) % 0x100
  {
    LowByteOf(a + b);
  }

  lemma LowDifference(a: SizeT, b: SizeT)
    ensures Difference(a, b) % 0x100 == (a - b) % 0x100
  {
    LowByteOf(a - b);
  }

  lemma ByteBack(x: SizeT, y: SizeT, c: Byte, offset: SizeT)
    requires y == Sum(c, offset) && x % 0x100 == y % 0x100
    ensures Difference(x, offset) % 0x100 == c
  {
    hide Sum, Difference;
    LowDifference(x, offset);
    LowSum(c, offset);
  }

  lemma ByteForth(x: SizeT, c: Byte, offset: SizeT, d: Byte)
    requires d == Difference(x, offset) % 0x100
    ensures Sum(d, offset) % 0x100 == x % 0x100
  {
    hide Sum, Difference;
    LowDifference(x, offset);
    LowSum(d, offset);
  }

  /** For every key and position, decrypting a byte is the inverse of encrypting it:
      each is a bijection of the bytes. */
  lemma DecryptEncrypt(key: SizeT, c: Byte, i: SizeT)
    ensures DecryptByte(key, EncryptByte(key, c, i), i) == c
    ensures EncryptByte(key, DecryptByte(key, c, i), i) == c
  {
    hide Sum, Difference, Product, BitXor;
    var mask, offset := Sum(i, key), Product(key, 7);
    var s := Sum(c, offset);
    var e := EncryptByte(key, c, i);
    SumsAreXor(e, mask);
    LowXorTwice(s, mask, e);
    ByteBack(BitXor(e, mask), s, c, offset);
    var d := DecryptByte(key, c, i);
    SumsAreXor(c, mask);
    XorFits(c, mask);
    ByteForth(BitXor(c, mask), c, offset, d);
    LowXorTwice(c, mask, Sum(d, offset));
  }

  lemma LowXorTwice(s: SizeT, mask: SizeT, e: SizeT)
    requires e % 0x100 == BitXor(s, mask) % 0x100
    ensures BitXor(e, mask) % 0x100 == s % 0x100
  {
    Limits();
    XorLow(e, mask, 8);
    XorLow(BitXor(s, mask), mask, 8);
    XorTwice(s, mask);
  }

  /** What the codec computes, without a word about wrapping: that does not show in a
      byte. */
  lemma CodecForms(key: SizeT, c: Byte, i: SizeT)
    ensures EncryptByte(key, c, i) == BitXor((c + 7 * key) % 0x100, (i + key) % 0x100)
    ensures DecryptByte(key, c, i) == (BitXor(c, (i + key) % 0x100) - 7 * key) % 0x100
  {
    var mask, offset := Sum(i, key), Product(key, 7);
    LowByteOf(key * 7);
    assert offset % 0x100 == (7 * key) % 0x100;
    hide Sum, Difference, Product, BitXor;
    LowSum(i, key);
    LowSum(c, offset);
    EncryptForm(c, key, mask, offset);
    SumsAreXor(c, mask);
    XorFits(c, mask);
    LowDifference(BitXor(c, mask), offset);
    DecryptForm(c, key, mask, offset);
  }

  lemma SameBytes(x: int, y: int, d: int, e: int)
    requires x % 0x100 == y % 0x100 && d % 0x100 == e % 0x100
    ensures (x + d) % 0x100 == (y + e) % 0x100 && (x - d) % 0x100 == (y - e) % 0x100
  {
    var p, q := x / 0x100 - y / 0x100, d / 0x100 - e / 0x100;
    assert x == y + 0x100 * p && d == e + 0x100 * q;
    ModIs(x + d, (y + e) / 0x100 + p + q, 0x100, (y + e) % 0x100);
    ModIs(x - d, (y - e) / 0x100 + p - q, 0x100, (y - e) % 0x100);
  }

  lemma EncryptForm(c: Byte, key: SizeT, mask: SizeT, offset: SizeT)
    requires offset % 0x100 == (7 * key) % 0x100 && Sum(c, offset) % 0x100 == (c + offset) % 0x100
    ensures BitXor(Sum(c, offset), mask) % 0x100 == BitXor((c + 7 * key) % 0x100, mask % 0x100)
  {
    hide BitXor, Sum, Pow2;
    Limits();
    XorLow(Sum(c, offset), mask, 8);
    SameBytes(c, c, offset, 7 * key);
  }

  lemma DecryptForm(c: Byte, key: SizeT, mask: SizeT, offset: SizeT)
    requires offset % 0x100 == (7 * key) % 0x100
    ensures (BitXor(c, mask) - offset) % 0x100 == (BitXor(c, mask % 0x100) - 7 * key) % 0x100
  {
    hide BitXor, Pow2;
    Limits();
    XorLow(c, mask, 8);
    XorLow(c, mask % 0x100, 8);
    SameBytes(BitXor(c, mask), BitXor(c, mask % 0x100), offset, 7 * key);
  }

  // ----- the indices of an encrypted constant -----

  function MergeAndRenumber(a: seq<nat>, b: seq<nat>): seq<nat> {
    a + seq(|b|, k requires 0 <= k < |b| => |a| + b[k])
  }

  function MakeIndexSequence(n: nat): seq<nat> {
    if n == 0 then []
    else if n == 1 then [0]
    else MergeAndRenumber(MakeIndexSequence(n / 2), MakeIndexSequence(n - n / 2))
  }

  /** The index sequence counts from zero. */
  lemma {:induction false} IndexSequence(n: nat)
    ensures |MakeIndexSequence(n)| == n
    ensures forall k :: 0 <= k < n ==> MakeIndexSequence(n)[k] == k
  {
    if n > 1 {
      IndexSequence(n / 2);
      IndexSequence(n - n / 2);
    }
  }

  /** The buffer of a constant: the encrypted bytes, then zeros. */
  function Encrypted(key: SizeT, bytes: seq<Byte>, size: SizeT): (buffer: seq<Byte>)
    requires |bytes| <= size
    ensures |buffer| == size && forall k :: |bytes| <= k < size ==> buffer[k] == 0
  {
    IndexSequence(|bytes|);
    var indices := MakeIndexSequence(|bytes|);
    seq(|bytes|, k requires 0 <= k < |bytes| => EncryptByte(key, bytes[indices[k]], indices[k]))
    + seq(size - |bytes|, _ => 0 as Byte)
  }

  function Decrypted(key: SizeT, buffer: seq<Byte>): (bytes: seq<Byte>)
    requires |buffer| < SIZE_LIMIT
    ensures |bytes| == |buffer|
  {
    seq(|buffer|, k requires 0 <= k < |buffer| => DecryptByte(key, buffer[k], k))
  }

  lemma RoundTrip(key: SizeT, bytes: seq<Byte>, size: SizeT)
    requires |bytes| <= size
    ensures Decrypted(key, Encrypted(key, bytes, size))[..|bytes|] == bytes
  {
    hide EncryptByte, DecryptByte, MakeIndexSequence;
    IndexSequence(|bytes|);
    forall k | 0 <= k < |bytes|
      ensures Decrypted(key, Encrypted(key, bytes, size))[k] == bytes[k]
    {
      DecryptEncrypt(key, bytes[k], k);
    }
  }

  // ----- the loops -----

  const BCF_VALUE: seq<nat> :=
    [1, 2, 3, 4, 5, 6, 8, 9, 10, 16, 32, 40, 64, 66, 100, 128, 512, 1000, 1024, 4096, 97, 122, 65, 90, 42]

  function Limit(key: SizeT): (r: nat)
    ensures 1 <= r <= 4096
  {
    BCF_VALUE[key % |BCF_VALUE|]
  }

  /** The arm a ladder of conditions takes: its first, a jump, or none. */
  datatype Arm = First | Jump(target: nat) | Past

  function JumpArm(x: SizeT, y: SizeT, keys: nat -> SizeT, site: nat, k: nat): Arm
    requires 1 <= k <= 10
    decreases 10 - k
  {
    if k == 10 then Past
    else if x == Sum(y, Limit(keys(site + k)) % k + 1) then Jump(k)
    else JumpArm(x, y, keys, site, k + 1)
  }

  function Ladder(first: bool, x: SizeT, y: SizeT, keys: nat -> SizeT, site: nat): Arm {
    if first then First else JumpArm(x, y, keys, site, 1)
  }

  method DecryptPlain(key: SizeT, buffer: array<Byte>)
    requires buffer.Length < SIZE_LIMIT
    modifies buffer
    ensures buffer[..] == Decrypted(key, old(buffer[..]))
  {
    hide DecryptByte;
    for i := 0 to buffer.Length
      invariant forall k :: 0 <= k < i ==> buffer[k] == DecryptByte(key, old(buffer[k]), k)
      invariant forall k :: i <= k < buffer.Length ==> buffer[k] == old(buffer[k])
    {
      buffer[i] := DecryptByte(key, buffer[i], i);
    }
  }

  lemma {:induction false} NoJump(keys: nat -> SizeT, site: nat, k: nat)
    requires 1 <= k <= 10
    ensures JumpArm(0, 0, keys, site, k) == Past
    decreases 10 - k
  {
    if k < 10 {
      NoJump(keys, site, k + 1);
    }
  }

  /** One round of the obfuscated loop, up to the assignment: two ladders with wrong
      keys, one with the right key, and two that change nothing.  The round may end
      elsewhere: in a jump, or with a wrong address. */
  method Round(key: SizeT, keys: nat -> SizeT, source: Byte, i: SizeT, x: SizeT, y: SizeT)
    returns (elsewhere: bool, decrypted: Byte)
    ensures x == 0 && y == 0 ==> !elsewhere && decrypted == DecryptByte(key, source, i)
    ensures i == 0 && !(x == 0 && y == 0) ==> elsewhere
  {
    hide DecryptByte, Limit, JumpArm;
    NoJump(keys, 61, 1);
    NoJump(keys, 81, 1);
    decrypted := *;
    if !(x <= i) {
      return true, decrypted;
    }
    var arm := Ladder(x < Sum(y, Limit(keys(0))), x, y, keys, 0);
    if arm.Jump? {
      return true, decrypted;
    }
    if arm.First? {
      decrypted := DecryptByte(keys(10), source, i);
    }
    if !(y <= i) {
      return true, decrypted;
    }
    arm := Ladder(x < Sum(y, Limit(keys(20))), x, y, keys, 20);
    if arm.Jump? {
      return true, decrypted;
    }
    if arm.First? {
      decrypted := DecryptByte(keys(30), source, i);
    }
    if !(Sum(x, y) <= i) {
      return true, decrypted;
    }
    arm := Ladder(x < Sum(y, Limit(keys(40))), x, y, keys, 40);
    if arm.Jump? {
      return true, decrypted;
    }
    if arm.First? {
      decrypted := DecryptByte(key, source, i);
    }
    if !(Sum(x, y) != Limit(keys(60))) {
      return true, decrypted;
    }
    arm := Ladder(x > Sum(y, Limit(keys(61))), x, y, keys, 61);
    if arm.Jump? {
      return true, decrypted;
    }
    if arm.First? {
      decrypted := DecryptByte(keys(71), source, i);
    }
    if !(x < Limit(keys(80))) {
      return true, decrypted;
    }
    arm := Ladder(x > Sum(y, Limit(keys(81))), x, y, keys, 81);
    if arm.Jump? {
      return true, decrypted;
    }
    if arm.First? {
      decrypted := DecryptByte(keys(91), source, i);
    }
    if !(y < Limit(keys(100))) {
      return true, decrypted;
    }
    elsewhere := false;
  }

  /** The obfuscated loop, from any values of X and Y and with any keys at the places
      where the preprocessor's counter is expanded.  It ends elsewhere unless both
      values are zero; then it does what the plain loop does. */
  method DecryptBranched(key: SizeT, keys: nat -> SizeT, buffer: array<Byte>, x: SizeT, y: SizeT)
    returns (elsewhere: bool)
    requires buffer.Length < SIZE_LIMIT
    modifies buffer
    ensures elsewhere <==> buffer.Length > 0 && !(x == 0 && y == 0)
    ensures buffer[..] == if elsewhere then old(buffer[..]) else Decrypted(key, old(buffer[..]))
  {
    hide DecryptByte;
    for i := 0 to buffer.Length
      invariant i > 0 ==> x == 0 && y == 0
      invariant forall k :: 0 <= k < i ==> buffer[k] == DecryptByte(key, old(buffer[k]), k)
      invariant forall k :: i <= k < buffer.Length ==> buffer[k] == old(buffer[k])
    {
      var source := buffer[i];
      var decrypted;
      elsewhere, decrypted := Round(key, keys, source, i, x, y);
      if elsewhere {
        return;
      }
      buffer[i] := decrypted;
    }
    elsewhere := false;
  }
}
