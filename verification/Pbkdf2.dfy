/**
 Password hashing: HMAC-SHA-256 (section 2 of RFC 2104) and PBKDF2 (section 5.2 of RFC 8018).

 SHA-256 is any function of the concatenated bytes with 32 bytes of output.
 */
module Pbkdf2 {

  type Bytes = seq<bv8>

  type Hash = Bytes -> Bytes

  const BLOCK: nat := 64
  const OUTPUT: nat := 32
  const MAX_BLOCKS: nat := 0xFFFF_FFFF

  ghost predicate IsHash(h: Hash)
  {
    forall m :: |h(m)| == OUTPUT
  }

  // ---- the standards ----

  /** The key padded with zeros to a block; a longer key is hashed first. */
  function PaddedKey(h: Hash, key: Bytes): (k: Bytes)
    requires IsHash(h)
    ensures |k| == BLOCK
  {
    var short := if |key| > BLOCK then h(key) else key;
    short + seq(BLOCK - |short|, i => 0)
  }

  function XorWith(s: Bytes, pad: bv8): (r: Bytes)
    ensures |r| == |s| && forall i :: 0 <= i < |s| ==> r[i] == s[i] ^ pad
  {
    seq(|s|, i requires 0 <= i < |s| => s[i] ^ pad)
  }

  /** H(K XOR opad, H(K XOR ipad, text)). */
  function Hmac(h: Hash, key: Bytes, text: Bytes): (r: Bytes)
    requires IsHash(h)
    ensures |r| == OUTPUT
  {
    var k := PaddedKey(h, key);
    h(XorWith(k, 0x5c) + h(XorWith(k, 0x36) + text))
  }

  /** INT (i): four bytes, most significant first. */
  function Int(i: nat): Bytes
    requires i < 0x1_0000_0000
  {
    [(i / 0x100_0000) as bv8, (i / 0x1_0000 % 0x100) as bv8, (i / 0x100 % 0x100) as bv8, (i % 0x100) as bv8]
  }

  /** U_c of a block: PRF (P, S || INT (i)), then PRF (P, U_{c-1}). */
  function U(h: Hash, password: Bytes, salt: Bytes, block: nat, c: nat): (r: Bytes)
    requires IsHash(h) && 1 <= c && block < 0x1_0000_0000
    ensures |r| == OUTPUT
  {
    Hmac(h, password, if c == 1 then salt + Int(block) else U(h, password, salt, block, c - 1))
  }

  function Xor(a: Bytes, b: Bytes): (r: Bytes)
    requires |a| == |b|
    ensures |r| == |a| && forall i :: 0 <= i < |a| ==> r[i] == a[i] ^ b[i]
  {
    seq(|a|, i requires 0 <= i < |a| => a[i] ^ b[i])
  }

  /** F (P, S, c, i): the exclusive-or of U_1 to U_c. */
  function F(h: Hash, password: Bytes, salt: Bytes, c: nat, block: nat): (r: Bytes)
    requires IsHash(h) && 1 <= c && block < 0x1_0000_0000
    ensures |r| == OUTPUT
  {
    if c == 1 then U(h, password, salt, block, 1)
    else Xor(F(h, password, salt, c - 1, block), U(h, password, salt, block, c))
  }

  /** T_1 || ... || T_l. */
  function Blocks(h: Hash, password: Bytes, salt: Bytes, c: nat, l: nat): (r: Bytes)
    requires IsHash(h) && 1 <= c && l <= MAX_BLOCKS
    ensures |r| == OUTPUT * l
  {
    if l == 0 then [] else Blocks(h, password, salt, c, l - 1) + F(h, password, salt, c, l)
  }

  function DivCeil(n: nat): nat
  {
    (n + OUTPUT - 1) / OUTPUT
  }

  /** The derived key; a length over (2^32 - 1) * 32 is an error of the standard's. */
  function DerivedKey(h: Hash, password: Bytes, salt: Bytes, c: nat, length: nat): (r: Bytes)
    requires IsHash(h) && 1 <= c && length <= MAX_BLOCKS * OUTPUT
    ensures |r| == length
  {
    Blocks(h, password, salt, c, DivCeil(length))[..length]
  }

  // ---- byte by byte ----

  /** The exclusive-or of the bytes at one place. */
  function XorAt(us: seq<Bytes>, k: nat): bv8
    requires us != [] && forall u :: u in us ==> k < |u|
  {
    if |us| == 1 then us[0][k] else XorAt(us[..|us| - 1], k) ^ us[|us| - 1][k]
  }

  /** Each is the code of the one before, the first that of the salt with the block's number. */
  ghost predicate Chained(h: Hash, password: Bytes, salt: Bytes, block: nat, us: seq<Bytes>)
    requires IsHash(h) && block < 0x1_0000_0000
  {
    && us != [] && us[0] == Hmac(h, password, salt + Int(block))
    && forall j :: 0 < j < |us| ==> us[j] == Hmac(h, password, us[j - 1])
  }

  lemma {:induction false} BlockIsXor(h: Hash, password: Bytes, salt: Bytes, c: nat, block: nat, k: nat) returns (us: seq<Bytes>)
    requires IsHash(h) && 1 <= c && block < 0x1_0000_0000 && k < OUTPUT
    ensures |us| == c && Chained(h, password, salt, block, us) && us[c - 1] == U(h, password, salt, block, c)
    ensures (forall u :: u in us ==> |u| == OUTPUT) && F(h, password, salt, c, block)[k] == XorAt(us, k)
  {
    hide Hmac, Int;
    if c == 1 {
      us := [U(h, password, salt, block, 1)];
    } else {
      var before := BlockIsXor(h, password, salt, c - 1, block, k);
      us := before + [U(h, password, salt, block, c)];
      assert us[..c - 1] == before;
    }
  }

  lemma {:induction false} BlockStands(h: Hash, password: Bytes, salt: Bytes, c: nat, l: nat, i: nat, k: nat)
    requires IsHash(h) && 1 <= c && 1 <= i <= l <= MAX_BLOCKS && k < OUTPUT
    ensures (i - 1) * OUTPUT + k < |Blocks(h, password, salt, c, l)|
    ensures Blocks(h, password, salt, c, l)[(i - 1) * OUTPUT + k] == F(h, password, salt, c, i)[k]
  {
    hide F;
    if i < l {
      BlockStands(h, password, salt, c, l - 1, i, k);
    }
  }

  /** Every byte of the derived key is the exclusive-or of the c codes of its block, at its place in it. */
  lemma DerivedByte(h: Hash, password: Bytes, salt: Bytes, c: nat, length: nat, p: nat) returns (us: seq<Bytes>)
    requires IsHash(h) && 1 <= c && length <= MAX_BLOCKS * OUTPUT && p < length
    ensures p / 32 + 1 < 0x1_0000_0000 && |us| == c && Chained(h, password, salt, p / 32 + 1, us)
    ensures (forall u :: u in us ==> |u| == 32) && DerivedKey(h, password, salt, c, length)[p] == XorAt(us, p % 32)
  {
    hide Blocks, F, Chained, XorAt;
    var i, k := p / OUTPUT + 1, p % OUTPUT;
    assert (i - 1) * OUTPUT + k == p && i <= DivCeil(length);
    us := BlockIsXor(h, password, salt, c, i, k);
    BlockStands(h, password, salt, c, DivCeil(length), i, k);
  }

  /** A key of up to a block stands at the front of it; of a longer one its hash does. Zeros follow. */
  lemma PaddedByte(h: Hash, key: Bytes, i: nat)
    requires IsHash(h) && i < 64
    ensures PaddedKey(h, key)[i] ==
      if |key| <= 64 then (if i < |key| then key[i] else 0) else if i < 32 then h(key)[i] else 0
  {
  }

  // ---- the pool's code ----

  /** A running hash: the bytes absorbed so far. */
  class Hasher {
    const h: Hash
    var absorbed: Bytes

    constructor (h: Hash)
      ensures this.h == h && absorbed == []
    {
      this.h := h;
      absorbed := [];
    }

    method Update(data: Bytes)
      modifies this
      ensures absorbed == old(absorbed) + data
    {
      absorbed := absorbed + data;
    }

    method Clone() returns (copy: Hasher)
      ensures fresh(copy) && copy.h == h && copy.absorbed == absorbed
    {
      copy := new Hasher(h);
      copy.absorbed := absorbed;
    }

    method Finalize() returns (digest: Bytes)
      ensures digest == h(absorbed)
    {
      return h(absorbed);
    }
  }

  /** The key block: zeros, with the key or its hash copied over them. */
  method KeyBlock(h: Hash, key: Bytes) returns (block: array<bv8>)
    requires IsHash(h)
    ensures fresh(block) && block[..] == PaddedKey(h, key)
  {
    block := new bv8[BLOCK](i => 0);
    var source := if |key| > BLOCK then h(key) else key;
    for i := 0 to |source|
      invariant forall k :: 0 <= k < i ==> block[k] == source[k]
      invariant forall k :: i <= k < BLOCK ==> block[k] == 0
    {
      block[i] := source[i];
    }
  }

  method XorBlock(block: array<bv8>, pad: bv8) returns (r: Bytes)
    ensures r == XorWith(block[..], pad)
  {
    r := [];
    for i := 0 to block.Length
      invariant |r| == i && forall k :: 0 <= k < i ==> r[k] == block[k] ^ pad
    {
      r := r + [block[i] ^ pad];
    }
  }

  method HmacSha256(h: Hash, key: Bytes, message: Bytes) returns (r: Bytes)
    requires IsHash(h)
    ensures r == Hmac(h, key, message)
  {
    var block := KeyBlock(h, key);
    var inner := new Hasher(h);
    var ipad := XorBlock(block, 0x36);
    inner.Update(ipad);
    inner.Update(message);
    var digest := inner.Finalize();
    var outer := new Hasher(h);
    var opad := XorBlock(block, 0x5c);
    outer.Update(opad);
    outer.Update(digest);
    r := outer.Finalize();
    assert [] + ipad + message == ipad + message && [] + opad + digest == opad + digest;
  }

  /** The keyed states, cloned for every message instead of absorbing the key again. */
  method Mac(keyedInner: Hasher, keyedOuter: Hasher, message: Bytes, ghost h: Hash, ghost key: Bytes) returns (r: Bytes)
    requires IsHash(h) && keyedInner.h == h && keyedOuter.h == h
    requires keyedInner.absorbed == XorWith(PaddedKey(h, key), 0x36) && keyedOuter.absorbed == XorWith(PaddedKey(h, key), 0x5c)
    ensures r == Hmac(h, key, message)
  {
    var inner := keyedInner.Clone();
    inner.Update(message);
    var outer := keyedOuter.Clone();
    var digest := inner.Finalize();
    outer.Update(digest);
    r := outer.Finalize();
  }

  /** `pbkdf2_sha256`: the standard's derived key, for every length the standard allows. */
  method Pbkdf2Sha256(h: Hash, password: Bytes, salt: Bytes, iterations: nat, keyLength: nat) returns (derived: Bytes)
    requires IsHash(h) && iterations >= 1
    ensures |derived| == if keyLength <= MAX_BLOCKS * OUTPUT then keyLength else MAX_BLOCKS * OUTPUT
    ensures keyLength <= MAX_BLOCKS * OUTPUT ==> derived == DerivedKey(h, password, salt, iterations, keyLength)
  {
    hide Hmac, PaddedKey, Xor, XorWith;
    var block := KeyBlock(h, password);
    var keyedInner := new Hasher(h);
    var ipad := XorBlock(block, 0x36);
    keyedInner.Update(ipad);
    var keyedOuter := new Hasher(h);
    var opad := XorBlock(block, 0x5c);
    keyedOuter.Update(opad);
    assert [] + ipad == ipad && [] + opad == opad;
    var blocks := DivCeil(keyLength);
    var count := if blocks <= MAX_BLOCKS then blocks else MAX_BLOCKS;
    derived := [];
    for l := 0 to count
      invariant derived == Blocks(h, password, salt, iterations, l)
      invariant keyedInner.absorbed == ipad && keyedOuter.absorbed == opad
    {
      var message := salt + Int(l + 1);
      var u := Mac(keyedInner, keyedOuter, message, h, password);
      var result := u;
      for c := 1 to iterations
        invariant u == U(h, password, salt, l + 1, c) && result == F(h, password, salt, c, l + 1)
        invariant keyedInner.absorbed == ipad && keyedOuter.absorbed == opad
      {
        u := Mac(keyedInner, keyedOuter, u, h, password);
        result := XorInto(result, u);
      }
      derived := derived + result;
    }
    if |derived| > keyLength {
      derived := derived[..keyLength];
    }
  }

  method XorInto(result: Bytes, u: Bytes) returns (r: Bytes)
    requires |result| == |u|
    ensures r == Xor(result, u)
  {
    r := result;
    for i := 0 to |u|
      invariant |r| == |u| && (forall k :: 0 <= k < i ==> r[k] == result[k] ^ u[k])
      invariant forall k :: i <= k < |u| ==> r[k] == result[k]
    {
      r := r[i := r[i] ^ u[i]];
    }
  }

  lemma NoBitsLeft(d: bv8, x: bv8, y: bv8)
    ensures d | (x ^ y) == 0 <==> d == 0 && x == y
  {
  }

  /** `constant_time_eq`: every byte is looked at, and the answer is equality. */
  method ConstantTimeEq(a: Bytes, b: Bytes) returns (same: bool)
    ensures same <==> a == b
  {
    if |a| != |b| {
      return false;
    }
    var diff: bv8 := 0;
    for i := 0 to |a|
      invariant diff == 0 <==> a[..i] == b[..i]
    {
      NoBitsLeft(diff, a[i], b[i]);
      assert a[..i + 1] == a[..i] + [a[i]] && b[..i + 1] == b[..i] + [b[i]];
      diff := diff | (a[i] ^ b[i]);
    }
    assert a[..|a|] == a && b[..|b|] == b;
    return diff == 0;
  }
}
