/**
 HMAC as section 2 of RFC 2104 defines it and PBKDF2 as section 5.2 of RFC 8018 defines
 it, and the fallback implementation proved to compute them.
 */
module KeyDerivation {
  import opened Sha256Spec
  import opened Sha256Code
  import opened CredentialCrypto

  // The standards.

  /** A key longer than the 64-byte block is hashed; the result is zero-extended to the block. */
  function BlockKey(key: bytes): (r: bytes)
    ensures |r| == 64
  {
    var k := if |key| > 64 then Hash(key) else key;
    k + Zeros(64 - |k|)
  }

  function Repeat(b: byte, n: nat): (r: bytes)
    ensures |r| == n && forall i :: 0 <= i < n ==> r[i] == b
  {
    seq(n, _ => b)
  }

  function Hmac(key: bytes, text: bytes): digest {
    Hash(XorBytes(BlockKey(key), Repeat(0x5c, 64)) + Hash(XorBytes(BlockKey(key), Repeat(0x36, 64)) + text))
  }

  /** PBKDF2 takes any pseudorandom function; the fallback uses HMAC. */
  type Prf = (bytes, bytes) -> digest

  /** U_j, for j >= 1, of block number i. */
  function U(prf: Prf, password: bytes, salt: bytes, i: nat, j: nat): (r: bytes)
    ensures |r| == 32
  {
    if j <= 1 then prf(password, salt + BigEndian(i, 4))
    else prf(password, U(prf, password, salt, i, j - 1))
  }

  /** U_1 xor ... xor U_c */
  function F(prf: Prf, password: bytes, salt: bytes, i: nat, c: nat): digest {
    if c <= 1 then U(prf, password, salt, i, 1)
    else XorBytes(F(prf, password, salt, i, c - 1), U(prf, password, salt, i, c))
  }

  /** T_1 .. T_l */
  function Blocks(t: nat -> digest, l: nat): (r: bytes)
    ensures |r| == 32 * l
  {
    if l == 0 then [] else Blocks(t, l - 1) + t(l)
  }

  function Pbkdf2(prf: Prf, password: bytes, salt: bytes, c: nat, dkLen: nat): (r: bytes)
    ensures |r| == dkLen
  {
    Blocks(i => F(prf, password, salt, i, c), (dkLen + 31) / 32)[..dkLen]
  }

  // The fallback.

  /** Both paddings xored in place with the block key. */
  method XorPads(keyBlock: bytes, ipad: array<byte>, opad: array<byte>)
    requires |keyBlock| == 64 && ipad.Length == 64 && opad.Length == 64 && ipad != opad
    requires ipad[..] == Repeat(0x36, 64) && opad[..] == Repeat(0x5c, 64)
    modifies ipad, opad
    ensures ipad[..] == XorBytes(keyBlock, Repeat(0x36, 64)) && opad[..] == XorBytes(keyBlock, Repeat(0x5c, 64))
  {
    ghost var inner, outer := XorBytes(keyBlock, Repeat(0x36, 64)), XorBytes(keyBlock, Repeat(0x5c, 64));
    for i := 0 to 64
      invariant forall k :: 0 <= k < 64 ==> ipad[k] == (if k < i then inner[k] else 0x36)
      invariant forall k :: 0 <= k < 64 ==> opad[k] == (if k < i then outer[k] else 0x5c)
    {
      ipad[i] := ipad[i] ^ keyBlock[i];
      opad[i] := opad[i] ^ keyBlock[i];
    }
  }

  method HmacSha256(key: bytes, data: bytes) returns (r: bytes)
    ensures r == Hmac(key, data)
  {
    var ipad := new byte[64](_ => 0x36);
    var opad := new byte[64](_ => 0x5c);
    var keyBlock := key;
    if |keyBlock| > 64 {
      keyBlock := Sha256(keyBlock);
    }
    keyBlock := keyBlock + Zeros(64 - |keyBlock|);
    XorPads(keyBlock, ipad, opad);
    var innerHash := Sha256(ipad[..] + data);
    r := Sha256(opad[..] + innerHash);
  }

  method XorInto(acc: array<byte>, t: bytes)
    requires acc.Length == |t|
    modifies acc
    ensures acc[..] == XorBytes(old(acc[..]), t)
  {
    ghost var before := acc[..];
    for j := 0 to acc.Length
      invariant forall k :: 0 <= k < acc.Length ==> acc[k] == (if k < j then before[k] ^ t[k] else before[k])
    {
      acc[j] := acc[j] ^ t[j];
    }
  }

  /** The running T and the xor accumulator over the iterations of one block. */
  method DeriveBlock(password: bytes, salt: bytes, block: nat, iterations: nat) returns (r: bytes)
    requires iterations >= 1
    ensures r == F(Hmac, password, salt, block, iterations)
  {
    var u := salt;
    u := u + BigEndian(block, 4);
    var t := HmacSha256(password, u);
    var acc := new byte[32](i requires 0 <= i < 32 => t[i]);
    assert acc[..] == t;
    for iter := 1 to iterations
      invariant t == U(Hmac, password, salt, block, iter)
      invariant acc[..] == F(Hmac, password, salt, block, iter)
    {
      u := HmacSha256(password, t);
      t := u;
      XorInto(acc, t);
    }
    r := acc[..];
  }

  /** The loop's two exits coincide. */
  lemma ExitsAgree(n: nat, dkLen: nat)
    ensures n < (dkLen + 31) / 32 <==> 32 * n < dkLen
  {
  }

  /** The blocks T_i by number; the trigger keeps the loop over them away from what is inside one. */
  ghost predicate AreBlocks(t: nat -> digest, password: bytes, salt: bytes, iterations: nat) {
    forall i: nat {:trigger F(Hmac, password, salt, i, iterations)} :: t(i) == F(Hmac, password, salt, i, iterations)
  }

  method NextBlock(password: bytes, salt: bytes, block: nat, iterations: nat, ghost t: nat -> digest) returns (r: bytes)
    requires iterations >= 1 && AreBlocks(t, password, salt, iterations)
    ensures r == t(block)
  {
    r := DeriveBlock(password, salt, block, iterations);
  }

  method DeriveBlocks(password: bytes, salt: bytes, iterations: nat, blocks: nat, dkLen: nat, ghost t: nat -> digest)
    returns (result: bytes)
    requires iterations >= 1 && blocks == (dkLen + 31) / 32 && AreBlocks(t, password, salt, iterations)
    ensures result == Blocks(t, blocks)
  {
    result := [];
    var block: nat := 1;
    while block <= blocks && |result| < dkLen
      invariant 1 <= block <= blocks + 1
      invariant result == Blocks(t, block - 1)
    {
      var part := NextBlock(password, salt, block, iterations, t);
      result := result + part;
      block := block + 1;
    }
    ExitsAgree(block - 1, dkLen);
  }

  method DeriveKeyFromPassword(password: bytes, salt: bytes, iterations: nat, dkLen: nat) returns (key: bytes)
    requires iterations >= 1
    ensures key == Pbkdf2(Hmac, password, salt, iterations, dkLen)
  {
    ghost var t := (i: nat) => F(Hmac, password, salt, i, iterations);
    var result := DeriveBlocks(password, salt, iterations, (dkLen + 32 - 1) / 32, dkLen, t);
    assert Pbkdf2(Hmac, password, salt, iterations, dkLen) == Blocks(t, (dkLen + 31) / 32)[..dkLen];
    key := result[..dkLen];
  }
}
