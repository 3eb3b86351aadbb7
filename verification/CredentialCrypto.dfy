/**
 The credential file: key stretching, the xor stream cipher, and the sealed frame
 MAGIC | SALT | IV | TAG | CIPHERTEXT.  Random salts and ivs are parameters.
 */
module CredentialCrypto {
  import opened Base256
  import opened Wrappers
  import opened Sha256Spec
  import opened Sha256Code

  type bytes = seq<byte>

  /** The bytes of an unsigned integer in memory, least significant first. */
  function LittleEndian(v: nat, n: nat): (r: bytes)
    ensures |r| == n
  {
    if n == 0 then [] else [(v % 256) as byte] + LittleEndian(v / 256, n - 1)
  }

  /** The number is read off byte by byte. */
  lemma {:induction false} LittleEndianAt(v: nat, n: nat, i: nat)
    requires i < n
    ensures LittleEndian(v, n)[i] == (ShiftRight8(v, i) % 256) as byte
  {
    if i > 0 {
      LittleEndianAt(v / 256, n - 1, i - 1);
    }
  }

  lemma NextByte(x: byte)
    requires x as nat < 255
    ensures (x + 1) as nat == x as nat + 1
  {
  }

  lemma {:induction false} ByteWith(a: nat) returns (x: byte)
    requires a < 256
    ensures x as nat == a
  {
    if a == 0 {
      x := 0;
    } else {
      x := ByteWith(a - 1);
      NextByte(x);
      x := x + 1;
    }
  }

  lemma ByteOf(a: nat)
    requires a < 256
    ensures (a as byte) as nat == a
  {
    var x := ByteWith(a);
    assert x == (x as nat) as byte;
  }

  lemma LowAndRest(v: nat, w: nat)
    requires v % 256 == w % 256 && v / 256 == w / 256
    ensures v == w
  {
  }

  /** No two numbers that fit have the same bytes. */
  lemma {:induction false} LittleEndianInjective(v: nat, w: nat, n: nat)
    requires v < Power256(n) && w < Power256(n) && LittleEndian(v, n) == LittleEndian(w, n)
    ensures v == w
  {
    if n > 0 {
      var a, b := LittleEndian(v, n), LittleEndian(w, n);
      assert a[0] == b[0];
      ByteOf(v % 256);
      ByteOf(w % 256);
      assert a[1..] == LittleEndian(v / 256, n - 1) && b[1..] == LittleEndian(w / 256, n - 1);
      LittleEndianInjective(v / 256, w / 256, n - 1);
      LowAndRest(v, w);
    }
  }

  function Ascii(s: string): (r: bytes)
    ensures |r| == |s|
  {
    seq(|s|, i requires 0 <= i < |s| => (s[i] as int % 256) as byte)
  }

  // ------------------------------------------------------- key stretching

  /** Each key is the hash of the one before it and its counter in four bytes. */
  ghost predicate Chained(keys: seq<bytes>) {
    forall i :: 0 <= i < |keys| - 1 ==> keys[i + 1] == Hash(keys[i] + LittleEndian(i, 4))
  }

  method DeriveMasterKey(machineId: bytes) returns (key: bytes)
    ensures exists keys: seq<bytes> ::
              && |keys| == 1001 && keys[0] == Hash(machineId + Ascii(":AlcedoStudio:CredentialKey:v1"))
              && Chained(keys) && keys[1000] == key
    ensures |key| == 32
  {
    key := Sha256(machineId + Ascii(":AlcedoStudio:CredentialKey:v1"));
    ghost var keys := [key];
    for i := 0 to 1000
      invariant |keys| == i + 1 && keys[0] == Hash(machineId + Ascii(":AlcedoStudio:CredentialKey:v1"))
      invariant Chained(keys) && keys[i] == key && |key| == 32
    {
      key := Sha256(key + LittleEndian(i, 4));
      keys := keys + [key];
    }
  }

  // --------------------------------------------------------- stream cipher

  function KeyBlock(key: bytes, iv: bytes, counter: nat): (r: bytes)
    ensures |r| == 32
  {
    Hash(key + iv + LittleEndian(counter, 8))
  }

  function StreamByte(key: bytes, iv: bytes, i: nat): byte {
    KeyBlock(key, iv, i / 32)[i % 32]
  }

  /** Each byte of the input xored with the key stream byte of its position. */
  function Crypt(key: bytes, input: bytes, iv: bytes): (r: bytes)
    ensures |r| == |input|
    ensures forall i :: 0 <= i < |r| ==> r[i] == input[i] ^ StreamByte(key, iv, i)
  {
    seq(|input|, i requires 0 <= i < |input| => input[i] ^ StreamByte(key, iv, i))
  }

  lemma XorTwice(a: byte, b: byte)
    ensures (a ^ b) ^ b == a
  {
  }

  /** The cipher undoes itself, at every length. */
  lemma CryptTwice(key: bytes, input: bytes, iv: bytes)
    ensures Crypt(key, Crypt(key, input, iv), iv) == input
  {
    var once := Crypt(key, input, iv);
    forall i | 0 <= i < |input| ensures Crypt(key, once, iv)[i] == input[i] {
      XorTwice(input[i], StreamByte(key, iv, i));
    }
  }

  function XorBytes(a: bytes, b: bytes): (r: bytes)
    requires |a| <= |b|
    ensures |r| == |a|
  {
    seq(|a|, i requires 0 <= i < |a| => a[i] ^ b[i])
  }

  lemma CryptAt(key: bytes, input: bytes, iv: bytes, counter: nat, i: nat)
    requires i < 32 && 32 * counter + i < |input|
    ensures Crypt(key, input, iv)[32 * counter + i] == input[32 * counter + i] ^ KeyBlock(key, iv, counter)[i]
  {
    assert (32 * counter + i) / 32 == counter && (32 * counter + i) % 32 == i;
  }

  lemma XorExtend(input: bytes, output: bytes, at: nat, toCopy: nat, block: bytes)
    requires |output| == |input| && at + toCopy <= |input| && toCopy <= |block|
    requires forall i :: 0 <= i < toCopy ==> output[at + i] == input[at + i] ^ block[i]
    ensures output[..at + toCopy] == output[..at] + XorBytes(input[at..at + toCopy], block)
  {
  }

  /** One more block of key stream. */
  lemma CryptExtend(key: bytes, input: bytes, iv: bytes, counter: nat, toCopy: nat)
    requires toCopy <= 32 && 32 * counter + toCopy <= |input|
    ensures Crypt(key, input, iv)[..32 * counter + toCopy] ==
            Crypt(key, input, iv)[..32 * counter]
            + XorBytes(input[32 * counter..32 * counter + toCopy], KeyBlock(key, iv, counter))
  {
    forall i | 0 <= i < toCopy
      ensures Crypt(key, input, iv)[32 * counter + i] == input[32 * counter + i] ^ KeyBlock(key, iv, counter)[i]
    {
      CryptAt(key, input, iv, counter, i);
    }
    XorExtend(input, Crypt(key, input, iv), 32 * counter, toCopy, KeyBlock(key, iv, counter));
  }

  /** Two blocks of a message never hash the same bytes. */
  lemma BlocksHashApart(key: bytes, iv: bytes, c: nat, d: nat)
    requires c < TWO_64 && d < TWO_64 && c != d
    ensures key + iv + LittleEndian(c, 8) != key + iv + LittleEndian(d, 8)
  {
    Power256Of8();
    var a, b := key + iv + LittleEndian(c, 8), key + iv + LittleEndian(d, 8);
    if a == b {
      assert a[|key + iv|..] == LittleEndian(c, 8) && b[|key + iv|..] == LittleEndian(d, 8);
      LittleEndianInjective(c, d, 8);
    }
  }

  lemma CryptIs(key: bytes, input: bytes, iv: bytes)
    ensures var r := Crypt(key, input, iv);
            forall i :: 0 <= i < |r| ==> r[i] == input[i] ^ Hash(key + iv + LittleEndian(i / 32, 8))[i % 32]
  {
  }

  method XorBlock(input: bytes, block: bytes, output: array<byte>, offset: nat, toCopy: nat)
    requires |input| == output.Length && offset + toCopy <= |input| && toCopy <= |block|
    modifies output
    ensures output[..offset + toCopy] == old(output[..offset]) + XorBytes(input[offset..offset + toCopy], block)
  {
    ghost var want := XorBytes(input[offset..offset + toCopy], block);
    for i := 0 to toCopy
      invariant output[..offset + i] == old(output[..offset]) + want[..i]
    {
      output[offset + i] := input[offset + i] ^ block[i];
      assert output[..offset + i + 1] == output[..offset + i] + [want[i]];
    }
  }

  /** Byte i is xored with byte i % 32 of the hash of key, iv and the counter i / 32 in eight bytes. */
  method XorCrypt(key: bytes, input: bytes, iv: bytes) returns (r: bytes)
    ensures r == Crypt(key, input, iv)
    ensures |r| == |input|
    ensures forall i :: 0 <= i < |r| ==> r[i] == input[i] ^ Hash(key + iv + LittleEndian(i / 32, 8))[i % 32]
  {
    var output := new byte[|input|];
    var offset, counter := 0, 0;
    while offset < |input|
      invariant offset <= |input| && (offset == 32 * counter || offset == |input|)
      invariant output[..offset] == Crypt(key, input, iv)[..offset]
    {
      var block := Sha256(key + iv + LittleEndian(counter, 8));
      var left := |input| - offset;
      var toCopy := if |block| < left then |block| else left;
      CryptExtend(key, input, iv, counter, toCopy);
      XorBlock(input, block, output, offset, toCopy);
      offset := offset + toCopy;
      counter := counter + 1;
    }
    r := output[..];
    assert output[..offset] == output[..] && Crypt(key, input, iv)[..offset] == Crypt(key, input, iv);
    CryptIs(key, input, iv);
  }

  // ----------------------------------------------------------- sealed file

  const MAGIC: bytes := Ascii("ALCEDO1")
  const SALT_LEN := 32
  const IV_LEN := 12
  const TAG_LEN := 16
  const HEADER_LEN := 7 + SALT_LEN + IV_LEN + TAG_LEN

  function Tag(iv: bytes, salt: bytes, encrypted: bytes): (r: bytes)
    ensures |r| == TAG_LEN
  {
    Hash(iv + salt + encrypted)[..TAG_LEN]
  }

  function Seal(master: bytes, plain: bytes, salt: bytes, iv: bytes): bytes {
    var encrypted := Crypt(Hash(master + salt), plain, iv);
    MAGIC + salt + iv + Tag(iv, salt, encrypted) + encrypted
  }

  method EncryptData(master: bytes, plain: bytes, salt: bytes, iv: bytes) returns (r: bytes)
    ensures r == Seal(master, plain, salt, iv)
    ensures exists encrypted: bytes ::
              && |encrypted| == |plain|
              && (forall i :: 0 <= i < |plain| ==>
                    encrypted[i] == plain[i] ^ Hash(Hash(master + salt) + iv + LittleEndian(i / 32, 8))[i % 32])
              && r == MAGIC + salt + iv + Hash(iv + salt + encrypted)[..16] + encrypted
  {
    var slotKey := Sha256(master + salt);
    var encrypted := XorCrypt(slotKey, plain, iv);
    var fullTag := Sha256(iv + salt + encrypted);
    var tag := fullTag[..TAG_LEN];
    assert [] + MAGIC == MAGIC && tag == Tag(iv, salt, encrypted);
    r := [];
    r := r + MAGIC;
    r := r + salt;
    r := r + iv;
    r := r + tag;
    r := r + encrypted;
  }

  /** What a file of these bytes decrypts to, if it is accepted at all. */
  function Unseal(master: bytes, c: bytes): Option<bytes> {
    if |c| < HEADER_LEN || c[..7] != MAGIC then None
    else
      var salt, iv, tag, encrypted := c[7..39], c[39..51], c[51..67], c[67..];
      if tag != Tag(iv, salt, encrypted) then None
      else Some(Crypt(Hash(master + salt), encrypted, iv))
  }

  method DecryptData(master: bytes, c: bytes) returns (r: Option<bytes>)
    ensures r == Unseal(master, c)
  {
    if |c| < HEADER_LEN {
      return None;
    }
    if c[..7] != MAGIC {
      return None;
    }
    var offset := 7;
    var salt := c[offset..offset + SALT_LEN];
    offset := offset + SALT_LEN;
    var iv := c[offset..offset + IV_LEN];
    offset := offset + IV_LEN;
    var tag := c[offset..offset + TAG_LEN];
    offset := offset + TAG_LEN;
    var encrypted := c[offset..];
    var slotKey := Sha256(master + salt);
    var fullTag := Sha256(iv + salt + encrypted);
    if tag != fullTag[..TAG_LEN] {
      return None;
    }
    var decrypted := XorCrypt(slotKey, encrypted, iv);
    return Some(decrypted);
  }

  lemma Sections(a: bytes, b: bytes, c: bytes, d: bytes, e: bytes)
    requires |a| == 7 && |b| == SALT_LEN && |c| == IV_LEN && |d| == TAG_LEN
    ensures var x := a + b + c + d + e;
            x[..7] == a && x[7..39] == b && x[39..51] == c && x[51..67] == d && x[67..] == e
  {
  }

  /** Decrypting what was encrypted gives the plaintext back, for every salt and iv. */
  lemma UnsealSeal(master: bytes, plain: bytes, salt: bytes, iv: bytes)
    requires |salt| == SALT_LEN && |iv| == IV_LEN
    ensures Unseal(master, Seal(master, plain, salt, iv)) == Some(plain)
  {
    var encrypted := Crypt(Hash(master + salt), plain, iv);
    Sections(MAGIC, salt, iv, Tag(iv, salt, encrypted), encrypted);
    CryptTwice(Hash(master + salt), plain, iv);
  }

  /** A file is accepted exactly when the writer could have produced it, and then for that plaintext. */
  lemma AcceptsExactlySealed(master: bytes, c: bytes, plain: bytes)
    ensures Unseal(master, c) == Some(plain) <==>
            exists salt, iv :: |salt| == SALT_LEN && |iv| == IV_LEN && c == Seal(master, plain, salt, iv)
  {
    if Unseal(master, c) == Some(plain) {
      var salt, iv, tag, encrypted := c[7..39], c[39..51], c[51..67], c[67..];
      CryptTwice(Hash(master + salt), encrypted, iv);
      assert c == MAGIC + salt + iv + tag + encrypted;
      assert c == Seal(master, plain, salt, iv);
    }
    forall salt, iv | |salt| == SALT_LEN && |iv| == IV_LEN && c == Seal(master, plain, salt, iv)
      ensures Unseal(master, c) == Some(plain)
    {
      UnsealSeal(master, plain, salt, iv);
    }
  }
}
