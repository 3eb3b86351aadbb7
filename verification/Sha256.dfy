/**
 SHA-256 as sections 3, 4.1.2, 5.1.1 and 6.2 of FIPS 180-4 define it, and the hand-written
 in-place implementation proved to compute it.
 */
module Sha256Spec {
  type byte = bv8
  type word = bv32

  // Functions and constants, sections 3.2, 4.1.2, 4.2.2 and 5.3.3.

  /** Addition modulo 2^32. */
  function Add(x: word, y: word): word { x + y }

  function Rotr(x: word, n: nat): word
    requires 0 < n < 32
  {
    x.RotateRight(n)
  }

  function Ch(x: word, y: word, z: word): word { (x & y) ^ (!x & z) }

  function Maj(x: word, y: word, z: word): word { (x & y) ^ (x & z) ^ (y & z) }

  function Xor(x: word, y: word, z: word): word { x ^ y ^ z }

  function BigSigma0(x: word): word { Xor(Rotr(x, 2), Rotr(x, 13), Rotr(x, 22)) }

  function BigSigma1(x: word): word { Xor(Rotr(x, 6), Rotr(x, 11), Rotr(x, 25)) }

  function Sigma0(x: word): word { Xor(Rotr(x, 7), Rotr(x, 18), x >> 3) }

  function Sigma1(x: word): word { Xor(Rotr(x, 17), Rotr(x, 19), x >> 10) }

  // The round constants, a row of eight each.
  const K_0: seq<word> := [0x428a2f98, 0x71374491, 0xb5c0fbcf, 0xe9b5dba5, 0x3956c25b, 0x59f111f1, 0x923f82a4, 0xab1c5ed5]
  const K_1: seq<word> := [0xd807aa98, 0x12835b01, 0x243185be, 0x550c7dc3, 0x72be5d74, 0x80deb1fe, 0x9bdc06a7, 0xc19bf174]
  const K_2: seq<word> := [0xe49b69c1, 0xefbe4786, 0x0fc19dc6, 0x240ca1cc, 0x2de92c6f, 0x4a7484aa, 0x5cb0a9dc, 0x76f988da]
  const K_3: seq<word> := [0x983e5152, 0xa831c66d, 0xb00327c8, 0xbf597fc7, 0xc6e00bf3, 0xd5a79147, 0x06ca6351, 0x14292967]
  const K_4: seq<word> := [0x27b70a85, 0x2e1b2138, 0x4d2c6dfc, 0x53380d13, 0x650a7354, 0x766a0abb, 0x81c2c92e, 0x92722c85]
  const K_5: seq<word> := [0xa2bfe8a1, 0xa81a664b, 0xc24b8b70, 0xc76c51a3, 0xd192e819, 0xd6990624, 0xf40e3585, 0x106aa070]
  const K_6: seq<word> := [0x19a4c116, 0x1e376c08, 0x2748774c, 0x34b0bcb5, 0x391c0cb3, 0x4ed8aa4a, 0x5b9cca4f, 0x682e6ff3]
  const K_7: seq<word> := [0x748f82ee, 0x78a5636f, 0x84c87814, 0x8cc70208, 0x90befffa, 0xa4506ceb, 0xbef9a3f7, 0xc67178f2]

  const K: seq<word> := K_0 + K_1 + K_2 + K_3 + K_4 + K_5 + K_6 + K_7

  datatype Vars = Vars(a: word, b: word, c: word, d: word, e: word, f: word, g: word, h: word)

  /** A hash value: eight words. */
  type hash8 = h: seq<word> | |h| == 8 witness seq(8, _ => 0)

  const H0: hash8 := [0x6a09e667, 0xbb67ae85, 0x3c6ef372, 0xa54ff53a, 0x510e527f, 0x9b05688c, 0x1f83d9ab, 0x5be0cd19]

  // Padding, section 5.1.1, for a message of whole bytes.

  /** The smallest solution k of l + 1 + k = 448 modulo 512. */
  function ZeroBits(l: nat): nat {
    (447 - l) % 512
  }

  lemma Mod512(x: int, k: int, r: nat)
    requires x == 512 * k + r && r < 512
    ensures x % 512 == r
  {
  }

  lemma ZeroBitsSmallest(l: nat, k: nat)
    ensures (l + 1 + ZeroBits(l)) % 512 == 448
    ensures (l + 1 + k) % 512 == 448 ==> ZeroBits(l) <= k
    ensures l % 8 == 0 ==> ZeroBits(l) % 8 == 7
  {
    var z, t := ZeroBits(l), (447 - l) / 512;
    assert z == 447 - l - 512 * t;
    Mod512(l + 1 + z, -t, 448);
    if (l + 1 + k) % 512 == 448 {
      var j := (l + 1 + k) / 512;
      assert k == 447 - l + 512 * j;
      assert k - z == 512 * (j + t);
    }
    if l % 8 == 0 {
      var m := l / 8;
      assert z == 8 * (55 - m - 64 * t) + 7;
    }
  }

  /** The number v in n bytes, most significant first. */
  function BigEndian(v: nat, n: nat): (r: seq<byte>)
    ensures |r| == n
  {
    if n == 0 then [] else BigEndian(v / 256, n - 1) + [(v % 256) as byte]
  }

  function Zeros(n: nat): (r: seq<byte>)
    ensures |r| == n && forall i :: 0 <= i < n ==> r[i] == 0
  {
    seq(n, _ => 0)
  }

  /** The one bit and the first seven zero bits make the byte 0x80; the length is modulo 2^64. */
  function Pad(m: seq<byte>): seq<byte> {
    m + [0x80] + Zeros(ZeroBits(8 * |m|) / 8) + BigEndian(8 * |m|, 8)
  }

  lemma Mod64(x: int, k: int, r: nat)
    requires x == 64 * k + r && r < 64
    ensures x % 64 == r
  {
  }

  lemma PaddedSize(n: nat)
    ensures (n + 1 + ZeroBits(8 * n) / 8) % 64 == 56
    ensures ZeroBits(8 * n) / 8 < 64
  {
    var t := (447 - 8 * n) / 512;
    var z := ZeroBits(8 * n);
    assert z == 447 - 8 * n - 512 * t;
    assert z == 8 * (55 - n - 64 * t) + 7;
    Mod64(n + 1 + z / 8, -t, 56);
  }

  lemma PadLength(m: seq<byte>)
    ensures |Pad(m)| % 64 == 0
  {
    var body := |m| + 1 + ZeroBits(8 * |m|) / 8;
    PaddedSize(|m|);
    Mod64(body + 8, body / 64 + 1, 0);
  }

  // Hash computation, sections 5.2.1 and 6.2.2.

  function WordAt(m: seq<byte>, i: nat): word
    requires i + 4 <= |m|
  {
    ((m[i] as word) << 24) | ((m[i + 1] as word) << 16) | ((m[i + 2] as word) << 8) | (m[i + 3] as word)
  }

  /** The message schedule of the block that starts at `at`. */
  function W(m: seq<byte>, at: nat, t: nat): word
    requires at + 64 <= |m|
  {
    if t < 16 then WordAt(m, at + 4 * t)
    else
      Add(Add(Add(Sigma1(W(m, at, t - 2)), W(m, at, t - 7)), Sigma0(W(m, at, t - 15))), W(m, at, t - 16))
  }

  function Round(v: Vars, k: word, w: word): Vars {
    var t1 := Add(Add(Add(Add(v.h, BigSigma1(v.e)), Ch(v.e, v.f, v.g)), k), w);
    var t2 := Add(BigSigma0(v.a), Maj(v.a, v.b, v.c));
    Vars(Add(t1, t2), v.a, v.b, v.c, Add(v.d, t1), v.e, v.f, v.g)
  }

  function VarsOf(h: hash8): Vars {
    Vars(h[0], h[1], h[2], h[3], h[4], h[5], h[6], h[7])
  }

  function Registers(v: Vars): hash8 {
    [v.a, v.b, v.c, v.d, v.e, v.f, v.g, v.h]
  }

  function AddWords(x: hash8, y: hash8): hash8 {
    seq(8, j requires 0 <= j < 8 => Add(x[j], y[j]))
  }

  /** The working variables before round `t` of the block with index `n`. */
  function Working(m: seq<byte>, n: nat, t: nat): Vars
    requires 64 * (n + 1) <= |m| && t <= 64
    decreases n, 1, t
  {
    if t == 0 then VarsOf(Intermediate(m, n)) else Round(Working(m, n, t - 1), K[t - 1], W(m, 64 * n, t - 1))
  }

  /** What block `n` turns the hash value into, step 4 of section 6.2.2. */
  function NextHash(m: seq<byte>, n: nat): hash8
    requires 64 * (n + 1) <= |m|
    decreases n, 2
  {
    AddWords(Registers(Working(m, n, 64)), Intermediate(m, n))
  }

  /** The intermediate hash value after the first `n` blocks. */
  function Intermediate(m: seq<byte>, n: nat): hash8
    requires 64 * n <= |m|
    decreases n, 0
  {
    if n == 0 then H0 else NextHash(m, n - 1)
  }

  function WordBytes(x: word): (r: seq<byte>)
    ensures |r| == 4
  {
    [((x >> 24) & 0xFF) as byte, ((x >> 16) & 0xFF) as byte, ((x >> 8) & 0xFF) as byte, (x & 0xFF) as byte]
  }

  /** The words one after the other, each most significant byte first. */
  function Digest(ws: seq<word>): (r: seq<byte>)
    ensures |r| == 4 * |ws|
  {
    if ws == [] then [] else Digest(ws[..|ws| - 1]) + WordBytes(ws[|ws| - 1])
  }

  type digest = d: seq<byte> | |d| == 32 witness Zeros(32)

  function Hash(m: seq<byte>): digest {
    Digest(Intermediate(Pad(m), |Pad(m)| / 64))
  }

  /** Words survive being written as bytes and read back. */
  lemma WordRoundTrip(x: word)
    ensures WordAt(WordBytes(x), 0) == x
  {
    var b := WordBytes(x);
    assert (b[0] as word) == (x >> 24) & 0xFF && (b[1] as word) == (x >> 16) & 0xFF;
    assert (b[2] as word) == (x >> 8) & 0xFF && (b[3] as word) == x & 0xFF;
  }
}

module Sha256Code {
  import opened Base256
  import opened Sha256Spec

  lemma {:induction false} BigEndianAt(v: nat, n: nat, i: nat)
    requires i < n
    ensures BigEndian(v, n)[n - 1 - i] == (ShiftRight8(v, i) % 256) as byte
  {
    if i > 0 {
      BigEndianAt(v / 256, n - 1, i - 1);
    }
  }

  /** Zeros are appended until the size is 56 modulo 64. */
  method PadZeros(input: seq<byte>) returns (msg: seq<byte>)
    ensures msg == input + [0x80] + Zeros(ZeroBits(8 * |input|) / 8)
  {
    ghost var zeros := ZeroBits(8 * |input|) / 8;
    ghost var n := 0;
    PaddedSize(|input|);
    msg := input + [0x80];
    while |msg| % 64 != 56
      invariant n <= zeros
      invariant msg == input + [0x80] + Zeros(n)
      decreases zeros - n
    {
      assert n < zeros;
      msg := msg + [0x00];
      n := n + 1;
    }
    NoEarlierStop(|input| + 1, |msg|, |input| + 1 + zeros);
  }

  lemma NoEarlierStop(from: nat, n: nat, end: nat)
    requires from <= n <= end < from + 64 && n % 64 == 56 && end % 64 == 56
    ensures n == end
  {
  }

  /** The length in eight bytes, most significant first. */
  method AppendLength(body: seq<byte>, bitLen: nat) returns (msg: seq<byte>)
    ensures msg == body + BigEndian(bitLen, 8)
  {
    ghost var length := BigEndian(bitLen, 8);
    msg := body;
    var i := 7;
    while i >= 0
      invariant -1 <= i <= 7
      invariant msg == body + length[..7 - i]
    {
      BigEndianAt(bitLen, 8, i);
      assert length[..7 - i] + [length[7 - i]] == length[..8 - i];
      msg := msg + [(ShiftRight8(bitLen, i) % 256) as byte];
      i := i - 1;
    }
    assert length[..8] == length;
  }

  lemma CarryOut(v: nat, q: nat, p: nat)
    ensures q * (256 * p) == 256 * (q * p)
    ensures (v + 256 * (q * p)) / 256 == v / 256 + q * p && (v + 256 * (q * p)) % 256 == v % 256
  {
  }

  /** Eight bytes hold a length modulo 2^64. */
  lemma {:induction false} BigEndianWraps(v: nat, q: nat, n: nat)
    ensures BigEndian(v + q * Power256(n), n) == BigEndian(v, n)
  {
    if n > 0 {
      CarryOut(v, q, Power256(n - 1));
      BigEndianWraps(v / 256, q, n - 1);
    }
  }

  /** The length as 64-bit arithmetic gives it has the same eight bytes. */
  lemma WrappedLength(length: nat)
    ensures BigEndian(length % TWO_64, 8) == BigEndian(length, 8)
  {
    var low, q := length % TWO_64, length / TWO_64;
    Power256Of8();
    BigEndianWraps(low, q, 8);
    assert low + q * TWO_64 == length;
  }

  /** The padded message: one byte 0x80, zeros, then the bit length. */
  method PadMessage(input: seq<byte>) returns (msg: seq<byte>)
    ensures msg == Pad(input)
  {
    var bitLen := (|input| * 8) % TWO_64;
    WrappedLength(|input| * 8);
    msg := PadZeros(input);
    msg := AppendLength(msg, bitLen);
  }

  method LoadWords(msg: seq<byte>, offset: nat, w: array<word>)
    requires offset + 64 <= |msg| && w.Length == 64
    modifies w
    ensures forall t :: 0 <= t < 16 ==> w[t] == W(msg, offset, t)
  {
    for i := 0 to 16
      invariant forall t :: 0 <= t < i ==> w[t] == W(msg, offset, t)
    {
      w[i] := ((msg[offset + i * 4] as word) << 24) | ((msg[offset + i * 4 + 1] as word) << 16)
              | ((msg[offset + i * 4 + 2] as word) << 8) | (msg[offset + i * 4 + 3] as word);
      assert w[i] == WordAt(msg, offset + 4 * i);
    }
  }

  /** The rotation as the code writes it: two shifts and an or. */
  function RightRotate(x: word, n: nat): word
    requires 0 < n < 32
  {
    (x >> n) | (x << (32 - n))
  }

  lemma RotationsAgree(x: word)
    ensures RightRotate(x, 2) == Rotr(x, 2) && RightRotate(x, 6) == Rotr(x, 6) && RightRotate(x, 7) == Rotr(x, 7)
    ensures RightRotate(x, 11) == Rotr(x, 11) && RightRotate(x, 13) == Rotr(x, 13) && RightRotate(x, 17) == Rotr(x, 17)
    ensures RightRotate(x, 18) == Rotr(x, 18) && RightRotate(x, 19) == Rotr(x, 19) && RightRotate(x, 22) == Rotr(x, 22)
    ensures RightRotate(x, 25) == Rotr(x, 25)
  {
  }

  method ScheduleSums(x15: word, x2: word) returns (s0: word, s1: word)
    ensures s0 == Sigma0(x15) && s1 == Sigma1(x2)
  {
    RotationsAgree(x15);
    RotationsAgree(x2);
    s0 := Xor(RightRotate(x15, 7), RightRotate(x15, 18), x15 >> 3);
    s1 := Xor(RightRotate(x2, 17), RightRotate(x2, 19), x2 >> 10);
  }

  method RoundSums(a: word, e: word) returns (s0: word, s1: word)
    ensures s0 == BigSigma0(a) && s1 == BigSigma1(e)
  {
    RotationsAgree(a);
    RotationsAgree(e);
    s1 := Xor(RightRotate(e, 6), RightRotate(e, 11), RightRotate(e, 25));
    s0 := Xor(RightRotate(a, 2), RightRotate(a, 13), RightRotate(a, 22));
  }

  lemma SumOrder(a: word, s0: word, b: word, s1: word)
    ensures Add(Add(Add(a, s0), b), s1) == Add(Add(Add(s1, b), s0), a)
  {
    calc {
      Add(Add(Add(a, s0), b), s1);
      Add(Add(a + s0, b), s1);
      Add(a + s0 + b, s1);
      a + s0 + b + s1;
      s1 + b + s0 + a;
      Add(s1 + b + s0, a);
      Add(Add(s1 + b, s0), a);
      Add(Add(Add(s1, b), s0), a);
    }
  }

  lemma ScheduleStep(msg: seq<byte>, at: nat, t: nat, x16: word, s0: word, x7: word, s1: word)
    requires at + 64 <= |msg| && 16 <= t
    requires x16 == W(msg, at, t - 16) && s0 == Sigma0(W(msg, at, t - 15))
    requires x7 == W(msg, at, t - 7) && s1 == Sigma1(W(msg, at, t - 2))
    ensures Add(Add(Add(x16, s0), x7), s1) == W(msg, at, t)
  {
    SumOrder(x16, s0, x7, s1);
  }

  /** The message schedule of one block, extended in place from its sixteen words. */
  method ExtendWords(msg: seq<byte>, offset: nat, w: array<word>)
    requires offset + 64 <= |msg| && w.Length == 64
    requires forall t :: 0 <= t < 16 ==> w[t] == W(msg, offset, t)
    modifies w
    ensures forall t :: 0 <= t < 64 ==> w[t] == W(msg, offset, t)
  {
    for i := 16 to 64
      invariant forall t :: 0 <= t < i ==> w[t] == W(msg, offset, t)
    {
      var s0, s1 := ScheduleSums(w[i - 15], w[i - 2]);
      ScheduleStep(msg, offset, i, w[i - 16], s0, w[i - 7], s1);
      w[i] := Add(Add(Add(w[i - 16], s0), w[i - 7]), s1);
    }
  }

  /** The sixty-four rounds over one block, in eight registers. */
  method Compress(msg: seq<byte>, ghost n: nat, w: array<word>, h: hash8) returns (r: Vars)
    requires 64 * (n + 1) <= |msg| && w.Length == 64 && h == Intermediate(msg, n)
    requires forall t :: 0 <= t < 64 ==> w[t] == W(msg, 64 * n, t)
    ensures r == Working(msg, n, 64)
  {
    var a, b, c, d := h[0], h[1], h[2], h[3];
    var e, f, g, hh := h[4], h[5], h[6], h[7];
    for i := 0 to 64
      invariant Vars(a, b, c, d, e, f, g, hh) == Working(msg, n, i)
    {
      var s0, s1 := RoundSums(a, e);
      var ch := (e & f) ^ (!e & g);
      var temp1 := Add(Add(Add(Add(hh, s1), ch), K[i]), w[i]);
      var maj := (a & b) ^ (a & c) ^ (b & c);
      var temp2 := Add(s0, maj);
      assert Vars(Add(temp1, temp2), a, b, c, Add(d, temp1), e, f, g) == Round(Vars(a, b, c, d, e, f, g, hh), K[i], w[i]);
      hh, g, f, e, d, c, b, a := g, f, e, Add(d, temp1), c, b, a, Add(temp1, temp2);
    }
    r := Vars(a, b, c, d, e, f, g, hh);
  }

  lemma SumAt(x: hash8, y: hash8, j: nat, sum: word)
    requires j < 8 && sum == Add(x[j], y[j])
    ensures AddWords(x, y)[j] == sum
  {
  }

  lemma EightSums(v: Vars, h: hash8, sums: hash8)
    requires sums[0] == Add(v.a, h[0]) && sums[1] == Add(v.b, h[1]) && sums[2] == Add(v.c, h[2])
    requires sums[3] == Add(v.d, h[3]) && sums[4] == Add(v.e, h[4]) && sums[5] == Add(v.f, h[5])
    requires sums[6] == Add(v.g, h[6]) && sums[7] == Add(v.h, h[7])
    ensures sums == AddWords(Registers(v), h)
  {
    var r := Registers(v);
    SumAt(r, h, 0, sums[0]);
    SumAt(r, h, 1, sums[1]);
    SumAt(r, h, 2, sums[2]);
    SumAt(r, h, 3, sums[3]);
    SumAt(r, h, 4, sums[4]);
    SumAt(r, h, 5, sums[5]);
    SumAt(r, h, 6, sums[6]);
    SumAt(r, h, 7, sums[7]);
  }

  /** The registers added to the hash value, word by word. */
  method AddRegisters(h: array<word>, v: Vars)
    requires h.Length == 8
    modifies h
    ensures h[..] == AddWords(Registers(v), old(h[..]))
  {
    ghost var was := h[..];
    h[0] := Add(v.a, h[0]);
    h[1] := Add(v.b, h[1]);
    h[2] := Add(v.c, h[2]);
    h[3] := Add(v.d, h[3]);
    h[4] := Add(v.e, h[4]);
    h[5] := Add(v.f, h[5]);
    h[6] := Add(v.g, h[6]);
    h[7] := Add(v.h, h[7]);
    EightSums(v, was, h[..]);
  }

  /** One block of the outer loop: load, extend, compress, add to the hash value. */
  method ProcessBlock(msg: seq<byte>, offset: nat, h: array<word>, ghost n: nat)
    requires h.Length == 8 && offset == 64 * n && offset + 64 <= |msg| && h[..] == Intermediate(msg, n)
    modifies h
    ensures h[..] == Intermediate(msg, n + 1)
  {
    var w := new word[64];
    LoadWords(msg, offset, w);
    ExtendWords(msg, offset, w);
    var v := Compress(msg, n, w, h[..]);
    AddRegisters(h, v);
  }

  method PutWord(out: array<byte>, at: nat, val: word)
    requires at + 4 <= out.Length
    modifies out
    ensures out[..at + 4] == old(out[..at]) + WordBytes(val)
  {
    out[at] := ((val >> 24) & 0xFF) as byte;
    out[at + 1] := ((val >> 16) & 0xFF) as byte;
    out[at + 2] := ((val >> 8) & 0xFF) as byte;
    out[at + 3] := (val & 0xFF) as byte;
  }

  method WriteDigest(h: hash8) returns (hash: seq<byte>)
    ensures hash == Digest(h)
  {
    var out := new byte[32];
    for i := 0 to 8
      invariant out[..4 * i] == Digest(h[..i])
    {
      DigestStep(h, i);
      PutWord(out, 4 * i, h[i]);
    }
    hash := out[..32];
    assert h[..8] == h;
  }

  lemma DigestStep(ws: seq<word>, i: nat)
    requires i < |ws|
    ensures Digest(ws[..i + 1]) == Digest(ws[..i]) + WordBytes(ws[i])
  {
    assert ws[..i + 1][..i] == ws[..i];
  }

  /** The outer loop over the blocks of the padded message. */
  method HashBlocks(msg: seq<byte>, ghost blocks: nat) returns (h: hash8)
    requires |msg| == 64 * blocks
    ensures h == Intermediate(msg, blocks)
  {
    var state := new word[8](i requires 0 <= i < 8 => H0[i]);
    assert state[..] == H0;
    var offset := 0;
    ghost var n := 0;
    while offset < |msg|
      invariant offset == 64 * n && n <= blocks
      invariant state[..] == Intermediate(msg, n)
    {
      ProcessBlock(msg, offset, state, n);
      offset := offset + 64;
      n := n + 1;
    }
    assert n == blocks;
    h := state[..];
  }

  /** The standard's hash, which it defines for fewer than 2^64 bits; longer inputs wrap alike. */
  method Sha256(input: seq<byte>) returns (hash: seq<byte>)
    ensures hash == Hash(input)
  {
    var msg := PadMessage(input);
    PadLength(input);
    var h := HashBlocks(msg, |msg| / 64);
    hash := WriteDigest(h);
  }
}
