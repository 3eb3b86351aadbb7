/** The packed project file: a little-endian header with a checksum, and two payloads. */
module PackedProject {
  import opened Base256
  import opened Wrappers

  newtype byte = b: int | 0 <= b < 256
  type bytes = seq<byte>

  type uint64 = v: nat | v < TWO_64

  const MAGIC: bytes := [80, 85, 69, 82, 72, 80, 75, 49]
  const VERSION: nat := 3
  const MAX_COMPONENT: nat := 0x8000_0000

  // -------------------------------------------------------- little endian

  /** The n low bytes of v, least significant first. */
  function Le(v: nat, n: nat): (r: bytes)
    ensures |r| == n
  {
    if n == 0 then [] else [(v % 256) as byte] + Le(v / 256, n - 1)
  }

  function FromLe(s: bytes): nat {
    if s == [] then 0 else s[0] as nat + 256 * FromLe(s[1..])
  }

  lemma {:induction false} FromLeLe(v: nat, n: nat)
    requires v < Power256(n)
    ensures FromLe(Le(v, n)) == v
  {
    if n > 0 {
      assert v / 256 < Power256(n - 1);
      FromLeLe(v / 256, n - 1);
      assert Le(v, n)[1..] == Le(v / 256, n - 1);
    }
  }

  lemma {:induction false} LeFromLe(s: bytes)
    ensures Le(FromLe(s), |s|) == s
  {
    if s != [] {
      var rest := FromLe(s[1..]);
      LeFromLe(s[1..]);
      LowByte(s[0] as nat, rest);
      assert [s[0]] + s[1..] == s;
    }
  }

  lemma LowByte(low: nat, rest: nat)
    requires low < 256
    ensures (low + 256 * rest) % 256 == low && (low + 256 * rest) / 256 == rest
  {
  }

  lemma {:induction false} LeSnoc(v: nat, i: nat)
    ensures Le(v, i + 1) == Le(v, i) + [(ShiftRight8(v, i) % 256) as byte]
  {
    if i == 0 {
      assert Le(v, 1) == [(v % 256) as byte] + Le(v / 256, 0);
    } else {
      LeSnoc(v / 256, i - 1);
    }
  }

  lemma {:induction false} FromLeSnoc(s: bytes, b: byte)
    ensures FromLe(s + [b]) == FromLe(s) + b as nat * Power256(|s|)
  {
    if s == [] {
      assert s + [b] == [b];
    } else {
      assert (s + [b])[1..] == s[1..] + [b];
      FromLeSnoc(s[1..], b);
      Scale(FromLe(s[1..]), b as nat, Power256(|s| - 1));
    }
  }

  lemma Scale(a: nat, b: nat, p: nat)
    ensures 256 * (a + b * p) == 256 * a + b * (256 * p)
  {
  }

  // --------------------------------------------------------------- streams

  class OutputStream {
    var written: bytes

    constructor ()
      ensures written == []
    {
      written := [];
    }

    method Write(data: bytes)
      modifies this
      ensures written == old(written) + data
    {
      written := written + data;
    }

    method WriteU32Le(value: nat)
      modifies this
      ensures written == old(written) + Le(value, 4)
    {
      LeSnoc(value, 0);
      LeSnoc(value, 1);
      LeSnoc(value, 2);
      LeSnoc(value, 3);
      Write([(value % 256) as byte, (ShiftRight8(value, 1) % 256) as byte,
             (ShiftRight8(value, 2) % 256) as byte, (ShiftRight8(value, 3) % 256) as byte]);
    }

    method WriteU64Le(value: nat)
      modifies this
      ensures written == old(written) + Le(value, 8)
    {
      var data := U64Bytes(value);
      Write(data);
    }
  }

  /** Eight bytes filled one after the other. */
  method U64Bytes(value: nat) returns (r: bytes)
    ensures r == Le(value, 8)
  {
    var a := new byte[8](_ => 0);
    for i := 0 to 8
      invariant a[..i] == Le(value, i)
    {
      LeSnoc(value, i);
      a[i] := (ShiftRight8(value, i) % 256) as byte;
      assert a[..i + 1] == a[..i] + [a[i]];
    }
    r := a[..];
    assert a[..8] == a[..];
  }

  class InputStream {
    const data: bytes
    var pos: nat

    ghost predicate Valid()
      reads this
    {
      pos <= |data|
    }

    constructor (data: bytes)
      ensures Valid() && this.data == data && pos == 0
    {
      this.data := data;
      pos := 0;
    }

    method ReadExact(n: nat) returns (r: Option<bytes>)
      requires Valid()
      modifies this
      ensures Valid()
      ensures old(pos) + n <= |data| ==> r == Some(data[old(pos)..old(pos) + n]) && pos == old(pos) + n
      ensures old(pos) + n > |data| ==> r == None
    {
      if pos + n > |data| {
        pos := |data|;
        return None;
      }
      r := Some(data[pos..pos + n]);
      pos := pos + n;
    }

    method ReadU32Le() returns (r: Option<nat>)
      requires Valid()
      modifies this
      ensures Valid()
      ensures old(pos) + 4 <= |data| ==> r == Some(FromLe(data[old(pos)..old(pos) + 4])) && pos == old(pos) + 4
      ensures old(pos) + 4 > |data| ==> r == None
    {
      var b := ReadExact(4);
      if b.None? {
        return None;
      }
      r := Some(b.value[0] as nat + b.value[1] as nat * 0x100 + b.value[2] as nat * 0x1_0000 + b.value[3] as nat * 0x100_0000);
      FourBytes(b.value);
    }

    method ReadU64Le() returns (r: Option<nat>)
      requires Valid()
      modifies this
      ensures Valid()
      ensures old(pos) + 8 <= |data| ==> r == Some(FromLe(data[old(pos)..old(pos) + 8])) && pos == old(pos) + 8
      ensures old(pos) + 8 > |data| ==> r == None
    {
      var b := ReadExact(8);
      if b.None? {
        return None;
      }
      var value := U64Value(b.value);
      return Some(value);
    }
  }

  lemma FourBytes(s: bytes)
    requires |s| == 4
    ensures FromLe(s) == s[0] as nat + s[1] as nat * 0x100 + s[2] as nat * 0x1_0000 + s[3] as nat * 0x100_0000
  {
    assert s[1..][1..] == s[2..] && s[2..][1..] == s[3..] && s[3..][1..] == [];
    assert FromLe(s[3..]) == s[3] as nat;
    assert FromLe(s[2..]) == s[2] as nat + 256 * FromLe(s[3..]);
    assert FromLe(s[1..]) == s[1] as nat + 256 * FromLe(s[2..]);
  }

  /** The bytes do not overlap once shifted, so or-ing them in is adding them. */
  method U64Value(s: bytes) returns (value: nat)
    requires |s| == 8
    ensures value == FromLe(s)
  {
    value := 0;
    for i := 0 to 8
      invariant value == FromLe(s[..i])
    {
      assert s[..i + 1] == s[..i] + [s[i]];
      FromLeSnoc(s[..i], s[i]);
      value := value + s[i] as nat * Power256(i);
    }
    assert s[..8] == s;
  }

  // ------------------------------------------------------------- the file

  type Checksum = bytes -> uint64

  /** What the checksum covers. */
  function Hashed(meta: bytes, db: bytes): bytes {
    MAGIC + Le(VERSION, 4) + Le(|meta|, 8) + Le(|db|, 8) + meta + db
  }

  function Header(metaSize: nat, dbSize: nat, checksum: nat): (r: bytes)
    ensures |r| == 36
  {
    MAGIC + Le(VERSION, 4) + Le(metaSize, 8) + Le(dbSize, 8) + Le(checksum, 8)
  }

  function Packed(sum: Checksum, meta: bytes, db: bytes): bytes {
    Header(|meta|, |db|, sum(Hashed(meta, db))) + meta + db
  }

  predicate Fits(meta: bytes, db: bytes) {
    |meta| <= MAX_COMPONENT && |db| <= MAX_COMPONENT
  }

  method HashInput(metaSize: nat, dbSize: nat, meta: bytes, db: bytes) returns (r: bytes)
    ensures r == MAGIC + Le(VERSION, 4) + Le(metaSize, 8) + Le(dbSize, 8) + meta + db
  {
    var version := new OutputStream();
    version.WriteU32Le(VERSION);
    var metaBytes := U64Bytes(metaSize);
    var dbBytes := U64Bytes(dbSize);
    r := MAGIC;
    r := r + version.written;
    r := r + metaBytes;
    r := r + dbBytes;
    r := r + meta;
    r := r + db;
  }

  method WritePackedProject(sum: Checksum, meta: bytes, db: bytes) returns (file: bytes)
    ensures file == Packed(sum, meta, db)
  {
    var hashInput := HashInput(|meta|, |db|, meta, db);
    var checksum := sum(hashInput);
    var out := new OutputStream();
    WriteHeader(out, |meta|, |db|, checksum);
    WritePayload(out, meta);
    WritePayload(out, db);
    file := out.written;
  }

  method WriteHeader(out: OutputStream, metaSize: nat, dbSize: nat, checksum: nat)
    requires out.written == []
    modifies out
    ensures out.written == Header(metaSize, dbSize, checksum)
  {
    out.Write(MAGIC);
    out.WriteU32Le(VERSION);
    ghost var start := MAGIC + Le(VERSION, 4);
    assert out.written == start;
    out.WriteU64Le(metaSize);
    out.WriteU64Le(dbSize);
    assert out.written == start + Le(metaSize, 8) + Le(dbSize, 8);
    out.WriteU64Le(checksum);
  }

  method WritePayload(out: OutputStream, payload: bytes)
    modifies out
    ensures out.written == old(out.written) + payload
  {
    if payload != [] {
      out.Write(payload);
    }
  }

  datatype ReadError = BadSignature | BadVersion | BadHeader | TooLarge | ShortMetadata | ShortDatabase | TrailingData | BadChecksum

  /** What the reader makes of a file. */
  function Unpacked(sum: Checksum, f: bytes): Result<(bytes, bytes), ReadError> {
    if |f| < 8 || f[..8] != MAGIC then Err(BadSignature)
    else if |f| < 12 || FromLe(f[8..12]) != VERSION then Err(BadVersion)
    else if |f| < 36 then Err(BadHeader)
    else
      var metaSize, dbSize := FromLe(f[12..20]), FromLe(f[20..28]);
      if metaSize > MAX_COMPONENT || dbSize > MAX_COMPONENT then Err(TooLarge)
      else if |f| < 36 + metaSize then Err(ShortMetadata)
      else if |f| < 36 + metaSize + dbSize then Err(ShortDatabase)
      else if |f| > 36 + metaSize + dbSize then Err(TrailingData)
      else
        var meta, db := f[36..36 + metaSize], f[36 + metaSize..];
        if sum(Hashed(meta, db)) != FromLe(f[28..36]) then Err(BadChecksum) else Ok((meta, db))
  }

  method ReadPackedProject(sum: Checksum, f: bytes) returns (r: Result<(bytes, bytes), ReadError>)
    ensures r == Unpacked(sum, f)
  {
    var input := new InputStream(f);
    var magic := input.ReadExact(8);
    if magic.None? || magic.value != MAGIC {
      return Err(BadSignature);
    }
    var version := input.ReadU32Le();
    if version.None? || version.value != VERSION {
      return Err(BadVersion);
    }
    var metaSize := input.ReadU64Le();
    if metaSize.None? {
      return Err(BadHeader);
    }
    var dbSize := input.ReadU64Le();
    if dbSize.None? {
      return Err(BadHeader);
    }
    var checksum := input.ReadU64Le();
    if checksum.None? {
      return Err(BadHeader);
    }
    if metaSize.value > MAX_COMPONENT || dbSize.value > MAX_COMPONENT {
      return Err(TooLarge);
    }
    r := ReadPayload(sum, input, metaSize.value, dbSize.value, checksum.value);
  }

  method ReadPayload(sum: Checksum, input: InputStream, metaSize: nat, dbSize: nat, checksum: nat)
    returns (r: Result<(bytes, bytes), ReadError>)
    requires input.Valid() && input.pos == 36
    modifies input
    ensures var f := input.data;
            r == if |f| < 36 + metaSize then Err(ShortMetadata)
                 else if |f| < 36 + metaSize + dbSize then Err(ShortDatabase)
                 else if |f| > 36 + metaSize + dbSize then Err(TrailingData)
                 else if sum(Hashed(f[36..36 + metaSize], f[36 + metaSize..])) != checksum then Err(BadChecksum)
                 else Ok((f[36..36 + metaSize], f[36 + metaSize..]))
  {
    var meta := Some([]);
    if metaSize > 0 {
      meta := input.ReadExact(metaSize);
      if meta.None? {
        return Err(ShortMetadata);
      }
    }
    var db := Some([]);
    if dbSize > 0 {
      db := input.ReadExact(dbSize);
      if db.None? {
        return Err(ShortDatabase);
      }
    }
    if input.pos < |input.data| {
      return Err(TrailingData);
    }
    ghost var f := input.data;
    assert meta.value == f[36..36 + metaSize] && db.value == f[36 + metaSize..];
    var hashInput := HashInput(metaSize, dbSize, meta.value, db.value);
    if sum(hashInput) != checksum {
      return Err(BadChecksum);
    }
    return Ok((meta.value, db.value));
  }

  lemma Sections(a: bytes, b: bytes, c: bytes, d: bytes, e: bytes, meta: bytes, db: bytes)
    requires |a| == 8 && |b| == 4 && |c| == |d| == |e| == 8
    ensures var f := a + b + c + d + e + meta + db;
            && |f| == 36 + |meta| + |db| && f[..8] == a && f[8..12] == b && f[12..20] == c && f[20..28] == d
            && f[28..36] == e && f[36..36 + |meta|] == meta && f[36 + |meta|..] == db
  {
  }

  /** Reading what was written gives both payloads back exactly when both are within the size limit. */
  lemma ReadAfterWrite(sum: Checksum, meta: bytes, db: bytes)
    ensures Unpacked(sum, Packed(sum, meta, db)) == Ok((meta, db)) <==> Fits(meta, db)
  {
    var f, s := Packed(sum, meta, db), sum(Hashed(meta, db));
    Sections(MAGIC, Le(VERSION, 4), Le(|meta|, 8), Le(|db|, 8), Le(s, 8), meta, db);
    Power256Of8();
    FromLeLe(VERSION, 4);
    FromLeLe(s, 8);
    if Fits(meta, db) {
      FromLeLe(|meta|, 8);
      FromLeLe(|db|, 8);
    }
  }

  lemma Reassembled(f: bytes, meta: bytes, db: bytes)
    requires |f| == 36 + |meta| + |db| && f[36..36 + |meta|] == meta && f[36 + |meta|..] == db
    ensures f == f[..8] + f[8..12] + f[12..20] + f[20..28] + f[28..36] + meta + db
  {
  }

  /** Every file the reader accepts is what the writer produces for the payloads it returns. */
  lemma AcceptedIsWritten(sum: Checksum, f: bytes, meta: bytes, db: bytes)
    ensures Unpacked(sum, f) == Ok((meta, db)) <==> Fits(meta, db) && f == Packed(sum, meta, db)
  {
    if Unpacked(sum, f) == Ok((meta, db)) {
      LeFromLe(f[8..12]);
      LeFromLe(f[12..20]);
      LeFromLe(f[20..28]);
      LeFromLe(f[28..36]);
      Reassembled(f, meta, db);
    }
    ReadAfterWrite(sum, meta, db);
  }
}
