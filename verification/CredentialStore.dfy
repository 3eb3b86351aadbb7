/**
 The two credential stores, the in-memory map and the directory of sealed files, and
 how far a caller can tell them apart.  File operations succeed; salts and ivs are given.
 */
module CredentialStore {
  import opened Wrappers
  import opened Sha256Spec
  import opened CredentialCrypto

  predicate ValidSlot(slot: string) {
    slot != [] && forall i :: 0 <= i < |slot| ==>
      'a' <= slot[i] <= 'z' || '0' <= slot[i] <= '9' || slot[i] == '_'
  }

  datatype StoreError = InvalidSlot | Missing | EmptyFile | Rejected

  datatype Op =
    | Save(slot: string, secret: bytes, salt: bytes, iv: bytes)
    | Load(slot: string)
    | Delete(slot: string)
    | Has(slot: string)
  {
    /** The sizes the random source is asked for. */
    predicate WellFormed() {
      Save? ==> |salt| == SALT_LEN && |iv| == IV_LEN
    }
  }

  /** What a caller sees; the wording of an error message is not part of it. */
  datatype Answer = Done(ok: bool) | Secret(found: Option<bytes>)

  function MemAnswer(entries: map<string, bytes>, op: Op): Answer {
    match op
    case Save(slot, _, _, _) => Done(ValidSlot(slot))
    case Load(slot) => Secret(if slot in entries then Some(entries[slot]) else None)
    case Delete(_) => Done(true)
    case Has(slot) => Done(slot in entries)
  }

  function MemNext(entries: map<string, bytes>, op: Op): map<string, bytes> {
    match op
    case Save(slot, secret, _, _) => if ValidSlot(slot) then entries[slot := secret] else entries
    case Delete(slot) => entries - {slot}
    case _ => entries
  }

  class InMemoryStore {
    var entries: map<string, bytes>

    constructor ()
      ensures entries == map[]
    {
      entries := map[];
    }

    method SaveCredential(slot: string, secret: bytes, ghost salt: bytes, ghost iv: bytes) returns (r: Result<(), StoreError>)
      modifies this
      ensures entries == MemNext(old(entries), Save(slot, secret, salt, iv))
      ensures Done(r.Ok?) == MemAnswer(old(entries), Save(slot, secret, salt, iv))
      ensures r.Err? ==> r.error == InvalidSlot
    {
      if !ValidSlot(slot) {
        return Err(InvalidSlot);
      }
      entries := entries[slot := secret];
      return Ok(());
    }

    method LoadCredential(slot: string) returns (r: Result<bytes, StoreError>)
      ensures Secret(if r.Ok? then Some(r.value) else None) == MemAnswer(entries, Load(slot))
      ensures r.Err? ==> r.error == Missing
    {
      if slot !in entries {
        return Err(Missing);
      }
      return Ok(entries[slot]);
    }

    method DeleteCredential(slot: string) returns (r: Result<(), StoreError>)
      modifies this
      ensures entries == MemNext(old(entries), Delete(slot))
      ensures Done(r.Ok?) == MemAnswer(old(entries), Delete(slot))
    {
      entries := entries - {slot};
      return Ok(());
    }

    method HasCredential(slot: string) returns (r: bool)
      ensures Done(r) == MemAnswer(entries, Has(slot))
    {
      return slot in entries;
    }
  }

  // ------------------------------------------------------------ file store

  /** Sealing with a salt and an iv, and opening, under one master key. */
  datatype Cipher = Cipher(seal: (bytes, bytes, bytes) -> bytes, open: bytes -> Option<bytes>)

  function CipherOf(masterKey: bytes): Cipher {
    Cipher((plain, salt, iv) => Seal(masterKey, plain, salt, iv), sealed => Unseal(masterKey, sealed))
  }

  ghost predicate Opens(cipher: Cipher) {
    && cipher.open([]) == None
    && forall plain, salt, iv :: |salt| == SALT_LEN && |iv| == IV_LEN ==>
         cipher.open(cipher.seal(plain, salt, iv)) == Some(plain)
  }

  lemma CipherOpens(masterKey: bytes)
    ensures Opens(CipherOf(masterKey))
  {
    var cipher := CipherOf(masterKey);
    forall plain: bytes, salt: bytes, iv: bytes | |salt| == SALT_LEN && |iv| == IV_LEN
      ensures cipher.open(cipher.seal(plain, salt, iv)) == Some(plain)
    {
      UnsealSeal(masterKey, plain, salt, iv);
    }
  }

  /** Every file in the directory is a sealed credential under a valid slot. */
  ghost predicate Sound(cipher: Cipher, files: map<string, bytes>) {
    forall slot :: slot in files ==> ValidSlot(slot) && cipher.open(files[slot]).Some?
  }

  /** The secrets the directory stands for. */
  ghost function Secrets(cipher: Cipher, files: map<string, bytes>): map<string, bytes>
    requires Sound(cipher, files)
  {
    map slot | slot in files :: cipher.open(files[slot]).value
  }

  function FileAnswer(cipher: Cipher, files: map<string, bytes>, op: Op): Answer {
    match op
    case Save(slot, _, _, _) => Done(ValidSlot(slot))
    case Load(slot) => Secret(if ValidSlot(slot) && slot in files && files[slot] != [] then cipher.open(files[slot]) else None)
    case Delete(slot) => Done(ValidSlot(slot))
    case Has(slot) => Done(ValidSlot(slot) && slot in files)
  }

  function FileNext(cipher: Cipher, files: map<string, bytes>, op: Op): map<string, bytes> {
    match op
    case Save(slot, secret, salt, iv) =>
      if ValidSlot(slot) then files[slot := cipher.seal(secret, salt, iv)] else files
    case Delete(slot) => if ValidSlot(slot) then files - {slot} else files
    case _ => files
  }

  class EncryptedFileStore {
    var files: map<string, bytes>
    const masterKey: bytes

    constructor (masterKey: bytes, files: map<string, bytes>)
      ensures this.masterKey == masterKey && this.files == files
    {
      this.masterKey := masterKey;
      this.files := files;
    }

    method SaveCredential(slot: string, secret: bytes, salt: bytes, iv: bytes) returns (r: Result<(), StoreError>)
      modifies this
      ensures files == FileNext(CipherOf(masterKey), old(files), Save(slot, secret, salt, iv))
      ensures Done(r.Ok?) == FileAnswer(CipherOf(masterKey), old(files), Save(slot, secret, salt, iv))
    {
      if !ValidSlot(slot) {
        return Err(InvalidSlot);
      }
      var ciphertext := EncryptData(masterKey, secret, salt, iv);
      files := files[slot := ciphertext];
      return Ok(());
    }

    method LoadCredential(slot: string) returns (r: Result<bytes, StoreError>)
      ensures Secret(if r.Ok? then Some(r.value) else None) == FileAnswer(CipherOf(masterKey), files, Load(slot))
      ensures r == Err(InvalidSlot) <==> !ValidSlot(slot)
      ensures r == Err(Missing) <==> ValidSlot(slot) && slot !in files
      ensures r == Err(EmptyFile) <==> ValidSlot(slot) && slot in files && files[slot] == []
      ensures r == Err(Rejected) <==>
                ValidSlot(slot) && slot in files && files[slot] != [] && Unseal(masterKey, files[slot]).None?
    {
      if !ValidSlot(slot) {
        return Err(InvalidSlot);
      }
      if slot !in files {
        return Err(Missing);
      }
      var ciphertext := files[slot];
      if ciphertext == [] {
        return Err(EmptyFile);
      }
      var plaintext := DecryptData(masterKey, ciphertext);
      if plaintext.None? {
        return Err(Rejected);
      }
      return Ok(plaintext.value);
    }

    method DeleteCredential(slot: string) returns (r: Result<(), StoreError>)
      modifies this
      ensures files == FileNext(CipherOf(masterKey), old(files), Delete(slot))
      ensures Done(r.Ok?) == FileAnswer(CipherOf(masterKey), old(files), Delete(slot))
    {
      if !ValidSlot(slot) {
        return Err(InvalidSlot);
      }
      if slot !in files {
        return Ok(());
      }
      files := files - {slot};
      return Ok(());
    }

    method HasCredential(slot: string) returns (r: bool)
      ensures Done(r) == FileAnswer(CipherOf(masterKey), files, Has(slot))
    {
      return ValidSlot(slot) && slot in files;
    }
  }

  // ----------------------------------------------- telling the stores apart

  lemma PutSimulates(cipher: Cipher, files: map<string, bytes>, slot: string, sealed: bytes, secret: bytes)
    requires Sound(cipher, files) && ValidSlot(slot) && cipher.open(sealed) == Some(secret)
    ensures Sound(cipher, files[slot := sealed])
    ensures Secrets(cipher, files[slot := sealed]) == Secrets(cipher, files)[slot := secret]
  {
  }

  lemma DeleteSimulates(cipher: Cipher, files: map<string, bytes>, slot: string)
    requires Sound(cipher, files)
    ensures Sound(cipher, files - {slot})
    ensures Secrets(cipher, files - {slot}) == Secrets(cipher, files) - {slot}
    ensures !ValidSlot(slot) ==> Secrets(cipher, files) - {slot} == Secrets(cipher, files)
  {
  }

  /** One operation keeps the directory a faithful encoding of the map. */
  lemma StepSimulates(cipher: Cipher, files: map<string, bytes>, op: Op)
    requires Opens(cipher) && Sound(cipher, files) && op.WellFormed()
    ensures Sound(cipher, FileNext(cipher, files, op))
    ensures Secrets(cipher, FileNext(cipher, files, op)) == MemNext(Secrets(cipher, files), op)
  {
    match op
    case Save(slot, secret, salt, iv) =>
      if ValidSlot(slot) {
        PutSimulates(cipher, files, slot, cipher.seal(secret, salt, iv), secret);
      }
    case Delete(slot) => DeleteSimulates(cipher, files, slot);
    case _ =>
  }

  /** The answers differ exactly when an invalid slot is deleted: the map says yes, the files no. */
  lemma AnswersDiffer(cipher: Cipher, files: map<string, bytes>, op: Op)
    requires Opens(cipher) && Sound(cipher, files)
    ensures FileAnswer(cipher, files, op) == MemAnswer(Secrets(cipher, files), op)
            <==> (op.Delete? ==> ValidSlot(op.slot))
  {
    if op.Load? && op.slot in files {
      assert files[op.slot] != [];
    }
  }

  function MemRun(entries: map<string, bytes>, ops: seq<Op>): seq<Answer>
    decreases |ops|
  {
    if ops == [] then []
    else [MemAnswer(entries, ops[0])] + MemRun(MemNext(entries, ops[0]), ops[1..])
  }

  function FileRun(cipher: Cipher, files: map<string, bytes>, ops: seq<Op>): seq<Answer>
    decreases |ops|
  {
    if ops == [] then []
    else [FileAnswer(cipher, files, ops[0])] + FileRun(cipher, FileNext(cipher, files, ops[0]), ops[1..])
  }

  /**
   For every sequence of operations the file store answers like the map of its secrets,
   exactly when the sequence deletes no invalid slot.
   */
  lemma {:induction false} StoresAgree(cipher: Cipher, files: map<string, bytes>, ops: seq<Op>)
    requires Opens(cipher) && Sound(cipher, files) && forall i :: 0 <= i < |ops| ==> ops[i].WellFormed()
    ensures FileRun(cipher, files, ops) == MemRun(Secrets(cipher, files), ops)
            <==> forall i :: 0 <= i < |ops| && ops[i].Delete? ==> ValidSlot(ops[i].slot)
    decreases |ops|
  {
    if ops != [] {
      var entries := Secrets(cipher, files);
      AnswersDiffer(cipher, files, ops[0]);
      StepSimulates(cipher, files, ops[0]);
      var f, m := FileRun(cipher, FileNext(cipher, files, ops[0]), ops[1..]), MemRun(MemNext(entries, ops[0]), ops[1..]);
      StoresAgree(cipher, FileNext(cipher, files, ops[0]), ops[1..]);
      assert FileRun(cipher, files, ops)[0] == FileAnswer(cipher, files, ops[0]) && FileRun(cipher, files, ops)[1..] == f;
      assert MemRun(entries, ops)[0] == MemAnswer(entries, ops[0]) && MemRun(entries, ops)[1..] == m;
      assert (forall i :: 0 <= i < |ops| && ops[i].Delete? ==> ValidSlot(ops[i].slot)) <==>
             (ops[0].Delete? ==> ValidSlot(ops[0].slot))
             && (forall i :: 0 <= i < |ops[1..]| && ops[1..][i].Delete? ==> ValidSlot(ops[1..][i].slot)) by {
        assert ops == [ops[0]] + ops[1..];
      }
    }
  }
}
