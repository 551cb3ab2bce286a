/** Encrypted storage of the identity keys: nested byte layouts, and a save that survives a crash at any step. */
module SecureStore {
  import opened Bytes
  import opened Crypto

  const MAX_STORE_SIZE: nat := 65536
  const BLOB_HEADER: nat := 49       // version, salt, nonce, length
  const TMP: Bytes := [116, 109, 112]

  // ---------------------------------------------------------------------------------------
  // Layouts.

  datatype SerializableIdentity = SerializableIdentity(
    edSecret: Bytes32,
    edPublic: Bytes32,
    xSecret: Bytes32,
    xPublic: Bytes32)

  function IdentityToBytes(i: SerializableIdentity): (s: Bytes)
    ensures |s| == 128
  {
    i.edSecret + i.edPublic + i.xSecret + i.xPublic
  }

  function IdentityFromBytes(s: Bytes): Result<SerializableIdentity, SecurityError> {
    if |s| != 128 then Err(Storage) else Ok(SerializableIdentity(s[0..32], s[32..64], s[64..96], s[96..128]))
  }

  method WriteIdentity(i: SerializableIdentity) returns (out: array<byte>)
    ensures fresh(out) && out[..] == IdentityToBytes(i)
  {
    out := new byte[128](_ => 0);
    CopyInto(out, 0, i.edSecret);
    CopyInto(out, 32, i.edPublic);
    CopyInto(out, 64, i.xSecret);
    CopyInto(out, 96, i.xPublic);
    assert out[..128] == out[..];
  }

  function FromKeys(c: Primitives, keys: IdentityKeys): SerializableIdentity {
    SerializableIdentity(keys.edSecret, keys.EdPublic(c), keys.xSecret, keys.XPublic(c))
  }

  /** Rebuilding keys checks each public key against its secret. */
  function ToKeys(c: Primitives, i: SerializableIdentity): Result<IdentityKeys, SecurityError> {
    if c.edPublic(i.edSecret) != i.edPublic then Err(InvalidPublicKey)
    else if c.xPublic(i.xSecret) != i.xPublic then Err(InvalidPublicKey)
    else Ok(IdentityKeys(i.edSecret, i.xSecret))
  }

  datatype EncryptedBlob = EncryptedBlob(version: byte, salt: Bytes32, nonce: Bytes12, ciphertext: Bytes)

  function BlobToBytes(b: EncryptedBlob): (s: Bytes)
    ensures |s| == BLOB_HEADER + |b.ciphertext|
  {
    [b.version] + b.salt + b.nonce + ToBE(|b.ciphertext|, 4) + b.ciphertext
  }

  function BlobFromBytes(s: Bytes): Result<EncryptedBlob, SecurityError> {
    if |s| < BLOB_HEADER then Err(Storage) else
      var len := FromBE(s[45..49]);
      if |s| < BLOB_HEADER + len then Err(Storage)
      else Ok(EncryptedBlob(s[0], s[1..33], s[33..45], s[BLOB_HEADER..BLOB_HEADER + len]))
  }

  /** The 128 bytes of an identity: Ed25519 secret and public key, X25519 secret and public key. */
  lemma IdentityLayout(i: SerializableIdentity)
    ensures var s := IdentityToBytes(i);
            s[..32] == i.edSecret && s[32..64] == i.edPublic && s[64..96] == i.xSecret && s[96..] == i.xPublic
  {
  }

  /** A blob: version, salt, nonce, the length of the ciphertext with its high byte first, ciphertext. */
  lemma BlobLayout(b: EncryptedBlob, k: nat)
    requires k < 4
    ensures var s := BlobToBytes(b);
            && s[0] == b.version && s[1..33] == b.salt && s[33..45] == b.nonce
            && s[45 + k] == Digit(|b.ciphertext|, 3 - k) && s[49..] == b.ciphertext
  {
    BEAt(|b.ciphertext|, 4, k);
    var s := BlobToBytes(b);
    assert s[45 + k] == ToBE(|b.ciphertext|, 4)[k];
  }

  /** A serialized blob is recognized whatever follows it, and no strict prefix of it is. */
  lemma BlobParsing(b: EncryptedBlob, tail: Bytes, cut: nat)
    requires |b.ciphertext| < U32_LIMIT && cut < |BlobToBytes(b)|
    ensures BlobFromBytes(BlobToBytes(b) + tail) == Ok(b)
    ensures BlobFromBytes(BlobToBytes(b)[..cut]) == Err(Storage)
  {
    var s := BlobToBytes(b);
    Spans();
    BERoundTrip(|b.ciphertext|, 4);
    assert (s + tail)[1..33] == b.salt;
    assert (s + tail)[33..45] == b.nonce;
    assert (s + tail)[45..49] == ToBE(|b.ciphertext|, 4);
    assert (s + tail)[49..49 + |b.ciphertext|] == b.ciphertext;
    if cut >= BLOB_HEADER {
      assert s[..cut][45..49] == ToBE(|b.ciphertext|, 4);
    }
  }

  /** Whatever parses, serializes to the parsed prefix: parsing loses only trailing bytes. */
  lemma BlobSerializing(s: Bytes)
    requires BlobFromBytes(s).Ok?
    ensures BlobToBytes(BlobFromBytes(s).value) <= s
  {
    BECanonical(s[45..49]);
  }

  // ---------------------------------------------------------------------------------------
  // Encryption under a passphrase.

  datatype Vault = Vault(
    derive: (Bytes, Bytes32) -> Bytes32,          // passphrase, salt
    seal: (Bytes32, Bytes12, Bytes) -> Bytes,     // key, nonce, plaintext
    open: (Bytes32, Bytes12, Bytes) -> Option<Bytes>)

  /** Authenticated encryption with a 16-byte tag. */
  ghost predicate Opens(v: Vault) {
    forall key: Bytes32, nonce: Bytes12, p: Bytes ::
      v.open(key, nonce, v.seal(key, nonce, p)) == Some(p) && |v.seal(key, nonce, p)| == |p| + 16
  }

  /** That is consistent: a tag of zeros satisfies it. */
  lemma OpensHasAModel() returns (v: Vault)
    ensures Opens(v)
  {
    var tag: Bytes := seq(16, _ => 0);
    v := Vault(
      (pass: Bytes, salt: Bytes32) => salt,
      (key: Bytes32, nonce: Bytes12, p: Bytes) => tag + p,
      (key: Bytes32, nonce: Bytes12, f: Bytes) => if |f| >= 16 then Some(f[16..]) else None);
    forall key: Bytes32, nonce: Bytes12, p: Bytes
      ensures v.open(key, nonce, v.seal(key, nonce, p)) == Some(p) && |v.seal(key, nonce, p)| == |p| + 16
    {
      assert (tag + p)[16..] == p;
    }
  }

  function Encrypt(c: Primitives, v: Vault, keys: IdentityKeys, pass: Bytes, salt: Bytes32, nonce: Bytes12): Bytes {
    BlobToBytes(EncryptedBlob(1, salt, nonce, v.seal(v.derive(pass, salt), nonce, IdentityToBytes(FromKeys(c, keys)))))
  }

  function Decrypt(c: Primitives, v: Vault, data: Bytes, pass: Bytes): Result<IdentityKeys, SecurityError> {
    if |data| > MAX_STORE_SIZE then Err(Storage) else
      match BlobFromBytes(data)
      case Err(e) => Err(e)
      case Ok(blob) =>
        if blob.version != 1 then Err(Storage) else
          match v.open(v.derive(pass, blob.salt), blob.nonce, blob.ciphertext)
          case None => Err(InvalidPassphrase)
          case Some(plaintext) =>
            match IdentityFromBytes(plaintext)
            case Err(e) => Err(e)
            case Ok(i) => ToKeys(c, i)
  }

  /**
   Decryption inverts encryption, also with trailing bytes up to the size limit; a cut file is refused as storage
   damage.
   */
  lemma DecryptEncrypted(
    c: Primitives, v: Vault, keys: IdentityKeys, pass: Bytes, salt: Bytes32, nonce: Bytes12, tail: Bytes, cut: nat)
    requires Opens(v)
    requires cut < |Encrypt(c, v, keys, pass, salt, nonce)|
    ensures |Encrypt(c, v, keys, pass, salt, nonce)| == 193
    ensures |tail| <= MAX_STORE_SIZE - 193 ==>
              Decrypt(c, v, Encrypt(c, v, keys, pass, salt, nonce) + tail, pass) == Ok(keys)
    ensures Decrypt(c, v, Encrypt(c, v, keys, pass, salt, nonce)[..cut], pass) == Err(Storage)
  {
    var i := FromKeys(c, keys);
    var plaintext := IdentityToBytes(i);
    var blob := EncryptedBlob(1, salt, nonce, v.seal(v.derive(pass, salt), nonce, plaintext));
    BlobParsing(blob, tail, cut);
    assert plaintext[0..32] == i.edSecret && plaintext[32..64] == i.edPublic;
    assert plaintext[64..96] == i.xSecret && plaintext[96..128] == i.xPublic;
  }

  /** The data begins with the serialization of `b`. */
  ghost predicate BeginsWith(data: Bytes, b: EncryptedBlob) {
    |b.ciphertext| < U32_LIMIT && BlobToBytes(b) <= data
  }

  /** A blob is read exactly where one is; there is no other error than storage damage. */
  lemma BlobMeans(data: Bytes, b: EncryptedBlob)
    ensures BlobFromBytes(data) == Ok(b) <==> BeginsWith(data, b)
    ensures BlobFromBytes(data).Err? ==> BlobFromBytes(data) == Err(Storage)
  {
    if BeginsWith(data, b) {
      var tail := data[|BlobToBytes(b)|..];
      BlobParsing(b, tail, 0);
      assert data == BlobToBytes(b) + tail;
    }
    if BlobFromBytes(data) == Ok(b) {
      Spans();
      BlobSerializing(data);
    }
  }

  /** Serialized keys are read back, public keys included, and nothing else gives these keys. */
  lemma KeysMean(c: Primitives, plaintext: Bytes, keys: IdentityKeys)
    ensures (IdentityFromBytes(plaintext).Ok? && ToKeys(c, IdentityFromBytes(plaintext).value) == Ok(keys)) <==>
            plaintext == IdentityToBytes(FromKeys(c, keys))
  {
    var i := FromKeys(c, keys);
    var own := IdentityToBytes(i);
    assert own[0..32] == i.edSecret && own[32..64] == i.edPublic;
    assert own[64..96] == i.xSecret && own[96..128] == i.xPublic;
    if |plaintext| == 128 {
      var parts := plaintext[0..32] + plaintext[32..64] + plaintext[64..96] + plaintext[96..128];
      assert plaintext == parts;
    }
  }

  /** What the cipher makes of a blob under a passphrase. */
  function Opened(v: Vault, b: EncryptedBlob, pass: Bytes): Option<Bytes> {
    v.open(v.derive(pass, b.salt), b.nonce, b.ciphertext)
  }

  /**
   What decryption answers on data that begins with a blob: the keys exactly when it is of version 1 and opens to their
   own 128 bytes, publics included; a blob that the cipher refuses is a wrong passphrase; other versions and other
   plaintext lengths are storage damage, and public keys that are not those of the secrets are refused as such.
   */
  lemma DecryptAnswers(c: Primitives, v: Vault, data: Bytes, pass: Bytes, b: EncryptedBlob)
    requires |data| <= 65536 && BeginsWith(data, b)
    ensures forall keys ::
              Decrypt(c, v, data, pass) == Ok(keys) <==>
              b.version == 1 && Opened(v, b, pass) == Some(IdentityToBytes(FromKeys(c, keys)))
    ensures Decrypt(c, v, data, pass) == Err(InvalidPassphrase) <==> b.version == 1 && Opened(v, b, pass) == None
    ensures Decrypt(c, v, data, pass) == Err(Storage) <==>
            b.version != 1 || (Opened(v, b, pass).Some? && |Opened(v, b, pass).value| != 128)
    ensures var r := Decrypt(c, v, data, pass);
            r.Ok? || r.error in {InvalidPassphrase, Storage, InvalidPublicKey}
  {
    BlobMeans(data, b);
    if b.version == 1 && Opened(v, b, pass).Some? {
      var plaintext := Opened(v, b, pass).value;
      forall keys
        ensures Decrypt(c, v, data, pass) == Ok(keys) <==> plaintext == IdentityToBytes(FromKeys(c, keys))
      {
        KeysMean(c, plaintext, keys);
      }
    }
  }

  /** Data that is too long, or begins with no blob, is storage damage. */
  lemma DamagedData(c: Primitives, v: Vault, data: Bytes, pass: Bytes)
    requires |data| > 65536 || forall b :: !BeginsWith(data, b)
    ensures Decrypt(c, v, data, pass) == Err(Storage)
  {
    if |data| <= 65536 {
      if BlobFromBytes(data).Ok? {
        BlobMeans(data, BlobFromBytes(data).value);
      } else {
        BlobMeans(data, EncryptedBlob(0, seq(32, _ => 0), seq(12, _ => 0), []));
      }
    }
  }

  // ---------------------------------------------------------------------------------------
  // The file system.

  datatype Name = Name(stem: Bytes, extension: Option<Bytes>)

  type Dir = map<Name, Bytes>

  predicate IsTemp(n: Name) {
    n.extension == Some(TMP)
  }

  /** `with_extension("tmp")`. */
  function TempOf(n: Name): Name {
    Name(n.stem, Some(TMP))
  }

  function Load(c: Primitives, v: Vault, files: Dir, main: Name, pass: Bytes): Result<IdentityKeys, SecurityError> {
    if main !in files then Err(Storage)
    else if |files[main]| > MAX_STORE_SIZE then Err(Storage)
    else Decrypt(c, v, files[main], pass)
  }

  function Renamed(files: Dir, from: Name, to: Name): Dir
    requires from in files
  {
    (files - {from})[to := files[from]]
  }

  /** Opening a store removes temp files, as far as the removals succeed. */
  function Reopened(files: Dir, removed: set<Name>): Dir {
    map n | n in files && !(IsTemp(n) && n in removed) :: files[n]
  }

  /** A directory on disk. `states` records what it was after each primitive operation: a crash leaves one of them. */
  class Disk {
    var files: Dir
    var states: seq<Dir>

    constructor (files: Dir)
      ensures this.files == files && states == [files]
    {
      this.files := files;
      states := [files];
    }

    method Put(n: Name, contents: Bytes)
      modifies this
      ensures files == old(files)[n := contents] && states == old(states) + [files]
    {
      files := files[n := contents];
      states := states + [files];
    }

    method Rename(from: Name, to: Name)
      requires from in files
      modifies this
      ensures files == Renamed(old(files), from, to) && states == old(states) + [files]
    {
      files := Renamed(files, from, to);
      states := states + [files];
    }

    method Remove(n: Name)
      modifies this
      ensures files == old(files) - {n} && states == old(states) + [files]
    {
      files := files - {n};
      states := states + [files];
    }
  }

  /** What can go wrong in a save: the write may fail, leaving `partial`, and so may the rename. */
  datatype SaveFate = WriteFails | RenameFails | Completes

  /** The disk states that a save goes through. Writing is not atomic: `partial` is what is there on the way. */
  function SaveStates(files: Dir, main: Name, partial: Bytes, contents: Bytes, fate: SaveFate): seq<Dir> {
    var torn := files[TempOf(main) := partial];
    var written := torn[TempOf(main) := contents];
    if fate.WriteFails? then [torn]
    else if fate.RenameFails? then [torn, written]
    else [torn, written, Renamed(written, TempOf(main), main)]
  }

  method Save(
    c: Primitives, v: Vault, disk: Disk, main: Name, keys: IdentityKeys, pass: Bytes, salt: Bytes32, nonce: Bytes12,
    partial: Bytes, fate: SaveFate)
    returns (r: Result<(), SecurityError>)
    modifies disk
    ensures var contents := Encrypt(c, v, keys, pass, salt, nonce);
            disk.states == old(disk.states) + SaveStates(old(disk.files), main, partial, contents, fate)
    ensures disk.files == disk.states[|disk.states| - 1]
    ensures r == if fate.Completes? then Ok(()) else Err(Storage)
  {
    var contents := Encrypt(c, v, keys, pass, salt, nonce);
    var temp := TempOf(main);
    disk.Put(temp, partial);
    if fate.WriteFails? {
      return Err(Storage);
    }
    disk.Put(temp, contents);
    if fate.RenameFails? {
      return Err(Storage);
    }
    disk.Rename(temp, main);
    return Ok(());
  }

  /** `create`: refuses to overwrite an existing identity. */
  method CreateNew(
    c: Primitives, v: Vault, disk: Disk, main: Name, keys: IdentityKeys, pass: Bytes, salt: Bytes32, nonce: Bytes12,
    partial: Bytes, fate: SaveFate)
    returns (r: Result<IdentityKeys, SecurityError>)
    modifies disk
    ensures main in old(disk.files) ==>
              r == Err(Storage) && disk.states == old(disk.states) && disk.files == old(disk.files)
    ensures main !in old(disk.files) ==>
              var contents := Encrypt(c, v, keys, pass, salt, nonce);
              && disk.states == old(disk.states) + SaveStates(old(disk.files), main, partial, contents, fate)
              && r == if fate.Completes? then Ok(keys) else Err(Storage)
  {
    if main in disk.files {
      return Err(Storage);
    }
    var saved := Save(c, v, disk, main, keys, pass, salt, nonce, partial, fate);
    return if saved.Ok? then Ok(keys) else Err(Storage);
  }

  /** The clean-up loop of opening a store, over the directory entries in any order. */
  method CleanupTempFiles(disk: Disk, removable: set<Name>)
    modifies disk
    ensures disk.files == Reopened(old(disk.files), removable)
  {
    var entries := disk.files.Keys;
    while entries != {}
      invariant entries <= old(disk.files).Keys
      invariant disk.files ==
                map n | n in old(disk.files) && (n in entries || !(IsTemp(n) && n in removable)) :: old(disk.files)[n]
      decreases |entries|
    {
      var n :| n in entries;
      entries := entries - {n};
      if IsTemp(n) && n in removable {
        disk.Remove(n);
      }
    }
  }

  /** What `load` answers: nothing without a file, and otherwise what decryption makes of it. */
  lemma LoadAnswers(c: Primitives, v: Vault, files: Dir, main: Name, pass: Bytes)
    ensures main !in files ==> Load(c, v, files, main, pass) == Err(Storage)
    ensures main in files ==> Load(c, v, files, main, pass) == Decrypt(c, v, files[main], pass)
  {
  }

  // ---------------------------------------------------------------------------------------
  // Crashes.

  /**
   Whatever disk state a save leaves behind, crash or not, and whatever the clean-up on reopening manages to remove:
   `load` then gives exactly what it gave before the save, or exactly the new keys. It gives the new keys as soon as
   the rename has happened.
   */
  lemma SaveIsAtomic(
    c: Primitives, v: Vault, files: Dir, main: Name, keys: IdentityKeys, pass: Bytes, salt: Bytes32, nonce: Bytes12,
    partial: Bytes, fate: SaveFate, crash: nat, removed: set<Name>, anyPass: Bytes)
    requires Opens(v) && !IsTemp(main)
    requires crash < |SaveStates(files, main, partial, Encrypt(c, v, keys, pass, salt, nonce), fate)|
    ensures var left := SaveStates(files, main, partial, Encrypt(c, v, keys, pass, salt, nonce), fate)[crash];
            if crash < 2 then Load(c, v, Reopened(left, removed), main, anyPass) == Load(c, v, files, main, anyPass)
            else Load(c, v, Reopened(left, removed), main, pass) == Ok(keys)
  {
    DecryptEncrypted(c, v, keys, pass, salt, nonce, [], 0);
    assert Encrypt(c, v, keys, pass, salt, nonce) + [] == Encrypt(c, v, keys, pass, salt, nonce);
  }

  /** Reopening keeps a stored identity, whatever it removes, exactly if the store's own name is not a temp name. */
  lemma ReopeningKeepsIdentityIff(c: Primitives, v: Vault, files: Dir, main: Name, pass: Bytes, keys: IdentityKeys)
    requires Load(c, v, files, main, pass) == Ok(keys)
    ensures (forall removed: set<Name> :: Load(c, v, Reopened(files, removed), main, pass) == Ok(keys))
            <==> !IsTemp(main)
  {
    if IsTemp(main) {
      assert Load(c, v, Reopened(files, {main}), main, pass) == Err(Storage);
    }
  }

  /** A life of the store: saves that get as far as they get, and reopenings, in any order. */
  datatype Event =
    | Saving(keys: IdentityKeys, pass: Bytes, salt: Bytes32, nonce: Bytes12, partial: Bytes, fate: SaveFate, crash: nat)
    | Reopening(removed: set<Name>)

  datatype Credentials = Credentials(keys: IdentityKeys, pass: Bytes, salt: Bytes32, nonce: Bytes12)

  function FilesAfter(c: Primitives, v: Vault, files: Dir, main: Name, e: Event): Dir {
    match e
    case Reopening(removed) => Reopened(files, removed)
    case Saving(keys, pass, salt, nonce, partial, fate, crash) =>
      var states := SaveStates(files, main, partial, Encrypt(c, v, keys, pass, salt, nonce), fate);
      if crash < |states| then states[crash] else states[|states| - 1]
  }

  /** The save that counts: the last one to have reached its rename. */
  function Committed(before: Option<Credentials>, e: Event): Option<Credentials> {
    if e.Saving? && e.fate.Completes? && e.crash >= 2 then Some(Credentials(e.keys, e.pass, e.salt, e.nonce))
    else before
  }

  function Life(c: Primitives, v: Vault, files: Dir, main: Name, events: seq<Event>): Dir
    decreases |events|
  {
    if events == [] then files else Life(c, v, FilesAfter(c, v, files, main, events[0]), main, events[1..])
  }

  function LastCommitted(before: Option<Credentials>, events: seq<Event>): Option<Credentials>
    decreases |events|
  {
    if events == [] then before else LastCommitted(Committed(before, events[0]), events[1..])
  }

  ghost predicate Holds(c: Primitives, v: Vault, files: Dir, main: Name, committed: Option<Credentials>) {
    if committed.None? then main !in files
    else Load(c, v, files, main, committed.value.pass) == Ok(committed.value.keys)
  }

  lemma EventKeepsCommitted(c: Primitives, v: Vault, files: Dir, main: Name, committed: Option<Credentials>, e: Event)
    requires Opens(v) && !IsTemp(main) && Holds(c, v, files, main, committed)
    ensures Holds(c, v, FilesAfter(c, v, files, main, e), main, Committed(committed, e))
  {
    if e.Saving? {
      DecryptEncrypted(c, v, e.keys, e.pass, e.salt, e.nonce, [], 0);
      assert Encrypt(c, v, e.keys, e.pass, e.salt, e.nonce) + [] == Encrypt(c, v, e.keys, e.pass, e.salt, e.nonce);
    }
  }

  /**
   Over every life of the store, with any number of saves cut short anywhere and any reopenings: `load` returns the
   keys of the last save that reached its rename, under its passphrase, and finds nothing if none did.
   */
  lemma {:induction false} LastCommittedIsLoaded(
    c: Primitives, v: Vault, files: Dir, main: Name, committed: Option<Credentials>, events: seq<Event>)
    requires Opens(v) && !IsTemp(main) && Holds(c, v, files, main, committed)
    ensures Holds(c, v, Life(c, v, files, main, events), main, LastCommitted(committed, events))
    decreases |events|
  {
    if events != [] {
      EventKeepsCommitted(c, v, files, main, committed, events[0]);
      var files', committed' := FilesAfter(c, v, files, main, events[0]), Committed(committed, events[0]);
      LastCommittedIsLoaded(c, v, files', main, committed', events[1..]);
    }
  }

  /** The ciphertext of a save. */
  function Ciphertext(c: Primitives, v: Vault, d: Credentials): Bytes {
    v.seal(v.derive(d.pass, d.salt), d.nonce, IdentityToBytes(FromKeys(c, d.keys)))
  }

  /** The file is exactly what the committed save wrote. */
  ghost predicate HoldsExactly(c: Primitives, v: Vault, files: Dir, main: Name, committed: Option<Credentials>) {
    if committed.None? then main !in files
    else
      var d := committed.value;
      main in files && files[main] == Encrypt(c, v, d.keys, d.pass, d.salt, d.nonce)
  }

  lemma {:induction false} LifeHoldsExactly(
    c: Primitives, v: Vault, files: Dir, main: Name, committed: Option<Credentials>, events: seq<Event>)
    requires !IsTemp(main) && HoldsExactly(c, v, files, main, committed)
    ensures HoldsExactly(c, v, Life(c, v, files, main, events), main, LastCommitted(committed, events))
    decreases |events|
  {
    if events != [] {
      var files', committed' := FilesAfter(c, v, files, main, events[0]), Committed(committed, events[0]);
      LifeHoldsExactly(c, v, files', main, committed', events[1..]);
    }
  }

  /**
   Over every life of a new store, and for every passphrase: `load` gives the keys of the last save that reached its
   rename exactly if the passphrase's key opens its ciphertext to their bytes; a passphrase whose key does not open it
   is told so; and if no save reached its rename there is nothing to load.
   */
  lemma EveryPassphraseOverEveryLife(
    c: Primitives, v: Vault, files: Dir, main: Name, events: seq<Event>, pass: Bytes)
    requires Opens(v) && !IsTemp(main) && main !in files
    ensures var r := Load(c, v, Life(c, v, files, main, events), main, pass);
            var last := LastCommitted(None, events);
            && (last.None? ==> r == Err(Storage))
            && (last.Some? ==>
                  var d := last.value;
                  var inside := v.open(v.derive(pass, d.salt), d.nonce, Ciphertext(c, v, d));
                  && (pass == d.pass ==> r == Ok(d.keys))
                  && (forall keys :: r == Ok(keys) <==> inside == Some(IdentityToBytes(FromKeys(c, keys))))
                  && (r == Err(InvalidPassphrase) <==> inside == None))
  {
    LifeHoldsExactly(c, v, files, main, None, events);
    var files', last := Life(c, v, files, main, events), LastCommitted(None, events);
    LoadAnswers(c, v, files', main, pass);
    if last.Some? {
      SavedAnswers(c, v, last.value, pass);
    }
  }

  lemma SavedAnswers(c: Primitives, v: Vault, d: Credentials, pass: Bytes)
    requires Opens(v)
    ensures var r := Decrypt(c, v, Encrypt(c, v, d.keys, d.pass, d.salt, d.nonce), pass);
            var inside := v.open(v.derive(pass, d.salt), d.nonce, Ciphertext(c, v, d));
            && (pass == d.pass ==> r == Ok(d.keys))
            && (forall keys :: r == Ok(keys) <==> inside == Some(IdentityToBytes(FromKeys(c, keys))))
            && (r == Err(InvalidPassphrase) <==> inside == None)
  {
    var b := EncryptedBlob(1, d.salt, d.nonce, Ciphertext(c, v, d));
    var data := Encrypt(c, v, d.keys, d.pass, d.salt, d.nonce);
    assert data == BlobToBytes(b) && BeginsWith(data, b);
    DecryptAnswers(c, v, data, pass, b);
    assert Opened(v, b, pass) == v.open(v.derive(pass, d.salt), d.nonce, Ciphertext(c, v, d));
  }
}
