/** The per-vault user registry of passward/vault_user.go. Each user record
    holds the user's public key text and the vault master key wrapped under
    that public key (public-key encryption, then base64). The registry maps
    an email to a record; removal leaves a nil slot behind. */
module Users {
  import opened Base
  import opened Paths
  import opened FileSystem
  import Crypto
  import Session

  /** An `sshcrypt.PublicKey`, known only by what it was parsed from. */
  datatype SshPublicKey = SshPublicKey(id: Bytes)

  /** The sshcrypt calls the registry makes: parsing an authorized-key line
      and encrypting a small blob under a public key. */
  datatype KeyOps = KeyOps(
    parseAuthorizedKey: Bytes -> Result<SshPublicKey>,
    encryptBytes: (SshPublicKey, Bytes) -> Result<Bytes>)

  const UsersDirName: Bytes := "users"
  const PlaceholderName: Bytes := ".placeholder"
  const KeyFileName: Bytes := "key"
  const EncryptedMasterFileName: Bytes := "encrypted_master"

  /** The values a `VaultUser` holds. A nil `publicKey` is what
      `ReadVaultUser` leaves when the stored key does not parse. */
  datatype UserRecord = UserRecord(
    path: Bytes,
    email: Bytes,
    publicKeyString: Bytes,
    encryptedMasterKey: Bytes,
    publicKey: Option<SshPublicKey>)

  /** `publicKeyFile()`: where a user's public key text is stored. */
  function PublicKeyFile(userPath: Bytes): (r: Bytes)
    ensures userPath != [] ==> r == userPath + "/key"
  {
    Join(userPath, KeyFileName)
  }

  /** `encryptedMasterFile()`: where a user's wrapped master key is stored. */
  function EncryptedMasterFile(userPath: Bytes): (r: Bytes)
    ensures userPath != [] ==> r == userPath + "/encrypted_master"
  {
    Join(userPath, EncryptedMasterFileName)
  }

  /** The two files of a user never coincide: they end in different
      characters. */
  lemma UserFilesDiffer(userPath: Bytes)
    ensures PublicKeyFile(userPath) != EncryptedMasterFile(userPath)
  {
    var k, m := PublicKeyFile(userPath), EncryptedMasterFile(userPath);
    assert k[|k| - 1] == 'y';
    assert m[|m| - 1] == 'r';
  }

  /** `NewVaultUser`: a record at `usersPath/email` with the given key text,
      no wrapped key yet, or the parser's error. */
  function NewVaultUser(keys: KeyOps, usersPath: Bytes, email: Bytes, publicKeyString: Bytes): (r: Result<UserRecord>)
    ensures r.Err? <==> keys.parseAuthorizedKey(publicKeyString).Err?
    ensures r.Err? ==> r.error == keys.parseAuthorizedKey(publicKeyString).error
    ensures r.Ok? ==>
      && r.value.path == Join(usersPath, email)
      && r.value.email == email
      && r.value.publicKeyString == publicKeyString
      && r.value.encryptedMasterKey == []
      && r.value.publicKey == Some(keys.parseAuthorizedKey(publicKeyString).value)
  {
    match keys.parseAuthorizedKey(publicKeyString)
    case Err(e) => Err(e)
    case Ok(pk) => Ok(UserRecord(Join(usersPath, email), email, publicKeyString, [], Some(pk)))
  }

  /** `ReadVaultUser`: the user stored in directory `pathToUser`. The email is
      the directory's last path element; a key that fails to parse is kept
      as text with a nil parsed key (Go drops that error); either file
      failing to read is an error. */
  function ReadVaultUser(fs: Fs, keys: KeyOps, pathToUser: Bytes): (r: Result<UserRecord>)
    ensures r.Ok? <==> fs.readFile(PublicKeyFile(pathToUser)).Ok? && fs.readFile(EncryptedMasterFile(pathToUser)).Ok?
    ensures fs.readFile(PublicKeyFile(pathToUser)).Err? ==> r == Err(fs.readFile(PublicKeyFile(pathToUser)).error)
    ensures fs.readFile(PublicKeyFile(pathToUser)).Ok? && fs.readFile(EncryptedMasterFile(pathToUser)).Err? ==>
      r == Err(fs.readFile(EncryptedMasterFile(pathToUser)).error)
    ensures r.Ok? ==>
      && r.value.path == pathToUser
      && r.value.email == BaseName(pathToUser)
      && r.value.publicKeyString == fs.readFile(PublicKeyFile(pathToUser)).value
      && r.value.encryptedMasterKey == fs.readFile(EncryptedMasterFile(pathToUser)).value
      && (r.value.publicKey.Some? <==> keys.parseAuthorizedKey(r.value.publicKeyString).Ok?)
      && (r.value.publicKey.Some? ==> r.value.publicKey.value == keys.parseAuthorizedKey(r.value.publicKeyString).value)
  {
    var email := BaseName(pathToUser);
    var keyText :- fs.readFile(PublicKeyFile(pathToUser));
    var publicKey := match keys.parseAuthorizedKey(keyText)
      case Ok(pk) => Some(pk)
      case Err(_) => None;
    var masterText :- fs.readFile(EncryptedMasterFile(pathToUser));
    Ok(UserRecord(pathToUser, email, keyText, masterText, publicKey))
  }

  /** `Save`: creates the user's directory when missing, then writes the
      key file and the wrapped-key file, stopping at the first failure. */
  function SaveUserFiles(fs: Fs, rec: UserRecord): (err: Option<Error>)
    ensures err.None? <==>
      && (fs.directoryExists(rec.path) || fs.mkdirAll(rec.path).None?)
      && fs.writeFile(PublicKeyFile(rec.path), rec.publicKeyString).None?
      && fs.writeFile(EncryptedMasterFile(rec.path), rec.encryptedMasterKey).None?
    ensures !fs.directoryExists(rec.path) && fs.mkdirAll(rec.path).Some? ==> err == fs.mkdirAll(rec.path)
    ensures fs.directoryExists(rec.path) || fs.mkdirAll(rec.path).None? ==>
      var keyWrite := fs.writeFile(PublicKeyFile(rec.path), rec.publicKeyString);
      && (keyWrite.Some? ==> err == keyWrite)
      && (keyWrite.None? ==> err == fs.writeFile(EncryptedMasterFile(rec.path), rec.encryptedMasterKey))
  {
    if !fs.directoryExists(rec.path) && fs.mkdirAll(rec.path).Some? then fs.mkdirAll(rec.path)
    else if fs.writeFile(PublicKeyFile(rec.path), rec.publicKeyString).Some? then
      fs.writeFile(PublicKeyFile(rec.path), rec.publicKeyString)
    else fs.writeFile(EncryptedMasterFile(rec.path), rec.encryptedMasterKey)
  }

  /** `rec` holds `master` wrapped for its own public key, as
      `SetEncryptedMasterKey` leaves it. */
  ghost predicate Wraps(keys: KeyOps, p: Crypto.Primitives, rec: UserRecord, master: Bytes) {
    && rec.publicKey.Some?
    && keys.encryptBytes(rec.publicKey.value, master).Ok?
    && rec.encryptedMasterKey == p.b64encode(keys.encryptBytes(rec.publicKey.value, master).value)
  }

  /** `ring` holds the private key of `pk`: its `DecryptBase64` undoes
      base64 of anything encrypted under `pk`. */
  ghost predicate KeyPairOf(ring: Session.Keyring, keys: KeyOps, p: Crypto.Primitives, pk: SshPublicKey) {
    forall m :: keys.encryptBytes(pk, m).Ok? ==>
      ring.decryptBase64(p.b64encode(keys.encryptBytes(pk, m).value)) == Ok(m)
  }

  class VaultUser {
    var path: Bytes
    var email: Bytes
    var publicKeyString: Bytes
    var encryptedMasterKey: Bytes
    var publicKey: Option<SshPublicKey>

    function Record(): UserRecord
      reads this
    {
      UserRecord(path, email, publicKeyString, encryptedMasterKey, publicKey)
    }

    constructor FromRecord(rec: UserRecord)
      ensures Record() == rec
    {
      path := rec.path;
      email := rec.email;
      publicKeyString := rec.publicKeyString;
      encryptedMasterKey := rec.encryptedMasterKey;
      publicKey := rec.publicKey;
    }

    function Email(): (r: Bytes)
      reads this
      ensures r == Record().email
    {
      email
    }

    function PublicKey(): (r: Bytes)
      reads this
      ensures r == Record().publicKeyString
    {
      publicKeyString
    }

    function GetEncryptedMasterKey(): (r: Bytes)
      reads this
      ensures r == Record().encryptedMasterKey
    {
      encryptedMasterKey
    }

    /** `Remove`: deletes the user's directory. */
    function Remove(fs: Fs): (err: Option<Error>)
      reads this
      ensures err == fs.removeAll(Record().path)
    {
      fs.removeAll(path)
    }

    /** `Save`: writes this user's files. */
    function Save(fs: Fs): (err: Option<Error>)
      reads this
      ensures err == SaveUserFiles(fs, Record())
    {
      SaveUserFiles(fs, Record())
    }

    /** `UnlockMasterKey`: the keyring's `DecryptBase64` of the wrapped key.
        With the private key of the key the master was wrapped under, that
        is the master key itself. */
    function UnlockMasterKey(ring: Session.Keyring, ghost keys: KeyOps, ghost p: Crypto.Primitives, ghost master: Bytes): (r: Result<Bytes>)
      reads this
      ensures Wraps(keys, p, Record(), master) && KeyPairOf(ring, keys, p, Record().publicKey.value) ==> r == Ok(master)
    {
      ring.decryptBase64(encryptedMasterKey)
    }

    /** `SetEncryptedMasterKey`: wraps `masterPassphrase` under the user's
        public key and stores its base64; on an encryption error nothing
        changes. Go dereferences the parsed key, so it must be present. */
    method SetEncryptedMasterKey(masterPassphrase: Bytes, keys: KeyOps, p: Crypto.Primitives) returns (err: Option<Error>)
      requires publicKey.Some?
      modifies this`encryptedMasterKey
      ensures keys.encryptBytes(publicKey.value, masterPassphrase).Err? ==>
        err == Some(keys.encryptBytes(publicKey.value, masterPassphrase).error) && Record() == old(Record())
      ensures keys.encryptBytes(publicKey.value, masterPassphrase).Ok? ==>
        err == None && Wraps(keys, p, Record(), masterPassphrase) &&
        Record() == old(Record()).(encryptedMasterKey := encryptedMasterKey)
    {
      match keys.encryptBytes(publicKey.value, masterPassphrase)
      case Err(e) =>
        return Some(e);
      case Ok(cipherText) =>
        encryptedMasterKey := p.b64encode(cipherText);
        return None;
    }
  }

  /** The records behind a map of nilable user references. */
  ghost function RecordsOf(m: map<Bytes, VaultUser?>): map<Bytes, Option<UserRecord>>
    reads set e | e in m && m[e] != null :: m[e]
  {
    map e | e in m :: if m[e] == null then None else Some(m[e].Record())
  }

  /** Storing a user under a key changes the records under that key only. */
  lemma RecordsOfInsert(m: map<Bytes, VaultUser?>, k: Bytes, u: VaultUser)
    ensures RecordsOf(m[k := u]) == RecordsOf(m)[k := Some(u.Record())]
  {
  }

  /** `Initialize`'s loading rule on an existing users directory: every
      entry but the placeholder is read as a user and stored under that
      user's email, in directory order, until the first read that fails. */
  ghost function LoadUsers(fs: Fs, keys: KeyOps, dir: Bytes, names: seq<Bytes>, acc: map<Bytes, Option<UserRecord>>)
    : (r: (Option<Error>, map<Bytes, Option<UserRecord>>))
    ensures forall e :: e in acc ==> e in r.1
    decreases |names|
  {
    if names == [] then (None, acc)
    else if names[0] == PlaceholderName then LoadUsers(fs, keys, dir, names[1..], acc)
    else match ReadVaultUser(fs, keys, Join(dir, names[0]))
      case Err(e) => (Some(e), acc)
      case Ok(rec) => LoadUsers(fs, keys, dir, names[1..], acc[rec.email := Some(rec)])
  }

  /** Loaded users are keyed by their own email, so a registry in which every
      record sits under its email stays that way. */
  lemma {:induction false} LoadUsersKeysByEmail(fs: Fs, keys: KeyOps, dir: Bytes, names: seq<Bytes>, acc: map<Bytes, Option<UserRecord>>)
    requires forall e :: e in acc && acc[e].Some? ==> acc[e].value.email == e
    ensures var m := LoadUsers(fs, keys, dir, names, acc).1;
      acc.Keys <= m.Keys && forall e :: e in m && m[e].Some? ==> m[e].value.email == e
    decreases |names|
  {
    if names != [] {
      if names[0] == PlaceholderName {
        LoadUsersKeysByEmail(fs, keys, dir, names[1..], acc);
      } else if ReadVaultUser(fs, keys, Join(dir, names[0])).Ok? {
        var rec := ReadVaultUser(fs, keys, Join(dir, names[0])).value;
        LoadUsersKeysByEmail(fs, keys, dir, names[1..], acc[rec.email := Some(rec)]);
      }
    }
  }

  /** A directory entry loads under its own name: the email `ReadVaultUser`
      derives from `dir/name` is `name`. */
  lemma LoadedUnderDirectoryName(fs: Fs, keys: KeyOps, dir: Bytes, name: Bytes)
    requires name != [] && '/' !in name
    requires ReadVaultUser(fs, keys, Join(dir, name)).Ok?
    ensures ReadVaultUser(fs, keys, Join(dir, name)).value.email == name
  {
    BaseNameOfJoin(dir, name);
  }

  class VaultUsers {
    var path: Bytes
    var users: map<Bytes, VaultUser?>

    ghost function Objects(): set<VaultUser>
      reads this
    {
      set e | e in users && users[e] != null :: users[e]
    }

    ghost function Contents(): map<Bytes, Option<UserRecord>>
      reads this, Objects()
    {
      RecordsOf(users)
    }

    /** Every user sits under its own email. */
    ghost predicate Valid()
      reads this, Objects()
    {
      forall e :: e in users && users[e] != null ==> users[e].email == e
    }

    /** `NewVaultUsers`: an empty registry for `parentPath/users`. */
    constructor (parentPath: Bytes)
      ensures Valid()
      ensures path == Join(parentPath, UsersDirName) && users == map[]
    {
      path := Join(parentPath, UsersDirName);
      users := map[];
    }

    /** `LookupByEmail`: the user under `email`, nil when absent or removed. */
    function LookupByEmail(email: Bytes): (r: VaultUser?)
      reads this, Objects()
      ensures r != null <==> email in users && users[email] != null
      ensures r != null ==> r == users[email] && (Valid() ==> r.email == email)
    {
      if email in users then users[email] else null
    }

    /** `removeByEmail`: an error for an absent or nil slot, otherwise deletes
        the user's directory and nils the slot, whether or not the deletion
        failed, returning the deletion's error. */
    method RemoveByEmail(email: Bytes, fs: Fs) returns (err: Option<Error>)
      requires Valid()
      modifies this
      ensures Valid() && path == old(path)
      ensures old(LookupByEmail(email)) == null ==> err == Some(UserNotFound(email)) && users == old(users)
      ensures old(LookupByEmail(email)) != null ==>
        err == fs.removeAll(old(users[email].path)) && users == old(users)[email := null]
      ensures LookupByEmail(email) == null
    {
      var user := LookupByEmail(email);
      if user == null {
        return Some(UserNotFound(email));
      }
      err := user.Remove(fs);
      users := users[email := null];
    }

    /** `AddUser`: refuses an email that already has a user; otherwise
        builds the record (parsing the key), wraps the master key for it,
        saves it, and only then registers it. Any failing step returns its
        error and leaves the registry as it was. */
    method AddUser(email: Bytes, publicKeyString: Bytes, masterPassphrase: Bytes, keys: KeyOps, p: Crypto.Primitives, fs: Fs)
      returns (err: Option<Error>)
      requires Valid()
      modifies this
      ensures Valid() && path == old(path)
      ensures old(LookupByEmail(email)) != null ==> err == Some(UserExists(email)) && users == old(users)
      ensures old(LookupByEmail(email)) == null ==>
        var built := NewVaultUser(keys, path, email, publicKeyString);
        if built.Err? then err == Some(built.error) && users == old(users)
        else
          var wrapped := keys.encryptBytes(built.value.publicKey.value, masterPassphrase);
          if wrapped.Err? then err == Some(wrapped.error) && users == old(users)
          else
            var rec := built.value.(encryptedMasterKey := p.b64encode(wrapped.value));
            if SaveUserFiles(fs, rec).Some? then err == SaveUserFiles(fs, rec) && users == old(users)
            else
              && err == None
              && email in users && users[email] != null && users[email].Record() == rec
              && Wraps(keys, p, rec, masterPassphrase)
              && users == old(users)[email := users[email]]
              && Contents() == old(Contents())[email := Some(rec)]
    {
      if LookupByEmail(email) != null {
        return Some(UserExists(email));
      }
      var built := NewVaultUser(keys, path, email, publicKeyString);
      if built.Err? {
        return Some(built.error);
      }
      var user := new VaultUser.FromRecord(built.value);
      err := user.SetEncryptedMasterKey(masterPassphrase, keys, p);
      if err.Some? {
        return err;
      }
      err := user.Save(fs);
      if err.Some? {
        return err;
      }
      Store(user);
    }

    /** Registers `user` under its own email; no other slot changes. */
    method Store(user: VaultUser)
      requires Valid()
      modifies this`users
      ensures Valid()
      ensures users == old(users)[user.email := user]
      ensures Contents() == old(Contents())[user.email := Some(user.Record())]
    {
      RecordsOfInsert(users, user.email, user);
      users := users[user.email := user];
    }

    /** `Initialize`: on a missing directory, creates it with a placeholder
        file (both errors ignored) and loads nothing; otherwise loads the
        users the directory lists (a listing error reads as an empty
        listing) by `LoadUsers`, returning the first read error. */
    method Initialize(fs: Fs, keys: KeyOps) returns (err: Option<Error>)
      requires Valid()
      modifies this
      ensures Valid() && path == old(path)
      ensures !fs.directoryExists(path) ==> err == None && users == old(users)
      ensures fs.directoryExists(path) ==>
        var names := if fs.readDir(path).Ok? then fs.readDir(path).value else [];
        (err, Contents()) == LoadUsers(fs, keys, path, names, old(Contents()))
    {
      if !fs.directoryExists(path) {
        var _ := fs.mkdirAll(path);
        var _ := fs.writeFile(Join(path, PlaceholderName), []);
        return None;
      }
      var names := match fs.readDir(path)
        case Ok(listing) => listing
        case Err(_) => [];
      err := LoadListed(fs, keys, names);
    }

    /** One step of `Initialize`'s loop: the user in `path/name` read and
        stored under its email, or the read error with nothing stored. */
    method LoadOne(fs: Fs, keys: KeyOps, name: Bytes) returns (err: Option<Error>)
      requires Valid()
      modifies this
      ensures Valid() && path == old(path)
      ensures var r := ReadVaultUser(fs, keys, Join(path, name));
        if r.Err? then err == Some(r.error) && Contents() == old(Contents())
        else err == None && Contents() == old(Contents())[r.value.email := Some(r.value)]
    {
      var rec := ReadVaultUser(fs, keys, Join(path, name));
      if rec.Err? {
        return Some(rec.error);
      }
      var user := new VaultUser.FromRecord(rec.value);
      Store(user);
      err := None;
    }

    /** `Initialize`'s loop over a directory listing, by `LoadUsers`. */
    method LoadListed(fs: Fs, keys: KeyOps, names: seq<Bytes>) returns (err: Option<Error>)
      requires Valid()
      modifies this
      ensures Valid() && path == old(path)
      ensures (err, Contents()) == LoadUsers(fs, keys, path, names, old(Contents()))
    {
      ghost var goal := LoadUsers(fs, keys, path, names, old(Contents()));
      var i := 0;
      while i < |names|
        invariant 0 <= i <= |names|
        invariant path == old(path)
        invariant Valid()
        invariant LoadUsers(fs, keys, path, names[i..], Contents()) == goal
      {
        assert names[i..][0] == names[i] && names[i..][1..] == names[i + 1..];
        if names[i] != PlaceholderName {
          err := LoadOne(fs, keys, names[i]);
          if err.Some? {
            return;
          }
        }
        i := i + 1;
      }
      assert names[i..] == [];
      err := None;
    }
  }

  /** After `removeByEmail` the email passes `AddUser`'s duplicate check
      again: re-adding it (with a new key) fails only in the later steps,
      and when building, wrapping and saving succeed the new user sits
      under that email. */
  method RemoveThenAddAgain(vu: VaultUsers, email: Bytes, newKey: Bytes, master: Bytes, keys: KeyOps, p: Crypto.Primitives, fs: Fs)
    returns (removeErr: Option<Error>, addErr: Option<Error>)
    requires vu.Valid() && vu.LookupByEmail(email) != null
    modifies vu
    ensures vu.Valid()
    ensures addErr == None <==> vu.LookupByEmail(email) != null
    ensures var built := NewVaultUser(keys, vu.path, email, newKey);
      built.Err? ==> addErr == Some(built.error)
    ensures var built := NewVaultUser(keys, vu.path, email, newKey);
      built.Ok? ==>
        var wrapped := keys.encryptBytes(built.value.publicKey.value, master);
        && (wrapped.Err? ==> addErr == Some(wrapped.error))
        && (wrapped.Ok? ==>
              var rec := built.value.(encryptedMasterKey := p.b64encode(wrapped.value));
              addErr == SaveUserFiles(fs, rec) &&
              (addErr == None ==> vu.LookupByEmail(email) != null && vu.LookupByEmail(email).Record() == rec))
  {
    removeErr := vu.RemoveByEmail(email, fs);
    addErr := vu.AddUser(email, newKey, master, keys, p, fs);
  }
}
