/** The credential session of passward/credentials.go: an identity (name,
    email, key file paths) and a nilable keyring that is present exactly
    while the session is unlocked, plus the passphrase last used to unlock. */
module Session {
  import opened Base
  import opened FileSystem

  /** An `SshKeyRing`: the user's parsed key pair. Its loader and its
      decryption are outside the model; a keyring is known by its reference,
      its public key text and what its private key decrypts. */
  class Keyring {
    const publicKeyString: Bytes
    /** `DecryptBase64`: base64-decode, then decrypt with the private key. */
    const decryptBase64: Bytes -> Result<Bytes>

    constructor (publicKeyString: Bytes, decryptBase64: Bytes -> Result<Bytes>)
      ensures this.publicKeyString == publicKeyString && this.decryptBase64 == decryptBase64
    {
      this.publicKeyString := publicKeyString;
      this.decryptBase64 := decryptBase64;
    }
  }

  /** What `NewSshKeyRing(publicKeyPath, privateKeyPath, passphrase)` returns. */
  datatype KeyringLoad = KeyringLoad(ring: Keyring?, err: Option<Error>)

  type KeyringLoader = (Bytes, Bytes, Bytes) -> KeyringLoad

  class Credentials {
    var keyring: Keyring?
    var keyPassphrase: Bytes
    var name: Bytes
    var email: Bytes
    var publicKeyPath: Bytes
    var privateKeyPath: Bytes

    /** The persisted part: who the user is and where their keys are. */
    ghost function Identity(): (Bytes, Bytes, Bytes, Bytes)
      reads this
    {
      (name, email, publicKeyPath, privateKeyPath)
    }

    /** A session as the setup command or the config decoder builds it:
        the identity fields set, no keyring, no passphrase. */
    constructor (name: Bytes, email: Bytes, publicKeyPath: Bytes, privateKeyPath: Bytes)
      ensures Identity() == (name, email, publicKeyPath, privateKeyPath)
      ensures keyring == null && keyPassphrase == []
    {
      this.name := name;
      this.email := email;
      this.publicKeyPath := publicKeyPath;
      this.privateKeyPath := privateKeyPath;
      keyring := null;
      keyPassphrase := [];
    }

    predicate IsUnlocked()
      reads this
    {
      keyring != null
    }

    /** The passphrase of the most recent `Unlock`, "" after `Lock`. */
    function Passphrase(): Bytes
      reads this
    {
      keyPassphrase
    }

    /** `PublicKeyString`: the keyring's public key text when unlocked, without
        touching the key file; otherwise the file's contents, or "" when it
        cannot be read. */
    function PublicKeyString(fs: Fs): (r: Bytes)
      reads this
      ensures IsUnlocked() ==> r == keyring.publicKeyString
      ensures !IsUnlocked() && fs.readFile(publicKeyPath).Ok? ==> r == fs.readFile(publicKeyPath).value
      ensures !IsUnlocked() && fs.readFile(publicKeyPath).Err? ==> r == []
    {
      if keyring != null then keyring.publicKeyString
      else
        match fs.readFile(publicKeyPath)
        case Err(_) => []
        case Ok(bytes) => bytes
    }

    /** `GetKeys`: the keyring of an unlocked session. Go panics on a locked
        one, so callers must unlock first. */
    function GetKeys(): (ring: Keyring)
      reads this
      requires IsUnlocked()
      ensures ring == keyring
    {
      keyring
    }

    /** `Lock`: forgets the keyring and the passphrase; the identity stays. */
    method Lock()
      modifies this
      ensures !IsUnlocked() && Passphrase() == []
      ensures Identity() == old(Identity())
    {
      keyring := null;
      keyPassphrase := [];
    }

    /** `Unlock`: records the passphrase, then, if no keyring is held yet,
        stores whatever the loader returns for the session's key paths and
        that passphrase, and returns the loader's error unchanged. An
        unlocked session keeps its keyring and reports success. */
    method Unlock(passphrase: Bytes, load: KeyringLoader) returns (err: Option<Error>)
      modifies this
      ensures Passphrase() == passphrase
      ensures Identity() == old(Identity())
      ensures old(keyring) != null ==> keyring == old(keyring) && err == None
      ensures old(keyring) == null ==>
        var loaded := load(publicKeyPath, privateKeyPath, passphrase);
        keyring == loaded.ring && err == loaded.err
    {
      keyPassphrase := passphrase;
      if keyring != null {
        return None;
      }
      var loaded := load(publicKeyPath, privateKeyPath, passphrase);
      keyring := loaded.ring;
      err := loaded.err;
    }
  }

  /** Unlocking twice, even with another passphrase, keeps the keyring the
      first successful unlock loaded; only the recorded passphrase changes.
      After `Lock` the session is back to locked with no passphrase. */
  method UnlockTwiceThenLock(c: Credentials, first: Bytes, second: Bytes, load: KeyringLoader)
    returns (ringAfterFirst: Keyring?, ringAfterSecond: Keyring?, err: Option<Error>)
    requires !c.IsUnlocked()
    requires load(c.publicKeyPath, c.privateKeyPath, first).ring != null
    modifies c
    ensures ringAfterFirst != null && ringAfterSecond == ringAfterFirst && err == None
    ensures !c.IsUnlocked() && c.Passphrase() == []
    ensures c.Identity() == old(c.Identity())
  {
    var _ := c.Unlock(first, load);
    ringAfterFirst := c.keyring;
    err := c.Unlock(second, load);
    ringAfterSecond := c.keyring;
    assert c.Passphrase() == second;
    c.Lock();
  }
}
