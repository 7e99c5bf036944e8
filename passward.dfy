/** The root registry of passward/passward.go: the passward home directory,
    the user's credential session, the vaults found under `home/vaults`
    and the vault selected for use. */
module Root {
  import opened Base
  import opened Paths
  import opened FileSystem
  import opened Session
  import GitName

  const VaultsDirName: Bytes := "vaults"
  const ConfigFileName: Bytes := "config.toml"
  const GlobalHome: Bytes := "/opt/passward"
  const HomeDirName: Bytes := ".passward"
  const NewVaultMessage: Bytes := "New vault created."

  /** A vault, known here only by its reference; its contents belong to the
      vault orchestrator, which is not part of this model. */
  class Vault {
  }

  /** `ReadVault` can report no vault and no error. */
  datatype VaultRead = VaultRead(vault: Vault?, err: Option<Error>)

  /** The vault operations `AddVault`, `FetchVault` and `ReadPassward` call,
      each given as the outcome it reports for its arguments:
      `NewVault(vaultPath, name, creds)`, `vault.Initialize()`,
      `vault.Seed()`, `vault.Save(message)`, the clone of `url` into a
      directory, `ReadVault(vaultPath, name, creds)` and
      `ReadAllVaults(vaultPath, creds)`. */
  datatype VaultOps = VaultOps(
    newVault: (Bytes, Bytes, Credentials) -> Result<Vault>,
    initialize: Vault -> Option<Error>,
    seed: Vault -> Option<Error>,
    save: (Vault, Bytes) -> Option<Error>,
    clone: (Bytes, Bytes, Credentials) -> Option<Error>,
    readVault: (Bytes, Bytes, Credentials) -> VaultRead,
    readAllVaults: (Bytes, Credentials) -> Result<map<Bytes, Vault?>>)

  /** What decoding `config.toml` sets: the credentials and the name of the
      selected vault. */
  datatype Config = Config(credentials: Credentials?, selectedVault: Bytes)

  /** `DetectPasswardPath` with the values of `PASSWARD_HOME` and `HOME`: a
      non-empty `PASSWARD_HOME` wins, then `HOME/.passward`, then the global
      `/opt/passward`. The result is never empty. */
  function DetectPasswardPath(passwardHome: Bytes, home: Bytes): (r: Bytes)
    ensures r != []
    ensures passwardHome != [] ==> r == passwardHome
    ensures passwardHome == [] && home != [] ==>
      |r| == |home| + 1 + |HomeDirName| && r[..|home|] == home && r[|home|] == '/' && r[|home| + 1..] == HomeDirName
    ensures passwardHome == [] && home == [] ==> r == GlobalHome
  {
    if passwardHome != [] then passwardHome
    else if home == [] then GlobalHome
    else Join(home, HomeDirName)
  }

  class Passward {
    var path: Bytes
    var credentials: Credentials?
    var selectedVaultName: Bytes
    var vaults: map<Bytes, Vault?>
    var selectedVault: Vault?

    /** The registry `NewPassward` builds for `directory`: no vaults, no
        credentials, nothing selected. */
    constructor (directory: Bytes)
      ensures path == directory && credentials == null
      ensures selectedVaultName == [] && vaults == map[] && selectedVault == null
    {
      path := directory;
      credentials := null;
      selectedVaultName := [];
      vaults := map[];
      selectedVault := null;
    }

    function GetSelectedVault(): Vault?
      reads this
    {
      selectedVault
    }

    /** `GetVault`: the vault under `name`, nil when there is none or the
        slot holds nil. Every presence test in this registry is this one. */
    function GetVault(name: Bytes): (v: Vault?)
      reads this
      ensures v != null <==> name in vaults && vaults[name] != null
      ensures v != null ==> v == vaults[name]
    {
      if name in vaults then vaults[name] else null
    }

    /** `vaultPath`: the directory holding the vaults, `home/vaults`. */
    function VaultPath(): (r: Bytes)
      reads this
      ensures path != [] ==> r == path + "/" + VaultsDirName
    {
      Join(path, VaultsDirName)
    }

    /** `configPath`: the configuration file, `home/config.toml`. */
    function ConfigPath(): (r: Bytes)
      reads this
      ensures path != [] ==> r == path + "/" + ConfigFileName
    {
      Join(path, ConfigFileName)
    }

    /** The vault directory and the configuration file are two different
        entries of the home directory. */
    lemma HomeLayout()
      ensures BaseName(VaultPath()) == VaultsDirName
      ensures BaseName(ConfigPath()) == ConfigFileName
      ensures VaultPath() != ConfigPath()
    {
      BaseNameOfJoin(path, VaultsDirName);
      BaseNameOfJoin(path, ConfigFileName);
    }

    /** `UseVault`: selects the vault under `name`. An unknown name is an
        error and leaves the selection as it was. */
    method UseVault(name: Bytes) returns (err: Option<Error>)
      modifies this`selectedVaultName, this`selectedVault
      ensures GetVault(name) == null ==>
        err == Some(VaultNotFound(name)) && selectedVaultName == old(selectedVaultName) && selectedVault == old(selectedVault)
      ensures GetVault(name) != null ==> err == None && selectedVaultName == name && selectedVault == vaults[name]
    {
      var vault := GetVault(name);
      if vault == null {
        return Some(VaultNotFound(name));
      }
      selectedVaultName := name;
      selectedVault := vault;
      return None;
    }

    method SetCredentials(creds: Credentials?)
      modifies this`credentials
      ensures credentials == creds
    {
      credentials := creds;
    }

    /** `GetCredentials`: the credentials, which must be set (Go panics
        otherwise). */
    function GetCredentials(): (c: Credentials)
      reads this
      requires credentials != null
      ensures c == credentials
    {
      credentials
    }

    /** `Unlock`: unlocks the credential session with `passphrase`; the
        credentials must be set. The session's own `Unlock` decides. */
    method Unlock(passphrase: Bytes, load: KeyringLoader) returns (err: Option<Error>)
      requires credentials != null
      modifies credentials
      ensures credentials.Passphrase() == passphrase
      ensures credentials.Identity() == old(credentials.Identity())
      ensures old(credentials.keyring) != null ==> credentials.keyring == old(credentials.keyring) && err == None
      ensures old(credentials.keyring) == null ==>
        var loaded := load(credentials.publicKeyPath, credentials.privateKeyPath, passphrase);
        credentials.keyring == loaded.ring && err == loaded.err
    {
      err := credentials.Unlock(passphrase, load);
    }

    /** `AddVault`: an existing name is refused before anything else. Then
        the vault is created under the vault directory; the credentials must
        be unlocked; it is initialized, seeded and saved, and only after all
        of that put under `name`. Any failure is returned and leaves
        `vaults` as it was. */
    method AddVault(name: Bytes, ops: VaultOps) returns (err: Option<Error>)
      requires GetVault(name) == null ==> credentials != null
      modifies this`vaults
      ensures old(GetVault(name)) != null ==> err == Some(VaultExists(name)) && vaults == old(vaults)
      ensures err.Some? ==> vaults == old(vaults)
      ensures old(GetVault(name)) == null ==>
        var created := ops.newVault(VaultPath(), name, credentials);
        && (created.Err? ==> err == Some(created.error))
        && (created.Ok? && !credentials.IsUnlocked() ==> err == Some(CredentialsLocked))
        && (created.Ok? && credentials.IsUnlocked() ==>
             var v := created.value;
             if ops.initialize(v).Some? then err == ops.initialize(v)
             else if ops.seed(v).Some? then err == ops.seed(v)
             else if ops.save(v, NewVaultMessage).Some? then err == ops.save(v, NewVaultMessage)
             else err == None && vaults == old(vaults)[name := v])
    {
      if GetVault(name) != null {
        return Some(VaultExists(name));
      }
      var creds := GetCredentials();
      var created := ops.newVault(VaultPath(), name, creds);
      if created.Err? {
        return Some(created.error);
      }
      var vault := created.value;
      if !creds.IsUnlocked() {
        return Some(CredentialsLocked);
      }
      err := ops.initialize(vault);
      if err.Some? {
        return err;
      }
      err := ops.seed(vault);
      if err.Some? {
        return err;
      }
      err := ops.save(vault, NewVaultMessage);
      if err.Some? {
        return err;
      }
      vaults := vaults[name := vault];
    }

    /** `FetchVault`: an empty `name` is replaced by the name in `url`; an
        existing name is refused; the repository is cloned to
        `home/vaults/name` and read back as a vault, which is put under
        `name` only when both steps succeed and a vault was found. */
    method FetchVault(url: Bytes, name: Bytes, ops: VaultOps) returns (vault: Vault?, err: Option<Error>)
      requires var n := if name == [] then GitName.DetectGitName(url) else name;
        GetVault(n) == null ==> credentials != null
      modifies this`vaults
      ensures var n := if name == [] then GitName.DetectGitName(url) else name;
        && (err.Some? ==> vault == null && vaults == old(vaults))
        && (old(GetVault(n)) != null ==> err == Some(VaultExists(n)))
        && (old(GetVault(n)) == null ==>
             var cloned := ops.clone(Join(VaultPath(), n), url, credentials);
             var read := ops.readVault(VaultPath(), n, credentials);
             if cloned.Some? then err == cloned
             else if read.err.Some? then err == read.err
             else if read.vault == null then err == Some(NoVaultFetched(n))
             else err == None && vault == read.vault && vaults == old(vaults)[n := read.vault])
    {
      var n := name;
      if n == [] {
        n := GitName.DetectGitName(url);
      }
      if GetVault(n) != null {
        return null, Some(VaultExists(n));
      }
      var tmpDir := Join(Join(path, VaultsDirName), n);
      var creds := GetCredentials();
      err := ops.clone(tmpDir, url, creds);
      if err.Some? {
        return null, err;
      }
      var read := ops.readVault(VaultPath(), n, GetCredentials());
      if read.err.Some? {
        return null, read.err;
      }
      if read.vault == null {
        return null, Some(NoVaultFetched(n));
      }
      vault := read.vault;
      vaults := vaults[n := vault];
      err := None;
    }
  }

  /** `NewPassward`: the home is `directory`, or the detected path when it is
      empty, made absolute by `abs`. An existing home is refused; otherwise
      an empty registry for it is returned (Go also creates its vault
      directory, ignoring the error). */
  method NewPassward(directory: Bytes, passwardHome: Bytes, home: Bytes, abs: Bytes -> Result<Bytes>, fs: Fs)
    returns (r: Result<Passward>)
    ensures var d := abs(if directory == [] then DetectPasswardPath(passwardHome, home) else directory);
      && (d.Err? ==> r == Err(d.error))
      && (d.Ok? && fs.directoryExists(d.value) ==> r == Err(HomeExists(d.value)))
      && (d.Ok? && !fs.directoryExists(d.value) ==>
           r.Ok? && fresh(r.value) && r.value.path == d.value && r.value.vaults == map[]
           && r.value.credentials == null && r.value.selectedVault == null
           && r.value.selectedVaultName == [])
  {
    var dir := directory;
    if dir == [] {
      dir := DetectPasswardPath(passwardHome, home);
    }
    var absolute := abs(dir);
    if absolute.Err? {
      return Err(absolute.error);
    }
    dir := absolute.value;
    if fs.directoryExists(dir) {
      return Err(HomeExists(dir));
    }
    var pw := new Passward(dir);
    var _ := fs.mkdirAll(pw.VaultPath());
    return Ok(pw);
  }

  /** The vault a stored selection picks: none for an empty name, an
      unknown one or one whose slot holds nil. */
  function Selection(name: Bytes, vaults: map<Bytes, Vault?>): (v: Vault?)
    ensures v != null <==> name != [] && name in vaults && vaults[name] != null
    ensures v != null ==> v == vaults[name]
  {
    if name != [] && name in vaults then vaults[name] else null
  }

  /** `ReadPassward`: the home `directory` made absolute, its configuration
      decoded (the credentials must be present: Go panics otherwise), the
      vaults read, and then the stored selection re-applied, ignoring the
      error: a stored name with no vault keeps its value and selects
      nothing. */
  method ReadPassward(directory: Bytes, abs: Bytes -> Result<Bytes>, decode: Bytes -> Result<Config>, ops: VaultOps)
    returns (r: Result<Passward>)
    requires abs(directory).Ok? && decode(Join(abs(directory).value, ConfigFileName)).Ok? ==>
      decode(Join(abs(directory).value, ConfigFileName)).value.credentials != null
    ensures abs(directory).Err? ==> r == Err(abs(directory).error)
    ensures abs(directory).Ok? ==>
      var d := abs(directory).value;
      var conf := decode(Join(d, ConfigFileName));
      && (conf.Err? ==> r == Err(conf.error))
      && (conf.Ok? ==>
           var loaded := ops.readAllVaults(Join(d, VaultsDirName), conf.value.credentials);
           && (loaded.Err? ==> r == Err(loaded.error))
           && (loaded.Ok? ==>
                && r.Ok? && fresh(r.value)
                && r.value.path == d && r.value.credentials == conf.value.credentials
                && r.value.vaults == loaded.value
                && r.value.selectedVaultName == conf.value.selectedVault
                && r.value.selectedVault == Selection(conf.value.selectedVault, loaded.value)))
  {
    var absolute := abs(directory);
    if absolute.Err? {
      return Err(absolute.error);
    }
    var dir := absolute.value;
    var configPath := Join(dir, ConfigFileName);
    var conf := decode(configPath);
    if conf.Err? {
      return Err(conf.error);
    }
    var pw := new Passward(dir);
    pw.credentials := conf.value.credentials;
    pw.selectedVaultName := conf.value.selectedVault;
    var loaded := ops.readAllVaults(pw.VaultPath(), pw.GetCredentials());
    if loaded.Err? {
      return Err(loaded.error);
    }
    pw.vaults := loaded.value;
    if pw.selectedVaultName != [] {
      var _ := pw.UseVault(pw.selectedVaultName);
    }
    assert pw.selectedVault == Selection(conf.value.selectedVault, loaded.value);
    return Ok(pw);
  }

  /** Selecting a known vault makes it the selected one. */
  method UseThenGetSelected(pw: Passward, name: Bytes) returns (err: Option<Error>, selected: Vault?)
    modifies pw
    ensures err == None <==> pw.GetVault(name) != null
    ensures err == None ==> selected == pw.GetVault(name)
    ensures err != None ==> selected == old(pw.selectedVault)
  {
    err := pw.UseVault(name);
    selected := pw.GetSelectedVault();
  }
}
