# passward core in Dafny

This project models the in-memory core of passward, a password manager that
keeps secrets in vaults under a home directory (`~/.passward`). The model
covers these parts:

- **Cipher framing** (`Crypto`).
  - Key derivation takes a prefix of SHA-256.
  - Encryption is AES-GCM, output as `iv ++ sealed`, optionally wrapped in base64.
  - An HMAC sign/verify pair.
- **Credential session** (`Session`). A locked or unlocked session over a nilable keyring and a passphrase.
- **Per-vault user registry** (`Users`).
- **Per-vault entry store** (`Entries`). Entries of individually encrypted fields.
- **Root registry** (`Root`). The vaults, the selected vault, and the home directory rules.
- **`detectGitName`** (`GitName`), which takes a repository name out of a clone URL.
- **`StringInArray`** (`Util`).

Supporting modules:

- `Base` holds bytes, `Option`, `Result` and the error kinds.
- `Paths` holds `path.Join` and `path.Base`.
- `FileSystem` holds the filesystem calls.

The model keeps the source's form:

- Objects whose fields Go updates are classes: `Credentials`, `VaultUser`,
  `VaultUsers`, `Entry`, `VaultEntries` and `Passward`. Their methods state the
  whole new state.
- Loops over directories and maps are `while` loops, proved against
  functions that give the loading rule on values: the ghost functions
  `LoadUsers` and `LoadEntries`, and the function `ReadFields`.
- Go's map iteration order is unspecified. Loops over maps therefore pick the
  next key nondeterministically.

Foreign code is passed in as parameters, each giving the outcome the call
reports for its arguments. Only these assumptions are made of them, each
taken only where a contract names it:

- `Crypto.Sound` (below): the AES-GCM and base64 round trips.
- `Users.KeyPairOf`: a keyring undoes the `sshcrypt` public-key encryption
  of its own key pair (with `Users.Wraps`, in `VaultUser.UnlockMasterKey`).
- A directory listing names each file once (`Distinct`, in
  `Entries.ReadFieldsContents` and `Entries.ReadEntryFields`).
- The result types listed under "## Left out".

- SHA-256, HMAC, AES-GCM seal/open and base64 are one `Crypto.Primitives`
  record. The round trips the framing relies on form the predicate
  `Crypto.Sound`. Lemmas that need those round trips take `Sound(p)` as a
  precondition.
- Each random read is a `Crypto.RandRead` value.
- The filesystem is `FileSystem.Fs`: the outcome each call reports.
- The SSH key parsing and public-key encryption are `Users.KeyOps`.
- The keyring loader is `Session.KeyringLoader`.
- The vault orchestrator's `NewVault`, `ReadVault`, `ReadAllVaults`, `Initialize`, `Seed`, `Save` and the git clone are `Root.VaultOps`.
- The environment values, `filepath.Abs` and the TOML decoder are parameters of `DetectPasswardPath`, `NewPassward` and `ReadPassward`.

Where the code and its documentation disagree, the model follows the code:

- `Decrypt` slices its input at the 12-byte nonce before any check, so a
  shorter input is a runtime panic, not an authentication failure. The model
  makes `|data| >= 12` a precondition of `Decrypt`. `DecryptBase64String` in
  turn requires a decoded input of at least 12 bytes (`DecodableCiphertext`).
- The comment above `Encrypt` promises an HMAC prefix. The code writes only
  `iv ++ sealed`, and so does the model.
- `aes.NewCipher` is modelled as its key-length check (16, 24 or 32 bytes).
  The derived key always has 16 bytes, so `Encrypt` can fail only through the
  random read.

## Model

| member | source | states |
|---|---|---|
| Crypto.KeyGen | passward/crypto.go:34-46 | fails exactly when the key size exceeds 32 (SHA-256's size), with that size in the error; otherwise the key is a prefix of SHA-256(passphrase) of exactly the requested length |
| Crypto.CipherKey | passward/crypto.go:72-77 | the AES key `Encrypt` and `Decrypt` both derive: the successful 16-byte `KeyGen` of the passphrase |
| Crypto.AesNewCipher | passward/crypto.go:78-82 | accepts exactly 16-, 24- and 32-byte keys; any other length is an error naming that length |
| Crypto.GenRandomIv | passward/crypto.go:51-64 | succeeds exactly when the random read reports no error and filled `blockSize` bytes, returning those bytes; a read error is passed on, a short read is its own error |
| Crypto.Encrypt | passward/crypto.go:70-105 | fails exactly when the nonce cannot be drawn, with that error; otherwise the output is the 12-byte nonce followed by the AES-GCM seal of the plaintext under the derived key and that nonce (no HMAC prefix) |
| Crypto.Decrypt | passward/crypto.go:107-132 | splits at 12 bytes into nonce and sealed text; succeeds exactly when opening succeeds, with the opened plaintext; otherwise an authentication error, never a partial plaintext |
| Crypto.EncryptThenDecrypt | passward/crypto.go:90-102 | under sound primitives, decrypting a successful encryption yields the plaintext again |
| Crypto.EncryptString | passward/crypto.go:137-139 | the byte conversion is the identity: the same result as `Encrypt` |
| Crypto.DecryptString | passward/crypto.go:144-151 | the same result as `Decrypt`: the plaintext or an error, never both |
| Crypto.DecryptBase64String | passward/crypto.go:153-160 | malformed base64 is an error with no plaintext; otherwise the decrypted decoding |
| Crypto.EncryptAndBase64String | passward/crypto.go:165-171 | succeeds exactly when `EncryptString` does, with the base64 of its ciphertext; otherwise its error |
| Crypto.Base64RoundTrip | passward/crypto_test.go:12-26 | under sound primitives, `DecryptBase64String` of a successful `EncryptAndBase64String` is the original data |
| Crypto.SignData | passward/crypto.go:16-21 | under sound primitives, the signature decodes to HMAC-SHA256 of the data keyed by the passphrase |
| Crypto.VerifySignature | passward/crypto.go:23-28 | under sound primitives, true exactly when the decoded signature equals the HMAC of the data |
| Crypto.SignThenVerify | passward/crypto.go:16-28 | a signature made by `SignData` verifies |
| Session.Credentials.constructor | passward/credentials.go:5-12 | a session with the given identity, no keyring and no passphrase |
| Session.Credentials.IsUnlocked | passward/credentials.go:56-58 | unlocked exactly when a keyring is held |
| Session.Credentials.Passphrase | passward/credentials.go:28-30 | the passphrase of the latest `Unlock`, "" after `Lock` (as the contracts of those two state) |
| Session.Credentials.PublicKeyString | passward/credentials.go:14-26 | unlocked: the keyring's public key text, without reading the key file; locked: the file's contents, or "" when the read fails |
| Session.Credentials.GetKeys | passward/credentials.go:37-42 | only for an unlocked session (Go panics otherwise); the stored keyring |
| Session.Credentials.Lock | passward/credentials.go:32-35 | afterwards locked, with passphrase ""; name, email and key paths unchanged |
| Session.Credentials.Unlock | passward/credentials.go:44-54 | the passphrase is recorded even when loading fails; an unlocked session keeps its keyring and reports success; a locked one stores the loader's keyring and returns the loader's error unchanged |
| Session.UnlockTwiceThenLock | passward/credentials.go:44-58 | a second unlock with another passphrase keeps the first keyring; `Lock` then leaves the session locked with no passphrase |
| Session.Keyring.constructor | passward/credentials.go:16-17 | a keyring carries the public key text `PublicKeyString` returns when unlocked |
| Users.PublicKeyFile | passward/vault_user.go:145-147 | the file `key` inside the user's directory |
| Users.EncryptedMasterFile | passward/vault_user.go:141-143 | the file `encrypted_master` inside the user's directory |
| Users.UserFilesDiffer | passward/vault_user.go:141-147 | the two files of a user never coincide |
| Users.NewVaultUser | passward/vault_user.go:164-179 | fails exactly when the public key does not parse, with that error; otherwise a record at `usersPath/email` with that email, key text and parsed key, and no wrapped master key |
| Users.ReadVaultUser | passward/vault_user.go:181-205 | succeeds exactly when both user files can be read; a failed key-file read returns its error, and after it a failed `encrypted_master` read returns that error; the email is the last component of the user's path; the parsed key is stored, and a key that does not parse is kept as no key |
| Users.SaveUserFiles | passward/vault_user.go:123-139 | creates a missing directory, then writes the key file and the wrapped master key file, stopping at the first failure and returning that step's error: the directory's, else the key file's, else the master file's |
| Users.VaultUser.Save | passward/vault_user.go:123-139 | the outcome `SaveUserFiles` gives for the user's current record |
| Users.VaultUser.Remove | passward/vault_user.go:107-109 | removes the user's directory, returning that error |
| Users.VaultUser.Email | passward/vault_user.go:116-118 | the email of the user's record |
| Users.VaultUser.PublicKey | passward/vault_user.go:119-121 | the public key text of the user's record |
| Users.VaultUser.GetEncryptedMasterKey | passward/vault_user.go:149-151 | the wrapped master key of the user's record |
| Users.VaultUser.UnlockMasterKey | passward/vault_user.go:111-114 | when the stored key wraps `master` for the user's public key and the keyring holds the matching private key, the result is `master` |
| Users.VaultUser.SetEncryptedMasterKey | passward/vault_user.go:153-162 | on success the stored value is the base64 of the public-key ciphertext of the master passphrase; on failure the field is unchanged and the error returned; nothing else changes |
| Users.VaultUser.FromRecord | passward/vault_user.go:99-105 | a user object holding exactly the given record |
| Users.VaultUsers.constructor | passward/vault_user.go:25-29 | an empty registry at `parentPath/users` |
| Users.VaultUsers.LookupByEmail | passward/vault_user.go:95-97 | non-nil exactly when a user is stored under the email; that user carries that email |
| Users.VaultUsers.RemoveByEmail | passward/vault_user.go:34-47 | an absent or nil email is an error and changes nothing; a present one is set to nil whatever the directory removal returns, and the removal error is returned; afterwards the lookup is nil |
| Users.VaultUsers.AddUser | passward/vault_user.go:53-72 | a present email is refused with the map unchanged; a parse, wrap or save failure returns its error with the map unchanged; on success only the email's slot changes, to the new user's record |
| Users.VaultUsers.Initialize | passward/vault_user.go:74-93 | on an existing directory, loads the listing by `LoadUsers`: every entry but `.placeholder`, keyed by its email, stopping at the first read error |
| Users.LoadUsers | passward/vault_user.go:80-90 | the loading rule on values; loading never drops a slot the registry already had |
| Users.VaultUsers.LoadListed | passward/vault_user.go:81-90 | every listed name but `.placeholder` read as a user from `path/name` and stored under its email, in listing order, stopping at the first error, as `LoadUsers` states |
| Users.VaultUsers.LoadOne | passward/vault_user.go:83-87 | one listed user read; on error the error is returned and the registry is unchanged, otherwise only its email is (re)bound to it |
| Users.VaultUsers.Store | passward/vault_user.go:87 | the user is bound under its own email and every other slot is kept, so every user still sits under its email |
| Users.LoadUsersKeysByEmail | passward/vault_user.go:80-88 | every user `Initialize` loads sits under its own email |
| Users.LoadedUnderDirectoryName | passward/vault_user.go:181-184 | a user read from `dir/name` has email `name` |
| Users.RecordsOfInsert | passward/vault_user.go:70 | storing a user under one email changes that email's record only |
| Users.RemoveThenAddAgain | passward/vault_user.go:36-56 | after removing a user, adding the email again passes the duplicate check: the result is the build error, the wrap error or the save outcome, and on success the new record sits under the email |
| Entries.Entry.constructor | passward/vault_entries.go:17-25 | `NewEntry`: an entry at `parentDir/name` with no fields |
| Entries.Entry.Name | passward/vault_entries.go:48-50 | the name of the entry's record |
| Entries.Entry.Set | passward/vault_entries.go:52-61 | on an encryption error the fields are unchanged and the error returned; on success only field `key` changes, to the base64 ciphertext of `val` under the passphrase `string(encryptionKey)`, which decrypts back to `val` |
| Entries.SetTwiceKeepsLast | passward/vault_entries.go:59 | setting a field twice keeps only the second ciphertext, which decrypts to the second value |
| Entries.Entry.Save | passward/vault_entries.go:63-75 | writes field `k` to `path/k` in map order; succeeds exactly when every write does; otherwise it returns the error of the last write tried, and every earlier write succeeded |
| Entries.ReadEntry | passward/vault_entries.go:27-46 | a listing or read error is returned; otherwise a new entry whose record is `ReadEntryRecord`: one field per file of its directory |
| Entries.ReadEntryRecord | passward/vault_entries.go:27-46 | the entry read from `parentDir/name` carries that name and path; a listing error is returned |
| Entries.ReadFields | passward/vault_entries.go:35-43 | the per-file read loop on values; a successful read keeps every field already held |
| Entries.ReadFieldsContents | passward/vault_entries.go:35-43 | a successful read holds exactly the listed files as fields, each with that file's contents |
| Entries.ReadEntryFields | passward/vault_entries.go:27-46 | an entry read from `parentDir/name` has that name and path, and one field per file of its directory holding the file's contents |
| Entries.VaultEntries.constructor | passward/vault_entries.go:82-88 | `NewVaultEntries`: an empty store at `parentDir/keys` |
| Entries.VaultEntries.Path | passward/vault_entries.go:90-92 | the directory whose child `n` is the directory of the entry stored under `n` |
| Entries.VaultEntries.EntryNamed | passward/vault_entries.go:125-127 | the entry stored under `name`, or a new empty one at `path/name` stored first; no other slot changes |
| Entries.VaultEntries.Add | passward/vault_entries.go:124-130 | creates an empty entry only when none is stored under `name`, otherwise keeps the same object and its other fields; only that entry's field `key` changes; a failed `Set` leaves a newly created field-less entry in place; on success the field decrypts to `val` |
| Entries.VaultEntries.Initialize | passward/vault_entries.go:94-122 | creates a missing directory and its placeholder, returning either error; a listing error is returned; otherwise loads by `LoadEntries` |
| Entries.LoadEntries | passward/vault_entries.go:108-119 | the loading rule on values; loading never drops a name the store already had |
| Entries.VaultEntries.LoadListed | passward/vault_entries.go:108-119 | every listed name but `.placeholder` read as an entry and stored under its name, in listing order, stopping at the first error |
| Entries.VaultEntries.LoadOne | passward/vault_entries.go:110-117 | one listed entry read; on error the error is returned and the entries are unchanged, otherwise only its name is (re)bound to its record |
| Entries.VaultEntries.Store | passward/vault_entries.go:117 | the entry is bound under its own name and every other slot is kept, so every entry still sits under its name and path |
| Entries.VaultEntries.Save | passward/vault_entries.go:132-140 | succeeds exactly when every field of every entry is written; otherwise the error returned is that of a failing field write of some entry |
| Entries.RecordsOfEntriesInsert | passward/vault_entries.go:117 | storing an entry under one name changes that name's record only |
| Root.Passward.GetVault | passward/passward.go:46-48 | non-nil exactly when a non-nil vault is stored under the name, and then that vault |
| Root.Passward.UseVault | passward/passward.go:26-34 | a name with no vault (absent or nil) is an error naming it, with both selection fields unchanged; otherwise the selected name and the selected vault are set to that name and its vault |
| Root.UseThenGetSelected | passward/passward.go:22-34 | after `UseVault`, `GetSelectedVault` is the vault `GetVault` gives for that name, or the previous selection after an error |
| Root.Passward.SetCredentials | passward/passward.go:50-52 | the credentials become the argument |
| Root.Passward.GetCredentials | passward/passward.go:54-59 | only with credentials set (Go panics otherwise); the stored credentials |
| Root.Passward.Unlock | passward/passward.go:64-69 | only with credentials set; the session's own `Unlock`, with its outcome unchanged |
| Root.Passward.AddVault | passward/passward.go:112-143 | a name that already has a vault is refused first; then a creation error, locked credentials, and `Initialize`, `Seed` and `Save` errors in that order are returned; every failure leaves the vaults unchanged; on success only `name` is bound, to the new vault |
| Root.Passward.FetchVault | passward/passward.go:71-107 | an empty name becomes `detectGitName(url)` before the duplicate check; a name that already has a vault is refused; clone and read errors are returned and a missing vault is an error; only full success binds the vault under that name |
| Root.Passward.HomeLayout | passward/passward.go:145-151 | the vault directory is `vaults` and the configuration file is `config.toml`, both entries of the home; the two paths differ |
| Root.DetectPasswardPath | passward/passward.go:153-165 | a non-empty `PASSWARD_HOME` wins; else a non-empty `HOME` gives `HOME/.passward`; else `/opt/passward`; never empty |
| Root.Passward.constructor | passward/passward.go:183-184 | a registry at the directory with no vaults, no credentials and nothing selected |
| Root.Passward.GetSelectedVault | passward/passward.go:22-24 | the vault the latest successful selection chose (see `Root.UseThenGetSelected`) |
| Root.Passward.VaultPath | passward/passward.go:145-147 | `home/vaults` |
| Root.Passward.ConfigPath | passward/passward.go:149-151 | `home/config.toml` |
| Root.NewPassward | passward/passward.go:167-189 | an empty directory is replaced by the detected path; an `Abs` error is returned; an existing home is refused; otherwise a new empty registry at the absolute path: no vaults, no credentials, an empty selected name and no selected vault |
| Root.Selection | passward/passward.go:214-216 | the stored selection picks a vault exactly when the name is non-empty and a non-nil vault is stored under it |
| Root.ReadPassward | passward/passward.go:194-219 | `Abs`, decoding and vault-loading errors are returned in that order; otherwise the stored selected name is kept whether or not its vault exists, and the selected vault is the one `Selection` gives |
| GitName.SearchK | passward/git.go:16-20 | the longest group for a fixed start and slash: the largest end that completes a match, and no larger one does |
| GitName.SearchJ | passward/git.go:16-20 | the greedy `.+`: the last slash that admits a match, with its longest group; no later slash admits one |
| GitName.SearchI | passward/git.go:16-20 | the leftmost start at which the pattern matches; no earlier start does |
| GitName.FindStringSubmatch | passward/git.go:20-21 | nothing exactly when the pattern matches nowhere; otherwise two strings, the preferred match and its group (so the length check never rejects a match) |
| GitName.DetectGitName | passward/git.go:14-25 | "" when nothing matches; otherwise the group of the preferred match |
| GitName.DetectGitNameEmpty | passward/git.go:21-24 | the name is "" exactly when nothing matches or the matched group is empty |
| GitName.NoSlashNoName | passward/git.go:16-24 | a URL with no slash after its first character gives "" |
| GitName.PreferredGroupHasNoSlash | passward/git.go:16 | the group of the preferred match contains no slash, since a slash in it would give a longer `.+` |
| GitName.DetectGitNameShape | passward/git.go:16-24 | the name has no slash, is a contiguous piece of the URL, and is shorter than the URL whenever the URL is non-empty |
| GitName.NameBeforeGit | passward/git.go:16-22 | for a newline-free `p/n` + any character + `git`, with `p` non-empty and no slash in `n`, the name is `n` |
| GitName.NameOfDotGitUrl | passward/git.go:16-22 | `p/n.git` gives `n` |
| GitName.UnescapedDot | passward/git.go:16 | the dot is unescaped: `h/abcgit` gives `ab` |
| Util.StringInArray | util/util.go:61-68 | true exactly when `toFind` is an element of `list`; false on an empty list; true when the first element matches |
| Paths.Join | passward/vault_entries.go:20 | `path.Join` of two parts: either part when the other is empty, otherwise both with one slash between |
| Paths.BaseName | passward/vault_user.go:184 | `path.Base`: never empty; a non-empty slash-free path is its own base |
| Paths.BaseNameOfJoin | passward/vault_user.go:164-184 | the base of `dir` joined with a non-empty slash-free name is that name |
| Paths.AfterLastSlashOfJoin | passward/vault_user.go:184 | what follows the last slash of `dir/name` is `name` when `name` has no slash |
| Paths.TrimTrailingSlashes | passward/vault_user.go:184 | removes exactly the trailing slashes: a prefix of the path that does not end in a slash |
| Paths.AfterLastSlash | passward/vault_user.go:184 | the slash-free suffix of the path after its last slash |

## Left out

- Concrete cryptography (SHA-256, HMAC, AES-GCM, base64, `crypto/rand`, RSA/SSH key wrapping via `sshcrypt`): foreign libraries. They are parameters. The AES-GCM and base64 round trips are the predicate `Crypto.Sound`; the `sshcrypt` round trip is the separate predicate `Users.KeyPairOf`. Wrong-key rejection and tamper detection are properties of AES-GCM itself and are not stated.
- Filesystem effects: each call's outcome is a function of its arguments. A write is therefore not seen by a later read. Directory and file modes are not modelled.
- `path.Join` and `filepath.Join` are modelled without Go's lexical clean-up (collapsing `//`, `.` and `..`).
- `filepath.Abs` is a parameter, because it depends on the working directory.
- Error texts: errors are kinds with their arguments, not Go strings. This includes the `KeyGen` message, which converts `keySize` to a rune.
- GitName: each byte counts as one character. Go's `.` consumes a whole UTF-8 rune, so for URLs with multi-byte characters the group's byte boundaries may differ.
- The TOML encoding and decoding of `config.toml`. `ReadPassward` takes the decoder as a parameter, and `Passward.Save` is not modelled: it only writes the encoded file.
- `GetVaults` returns the `vaults` map as is and is not modelled separately.
- passward/vault.go and passward/config.go: they are older revisions of the same types, with signatures that conflict with the files modelled here.
- The vault orchestrator that passward.go calls (`NewVault`, `ReadVault`, `ReadAllVaults`, `Vault.Initialize`, `Seed`, `Save`, the clone): their definitions are not part of this model.
- passward/ssh_keys.go (key-file parsing and discovery), the libgit2 plumbing of passward/git.go apart from `detectGitName`, the commands and the command-line front end: outside the core.
- Crypto.Decrypt: requires at least 12 bytes of input, because the Go code panics on shorter input instead of returning an authentication error.
- Session.Credentials.GetKeys, Root.Passward.GetCredentials, Root.Passward.Unlock: require the value Go would otherwise dereference as nil (a panic).
- Root.ReadPassward: requires decoded credentials to be present, because Go dereferences them when reading the vaults.
- Users.VaultUser.SetEncryptedMasterKey: requires a parsed public key; Go would pass a nil key to the encryption library.
- Crypto.DecryptString: requires at least 12 bytes of input, for the same panic as `Decrypt`, which it calls.
- Crypto.DecryptBase64String: requires that a successful decoding has at least 12 bytes (`DecodableCiphertext`), for the same panic.
- Root.Passward.AddVault: requires credentials when the name has no vault yet, because Go's `GetCredentials` panics on nil; the command that calls it sets them first.
- Root.Passward.FetchVault: requires credentials when the (detected) name has no vault yet, for the same panic; the command that calls it sets them first.
- Vault result types: `ReadAllVaults` may give nil slots, and a nil slot counts as absent wherever Go tests for nil. `NewVault` gives a non-nil vault whenever it reports no error. `ReadVault` may give neither a vault nor an error.
- Diagnostic output (`debug` calls and the `log.Println` in `DetectPasswardPath`): it changes no state and no result.
