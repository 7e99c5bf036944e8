/** The per-vault entry store of passward/vault_entries.go. An entry maps
    field names to ciphertext strings (base64 of `Crypto.Encrypt`), each
    field encrypted on its own; the store maps entry names to entries. */
module Entries {
  import opened Base
  import opened Paths
  import opened FileSystem
  import opened Crypto

  const KeysDirName: Bytes := "keys"
  const PlaceholderName: Bytes := ".placeholder"

  /** The values an `Entry` holds. */
  datatype EntryRecord = EntryRecord(name: Bytes, path: Bytes, fields: map<Bytes, Bytes>)

  /** Every field of `rec` would be written successfully by `Save`. */
  ghost predicate WritesSucceed(fs: Fs, rec: EntryRecord) {
    forall k :: k in rec.fields ==> fs.writeFile(Join(rec.path, k), rec.fields[k]).None?
  }

  /** `ReadEntry`'s loop on values: each listed file read into the field of
      that name, stopping at the first read that fails. */
  function ReadFields(fs: Fs, dir: Bytes, names: seq<Bytes>, acc: map<Bytes, Bytes>): (r: Result<map<Bytes, Bytes>>)
    ensures r.Ok? ==> forall k :: k in acc ==> k in r.value
    decreases |names|
  {
    if names == [] then Ok(acc)
    else match fs.readFile(Join(dir, names[0]))
      case Err(e) => Err(e)
      case Ok(bytes) => ReadFields(fs, dir, names[1..], acc[names[0] := bytes])
  }

  /** What a successful `ReadFields` gives: exactly one field per listed file
      (besides those already held), holding that file's contents. */
  lemma {:induction false} ReadFieldsContents(fs: Fs, dir: Bytes, names: seq<Bytes>, acc: map<Bytes, Bytes>)
    requires Distinct(names)
    requires ReadFields(fs, dir, names, acc).Ok?
    ensures var m := ReadFields(fs, dir, names, acc).value;
      && (forall k :: k in m <==> k in acc || k in names)
      && (forall k :: k in names ==> k in m && fs.readFile(Join(dir, k)) == Ok(m[k]))
      && (forall k :: k in acc && k !in names ==> k in m && m[k] == acc[k])
    decreases |names|
  {
    if names != [] {
      var bytes := fs.readFile(Join(dir, names[0])).value;
      assert Distinct(names[1..]) by {
        forall a, b | 0 <= a < b < |names[1..]| ensures names[1..][a] != names[1..][b] {
          assert names[1..][a] == names[a + 1] && names[1..][b] == names[b + 1];
        }
      }
      assert names[0] !in names[1..] by {
        forall t | 0 <= t < |names[1..]| ensures names[1..][t] != names[0] {
          assert names[1..][t] == names[t + 1];
        }
      }
      ReadFieldsContents(fs, dir, names[1..], acc[names[0] := bytes]);
      assert forall k :: k in names <==> k == names[0] || k in names[1..];
    }
  }

  /** `ReadEntry` on values: the entry `parentDir/name` with every file of
      its directory as a field; a listing or read error is returned. */
  function ReadEntryRecord(fs: Fs, parentDir: Bytes, name: Bytes): (r: Result<EntryRecord>)
    ensures r.Ok? ==> r.value.name == name && r.value.path == Join(parentDir, name)
    ensures fs.readDir(Join(parentDir, name)).Err? ==> r == Err(fs.readDir(Join(parentDir, name)).error)
  {
    var path := Join(parentDir, name);
    var files :- fs.readDir(path);
    var fields :- ReadFields(fs, path, files, map[]);
    Ok(EntryRecord(name, path, fields))
  }

  /** A read entry holds one field per file of its directory (the listing
      names each file once), each holding that file's contents. */
  lemma ReadEntryFields(fs: Fs, parentDir: Bytes, name: Bytes)
    requires ReadEntryRecord(fs, parentDir, name).Ok?
    requires Distinct(fs.readDir(Join(parentDir, name)).value)
    ensures var rec := ReadEntryRecord(fs, parentDir, name).value;
      var files := fs.readDir(Join(parentDir, name)).value;
      && rec.name == name && rec.path == Join(parentDir, name)
      && (forall k :: k in rec.fields <==> k in files)
      && (forall k :: k in files ==> fs.readFile(Join(rec.path, k)) == Ok(rec.fields[k]))
  {
    var path := Join(parentDir, name);
    ReadFieldsContents(fs, path, fs.readDir(path).value, map[]);
  }

  class Entry {
    var name: Bytes
    var path: Bytes
    var encryptedValues: map<Bytes, Bytes>

    function Record(): EntryRecord
      reads this
    {
      EntryRecord(name, path, encryptedValues)
    }

    /** `NewEntry`: an entry at `parentDir/name` with no fields. */
    constructor (parentDir: Bytes, name: Bytes)
      ensures Record() == EntryRecord(name, Join(parentDir, name), map[])
    {
      this.name := name;
      path := Join(parentDir, name);
      encryptedValues := map[];
    }

    /** The entry's name, the one its record carries. */
    function Name(): (r: Bytes)
      reads this
      ensures r == Record().name
    {
      name
    }

    /** `Set`: encrypts `val` under the passphrase `string(encryptionKey)` and
        stores its base64 under `key`, replacing any earlier value of that
        field (last write wins) and leaving every other field alone. On an
        encryption error nothing changes. The stored value decrypts back to
        `val` with the same key. */
    method Set(key: Bytes, val: Bytes, encryptionKey: Bytes, p: Primitives, rnd: RandRead) returns (err: Option<Error>)
      modifies this`encryptedValues
      ensures var ct := EncryptAndBase64String(p, encryptionKey, val, rnd);
        if ct.Err? then err == Some(ct.error) && encryptedValues == old(encryptedValues)
        else err == None && encryptedValues == old(encryptedValues)[key := ct.value]
      ensures Sound(p) && err == None ==>
        && DecodableCiphertext(p, encryptedValues[key])
        && DecryptBase64String(p, encryptionKey, encryptedValues[key]) == Ok(val)
    {
      var cryptKey := encryptionKey;
      var encryptedVal := EncryptAndBase64String(p, cryptKey, val, rnd);
      if encryptedVal.Err? {
        return Some(encryptedVal.error);
      }
      if Sound(p) {
        Base64RoundTrip(p, cryptKey, val, rnd);
      }
      encryptedValues := encryptedValues[key := encryptedVal.value];
      return None;
    }

    /** `Save`: writes each field to `path/field`, in the map's (unspecified)
        iteration order, and stops at the first write that fails. `written`
        lists the fields tried, in order: all but a failing last one were
        written. Go also creates a missing directory, ignoring the error;
        that call has no outcome here. */
    method Save(fs: Fs) returns (err: Option<Error>, ghost written: seq<Bytes>)
      ensures err.None? <==> WritesSucceed(fs, Record())
      ensures err.Some? ==> exists k :: k in encryptedValues && err == fs.writeFile(Join(path, k), encryptedValues[k])
      ensures Distinct(written) && forall i :: 0 <= i < |written| ==> written[i] in encryptedValues
      ensures forall i :: 0 <= i < |written| && (err.None? || i < |written| - 1) ==>
        fs.writeFile(Join(path, written[i]), encryptedValues[written[i]]).None?
      ensures err.None? ==> forall k :: k in encryptedValues ==> k in written
      ensures err.Some? ==> (written != [] &&
        err == fs.writeFile(Join(path, written[|written| - 1]), encryptedValues[written[|written| - 1]]))
    {
      if !fs.directoryExists(path) {
        var _ := fs.mkdirAll(path);
      }
      var remaining := encryptedValues.Keys;
      written := [];
      while remaining != {}
        invariant remaining <= encryptedValues.Keys
        invariant Distinct(written)
        invariant forall i :: 0 <= i < |written| ==> written[i] in encryptedValues && written[i] !in remaining
        invariant forall k :: k in encryptedValues ==> k in remaining || k in written
        invariant forall i :: 0 <= i < |written| ==> fs.writeFile(Join(path, written[i]), encryptedValues[written[i]]).None?
        decreases remaining
      {
        var key :| key in remaining;
        var e := fs.writeFile(Join(path, key), encryptedValues[key]);
        written := written + [key];
        if e.Some? {
          assert !WritesSucceed(fs, Record());
          return e, written;
        }
        remaining := remaining - {key};
      }
      err := None;
    }
  }

  /** `ReadEntry`: the entry `parentDir/name` loaded from its directory, one
      field per file, as `ReadEntryRecord` describes. */
  method ReadEntry(fs: Fs, parentDir: Bytes, name: Bytes) returns (r: Result<Entry>)
    ensures r.Err? <==> ReadEntryRecord(fs, parentDir, name).Err?
    ensures r.Err? ==> r.error == ReadEntryRecord(fs, parentDir, name).error
    ensures r.Ok? ==> fresh(r.value) && r.value.Record() == ReadEntryRecord(fs, parentDir, name).value
  {
    var entry := new Entry(parentDir, name);
    var files := fs.readDir(entry.path);
    if files.Err? {
      return Err(files.error);
    }
    var i := 0;
    while i < |files.value|
      invariant 0 <= i <= |files.value|
      invariant entry.Record() == EntryRecord(name, Join(parentDir, name), entry.encryptedValues)
      invariant ReadFields(fs, entry.path, files.value[i..], entry.encryptedValues)
             == ReadFields(fs, entry.path, files.value, map[])
    {
      var filename := files.value[i];
      assert files.value[i..][0] == filename && files.value[i..][1..] == files.value[i + 1..];
      var bytes := fs.readFile(Join(entry.path, filename));
      if bytes.Err? {
        return Err(bytes.error);
      }
      entry.encryptedValues := entry.encryptedValues[filename := bytes.value];
      i := i + 1;
    }
    assert files.value[i..] == [];
    return Ok(entry);
  }

  /** `VaultEntries.Initialize`'s loading rule: every directory entry but the
      placeholder is read as an entry and stored under its name, in listing
      order, until the first read that fails. */
  ghost function LoadEntries(fs: Fs, dir: Bytes, names: seq<Bytes>, acc: map<Bytes, EntryRecord>)
    : (r: (Option<Error>, map<Bytes, EntryRecord>))
    ensures forall n :: n in acc ==> n in r.1
    decreases |names|
  {
    if names == [] then (None, acc)
    else if names[0] == PlaceholderName then LoadEntries(fs, dir, names[1..], acc)
    else match ReadEntryRecord(fs, dir, names[0])
      case Err(e) => (Some(e), acc)
      case Ok(rec) => LoadEntries(fs, dir, names[1..], acc[rec.name := rec])
  }

  /** The records behind a map of entries. */
  ghost function RecordsOfEntries(m: map<Bytes, Entry>): map<Bytes, EntryRecord>
    reads set n | n in m :: m[n]
  {
    map n | n in m :: m[n].Record()
  }

  /** Storing an entry under a name changes the records under that name only. */
  lemma RecordsOfEntriesInsert(m: map<Bytes, Entry>, k: Bytes, e: Entry)
    ensures RecordsOfEntries(m[k := e]) == RecordsOfEntries(m)[k := e.Record()]
  {
  }

  class VaultEntries {
    var entries: map<Bytes, Entry>
    var path: Bytes

    ghost function Objects(): set<Entry>
      reads this
    {
      set n | n in entries :: entries[n]
    }

    ghost function Contents(): map<Bytes, EntryRecord>
      reads this, Objects()
    {
      RecordsOfEntries(entries)
    }

    /** Every entry sits under its own name, in its own directory below the
        store's; so distinct names hold distinct entries. */
    ghost predicate Valid()
      reads this, Objects()
    {
      forall n :: n in entries ==> entries[n].name == n && entries[n].path == Join(path, n)
    }

    /** `NewVaultEntries`: an empty store at `parentDir/keys`. */
    constructor (parentDir: Bytes)
      ensures Valid() && path == Join(parentDir, KeysDirName) && entries == map[]
    {
      entries := map[];
      path := Join(parentDir, KeysDirName);
    }

    /** `Path`: the directory holding every entry's own directory. */
    function Path(): (r: Bytes)
      reads this, Objects()
      ensures Valid() ==> forall n :: n in entries ==> entries[n].path == Join(r, n)
    {
      path
    }

    /** The entry stored under `name`, created empty and stored first when
        there is none. */
    method EntryNamed(name: Bytes) returns (entry: Entry)
      requires Valid()
      modifies this
      ensures Valid() && path == old(path)
      ensures entries == old(entries)[name := entry]
      ensures name in old(entries) ==> entry == old(entries[name])
      ensures name !in old(entries) ==> fresh(entry) && entry.Record() == EntryRecord(name, Join(path, name), map[])
    {
      if name in entries {
        entry := entries[name];
      } else {
        entry := new Entry(path, name);
        entries := entries[name := entry];
      }
    }

    /** `Add`: creates the entry `name` (empty) when there is none, then
        `Set`s one field of it. No other entry and no other field changes;
        a failing `Set` still leaves a newly created entry behind. On
        success the field decrypts back to `val`. */
    method Add(name: Bytes, key: Bytes, val: Bytes, encryptionKey: Bytes, p: Primitives, rnd: RandRead)
      returns (err: Option<Error>)
      requires Valid()
      modifies this, if name in entries then {entries[name]} else {}
      ensures Valid() && path == old(path)
      ensures name in entries && entries == old(entries)[name := entries[name]]
      ensures name in old(entries) ==> entries[name] == old(entries[name])
      ensures name !in old(entries) ==> fresh(entries[name])
      ensures var before := if name in old(entries) then old(entries[name].Record())
                            else EntryRecord(name, Join(path, name), map[]);
        var ct := EncryptAndBase64String(p, encryptionKey, val, rnd);
        if ct.Err? then err == Some(ct.error) && entries[name].Record() == before
        else err == None && entries[name].Record() == before.(fields := before.fields[key := ct.value])
      ensures Sound(p) && err == None ==>
        && key in entries[name].encryptedValues
        && DecodableCiphertext(p, entries[name].encryptedValues[key])
        && DecryptBase64String(p, encryptionKey, entries[name].encryptedValues[key]) == Ok(val)
    {
      var entry := EntryNamed(name);
      err := entry.Set(key, val, encryptionKey, p, rnd);
    }

    /** `Initialize`: creates a missing directory with a placeholder file
        (returning either error), then loads the listed entries by
        `LoadEntries`, returning a listing error or the first read error. */
    method Initialize(fs: Fs) returns (err: Option<Error>)
      requires Valid()
      modifies this
      ensures Valid() && path == old(path)
      ensures !fs.directoryExists(path) && fs.mkdirAll(path).Some? ==>
        err == fs.mkdirAll(path) && entries == old(entries)
      ensures !fs.directoryExists(path) && fs.mkdirAll(path).None? && fs.writeFile(Join(path, PlaceholderName), []).Some? ==>
        err == fs.writeFile(Join(path, PlaceholderName), []) && entries == old(entries)
      ensures (fs.directoryExists(path) || (fs.mkdirAll(path).None? && fs.writeFile(Join(path, PlaceholderName), []).None?)) ==>
        if fs.readDir(path).Err? then err == Some(fs.readDir(path).error) && entries == old(entries)
        else (err, Contents()) == LoadEntries(fs, path, fs.readDir(path).value, old(Contents()))
    {
      if !fs.directoryExists(path) {
        var e := fs.mkdirAll(path);
        if e.Some? {
          return e;
        }
        e := fs.writeFile(Join(path, PlaceholderName), []);
        if e.Some? {
          return e;
        }
      }
      var files := fs.readDir(path);
      if files.Err? {
        return Some(files.error);
      }
      err := LoadListed(fs, files.value);
    }

    /** One step of `Initialize`'s loop: the entry `name` read and stored
        under its name, or the read error with nothing stored. */
    method LoadOne(fs: Fs, name: Bytes) returns (err: Option<Error>)
      requires Valid()
      modifies this
      ensures Valid() && path == old(path)
      ensures var r := ReadEntryRecord(fs, path, name);
        if r.Err? then err == Some(r.error) && Contents() == old(Contents())
        else err == None && Contents() == old(Contents())[r.value.name := r.value]
    {
      var loaded := ReadEntry(fs, Path(), name);
      if loaded.Err? {
        return Some(loaded.error);
      }
      Store(loaded.value);
      err := None;
    }

    /** Stores `entry` under its own name; no other slot changes. */
    method Store(entry: Entry)
      requires Valid() && entry.path == Join(path, entry.name)
      modifies this`entries
      ensures Valid()
      ensures entries == old(entries)[entry.name := entry]
      ensures Contents() == old(Contents())[entry.name := entry.Record()]
    {
      RecordsOfEntriesInsert(entries, entry.name, entry);
      entries := entries[entry.Name() := entry];
    }

    /** `Initialize`'s loop over a directory listing, by `LoadEntries`. */
    method LoadListed(fs: Fs, names: seq<Bytes>) returns (err: Option<Error>)
      requires Valid()
      modifies this
      ensures Valid() && path == old(path)
      ensures (err, Contents()) == LoadEntries(fs, path, names, old(Contents()))
    {
      ghost var goal := LoadEntries(fs, path, names, old(Contents()));
      var i := 0;
      while i < |names|
        invariant 0 <= i <= |names|
        invariant path == old(path)
        invariant Valid()
        invariant LoadEntries(fs, path, names[i..], Contents()) == goal
      {
        assert names[i..][0] == names[i] && names[i..][1..] == names[i + 1..];
        if names[i] != PlaceholderName {
          err := LoadOne(fs, names[i]);
          if err.Some? {
            return;
          }
        }
        i := i + 1;
      }
      assert names[i..] == [];
      err := None;
    }

    /** `Save`: saves each entry, in the map's (unspecified) iteration order,
        stopping at the first entry whose `Save` fails. It succeeds exactly
        when every field of every entry is written; otherwise the error is
        that of the failing write. */
    method Save(fs: Fs) returns (err: Option<Error>)
      ensures err.None? <==> forall n :: n in entries ==> WritesSucceed(fs, entries[n].Record())
      ensures err.Some? ==> exists n :: n in entries && !WritesSucceed(fs, entries[n].Record())
      ensures err.Some? ==>
        exists n, k :: n in entries && k in entries[n].encryptedValues &&
          err == fs.writeFile(Join(entries[n].path, k), entries[n].encryptedValues[k])
    {
      var remaining := entries.Keys;
      while remaining != {}
        invariant remaining <= entries.Keys
        invariant forall n :: n in entries && n !in remaining ==> WritesSucceed(fs, entries[n].Record())
        decreases remaining
      {
        var n :| n in remaining;
        ghost var written;
        var e;
        e, written := entries[n].Save(fs);
        if e.Some? {
          return e;
        }
        remaining := remaining - {n};
      }
      err := None;
    }
  }

  /** Setting the same field twice keeps only the second ciphertext. */
  method SetTwiceKeepsLast(e: Entry, key: Bytes, first: Bytes, second: Bytes, encryptionKey: Bytes, p: Primitives, r1: RandRead, r2: RandRead)
    returns (err1: Option<Error>, err2: Option<Error>)
    requires Sound(p)
    modifies e
    ensures var ct := EncryptAndBase64String(p, encryptionKey, second, r2);
      err2 == None <==> ct.Ok?
    ensures var ct := EncryptAndBase64String(p, encryptionKey, second, r2);
      err1 == None && ct.Ok? ==> e.encryptedValues == old(e.encryptedValues)[key := ct.value]
    ensures err2 == None ==>
      && key in e.encryptedValues
      && DecodableCiphertext(p, e.encryptedValues[key])
      && DecryptBase64String(p, encryptionKey, e.encryptedValues[key]) == Ok(second)
  {
    err1 := e.Set(key, first, encryptionKey, p, r1);
    err2 := e.Set(key, second, encryptionKey, p, r2);
  }
}
