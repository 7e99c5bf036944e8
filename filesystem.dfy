/** The filesystem calls the core makes (`os.MkdirAll`, `ioutil.WriteFile`,
    `ioutil.ReadFile`, `ioutil.ReadDir`, `os.RemoveAll` and
    `util.DirectoryExists`), given as the outcome each call reports for its
    arguments. Effects of one call on later calls are not tracked: the model
    states which calls an operation makes, in which order, and how it reacts
    to what they return. */
module FileSystem {
  import opened Base

  datatype Fs = Fs(
    directoryExists: Bytes -> bool,
    mkdirAll: Bytes -> Option<Error>,
    writeFile: (Bytes, Bytes) -> Option<Error>,
    readFile: Bytes -> Result<Bytes>,
    readDir: Bytes -> Result<seq<Bytes>>,
    removeAll: Bytes -> Option<Error>)
}
