/** Values shared by every part of the model: Go's byte strings, the error
    values the core returns, and the Option/Result wrappers used for Go's
    `(value, error)` pairs and nilable pointers. */
module Base {

  /** A Go `byte`. Go strings and byte slices are both sequences of bytes;
      the model uses one type for both, so `[]byte(s)` and `string(b)` are
      the identity, as they are in Go. A subset of `char` so that the
      source's ASCII literals ("users", ".placeholder", ...) can be written
      as Dafny string literals. */
  type Byte = c: char | c as int < 256

  type Bytes = seq<Byte>

  datatype Option<+T> = None | Some(value: T)

  /** The errors the core returns. `External` stands for an error value
      produced by code outside the model (filesystem, key parsing, git,
      crypto/rand) and passed through unchanged. */
  datatype Error =
    | KeySizeTooLarge(keySize: nat)
    | AesKeySize(size: nat)
    | ShortRandomRead
    | AuthenticationFailed
    | CorruptBase64
    | UserExists(email: Bytes)
    | UserNotFound(email: Bytes)
    | VaultNotFound(name: Bytes)
    | VaultExists(name: Bytes)
    | CredentialsLocked
    | NoVaultFetched(name: Bytes)
    | HomeExists(directory: Bytes)
    | External(code: nat)

  /** A Go `(value, error)` pair: exactly one of the two is meaningful. */
  datatype Result<+T> = Ok(value: T) | Err(error: Error) {
    predicate IsFailure() {
      Err?
    }

    function PropagateFailure<U>(): Result<U>
      requires Err?
    {
      Err(error)
    }

    function Extract(): T
      requires Ok?
    {
      value
    }
  }

  /** A sequence of distinct elements. */
  ghost predicate Distinct<T>(s: seq<T>) {
    forall a, b :: 0 <= a < b < |s| ==> s[a] != s[b]
  }
}
