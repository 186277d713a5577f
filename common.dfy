/** Values shared by every part of the model: content hashes, optional
    values and the error results the Go code returns beside its values. */
module Common {

  /** A content hash (an IPFS multihash in base58, as text). */
  type Hash = string

  datatype Option<+T> = None | Some(value: T)

  /** The errors the core distinguishes. `NotExist` is what `os.IsNotExist`
      recognises, `UnrecognizedName` is the sentinel of `resolveDepName`,
      `AlreadyInstalled` the error type of gxutil/get.go; every other error
      is only ever passed on or printed, so it is kept as its message. */
  datatype Error =
    | NotExist(path: string)
    | UnrecognizedName
    | AlreadyInstalled(pkg: string)
    | Msg(text: string)

  /** A Go `(value, error)` pair: exactly one of the two is meaningful. */
  datatype Result<+T> = Ok(value: T) | Err(error: Error) {
    predicate IsFailure() { Err? }

    function PropagateFailure<U>(): Result<U>
      requires Err?
    {
      Err(error)
    }

    function Extract(): T
      requires Ok?
    {
      value
    }
  }

  /** The error text Go would print for an error. */
  function Message(e: Error): string {
    match e
    case NotExist(p) => "no such file or directory: " + p
    case UnrecognizedName => "unrecognized package name"
    case AlreadyInstalled(p) => "package " + p + " already installed"
    case Msg(t) => t
  }

  /** `os.IsNotExist`. */
  predicate IsNotExist(e: Error) { e.NotExist? }

  /** `filepath.Join` for two non-empty components. Path cleaning (`..`,
      doubled separators) is not modelled: components are joined with one
      `/`, and an empty component is not dropped as Go drops it. */
  function PathJoin(a: string, b: string): string {
    a + "/" + b
  }
}
