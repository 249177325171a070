/** Types shared by every component of the model. */
module Common {

  newtype byte = x: int | 0 <= x < 256

  type Bytes = seq<byte>

  datatype Option<+T> = None | Some(value: T)

  datatype Result<+T, +E> = Ok(value: T) | Err(error: E)

  ghost predicate Distinct<T>(s: seq<T>) {
    forall i, j | 0 <= i < j < |s| :: s[i] != s[j]
  }

  function Min(a: nat, b: nat): (r: nat)
    ensures r <= a && r <= b && (r == a || r == b)
  {
    if a < b then a else b
  }

  const TWO32: nat := 0x1_0000_0000
  const TWO64: nat := 0x1_0000_0000_0000_0000
  const ENOMEM: int := 12

  /** The kvdev completion statuses the executor reports. */
  datatype Status =
    | SUCCESS
    | FAILED
    | KEY_NOT_EXIST
    | BUFFER_TOO_SMALL
    | INVALID
    | NOMEM
    | KEY_EXIST
    | NOT_SUPPORTED
    | ABORTED
    | READ_ONLY

  /** What the backend hands back: status, TRUE length, and the delivered bytes. */
  datatype ExecResult = ExecResult(status: Status, resultLen: nat, buf: Bytes)

  /** Small/large threshold of the wire contract: at most this many bytes ride inline. */
  const INLINE_MAX: nat := 4096
}
