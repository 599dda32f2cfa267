/** Value types shared by the index, the resolver and the file service:
    machine integers, byte buffers, and the I/O error kinds the service reports. */
module Io {

  /** `u8`: one byte of file content. */
  newtype u8 = x: int | 0 <= x < 0x100

  /** `u64`: the width of a file size as the operating system reports it. */
  newtype u64 = x: int | 0 <= x < 0x1_0000_0000_0000_0000

  type Bytes = seq<u8>

  /** The error kinds the service distinguishes; messages are not modelled. */
  datatype IoError =
    | NotFound        // ErrorKind::NotFound
    | NotADirectory   // ErrorKind::NotADirectory
    | Other           // ErrorKind::Other, used for an unsupported symlink
    | Os(code: int)   // whatever the operating system reports on open, metadata or read

  datatype Option<+T> = None | Some(value: T)

  /** Rust's `Result<T, io::Error>`, usable with `:-` in place of `?`. */
  datatype Result<+T> = Success(value: T) | Failure(error: IoError) {
    predicate IsFailure() {
      Failure?
    }

    function PropagateFailure<U>(): Result<U>
      requires Failure?
    {
      Failure(error)
    }

    function Extract(): T
      requires Success?
    {
      value
    }
  }
}
