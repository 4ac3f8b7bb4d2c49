/**
 * Failure-compatible wrappers shared by every module, and the error values
 * the modelled code returns.
 *
 * The Rust code has two error families: the encoder crate's `ed::Error`
 * (I/O errors, `UnexpectedByte(code)`, `UnencodableVariant`) and the
 * framework's own `Error` (which wraps the first and adds `Call`, `App`,
 * `Ibc`, `Coins`, `Overflow`).  Both are flattened into `Error` here.
 */
module Results {

  datatype Option<+T> = None | Some(value: T) {
    predicate IsFailure() { None? }

    function PropagateFailure<U>(): Option<U>
      requires None?
    {
      None
    }

    function Extract(): T
      requires Some?
    {
      value
    }
  }

  /** The kind carried by a `std::io::Error` that reaches a decoder. */
  datatype IoKind =
    | UnexpectedEof   // `read_exact` ran past the end of the input
    | InvalidData     // `read_to_string` met bytes that are not UTF-8

  datatype Error =
    | Io(kind: IoKind)              // ed::Error::IOError
    | UnexpectedByte(code: nat)     // ed::Error::UnexpectedByte(code)
    | UnencodableVariant            // ed::Error::UnencodableVariant
    | Overflow                      // Error::Overflow
    | Call(message: string)         // Error::Call
    | App(message: string)          // Error::App
    | Ibc(message: string)          // Error::Ibc
    | Coins(message: string)        // Error::Coins
    | Panic(message: string)        // a Rust panic: the process aborts instead of returning

  datatype Result<+T> = Ok(value: T) | Err(error: Error) {
    predicate IsFailure() { Err? }

    function PropagateFailure<U>(): Result<U>
      requires Err?
    {
      Err(error)
    }

    function Extract(): T
      requires Ok?
    {
      value
    }
  }
}
