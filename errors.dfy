/** The error taxonomy of the bridge and the decoding of managed status codes
    into it (src/error.rs). */
module Errors {
  import opened Outcomes

  /** Rust's `i32`. The status out-parameter of every host call has this type. */
  newtype int32 = x: int | -0x8000_0000 <= x < 0x8000_0000

  /** Every failure the bridge reports. The first eleven can be raised by the
      managed side through a status code; `UnknownManaged` stands for any other
      code; `Io` and `Json` carry a native-side I/O or JSON-decoding failure. */
  datatype Error =
    | ClassNotFound
    | MethodNotFound
    | FieldNotFound
    | PropertyNotFound
    | ReadonlyField
    | MissingGetter
    | MissingSetter
    | MissingRequiredArgument
    | PathNotFound
    | AssemblyNotLoaded
    | ClassNotRegistered
    | UnknownManaged
    | Io(reason: string)
    | Json(reason: string)

  /** `crate::Result<T>`. */
  datatype Result<+T> = Ok(value: T) | Err(error: Error)

  /** The status code by which the managed side reports `e`, if it has one.
      This is the encoding half of the protocol, written independently of
      `FromStatus` below. */
  function StatusOf(e: Error): Option<int32> {
    match e
    case ClassNotFound => Some(1)
    case MethodNotFound => Some(2)
    case FieldNotFound => Some(3)
    case PropertyNotFound => Some(4)
    case ReadonlyField => Some(5)
    case MissingGetter => Some(6)
    case MissingSetter => Some(7)
    case MissingRequiredArgument => Some(8)
    case PathNotFound => Some(9)
    case AssemblyNotLoaded => Some(10)
    case ClassNotRegistered => Some(11)
    case UnknownManaged => None
    case Io(_) => None
    case Json(_) => None
  }

  /** `impl From<i32> for Error`: codes 1 to 11 decode to the variant that
      `StatusOf` encodes with that code, every other code to `UnknownManaged`,
      and no code to `Io` or `Json`. */
  function FromStatus(code: int32): (e: Error)
    ensures StatusOf(e) == if 1 <= code <= 11 then Some(code) else None
    ensures e.UnknownManaged? <==> !(1 <= code <= 11)
    ensures !e.Io? && !e.Json?
  {
    match code
    case 1 => ClassNotFound
    case 2 => MethodNotFound
    case 3 => FieldNotFound
    case 4 => PropertyNotFound
    case 5 => ReadonlyField
    case 6 => MissingGetter
    case 7 => MissingSetter
    case 8 => MissingRequiredArgument
    case 9 => PathNotFound
    case 10 => AssemblyNotLoaded
    case 11 => ClassNotRegistered
    case _ => UnknownManaged
  }

  /** Decoding inverts encoding: every error that has a status code comes back
      from it. */
  lemma FromStatusInvertsStatusOf(e: Error)
    requires StatusOf(e).Some?
    ensures FromStatus(StatusOf(e).value) == e
  {
  }

  /** Distinct codes in 1..11 decode to distinct errors. */
  lemma FromStatusInjective(a: int32, b: int32)
    requires 1 <= a <= 11 && 1 <= b <= 11 && a != b
    ensures FromStatus(a) != FromStatus(b)
  {
    assert StatusOf(FromStatus(a)) != StatusOf(FromStatus(b));
  }
}
