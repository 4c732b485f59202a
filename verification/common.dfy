/**
 Shared vocabulary of the model: bytes, optional values, the error kinds the
 supervisor can surface, and the two layers of failure a Rust function has —
 an `Err` it returns through `?`, and a panic raised by `unwrap`, `expect`,
 `panic!` or `todo!`.
 */
module Common {

  /** One byte of file content. */
  newtype byte = b: int | 0 <= b < 256

  datatype Option<+T> = None | Some(value: T)

  /** The error values the modelled code can return (as opposed to panic with). */
  datatype Error =
    | NotRoot                                   // "Running not from root, exiting"
    | OpenFailed(path: string)                  // a file that cannot be opened
    | CreateFailed(path: string)                // a file or directory that cannot be created
    | ReadFailed(path: string)                  // reading an entry that is not a regular file
    | InvalidUtf8(path: string)                 // read_to_string on bytes that are not UTF-8
    | RemoveFailed(path: string)                // remove_file / remove_dir_all on a missing entry
    | ParseIntFailed                            // str::parse::<i32> rejected the text
    | NoSuchSysctl(name: string)                // sysctl::Ctl::new on an unknown key
    | SysctlUnknownType                         // set_value with a value the Linux backend cannot write
    | NoSuchProcess(pid: int)                   // kill(2) answered ESRCH
    | IptablesUnavailable                       // iptables::new could not find the binary
    | NoSuchChain(table: string, chain: string) // the (table, chain) pair does not exist
    | BadRuleIndex(table: string, chain: string, position: int)
    | NoMatchingRule(table: string, chain: string)
    | AlreadyStarted                            // "nfqws already started!"

  /** What a fallible library call returns. */
  datatype Result<+T> = Ok(value: T) | Err(error: Error)

  /** How one call of the modelled code ends: it returns a value, returns an
      error, or panics with a message. */
  datatype Outcome<+T> = Done(value: T) | Failed(error: Error) | Panicked(message: string)

  /** Panic messages used by the source. */
  const UNWRAP_PANIC: string := "called `Result::unwrap()` on an `Err` value"
  const TODO_PANIC: string := "not yet implemented"

  /** Result::unwrap: the value, or a panic. */
  function Unwrap<T>(r: Result<T>): (o: Outcome<T>)
    ensures r.Ok? <==> o.Done?
    ensures r.Ok? ==> o.value == r.value
    ensures r.Err? ==> o == Panicked(UNWRAP_PANIC)
  {
    match r
    case Ok(v) => Done(v)
    case Err(_) => Panicked(UNWRAP_PANIC)
  }

  /** Passing an error or a panic on to the caller, whatever the value type. */
  function Propagate<T, U>(o: Outcome<T>): (p: Outcome<U>)
    requires !o.Done?
    ensures o.Failed? ==> p == Failed(o.error)
    ensures o.Panicked? ==> p == Panicked(o.message)
  {
    match o
    case Failed(e) => Failed(e)
    case Panicked(m) => Panicked(m)
  }

  /** Result::expect(message): the value, or a panic with the message. */
  function Expect<T>(r: Result<T>, message: string): (o: Outcome<T>)
    ensures r.Ok? <==> o.Done?
    ensures r.Ok? ==> o.value == r.value
    ensures r.Err? ==> o == Panicked(message)
  {
    match r
    case Ok(v) => Done(v)
    case Err(_) => Panicked(message)
  }
}
