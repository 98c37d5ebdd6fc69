// Shared vocabulary: optional values, results carrying the Java exception that
// the source raises, and the 1-based list access used by the FEM containers.

module Common {

  datatype Option<+T> = None | Some(value: T)

  /** The exceptions (and the process exit) that the modelled code can raise. */
  datatype Error =
    | IllegalArgument(message: string)
    | IndexOutOfBounds(message: string)
    | NegativeArraySize
    | Arithmetic(message: string)
    | NullPointer
    | Unsupported
    | Runtime(message: string)
    | Exit(status: int)

  datatype Result<+T> = Ok(value: T) | Err(error: Error) {
    predicate IsFailure() { Err? }
    function PropagateFailure<U>(): Result<U>
      requires Err?
    {
      Err(error)
    }
    function Extract(): T
      requires Ok?
    {
      value
    }
  }

  /** `ObjList.at(i)`: the FEM containers are indexed from 1. */
  function At<T>(list: seq<T>, i: int): (r: Result<T>)
    ensures r.Ok? <==> 1 <= i <= |list|
    ensures r.Ok? ==> r.value == list[i - 1]
  {
    if 1 <= i <= |list| then Ok(list[i - 1]) else Err(IndexOutOfBounds("ObjList index"))
  }

  /** Java's `/` on int: truncation toward zero (Dafny's `/` is Euclidean). */
  function JavaDiv(a: int, b: int): int
    requires b != 0
  {
    var q := Abs(a) / Abs(b);
    if (a < 0) == (b < 0) then q else -q
  }

  function Abs(x: int): nat { if x < 0 then -x else x }

  /** The decimal digits of n. */
  function NatToString(n: nat): string
  {
    var d := (48 + n % 10) as char;
    if n < 10 then [d] else NatToString(n / 10) + [d]
  }

  function IntToString(i: int): string
  {
    if i < 0 then "-" + NatToString(-i) else NatToString(i)
  }

  /** The exception the JVM raises for an array access at an index outside [0, length). */
  function OutOfBounds(index: int, length: int): Error
  {
    IndexOutOfBounds("Index " + IntToString(index) + " out of bounds for length " + IntToString(length))
  }
}
