/** Shared vocabulary: optional values, outcomes that may end in a fatal error,
    and C++ integer division, which truncates toward zero. */
module Common {

  datatype Option<T> = None | Some(value: T)

  /** The outcome of an operation that can end the program: `Logger::fatal`
      prints and exits, an uncaught C++ exception aborts. */
  datatype Result<T> = Ok(value: T) | Fatal(message: string)
  {
    predicate IsFailure() { Fatal? }

    function PropagateFailure<U>(): Result<U>
      requires Fatal?
    {
      Fatal(message)
    }

    function Extract(): T
      requires Ok?
    {
      value
    }
  }

  /** C++ `/` on `int` with a positive divisor: the quotient truncates toward zero. */
  function CppDiv(a: int, b: int): (q: int)
    requires b > 0
    ensures a >= 0 ==> q == a / b
    ensures a < 0 ==> q == -((-a) / b)
  {
    if a >= 0 then a / b else -((-a) / b)
  }

  /** C++ `%` on `int` with a positive divisor: the remainder takes the sign of `a`. */
  function CppMod(a: int, b: int): (r: int)
    requires b > 0
    ensures a == CppDiv(a, b) * b + r
    ensures a >= 0 ==> 0 <= r < b
    ensures a < 0 ==> -b < r <= 0
  {
    if a >= 0 then a % b else -((-a) % b)
  }

  /** `vector::erase(begin() + i)`. */
  function Erase<T>(s: seq<T>, i: nat): (r: seq<T>)
    requires i < |s|
    ensures |r| == |s| - 1
    ensures forall j | 0 <= j < |r| :: r[j] == if j < i then s[j] else s[j + 1]
  {
    s[..i] + s[i + 1..]
  }

  function Min(a: int, b: int): int { if a <= b then a else b }

  lemma MulSucc(a: int, b: int)
    ensures a * b + b == (a + 1) * b
  {
  }

  lemma MulMono(a: int, b: int, c: nat)
    requires a <= b
    ensures a * c <= b * c
  {
  }
}
