/** Results of operations that the program ends with a return value or an exception. */
module Common {

  datatype Option<+T> = None | Some(value: T)

  /** `Ok` is a normal return, `Err` the exception that left the call. */
  datatype Result<+T, +E> = Ok(value: T) | Err(error: E) {
    predicate IsFailure() { Err? }

    function PropagateFailure<U>(): Result<U, E>
      requires Err?
    {
      Err(error)
    }

    function Extract(): T
      requires Ok?
    {
      value
    }
  }

  /** Decimal digits. */
  function Digits(n: nat): (text: string)
    ensures text != "" && forall i | 0 <= i < |text| :: '0' <= text[i] <= '9'
  {
    if n < 10 then ["0123456789"[n]] else Digits(n / 10) + ["0123456789"[n % 10]]
  }

  /** `str` of an integer. */
  function IntText(n: int): string {
    if n < 0 then "-" + Digits(-n) else Digits(n)
  }
}
