/** Exceptions of the .NET runtime that the modelled code throws, and the
    Result/Option wrappers that carry them instead of control flow. */
module Results {

  datatype Error =
    | Exception(message: string)          // System.Exception, "" when thrown without a message
    | ArgumentNullException(param: string)
    | ArgumentException                   // Dictionary.Add on a key that is already present
    | NotSupportedException
    | OverflowException                   // Int64.Parse beyond the 64-bit range
    | NullReferenceException
    | IndexOutOfRangeException
    | MissingMethodException              // Activator.CreateInstance on a type without a parameterless constructor

  datatype Option<T> = None | Some(value: T)

  datatype Result<T> = Ok(value: T) | Err(error: Error)
  {
    predicate IsFailure() { Err? }

    function PropagateFailure<U>(): Result<U>
      requires Err?
    {
      Err(error)
    }

    function Extract(): T
      requires Ok?
    {
      value
    }
  }
}
