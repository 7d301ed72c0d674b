/** The argument guards of `Ensure`: each returns `Pass`, or `Fail` carrying
    the exception the guard throws, with the exception's parameter name and
    message as the .NET constructor records them. */
module Ensure {
  import opened Wrappers
  import opened Primitives
  import Text

  /** The three exception classes the guards throw. A `None` message stands
      for the default message the constructor supplies; a `None` parameter
      name for a null one. */
  datatype ArgumentError =
    | ArgumentNullException(paramName: Option<string>, message: Option<string>)
    | ArgumentOutOfRangeException(paramName: Option<string>, message: Option<string>)
    | ArgumentException(message: Option<string>, paramName: Option<string>)

  /** `Ensure.NotNull`: a reference argument, `None` standing for null. */
  function NotNull<T>(argument: Option<T>, argumentName: string): (r: Outcome<ArgumentError>)
    ensures r.Pass? <==> argument.Some?
    ensures r.Fail? ==> r.error.ArgumentNullException? && r.error.paramName == Some(argumentName)
  {
    if argument.None? then Fail(ArgumentNullException(Some(argumentName), None)) else Pass
  }

  predicate IsNullOrEmpty(s: Option<string>) { s.None? || s.value == "" }

  /** `Ensure.NotNullOrEmpty` as written: the string's own value is passed
      where `ArgumentNullException` expects the parameter name, and the
      parameter name where it expects the message. */
  function NotNullOrEmptyAsWritten(argument: Option<string>, argumentName: string): (r: Outcome<ArgumentError>)
    ensures r.Pass? <==> !IsNullOrEmpty(argument)
    ensures r.Fail? ==> r.error == ArgumentNullException(argument, Some(argumentName))
  {
    if IsNullOrEmpty(argument) then Fail(ArgumentNullException(argument, Some(argumentName))) else Pass
  }

  /** An empty argument is reported under the parameter name "" rather than
      under its own name. */
  lemma NotNullOrEmptyAsWrittenLosesName(argumentName: string)
    requires argumentName != ""
    ensures NotNullOrEmptyAsWritten(Some(""), argumentName).error.paramName != Some(argumentName)
  {
  }

  /** `Ensure.NotNullOrEmpty` with the exception naming the parameter. */
  function NotNullOrEmpty(argument: Option<string>, argumentName: string): (r: Outcome<ArgumentError>)
    ensures r.Pass? <==> argument.Some? && |argument.value| > 0
    ensures r.Fail? ==> r.error.ArgumentNullException? && r.error.paramName == Some(argumentName)
  {
    if IsNullOrEmpty(argument) then Fail(ArgumentNullException(Some(argumentName), None)) else Pass
  }

  /** `Ensure.Positive`, for both the `int` and the `long` overload. */
  function Positive(number: int, argumentName: string): (r: Outcome<ArgumentError>)
    ensures r.Pass? <==> number > 0
    ensures r.Fail? ==> r.error == ArgumentOutOfRangeException(Some(argumentName), Some(argumentName + " should be positive."))
  {
    if number <= 0 then Fail(ArgumentOutOfRangeException(Some(argumentName), Some(argumentName + " should be positive.")))
    else Pass
  }

  /** `Ensure.Nonnegative`, for both the `int` and the `long` overload. */
  function Nonnegative(number: int, argumentName: string): (r: Outcome<ArgumentError>)
    ensures r.Pass? <==> number >= 0
    ensures r.Fail? ==> r.error == ArgumentOutOfRangeException(Some(argumentName), Some(argumentName + " should be non negative."))
  {
    if number < 0 then Fail(ArgumentOutOfRangeException(Some(argumentName), Some(argumentName + " should be non negative.")))
    else Pass
  }

  /** `Ensure.NotEmptyGuid` as written: `ArgumentException(message, paramName)`
      receives the parameter name as its message and the message as its
      parameter name. */
  function NotEmptyGuidAsWritten(guid: Guid, argumentName: string): (r: Outcome<ArgumentError>)
    ensures r.Pass? <==> guid != EmptyGuid
    ensures r.Fail? ==> r.error == ArgumentException(Some(argumentName), Some(argumentName + " should be non-empty GUID."))
  {
    if guid == EmptyGuid then Fail(ArgumentException(Some(argumentName), Some(argumentName + " should be non-empty GUID.")))
    else Pass
  }

  /** The empty GUID is reported under a parameter name that is not the
      argument's name. */
  lemma NotEmptyGuidAsWrittenMisnames(argumentName: string)
    ensures NotEmptyGuidAsWritten(EmptyGuid, argumentName).error.paramName != Some(argumentName)
  {
    var suffix := " should be non-empty GUID.";
    assert |argumentName + suffix| > |argumentName|;
  }

  /** `Ensure.NotEmptyGuid` with the message and the parameter name in place. */
  function NotEmptyGuid(guid: Guid, argumentName: string): (r: Outcome<ArgumentError>)
    ensures r.Pass? <==> guid != EmptyGuid
    ensures r.Fail? ==> r.error == ArgumentException(Some(argumentName + " should be non-empty GUID."), Some(argumentName))
  {
    if guid == EmptyGuid then Fail(ArgumentException(Some(argumentName + " should be non-empty GUID."), Some(argumentName)))
    else Pass
  }

  function EqualMessage(argumentName: string, expected: string, actual: string): string {
    argumentName + " expected value: " + expected + ", actual value: " + actual
  }

  /** `Ensure.Equal`, for both the `int` and the `long` overload. */
  function Equal(expected: int, actual: int, argumentName: string): (r: Outcome<ArgumentError>)
    ensures r.Pass? <==> expected == actual
    ensures r.Fail? ==>
      r.error == ArgumentException(Some(EqualMessage(argumentName, Text.IntToString(expected), Text.IntToString(actual))), None)
  {
    if expected != actual then
      Fail(ArgumentException(Some(EqualMessage(argumentName, Text.IntToString(expected), Text.IntToString(actual))), None))
    else Pass
  }

  /** `bool.ToString()`. */
  function BoolToString(b: bool): string { if b then "True" else "False" }

  /** `Ensure.Equal` on booleans. */
  function EqualBool(expected: bool, actual: bool, argumentName: string): (r: Outcome<ArgumentError>)
    ensures r.Pass? <==> expected == actual
    ensures r.Fail? ==>
      r.error == ArgumentException(Some(EqualMessage(argumentName, BoolToString(expected), BoolToString(actual))), None)
  {
    if expected != actual then
      Fail(ArgumentException(Some(EqualMessage(argumentName, BoolToString(expected), BoolToString(actual))), None))
    else Pass
  }

  /** `Ensure.Valid`: a null validator accepts everything; otherwise the
      validator's own verdict is the guard's. */
  function Valid<T, E>(t: T, validator: Option<T -> Outcome<E>>): (r: Outcome<E>)
    ensures validator.None? ==> r.Pass?
    ensures validator.Some? ==> r == validator.value(t)
  {
    match validator
    case None => Pass
    case Some(validate) => validate(t)
  }
}
