/** The gRPC `AnyStreamRevision`: a struct that may only hold one of the three
    symbolic expected-version codes, 1 (no stream), 2 (any) and 4 (stream
    exists), and that converts to and from the negative `long` encoding. */
module AnyStreamRevisions {
  import opened Wrappers
  import opened Primitives
  import Text

  const NoStreamCode: int32 := 1
  const AnyCode: int32 := 2
  const StreamExistsCode: int32 := 4

  /** The struct's one field. `default(AnyStreamRevision)` holds 0, which no
      constructor call produces. */
  datatype AnyStreamRevision = AnyStreamRevision(value: int32)

  datatype RevisionError =
    /** `ArgumentOutOfRangeException(nameof(value))`. */
    | ArgumentOutOfRange(paramName: string)
    /** `Convert.ToInt32` handed a `long` outside the `int` range. */
    | Overflow

  predicate IsCode(value: int) {
    value == NoStreamCode || value == AnyCode || value == StreamExistsCode
  }

  /** The constructor: exactly the three codes are accepted. */
  function New(value: int32): (r: Result<AnyStreamRevision, RevisionError>)
    ensures r.Ok? <==> value == 1 || value == 2 || value == 4
    ensures r.Ok? ==> r.value.value == value
    ensures r.Err? ==> r.error == ArgumentOutOfRange("value")
  {
    if IsCode(value) then Ok(AnyStreamRevision(value)) else Err(ArgumentOutOfRange("value"))
  }

  const NoStream: AnyStreamRevision := AnyStreamRevision(NoStreamCode)
  const Any: AnyStreamRevision := AnyStreamRevision(AnyCode)
  const StreamExists: AnyStreamRevision := AnyStreamRevision(StreamExistsCode)

  /** `FromInt64`: a checked conversion to `int`, an unchecked negation, then
      the constructor; so exactly -1, -2 and -4 are accepted. */
  function FromInt64(value: int64): (r: Result<AnyStreamRevision, RevisionError>)
    ensures (value < Int32Min || value > Int32Max) ==> r == Err(Overflow)
    ensures r.Ok? <==> value == -1 || value == -2 || value == -4
    ensures r.Ok? ==> r.value.value == -value
  {
    if value < Int32Min || value > Int32Max then Err(Overflow)
    else New(WrapToInt32(-value))
  }

  /** `ToInt64`: the negated code. */
  function ToInt64(rev: AnyStreamRevision): (r: int64)
    ensures r < 0 <==> rev.value > 0
  {
    -(rev.value as int)
  }

  /** Both round trips of the `long` encoding. */
  lemma Int64RoundTrips(value: int64, rev: AnyStreamRevision)
    ensures FromInt64(value).Ok? ==> ToInt64(FromInt64(value).value) == value
    ensures IsCode(rev.value) ==> FromInt64(ToInt64(rev)) == Ok(rev)
  {
  }

  /** `Equals`, `==`: the stored codes are compared. */
  function Equals(left: AnyStreamRevision, right: AnyStreamRevision): (r: bool)
    ensures r <==> left == right
  {
    left.value == right.value
  }

  /** `!=` is the negation of `==`. */
  function NotEquals(left: AnyStreamRevision, right: AnyStreamRevision): (r: bool)
    ensures r <==> !Equals(left, right)
    ensures r <==> left.value != right.value
  {
    !Equals(left, right)
  }

  /** The implicit conversion to `int`. */
  function ToInt(rev: AnyStreamRevision): (r: int32)
    ensures AnyStreamRevision(r) == rev
  {
    rev.value
  }

  /** `ToString`: the name of a code, else the decimal value. */
  function ToString(rev: AnyStreamRevision): (s: string)
    ensures rev == NoStream ==> s == "NoStream"
    ensures rev == Any ==> s == "Any"
    ensures rev == StreamExists ==> s == "StreamExists"
    ensures !IsCode(rev.value) ==> s == Text.IntToString(rev.value)
  {
    match rev.value
    case 1 => "NoStream"
    case 2 => "Any"
    case 4 => "StreamExists"
    case _ => Text.IntToString(rev.value)
  }

  /** Distinct revisions, the default one included, print distinctly. */
  lemma ToStringInjective(a: AnyStreamRevision, b: AnyStreamRevision)
    ensures ToString(a) == ToString(b) ==> a == b
  {
    if ToString(a) == ToString(b) {
      if !IsCode(a.value) && !IsCode(b.value) {
        Text.ParseIntToString(a.value);
        Text.ParseIntToString(b.value);
      } else if !IsCode(a.value) {
        NumberIsNoName(a.value);
      } else if !IsCode(b.value) {
        NumberIsNoName(b.value);
      }
    }
  }

  /** A decimal number never reads like one of the three names. */
  lemma NumberIsNoName(n: int)
    ensures var s := Text.IntToString(n);
      s != "NoStream" && s != "Any" && s != "StreamExists"
  {
    var s := Text.IntToString(n);
    if n >= 0 {
      assert Text.IsDigit(s[0]);
    }
  }
}
