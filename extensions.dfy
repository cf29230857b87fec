/**
  Command-line flag values holding a 32-bit unsigned number that must be at
  least 1 (extensions/notzerouint.go and extensions/notzerouintflag.go, two
  identical types under two names).
 */
module Extensions {
  import opened Wrappers
  import Decimal

  newtype uint32 = x: int | 0 <= x <= 0xFFFF_FFFF

  const MaxUint32: nat := 0xFFFF_FFFF

  /** Why `Set` refused its argument. */
  datatype SetError =
    | ParseFailed(input: string)  // not a decimal uint32: bad syntax or out of range
    | LessThanOne(n: nat)         // parsed, but 0

  /** `strconv.ParseUint(value, 10, 32)` followed by the check that the number is at least 1. */
  function ParseNotZero(value: string): (r: Result<uint32, SetError>)
    ensures r.Success? <==> Decimal.IsDecimal(value) && 1 <= Decimal.ValueOf(value) <= MaxUint32
    ensures r.Success? ==> r.value as int == Decimal.ValueOf(value)
    ensures r == Failure(LessThanOne(0)) <==> Decimal.ParseUint(value, MaxUint32) == Some(0)
    ensures r == Failure(ParseFailed(value)) <==> Decimal.ParseUint(value, MaxUint32).None?
  {
    match Decimal.ParseUint(value, MaxUint32)
    case None => Failure(ParseFailed(value))
    case Some(n) => if n < 1 then Failure(LessThanOne(n)) else Success(n as uint32)
  }

  /** `Value()`: the stored number, or the default 1 when the stored number is 0 or 1. */
  function Effective(number: uint32): (r: uint32)
    ensures r >= 1
    ensures number >= 1 ==> r == number
    ensures number == 0 ==> r == 1
  {
    if number > 1 then number else 1
  }

  /** `String()`: `fmt.Sprint` of the number, in decimal. */
  function Render(number: uint32): (s: string)
    ensures Decimal.IsDecimal(s)
    ensures Decimal.ParseUint(s, MaxUint32) == Some(number as nat)
    ensures number == 0 ==> s == "0"
  {
    Decimal.ParseItoa(number as nat, MaxUint32);
    Decimal.Itoa(number as nat)
  }

  /** Setting a flag to the rendering of a number that is at least 1 yields that number. */
  lemma SetRendered(n: uint32)
    requires n >= 1
    ensures ParseNotZero(Render(n)) == Success(n)
  {
    assert Decimal.ParseUint(Render(n), MaxUint32) == Some(n as nat);
  }

  /** Every accepted value is at least 1, so it is what `Value()` reports afterwards. */
  lemma AcceptedIsEffective(value: string)
    requires ParseNotZero(value).Success?
    ensures Effective(ParseNotZero(value).value) == ParseNotZero(value).value
  {
  }

  class NotZeroUint32 {
    var number: uint32

    /** The zero value of the struct. */
    constructor ()
      ensures number == 0 && Value() == 1 && String() == "0"
    {
      number := 0;
    }

    /** Stores the parsed number; on an error the stored number is left as it was. */
    method Set(value: string) returns (err: Option<SetError>)
      modifies this
      ensures match ParseNotZero(value)
              case Success(n) => err.None? && number == n && Value() == n
              case Failure(e) => err == Some(e) && number == old(number)
    {
      match ParseNotZero(value)
      case Failure(e) =>
        return Some(e);
      case Success(n) =>
        number := n;
        return None;
    }

    function Value(): (r: uint32)
      reads this
      ensures r >= 1
      ensures number >= 1 ==> r == number
    {
      Effective(number)
    }

    function String(): (s: string)
      reads this
      ensures Decimal.ParseUint(s, MaxUint32) == Some(number as nat)
      ensures number == 0 ==> s == "0"
    {
      Render(number)
    }
  }

  class NotZeroUint32Flag {
    var number: uint32

    /** The zero value of the struct. */
    constructor ()
      ensures number == 0 && Value() == 1 && String() == "0"
    {
      number := 0;
    }

    /** Stores the parsed number; on an error the stored number is left as it was. */
    method Set(value: string) returns (err: Option<SetError>)
      modifies this
      ensures match ParseNotZero(value)
              case Success(n) => err.None? && number == n && Value() == n
              case Failure(e) => err == Some(e) && number == old(number)
    {
      match ParseNotZero(value)
      case Failure(e) =>
        return Some(e);
      case Success(n) =>
        number := n;
        return None;
    }

    function Value(): (r: uint32)
      reads this
      ensures r >= 1
      ensures number >= 1 ==> r == number
    {
      Effective(number)
    }

    function String(): (s: string)
      reads this
      ensures Decimal.ParseUint(s, MaxUint32) == Some(number as nat)
      ensures number == 0 ==> s == "0"
    {
      Render(number)
    }
  }
}
