/** The values of settings as text: what a reader who knows the kind of a setting gets back. */
module ConfigValues {
  import opened Wrappers
  import opened Text
  import opened ConfigTree
  import opened ConfigFlatten

  datatype Kind = OfText | OfNumber | OfTruth

  function KindOf(scalar: Scalar): Kind {
    match scalar
    case Str(_) => OfText
    case Int(_) => OfNumber
    case Bool(_) => OfTruth
  }

  /** The number that digits stand for, each by its place. */
  function NumberOf(digits: string): Option<nat> {
    if digits == "" then Some(0)
    else
      var last := digits[|digits| - 1];
      var front := NumberOf(digits[..|digits| - 1]);
      if front.None? || !('0' <= last <= '9') then None else Some(10 * front.value + (last as int - 48))
  }

  /** A value as the kind of its setting has it. */
  function ReadValue(kind: Kind, text: string): Option<Scalar> {
    match kind
    case OfText => Some(Str(text))
    case OfTruth =>
      if text == "true" then Some(Bool(true)) else if text == "false" then Some(Bool(false)) else None
    case OfNumber =>
      if text == "" then None
      else if text[0] == '-' then
        if |text| == 1 || NumberOf(text[1..]).None? then None
        else
          var negated: int := -(NumberOf(text[1..]).value as int);
          Some(Int(negated))
      else if NumberOf(text).None? then None
      else Some(Int(NumberOf(text).value))
  }

  lemma {:induction false} DecimalIsNumber(n: nat)
    ensures DecimalText(n) != "" && DecimalText(n)[0] != '-' && NumberOf(DecimalText(n)) == Some(n)
    decreases n
  {
    var text := DecimalText(n);
    assert text[..|text| - 1] == if n < 10 then "" else DecimalText(n / 10);
    if n >= 10 {
      DecimalIsNumber(n / 10);
    }
  }

  /** Every scalar is read back from what is printed for it, by its kind. */
  lemma ValueIsRead(scalar: Scalar)
    ensures ReadValue(KindOf(scalar), FormatEnvValue(scalar)) == Some(scalar)
  {
    match scalar {
      case Int(n) =>
        if n < 0 {
          DecimalIsNumber(-n);
          assert ("-" + DecimalText(-n))[1..] == DecimalText(-n);
        } else {
          DecimalIsNumber(n);
        }
      case _ =>
    }
  }

  /** Truth is printed as "true" and falsehood as "false", and text as it is. */
  lemma ValueIs(scalar: Scalar)
    ensures scalar.Bool? ==> (FormatEnvValue(scalar) == "true" <==> scalar == Bool(true))
    ensures scalar.Bool? ==> (FormatEnvValue(scalar) == "false" <==> scalar == Bool(false))
    ensures scalar.Str? ==> scalar == Str(FormatEnvValue(scalar))
  {
  }
}
