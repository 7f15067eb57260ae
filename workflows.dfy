/**
 * Workflow condition evaluation types: the hand-written decoder
 * (`EvalTypeVisitor` behind `Deserialize for EvalType`) and the derived encoder.
 */
module Workflows {
  import opened Wrappers

  datatype EvalType = Zero | And | Or

  /**
   * The JSON value the decoder is handed. Integers are unbounded here; the
   * decoder itself sorts them into the unsigned 64-bit range and the rest.
   * `Other` stands for booleans, null, floats, arrays and objects.
   */
  datatype Json = Integer(n: int) | Text(s: string) | Other

  /** What the decoder says it expects when handed a value of the wrong kind. */
  const Expecting: string := "one of 0, 'and', 'or'"

  const U64Limit: int := 0x1_0000_0000_0000_0000

  datatype DecodeError =
    | Custom(message: string)
    | InvalidType(expected: string)

  predicate IsDigit(c: char) {
    '0' <= c <= '9'
  }

  function DigitChar(d: nat): (c: char)
    requires d < 10
    ensures IsDigit(c) && c as int - '0' as int == d
  {
    ('0' as int + d) as char
  }

  /** The number a string of decimal digits denotes, most significant digit first. */
  function DigitsValue(s: string): nat
    requires forall i | 0 <= i < |s| :: IsDigit(s[i])
  {
    if s == [] then 0
    else
      assert IsDigit(s[|s| - 1]);
      10 * DigitsValue(s[..|s| - 1]) + (s[|s| - 1] as int - '0' as int)
  }

  /** The decimal representation of `n`, as `format!("{}", n)` writes it: its digits denote `n`, with no leading zero. */
  function Decimal(n: nat): (s: string)
    ensures |s| >= 1 && forall i | 0 <= i < |s| :: IsDigit(s[i])
    ensures DigitsValue(s) == n
    ensures |s| > 1 ==> s[0] != '0'
  {
    if n < 10 then [DigitChar(n)]
    else
      var prefix := Decimal(n / 10);
      var s := prefix + [DigitChar(n % 10)];
      assert s[..|s| - 1] == prefix;
      s
  }

  /** `visit_u64`: only 0 is accepted; any other number is rejected with its decimal value. */
  function VisitU64(v: nat): (r: Result<EvalType, DecodeError>)
    requires v < U64Limit
    ensures r.Success? <==> v == 0
    ensures r.Success? ==> r.value == Zero
    ensures r.Failure? ==> r.error == Custom("Invalid EvalType: " + Decimal(v))
  {
    if v == 0 then Success(Zero) else Failure(Custom("Invalid EvalType: " + Decimal(v)))
  }

  /** `visit_str`: exactly "and" and "or" are accepted, case-sensitively; anything else is echoed back in the error. */
  function VisitStr(v: string): (r: Result<EvalType, DecodeError>)
    ensures r.Success? <==> v == "and" || v == "or"
    ensures r == Success(And) <==> v == "and"
    ensures r == Success(Or) <==> v == "or"
    ensures r.Failure? ==> r.error == Custom("Invalid EvalType: " + v)
  {
    if v == "and" then Success(And)
    else if v == "or" then Success(Or)
    else Failure(Custom("Invalid EvalType: " + v))
  }

  /**
   * `Deserialize for EvalType` through `deserialize_any`: unsigned 64-bit
   * integers go to `visit_u64`, strings to `visit_str`; negative integers,
   * integers beyond 64 bits and every other kind of value reach a visitor
   * method left at its default, which reports an invalid type.
   */
  function Deserialize(value: Json): (r: Result<EvalType, DecodeError>)
    ensures r.Failure? && r.error.InvalidType? ==> r.error.expected == Expecting
    ensures value.Text? ==> r == VisitStr(value.s)
    ensures value.Integer? && 0 <= value.n < U64Limit ==> r == VisitU64(value.n)
    ensures (r.Failure? && r.error.InvalidType?) <==> value.Other? || (value.Integer? && !(0 <= value.n < U64Limit))
  {
    match value
    case Integer(n) => if 0 <= n < U64Limit then VisitU64(n) else Failure(InvalidType(Expecting))
    case Text(s) => VisitStr(s)
    case Other => Failure(InvalidType(Expecting))
  }

  /** Exactly three values decode, each to a different evaluation type. */
  lemma DeserializeAcceptsExactly(value: Json)
    ensures Deserialize(value).Success? <==> value == Integer(0) || value == Text("and") || value == Text("or")
    ensures Deserialize(value) == Success(Zero) <==> value == Integer(0)
    ensures Deserialize(value) == Success(And) <==> value == Text("and")
    ensures Deserialize(value) == Success(Or) <==> value == Text("or")
  {
  }

  /** Matching is case-sensitive: "AND" is rejected. */
  lemma UpperCaseRejected()
    ensures Deserialize(Text("AND")) == Failure(Custom("Invalid EvalType: AND"))
  {
    assert "AND"[0] != "and"[0];
    assert "AND" != "or";
    assert "Invalid EvalType: " + "AND" == "Invalid EvalType: AND";
  }

  /** A negative integer never reaches `visit_u64` and is reported as an invalid type. */
  lemma NegativeIsInvalidType(n: int)
    requires n < 0
    ensures Deserialize(Integer(n)) == Failure(InvalidType(Expecting))
  {
  }

  /** A non-zero number is rejected with its decimal value in the message. */
  lemma SevenRejected()
    ensures Deserialize(Integer(7)) == Failure(Custom("Invalid EvalType: 7"))
  {
    assert Decimal(7) == "7";
    assert "Invalid EvalType: " + "7" == "Invalid EvalType: 7";
  }

  /**
   * The derived `Serialize`: unit variants are written as their names, so
   * `Zero` (not renamed) becomes the string "Zero", while `And` and `Or` are
   * renamed to "and" and "or".
   */
  function SerializeAsWritten(e: EvalType): (value: Json)
    ensures value.Text?
  {
    match e
    case Zero => Text("Zero")
    case And => Text("and")
    case Or => Text("or")
  }

  /** The derived encoder and the hand-written decoder disagree on `Zero`: its encoding does not decode. */
  lemma ZeroDoesNotRoundTrip()
    ensures Deserialize(SerializeAsWritten(Zero)) == Failure(Custom("Invalid EvalType: Zero"))
    ensures Deserialize(SerializeAsWritten(And)) == Success(And)
    ensures Deserialize(SerializeAsWritten(Or)) == Success(Or)
  {
    assert "Zero"[0] != "and"[0];
    assert "Zero" != "or";
    assert "Invalid EvalType: " + "Zero" == "Invalid EvalType: Zero";
  }

  /** An encoder that writes `Zero` as the integer 0, which the decoder accepts. */
  function Serialize(e: EvalType): (value: Json)
    ensures value.Integer? <==> e == Zero
  {
    match e
    case Zero => Integer(0)
    case And => Text("and")
    case Or => Text("or")
  }

  /** With it every evaluation type survives a round trip. */
  lemma RoundTrip(e: EvalType)
    ensures Deserialize(Serialize(e)) == Success(e)
  {
  }

  /** And every value that decodes is the encoding of what it decodes to. */
  lemma DecodedValuesAreEncodings(value: Json)
    requires Deserialize(value).Success?
    ensures Serialize(Deserialize(value).value) == value
  {
    DeserializeAcceptsExactly(value);
  }
}
