/** components/ScholarshipCalculator.tsx: editing the scholarship or discount. */
module ScholarshipCalculator {
  import opened JsBuiltins
  import opened Types

  /** Choosing a kind sets it and clears the value. */
  function HandleTypeChange(scholarship: Scholarship, kind: ScholarshipType): (updated: Scholarship)
    ensures updated.kind == kind && updated.value == 0.0
  {
    scholarship.(kind := kind, value := 0.0)
  }

  /** The typed value: `parseFloat` of the text, with NaN and 0 read as 0. */
  function ValueInput(text: string): (value: real)
    ensures ParseFloat(text).None? ==> value == 0.0
    ensures ParseFloat(text).Some? ==> value == ParseFloat(text).value
  {
    RealOr(ParseFloat(text), 0.0)
  }

  /** Typing a value keeps the kind. */
  function HandleValueChange(scholarship: Scholarship, text: string): (updated: Scholarship)
    ensures updated.kind == scholarship.kind
    ensures updated.value == ValueInput(text)
  {
    scholarship.(value := ValueInput(text))
  }

  /** The unit shown beside the value field. */
  function InputSymbol(kind: ScholarshipType): (symbol: string)
    ensures symbol == "S$" <==> kind == Amount
    ensures symbol == "%" <==> kind == Percentage
  {
    assert |"S$"| != |"%"|;
    match kind
    case Amount => "S$"
    case Percentage => "%"
  }

  /** An emptied field is a value of 0; a typed whole number is that number. */
  lemma ValueInputReadsNumbers(n: nat)
    ensures ValueInput("") == 0.0
    ensures ValueInput(Decimal(n)) == n as real
  {
    ParseFloatOfDecimal(n);
  }
}
