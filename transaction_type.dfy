/** The two kinds of transaction and the case-insensitive parse of their names. */
module TransactionTypes {
  import opened Wrappers
  import opened JavaText
  import opened Errors

  datatype TransactionType = DEPOSIT | WITHDRAWAL

  /** The name each constant carries (getValue). */
  function Value(t: TransactionType): string {
    match t
    case DEPOSIT => "DEPOSIT"
    case WITHDRAWAL => "WITHDRAWAL"
  }

  /** The constants in declaration order, as values() lists them. */
  const Values: seq<TransactionType> := [DEPOSIT, WITHDRAWAL]

  /** The first of `types` whose name equals `value` ignoring case; a null value equals none. */
  function FirstMatch(types: seq<TransactionType>, value: Option<string>): (r: Option<TransactionType>)
    ensures r.Some? ==> r.value in types && value.Some? && EqualsIgnoreCase(Value(r.value), value.value)
    ensures r.None? ==> value.None? || forall t :: t in types ==> !EqualsIgnoreCase(Value(t), value.value)
  {
    if types == [] then None
    else if value.Some? && EqualsIgnoreCase(Value(types[0]), value.value) then Some(types[0])
    else FirstMatch(types[1..], value)
  }

  /** fromValue: the constant named by `value` ignoring case, else IllegalArgumentException naming the input. */
  function FromValue(value: Option<string>): (r: Outcome<TransactionType>)
    ensures r.Success? <==> value.Some? && (EqualsIgnoreCase("DEPOSIT", value.value) || EqualsIgnoreCase("WITHDRAWAL", value.value))
    ensures r.Success? ==> EqualsIgnoreCase(Value(r.value), value.value)
    ensures r.Failure? ==> r.error == IllegalArgument("Invalid transaction type: " + (if value.None? then "null" else value.value))
  {
    match FirstMatch(Values, value)
    case Some(t) => Success(t)
    case None =>
      assert DEPOSIT in Values && WITHDRAWAL in Values;
      Failure(IllegalArgument("Invalid transaction type: " + (if value.None? then "null" else value.value)))
  }

  /** No string names both constants, so the parse is unambiguous. */
  lemma NamesDisjoint(s: string)
    ensures !(EqualsIgnoreCase(Value(DEPOSIT), s) && EqualsIgnoreCase(Value(WITHDRAWAL), s))
  {
  }

  /** Parsing a constant's own name gives that constant back. */
  lemma {:induction false} RoundTrip(t: TransactionType)
    ensures FromValue(Some(Value(t))) == Success(t)
  {
    NamesDisjoint(Value(t));
    assert EqualsIgnoreCase(Value(t), Value(t));
  }

  /** Lower-case and mixed-case names parse, e.g. "deposit" and "Withdrawal". */
  lemma CaseInsensitiveExamples()
    ensures FromValue(Some("deposit")) == Success(DEPOSIT)
    ensures FromValue(Some("Withdrawal")) == Success(WITHDRAWAL)
    ensures FromValue(Some("TRANSFER")).Failure?
    ensures FromValue(None) == Failure(IllegalArgument("Invalid transaction type: null"))
  {
    assert EqualsIgnoreCase(Value(DEPOSIT), "deposit");
    assert EqualsIgnoreCase(Value(WITHDRAWAL), "Withdrawal");
    assert "Invalid transaction type: " + "null" == "Invalid transaction type: null";
  }
}
