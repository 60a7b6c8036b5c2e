// Shared vocabulary of the DataFilter model: optional values, the
// exceptions the PHP code throws (as an outcome datatype), PHP string
// truthiness and ASCII lower-casing.
module Common {

  datatype Option<T> = None | Some(value: T)

  /** Every exception the modelled code can raise, by cause. */
  datatype Error =
    | BadFilterPosition(position: string)     // addFilters/applyFilter: neither "pre" nor "post"
    | UnknownFilter(methodName: string)       // no filter catalog has "filter<Name>"
    | FilterNotCallable                       // a filter entry that is not callable
    | UnknownRule(methodName: string)         // no rule catalog has "rule<Name>"
    | RuleFactoryFailed(methodName: string)   // the rule factory rejected its arguments
    | NullDefinition                          // parseDefinition(null) with a stored definition
    | ConstraintNotCallable                   // a constraint that is no closure
    | NoProfileSet                            // ProfileGroup::run without a current profile
    | UnknownProfile(name: string)            // ProfileGroup::setProfile with an unknown name
    | UndefinedProfileKey(key: string)        // ProfileGroup::getLastResult on a missing key

  /** A value, or the exception that was thrown instead. */
  datatype Outcome<T> = Ok(value: T) | Thrown(error: Error)
  {
    predicate IsFailure() { Thrown? }
    function PropagateFailure<U>(): Outcome<U>
      requires Thrown?
    {
      Thrown(error)
    }
    function Extract(): T
      requires Ok?
    {
      value
    }
  }

  /** PHP truthiness of a string: only "" and "0" are falsy. */
  predicate Truthy(s: string)
  {
    s != "" && s != "0"
  }

  /** Truthiness of an optional string (null is falsy). */
  predicate TruthyOpt(o: Option<string>)
  {
    o.Some? && Truthy(o.value)
  }

  /** PHP strtolower on ASCII letters. */
  function LowerChar(c: char): char
  {
    if 'A' <= c <= 'Z' then (c as int + 32) as char else c
  }

  function Lower(s: string): (r: string)
    ensures |r| == |s|
    ensures forall i :: 0 <= i < |s| ==> r[i] == LowerChar(s[i])
  {
    if s == [] then [] else [LowerChar(s[0])] + Lower(s[1..])
  }

  predicate IsDigit(c: char)
  {
    '0' <= c <= '9'
  }

  predicate IsAsciiLetter(c: char)
  {
    'a' <= c <= 'z' || 'A' <= c <= 'Z'
  }
}
