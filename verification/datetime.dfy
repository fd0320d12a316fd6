/** Duration strings and the RFC 3339 suffix check (`util/datetime.py`).
    Python's `re.match` with `^...$` also accepts one newline at the very
    end of the string, which the model keeps. */
module DateTime {
  import opened Wrappers
  import Text

  datatype DurationError =
    | Usage        // ValueError("Usage: 30s, 5m, 2h, 1d"): the pattern did not match
    | UnknownUnit  // KeyError from `units_dict[unit]`

  /** The string the pattern's `$` is matched against: one trailing newline is ignored. */
  function Body(v: string): string
  {
    if |v| > 0 && v[|v| - 1] == '\n' then v[..|v| - 1] else v
  }

  /** `^(\d+)(<unit class>)$` for a given unit character class. */
  predicate MatchesWith(v: string, inClass: char -> bool)
  {
    var b := Body(v);
    |b| >= 2 && Text.AllDigits(b[..|b| - 1]) && inClass(b[|b| - 1])
  }

  /** The class as written, `[s,m,h,d]`: the commas are members too. */
  predicate WrittenClass(c: char) { c in {'s', ',', 'm', 'h', 'd'} }

  predicate Unit(c: char) { c in {'s', 'm', 'h', 'd'} }

  /** `units_dict`. */
  function UnitSeconds(u: char): (k: nat)
    requires Unit(u)
    ensures k > 0
  {
    match u
    case 's' => 1
    case 'm' => 60
    case 'h' => 60 * 60
    case 'd' => 60 * 60 * 24
  }

  function Digits(v: string): string
    requires |Body(v)| >= 1
  {
    Body(v)[..|Body(v)| - 1]
  }

  function UnitOf(v: string): char
    requires |Body(v)| >= 1
  {
    Body(v)[|Body(v)| - 1]
  }

  /** `duration_in_seconds` as written: a comma passes the pattern and then
      fails the dictionary lookup with a `KeyError`. */
  function DurationInSecondsAsWritten(v: string): (r: Result<nat, DurationError>)
    ensures r.Success? <==> MatchesWith(v, Unit)
    ensures r == Failure(UnknownUnit) <==> MatchesWith(v, WrittenClass) && UnitOf(v) == ','
    ensures r.Success? ==> r.value == Text.DigitsValue(Digits(v)) * UnitSeconds(UnitOf(v))
  {
    if !MatchesWith(v, WrittenClass) then Failure(Usage)
    else if !Unit(UnitOf(v)) then Failure(UnknownUnit)
    else Success(Text.DigitsValue(Digits(v)) * UnitSeconds(UnitOf(v)))
  }

  /** `duration_in_seconds` with the unit class `[smhd]` the usage message
      describes: every malformed string is a usage error. */
  function DurationInSeconds(v: string): (r: Result<nat, DurationError>)
    ensures r.Success? <==> MatchesWith(v, Unit)
    ensures r.Failure? ==> r.error == Usage
    ensures r.Success? ==> r.value == Text.DigitsValue(Digits(v)) * UnitSeconds(UnitOf(v))
  {
    if !MatchesWith(v, Unit) then Failure(Usage)
    else Success(Text.DigitsValue(Digits(v)) * UnitSeconds(UnitOf(v)))
  }

  /** The as-written parser raises `KeyError` on "5,", not the `ValueError`
      its callers expect. */
  lemma CommaUnitRaisesKeyError()
    ensures DurationInSecondsAsWritten("5,") == Failure(UnknownUnit)
    ensures DurationInSeconds("5,") == Failure(Usage)
  {
    assert Body("5,") == "5,";
    assert Body("5,")[..1] == "5";
  }

  /** The two parsers agree on every input except a digits-and-comma string. */
  lemma CorrectedAgreesElsewhere(v: string)
    requires !(MatchesWith(v, WrittenClass) && UnitOf(v) == ',')
    ensures DurationInSeconds(v) == DurationInSecondsAsWritten(v)
  {
  }

  /** Formatting a count with a unit and parsing it back gives count times
      the unit's length in seconds. */
  lemma FormatParse(n: nat, u: char)
    requires Unit(u)
    ensures DurationInSeconds(Text.NatToString(n) + [u]) == Success(n * UnitSeconds(u))
  {
    var v := Text.NatToString(n) + [u];
    assert Body(v) == v;
    assert Digits(v) == Text.NatToString(n);
    Text.NatToStringRoundTrip(n);
  }

  /** For a fixed unit the result grows with the number. */
  lemma Monotone(m: nat, n: nat, u: char)
    requires Unit(u) && m <= n
    ensures DurationInSeconds(Text.NatToString(m) + [u]).value
         <= DurationInSeconds(Text.NatToString(n) + [u]).value
  {
    FormatParse(m, u);
    FormatParse(n, u);
    assert m * UnitSeconds(u) <= n * UnitSeconds(u) by {
      assert n * UnitSeconds(u) - m * UnitSeconds(u) == (n - m) * UnitSeconds(u);
    }
  }

  /** The empty string, a bare number and trailing text are all usage errors. */
  lemma MalformedRejected(n: nat)
    ensures DurationInSecondsAsWritten("") == Failure(Usage)
    ensures DurationInSecondsAsWritten(Text.NatToString(n)) == Failure(Usage)
    ensures DurationInSecondsAsWritten("5sx") == Failure(Usage)
  {
    var s := Text.NatToString(n);
    assert Body(s) == s;
    assert Body("5sx") == "5sx";
  }

  datatype DateError = MustEndWithZ | NotRfc3339

  /** `validate_rfc3339`: the `Z` suffix is checked before the (library)
      parser, which is the parameter `parses`. */
  function ValidateRfc3339(s: string, parses: string -> bool): (r: Result<(), DateError>)
    ensures !Text.EndsWith(s, "Z") ==> r == Failure(MustEndWithZ)
    ensures Text.EndsWith(s, "Z") ==> (r.Success? <==> parses(s))
    ensures r.Failure? && Text.EndsWith(s, "Z") ==> r.error == NotRfc3339
  {
    if !Text.EndsWith(s, "Z") then Failure(MustEndWithZ)
    else if !parses(s) then Failure(NotRfc3339)
    else Success(())
  }
}
