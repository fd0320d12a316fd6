/** The validation rules of the configuration classes (`settings.py`).
    Reading environment variables and `.env` files is not part of this
    model: each settings class is given as the field values its validators
    see, in declaration order. Pydantic gathers every error of a model; the
    model reports the first one. */
module Settings {
  import opened Wrappers
  import Text
  import DateTime

  datatype SettingValue = Unset | Text(s: string) | Number(n: int)

  datatype Setting = Setting(name: string, value: SettingValue)

  datatype SettingsError =
    | EmptyString(variable: string)          // "Variable '<Class.field>': empty string not allowed"
    | NameNotAllowed(name: string)           // the `^(dev|prod|test)$` pattern did not match
    | MustBeSetInProduction(vars: seq<string>)
    | BadDuration(error: DateTime.DurationError)
    | NotPositive

  /** `check_empty_strings`: the first string-valued field equal to "" is
      rejected with the qualified name `Class.field`; other values pass. */
  function CheckEmptyStrings(cls: string, data: seq<Setting>): (r: Result<seq<Setting>, SettingsError>)
    ensures r.Success? <==> forall i :: 0 <= i < |data| ==> data[i].value != Text("")
    ensures r.Success? ==> r.value == data
    ensures r.Failure? ==>
      exists i :: && 0 <= i < |data| && data[i].value == Text("")
                  && r.error == EmptyString(cls + "." + data[i].name)
                  && (forall j :: 0 <= j < i ==> data[j].value != Text(""))
  {
    if |data| == 0 then Success(data)
    else if data[0].value == Text("") then Failure(EmptyString(cls + "." + data[0].name))
    else
      match CheckEmptyStrings(cls, data[1..])
      case Success(_) => Success(data)
      case Failure(e) =>
        var i :| && 0 <= i < |data[1..]| && data[1..][i].value == Text("")
                 && e == EmptyString(cls + "." + data[1..][i].name)
                 && (forall j :: 0 <= j < i ==> data[1..][j].value != Text(""));
        assert data[i + 1] == data[1..][i];
        assert forall j :: 1 <= j < i + 1 ==> data[j] == data[1..][j - 1];
        Failure(e)
  }

  /** `EnvironmentSettings`. */
  datatype Environment = Environment(
    name: string,
    shutdownTimeout: int,
    serviceName: Option<string>,
    serviceVersion: Option<string>,
    commitId: Option<string>,
    buildDate: Option<string>,
    commitDate: Option<string>,
    gitBranch: Option<string>)

  function OptionalValue(o: Option<string>): SettingValue
  {
    match o
    case None => Unset
    case Some(s) => Text(s)
  }

  /** The validator's `data` dict, in field order. */
  function EnvironmentFields(e: Environment): (fs: seq<Setting>)
    ensures |fs| == 8
  {
    [ Setting("name", Text(e.name)),
      Setting("shutdown_timeout", Number(e.shutdownTimeout)),
      Setting("service_name", OptionalValue(e.serviceName)),
      Setting("service_version", OptionalValue(e.serviceVersion)),
      Setting("commit_id", OptionalValue(e.commitId)),
      Setting("build_date", OptionalValue(e.buildDate)),
      Setting("commit_date", OptionalValue(e.commitDate)),
      Setting("git_branch", OptionalValue(e.gitBranch)) ]
  }

  /** `v` is the report for the unset field at position `i`. */
  predicate Reports(fs: seq<Setting>, i: int, v: string)
  {
    0 <= i < |fs| && fs[i].value == Unset && v == Text.Upper(fs[i].name)
  }

  /** The upper-cased names of the unset fields, in field order. */
  function UnsetNames(fs: seq<Setting>): (vars: seq<string>)
    ensures |vars| <= |fs|
  {
    if |fs| == 0 then []
    else if fs[0].value == Unset then [Text.Upper(fs[0].name)] + UnsetNames(fs[1..])
    else UnsetNames(fs[1..])
  }

  /** Every report names an unset field and every unset field is reported. */
  lemma {:induction false} UnsetNamesComplete(fs: seq<Setting>)
    ensures forall v :: v in UnsetNames(fs) <==> exists i :: Reports(fs, i, v)
    ensures |UnsetNames(fs)| == 0 <==> forall i :: 0 <= i < |fs| ==> fs[i].value != Unset
    decreases |fs|
  {
    if |fs| > 0 {
      UnsetNamesComplete(fs[1..]);
      var rest := UnsetNames(fs[1..]);
      forall v ensures v in UnsetNames(fs) <==> exists i :: Reports(fs, i, v) {
        if fs[0].value == Unset {
          assert UnsetNames(fs) == [Text.Upper(fs[0].name)] + rest;
          if v == Text.Upper(fs[0].name) {
            assert Reports(fs, 0, v);
          }
        } else {
          assert UnsetNames(fs) == rest;
        }
        if v in rest {
          var i :| Reports(fs[1..], i, v);
          assert Reports(fs, i + 1, v);
        }
        if exists i :: Reports(fs, i, v) {
          var i :| Reports(fs, i, v);
          if i > 0 {
            assert Reports(fs[1..], i - 1, v);
          }
        }
      }
      if fs[0].value != Unset && |UnsetNames(fs[1..])| != 0 {
        var i :| 0 <= i < |fs[1..]| && fs[1..][i].value == Unset;
        assert fs[i + 1].value == Unset;
      }
    }
  }

  function AllSet(e: Environment): bool
  {
    && e.serviceName.Some? && e.serviceVersion.Some? && e.commitId.Some?
    && e.buildDate.Some? && e.commitDate.Some? && e.gitBranch.Some?
  }

  /** `check_values_for_production`: outside "prod" the data passes as is;
      in "prod" every unset field is reported, upper-cased. */
  function CheckValuesForProduction(e: Environment): (r: Result<Environment, SettingsError>)
    ensures e.name != "prod" ==> r == Success(e)
    ensures e.name == "prod" ==> (r.Success? <==> AllSet(e))
    ensures r.Success? ==> r.value == e
    ensures r.Failure? ==>
      && r.error.MustBeSetInProduction?
      && |r.error.vars| > 0
      && forall v :: v in r.error.vars <==> exists i :: Reports(EnvironmentFields(e), i, v)
  {
    if e.name != "prod" then Success(e)
    else
      var fs := EnvironmentFields(e);
      var vars := UnsetNames(fs);
      assert |vars| == 0 <==> AllSet(e) by {
        UnsetNamesComplete(fs);
        assert (forall i :: 0 <= i < |fs| ==> fs[i].value != Unset) <==> AllSet(e) by {
          assert fs[2].value == OptionalValue(e.serviceName);
          assert fs[3].value == OptionalValue(e.serviceVersion);
          assert fs[4].value == OptionalValue(e.commitId);
          assert fs[5].value == OptionalValue(e.buildDate);
          assert fs[6].value == OptionalValue(e.commitDate);
          assert fs[7].value == OptionalValue(e.gitBranch);
        }
      }
      UnsetNamesComplete(fs);
      if |vars| > 0 then Failure(MustBeSetInProduction(vars)) else Success(e)
  }

  /** The pattern `^(dev|prod|test)$` under `re.match`, whose `$` also
      matches before one final newline. */
  predicate NameMatchesAsWritten(name: string)
  {
    DateTime.Body(name) in {"dev", "prod", "test"}
  }

  /** The pattern matched against the whole string. */
  predicate NameMatches(name: string)
  {
    name in {"dev", "prod", "test"}
  }

  /** No text-valued field of the environment is the empty string. */
  predicate NoEmptyText(e: Environment)
  {
    && e.name != ""
    && e.serviceName != Some("") && e.serviceVersion != Some("")
    && e.commitId != Some("") && e.buildDate != Some("")
    && e.commitDate != Some("") && e.gitBranch != Some("")
  }

  /** The three validators in declaration order, with the name pattern as a
      parameter: the configuration is accepted exactly when its name passes
      the pattern, no text field is empty, and a "prod" configuration has
      every field set; the first failing validator names the error. */
  function ValidateWith(e: Environment, nameOk: string -> bool): (r: Result<Environment, SettingsError>)
    ensures r.Success? <==> nameOk(e.name) && NoEmptyText(e) && (e.name == "prod" ==> AllSet(e))
    ensures r.Success? ==> r.value == e
    ensures !nameOk(e.name) ==> r == Failure(NameNotAllowed(e.name))
    ensures nameOk(e.name) && !NoEmptyText(e) ==> r.Failure? && r.error.EmptyString?
    ensures nameOk(e.name) && NoEmptyText(e) && r.Failure? ==> r.error.MustBeSetInProduction?
  {
    if !nameOk(e.name) then Failure(NameNotAllowed(e.name))
    else
      var fs := EnvironmentFields(e);
      assert (forall i :: 0 <= i < |fs| ==> fs[i].value != Text("")) <==> NoEmptyText(e) by {
        assert fs[0].value == Text(e.name);
        assert fs[1].value.Number?;
        assert fs[2].value == OptionalValue(e.serviceName);
        assert fs[3].value == OptionalValue(e.serviceVersion);
        assert fs[4].value == OptionalValue(e.commitId);
        assert fs[5].value == OptionalValue(e.buildDate);
        assert fs[6].value == OptionalValue(e.commitDate);
        assert fs[7].value == OptionalValue(e.gitBranch);
      }
      match CheckEmptyStrings("EnvironmentSettings", fs)
      case Failure(err) => Failure(err)
      case Success(_) => CheckValuesForProduction(e)
  }

  /** `EnvironmentSettings` validation as written: field pattern, then the
      empty-string check, then the production check. */
  function ValidateEnvironmentAsWritten(e: Environment): (r: Result<Environment, SettingsError>)
    ensures r.Success? <==> && NameMatchesAsWritten(e.name) && NoEmptyText(e)
                            && (e.name == "prod" ==> AllSet(e))
    ensures r.Success? ==> r.value == e
    ensures !NameMatchesAsWritten(e.name) ==> r == Failure(NameNotAllowed(e.name))
  {
    ValidateWith(e, NameMatchesAsWritten)
  }

  /** The same validation with the pattern matched against the whole name:
      every accepted configuration is "dev", "test" or a production
      configuration with all fields set. */
  function ValidateEnvironment(e: Environment): (r: Result<Environment, SettingsError>)
    ensures r.Success? <==> && NameMatches(e.name) && NoEmptyText(e)
                            && (e.name == "prod" ==> AllSet(e))
    ensures r.Success? ==> r.value == e
    ensures !NameMatches(e.name) ==> r == Failure(NameNotAllowed(e.name))
    ensures r.Success? && DateTime.Body(e.name) == "prod" ==> AllSet(e)
  {
    ValidateWith(e, NameMatches)
  }

  /** The two validators differ only on names that end in a newline. */
  lemma ValidatorsAgreeWithoutNewline(e: Environment)
    requires |e.name| == 0 || e.name[|e.name| - 1] != '\n'
    ensures ValidateEnvironmentAsWritten(e) == ValidateEnvironment(e)
  {
    assert DateTime.Body(e.name) == e.name;
  }

  /** An environment name of "prod" followed by a newline passes the
      pattern but skips the production check, so a production deployment
      starts with its build metadata unset. */
  lemma ProdWithNewlineSkipsProductionCheck()
    ensures ValidateEnvironmentAsWritten(Environment("prod\n", 30, None, None, None, None, None, None)).Success?
    ensures ValidateEnvironment(Environment("prod\n", 30, None, None, None, None, None, None)).Failure?
  {
    var e := Environment("prod\n", 30, None, None, None, None, None, None);
    assert DateTime.Body(e.name) == "prod";
    assert CheckEmptyStrings("EnvironmentSettings", EnvironmentFields(e)).Success?;
  }

  /** `PoolOperationDelaySettings.validate_delay`: `None` stands for a None
      handed straight to the validator, which `value or ""` turns into "" and
      the usage error; zero is a valid delay. The parser is the one the
      source calls, so a digits-and-comma value ends in the `KeyError`
      (`UnknownUnit`) that escapes the validator instead of a usage error. */
  function ParseDelay(value: Option<string>): (r: Result<nat, SettingsError>)
    ensures value.None? ==> r == Failure(BadDuration(DateTime.Usage))
    ensures r.Failure? ==> r.error.BadDuration?
    ensures value.Some? ==> (r.Success? <==> DateTime.DurationInSeconds(value.value).Success?)
    ensures r.Success? ==> r.value == DateTime.DurationInSeconds(value.value).value
    ensures value.Some? ==>
      (r == Failure(BadDuration(DateTime.UnknownUnit)) <==>
         DateTime.MatchesWith(value.value, DateTime.WrittenClass) && DateTime.UnitOf(value.value) == ',')
  {
    var text := match value case None => "" case Some(s) => s;
    match DateTime.DurationInSecondsAsWritten(text)
    case Failure(e) => Failure(BadDuration(e))
    case Success(n) => Success(n)
  }

  /** `PollIntervalSettings.validate_delay` followed by `PositiveInt`: as a
      delay, but a zero interval is rejected. */
  function ParseInterval(value: Option<string>): (r: Result<nat, SettingsError>)
    ensures r.Success? <==> ParseDelay(value).Success? && ParseDelay(value).value > 0
    ensures r.Success? ==> r.value == ParseDelay(value).value && r.value > 0
    ensures ParseDelay(value).Failure? ==> r == ParseDelay(value)
  {
    match ParseDelay(value)
    case Failure(e) => Failure(e)
    case Success(n) => if n == 0 then Failure(NotPositive) else Success(n)
  }

  /** A comma unit escapes both validators as the dictionary lookup error. */
  lemma CommaDelayEscapes()
    ensures ParseDelay(Some("5,")) == Failure(BadDuration(DateTime.UnknownUnit))
    ensures ParseInterval(Some("5,")) == Failure(BadDuration(DateTime.UnknownUnit))
  {
    DateTime.CommaUnitRaisesKeyError();
  }

  /** "0s" is a valid delay and an invalid interval. */
  lemma ZeroDelayButNotInterval()
    ensures ParseDelay(Some("0s")) == Success(0)
    ensures ParseInterval(Some("0s")) == Failure(NotPositive)
  {
    assert DateTime.Body("0s") == "0s";
    assert "0s"[..1] == "0";
  }
}
