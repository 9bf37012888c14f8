/**
 * Worked command lines resolved against concrete definitions, with the
 * outcome the code gives (the token lists are parsed in `TokenScenarios`).
 */
module Scenarios {
  import opened Wrappers
  import opened Errors
  import opened Strings
  import opened Arguments
  import opened Inputs
  import opened Definitions
  import opened Resolution
  import opened TokenScenarios
  import Concretes

  /** The mode bits of the modes used below. */
  lemma ModeBits()
    ensures HasFlag(REQUIRED, REQUIRED) && !HasFlag(REQUIRED, COMPLEX) && !HasFlag(REQUIRED, OPTIONAL)
    ensures !HasFlag(0, REQUIRED) && !HasFlag(0, COMPLEX) && !HasFlag(0, OPTIONAL)
    ensures HasFlag(COMPLEX, COMPLEX) && !HasFlag(COMPLEX, REQUIRED)
  {
  }

  // ---------------------------------------------------------------------
  // `app build --output=2 -v src/`

  const BUILD_DEFINITION: Definition := Definition(
    [Parameter("command", REQUIRED, "", Null), Parameter("path", 0, "", Null)],
    [Option("output", Null, REQUIRED, "", Null), Option("verbose", Some("v"), 0, "", Null)],
    map["v" := "verbose"], 1, false, true)

  const BUILD_ARGUMENTS: seq<Argument> := [
    P(Parameter("command", REQUIRED, "", Null)), P(Parameter("path", 0, "", Null)),
    O(Option("output", Null, REQUIRED, "", Null)), O(Option("verbose", Some("v"), 0, "", Null))]

  /** The definition above is what `new Definition(...)` builds from those arguments. */
  lemma BuildDefinitionConstructed()
    ensures NewDefinition(BUILD_ARGUMENTS) == Ok(BUILD_DEFINITION)
  {
    BuildArgumentsSplit();
    BuildParametersAdded();
    BuildOptionsAdded();
  }

  lemma BuildArgumentsSplit()
    ensures ParametersOf(BUILD_ARGUMENTS) == BUILD_DEFINITION.parameters
    ensures OptionsOf(BUILD_ARGUMENTS) == BUILD_DEFINITION.options
  {
    assert ParametersOf(BUILD_ARGUMENTS[3..]) == [];
    assert ParametersOf(BUILD_ARGUMENTS[2..]) == [];
    assert OptionsOf(BUILD_ARGUMENTS[3..]) == [BUILD_DEFINITION.options[1]];
    assert OptionsOf(BUILD_ARGUMENTS[2..]) == BUILD_DEFINITION.options;
    assert OptionsOf(BUILD_ARGUMENTS[1..]) == BUILD_DEFINITION.options;
  }

  /** The parameters only, as `setParameters` leaves them. */
  const BUILD_PARAMETERS_ONLY: Definition := BUILD_DEFINITION.(options := [], optionShortcuts := map[])

  lemma BuildParametersAdded()
    ensures SetParameters(EMPTY_DEFINITION, BUILD_DEFINITION.parameters) == (BUILD_PARAMETERS_ONLY, Null)
  {
    var command := Parameter("command", REQUIRED, "", Null);
    var path := Parameter("path", 0, "", Null);
    var d1 := Definition([command], [], map[], 1, false, false);
    var d2 := BUILD_PARAMETERS_ONLY;
    ModeBits();
    assert !HasParameterNamed([], "command");
    assert EMPTY_DEFINITION.parameters + [command] == [command];
    assert AddParameter(EMPTY_DEFINITION, command) == Ok(d1);
    assert !HasParameterNamed([command], "path");
    assert [command] + [path] == [command, path];
    assert AddParameter(d1, path) == Ok(d2);
    assert AddParameters(d2, [command, path][2..]) == (d2, Null);
    assert AddParameters(d1, [command, path][1..]) == (d2, Null);
  }

  lemma BuildOptionsAdded()
    ensures SetOptions(BUILD_PARAMETERS_ONLY, BUILD_DEFINITION.options) == (BUILD_DEFINITION, Null)
  {
    var output := Option("output", Null, REQUIRED, "", Null);
    var verbose := Option("verbose", Some("v"), 0, "", Null);
    var d2 := BUILD_PARAMETERS_ONLY;
    var d3 := d2.(options := [output]);
    assert !HasOptionNamed([], "output");
    assert d2.options + [output] == [output];
    assert AddOption(d2, output) == Ok(d3);
    assert !HasOptionNamed([output], "verbose");
    assert d3.options + [verbose] == [output, verbose];
    assert "v" !in d3.optionShortcuts;
    assert d3.optionShortcuts["v" := "verbose"] == map["v" := "verbose"];
    assert AddOption(d3, verbose) == Ok(BUILD_DEFINITION);
    assert AddOptions(BUILD_DEFINITION, [output, verbose][2..]) == (BUILD_DEFINITION, Null);
    assert AddOptions(d3, [output, verbose][1..]) == (BUILD_DEFINITION, Null);
  }

  /** The REQUIRED option `output` was given without a value, so resolving fails. */
  lemma BuildCommandLine()
    ensures Parse(["build", "--output=2", "-v", "src/"]) == Ok(BUILD_INPUT)
    ensures Resolve(BUILD_DEFINITION, BUILD_INPUT) == Err(MissingOptionValue("output"))
  {
    BuildCommandLineParse();
    BuildOutputMissing();
  }

  lemma BuildOutputMissing()
    ensures BindOptions(BUILD_DEFINITION.options, BUILD_INPUT, map[]) == Err(MissingOptionValue("output"))
  {
    ModeBits();
    assert BindOption(BUILD_DEFINITION.options[0], BUILD_INPUT) == Err(MissingOptionValue("output"));
  }

  // ---------------------------------------------------------------------
  // `app -abc val`

  const STACK_DEFINITION: Definition := Definition(
    [],
    [Option("all", Some("a"), 0, "", Null), Option("brief", Some("b"), 0, "", Null),
     Option("config", Some("c"), REQUIRED, "", Null)],
    map["a" := "all", "b" := "brief", "c" := "config"], 0, false, false)

  /** The two flags resolve to present-but-null, the last letter's option to the value. */
  lemma StackedShortcuts()
    ensures Parse(["-abc", "val"]) == Ok(STACK_INPUT)
    ensures Resolve(STACK_DEFINITION, STACK_INPUT)
      == Ok(Concretes.Concrete(map[], map["all" := Null, "brief" := Null, "config" := Some(Str("val"))]))
  {
    StackedShortcutsParse();
    ModeBits();
    var os := STACK_DEFINITION.options;
    var input := STACK_INPUT;
    assert BindOption(os[0], input) == Ok(Bound(Null));
    assert BindOption(os[1], input) == Ok(Bound(Null));
    assert os[2].AcceptValue() && !os[2].IsComplex();
    assert BindOption(os[2], input) == Ok(Bound(Some(Str("val"))));
    var m := map["all" := Null, "brief" := Null, "config" := Some(Str("val"))];
    assert BindOptions(os[3..], input, m) == Ok(m);
    assert BindOptions(os[2..], input, map["all" := Null, "brief" := Null]) == Ok(m);
    assert BindOptions(os[1..], input, map["all" := Null]) == Ok(m);
    assert BindOptions(os, input, map[]) == Ok(m);
  }

  // ---------------------------------------------------------------------
  // `app -- --not-an-option`

  const REST_DEFINITION: Definition := Definition(
    [Parameter("rest", COMPLEX, "", Null)], [], map[], 0, true, true)

  /** After `--` an option-looking token is a positional, and a COMPLEX parameter collects it. */
  lemma MarkerThenComplex()
    ensures Parse(["--", "--not-an-option"]) == Ok(REST_INPUT)
    ensures Resolve(REST_DEFINITION, REST_INPUT)
      == Ok(Concretes.Concrete(map["rest" := Some(List(["--not-an-option"]))], map[]))
  {
    MarkerThenOption();
    ModeBits();
    var input := REST_INPUT;
    assert REST_DEFINITION.parameters[0].IsComplex();
    assert GetParameterValue(input, 0, true) == Some(List(["--not-an-option"]));
    var m := map["rest" := Some(List(["--not-an-option"]))];
    assert BindParameters(REST_DEFINITION.parameters[1..], input, 1, m) == m;
    assert BindParameters(REST_DEFINITION.parameters, input, 0, map[]) == m;
  }

  // ---------------------------------------------------------------------
  // Too few positionals

  const PAIR_DEFINITION: Definition := Definition(
    [Parameter("source", REQUIRED, "", Null), Parameter("target", REQUIRED, "", Null)],
    [], map[], 2, false, false)

  /** One positional against two REQUIRED parameters is a runtime error naming both counts. */
  lemma TooFewPositionals()
    ensures Parse(["x"]) == Ok(SINGLE_INPUT)
    ensures Resolve(PAIR_DEFINITION, SINGLE_INPUT) == Err(TooFewParameters(2, 1))
  {
    SinglePositional();
  }
}
