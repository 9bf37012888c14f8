/**
 * `Application`: the command registry (base commands shadow user
 * commands), its global definition, and exit-code normalisation.
 */
module Applications {
  import opened Wrappers
  import opened Errors
  import opened Strings
  import opened Arguments
  import opened Definitions
  import opened Commands
  import Inputs
  import Resolution
  import Concretes

  datatype Application = Application(
    baseCommands: map<string, Command>,
    commands: map<string, Command>,
    defaultCommand: string)

  /** `addBase(c)`: registered under its (now cached) name. */
  function AddBase(app: Application, c: Command): (r: Application)
    ensures var (c', n) := GetName(c); r.baseCommands == app.baseCommands[n := c']
    ensures r.commands == app.commands && r.defaultCommand == app.defaultCommand
  {
    var (c', n) := GetName(c);
    app.(baseCommands := app.baseCommands[n := c'])
  }

  /** `new Application()`: `help` and `list` as base commands, `list` as the default. */
  function NewApplication(): (r: Application)
    ensures r.baseCommands.Keys == {"help", "list"} && r.commands == map[]
    ensures r.baseCommands["help"].kind == HelpCommand && r.baseCommands["list"].kind == ListCommand
    ensures r.defaultCommand == "list" && r.defaultCommand in r.baseCommands
  {
    var withHelp := AddBase(Application(map[], map[], ""), NewCommand(HelpCommand, Null));
    var list := NewCommand(ListCommand, Null);
    var withList := AddBase(withHelp, list);
    withList.(defaultCommand := GetName(list).1)
  }

  /** `add(c)`: a user command, overwriting any user command of the same name. */
  function Add(app: Application, c: Command): (r: Application)
    ensures var (c', n) := GetName(c); r.commands == app.commands[n := c']
    ensures r.baseCommands == app.baseCommands && r.defaultCommand == app.defaultCommand
  {
    var (c', n) := GetName(c);
    app.(commands := app.commands[n := c'])
  }

  /** `has(name)` */
  predicate Has(app: Application, name: string) {
    name in app.baseCommands || name in app.commands
  }

  /** `get(name)`: a base command first, then a user command, else CommandNotFound. */
  function Get(app: Application, name: string): (r: Result<Command>)
    ensures r.Ok? <==> Has(app, name)
    ensures name in app.baseCommands ==> r == Ok(app.baseCommands[name])
    ensures name !in app.baseCommands && name in app.commands ==> r == Ok(app.commands[name])
    ensures r.Err? ==> r.error == UnknownCommand(name) && r.error.Kind() == CommandNotFound
  {
    if name in app.baseCommands then Ok(app.baseCommands[name])
    else if name in app.commands then Ok(app.commands[name])
    else Err(UnknownCommand(name))
  }

  /** A command just added is found under its name, unless a base command of that name shadows it. */
  lemma AddThenGet(app: Application, c: Command)
    ensures var (c', n) := GetName(c); var r := Add(app, c);
      && Has(r, n)
      && (n !in app.baseCommands ==> Get(r, n) == Ok(c'))
      && (n in app.baseCommands ==> Get(r, n) == Get(app, n))
  {
  }

  /** Adding a command leaves every other name's lookup as it was. */
  lemma AddKeepsOthers(app: Application, c: Command, other: string)
    requires other != GetName(c).1
    ensures Get(Add(app, c), other) == Get(app, other)
  {
  }

  ghost predicate StrictlySorted(names: seq<string>) {
    forall i, j :: 0 <= i < j < |names| ==> Less(names[i], names[j])
  }

  /** Inserts a new key into a strictly ascending sequence of keys. */
  function InsertSorted(names: seq<string>, k: string): (r: seq<string>)
    requires StrictlySorted(names) && k !in names
    ensures StrictlySorted(r)
    ensures |r| == |names| + 1
    ensures forall x :: x in r <==> x in names || x == k
  {
    if names == [] then [k]
    else if Less(k, names[0]) then
      assert forall j :: 0 < j < |names| ==> Less(k, names[j]) by {
        forall j | 0 < j < |names| ensures Less(k, names[j]) {
          LessTransitive(k, names[0], names[j]);
        }
      }
      [k] + names
    else
      LessTotal(k, names[0]);
      var rest := InsertSorted(names[1..], k);
      assert forall x :: x in rest ==> Less(names[0], x) by {
        forall x | x in rest ensures Less(names[0], x) {
          if x != k {
            var j :| 0 <= j < |names[1..]| && names[1..][j] == x;
            assert names[j + 1] == x;
          }
        }
      }
      [names[0]] + rest
  }

  /**
   * `getCommands(prefix)`: the user commands whose names start with
   * `prefix` (all of them for `''`), in ascending key order.
   */
  method GetCommands(app: Application, prefix: string) returns (entries: seq<(string, Command)>)
    ensures forall n :: (exists i :: 0 <= i < |entries| && entries[i].0 == n) <==> n in app.commands && StartsWith(n, prefix)
    ensures forall i :: 0 <= i < |entries| ==> entries[i].0 in app.commands && entries[i].1 == app.commands[entries[i].0]
    ensures forall i, j :: 0 <= i < j < |entries| ==> Less(entries[i].0, entries[j].0)
  {
    var selected := if prefix == "" then app.commands.Keys
                    else set n | n in app.commands && StartsWith(n, prefix);
    assert forall x :: x in selected <==> x in app.commands && StartsWith(x, prefix) by {
      if prefix == "" {
        forall x ensures StartsWith(x, prefix) {
          assert x[..0] == prefix;
        }
      }
    }
    var remaining := selected;
    var names: seq<string> := [];
    while remaining != {}
      invariant StrictlySorted(names)
      invariant forall x :: x in selected <==> x in names || x in remaining
      invariant forall x :: x in names ==> x !in remaining
      decreases |remaining|
    {
      var k :| k in remaining;
      names := InsertSorted(names, k);
      remaining := remaining - {k};
    }
    assert forall x :: x in names <==> x in app.commands && StartsWith(x, prefix);
    entries := [];
    var i := 0;
    while i < |names|
      invariant 0 <= i <= |names|
      invariant |entries| == i
      invariant forall j :: 0 <= j < i ==> entries[j] == (names[j], app.commands[names[j]])
    {
      entries := entries + [(names[i], app.commands[names[i]])];
      i := i + 1;
    }
    forall n | n in app.commands && StartsWith(n, prefix)
      ensures exists i :: 0 <= i < |entries| && entries[i].0 == n
    {
      var j :| 0 <= j < |names| && names[j] == n;
      assert entries[j].0 == n;
    }
  }

  /** `normalizeCode(code, error)`: clamped into `[min, 255]`, `min` being 1 on the error path and 0 otherwise. */
  function NormalizeCode(code: int, error: bool): (r: int)
    ensures (if error then 1 else 0) <= r <= 255
    ensures (if error then 1 else 0) <= code <= 255 ==> r == code
    ensures code > 255 ==> r == 255
    ensures code < (if error then 1 else 0) ==> r == (if error then 1 else 0)
  {
    var min := if error then 1 else 0;
    if code > 255 then 255 else if code < min then min else code
  }

  /** Normalising twice is normalising once. */
  lemma NormalizeIdempotent(code: int, error: bool)
    ensures NormalizeCode(NormalizeCode(code, error), error) == NormalizeCode(code, error)
  {
  }

  /** The exception path never reports success. */
  lemma ErrorCodeNeverZero(code: int)
    ensures NormalizeCode(code, true) != 0
  {
  }

  const OUTPUT_DESCRIPTION: string := "Output setting: 0(decorate tags), 1(strip tags), 2(raw output), 3(no output)"

  /** The application's global option, as its checked constructor builds it. */
  const OUTPUT_OPTION: Option := Option("output", Some("O"), OPTIONAL, OUTPUT_DESCRIPTION, Some(Str("0")))

  /** `getDefinition()`: the single `output` option. */
  function GetDefinition(): (r: Result<Definition>)
    ensures r.Ok? ==> Valid(r.value)
  {
    var output :- NewOption("output", Some("O"), OPTIONAL, OUTPUT_DESCRIPTION, ["0"]);
    NewDefinition([O(output)])
  }

  /** The global definition builds, has no parameters and holds exactly `-O|--output`, OPTIONAL, default `'0'`. */
  lemma DefinitionShape()
    ensures GetDefinition() == Ok(Definition([], [OUTPUT_OPTION], map["O" := "output"], 0, false, false))
  {
    OutputOptionChecked();
    OutputDefinitionBuilt();
  }

  lemma OutputOptionChecked()
    ensures NewOption("output", Some("O"), OPTIONAL, OUTPUT_DESCRIPTION, ["0"]) == Ok(OUTPUT_OPTION)
  {
    assert !HasSpace("output") by {
      assert forall i :: 0 <= i < |"output"| ==> !IsSpace("output"[i]);
    }
    assert CheckName("output") == Null;
    assert HasFlag(OPTIONAL, OPTIONAL) && !HasFlag(OPTIONAL, REQUIRED) && !HasFlag(OPTIONAL, COMPLEX);
    assert CheckOptionMode(OPTIONAL) == Null;
    assert ShortcutValid("O");
    assert SetOptionDefault(OPTIONAL, ["0"]) == Ok(Some(Str("0")));
  }

  lemma OutputDefinitionBuilt()
    ensures NewDefinition([O(OUTPUT_OPTION)]) == Ok(Definition([], [OUTPUT_OPTION], map["O" := "output"], 0, false, false))
  {
    var args := [O(OUTPUT_OPTION)];
    assert ParametersOf(args[1..]) == [] && OptionsOf(args[1..]) == [];
    assert ParametersOf(args) == [];
    assert OptionsOf(args) == [OUTPUT_OPTION];
    assert SetParameters(EMPTY_DEFINITION, []) == (EMPTY_DEFINITION, Null);
    var d := Definition([], [OUTPUT_OPTION], map["O" := "output"], 0, false, false);
    assert !HasOptionNamed([], "output");
    assert [] + [OUTPUT_OPTION] == [OUTPUT_OPTION];
    assert AddOption(EMPTY_DEFINITION, OUTPUT_OPTION) == Ok(d);
    assert AddOptions(d, [OUTPUT_OPTION][1..]) == (d, Null);
    assert SetOptions(EMPTY_DEFINITION, [OUTPUT_OPTION]) == (d, Null);
  }

  /**
   * Because the global definition has no parameters, a command's `i`-th
   * parameter binds the `i`-th positional token of its input.
   */
  lemma CommandParameterBinding(c: Command, input: Inputs.Input, i: int)
    requires GetDefinition().Ok? && GetConcrete(c, GetDefinition().value, input).Ok?
    requires 0 <= i < |Commands.GetDefinition(c).value.1.parameters|
    ensures var p := Commands.GetDefinition(c).value.1.parameters[i];
      var concrete := GetConcrete(c, GetDefinition().value, input).value.1;
      var tokens := input.parsed.parameters;
      && (i < |tokens| && !p.IsComplex() ==> Concretes.GetParameter(concrete, p.name) == Some(Str(tokens[i])))
      && (i < |tokens| && p.IsComplex() ==> Concretes.GetParameter(concrete, p.name) == Some(List(tokens[i..])))
      && (i >= |tokens| ==> Concretes.GetParameter(concrete, p.name) == p.default)
  {
    DefinitionShape();
    var app := GetDefinition().value;
    var merged := GetDefinitionWithApplication(c, app).value.1;
    assert merged.parameters == Commands.GetDefinition(c).value.1.parameters by {
      assert merged.parameters == app.parameters + Commands.GetDefinition(c).value.1.parameters;
      assert app.parameters == [];
    }
    assert GetConcrete(c, app, input).value.1 == Resolution.Resolve(merged, input).value;
    Resolution.ResolveParameter(merged, input, i);
  }

  /** Every successfully resolved command input holds an `output` entry, `'0'` unless given. */
  lemma OutputAlwaysResolved(c: Command, input: Inputs.Input)
    requires GetDefinition().Ok? && GetConcrete(c, GetDefinition().value, input).Ok?
    ensures var concrete := GetConcrete(c, GetDefinition().value, input).value.1;
      && Concretes.HasOption(concrete, "output")
      && (!Inputs.HasOption(input, OUTPUT_OPTION) ==> Concretes.GetOption(concrete, "output") == Some(Str("0")))
  {
    DefinitionShape();
    var merged := GetDefinitionWithApplication(c, GetDefinition().value).value.1;
    var k := |Commands.GetDefinition(c).value.1.options|;
    assert merged.options[k] == OUTPUT_OPTION;
    Resolution.ResolveOption(merged, input, k);
  }
}
