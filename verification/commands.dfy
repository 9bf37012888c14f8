/**
 * `Command`: a named command with lazily cached name, definition and
 * synopses, usage examples, and the definition merged with the
 * application's.
 */
module Commands {
  import opened Wrappers
  import opened Errors
  import opened Strings
  import opened Arguments
  import opened Definitions
  import Inputs
  import Resolution
  import Concretes

  /** Where `getDefaultName()` and `getArguments()` come from: the two built-in commands, or a user command. */
  datatype CommandKind = HelpCommand | ListCommand | Custom(defaultName: string, arguments: seq<Argument>)

  /** The mutable state of a command object; `Null` fields are the not-yet-cached ones. */
  datatype Command = Command(
    kind: CommandKind,
    name: Nullable<string>,
    usages: seq<string>,
    definition: Nullable<Definition>,
    synopsis: map<bool, string>)

  /** `new C(name)`: the name is set only when one is given. */
  function NewCommand(kind: CommandKind, name: Nullable<string>): Command {
    Command(kind, name, [], Null, map[])
  }

  /** `getDefaultName()` */
  function DefaultName(kind: CommandKind): string {
    match kind
    case HelpCommand => "help"
    case ListCommand => "list"
    case Custom(n, _) => n
  }

  /** `setName(name)` */
  function SetName(c: Command, n: string): Command {
    c.(name := Some(n))
  }

  /** `getName()`: the set name, else the default, which is stored on first read. */
  function GetName(c: Command): (r: (Command, string))
    ensures c.name.Some? ==> r.1 == c.name.value && r.0 == c
    ensures c.name.Null? ==> r.1 == DefaultName(c.kind)
    ensures r.0.name == Some(r.1)
    ensures r.0.kind == c.kind && r.0.usages == c.usages && r.0.definition == c.definition && r.0.synopsis == c.synopsis
  {
    match c.name
    case Some(n) => (c, n)
    case Null => (c.(name := Some(DefaultName(c.kind))), DefaultName(c.kind))
  }

  /** Once read, the name no longer changes on later reads. */
  lemma NameIsCached(c: Command)
    ensures GetName(GetName(c).0) == GetName(c)
  {
  }

  /** An explicitly set name always wins over the default. */
  lemma SetNameWins(c: Command, n: string)
    ensures GetName(SetName(c, n)).1 == n
  {
  }

  /** `getArguments()`: the help command's parameter defaults to its own name. */
  function ArgumentsOf(kind: CommandKind, name: string): seq<Argument> {
    match kind
    case HelpCommand => [P(Parameter("command_name", 0, "The command name", Some(Str(name))))]
    case ListCommand => [P(Parameter("namespace", 0, "The namespace name", Null))]
    case Custom(_, args) => args
  }

  /** The built-in commands' parameters are what the checked constructor builds. */
  lemma BuiltinArgumentsChecked(name: string)
    ensures NewParameter("command_name", 0, "The command name", [name]) == Ok(ArgumentsOf(HelpCommand, name)[0].parameter)
    ensures NewParameter("namespace", 0, "The namespace name", []) == Ok(ArgumentsOf(ListCommand, name)[0].parameter)
  {
    assert ValidName("command_name") by {
      assert forall i :: 0 <= i < |"command_name"| ==> !IsSpace("command_name"[i]);
    }
    assert ValidName("namespace") by {
      assert forall i :: 0 <= i < |"namespace"| ==> !IsSpace("namespace"[i]);
    }
  }

  /** `addUsage(u)`: the stored usage always starts with the command name. */
  function AddUsage(c: Command, u: string): (r: Command)
    ensures var n := GetName(c).1;
      && |r.usages| == |c.usages| + 1 && r.usages[..|c.usages|] == c.usages
      && StartsWith(r.usages[|c.usages|], n)
      && (StartsWith(u, n) ==> r.usages[|c.usages|] == u)
      && (!StartsWith(u, n) ==> r.usages[|c.usages|] == n + " " + u)
      && r.name == Some(n)
  {
    var (c', n) := GetName(c);
    var usage := if StartsWith(u, n) then u else n + " " + u;
    assert StartsWith(usage, n) by {
      if !StartsWith(u, n) {
        assert usage[..|n|] == n;
      }
    }
    c'.(usages := c'.usages + [usage])
  }

  /** Adding a stored usage again stores the same text: the prefixing is idempotent. */
  lemma UsagePrefixIdempotent(c: Command, u: string)
    ensures var r := AddUsage(c, u); var stored := r.usages[|c.usages|];
      AddUsage(r, stored).usages[|r.usages|] == stored
  {
  }

  /** A cached definition is one a checked build produced. */
  ghost predicate CacheValid(c: Command) {
    c.definition.Some? ==> Valid(c.definition.value)
  }

  /** `getDefinition()`: built once from `getArguments()` and then reused. */
  function GetDefinition(c: Command): (r: Result<(Command, Definition)>)
    ensures c.definition.Some? ==> r == Ok((c, c.definition.value))
    ensures c.definition.Null? ==>
      var args := ArgumentsOf(c.kind, GetName(c).1);
      && (r.Ok? <==> NewDefinition(args).Ok?)
      && (r.Ok? ==> r.value.1 == NewDefinition(args).value
                    && r.value.1.parameters == ParametersOf(args) && r.value.1.options == OptionsOf(args))
      && (r.Err? ==> r == Err(NewDefinition(args).error) && r.error.Kind() == Logic)
    ensures r.Ok? ==> r.value.0.definition == Some(r.value.1) && r.value.0.kind == c.kind
    ensures r.Ok? ==> r.value.0.usages == c.usages && r.value.0.synopsis == c.synopsis
    ensures r.Ok? ==> (r.value.0.name == c.name || r.value.0.name == Some(GetName(c).1))
    ensures CacheValid(c) && r.Ok? ==> CacheValid(r.value.0) && Valid(r.value.1)
  {
    match c.definition
    case Some(d) => Ok((c, d))
    case Null =>
      // only the help command reads its name while building its arguments
      var c' := if c.kind.HelpCommand? then GetName(c).0 else c;
      var d :- NewDefinition(ArgumentsOf(c.kind, GetName(c).1));
      Ok((c'.(definition := Some(d)), d))
  }

  /** A second `getDefinition()` returns the same definition and changes nothing. */
  lemma DefinitionIsCached(c: Command)
    requires GetDefinition(c).Ok?
    ensures var (c', d) := GetDefinition(c).value; GetDefinition(c') == Ok((c', d))
  {
  }

  /** `getSynopsis(short)`: `trim(name . ' ' . definition synopsis)`, cached per value of `short`. */
  function GetSynopsis(c: Command, short: bool): (r: Result<(Command, string)>)
    ensures short in c.synopsis ==> r == Ok((c, c.synopsis[short]))
    ensures short !in c.synopsis ==>
      var (c1, n) := GetName(c);
      && (r.Ok? <==> GetDefinition(c1).Ok?)
      && (r.Ok? ==> r.value.1 == Trim(n + " " + Definitions.GetSynopsis(GetDefinition(c1).value.1, short)))
    ensures r.Ok? ==> short in r.value.0.synopsis && r.value.0.synopsis[short] == r.value.1
    ensures r.Ok? ==> r.value.0.kind == c.kind && r.value.0.usages == c.usages
    ensures r.Ok? ==> forall k :: k in c.synopsis ==> k in r.value.0.synopsis && r.value.0.synopsis[k] == c.synopsis[k]
  {
    if short in c.synopsis then Ok((c, c.synopsis[short]))
    else
      var (c1, n) := GetName(c);
      var (c2, d) :- GetDefinition(c1);
      var s := Trim(n + " " + Definitions.GetSynopsis(d, short));
      Ok((c2.(synopsis := c2.synopsis[short := s]), s))
  }

  /** A second `getSynopsis(short)` returns the cached text and changes nothing. */
  lemma SynopsisIsCached(c: Command, short: bool)
    requires GetSynopsis(c, short).Ok?
    ensures var (c', s) := GetSynopsis(c, short).value; GetSynopsis(c', short) == Ok((c', s))
  {
  }

  /** A command whose definition renders as nothing has its bare name as synopsis. */
  lemma SynopsisOfBareCommand(c: Command, short: bool)
    requires short !in c.synopsis && Clean(GetName(c).1)
    requires GetDefinition(GetName(c).0).Ok?
    requires var d := GetDefinition(GetName(c).0).value.1; d.parameters == [] && d.options == []
    ensures GetSynopsis(c, short) == Ok((GetSynopsis(c, short).value.0, GetName(c).1))
  {
    var n := GetName(c).1;
    var d := GetDefinition(GetName(c).0).value.1;
    var r := GetSynopsis(c, short);
    assert r.value.1 == Trim(n + " " + Definitions.GetSynopsis(d, short));
    assert Definitions.GetSynopsis(d, short) == "" by {
      assert NestedSynopsis(d.parameters) == "";
    }
    assert n + " " + "" == n + " ";
    TrimTrailingSpace(n);
  }

  /**
   * `getDefinitionWithApplication`: the application's parameters, then the
   * command's; the command's options, then the application's. The first
   * duplicate aborts with the definition's Logic error.
   */
  function MergeDefinitions(command: Definition, application: Definition): (r: Result<Definition>)
    ensures r.Ok? ==>
      && Valid(r.value)
      && r.value.parameters == application.parameters + command.parameters
      && r.value.options == command.options + application.options
    ensures r.Err? ==> r.error.Kind() == Logic
  {
    EmptyValid();
    var (d1, e1) := SetParameters(EMPTY_DEFINITION, application.parameters);
    if e1.Some? then Err(e1.value)
    else
      AddParametersValid(d1, command.parameters);
      var (d2, e2) := AddParameters(d1, command.parameters);
      if e2.Some? then Err(e2.value)
      else
        var (d3, e3) := SetOptions(d2, command.options);
        if e3.Some? then Err(e3.value)
        else
          AddOptionsValid(d3, application.options);
          var (d4, e4) := AddOptions(d3, application.options);
          if e4.Some? then Err(e4.value) else Ok(d4)
  }

  /** The parameter half of the merge: both steps pass exactly for an accepted concatenation. */
  lemma MergedParametersOk(command: Definition, application: Definition)
    ensures var (d1, e1) := SetParameters(EMPTY_DEFINITION, application.parameters);
      && (e1.Null? && AddParameters(d1, command.parameters).1.Null? <==>
          ParameterOrder(application.parameters + command.parameters))
      && (e1.Null? ==> Valid(AddParameters(d1, command.parameters).0))
  {
    var ps := application.parameters + command.parameters;
    EmptyValid();
    SetParametersOk(EMPTY_DEFINITION, application.parameters);
    var (d1, e1) := SetParameters(EMPTY_DEFINITION, application.parameters);
    if e1.Some? {
      if ParameterOrder(ps) {
        assert ps[..|application.parameters|] == application.parameters;
        ParameterOrderPrefix(ps, |application.parameters|);
      }
    } else {
      AddParametersValid(d1, command.parameters);
      AddParametersOk(d1, command.parameters);
    }
  }

  /** The option half of the merge, on any definition with valid parameters. */
  lemma MergedOptionsOk(d: Definition, command: Definition, application: Definition)
    requires ValidParameters(d)
    ensures var (d3, e3) := SetOptions(d, command.options);
      e3.Null? && AddOptions(d3, application.options).1.Null? <==>
      OptionOrder(command.options + application.options)
  {
    var os := command.options + application.options;
    SetOptionsOk(d, command.options);
    var (d3, e3) := SetOptions(d, command.options);
    if e3.Some? {
      if OptionOrder(os) {
        assert os[..|command.options|] == command.options;
        OptionOrderPrefix(os, |command.options|);
      }
    } else {
      AddOptionsOk(d3, application.options);
    }
  }

  /**
   * The merge succeeds exactly when the concatenated parameter list and the
   * concatenated option list are each in the order a definition accepts.
   */
  lemma MergeOk(command: Definition, application: Definition)
    ensures MergeDefinitions(command, application).Ok? <==>
      && ParameterOrder(application.parameters + command.parameters)
      && OptionOrder(command.options + application.options)
  {
    MergedParametersOk(command, application);
    var (d1, e1) := SetParameters(EMPTY_DEFINITION, application.parameters);
    if e1.Null? {
      var (d2, e2) := AddParameters(d1, command.parameters);
      MergedOptionsOk(d2, command, application);
    }
  }

  /** A parameter name both sides declare makes the merge fail. */
  lemma SharedParameterRejected(command: Definition, application: Definition, i: int, j: int)
    requires 0 <= i < |application.parameters| && 0 <= j < |command.parameters|
    requires application.parameters[i].name == command.parameters[j].name
    ensures MergeDefinitions(command, application).Err?
  {
    var ps := application.parameters + command.parameters;
    assert ps[i] == application.parameters[i];
    assert ps[|application.parameters| + j] == command.parameters[j];
    assert !DistinctParameterNames(ps);
  }

  /** An option name both sides declare makes the merge fail. */
  lemma SharedOptionRejected(command: Definition, application: Definition, i: int, j: int)
    requires 0 <= i < |command.options| && 0 <= j < |application.options|
    requires command.options[i].name == application.options[j].name
    ensures MergeDefinitions(command, application).Err?
  {
    var os := command.options + application.options;
    assert os[i] == command.options[i];
    assert os[|command.options| + j] == application.options[j];
    assert !DistinctOptionNames(os);
  }

  /** `getDefinitionWithApplication` for a command attached to an application whose definition is given. */
  function GetDefinitionWithApplication(c: Command, application: Definition): (r: Result<(Command, Definition)>)
    ensures r.Ok? <==> GetDefinition(c).Ok? && MergeDefinitions(GetDefinition(c).value.1, application).Ok?
    ensures r.Ok? ==>
      && r.value.0 == GetDefinition(c).value.0
      && r.value.1 == MergeDefinitions(GetDefinition(c).value.1, application).value
    ensures r.Ok? ==>
      && Valid(r.value.1)
      && r.value.1.parameters == application.parameters + GetDefinition(c).value.1.parameters
      && r.value.1.options == GetDefinition(c).value.1.options + application.options
    ensures r.Err? ==> r.error.Kind() == Logic
  {
    var (c', d) :- GetDefinition(c);
    var m :- MergeDefinitions(d, application);
    Ok((c', m))
  }

  /** `getConcrete(input)`: the merged definition resolved against the input. */
  function GetConcrete(c: Command, application: Definition, input: Inputs.Input): (r: Result<(Command, Concretes.Concrete)>)
    ensures r.Ok? <==>
      && GetDefinitionWithApplication(c, application).Ok?
      && Resolution.Resolve(GetDefinitionWithApplication(c, application).value.1, input).Ok?
    ensures r.Ok? ==> r.value.1 == Resolution.Resolve(GetDefinitionWithApplication(c, application).value.1, input).value
    ensures r.Err? ==> r.error.Kind() == Logic || r.error.Kind() == Runtime
  {
    var (c', d) :- GetDefinitionWithApplication(c, application);
    var concrete :- Resolution.Resolve(d, input);
    Ok((c', concrete))
  }
}
