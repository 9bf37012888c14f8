/**
 * `Definition`: the ordered parameters and the options a command accepts,
 * built incrementally with fail-fast checks, and its usage synopsis.
 */
module Definitions {
  import opened Wrappers
  import opened Errors
  import opened Strings
  import opened Arguments

  /** The fields of `Definition`, including its derived counters and flags. */
  datatype Definition = Definition(
    parameters: seq<Parameter>,
    options: seq<Option>,
    optionShortcuts: map<string, string>,
    requiredParameterCount: int,
    hasComplexParameter: bool,
    hasOptionalParameter: bool)

  const EMPTY_DEFINITION: Definition := Definition([], [], map[], 0, false, false)

  predicate HasParameterNamed(ps: seq<Parameter>, name: string) {
    exists i :: 0 <= i < |ps| && ps[i].name == name
  }

  predicate HasOptionNamed(os: seq<Option>, name: string) {
    exists i :: 0 <= i < |os| && os[i].name == name
  }

  /** The number of REQUIRED parameters. */
  function CountRequired(ps: seq<Parameter>): nat {
    if ps == [] then 0
    else CountRequired(ps[..|ps| - 1]) + (if ps[|ps| - 1].IsRequired() then 1 else 0)
  }

  /** All required parameters precede all optional ones. */
  ghost predicate RequiredFirst(ps: seq<Parameter>) {
    forall i, j :: 0 <= i < j < |ps| && ps[j].IsRequired() ==> ps[i].IsRequired()
  }

  /** A COMPLEX parameter can only be the last one. */
  ghost predicate ComplexLast(ps: seq<Parameter>) {
    forall i :: 0 <= i < |ps| && ps[i].IsComplex() ==> i == |ps| - 1
  }

  ghost predicate DistinctParameterNames(ps: seq<Parameter>) {
    forall i, j :: 0 <= i < j < |ps| ==> ps[i].name != ps[j].name
  }

  ghost predicate DistinctOptionNames(os: seq<Option>) {
    forall i, j :: 0 <= i < j < |os| ==> os[i].name != os[j].name
  }

  /** `optionShortcuts[s] == name` exactly for the options with shortcut `s`. */
  ghost predicate ShortcutIndex(os: seq<Option>, shortcuts: map<string, string>) {
    && (forall i :: 0 <= i < |os| && os[i].shortcut.Some? ==>
          os[i].shortcut.value in shortcuts && shortcuts[os[i].shortcut.value] == os[i].name)
    && (forall s :: s in shortcuts ==> exists i :: 0 <= i < |os| && os[i].shortcut == Some(s))
  }

  ghost predicate ValidParameters(d: Definition) {
    && DistinctParameterNames(d.parameters)
    && d.requiredParameterCount == CountRequired(d.parameters)
    && (d.hasComplexParameter <==> exists i :: 0 <= i < |d.parameters| && d.parameters[i].IsComplex())
    && (d.hasOptionalParameter <==> exists i :: 0 <= i < |d.parameters| && !d.parameters[i].IsRequired())
    && RequiredFirst(d.parameters)
    && ComplexLast(d.parameters)
  }

  ghost predicate ValidOptions(d: Definition) {
    DistinctOptionNames(d.options) && ShortcutIndex(d.options, d.optionShortcuts)
  }

  /** What every definition the public operations build satisfies. */
  ghost predicate Valid(d: Definition) {
    ValidParameters(d) && ValidOptions(d)
  }

  /** `addParameter(p)`: all checks come before any field changes. */
  function AddParameter(d: Definition, p: Parameter): (r: Result<Definition>)
    ensures HasParameterNamed(d.parameters, p.name) ==> r == Err(DuplicateParameter(p.name))
    ensures r.Err? ==> r.error.Kind() == Logic
    ensures r.Ok? ==>
      && r.value.parameters == d.parameters + [p]
      && r.value.options == d.options && r.value.optionShortcuts == d.optionShortcuts
  {
    if HasParameterNamed(d.parameters, p.name) then Err(DuplicateParameter(p.name))
    else if d.hasComplexParameter then Err(ParameterAfterComplex)
    else if p.IsRequired() && d.hasOptionalParameter then Err(RequiredAfterOptional)
    else
      var ps := d.parameters + [p];
      Ok(d.(parameters := ps,
            hasComplexParameter := d.hasComplexParameter || p.IsComplex(),
            requiredParameterCount := d.requiredParameterCount + (if p.IsRequired() then 1 else 0),
            hasOptionalParameter := d.hasOptionalParameter || !p.IsRequired()))
  }

  /** `addOption(o)`: duplicate names and duplicate shortcuts are refused before any change. */
  function AddOption(d: Definition, o: Option): (r: Result<Definition>)
    ensures HasOptionNamed(d.options, o.name) ==> r == Err(DuplicateOption(o.name))
    ensures r.Err? ==> r.error.Kind() == Logic
    ensures r.Ok? ==>
      && r.value.options == d.options + [o]
      && r.value.parameters == d.parameters
      && r.value.requiredParameterCount == d.requiredParameterCount
      && r.value.hasComplexParameter == d.hasComplexParameter
      && r.value.hasOptionalParameter == d.hasOptionalParameter
  {
    if HasOptionNamed(d.options, o.name) then Err(DuplicateOption(o.name))
    else
      match o.shortcut
      case Null => Ok(d.(options := d.options + [o]))
      case Some(s) =>
        if s in d.optionShortcuts then Err(DuplicateShortcut(s))
        else Ok(d.(options := d.options + [o], optionShortcuts := d.optionShortcuts[s := o.name]))
  }

  /**
   * On a valid definition `addParameter` succeeds exactly for a new name,
   * after no COMPLEX parameter, and (when REQUIRED) after only REQUIRED ones;
   * the result is valid again.
   */
  lemma AddParameterValid(d: Definition, p: Parameter)
    ensures Valid(d) ==>
      (AddParameter(d, p).Ok? <==>
        && !HasParameterNamed(d.parameters, p.name)
        && (forall i :: 0 <= i < |d.parameters| ==> !d.parameters[i].IsComplex())
        && (p.IsRequired() ==> forall i :: 0 <= i < |d.parameters| ==> d.parameters[i].IsRequired()))
    ensures Valid(d) && AddParameter(d, p).Ok? ==> Valid(AddParameter(d, p).value)
  {
    var ps := d.parameters + [p];
    assert ps[..|ps| - 1] == d.parameters;
  }

  /**
   * On a valid definition `addOption` succeeds exactly for a new name whose
   * shortcut, if any, is unused; the result is valid again (the shortcut
   * index stays exact).
   */
  lemma AddOptionValid(d: Definition, o: Option)
    ensures Valid(d) ==>
      (AddOption(d, o).Ok? <==>
        && !HasOptionNamed(d.options, o.name)
        && (o.shortcut.Some? ==> forall i :: 0 <= i < |d.options| ==> d.options[i].shortcut != o.shortcut))
    ensures Valid(d) && AddOption(d, o).Ok? ==> Valid(AddOption(d, o).value)
  {
    if Valid(d) && AddOption(d, o).Ok? {
      var r := AddOption(d, o).value;
      forall k | k in r.optionShortcuts
        ensures exists i :: 0 <= i < |r.options| && r.options[i].shortcut == Some(k)
      {
        if o.shortcut == Some(k) {
          assert r.options[|d.options|].shortcut == Some(k);
        } else {
          var i :| 0 <= i < |d.options| && d.options[i].shortcut == Some(k);
          assert r.options[i].shortcut == Some(k);
        }
      }
    }
  }

  /** Distinct option names make the shortcut index a one-to-one map. */
  lemma ShortcutsDistinct(d: Definition, i: int, j: int)
    requires Valid(d) && 0 <= i < j < |d.options| && d.options[i].shortcut.Some?
    ensures d.options[i].shortcut != d.options[j].shortcut
  {
  }

  /** Every required parameter sits before the first `requiredParameterCount` index, every optional one after. */
  lemma {:induction false} RequiredArePrefix(ps: seq<Parameter>)
    requires RequiredFirst(ps)
    ensures CountRequired(ps) <= |ps|
    ensures forall i :: 0 <= i < |ps| ==> (ps[i].IsRequired() <==> i < CountRequired(ps))
  {
    if ps != [] {
      var init := ps[..|ps| - 1];
      assert forall i :: 0 <= i < |init| ==> init[i] == ps[i];
      RequiredArePrefix(init);
    }
  }

  /**
   * `addParameters(ps)`: adds one at a time and stops at the first failure,
   * leaving the elements before it added (the second component is the
   * exception, if any).
   */
  function AddParameters(d: Definition, ps: seq<Parameter>): (r: (Definition, Nullable<Error>))
    ensures |d.parameters| <= |r.0.parameters| <= |d.parameters| + |ps|
    ensures r.0.parameters == d.parameters + ps[..|r.0.parameters| - |d.parameters|]
    ensures r.1.Null? ==> r.0.parameters == d.parameters + ps
    ensures r.1.Some? ==>
      && |r.0.parameters| - |d.parameters| < |ps|
      && AddParameter(r.0, ps[|r.0.parameters| - |d.parameters|]) == Err(r.1.value)
    ensures r.0.options == d.options && r.0.optionShortcuts == d.optionShortcuts
    decreases |ps|
  {
    if ps == [] then (d, Null)
    else
      match AddParameter(d, ps[0])
      case Err(e) => (d, Some(e))
      case Ok(d') =>
        var r := AddParameters(d', ps[1..]);
        PrefixStep(d.parameters, ps, |r.0.parameters| - |d'.parameters|);
        r
  }

  /** Adding the head and then a prefix of the tail adds a prefix of the whole. */
  lemma PrefixStep<T>(a: seq<T>, xs: seq<T>, k: int)
    requires 0 <= k < |xs|
    ensures (a + [xs[0]]) + xs[1..][..k] == a + xs[..k + 1]
    ensures k < |xs| - 1 ==> xs[1..][k] == xs[k + 1]
    ensures k == |xs| - 1 ==> xs[..k + 1] == xs
  {
    assert xs[..k + 1] == [xs[0]] + xs[1..][..k];
  }

  /** `addParameters` keeps a valid definition valid, whether or not it stops early. */
  lemma {:induction false} AddParametersValid(d: Definition, ps: seq<Parameter>)
    ensures Valid(d) ==> Valid(AddParameters(d, ps).0)
    decreases |ps|
  {
    if ps != [] {
      AddParameterValid(d, ps[0]);
      var r := AddParameter(d, ps[0]);
      if r.Ok? {
        AddParametersValid(r.value, ps[1..]);
      }
    }
  }

  lemma ClearedParametersValid(d: Definition)
    ensures ValidOptions(d) ==> Valid(d.(parameters := [], requiredParameterCount := 0,
                     hasComplexParameter := false, hasOptionalParameter := false))
  {
  }

  lemma ClearedOptionsValid(d: Definition)
    ensures ValidParameters(d) ==> Valid(d.(options := [], optionShortcuts := map[]))
  {
  }

  /** `setParameters(ps)`: clears the parameter state first, so a failure leaves a prefix added. */
  function SetParameters(d: Definition, ps: seq<Parameter>): (r: (Definition, Nullable<Error>))
    ensures |r.0.parameters| <= |ps| && r.0.parameters == ps[..|r.0.parameters|]
    ensures r.1.Null? ==> r.0.parameters == ps
    ensures r.1.Some? ==> |r.0.parameters| < |ps| && AddParameter(r.0, ps[|r.0.parameters|]) == Err(r.1.value)
    ensures r.0.options == d.options && r.0.optionShortcuts == d.optionShortcuts
    ensures ValidOptions(d) ==> Valid(r.0)
  {
    var cleared := d.(parameters := [], requiredParameterCount := 0,
                      hasComplexParameter := false, hasOptionalParameter := false);
    ClearedParametersValid(d);
    AddParametersValid(cleared, ps);
    AddParameters(cleared, ps)
  }

  /** `addOptions(os)` */
  function AddOptions(d: Definition, os: seq<Option>): (r: (Definition, Nullable<Error>))
    ensures |d.options| <= |r.0.options| <= |d.options| + |os|
    ensures r.0.options == d.options + os[..|r.0.options| - |d.options|]
    ensures r.1.Null? ==> r.0.options == d.options + os
    ensures r.1.Some? ==>
      && |r.0.options| - |d.options| < |os|
      && AddOption(r.0, os[|r.0.options| - |d.options|]) == Err(r.1.value)
    ensures r.0.parameters == d.parameters && r.0.requiredParameterCount == d.requiredParameterCount
    ensures r.0.hasComplexParameter == d.hasComplexParameter && r.0.hasOptionalParameter == d.hasOptionalParameter
    decreases |os|
  {
    if os == [] then (d, Null)
    else
      match AddOption(d, os[0])
      case Err(e) => (d, Some(e))
      case Ok(d') =>
        var r := AddOptions(d', os[1..]);
        PrefixStep(d.options, os, |r.0.options| - |d'.options|);
        r
  }

  /** `addOptions` keeps a valid definition valid, whether or not it stops early. */
  lemma {:induction false} AddOptionsValid(d: Definition, os: seq<Option>)
    ensures Valid(d) ==> Valid(AddOptions(d, os).0)
    decreases |os|
  {
    if os != [] {
      AddOptionValid(d, os[0]);
      var r := AddOption(d, os[0]);
      if r.Ok? {
        AddOptionsValid(r.value, os[1..]);
      }
    }
  }

  /** `setOptions(os)`: clears the options and the shortcut index first. */
  function SetOptions(d: Definition, os: seq<Option>): (r: (Definition, Nullable<Error>))
    ensures |r.0.options| <= |os| && r.0.options == os[..|r.0.options|]
    ensures r.1.Null? ==> r.0.options == os
    ensures r.1.Some? ==> |r.0.options| < |os| && AddOption(r.0, os[|r.0.options|]) == Err(r.1.value)
    ensures r.0.parameters == d.parameters && r.0.requiredParameterCount == d.requiredParameterCount
    ensures ValidParameters(d) ==> Valid(r.0)
  {
    var cleared := d.(options := [], optionShortcuts := map[]);
    ClearedOptionsValid(d);
    AddOptionsValid(cleared, os);
    AddOptions(cleared, os)
  }

  function ParametersOf(args: seq<Argument>): (ps: seq<Parameter>)
    ensures |ps| <= |args|
  {
    if args == [] then []
    else (if args[0].P? then [args[0].parameter] else []) + ParametersOf(args[1..])
  }

  function OptionsOf(args: seq<Argument>): (os: seq<Option>)
    ensures |os| <= |args|
  {
    if args == [] then []
    else (if args[0].O? then [args[0].option] else []) + OptionsOf(args[1..])
  }

  lemma EmptyValid()
    ensures Valid(EMPTY_DEFINITION)
  {
  }

  /** The order rules `addParameter` enforces: distinct names, REQUIRED first, COMPLEX only last. */
  ghost predicate ParameterOrder(ps: seq<Parameter>) {
    DistinctParameterNames(ps) && RequiredFirst(ps) && ComplexLast(ps)
  }

  /** The rules `addOption` enforces: distinct names and distinct shortcuts. */
  ghost predicate OptionOrder(os: seq<Option>) {
    && DistinctOptionNames(os)
    && (forall i, j :: 0 <= i < j < |os| && os[i].shortcut.Some? ==> os[i].shortcut != os[j].shortcut)
  }

  /** One more parameter keeps the order rules exactly when `addParameter` would accept it. */
  lemma ParameterOrderSnoc(ps: seq<Parameter>, p: Parameter)
    requires ParameterOrder(ps)
    ensures ParameterOrder(ps + [p]) <==>
      && !HasParameterNamed(ps, p.name)
      && (forall i :: 0 <= i < |ps| ==> !ps[i].IsComplex())
      && (p.IsRequired() ==> forall i :: 0 <= i < |ps| ==> ps[i].IsRequired())
  {
    var qs := ps + [p];
    assert qs[|ps|] == p;
    assert forall i :: 0 <= i < |ps| ==> qs[i] == ps[i];
  }

  /** The order rules hold of every prefix. */
  lemma ParameterOrderPrefix(ps: seq<Parameter>, k: int)
    requires ParameterOrder(ps) && 0 <= k <= |ps|
    ensures ParameterOrder(ps[..k])
  {
  }

  lemma OptionOrderSnoc(os: seq<Option>, o: Option)
    requires OptionOrder(os)
    ensures OptionOrder(os + [o]) <==>
      && !HasOptionNamed(os, o.name)
      && (o.shortcut.Some? ==> forall i :: 0 <= i < |os| ==> os[i].shortcut != o.shortcut)
  {
    var qs := os + [o];
    assert qs[|os|] == o;
    assert forall i :: 0 <= i < |os| ==> qs[i] == os[i];
  }

  lemma OptionOrderPrefix(os: seq<Option>, k: int)
    requires OptionOrder(os) && 0 <= k <= |os|
    ensures OptionOrder(os[..k])
  {
  }

  /** Adding the first element of a list that fails the order rules, after which the rest fails them too. */
  lemma ParameterOrderHead(ps: seq<Parameter>, p: Parameter, rest: seq<Parameter>)
    requires ParameterOrder(ps)
    requires ParameterOrder(ps + ([p] + rest))
    ensures ParameterOrder(ps + [p])
  {
    var whole := ps + ([p] + rest);
    assert whole[..|ps| + 1] == ps + [p];
    ParameterOrderPrefix(whole, |ps| + 1);
  }

  /** A parameter `addParameter` refuses breaks the order rules of any list it heads. */
  lemma AddParameterRejects(d: Definition, ps: seq<Parameter>)
    requires Valid(d) && ps != [] && AddParameter(d, ps[0]).Err?
    ensures !ParameterOrder(d.parameters + ps)
  {
    var p := ps[0];
    assert ps == [p] + ps[1..];
    AddParameterValid(d, p);
    ParameterOrderSnoc(d.parameters, p);
    if ParameterOrder(d.parameters + ps) {
      ParameterOrderHead(d.parameters, p, ps[1..]);
    }
  }

  /** After an accepted head, `addParameters` goes on from the extended definition with the same whole list. */
  lemma AddParametersAccepts(d: Definition, ps: seq<Parameter>)
    requires Valid(d) && ps != [] && AddParameter(d, ps[0]).Ok?
    ensures var d' := AddParameter(d, ps[0]).value;
      && Valid(d')
      && d'.parameters + ps[1..] == d.parameters + ps
      && AddParameters(d, ps).1 == AddParameters(d', ps[1..]).1
  {
    AddParameterValid(d, ps[0]);
    assert (d.parameters + [ps[0]]) + ps[1..] == d.parameters + ps;
  }

  /** On a valid definition `addParameters` adds everything exactly when the whole list keeps the order rules. */
  lemma {:induction false} AddParametersOk(d: Definition, ps: seq<Parameter>)
    requires Valid(d)
    ensures AddParameters(d, ps).1.Null? <==> ParameterOrder(d.parameters + ps)
    decreases |ps|
  {
    if ps == [] {
      assert d.parameters + ps == d.parameters;
    } else {
      var r := AddParameter(d, ps[0]);
      if r.Err? {
        AddParameterRejects(d, ps);
      } else {
        AddParametersAccepts(d, ps);
        AddParametersOk(r.value, ps[1..]);
      }
    }
  }

  lemma OptionOrderHead(os: seq<Option>, o: Option, rest: seq<Option>)
    requires OptionOrder(os + ([o] + rest))
    ensures OptionOrder(os + [o])
  {
    var whole := os + ([o] + rest);
    assert whole[..|os| + 1] == os + [o];
    OptionOrderPrefix(whole, |os| + 1);
  }

  /** A valid definition's options keep the option rules. */
  lemma ValidOptionOrder(d: Definition)
    requires Valid(d)
    ensures OptionOrder(d.options)
  {
    forall i, j | 0 <= i < j < |d.options| && d.options[i].shortcut.Some?
      ensures d.options[i].shortcut != d.options[j].shortcut
    {
      ShortcutsDistinct(d, i, j);
    }
  }

  /** An option `addOption` refuses breaks the option rules of any list it heads. */
  lemma AddOptionRejects(d: Definition, os: seq<Option>)
    requires Valid(d) && os != [] && AddOption(d, os[0]).Err?
    ensures !OptionOrder(d.options + os)
  {
    var o := os[0];
    assert os == [o] + os[1..];
    ValidOptionOrder(d);
    AddOptionValid(d, o);
    OptionOrderSnoc(d.options, o);
    if OptionOrder(d.options + os) {
      OptionOrderHead(d.options, o, os[1..]);
    }
  }

  /** After an accepted head, `addOptions` goes on from the extended definition with the same whole list. */
  lemma AddOptionsAccepts(d: Definition, os: seq<Option>)
    requires Valid(d) && os != [] && AddOption(d, os[0]).Ok?
    ensures var d' := AddOption(d, os[0]).value;
      && Valid(d')
      && d'.options + os[1..] == d.options + os
      && AddOptions(d, os).1 == AddOptions(d', os[1..]).1
  {
    AddOptionValid(d, os[0]);
    assert (d.options + [os[0]]) + os[1..] == d.options + os;
  }

  /** On a valid definition `addOptions` adds everything exactly when the whole list keeps the option rules. */
  lemma {:induction false} AddOptionsOk(d: Definition, os: seq<Option>)
    requires Valid(d)
    ensures AddOptions(d, os).1.Null? <==> OptionOrder(d.options + os)
    decreases |os|
  {
    if os == [] {
      assert d.options + os == d.options;
    } else {
      var r := AddOption(d, os[0]);
      if r.Err? {
        AddOptionRejects(d, os);
      } else {
        AddOptionsAccepts(d, os);
        AddOptionsOk(r.value, os[1..]);
      }
    }
  }

  /** The exceptions `addParameter` raises. */
  lemma AddParameterErrors(d: Definition, p: Parameter)
    ensures AddParameter(d, p).Err? ==>
      var e := AddParameter(d, p).error;
      e.DuplicateParameter? || e == ParameterAfterComplex || e == RequiredAfterOptional
  {
  }

  /** The exceptions `addOption` raises. */
  lemma AddOptionErrors(d: Definition, o: Option)
    ensures AddOption(d, o).Err? ==> AddOption(d, o).error.DuplicateOption? || AddOption(d, o).error.DuplicateShortcut?
  {
  }

  /** `setParameters(ps)` completes exactly when `ps` keeps the order rules. */
  lemma SetParametersOk(d: Definition, ps: seq<Parameter>)
    requires ValidOptions(d)
    ensures SetParameters(d, ps).1.Null? <==> ParameterOrder(ps)
  {
    var cleared := d.(parameters := [], requiredParameterCount := 0,
                      hasComplexParameter := false, hasOptionalParameter := false);
    ClearedParametersValid(d);
    AddParametersOk(cleared, ps);
    assert cleared.parameters + ps == ps;
  }

  /** A failing `setParameters(ps)` raises one of the parameter errors. */
  lemma SetParametersErrors(d: Definition, ps: seq<Parameter>)
    ensures var r := SetParameters(d, ps);
      r.1.Some? ==> r.1.value.DuplicateParameter? || r.1.value == ParameterAfterComplex || r.1.value == RequiredAfterOptional
  {
    var r := SetParameters(d, ps);
    if r.1.Some? {
      AddParameterErrors(r.0, ps[|r.0.parameters|]);
    }
  }

  /** `setOptions(os)` completes exactly when `os` has distinct names and shortcuts. */
  lemma SetOptionsOk(d: Definition, os: seq<Option>)
    requires ValidParameters(d)
    ensures SetOptions(d, os).1.Null? <==> OptionOrder(os)
  {
    var cleared := d.(options := [], optionShortcuts := map[]);
    ClearedOptionsValid(d);
    AddOptionsOk(cleared, os);
    assert cleared.options + os == os;
  }

  /** A failing `setOptions(os)` raises one of the option errors. */
  lemma SetOptionsErrors(d: Definition, os: seq<Option>)
    ensures var r := SetOptions(d, os); r.1.Some? ==> r.1.value.DuplicateOption? || r.1.value.DuplicateShortcut?
  {
    var r := SetOptions(d, os);
    if r.1.Some? {
      AddOptionErrors(r.0, os[|r.0.options|]);
    }
  }

  /**
   * `new Definition(arguments)`: parameters, in order, then options, in
   * order. It succeeds exactly when the parameters keep the order rules
   * and the options have distinct names and shortcuts; parameter errors
   * are raised before option errors.
   */
  function NewDefinition(args: seq<Argument>): (r: Result<Definition>)
    ensures r.Ok? <==> ParameterOrder(ParametersOf(args)) && OptionOrder(OptionsOf(args))
    ensures r.Ok? ==> Valid(r.value) && r.value.parameters == ParametersOf(args) && r.value.options == OptionsOf(args)
    ensures r.Err? ==> r.error.Kind() == Logic
    ensures !ParameterOrder(ParametersOf(args)) ==>
      r.Err? && (r.error.DuplicateParameter? || r.error == ParameterAfterComplex || r.error == RequiredAfterOptional)
    ensures ParameterOrder(ParametersOf(args)) && !OptionOrder(OptionsOf(args)) ==>
      r.Err? && (r.error.DuplicateOption? || r.error.DuplicateShortcut?)
  {
    EmptyValid();
    SetParametersOk(EMPTY_DEFINITION, ParametersOf(args));
    SetParametersErrors(EMPTY_DEFINITION, ParametersOf(args));
    var r1 := SetParameters(EMPTY_DEFINITION, ParametersOf(args));
    if r1.1.Some? then Err(r1.1.value)
    else
      SetOptionsOk(r1.0, OptionsOf(args));
      SetOptionsErrors(r1.0, OptionsOf(args));
      var r2 := SetOptions(r1.0, OptionsOf(args));
      if r2.1.Some? then Err(r2.1.value) else Ok(r2.0)
  }


  // ---------------------------------------------------------------------
  // Synopsis

  /** `<name>`, followed by `...` when COMPLEX. */
  function ParameterToken(p: Parameter): string {
    "<" + p.name + ">" + (if p.IsComplex() then "..." else "")
  }

  /** The token with a leading `[` when the parameter is optional. */
  function ParameterItem(p: Parameter): string {
    (if p.IsRequired() then "" else "[") + ParameterToken(p)
  }

  function ParameterItems(ps: seq<Parameter>): (r: seq<string>)
    ensures |r| == |ps|
    ensures forall i :: 0 <= i < |ps| ==> r[i] == ParameterItem(ps[i])
  {
    if ps == [] then [] else [ParameterItem(ps[0])] + ParameterItems(ps[1..])
  }

  function CountOptional(ps: seq<Parameter>): nat {
    if ps == [] then 0 else (if ps[0].IsRequired() then 0 else 1) + CountOptional(ps[1..])
  }

  /** `getSynopsisOfParameters()`: the items space-joined, then one `]` per optional parameter. */
  function ParametersSynopsis(ps: seq<Parameter>): string {
    if ps == [] then "" else Join(" ", ParameterItems(ps)) + Repeat("]", CountOptional(ps))
  }

  /** Reference rendering: each optional parameter's bracket encloses all the later ones. */
  function NestedSynopsis(ps: seq<Parameter>): string {
    if ps == [] then ""
    else
      var head := ParameterToken(ps[0]);
      var body := if |ps| == 1 then head else head + " " + NestedSynopsis(ps[1..]);
      if ps[0].IsRequired() then body else "[" + body + "]"
  }

  lemma {:induction false} RepeatCount(ps: seq<Parameter>)
    requires |ps| > 0
    ensures Repeat("]", CountOptional(ps))
         == Repeat("]", CountOptional(ps[1..])) + (if ps[0].IsRequired() then "" else "]")
  {
    RepeatSnoc("]", CountOptional(ps[1..]));
  }

  lemma ItemsTail(ps: seq<Parameter>)
    requires |ps| > 0
    ensures ParameterItems(ps)[1..] == ParameterItems(ps[1..])
  {
  }

  /** Peeling the first parameter off the flat rendering. */
  lemma SynopsisCons(ps: seq<Parameter>)
    requires |ps| > 1
    ensures ParametersSynopsis(ps)
         == ParameterItem(ps[0]) + " " + ParametersSynopsis(ps[1..]) + (if ps[0].IsRequired() then "" else "]")
  {
    var items := ParameterItems(ps);
    var a := ParameterItem(ps[0]);
    var j := Join(" ", ParameterItems(ps[1..]));
    var t := Repeat("]", CountOptional(ps[1..]));
    var e := if ps[0].IsRequired() then "" else "]";
    ItemsTail(ps);
    assert Join(" ", items) == a + " " + j;
    RepeatCount(ps);
    assert ParametersSynopsis(ps) == (a + " " + j) + (t + e);
    assert ParametersSynopsis(ps[1..]) == j + t;
    Regroup(a, " ", j, t, e);
  }

  lemma SingleSynopsis(ps: seq<Parameter>)
    requires |ps| == 1
    ensures ParametersSynopsis(ps) == NestedSynopsis(ps)
  {
    var head := ParameterToken(ps[0]);
    var item := ParameterItem(ps[0]);
    assert ParameterItems(ps) == [item];
    assert Join(" ", [item]) == item;
    assert ps[1..] == [];
    assert CountOptional(ps[1..]) == 0;
    if ps[0].IsRequired() {
      assert item == head;
      assert CountOptional(ps) == 0;
      assert Repeat("]", 0) == "";
      assert ParametersSynopsis(ps) == head + "";
      assert NestedSynopsis(ps) == head;
    } else {
      assert item == "[" + head;
      assert CountOptional(ps) == 1;
      assert Repeat("]", 1) == "]";
      assert ParametersSynopsis(ps) == ("[" + head) + "]";
      assert NestedSynopsis(ps) == "[" + head + "]";
    }
  }

  /** The batched closing brackets render exactly the nested grouping. */
  lemma {:induction false} SynopsisIsNested(ps: seq<Parameter>)
    ensures ParametersSynopsis(ps) == NestedSynopsis(ps)
  {
    if |ps| == 1 {
      SingleSynopsis(ps);
    } else if |ps| > 1 {
      SynopsisIsNested(ps[1..]);
      SynopsisCons(ps);
      var openBracket := if ps[0].IsRequired() then "" else "[";
      var closeBracket := if ps[0].IsRequired() then "" else "]";
      var head := ParameterToken(ps[0]);
      var tail := NestedSynopsis(ps[1..]);
      NestedCons(ps);
      Enclose(openBracket, head, " ", tail, closeBracket);
    }
  }

  lemma NestedCons(ps: seq<Parameter>)
    requires |ps| > 1
    ensures var openBracket := if ps[0].IsRequired() then "" else "[";
      var closeBracket := if ps[0].IsRequired() then "" else "]";
      NestedSynopsis(ps) == openBracket + (ParameterToken(ps[0]) + " " + NestedSynopsis(ps[1..])) + closeBracket
  {
    var body := ParameterToken(ps[0]) + " " + NestedSynopsis(ps[1..]);
    if ps[0].IsRequired() {
      assert "" + body + "" == body;
    }
  }

  /** `[-s|--name NAME]`, `[-s|--name [NAME]]` or `[-s|--name]`; a falsy shortcut is left out. */
  function OptionItem(o: Option): string {
    var value :=
      if o.AcceptValue() then (if o.IsOptional() then " [" + ToUpper(o.name) + "]" else " " + ToUpper(o.name))
      else "";
    var shortcut := if o.HasTruthyShortcut() then "-" + o.shortcut.value + "|" else "";
    "[" + shortcut + "--" + o.name + value + "]"
  }

  function OptionItems(os: seq<Option>): (r: seq<string>)
    ensures |r| == |os|
    ensures forall i :: 0 <= i < |os| ==> r[i] == OptionItem(os[i])
  {
    if os == [] then [] else [OptionItem(os[0])] + OptionItems(os[1..])
  }

  /** `getSynopsisOfOptions(short)` */
  function OptionsSynopsis(os: seq<Option>, short: bool): string {
    if os == [] then ""
    else if short then "[options]"
    else Join(" ", OptionItems(os))
  }

  /** A shortcut `'0'` is falsy in PHP, so the synopsis renders it as if there were none. */
  lemma ZeroShortcutOmitted(o: Option)
    requires o.shortcut == Some("0")
    ensures OptionItem(o) == OptionItem(o.(shortcut := Null))
    ensures OptionItem(o) == "[--" + o.name + OptionItem(o)[3 + |o.name|..]
  {
  }

  lemma {:induction false} JoinNonEmpty(xs: seq<string>)
    requires |xs| > 0 && forall i :: 0 <= i < |xs| ==> xs[i] != ""
    ensures Join(" ", xs) != ""
    ensures StartsWith(Join(" ", xs), xs[0])
  {
    if |xs| > 1 {
      assert Join(" ", xs) == xs[0] + (" " + Join(" ", xs[1..]));
    }
  }

  lemma SynopsisParts(d: Definition, short: bool)
    ensures ParametersSynopsis(d.parameters) == NestedSynopsis(d.parameters)
    ensures d.parameters != [] ==> ParametersSynopsis(d.parameters) != ""
    ensures d.options != [] ==> OptionsSynopsis(d.options, short) != ""
    ensures d.options != [] && !short ==> StartsWith(OptionsSynopsis(d.options, short), OptionItem(d.options[0]))
  {
    SynopsisIsNested(d.parameters);
    if d.parameters != [] {
      JoinNonEmpty(ParameterItems(d.parameters));
    }
    if d.options != [] && !short {
      JoinNonEmpty(OptionItems(d.options));
    }
  }

  /** `getSynopsis(short)`: the options part and the nested parameters part, joined by ` [--] ` only when both exist. */
  function GetSynopsis(d: Definition, short: bool): (r: string)
    ensures d.options == [] ==> r == NestedSynopsis(d.parameters)
    ensures d.parameters == [] ==> r == OptionsSynopsis(d.options, short)
    ensures d.options != [] && d.parameters != [] ==>
      r == OptionsSynopsis(d.options, short) + " [--] " + NestedSynopsis(d.parameters)
    ensures d.options != [] && short ==> StartsWith(r, "[options]")
    ensures d.options != [] && !short ==> StartsWith(r, OptionItem(d.options[0]))
  {
    var o := OptionsSynopsis(d.options, short);
    var p := ParametersSynopsis(d.parameters);
    SynopsisParts(d, short);
    if o == "" || p == "" then o + p else o + " [--] " + p
  }
}
