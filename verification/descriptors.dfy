/**
 * `Descriptor`: the column widths and the text of the help lines for
 * parameters, options and commands.
 */
module Descriptors {
  import opened Wrappers
  import opened Strings
  import opened Arguments

  /** `normalizeParameterNameSpacing` */
  function ParameterWidth(p: Parameter): nat {
    |p.name|
  }

  /** `normalizeOptionNameSpacing`: room for `-s, --name`, plus `=NAME` or `[=NAME]` when a value is accepted. */
  function OptionWidth(o: Option): (r: nat)
    ensures !o.AcceptValue() ==> r == |o.name| + 6
    ensures o.AcceptValue() && !o.IsOptional() ==> r == 2 * |o.name| + 7
    ensures o.IsOptional() ==> r == 2 * |o.name| + 9
  {
    var width := |o.name|;
    var width := if o.AcceptValue() then width * 2 + 1 + (if o.IsOptional() then 2 else 0) else width;
    width + 6
  }

  /** The option's left column in `describeOption`. */
  function OptionSynopsisText(o: Option): string {
    var value :=
      if o.AcceptValue() then (if o.IsRequired() then "=" + ToUpper(o.name) else "[=" + ToUpper(o.name) + "]")
      else "";
    (if o.HasTruthyShortcut() then "-" + o.shortcut.value + ", " else "    ") + "--" + o.name + value
  }

  /** The width formula is the length of the rendered left column, for every well-formed option. */
  lemma OptionWidthIsSynopsisLength(o: Option)
    requires WellFormedOption(o)
    ensures |OptionSynopsisText(o)| == OptionWidth(o)
  {
  }

  /**
   * With the shortcut check as written, `"a\n"` is accepted and the
   * rendered column is one character wider than the width formula.
   */
  lemma OptionWidthAsWrittenMismatch()
    ensures var o := Option("x", Some("a\n"), 0, "", Null);
      ShortcutMatchesAsWritten(o.shortcut.value) && |OptionSynopsisText(o)| == OptionWidth(o) + 1
  {
    ShortcutNewlineAccepted("a\n");
  }

  /** `array_reduce(..., max, 0)` over the parameter widths. */
  function ParametersAlignWidth(ps: seq<Parameter>): (r: nat)
    ensures forall i :: 0 <= i < |ps| ==> ParameterWidth(ps[i]) <= r
    ensures ps == [] ==> r == 0
    ensures ps != [] ==> exists i :: 0 <= i < |ps| && r == ParameterWidth(ps[i])
  {
    if ps == [] then 0
    else
      var init := ParametersAlignWidth(ps[..|ps| - 1]);
      var w := ParameterWidth(ps[|ps| - 1]);
      assert forall i :: 0 <= i < |ps| - 1 ==> ps[..|ps| - 1][i] == ps[i];
      if init >= w then init else w
  }

  /** `array_reduce(..., max, 0)` over the option widths. */
  function OptionsAlignWidth(os: seq<Option>): (r: nat)
    ensures forall i :: 0 <= i < |os| ==> OptionWidth(os[i]) <= r
    ensures os == [] ==> r == 0
    ensures os != [] ==> exists i :: 0 <= i < |os| && r == OptionWidth(os[i])
  {
    if os == [] then 0
    else
      var init := OptionsAlignWidth(os[..|os| - 1]);
      var w := OptionWidth(os[|os| - 1]);
      assert forall i :: 0 <= i < |os| - 1 ==> os[..|os| - 1][i] == os[i];
      if init >= w then init else w
  }

  /** `calculateAlignWidthForCommands`, over the command names. */
  function CommandsAlignWidth(names: seq<string>): (r: nat)
    ensures forall i :: 0 <= i < |names| ==> |names[i]| <= r
    ensures names == [] ==> r == 0
    ensures names != [] ==> exists i :: 0 <= i < |names| && r == |names[i]|
  {
    if names == [] then 0
    else
      var init := CommandsAlignWidth(names[..|names| - 1]);
      var w := |names[|names| - 1]|;
      assert forall i :: 0 <= i < |names| - 1 ==> names[..|names| - 1][i] == names[i];
      if init >= w then init else w
  }

  /** An option section exists exactly when there are options; every option is at least six wide. */
  lemma OptionSectionIffOptions(os: seq<Option>)
    ensures OptionsAlignWidth(os) > 0 <==> os != []
  {
    if os != [] {
      assert OptionWidth(os[0]) >= 6;
    }
  }

  /** A parameter section exists exactly when there are parameters; names are never empty. */
  lemma ParameterSectionIffParameters(ps: seq<Parameter>)
    requires forall i :: 0 <= i < |ps| ==> WellFormedParameter(ps[i])
    ensures ParametersAlignWidth(ps) > 0 <==> ps != []
  {
    if ps != [] {
      assert WellFormedParameter(ps[0]);
    }
  }

  /** The spaces between a left column of `width` and the description column. */
  function Padding(alignWidth: int, width: int): (r: string)
    ensures width <= alignWidth ==> |r| == alignWidth - width
    ensures width >= alignWidth ==> r == ""
    ensures forall i :: 0 <= i < |r| ==> r[i] == ' '
  {
    var spacing := alignWidth - width;
    var r := if spacing > 0 then Repeat(" ", spacing) else "";
    assert forall i :: 0 <= i < |r| ==> r[i] == ' ' by {
      if spacing > 0 {
        SpacesOnly(spacing);
      }
    }
    r
  }

  lemma {:induction false} SpacesOnly(n: nat)
    ensures forall i :: 0 <= i < |Repeat(" ", n)| ==> Repeat(" ", n)[i] == ' '
  {
    if n > 0 {
      SpacesOnly(n - 1);
    }
  }

  /** Every option's description starts in the same column: left column plus padding fills the align width. */
  lemma OptionColumnsAligned(os: seq<Option>, i: int)
    requires 0 <= i < |os| && WellFormedOption(os[i])
    ensures var w := OptionsAlignWidth(os);
      |OptionSynopsisText(os[i])| + |Padding(w, OptionWidth(os[i]))| == w
  {
    OptionWidthIsSynopsisLength(os[i]);
  }

  /** Every parameter's description starts in the same column. */
  lemma ParameterColumnsAligned(ps: seq<Parameter>, i: int, alignWidth: int)
    requires 0 <= i < |ps| && ParametersAlignWidth(ps) <= alignWidth
    ensures |ps[i].name| + |Padding(alignWidth, ParameterWidth(ps[i]))| == alignWidth
  {
  }

  /** The default's text: nothing for null, the values space-joined for a COMPLEX argument. */
  function DefaultSuffix(complex: bool, default: Nullable<Value>): (r: string)
    requires default.Some? ==> (complex <==> default.value.List?)
    ensures default.Null? <==> r == ""
    ensures default.Some? ==> StartsWith(r, "<comment> [default: ") && EndsWith(r, "]</comment>") && |r| >= 31
    ensures default.Some? && !complex ==> r[20..|r| - 11] == default.value.s
    ensures default.Some? && complex ==> r[20..|r| - 11] == Join(" ", default.value.items)
  {
    match default
    case Null => ""
    case Some(v) =>
      var text := if complex then Join(" ", v.items) else v.s;
      "<comment> [default: " + text + "]</comment>"
  }

  /** A COMPLEX default of one value is shown exactly as that single value would be. */
  lemma DefaultSuffixSingleton(x: string)
    ensures DefaultSuffix(true, Some(List([x]))) == DefaultSuffix(false, Some(Str(x)))
  {
  }

  /** `describeParameter`, given the description already laid out for the align width. */
  function ParameterLine(p: Parameter, alignWidth: int, description: string): (r: string)
    requires p.default.Some? ==> (p.IsComplex() <==> p.default.value.List?)
    ensures StartsWith(r, "  <info>" + p.name + "</info>  " + Padding(alignWidth, ParameterWidth(p)) + description)
    ensures EndsWith(r, DefaultSuffix(p.IsComplex(), p.default))
    ensures |r| == |"  <info>" + p.name + "</info>  " + Padding(alignWidth, ParameterWidth(p)) + description|
                   + |DefaultSuffix(p.IsComplex(), p.default)|
    ensures ParameterWidth(p) <= alignWidth && p.default.Null? ==> |r| == 17 + alignWidth + |description|
  {
    var prefix := "  <info>" + p.name + "</info>  " + Padding(alignWidth, ParameterWidth(p)) + description;
    var suffix := DefaultSuffix(p.IsComplex(), p.default);
    var r := prefix + suffix;
    assert r[..|prefix|] == prefix;
    assert r[|r| - |suffix|..] == suffix;
    r
  }

  /** `describeOption`, given the description already laid out for the align width. */
  function OptionLine(o: Option, alignWidth: int, description: string): (r: string)
    requires o.default.Some? ==> (o.IsComplex() <==> o.default.value.List?)
    ensures StartsWith(r, "  <info>" + OptionSynopsisText(o) + "</info>  " + Padding(alignWidth, OptionWidth(o)) + description)
    ensures EndsWith(r, DefaultSuffix(o.IsComplex(), o.default)
                        + (if o.IsComplex() then " <comment>(multiple values allowed)</comment>" else ""))
    ensures |r| == |"  <info>" + OptionSynopsisText(o) + "</info>  " + Padding(alignWidth, OptionWidth(o)) + description|
                   + |DefaultSuffix(o.IsComplex(), o.default)
                      + (if o.IsComplex() then " <comment>(multiple values allowed)</comment>" else "")|
    ensures WellFormedOption(o) && OptionWidth(o) <= alignWidth && o.default.Null? && !o.IsComplex() ==>
      |r| == 17 + alignWidth + |description|
  {
    var prefix := "  <info>" + OptionSynopsisText(o) + "</info>  " + Padding(alignWidth, OptionWidth(o)) + description;
    var suffix := DefaultSuffix(o.IsComplex(), o.default)
                  + (if o.IsComplex() then " <comment>(multiple values allowed)</comment>" else "");
    var r := prefix + suffix;
    assert r[..|prefix|] == prefix;
    assert r[|r| - |suffix|..] == suffix;
    assert WellFormedOption(o) ==> |OptionSynopsisText(o)| == OptionWidth(o) by {
      if WellFormedOption(o) {
        OptionWidthIsSynopsisLength(o);
      }
    }
    r
  }

  /** `displayCommands`, one line; the name must not be wider than the column (`str_repeat` refuses a negative count). */
  function CommandLine(name: string, alignWidth: int, description: string): (r: string)
    requires |name| <= alignWidth
    ensures |r| == 17 + alignWidth + |description|
    ensures StartsWith(r, "  <info>" + name + "</info>  " + Padding(alignWidth, |name|))
    ensures EndsWith(r, description)
  {
    var head := "  <info>" + name + "</info>  " + Repeat(" ", alignWidth - |name|);
    var r := head + description;
    assert r[..|head|] == head;
    assert r[|r| - |description|..] == description;
    r
  }
}
