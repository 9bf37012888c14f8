/**
 * Argument descriptors: positional parameters and named options, validated
 * when they are constructed (the shared trait `Argument`, the classes
 * `Parameter` and `Option`).
 */
module Arguments {
  import opened Wrappers
  import opened Errors
  import opened Strings

  /** Mode bits: multi-valued, value required, value optional (options only). */
  const COMPLEX: int := 0x1
  const REQUIRED: int := 0x2
  const OPTIONAL: int := 0x4

  /** The trait's largest legal mode, `COMPLEX | REQUIRED`. */
  const MAX_MODE: int := 3

  /** `flag === (flag & mode)` for a one-bit `flag`, on two's-complement integers. */
  predicate HasFlag(mode: int, flag: int)
    requires flag > 0
  {
    (mode / flag) % 2 == 1
  }

  /** A non-null default or resolved value: one string, or a list of strings. */
  datatype Value = Str(s: string) | List(items: seq<string>)

  datatype Parameter = Parameter(name: string, mode: int, description: string, default: Nullable<Value>) {
    predicate IsRequired() { HasFlag(mode, REQUIRED) }
    predicate IsComplex() { HasFlag(mode, COMPLEX) }
  }

  datatype Option = Option(name: string, shortcut: Nullable<string>, mode: int, description: string, default: Nullable<Value>) {
    predicate IsRequired() { HasFlag(mode, REQUIRED) }
    predicate IsComplex() { HasFlag(mode, COMPLEX) }
    predicate IsOptional() { HasFlag(mode, OPTIONAL) }
    predicate AcceptValue() { IsRequired() || IsOptional() }

    /** PHP truthiness of the shortcut: neither null, `''` nor `'0'`. */
    predicate HasTruthyShortcut() {
      shortcut.Some? && shortcut.value != "" && shortcut.value != "0"
    }
  }

  /** What a definition is built from: either kind of argument. */
  datatype Argument = P(parameter: Parameter) | O(option: Option)

  /** The strings a stored default was built from. */
  function DefaultValues(d: Nullable<Value>): seq<string> {
    match d
    case Null => []
    case Some(Str(s)) => [s]
    case Some(List(xs)) => xs
  }

  predicate ValidName(name: string) {
    name != "" && !HasSpace(name)
  }

  /** The trait's `checkName`. */
  function CheckName(name: string): (r: Nullable<Error>)
    ensures r.Null? <==> ValidName(name)
    ensures name == "" ==> r == Some(EmptyName)
    ensures r.Some? ==> r.value.Kind() == InvalidArgument
  {
    if name == "" then Some(EmptyName)
    else if HasSpace(name) then Some(NameWithWhitespace(name))
    else Null
  }

  /** The shape a stored default has for a given mode. */
  predicate DefaultFits(mode: int, d: Nullable<Value>) {
    && (HasFlag(mode, REQUIRED) ==> d.Null?)
    && (HasFlag(mode, COMPLEX) ==> d.Null? || (d.value.List? && d.value.items != []))
    && (!HasFlag(mode, COMPLEX) ==> d.Null? || d.value.Str?)
  }

  /** The trait's `setDefault`: the variadic defaults normalised into the stored default. */
  function SetDefault(mode: int, defaults: seq<string>): (r: Result<Nullable<Value>>)
    ensures r.Ok? <==> !(HasFlag(mode, REQUIRED) && defaults != []) && (HasFlag(mode, COMPLEX) || |defaults| <= 1)
    ensures r.Ok? ==> DefaultFits(mode, r.value) && DefaultValues(r.value) == defaults
    ensures r.Err? ==> r.error.Kind() == Logic
  {
    if HasFlag(mode, REQUIRED) && |defaults| > 0 then Err(RequiredWithDefault)
    else if !HasFlag(mode, COMPLEX) && |defaults| > 1 then Err(MultipleDefaults)
    else if HasFlag(mode, COMPLEX) then Ok(if defaults == [] then Null else Some(List(defaults)))
    else Ok(if defaults == [] then Null else Some(Str(defaults[0])))
  }

  predicate WellFormedParameter(p: Parameter) {
    ValidName(p.name) && 0 <= p.mode <= MAX_MODE && DefaultFits(p.mode, p.default)
  }

  /** `new Parameter(name, mode, description, ...defaults)`: name, then mode, then defaults. */
  function NewParameter(name: string, mode: int, description: string, defaults: seq<string>): (r: Result<Parameter>)
    ensures r.Ok? <==>
      && ValidName(name) && 0 <= mode <= MAX_MODE
      && !(HasFlag(mode, REQUIRED) && defaults != [])
      && (HasFlag(mode, COMPLEX) || |defaults| <= 1)
    ensures r.Ok? ==>
      && WellFormedParameter(r.value)
      && r.value.name == name && r.value.mode == mode && r.value.description == description
      && DefaultValues(r.value.default) == defaults
    ensures name == "" ==> r == Err(EmptyName)
    ensures ValidName(name) && (mode < 0 || mode > MAX_MODE) ==> r == Err(InvalidMode(mode))
    ensures r.Err? ==> (r.error.Kind() == InvalidArgument <==> !ValidName(name) || mode < 0 || mode > MAX_MODE)
  {
    match CheckName(name)
    case Some(e) => Err(e)
    case Null =>
      if mode > MAX_MODE || mode < 0 then Err(InvalidMode(mode))
      else
        match SetDefault(mode, defaults)
        case Err(e) => Err(e)
        case Ok(d) => Ok(Parameter(name, mode, description, d))
  }

  /** The one-character shortcut the check is evidently meant to accept. */
  predicate ShortcutValid(s: string) {
    |s| == 1 && !IsSpace(s[0]) && s[0] != '-'
  }

  /**
   * What `preg_match('/^[^\s-]$/', s)` accepts: PCRE's `$` also matches just
   * before a final newline, so one good character followed by `"\n"` passes.
   */
  predicate ShortcutMatchesAsWritten(s: string) {
    || ShortcutValid(s)
    || (|s| == 2 && !IsSpace(s[0]) && s[0] != '-' && s[1] == '\n')
  }

  /** The as-written pattern admits a two-character shortcut, and nothing else beyond the intended set. */
  lemma ShortcutNewlineAccepted(s: string)
    ensures ShortcutMatchesAsWritten("a\n") && !ShortcutValid("a\n")
    ensures ShortcutValid(s) ==> ShortcutMatchesAsWritten(s)
    ensures ShortcutMatchesAsWritten(s) && !ShortcutValid(s) ==> |s| == 2 && s[1] == '\n'
  {
    assert !IsSpace('a');
  }

  /** `Option::checkShortcut` (with the one-character reading of its pattern). */
  function CheckShortcut(shortcut: Nullable<string>): (r: Nullable<Error>)
    ensures r.Null? <==> shortcut.Null? || ShortcutValid(shortcut.value)
    ensures r.Some? ==> r.value.Kind() == InvalidArgument
  {
    match shortcut
    case Null => Null
    case Some(s) => if ShortcutValid(s) then Null else Some(InvalidShortcut(s))
  }

  /**
   * `Option::checkMode`. It evaluates the trait's maximum mode and discards
   * it, so no range check happens; only the flag combinations are checked.
   */
  function CheckOptionMode(mode: int): (r: Nullable<Error>)
    ensures r.Null? <==>
      && !(HasFlag(mode, REQUIRED) && HasFlag(mode, OPTIONAL))
      && (HasFlag(mode, COMPLEX) ==> HasFlag(mode, REQUIRED) || HasFlag(mode, OPTIONAL))
    ensures r.Some? ==> r.value.Kind() == Logic
  {
    if HasFlag(mode, REQUIRED) && HasFlag(mode, OPTIONAL) then Some(RequiredAndOptional)
    else if HasFlag(mode, COMPLEX) && !(HasFlag(mode, REQUIRED) || HasFlag(mode, OPTIONAL)) then Some(ComplexWithoutValue)
    else Null
  }

  /** `Option::setDefault`: defaults exactly when OPTIONAL, then the trait's normalisation. */
  function SetOptionDefault(mode: int, defaults: seq<string>): (r: Result<Nullable<Value>>)
    ensures HasFlag(mode, OPTIONAL) != (defaults != []) ==> r == Err(OptionalDefaultMismatch)
    ensures r.Ok? ==> (r.value.Null? <==> !HasFlag(mode, OPTIONAL))
  {
    if HasFlag(mode, OPTIONAL) != (defaults != []) then Err(OptionalDefaultMismatch)
    else SetDefault(mode, defaults)
  }

  predicate WellFormedOption(o: Option) {
    && ValidName(o.name)
    && (o.shortcut.Some? ==> ShortcutValid(o.shortcut.value))
    && !(o.IsRequired() && o.IsOptional())
    && (o.IsComplex() ==> o.AcceptValue())
    && DefaultFits(o.mode, o.default)
    && (o.IsOptional() <==> o.default.Some?)
  }

  /** `new Option(name, shortcut, mode, description, ...defaults)`: name, mode, shortcut, defaults. */
  function NewOption(name: string, shortcut: Nullable<string>, mode: int, description: string, defaults: seq<string>): (r: Result<Option>)
    ensures r.Ok? <==>
      && ValidName(name)
      && !(HasFlag(mode, REQUIRED) && HasFlag(mode, OPTIONAL))
      && (HasFlag(mode, COMPLEX) ==> HasFlag(mode, REQUIRED) || HasFlag(mode, OPTIONAL))
      && (shortcut.Some? ==> ShortcutValid(shortcut.value))
      && (HasFlag(mode, OPTIONAL) <==> defaults != [])
      && (HasFlag(mode, COMPLEX) || |defaults| <= 1)
    ensures r.Ok? ==>
      && WellFormedOption(r.value)
      && r.value.name == name && r.value.shortcut == shortcut
      && r.value.mode == mode && r.value.description == description
      && DefaultValues(r.value.default) == defaults
    ensures name == "" ==> r == Err(EmptyName)
    ensures r.Err? ==>
      (r.error.Kind() == InvalidArgument <==>
        !ValidName(name) || (CheckOptionMode(mode).Null? && CheckShortcut(shortcut).Some?))
  {
    match CheckName(name)
    case Some(e) => Err(e)
    case Null =>
      match CheckOptionMode(mode)
      case Some(e) => Err(e)
      case Null =>
        match CheckShortcut(shortcut)
        case Some(e) => Err(e)
        case Null =>
          match SetOptionDefault(mode, defaults)
          case Err(e) => Err(e)
          case Ok(d) => Ok(Option(name, shortcut, mode, description, d))
  }

  /**
   * Options have no mode range check: any mode whose three low bits are clear
   * (8, 16, -8, ...) builds a plain flag option.
   */
  lemma OptionModeNotRangeChecked(name: string, description: string, k: int)
    requires ValidName(name)
    ensures NewOption(name, Null, 8 * k, description, []) == Ok(Option(name, Null, 8 * k, description, Null))
  {
    var mode := 8 * k;
    assert mode / 1 == 2 * (4 * k);
    assert mode / 2 == 2 * (2 * k);
    assert mode / 4 == 2 * k;
  }
}
