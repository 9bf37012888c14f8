/**
 * The tokenizer (`Input`): raw tokens to positional values plus long- and
 * short-option value lists.
 *
 * `Input`'s mutually recursive `parse` / `parseNotArgument` /
 * `parseOption` always consumes the whole remaining queue once it meets the
 * first `-`-prefixed token, so it is the left-to-right fold below over the
 * state `Positional | Attach(target) | AfterMarker`; module `InputRecursion`
 * transcribes the recursion itself and proves the two equal.
 */
module Inputs {
  import opened Wrappers
  import opened Errors
  import opened Strings
  import opened Arguments

  /** What the tokenizer has collected: positionals and name → value-list maps. */
  datatype Parsed = Parsed(
    parameters: seq<string>,
    longOptions: map<string, seq<string>>,
    shortOptions: map<string, seq<string>>)

  const EMPTY: Parsed := Parsed([], map[], map[])

  /** A tokenised input: the raw tokens (kept for `clone`) and what they parsed to. */
  datatype Input = Input(tokens: seq<string>, parsed: Parsed)

  /** The option a bare token is appended to: a long name or a one-letter shortcut. */
  datatype Target = Long(name: string) | Short(letter: string)

  /** Where the next bare token goes. */
  datatype State = Positional | Attach(target: Target) | AfterMarker

  predicate IsDash(token: string) {
    StartsWith(token, "-")
  }

  /** `isset($options[$key]) || $options[$key] = []` */
  function Register(m: map<string, seq<string>>, key: string): (r: map<string, seq<string>>)
    ensures r.Keys == m.Keys + {key}
    ensures forall k :: k in m ==> r[k] == m[k]
    ensures key !in m ==> r[key] == []
  {
    if key in m then m else m[key := []]
  }

  /** Registers every letter of `letters` as a one-letter key, from the last letter down. */
  function RegisterLetters(m: map<string, seq<string>>, letters: string): (r: map<string, seq<string>>)
    ensures forall k :: k in r <==> k in m || (|k| == 1 && k[0] in letters)
    ensures forall k :: k in m ==> r[k] == m[k]
    ensures forall k :: k in r && k !in m ==> r[k] == []
    decreases |letters|
  {
    if letters == [] then m
    else
      var init := letters[..|letters| - 1];
      assert letters == init + [letters[|letters| - 1]];
      var r := RegisterLetters(Register(m, [letters[|letters| - 1]]), init);
      assert forall k :: |k| == 1 && k[0] in letters && k[0] !in init ==> k == [letters[|letters| - 1]];
      r
  }

  /** `$options[$key][] = $value` */
  function AppendValue(m: map<string, seq<string>>, key: string, value: string): map<string, seq<string>> {
    m[key := (if key in m then m[key] else []) + [value]]
  }

  function AttachValue(p: Parsed, t: Target, value: string): Parsed {
    match t
    case Long(n) => p.(longOptions := AppendValue(p.longOptions, n, value))
    case Short(c) => p.(shortOptions := AppendValue(p.shortOptions, c, value))
  }

  /** The list a target's values are collected in, if it is registered. */
  function TargetValues(p: Parsed, t: Target): Nullable<seq<string>> {
    match t
    case Long(n) => if n in p.longOptions then Some(p.longOptions[n]) else Null
    case Short(c) => if c in p.shortOptions then Some(p.shortOptions[c]) else Null
  }

  /** The option name of `--name` or `--name=value`: the value part is dropped. */
  function LongName(body: string): string {
    BeforeFirst(body, '=')
  }

  /** One token of the fold. */
  function Step(s: State, p: Parsed, token: string): (r: Result<(State, Parsed)>)
    // after `--` everything is positional
    ensures s.AfterMarker? ==> r == Ok((AfterMarker, p.(parameters := p.parameters + [token])))
    // a bare token goes to the positionals before any option, else to the current option
    ensures s.Positional? && !IsDash(token) ==> r == Ok((Positional, p.(parameters := p.parameters + [token])))
    ensures s.Attach? && !IsDash(token) ==>
      r.Ok? && r.value.0 == s && r.value.1.parameters == p.parameters
      && (TargetValues(p, s.target).Some? ==>
            TargetValues(r.value.1, s.target) == Some(TargetValues(p, s.target).value + [token]))
    // a lone `-` is an empty shortcut
    ensures !s.AfterMarker? && token == "-" ==> r == Err(EmptyShortcut)
    // the first exact `--` switches to all-positional
    ensures !s.AfterMarker? && token == "--" ==> r == Ok((AfterMarker, p))
    // an option token never adds positionals and leaves its own option registered as the target
    ensures !s.AfterMarker? && IsDash(token) && r.Ok? ==> r.value.1.parameters == p.parameters
    ensures r.Ok? && r.value.0.Attach? ==> TargetValues(r.value.1, r.value.0.target).Some?
  {
    if s.AfterMarker? then
      Ok((AfterMarker, p.(parameters := p.parameters + [token])))
    else if !IsDash(token) then
      if s.Attach? then Ok((s, AttachValue(p, s.target, token)))
      else Ok((Positional, p.(parameters := p.parameters + [token])))
    else if StartsWith(token, "--") then
      if token == "--" then Ok((AfterMarker, p))
      else
        var name := LongName(token[2..]);
        Ok((Attach(Long(name)), p.(longOptions := Register(p.longOptions, name))))
    else
      var letters := token[1..];
      if letters == "" then Err(EmptyShortcut)
      else
        var last := [letters[|letters| - 1]];
        var shorts := Register(RegisterLetters(p.shortOptions, letters[..|letters| - 1]), last);
        Ok((Attach(Short(last)), p.(shortOptions := shorts)))
  }

  /** The tokenizer as a left-to-right fold over the tokens. */
  function Fold(s: State, p: Parsed, tokens: seq<string>): Result<Parsed>
    decreases |tokens|
  {
    if tokens == [] then Ok(p)
    else
      var r := Step(s, p, tokens[0]);
      if r.Err? then Err(r.error) else Fold(r.value.0, r.value.1, tokens[1..])
  }

  /** `new Input(tokens)` */
  function Parse(tokens: seq<string>): Result<Input> {
    match Fold(Positional, EMPTY, tokens)
    case Err(e) => Err(e)
    case Ok(p) => Ok(Input(tokens, p))
  }

  // ---------------------------------------------------------------------
  // Properties of single option tokens

  /** `--name=value` has exactly the effect of `--name`: the value is lost. */
  lemma LongValueDiscarded(s: State, p: Parsed, name: string, value: string)
    requires !s.AfterMarker? && name != "" && '=' !in name
    ensures Step(s, p, "--" + name + "=" + value) == Step(s, p, "--" + name)
  {
    var t1 := "--" + name + "=" + value;
    var t2 := "--" + name;
    assert t1[..2] == "--" && t2[..2] == "--";
    assert t1[..1] == "-" && t2[..1] == "-";
    assert |t1| > 2 && |t2| > 2;
    assert t1[2..] == name + "=" + value && t2[2..] == name;
    assert name + "=" + value == name + ("=" + value);
    assert ("=" + value)[0] == '=';
    BeforeFirstStops(name, "=" + value);
    BeforeFirstNone(name);
    assert LongName(t1[2..]) == name;
    assert LongName(t2[2..]) == name;
    var r := Ok((Attach(Long(name)), p.(longOptions := Register(p.longOptions, name))));
    assert Step(s, p, t1) == r;
    assert Step(s, p, t2) == r;
  }

  /** `--name` (no `=`) registers exactly `name`, leaving an existing list alone, and targets it. */
  lemma LongOptionStep(s: State, p: Parsed, name: string)
    requires !s.AfterMarker? && name != "" && '=' !in name
    ensures Step(s, p, "--" + name) == Ok((Attach(Long(name)), p.(longOptions := Register(p.longOptions, name))))
  {
    var t := "--" + name;
    assert t[..2] == "--" && t[2..] == name && t[..1] == "-" && |t| > 2;
    BeforeFirstNone(name);
  }

  lemma {:induction false} BeforeFirstStops(a: string, b: string)
    requires '=' !in a && b != [] && b[0] == '='
    ensures BeforeFirst(a + b, '=') == a
  {
    if a != [] {
      assert (a + b)[1..] == a[1..] + b;
      BeforeFirstStops(a[1..], b);
    }
  }

  lemma {:induction false} BeforeFirstNone(a: string)
    requires '=' !in a
    ensures BeforeFirst(a, '=') == a
  {
    if a != [] {
      BeforeFirstNone(a[1..]);
    }
  }

  /**
   * `--name` registers `name` only if it is absent: an existing list (from an
   * earlier `--name v`) is kept and later bare tokens append to it.
   */
  lemma LongOptionKeepsValues(s: State, p: Parsed, name: string)
    requires !s.AfterMarker? && name != "" && '=' !in name && name in p.longOptions
    ensures Step(s, p, "--" + name) == Ok((Attach(Long(name)), p))
  {
    var t := "--" + name;
    assert t[..2] == "--" && t[2..] == name && t[..1] == "-" && |t| > 2;
    BeforeFirstNone(name);
  }

  /**
   * `-abc` registers `a` and `b` with an empty list only where absent, leaves
   * every existing list untouched, and makes `c` the target.
   */
  lemma ShortStack(s: State, p: Parsed, letters: string)
    requires !s.AfterMarker? && |letters| >= 1 && letters[0] != '-'
    ensures Step(s, p, "-" + letters).Ok?
    ensures var (s', p') := Step(s, p, "-" + letters).value;
      && s' == Attach(Short([letters[|letters| - 1]]))
      && p'.parameters == p.parameters && p'.longOptions == p.longOptions
      && (forall k :: k in p'.shortOptions <==> k in p.shortOptions || (|k| == 1 && k[0] in letters))
      && (forall k :: k in p.shortOptions ==> p'.shortOptions[k] == p.shortOptions[k])
      && (forall k :: k in p'.shortOptions && k !in p.shortOptions ==> p'.shortOptions[k] == [])
  {
    var t := "-" + letters;
    assert t[..1] == "-";
    assert t[..2] == [t[0], t[1]];
    assert !StartsWith(t, "--");
    assert t[1..] == letters;
    assert letters == letters[..|letters| - 1] + [letters[|letters| - 1]];
    assert forall k: string :: |k| == 1 ==> k == [k[0]];
  }

  /** For an option token the state before it does not matter (unless after `--`). */
  lemma DashStepIgnoresState(s: State, p: Parsed, token: string)
    requires !s.AfterMarker? && IsDash(token)
    ensures Step(s, p, token) == Step(Positional, p, token)
  {
  }

  // ---------------------------------------------------------------------
  // Where positionals come from

  /** Index of the first `-`-prefixed token, or `|tokens|`. */
  function FirstDash(tokens: seq<string>): (i: nat)
    ensures i <= |tokens|
    ensures forall j :: 0 <= j < i ==> !IsDash(tokens[j])
    ensures i < |tokens| ==> IsDash(tokens[i])
  {
    if tokens == [] then 0
    else if IsDash(tokens[0]) then 0
    else 1 + FirstDash(tokens[1..])
  }

  /** The tokens after the first exact `--`, or none. */
  function MarkerTail(tokens: seq<string>): seq<string> {
    if tokens == [] then []
    else if tokens[0] == "--" then tokens[1..]
    else MarkerTail(tokens[1..])
  }

  lemma {:induction false} AfterMarkerAllPositional(p: Parsed, tokens: seq<string>)
    ensures Fold(AfterMarker, p, tokens) == Ok(p.(parameters := p.parameters + tokens))
    decreases |tokens|
  {
    if tokens != [] {
      var p' := p.(parameters := p.parameters + [tokens[0]]);
      assert Step(AfterMarker, p, tokens[0]) == Ok((AfterMarker, p'));
      assert Fold(AfterMarker, p, tokens) == Fold(AfterMarker, p', tokens[1..]);
      AfterMarkerAllPositional(p', tokens[1..]);
      assert p.parameters + [tokens[0]] + tokens[1..] == p.parameters + tokens;
    } else {
      assert p.parameters + tokens == p.parameters;
    }
  }

  /** Once an option has been seen, only the tokens after a `--` become positionals. */
  lemma {:induction false} AttachedParameters(s: State, p: Parsed, tokens: seq<string>)
    requires s.Attach?
    ensures Fold(s, p, tokens).Ok? ==>
      Fold(s, p, tokens).value.parameters == p.parameters + MarkerTail(tokens)
    decreases |tokens|
  {
    if tokens != [] {
      var t := tokens[0];
      if t == "--" {
        AfterMarkerAllPositional(p, tokens[1..]);
      } else {
        match Step(s, p, t)
        case Err(_) =>
        case Ok((s', p')) =>
          assert s'.Attach?;
          AttachedParameters(s', p', tokens[1..]);
      }
    }
  }

  /**
   * The positionals of a parse: the tokens before the first `-`-prefixed
   * token, then everything after the first exact `--` at or beyond it.
   */
  lemma {:induction false} PositionalParameters(p: Parsed, tokens: seq<string>)
    ensures Fold(Positional, p, tokens).Ok? ==>
      Fold(Positional, p, tokens).value.parameters
        == p.parameters + tokens[..FirstDash(tokens)] + MarkerTail(tokens[FirstDash(tokens)..])
    decreases |tokens|
  {
    if tokens != [] {
      var t := tokens[0];
      if !IsDash(t) {
        var p' := p.(parameters := p.parameters + [t]);
        PositionalParameters(p', tokens[1..]);
        var i := FirstDash(tokens[1..]);
        assert tokens[..1 + i] == [t] + tokens[1..][..i];
        assert tokens[1 + i..] == tokens[1..][i..];
      } else if t == "--" {
        AfterMarkerAllPositional(p, tokens[1..]);
      } else {
        match Step(Positional, p, t)
        case Err(_) =>
        case Ok((s', p')) =>
          AttachedParameters(s', p', tokens[1..]);
      }
    }
  }

  /** Parsed positionals, stated on `Parse` itself. */
  lemma ParseParameters(tokens: seq<string>)
    ensures Parse(tokens).Ok? ==>
      Parse(tokens).value.parsed.parameters
        == tokens[..FirstDash(tokens)] + MarkerTail(tokens[FirstDash(tokens)..])
  {
    PositionalParameters(EMPTY, tokens);
  }

  /** Bare tokens after an option all go, in order, to that option's list. */
  lemma {:induction false} AttachCollects(p: Parsed, name: string, tokens: seq<string>)
    requires forall i :: 0 <= i < |tokens| ==> !IsDash(tokens[i])
    requires name in p.longOptions
    ensures Fold(Attach(Long(name)), p, tokens)
      == Ok(p.(longOptions := p.longOptions[name := p.longOptions[name] + tokens]))
    decreases |tokens|
  {
    if tokens == [] {
      assert p.longOptions[name] + tokens == p.longOptions[name];
      assert p.longOptions[name := p.longOptions[name] + tokens] == p.longOptions;
    } else {
      var p' := AttachValue(p, Long(name), tokens[0]);
      assert Step(Attach(Long(name)), p, tokens[0]) == Ok((Attach(Long(name)), p'));
      assert Fold(Attach(Long(name)), p, tokens) == Fold(Attach(Long(name)), p', tokens[1..]);
      AttachCollects(p', name, tokens[1..]);
      var m := p.longOptions;
      assert p'.longOptions == m[name := m[name] + [tokens[0]]];
      assert m[name] + [tokens[0]] + tokens[1..] == m[name] + tokens;
      assert p'.longOptions[name := p'.longOptions[name] + tokens[1..]] == m[name := m[name] + tokens];
    }
  }

  // ---------------------------------------------------------------------
  // Input's accessors

  /** `array_slice(xs, start)` with PHP's reading of a negative start. */
  function Slice(xs: seq<string>, start: int): (r: seq<string>)
    ensures 0 <= start <= |xs| ==> r == xs[start..]
    ensures start > |xs| ==> r == []
    ensures start < 0 ==> r == xs[if |xs| + start < 0 then 0 else |xs| + start..]
  {
    if start >= 0 then (if start >= |xs| then [] else xs[start..])
    else xs[(if |xs| + start < 0 then 0 else |xs| + start)..]
  }

  /** `getParameterValue(position, complex)` */
  function GetParameterValue(input: Input, position: int, complex: bool): (r: Nullable<Value>)
    ensures complex && 0 <= position < |input.parsed.parameters| ==>
      r == Some(List(input.parsed.parameters[position..]))
    ensures !complex ==>
      r == (if 0 <= position < |input.parsed.parameters| then Some(Str(input.parsed.parameters[position])) else Null)
    ensures complex && position >= |input.parsed.parameters| ==> r == Null
  {
    var ps := input.parsed.parameters;
    if complex then (var s := Slice(ps, position); if s == [] then Null else Some(List(s)))
    else if 0 <= position < |ps| then Some(Str(ps[position]))
    else Null
  }

  /** `hasParameter(position)` */
  predicate HasParameter(input: Input, position: int) {
    0 <= position < |input.parsed.parameters|
  }

  /** `getOptionValues(option)`: the long-name entry, else the shortcut entry, else null. */
  function GetOptionValues(input: Input, o: Option): (r: Nullable<seq<string>>)
    ensures o.name in input.parsed.longOptions ==> r == Some(input.parsed.longOptions[o.name])
    ensures o.name !in input.parsed.longOptions && o.shortcut.Some? && o.shortcut.value in input.parsed.shortOptions
      ==> r == Some(input.parsed.shortOptions[o.shortcut.value])
  {
    if o.name in input.parsed.longOptions then Some(input.parsed.longOptions[o.name])
    else if o.shortcut.Null? then Null
    else if o.shortcut.value in input.parsed.shortOptions then Some(input.parsed.shortOptions[o.shortcut.value])
    else Null
  }

  /** `hasOption(option)` */
  predicate HasOption(input: Input, o: Option) {
    if o.name in input.parsed.longOptions then true
    else if o.shortcut.Null? then false
    else o.shortcut.value in input.parsed.shortOptions
  }

  lemma HasOptionIffValues(input: Input, o: Option)
    ensures HasOption(input, o) <==> GetOptionValues(input, o).Some?
  {
  }

  /** `clone(start)`: a fresh parse of the raw tokens from `start` on. */
  function Clone(input: Input, start: int): (r: Result<Input>)
    ensures r.Ok? ==> r.value.tokens == (if start == 0 then input.tokens else Slice(input.tokens, start))
  {
    Parse(if start == 0 then input.tokens else Slice(input.tokens, start))
  }

  /** Cloning a parsed input from 0 gives the same input back. */
  lemma CloneFromStart(tokens: seq<string>)
    requires Parse(tokens).Ok?
    ensures Clone(Parse(tokens).value, 0) == Parse(tokens)
  {
  }

  function PrependParameters(pre: seq<string>, r: Result<Parsed>): Result<Parsed> {
    match r
    case Err(e) => Err(e)
    case Ok(p) => Ok(p.(parameters := pre + p.parameters))
  }

  lemma StepPrefixIndependent(s: State, p: Parsed, pre: seq<string>, token: string)
    ensures
      var r := Step(s, p, token);
      Step(s, p.(parameters := pre + p.parameters), token)
        == if r.Err? then r else Ok((r.value.0, r.value.1.(parameters := pre + r.value.1.parameters)))
  {
    var q := p.(parameters := pre + p.parameters);
    assert pre + p.parameters + [token] == pre + (p.parameters + [token]);
    if !s.AfterMarker? && IsDash(token) && !StartsWith(token, "--") && token[1..] != "" {
      var letters := token[1..];
      var last := [letters[|letters| - 1]];
      assert Step(s, q, token) == Ok((Attach(Short(last)), q.(shortOptions := Register(RegisterLetters(p.shortOptions, letters[..|letters| - 1]), last))));
    }
  }

  /** The positionals already collected never influence the rest of the fold. */
  lemma {:induction false} FoldPrefixIndependent(s: State, p: Parsed, pre: seq<string>, tokens: seq<string>)
    ensures Fold(s, p.(parameters := pre + p.parameters), tokens) == PrependParameters(pre, Fold(s, p, tokens))
    decreases |tokens|
  {
    if tokens != [] {
      var t := tokens[0];
      StepPrefixIndependent(s, p, pre, t);
      var r := Step(s, p, t);
      if r.Ok? {
        FoldPrefixIndependent(r.value.0, r.value.1, pre, tokens[1..]);
      }
    }
  }

  /**
   * When the first raw token is a positional (the command name), `clone(1)`
   * is the same input without that positional.
   */
  lemma CloneDropsFirstPositional(tokens: seq<string>)
    requires |tokens| > 0 && !IsDash(tokens[0])
    ensures Parse(tokens).Ok? <==> Parse(tokens[1..]).Ok?
    ensures Parse(tokens).Ok? ==>
      var i := Parse(tokens).value;
      && |i.parsed.parameters| > 0 && i.parsed.parameters[0] == tokens[0]
      && Clone(i, 1) == Ok(Input(tokens[1..], i.parsed.(parameters := i.parsed.parameters[1..])))
  {
    var first := EMPTY.(parameters := [tokens[0]]);
    assert EMPTY.parameters + [tokens[0]] == [tokens[0]];
    assert Step(Positional, EMPTY, tokens[0]) == Ok((Positional, first));
    assert Fold(Positional, EMPTY, tokens) == Fold(Positional, first, tokens[1..]);
    FoldPrefixIndependent(Positional, EMPTY, [tokens[0]], tokens[1..]);
    assert first == EMPTY.(parameters := [tokens[0]] + EMPTY.parameters);
  }
}
