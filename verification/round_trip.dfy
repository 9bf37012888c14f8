/**
 * Writing a resolved command line back out as tokens and resolving those
 * again gives the same `Concrete`. The tokens are the parameters' values in
 * order, up to the first parameter the `Concrete` does not hold, followed by
 * `--name` and that option's values for every option it holds.
 */
module RoundTrip {
  import opened Wrappers
  import opened Errors
  import opened Strings
  import opened Arguments
  import opened Inputs
  import opened Definitions
  import opened Resolution
  import Concretes

  /** Tokens the tokenizer reads as values, never as options. */
  predicate BareTokens(ts: seq<string>) {
    forall i :: 0 <= i < |ts| ==> !IsDash(ts[i])
  }

  /** Every stored value is written as bare tokens. */
  predicate BareValues(m: map<string, Nullable<Value>>) {
    forall n :: n in m ==> BareTokens(DefaultValues(m[n]))
  }

  /** What the checked constructors guarantee of every argument of a definition. */
  ghost predicate WellFormedArguments(d: Definition) {
    && (forall i :: 0 <= i < |d.parameters| ==> WellFormedParameter(d.parameters[i]))
    && (forall i :: 0 <= i < |d.options| ==> WellFormedOption(d.options[i]))
  }

  /** An option `--name` reaches: `--a=b` would name `a`. */
  predicate LongSpellable(o: Option) {
    o.name != "" && '=' !in o.name
  }

  /** The parameters' values in order, stopping at the first parameter the map does not hold. */
  function ParameterTokens(ps: seq<Parameter>, m: map<string, Nullable<Value>>): seq<string> {
    if ps == [] || ps[0].name !in m then [] else DefaultValues(m[ps[0].name]) + ParameterTokens(ps[1..], m)
  }

  /** `--name` followed by the values, for each option the map holds. */
  function OptionTokens(os: seq<Option>, m: map<string, Nullable<Value>>): seq<string> {
    if os == [] then []
    else (if os[0].name in m then ["--" + os[0].name] + DefaultValues(m[os[0].name]) else []) + OptionTokens(os[1..], m)
  }

  /** The command line that writes `c` back out for definition `d`. */
  function Encode(d: Definition, c: Concretes.Concrete): seq<string> {
    ParameterTokens(d.parameters, c.parameters) + OptionTokens(d.options, c.options)
  }

  /** The long-option lists the option tokens parse to, on top of `base`. */
  function LongMap(os: seq<Option>, m: map<string, Nullable<Value>>, base: map<string, seq<string>>)
    : map<string, seq<string>>
  {
    if os == [] then base
    else LongMap(os[1..], m, if os[0].name in m then base[os[0].name := DefaultValues(m[os[0].name])] else base)
  }

  /** Index of the first parameter the map does not hold, or `|ps|`. */
  function FirstAbsent(ps: seq<Parameter>, m: map<string, Nullable<Value>>): (k: nat)
    ensures k <= |ps|
    ensures forall j :: 0 <= j < k ==> ps[j].name in m
    ensures k < |ps| ==> ps[k].name !in m
  {
    if ps == [] || ps[0].name !in m then 0 else 1 + FirstAbsent(ps[1..], m)
  }

  // ---------------------------------------------------------------------
  // Tokenizing the encoding

  lemma {:induction false} ParameterTokensBare(ps: seq<Parameter>, m: map<string, Nullable<Value>>)
    requires BareValues(m)
    ensures BareTokens(ParameterTokens(ps, m))
  {
    if ps != [] && ps[0].name in m {
      ParameterTokensBare(ps[1..], m);
      var head := DefaultValues(m[ps[0].name]);
      var t := head + ParameterTokens(ps[1..], m);
      forall i | 0 <= i < |t| ensures !IsDash(t[i]) {
        if i >= |head| {
          assert t[i] == ParameterTokens(ps[1..], m)[i - |head|];
        }
      }
    }
  }

  /** Bare tokens before any option are appended to the positionals. */
  lemma {:induction false} FoldBare(p: Parsed, bare: seq<string>, rest: seq<string>)
    requires BareTokens(bare)
    ensures Fold(Positional, p, bare + rest) == Fold(Positional, p.(parameters := p.parameters + bare), rest)
    decreases |bare|
  {
    if bare == [] {
      assert bare + rest == rest;
      assert p.(parameters := p.parameters + bare) == p;
    } else {
      var t := bare[0];
      var tokens := bare + rest;
      assert tokens[0] == t && tokens[1..] == bare[1..] + rest;
      var p' := p.(parameters := p.parameters + [t]);
      assert Step(Positional, p, t) == Ok((Positional, p'));
      FoldBare(p', bare[1..], rest);
      assert p'.parameters + bare[1..] == p.parameters + bare;
    }
  }

  /** Bare tokens after `--name` are appended to `name`'s list, whatever follows them. */
  lemma {:induction false} AttachThen(p: Parsed, name: string, vals: seq<string>, rest: seq<string>)
    requires BareTokens(vals) && name in p.longOptions
    ensures Fold(Attach(Long(name)), p, vals + rest)
      == Fold(Attach(Long(name)), p.(longOptions := p.longOptions[name := p.longOptions[name] + vals]), rest)
    decreases |vals|
  {
    if vals == [] {
      assert vals + rest == rest;
      assert p.longOptions[name] + vals == p.longOptions[name];
      assert p.longOptions[name := p.longOptions[name]] == p.longOptions;
    } else {
      var t := vals[0];
      var tokens := vals + rest;
      assert tokens[0] == t && tokens[1..] == vals[1..] + rest;
      var p' := p.(longOptions := p.longOptions[name := p.longOptions[name] + [t]]);
      assert Step(Attach(Long(name)), p, t) == Ok((Attach(Long(name)), p'));
      AttachThen(p', name, vals[1..], rest);
      assert p'.longOptions[name] + vals[1..] == p.longOptions[name] + vals;
      assert p'.longOptions[name := p'.longOptions[name] + vals[1..]]
          == p.longOptions[name := p.longOptions[name] + vals];
    }
  }

  /** One option's group: `--name` registers the fresh name, then its values fill the list. */
  lemma OptionGroup(s: State, p: Parsed, name: string, vals: seq<string>, rest: seq<string>)
    requires !s.AfterMarker? && name != "" && '=' !in name && name !in p.longOptions && BareTokens(vals)
    ensures Fold(s, p, (["--" + name] + vals) + rest)
      == Fold(Attach(Long(name)), p.(longOptions := p.longOptions[name := vals]), rest)
  {
    var tokens := (["--" + name] + vals) + rest;
    assert tokens[0] == "--" + name && tokens[1..] == vals + rest;
    LongOptionStep(s, p, name);
    var p1 := p.(longOptions := Register(p.longOptions, name));
    AttachThen(p1, name, vals, rest);
    assert p1.longOptions[name] + vals == vals;
    assert p1.longOptions[name := vals] == p.longOptions[name := vals];
  }

  lemma {:induction false} OptionTokensFold(s: State, p: Parsed, os: seq<Option>, m: map<string, Nullable<Value>>)
    requires !s.AfterMarker?
    requires forall i :: 0 <= i < |os| ==> LongSpellable(os[i]) && os[i].name !in p.longOptions
    requires DistinctOptionNames(os) && BareValues(m)
    ensures Fold(s, p, OptionTokens(os, m)) == Ok(p.(longOptions := LongMap(os, m, p.longOptions)))
    decreases |os|
  {
    if os != [] {
      var o := os[0];
      var rest := OptionTokens(os[1..], m);
      forall a, b | 0 <= a < b < |os[1..]| ensures os[1..][a].name != os[1..][b].name {
        assert os[1..][a] == os[a + 1] && os[1..][b] == os[b + 1];
      }
      if o.name in m {
        var vals := DefaultValues(m[o.name]);
        var p2 := p.(longOptions := p.longOptions[o.name := vals]);
        OptionGroup(s, p, o.name, vals, rest);
        forall i | 0 <= i < |os[1..]| ensures LongSpellable(os[1..][i]) && os[1..][i].name !in p2.longOptions {
          assert os[1..][i] == os[i + 1];
        }
        OptionTokensFold(Attach(Long(o.name)), p2, os[1..], m);
      } else {
        assert OptionTokens(os, m) == rest;
        forall i | 0 <= i < |os[1..]| ensures LongSpellable(os[1..][i]) && os[1..][i].name !in p.longOptions {
          assert os[1..][i] == os[i + 1];
        }
        OptionTokensFold(s, p, os[1..], m);
      }
    }
  }

  /** The encoding parses back to the parameter tokens as positionals and the options' values as long options. */
  lemma EncodeParses(d: Definition, c: Concretes.Concrete)
    requires forall i :: 0 <= i < |d.options| ==> LongSpellable(d.options[i])
    requires DistinctOptionNames(d.options) && BareValues(c.parameters) && BareValues(c.options)
    ensures Parse(Encode(d, c))
      == Ok(Input(Encode(d, c), Parsed(ParameterTokens(d.parameters, c.parameters), LongMap(d.options, c.options, map[]), map[])))
  {
    var pt := ParameterTokens(d.parameters, c.parameters);
    ParameterTokensBare(d.parameters, c.parameters);
    FoldBare(EMPTY, pt, OptionTokens(d.options, c.options));
    assert EMPTY.parameters + pt == pt;
    OptionTokensFold(Positional, Parsed(pt, map[], map[]), d.options, c.options);
  }

  /** No recorded long name, nor the long option being filled, contains `=`. */
  predicate NoEqualsKeys(s: State, p: Parsed) {
    && (forall k :: k in p.longOptions ==> '=' !in k)
    && (s.Attach? && s.target.Long? ==> '=' !in s.target.name)
  }

  lemma StepNoEqualsKeys(s: State, p: Parsed, token: string)
    requires NoEqualsKeys(s, p) && Step(s, p, token).Ok?
    ensures NoEqualsKeys(Step(s, p, token).value.0, Step(s, p, token).value.1)
  {
    if !s.AfterMarker? && IsDash(token) && StartsWith(token, "--") && token != "--" {
      assert '=' !in LongName(token[2..]);
    }
  }

  lemma {:induction false} FoldNoEqualsKeys(s: State, p: Parsed, tokens: seq<string>)
    requires NoEqualsKeys(s, p) && Fold(s, p, tokens).Ok?
    ensures forall k :: k in Fold(s, p, tokens).value.longOptions ==> '=' !in k
    decreases |tokens|
  {
    if tokens != [] {
      StepNoEqualsKeys(s, p, tokens[0]);
      var r := Step(s, p, tokens[0]).value;
      FoldNoEqualsKeys(r.0, r.1, tokens[1..]);
    }
  }

  /**
   * The tokenizer never records a long name containing `=`, so an option
   * whose name contains one (which the name check allows) is never found
   * by its long name: the round trip needs names without `=`.
   */
  lemma ParsedLongNames(tokens: seq<string>)
    requires Parse(tokens).Ok?
    ensures forall k :: k in Parse(tokens).value.parsed.longOptions ==> '=' !in k
  {
    FoldNoEqualsKeys(Positional, EMPTY, tokens);
  }

  // ---------------------------------------------------------------------
  // Looking up the long options

  lemma {:induction false} LongMapKeeps(os: seq<Option>, m: map<string, Nullable<Value>>, base: map<string, seq<string>>, n: string)
    requires !NamesOption(os, n)
    ensures var r := LongMap(os, m, base); (n in r <==> n in base) && (n in base ==> r[n] == base[n])
    decreases |os|
  {
    if os != [] {
      OptionTail(os);
      LongMapKeeps(os[1..], m, if os[0].name in m then base[os[0].name := DefaultValues(m[os[0].name])] else base, n);
    }
  }

  lemma {:induction false} LongMapAt(os: seq<Option>, m: map<string, Nullable<Value>>, base: map<string, seq<string>>, i: int)
    requires DistinctOptionNames(os) && 0 <= i < |os|
    ensures var r := LongMap(os, m, base); var n := os[i].name;
      && (n in m ==> n in r && r[n] == DefaultValues(m[n]))
      && (n !in m ==> (n in r <==> n in base) && (n in base ==> r[n] == base[n]))
    decreases |os|
  {
    var base' := if os[0].name in m then base[os[0].name := DefaultValues(m[os[0].name])] else base;
    var rest := os[1..];
    forall a, b | 0 <= a < b < |rest| ensures rest[a].name != rest[b].name {
      assert rest[a] == os[a + 1] && rest[b] == os[b + 1];
    }
    if i == 0 {
      forall k | 0 <= k < |rest| ensures rest[k].name != os[0].name {
        assert rest[k] == os[k + 1];
      }
      LongMapKeeps(rest, m, base', os[0].name);
    } else {
      assert rest[i - 1] == os[i];
      LongMapAt(rest, m, base', i - 1);
    }
  }

  // ---------------------------------------------------------------------
  // Options bind again to what they bound

  /** What a bound option holds: null only for a flag, a string only for a single value, a non-empty list only when COMPLEX. */
  lemma BoundShape(o: Option, input: Input)
    requires WellFormedOption(o) && BindOption(o, input).Ok? && BindOption(o, input).value.Bound?
    ensures var v := BindOption(o, input).value.value;
      && (v.Null? ==> !o.AcceptValue() && o.default.Null?)
      && (v.Some? && v.value.Str? ==> o.AcceptValue() && !o.IsComplex())
      && (v.Some? && v.value.List? ==> o.AcceptValue() && o.IsComplex() && v.value.items != [])
  {
    HasOptionIffValues(input, o);
  }

  /** Given exactly its bound value as a long-option list (and no shortcuts), an option binds the same again. */
  lemma Rebind(o: Option, input: Input, input': Input)
    requires WellFormedOption(o) && BindOption(o, input).Ok?
    requires input'.parsed.shortOptions == map[]
    requires BindOption(o, input).value.Bound? ==>
      o.name in input'.parsed.longOptions
      && input'.parsed.longOptions[o.name] == DefaultValues(BindOption(o, input).value.value)
    requires BindOption(o, input).value.Unbound? ==> o.name !in input'.parsed.longOptions
    ensures BindOption(o, input') == BindOption(o, input)
  {
    HasOptionIffValues(input', o);
    if BindOption(o, input).value.Bound? {
      BoundShape(o, input);
    }
  }

  lemma OptionRebound(d: Definition, input: Input, input': Input, i: int)
    requires Valid(d) && WellFormedArguments(d) && Resolve(d, input).Ok? && 0 <= i < |d.options|
    requires input'.parsed.longOptions == LongMap(d.options, Resolve(d, input).value.options, map[])
    requires input'.parsed.shortOptions == map[]
    ensures BindOption(d.options[i], input') == BindOption(d.options[i], input)
  {
    ResolveOption(d, input, i);
    LongMapAt(d.options, Resolve(d, input).value.options, map[], i);
    Rebind(d.options[i], input, input');
  }

  // ---------------------------------------------------------------------
  // Parameters bind again to what they bound

  /** The value a token list gives the parameter at `i`: one token, or all from `i` on when COMPLEX. */
  function TokenValue(p: Parameter, i: nat, tokens: seq<string>): Nullable<Value>
    requires i < |tokens|
  {
    if p.IsComplex() then Some(List(tokens[i..])) else Some(Str(tokens[i]))
  }

  /** How `resolve` fills the parameter at `i` from the tokens: its token value, else its default when that is not null. */
  predicate SlotBound(p: Parameter, i: nat, tokens: seq<string>, m: map<string, Nullable<Value>>) {
    if i < |tokens| then p.name in m && m[p.name] == TokenValue(p, i, tokens)
    else (p.name in m <==> p.default.Some?) && (p.name in m ==> m[p.name] == p.default)
  }

  /** Every parameter slot is filled as `resolve` fills it, under a definition's parameter rules. */
  ghost predicate Resolved(ps: seq<Parameter>, tokens: seq<string>, m: map<string, Nullable<Value>>) {
    && ComplexLast(ps)
    && (forall i :: 0 <= i < |ps| ==> WellFormedParameter(ps[i]) && SlotBound(ps[i], i, tokens, m))
  }

  lemma ResolvedParameters(d: Definition, input: Input)
    requires Valid(d) && WellFormedArguments(d) && Resolve(d, input).Ok?
    ensures Resolved(d.parameters, input.parsed.parameters, Resolve(d, input).value.parameters)
  {
    forall i | 0 <= i < |d.parameters|
      ensures SlotBound(d.parameters[i], i, input.parsed.parameters, Resolve(d, input).value.parameters)
    {
      ResolveParameter(d, input, i);
    }
  }

  /** What a held parameter stores: a string when single-valued, a non-empty list when COMPLEX. */
  lemma ParameterShape(p: Parameter, i: nat, tokens: seq<string>, m: map<string, Nullable<Value>>)
    requires WellFormedParameter(p) && SlotBound(p, i, tokens, m) && p.name in m
    ensures m[p.name].Some?
    ensures p.IsComplex() ==> m[p.name].value.List? && m[p.name].value.items != []
    ensures !p.IsComplex() ==> m[p.name].value.Str?
  {
  }

  /** Dropping `i` single-valued parameters drops their `i` tokens. */
  lemma {:induction false} ParameterTokensDrop(ps: seq<Parameter>, m: map<string, Nullable<Value>>, i: int)
    requires 0 <= i <= |ps|
    requires forall j :: 0 <= j < i ==> ps[j].name in m && m[ps[j].name].Some? && m[ps[j].name].value.Str?
    ensures |ParameterTokens(ps, m)| >= i
    ensures ParameterTokens(ps, m)[i..] == ParameterTokens(ps[i..], m)
    ensures forall j :: 0 <= j < i ==> ParameterTokens(ps, m)[j] == m[ps[j].name].value.s
    decreases i
  {
    if i > 0 {
      var tail := ps[1..];
      forall j | 0 <= j < i - 1
        ensures tail[j].name in m && m[tail[j].name].Some? && m[tail[j].name].value.Str?
      {
        assert tail[j] == ps[j + 1];
      }
      ParameterTokensDrop(tail, m, i - 1);
      var head := m[ps[0].name].value.s;
      assert DefaultValues(m[ps[0].name]) == [head];
      var t := ParameterTokens(ps, m);
      assert t == [head] + ParameterTokens(tail, m);
      assert tail[i - 1..] == ps[i..];
      forall j | 0 <= j < i ensures t[j] == m[ps[j].name].value.s {
        if j > 0 {
          assert tail[j - 1] == ps[j];
        }
      }
    } else {
      assert ps[0..] == ps;
    }
  }

  /** With COMPLEX only last, every parameter before `s` is single-valued. */
  lemma SinglesBefore(ps: seq<Parameter>, s: int)
    requires ComplexLast(ps) && 0 <= s <= |ps|
    requires s == |ps| && ps != [] ==> !ps[|ps| - 1].IsComplex()
    ensures forall j :: 0 <= j < s ==> !ps[j].IsComplex()
  {
  }

  /** The held single-valued parameters before `s` have one token each. */
  lemma EncodedSingles(ps: seq<Parameter>, tokens: seq<string>, m: map<string, Nullable<Value>>, s: int)
    requires Resolved(ps, tokens, m) && 0 <= s <= FirstAbsent(ps, m)
    requires s == |ps| && ps != [] ==> !ps[|ps| - 1].IsComplex()
    ensures var t := ParameterTokens(ps, m);
      && |t| >= s
      && t[s..] == ParameterTokens(ps[s..], m)
      && forall j :: 0 <= j < s ==> !ps[j].IsComplex() && m[ps[j].name] == Some(Str(t[j]))
  {
    SinglesBefore(ps, s);
    forall j | 0 <= j < s ensures ps[j].name in m && m[ps[j].name].Some? && m[ps[j].name].value.Str? {
      ParameterShape(ps[j], j, tokens, m);
    }
    ParameterTokensDrop(ps, m, s);
  }

  /** The tokens of a held last parameter are its stored value's strings. */
  lemma LastTokens(ps: seq<Parameter>, m: map<string, Nullable<Value>>)
    requires ps != [] && ps[|ps| - 1].name in m
    ensures ParameterTokens(ps[|ps| - 1..], m) == DefaultValues(m[ps[|ps| - 1].name])
  {
    var last := ps[|ps| - 1..];
    assert last[0] == ps[|ps| - 1] && last[1..] == [];
  }

  /** When every parameter is held and the last is COMPLEX, its list is the encoding's tail. */
  lemma EncodedComplexLast(ps: seq<Parameter>, tokens: seq<string>, m: map<string, Nullable<Value>>)
    requires Resolved(ps, tokens, m)
    requires ps != [] && FirstAbsent(ps, m) == |ps| && ps[|ps| - 1].IsComplex()
    ensures var t := ParameterTokens(ps, m); var s := |ps| - 1;
      s < |t| && m[ps[s].name] == Some(List(t[s..]))
  {
    var s := |ps| - 1;
    EncodedSingles(ps, tokens, m, s);
    ParameterShape(ps[s], s, tokens, m);
    LastTokens(ps, m);
  }

  /** When some parameter is not held, the encoding stops there, and there was no token for it. */
  lemma EncodedAbsent(ps: seq<Parameter>, tokens: seq<string>, m: map<string, Nullable<Value>>)
    requires Resolved(ps, tokens, m) && FirstAbsent(ps, m) < |ps|
    ensures var k := FirstAbsent(ps, m); |ParameterTokens(ps, m)| == k && k >= |tokens|
  {
    var k := FirstAbsent(ps, m);
    EncodedSingles(ps, tokens, m, k);
    assert ps[k..][0] == ps[k];
    assert SlotBound(ps[k], k, tokens, m);
  }

  /**
   * Where the `i`-th parameter's encoded tokens are: within the encoding
   * they give exactly its stored value, and past the encoding there was no
   * token for it in the first place.
   */
  lemma EncodedParameterAt(ps: seq<Parameter>, tokens: seq<string>, m: map<string, Nullable<Value>>, i: nat)
    requires Resolved(ps, tokens, m) && i < |ps|
    ensures var t := ParameterTokens(ps, m);
      && (i < |t| ==> ps[i].name in m && m[ps[i].name] == TokenValue(ps[i], i, t))
      && (i >= |t| ==> i >= |tokens|)
  {
    var k := FirstAbsent(ps, m);
    if k < |ps| {
      EncodedAbsent(ps, tokens, m);
      if i < k {
        EncodedSingles(ps, tokens, m, k);
      }
    } else if ps[|ps| - 1].IsComplex() {
      if i < |ps| - 1 {
        EncodedSingles(ps, tokens, m, |ps| - 1);
      } else {
        EncodedComplexLast(ps, tokens, m);
      }
    } else {
      EncodedSingles(ps, tokens, m, k);
    }
  }

  /** The encoding has at least as many positionals as the definition requires. */
  lemma EncodedCount(d: Definition, input: Input)
    requires Valid(d) && WellFormedArguments(d) && Resolve(d, input).Ok?
    ensures |ParameterTokens(d.parameters, Resolve(d, input).value.parameters)| >= d.requiredParameterCount
  {
    RequiredArePrefix(d.parameters);
    var rc := d.requiredParameterCount;
    if rc > 0 {
      ResolvedParameters(d, input);
      EncodedParameterAt(d.parameters, input.parsed.parameters, Resolve(d, input).value.parameters, rc - 1);
    }
  }

  /** Resolving the encoding fills each parameter slot exactly as before. */
  lemma ParameterRebound(ps: seq<Parameter>, tokens: seq<string>, m: map<string, Nullable<Value>>,
                         m': map<string, Nullable<Value>>, i: nat)
    requires Resolved(ps, tokens, m) && Resolved(ps, ParameterTokens(ps, m), m') && i < |ps|
    ensures var n := ps[i].name; (n in m' <==> n in m) && (n in m ==> m'[n] == m[n])
  {
    EncodedParameterAt(ps, tokens, m, i);
    assert SlotBound(ps[i], i, tokens, m);
    assert SlotBound(ps[i], i, ParameterTokens(ps, m), m');
  }

  // ---------------------------------------------------------------------
  // The round trip

  /** Two fillings of the same slots, each holding declared names only, are the same map. */
  lemma ParametersAgain(ps: seq<Parameter>, tokens: seq<string>, m: map<string, Nullable<Value>>,
                        m': map<string, Nullable<Value>>)
    requires Resolved(ps, tokens, m) && Resolved(ps, ParameterTokens(ps, m), m')
    requires forall n :: n in m ==> NamesParameter(ps, n)
    requires forall n :: n in m' ==> NamesParameter(ps, n)
    ensures m' == m
  {
    forall n ensures (n in m' <==> n in m) && (n in m ==> m'[n] == m[n]) {
      if NamesParameter(ps, n) {
        var i :| 0 <= i < |ps| && ps[i].name == n;
        ParameterRebound(ps, tokens, m, m', i);
      }
    }
  }

  /** Every option of `d` binds in `input'` exactly as in `input`. */
  ghost predicate SameBindings(d: Definition, input: Input, input': Input) {
    forall i :: 0 <= i < |d.options| ==> BindOption(d.options[i], input') == BindOption(d.options[i], input)
  }

  lemma BindingsAgain(d: Definition, input: Input, input': Input)
    requires Valid(d) && WellFormedArguments(d) && Resolve(d, input).Ok?
    requires input'.parsed.longOptions == LongMap(d.options, Resolve(d, input).value.options, map[])
    requires input'.parsed.shortOptions == map[]
    ensures SameBindings(d, input, input')
  {
    forall i | 0 <= i < |d.options| ensures BindOption(d.options[i], input') == BindOption(d.options[i], input) {
      OptionRebound(d, input, input', i);
    }
  }

  /** Under the same bindings, both resolves store the same options. */
  lemma OptionsAgain(d: Definition, input: Input, input': Input)
    requires Valid(d) && Resolve(d, input).Ok? && Resolve(d, input').Ok? && SameBindings(d, input, input')
    ensures Resolve(d, input').value.options == Resolve(d, input).value.options
  {
    var o := Resolve(d, input).value.options;
    var o' := Resolve(d, input').value.options;
    forall n ensures (n in o' <==> n in o) && (n in o ==> o'[n] == o[n]) {
      if NamesOption(d.options, n) {
        var i :| 0 <= i < |d.options| && d.options[i].name == n;
        ResolveOption(d, input, i);
        ResolveOption(d, input', i);
      }
    }
  }

  /**
   * Under a valid definition of well-formed arguments whose option names
   * have no `=`, a resolved `Concrete` whose values never start with `-`
   * writes out to a command line that parses and resolves to that same
   * `Concrete`.
   */
  lemma RoundTrip(d: Definition, input: Input)
    requires Valid(d) && WellFormedArguments(d)
    requires forall i :: 0 <= i < |d.options| ==> '=' !in d.options[i].name
    requires Resolve(d, input).Ok?
    requires BareValues(Resolve(d, input).value.parameters) && BareValues(Resolve(d, input).value.options)
    ensures Parse(Encode(d, Resolve(d, input).value)).Ok?
    ensures Resolve(d, Parse(Encode(d, Resolve(d, input).value)).value) == Resolve(d, input)
  {
    var c := Resolve(d, input).value;
    forall i | 0 <= i < |d.options| ensures LongSpellable(d.options[i]) {
      assert WellFormedOption(d.options[i]);
    }
    EncodeParses(d, c);
    var input' := Parse(Encode(d, c)).value;
    EncodedCount(d, input);
    BindingsAgain(d, input, input');
    assert Resolve(d, input').Ok?;
    var c' := Resolve(d, input').value;
    ResolvedParameters(d, input);
    ResolvedParameters(d, input');
    ParametersAgain(d.parameters, input.parsed.parameters, c.parameters, c'.parameters);
    OptionsAgain(d, input, input');
  }
}
