/**
 * `Definition::resolve`: binds the parsed tokens of an `Input` to the
 * parameters and options of a `Definition`, producing a `Concrete`.
 */
module Resolution {
  import opened Wrappers
  import opened Errors
  import opened Arguments
  import opened Inputs
  import opened Definitions
  import Concretes

  /** The names a sequence of parameters declares. */
  predicate NamesParameter(ps: seq<Parameter>, name: string) {
    exists i :: 0 <= i < |ps| && ps[i].name == name
  }

  lemma ParameterTail(ps: seq<Parameter>)
    requires ps != []
    ensures forall k :: 0 <= k < |ps| - 1 ==> ps[1..][k] == ps[k + 1]
    ensures forall name :: NamesParameter(ps[1..], name) ==> NamesParameter(ps, name)
    ensures forall name :: NamesParameter(ps, name) && name != ps[0].name ==> NamesParameter(ps[1..], name)
  {
    forall name | NamesParameter(ps, name) && name != ps[0].name ensures NamesParameter(ps[1..], name) {
      var i :| 0 <= i < |ps| && ps[i].name == name;
      assert ps[1..][i - 1] == ps[i];
    }
  }

  /**
   * The parameter loop: `position` advances by one per parameter while
   * tokens remain; after that a non-null default is stored and a null one
   * leaves the name out.
   */
  function BindParameters(ps: seq<Parameter>, input: Input, position: int, acc: map<string, Nullable<Value>>)
    : (r: map<string, Nullable<Value>>)
    ensures forall name :: name in r ==> name in acc || NamesParameter(ps, name)
    decreases |ps|
  {
    if ps == [] then acc
    else
      var p := ps[0];
      var r :=
        if position < |input.parsed.parameters| then
          BindParameters(ps[1..], input, position + 1, acc[p.name := GetParameterValue(input, position, p.IsComplex())])
        else if p.default.Some? then BindParameters(ps[1..], input, position, acc[p.name := p.default])
        else BindParameters(ps[1..], input, position, acc);
      ParameterTail(ps);
      r
  }

  /** Names the loop does not visit keep whatever the accumulator held. */
  lemma {:induction false} BindKeeps(ps: seq<Parameter>, input: Input, position: int, acc: map<string, Nullable<Value>>, name: string)
    requires !NamesParameter(ps, name)
    ensures var r := BindParameters(ps, input, position, acc);
      (name in r <==> name in acc) && (name in acc ==> r[name] == acc[name])
    decreases |ps|
  {
    if ps != [] {
      ParameterTail(ps);
      var p := ps[0];
      if position < |input.parsed.parameters| {
        BindKeeps(ps[1..], input, position + 1, acc[p.name := GetParameterValue(input, position, p.IsComplex())], name);
      } else if p.default.Some? {
        BindKeeps(ps[1..], input, position, acc[p.name := p.default], name);
      } else {
        BindKeeps(ps[1..], input, position, acc, name);
      }
    }
  }

  /**
   * The `i`-th parameter takes token `position + i` (all the rest of the
   * tokens when COMPLEX) while tokens remain, and its default otherwise.
   */
  lemma {:induction false} BindSlot(ps: seq<Parameter>, input: Input, position: int, acc: map<string, Nullable<Value>>, i: int)
    requires 0 <= position <= |input.parsed.parameters|
    requires 0 <= i < |ps| && DistinctParameterNames(ps)
    ensures var r := BindParameters(ps, input, position, acc); var p := ps[i];
      && (position + i < |input.parsed.parameters| ==>
            p.name in r && r[p.name] == GetParameterValue(input, position + i, p.IsComplex()))
      && (position + i >= |input.parsed.parameters| && p.default.Some? ==> p.name in r && r[p.name] == p.default)
      && (position + i >= |input.parsed.parameters| && p.default.Null? ==>
            (p.name in r <==> p.name in acc) && (p.name in acc ==> r[p.name] == acc[p.name]))
    decreases |ps|
  {
    var p := ps[0];
    var rest := ps[1..];
    DistinctTail(ps);
    var given := |input.parsed.parameters|;
    var position' := if position < given then position + 1 else position;
    var acc' :=
      if position < given then acc[p.name := GetParameterValue(input, position, p.IsComplex())]
      else if p.default.Some? then acc[p.name := p.default]
      else acc;
    assert BindParameters(ps, input, position, acc) == BindParameters(rest, input, position', acc');
    if i == 0 {
      BindKeeps(rest, input, position', acc', p.name);
    } else {
      BindSlot(rest, input, position', acc', i - 1);
    }
  }

  /** Distinct names stay distinct in the tail, and none of them is the head's. */
  lemma DistinctTail(ps: seq<Parameter>)
    requires ps != [] && DistinctParameterNames(ps)
    ensures DistinctParameterNames(ps[1..])
    ensures forall k :: 0 <= k < |ps| - 1 ==> ps[1..][k] == ps[k + 1] && ps[k + 1].name != ps[0].name
    ensures !NamesParameter(ps[1..], ps[0].name)
  {
    var rest := ps[1..];
    forall a, b | 0 <= a < b < |rest| ensures rest[a].name != rest[b].name {
      assert rest[a] == ps[a + 1] && rest[b] == ps[b + 1];
    }
  }

  /** What one option contributes: nothing, or a value (possibly null) stored under its name. */
  datatype Binding = Unbound | Bound(value: Nullable<Value>)

  /**
   * The option loop body: absent → the non-null default; present without
   * values → the default, or an error for a REQUIRED option; present with
   * values → all of them (COMPLEX), the first (single value) or null (flag).
   */
  function BindOption(o: Option, input: Input): (r: Result<Binding>)
    ensures r.Err? <==> HasOption(input, o) && GetOptionValues(input, o).value == [] && o.IsRequired()
    ensures r.Err? ==> r.error == MissingOptionValue(o.name)
    ensures r == Ok(Unbound) <==> !HasOption(input, o) && o.default.Null?
    ensures HasOption(input, o) && GetOptionValues(input, o).value != [] && !o.AcceptValue() ==> r == Ok(Bound(Null))
    ensures HasOption(input, o) && GetOptionValues(input, o).value == [] && r.Ok? ==> r == Ok(Bound(o.default))
    ensures HasOption(input, o) && GetOptionValues(input, o).value != [] && o.AcceptValue() ==>
      r == Ok(Bound(var vs := GetOptionValues(input, o).value;
                    if o.IsComplex() then Some(List(vs)) else Some(Str(vs[0]))))
  {
    HasOptionIffValues(input, o);
    match GetOptionValues(input, o)
    case Null => if o.default.Some? then Ok(Bound(o.default)) else Ok(Unbound)
    case Some(vs) =>
      if vs == [] then (if o.IsRequired() then Err(MissingOptionValue(o.name)) else Ok(Bound(o.default)))
      else Ok(Bound(if o.AcceptValue() then (if o.IsComplex() then Some(List(vs)) else Some(Str(vs[0]))) else Null))
  }

  predicate NamesOption(os: seq<Option>, name: string) {
    exists i :: 0 <= i < |os| && os[i].name == name
  }

  lemma OptionTail(os: seq<Option>)
    requires os != []
    ensures forall k :: 0 <= k < |os| - 1 ==> os[1..][k] == os[k + 1]
    ensures forall name :: NamesOption(os[1..], name) ==> NamesOption(os, name)
    ensures forall name :: NamesOption(os, name) && name != os[0].name ==> NamesOption(os[1..], name)
  {
    forall name | NamesOption(os, name) && name != os[0].name ensures NamesOption(os[1..], name) {
      var i :| 0 <= i < |os| && os[i].name == name;
      assert os[1..][i - 1] == os[i];
    }
  }

  /** The option loop, stopping at the first exception. */
  function BindOptions(os: seq<Option>, input: Input, acc: map<string, Nullable<Value>>)
    : (r: Result<map<string, Nullable<Value>>>)
    ensures r.Ok? <==> forall i :: 0 <= i < |os| ==> BindOption(os[i], input).Ok?
    ensures r.Err? ==> exists i :: 0 <= i < |os| && BindOption(os[i], input) == Err(r.error)
    ensures r.Ok? ==> forall name :: name in r.value ==> name in acc || NamesOption(os, name)
    decreases |os|
  {
    if os == [] then Ok(acc)
    else
      var o := os[0];
      var b := BindOption(o, input);
      if b.Err? then Err(b.error)
      else
        var r := BindOptions(os[1..], input, if b.value.Bound? then acc[o.name := b.value.value] else acc);
        OptionTail(os);
        r
  }

  lemma {:induction false} BindOptionsKeep(os: seq<Option>, input: Input, acc: map<string, Nullable<Value>>, name: string)
    requires !NamesOption(os, name) && BindOptions(os, input, acc).Ok?
    ensures var r := BindOptions(os, input, acc).value;
      (name in r <==> name in acc) && (name in acc ==> r[name] == acc[name])
    decreases |os|
  {
    if os != [] {
      var o := os[0];
      var b := BindOption(o, input);
      OptionTail(os);
      BindOptionsKeep(os[1..], input, if b.value.Bound? then acc[o.name := b.value.value] else acc, name);
    }
  }

  /** Each option's entry in the result is exactly what its own binding says. */
  lemma {:induction false} BindOptionsSlot(os: seq<Option>, input: Input, acc: map<string, Nullable<Value>>, i: int)
    requires 0 <= i < |os| && DistinctOptionNames(os) && BindOptions(os, input, acc).Ok?
    ensures var r := BindOptions(os, input, acc).value; var o := os[i]; var b := BindOption(o, input).value;
      && (b.Bound? ==> o.name in r && r[o.name] == b.value)
      && (b.Unbound? ==> (o.name in r <==> o.name in acc) && (o.name in acc ==> r[o.name] == acc[o.name]))
    decreases |os|
  {
    var o := os[0];
    var rest := os[1..];
    var b := BindOption(o, input);
    var acc' := if b.value.Bound? then acc[o.name := b.value.value] else acc;
    assert BindOptions(os, input, acc) == BindOptions(rest, input, acc');
    assert DistinctOptionNames(rest) by {
      forall a, c | 0 <= a < c < |rest| ensures rest[a].name != rest[c].name {
        assert rest[a] == os[a + 1] && rest[c] == os[c + 1];
      }
    }
    if i == 0 {
      forall k | 0 <= k < |rest| ensures rest[k].name != o.name {
        assert rest[k] == os[k + 1];
      }
      BindOptionsKeep(rest, input, acc', o.name);
    } else {
      BindOptionsSlot(rest, input, acc', i - 1);
      assert rest[i - 1] == os[i];
      assert os[i].name != o.name;
    }
  }

  /** `resolve(input)` */
  function Resolve(d: Definition, input: Input): (r: Result<Concretes.Concrete>)
    ensures r.Err? ==> r.error.Kind() == Runtime
    ensures |input.parsed.parameters| < d.requiredParameterCount ==>
      r == Err(TooFewParameters(d.requiredParameterCount, |input.parsed.parameters|))
    ensures r.Ok? <==>
      && |input.parsed.parameters| >= d.requiredParameterCount
      && forall i :: 0 <= i < |d.options| ==> BindOption(d.options[i], input).Ok?
    ensures r.Err? && |input.parsed.parameters| >= d.requiredParameterCount ==>
      exists i :: 0 <= i < |d.options| && r.error == MissingOptionValue(d.options[i].name)
    ensures r.Ok? ==> forall name :: name in r.value.parameters ==> NamesParameter(d.parameters, name)
    ensures r.Ok? ==> forall name :: name in r.value.options ==> NamesOption(d.options, name)
  {
    var given := |input.parsed.parameters|;
    if given < d.requiredParameterCount then Err(TooFewParameters(d.requiredParameterCount, given))
    else
      var parameters := BindParameters(d.parameters, input, 0, map[]);
      var options :- BindOptions(d.options, input, map[]);
      Ok(Concretes.Concrete(parameters, options))
  }

  /**
   * Under a valid definition, the `i`-th parameter gets the `i`-th token
   * (or, when COMPLEX, all tokens from the `i`-th on) if there are enough
   * tokens, and otherwise its default, absent when the default is null.
   */
  lemma ResolveParameter(d: Definition, input: Input, i: int)
    requires Valid(d) && 0 <= i < |d.parameters| && Resolve(d, input).Ok?
    ensures var c := Resolve(d, input).value; var p := d.parameters[i]; var tokens := input.parsed.parameters;
      && (i < |tokens| && p.IsComplex() ==> Concretes.HasParameter(c, p.name) && Concretes.GetParameter(c, p.name) == Some(List(tokens[i..])))
      && (i < |tokens| && !p.IsComplex() ==> Concretes.HasParameter(c, p.name) && Concretes.GetParameter(c, p.name) == Some(Str(tokens[i])))
      && (i >= |tokens| ==> (Concretes.HasParameter(c, p.name) <==> p.default.Some?) && Concretes.GetParameter(c, p.name) == p.default)
  {
    BindSlot(d.parameters, input, 0, map[], i);
  }

  /** Under a valid definition a successful resolve binds every REQUIRED parameter. */
  lemma ResolveBindsRequired(d: Definition, input: Input, i: int)
    requires Valid(d) && 0 <= i < |d.parameters| && d.parameters[i].IsRequired() && Resolve(d, input).Ok?
    ensures Concretes.HasParameter(Resolve(d, input).value, d.parameters[i].name)
    ensures Concretes.GetParameter(Resolve(d, input).value, d.parameters[i].name).Some?
  {
    RequiredArePrefix(d.parameters);
    ResolveParameter(d, input, i);
  }

  /** Under a valid definition each option's entry is exactly its binding. */
  lemma ResolveOption(d: Definition, input: Input, i: int)
    requires Valid(d) && 0 <= i < |d.options| && Resolve(d, input).Ok?
    ensures var c := Resolve(d, input).value; var o := d.options[i];
      match BindOption(o, input).value
      case Unbound => !Concretes.HasOption(c, o.name)
      case Bound(v) => Concretes.HasOption(c, o.name) && Concretes.GetOption(c, o.name) == v
  {
    BindOptionsSlot(d.options, input, map[], i);
  }
}
