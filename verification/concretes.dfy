/** `Concrete`: the resolved, read-only name → value maps of one invocation. */
module Concretes {
  import opened Wrappers
  import opened Arguments

  /** A key may be present and mapped to null; that is different from an absent key. */
  datatype Concrete = Concrete(parameters: map<string, Nullable<Value>>, options: map<string, Nullable<Value>>)

  /** `hasParameter(name)`: `key_exists`, so true for a key mapped to null. */
  predicate HasParameter(c: Concrete, name: string) {
    name in c.parameters
  }

  /** `getParameter(name)`: the stored value, or null for an absent key. */
  function GetParameter(c: Concrete, name: string): (r: Nullable<Value>)
    ensures r.Some? ==> HasParameter(c, name)
    ensures !HasParameter(c, name) ==> r.Null?
    ensures HasParameter(c, name) ==> r == c.parameters[name]
  {
    if name in c.parameters then c.parameters[name] else Null
  }

  /** `hasOption(name)` */
  predicate HasOption(c: Concrete, name: string) {
    name in c.options
  }

  /** `getOption(name)` */
  function GetOption(c: Concrete, name: string): (r: Nullable<Value>)
    ensures r.Some? ==> HasOption(c, name)
    ensures !HasOption(c, name) ==> r.Null?
    ensures HasOption(c, name) ==> r == c.options[name]
  {
    if name in c.options then c.options[name] else Null
  }

  /** A null from a getter does not mean the key is absent: only `has*` tells the two apart. */
  lemma NullIsNotAbsence()
    ensures var c := Concrete(map["flag" := Null], map["verbose" := Null]);
      && HasParameter(c, "flag") && GetParameter(c, "flag").Null?
      && HasOption(c, "verbose") && GetOption(c, "verbose").Null?
      && !HasParameter(c, "other") && GetParameter(c, "other").Null?
  {
  }
}
