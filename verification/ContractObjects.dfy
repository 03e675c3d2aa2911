/**
 * The finished contract as the objects that requests are projected from (cmd/workflowcontractgen/main.go): the walk of
 * `SchemaBuilder` leaves what `SchemaProjection` works on.
 */
module ContractObjects {
  import opened Text
  import B = SchemaBuilder
  import P = SchemaProjection

  /** The object and those at its properties, at any depth, hold the schema; they all lie in `heap`. */
  ghost predicate Holds(o: P.Schema, s: B.Schema, heap: set<P.Schema>)
    reads heap
    decreases s
  {
    && o in heap && o.ref == s.ref && o.properties.Keys == s.properties.Keys && o.required == s.required
    && forall k :: k in s.properties ==> Holds(o.properties[k], s.properties[k], heap)
  }

  /** Where the property names lead in a schema. */
  function Inside(s: B.Schema, path: seq<string>): Option<B.Schema> {
    if path == [] then Some(s)
    else if path[0] in s.properties then Inside(s.properties[path[0]], path[1..])
    else None
  }

  ghost predicate HoldsPart(contract: map<string, B.Schema>, o: P.Schema, heap: set<P.Schema>)
    reads heap
  {
    exists n, path :: n in contract && HoldsInside(o, contract[n], path, heap)
  }

  ghost predicate HoldsInside(o: P.Schema, s: B.Schema, path: seq<string>, heap: set<P.Schema>)
    reads heap
  {
    Inside(s, path).Some? && Holds(o, Inside(s, path).value, heap)
  }

  /** The contract lies in `heap`, with nothing else: every object holds a part of it. Objects may be shared. */
  ghost predicate Stored(contract: map<string, B.Schema>, schemas: map<string, P.Schema>, heap: set<P.Schema>)
    reads heap
  {
    && schemas.Keys == contract.Keys
    && (forall n :: n in contract ==> Holds(schemas[n], contract[n], heap))
    && forall o :: o in heap ==> HoldsPart(contract, o, heap)
  }

  lemma {:induction false} InsideRefs(s: B.Schema, path: seq<string>, names: set<string>)
    requires B.RefsIn(s, names) && Inside(s, path).Some?
    ensures B.RefsIn(Inside(s, path).value, names)
    decreases |path|
  {
    if path != [] { InsideRefs(s.properties[path[0]], path[1..], names); }
  }

  /** The part of a reference after the prefix is the name it was made from. */
  lemma {:induction false} RefNameOfRef(name: string)
    requires '/' !in name
    ensures P.RefName(B.REF_PREFIX + name) == name
  {
    hide P.RefName;
    var components := "components/schemas/" + name;
    var rest := "schemas/" + name;
    NoSlash(name);
    AfterSlash("#", components);
    AfterSlash("components", rest);
    AfterSlash("schemas", name);
    assert B.REF_PREFIX + name == "#" + ("/" + components);
    assert components == "components" + ("/" + rest) && rest == "schemas" + ("/" + name);
  }

  lemma NoSlash(name: string)
    requires '/' !in name
    ensures P.RefName(name) == name
  {
  }

  lemma {:induction false} AfterSlash(before: string, after: string)
    requires '/' !in before
    ensures P.RefName(before + ("/" + after)) == P.RefName(after)
  {
    var ref := before + ("/" + after);
    var i := FirstIndex(ref, P.IsSlash);
    assert ref[|before|] == '/' && forall k :: 0 <= k < |before| ==> ref[k] == before[k];
    assert i == |before|;
    assert ref[i + 1..] == after;
  }

  lemma {:induction false} NameHasNoSlash(s: string, keep: char -> bool)
    requires !keep('/')
    ensures '/' !in B.NameChars(s, keep)
  {
    if s != "" { NameHasNoSlash(s[1..], keep); }
  }

  /** Every name of a contract is made of letters, digits and underscores. */
  lemma {:induction false} ContractNames(u: B.Universe, starts: set<B.TypeId>, contract: map<string, B.Schema>,
          name: string)
    requires B.WellFormed(u) && B.Describes(u, starts, contract) && name in contract && !u.isNameChar('/')
    ensures '/' !in name
  {
    hide B.WellFormed, B.ReachedFrom, B.DefinitionOf;
    var t: B.TypeId :| t < |u.types| && B.ReachedFrom(u, starts, t) && B.SchemaName(u, t) == name;
    NameHasNoSlash(u.types[t].name, u.isNameChar);
  }

  /** An object of a stored contract keeps its properties in the heap, and its reference, if it is one, resolves. */
  lemma {:induction false} ObjectIsBuilt(contract: map<string, B.Schema>, o: P.Schema, heap: set<P.Schema>)
    requires HoldsPart(contract, o, heap)
    requires forall n :: n in contract ==> B.RefsIn(contract[n], contract.Keys) && '/' !in n
    ensures forall k :: k in o.properties ==> o.properties[k] in heap
    ensures o.ref != "" ==> P.RefName(o.ref) in contract && o.properties == map[]
  {
    hide B.RefsIn, P.RefName, Inside;
    var n, path :| n in contract && HoldsInside(o, contract[n], path, heap);
    var s := Inside(contract[n], path).value;
    InsideRefs(contract[n], path, contract.Keys);
    RefIsBare(s, contract.Keys);
    forall k | k in o.properties ensures o.properties[k] in heap {
      assert k in s.properties && Holds(o.properties[k], s.properties[k], heap);
    }
    if o.ref != "" {
      var m :| m in contract && o.ref == B.REF_PREFIX + m;
      RefNameOfRef(m);
    }
  }

  /** The objects of a finished contract are a graph that requests can be projected from. */
  lemma {:induction false} ContractIsBuilt(u: B.Universe, starts: set<B.TypeId>, contract: map<string, B.Schema>,
          schemas: map<string, P.Schema>, heap: set<P.Schema>)
    requires B.WellFormed(u) && B.FixedSchemasAreClosed(u) && B.Describes(u, starts, contract) && !u.isNameChar('/')
    requires forall t :: t in starts ==> t < |u.types| && B.IsRef(u.types[t])
    requires Stored(contract, schemas, heap)
    ensures P.Built(schemas, heap)
  {
    hide B.WellFormed, B.FixedSchemasAreClosed, B.Describes, B.RefsIn, P.RefName, HoldsPart;
    forall n | n in contract ensures B.RefsIn(contract[n], contract.Keys) && '/' !in n {
      B.EveryRefResolves(u, starts, contract, n);
      ContractNames(u, starts, contract, n);
    }
    forall o | o in heap
      ensures forall k :: k in o.properties ==> o.properties[k] in heap
      ensures o.ref != "" ==> P.RefName(o.ref) in schemas && o.properties == map[]
    {
      ObjectIsBuilt(contract, o, heap);
    }
    forall n | n in schemas && schemas[n].ref != "" ensures P.RefName(schemas[n].ref) == n {
      B.RegisteredRefIsItsOwn(u, starts, contract, n);
      RefNameOfRef(n);
    }
  }

  lemma RefIsBare(s: B.Schema, names: set<string>)
    requires B.RefsIn(s, names)
    ensures s.ref != "" ==> s.properties == map[] && exists m :: m in names && s.ref == B.REF_PREFIX + m
  {
  }
}
