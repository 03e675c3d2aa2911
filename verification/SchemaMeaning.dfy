/**
 * What the schemas of a finished contract accept, in terms of the Go types alone (cmd/workflowcontractgen/main.go): the
 * names, options and kinds that decide it are those of Go's JSON encoding.
 */
module SchemaMeaning {
  import opened Text
  import opened SchemaBuilder

  datatype Json =
    | JNull | JBool(b: bool) | JInteger(n: int) | JDecimal(text: string) | JText(s: string)
    | JArray(items: seq<Json>) | JObject(members: map<string, Json>)

  // ---- Validation (JSON Schema 2020-12, as far as the builder uses it) ----

  predicate OfType(kind: string, j: Json) {
    match kind
    case "" => true
    case "null" => j.JNull?
    case "boolean" => j.JBool?
    case "integer" => j.JInteger?
    case "number" => j.JInteger? || j.JDecimal?
    case "string" => j.JText?
    case "array" => j.JArray?
    case _ => kind == "object" && j.JObject?
  }

  /** Everything a schema asks for but alternatives and references. */
  ghost predicate BodyAccepts(schemas: map<string, Schema>, s: Schema, j: Json)
    decreases j, 0
  {
    && OfType(s.kind, j)
    && (s.enumeration != [] ==> j.JText? && j.s in s.enumeration)
    && (j.JInteger? ==> (s.minimum.Some? ==> j.n >= s.minimum.value) && (s.maximum.Some? ==> j.n <= s.maximum.value))
    && (j.JArray? && s.items.Some? ==>
        forall i :: 0 <= i < |j.items| ==> Accepts(schemas, s.items.value, j.items[i]))
    && (j.JObject? ==>
        && (forall r :: r in s.required ==> r in j.members)
        && (forall k :: k in j.members && k in s.properties ==> Accepts(schemas, s.properties[k], j.members[k]))
        && (s.additional.Some? ==>
            forall k :: k in j.members && k !in s.properties ==> Accepts(schemas, s.additional.value, j.members[k])))
  }

  /** A registered schema that only refers to itself describes nothing, so that it accepts everything. */
  ghost predicate Accepts(schemas: map<string, Schema>, s: Schema, j: Json)
    decreases j, 1, s
  {
    if s.ref != "" then
      && HasPrefix(s.ref, REF_PREFIX) && s.ref[|REF_PREFIX|..] in schemas
      && var target := schemas[s.ref[|REF_PREFIX|..]];
         target.ref != "" || (target.anyOf == [] && BodyAccepts(schemas, target, j))
    else
      && BodyAccepts(schemas, s, j)
      && (s.anyOf != [] ==> exists i :: 0 <= i < |s.anyOf| && Accepts(schemas, s.anyOf[i], j))
  }

  // ---- The members that Go encodes ----

  /** The field has no member of its own: it is not exported, or its tag is "-" alone. */
  predicate Unencoded(f: Field) { !f.exported || (f.jsonName == "-" && f.options == {}) }

  /** The fields of an embedded struct count as those of the struct around it, unless the tag names the field. */
  predicate Flattened(u: Universe, f: Field)
    requires InRange(u) && f.fieldType < |u.types|
  {
    f.anonymous && f.jsonName == "" && u.types[Indirect(u, f.fieldType)].kind.Struct?
  }

  /**
   * Where the builder and the encoding read tags alike: no embedded struct of an unexported type, no tag "-," and no
   * schema written by hand; enumerations are of strings.
   */
  ghost predicate Regular(u: Universe)
    requires WellFormed(u)
  {
    forall t :: 0 <= t < |u.types| ==>
      && (u.types[t].rule.Standard? || (u.types[t].rule.Enumerated? && u.types[t].kind.String?
                                        && u.types[t].rule.values != []))
      && (u.types[t].kind.Struct? ==> forall f :: f in u.types[t].kind.fields ==>
            && (Flattened(u, f) ==> f.exported)
            && (f.jsonName == "-" ==> f.options == {}))
  }

  function MemberName(f: Field): string { if f.jsonName != "" then f.jsonName else f.name }

  /** Every encoding has the member, and it is not null for want of a pointer's target. */
  predicate AlwaysThere(u: Universe, f: Field)
    requires f.fieldType < |u.types|
  {
    !u.types[f.fieldType].kind.Pointer? && f.options !! {"omitempty", "omitzero"}
  }

  /** The encoded fields among the first `n` of a struct, those of embedded structs in their place. */
  ghost function Members(u: Universe, t: TypeId, n: nat): (r: seq<Field>)
    requires WellFormed(u) && Regular(u) && t < |u.types| && u.types[t].kind.Struct?
    requires n <= |u.types[t].kind.fields|
    ensures forall i :: 0 <= i < |r| ==> r[i].fieldType < |u.types|
    decreases u.order[t], n
  {
    if n == 0 then []
    else
      var f := u.types[t].kind.fields[n - 1];
      assert f in u.types[t].kind.fields;
      Members(u, t, n - 1)
      + if Unencoded(f) then []
        else if Flattened(u, f) then
          Members(u, Indirect(u, f.fieldType), |u.types[Indirect(u, f.fieldType)].kind.fields|)
        else [f]
  }

  ghost function AllMembers(u: Universe, t: TypeId): (r: seq<Field>)
    requires WellFormed(u) && Regular(u) && t < |u.types| && u.types[t].kind.Struct?
    ensures forall i :: 0 <= i < |r| ==> r[i].fieldType < |u.types|
  {
    Members(u, t, |u.types[t].kind.fields|)
  }

  ghost predicate DistinctNames(fields: seq<Field>) {
    forall i, j :: 0 <= i < j < |fields| ==> MemberName(fields[i]) != MemberName(fields[j])
  }

  /** The names of those members that are always there, in order. */
  function NamesOfAlways(u: Universe, fields: seq<Field>): seq<string>
    requires forall i :: 0 <= i < |fields| ==> fields[i].fieldType < |u.types|
  {
    if fields == [] then []
    else
      var last := fields[|fields| - 1];
      NamesOfAlways(u, fields[..|fields| - 1]) + if AlwaysThere(u, last) then [MemberName(last)] else []
  }

  // ---- The builder's object is made of these members ----

  ghost function Folded(u: Universe, acc: Schema, fields: seq<Field>): Schema
    requires WellFormed(u) && forall i :: 0 <= i < |fields| ==> fields[i].fieldType < |u.types|
  {
    if fields == [] then acc
    else
      var last := fields[|fields| - 1];
      WithProperty(u, Folded(u, acc, fields[..|fields| - 1]), last, InlineOf(u, last.fieldType))
  }

  lemma {:induction false} FoldedConcat(u: Universe, acc: Schema, a: seq<Field>, b: seq<Field>)
    requires WellFormed(u) && (forall i :: 0 <= i < |a| ==> a[i].fieldType < |u.types|)
    requires forall i :: 0 <= i < |b| ==> b[i].fieldType < |u.types|
    ensures forall i :: 0 <= i < |a + b| ==> (a + b)[i].fieldType < |u.types|
    ensures Folded(u, acc, a + b) == Folded(u, Folded(u, acc, a), b)
    decreases |b|
  {
    hide WellFormed, InlineOf, WithProperty;
    if b == [] {
      assert a + b == a;
    } else {
      assert (a + b)[..|a + b| - 1] == a + b[..|b| - 1];
      FoldedConcat(u, acc, a, b[..|b| - 1]);
    }
  }

  /** What is known of one field of a struct. */
  lemma FieldFacts(u: Universe, t: TypeId, n: nat)
    requires WellFormed(u) && Regular(u) && t < |u.types| && u.types[t].kind.Struct?
    requires n < |u.types[t].kind.fields|
    ensures var f := u.types[t].kind.fields[n];
      && f.fieldType < |u.types| && (Unencoded(f) <==> Skipped(f)) && InRange(u)
      && (Flattened(u, f) <==> Embedded(u, f))
      && (Flattened(u, f) ==> u.types[Indirect(u, f.fieldType)].kind.Struct?)
      && (!Unencoded(f) && Flattened(u, f) ==> u.order[Indirect(u, f.fieldType)] < u.order[t])
  {
    assert u.types[t].kind.fields[n] in u.types[t].kind.fields;
  }

  lemma {:induction false} FieldsAreMembers(u: Universe, acc: Schema, t: TypeId, n: nat)
    requires WellFormed(u) && Regular(u) && t < |u.types| && u.types[t].kind.Struct?
    requires n <= |u.types[t].kind.fields|
    ensures FieldsOf(u, acc, t, n) == Folded(u, acc, Members(u, t, n))
    decreases u.order[t], n
  {
    hide InlineOf, WithProperty, WellFormed, Regular, Flattened, Embedded, Unencoded, Skipped, Folded, InRange,
      IsRequired;
    if n == 0 {
      NothingFolded(u, acc);
    } else {
      FieldFacts(u, t, n - 1);
      var f := u.types[t].kind.fields[n - 1];
      var front := Members(u, t, n - 1);
      FieldsAreMembers(u, acc, t, n - 1);
      if Unencoded(f) {
        assert front + [] == front;
      } else if Flattened(u, f) {
        var e := Indirect(u, f.fieldType);
        FieldsAreMembers(u, FieldsOf(u, acc, t, n - 1), e, |u.types[e].kind.fields|);
        FoldedConcat(u, acc, front, AllMembers(u, e));
      } else {
        FoldedOne(u, acc, front, f);
      }
    }
  }

  lemma NothingFolded(u: Universe, acc: Schema)
    requires WellFormed(u)
    ensures Folded(u, acc, []) == acc
  {
  }

  lemma {:induction false} FoldedOne(u: Universe, acc: Schema, front: seq<Field>, f: Field)
    requires WellFormed(u) && f.fieldType < |u.types| && forall i :: 0 <= i < |front| ==> front[i].fieldType < |u.types|
    ensures forall i :: 0 <= i < |front + [f]| ==> (front + [f])[i].fieldType < |u.types|
    ensures Folded(u, acc, front + [f]) == WithProperty(u, Folded(u, acc, front), f, InlineOf(u, f.fieldType))
  {
    hide WellFormed, InlineOf, WithProperty;
    assert (front + [f])[..|front|] == front;
  }

  /** One more member. */
  lemma {:induction false} FoldedMore(u: Universe, fields: seq<Field>)
    requires WellFormed(u) && (forall i :: 0 <= i < |fields| ==> fields[i].fieldType < |u.types|) && fields != []
    ensures var last := fields[|fields| - 1];
      var before := Folded(u, Typed("object"), fields[..|fields| - 1]);
      Folded(u, Typed("object"), fields)
      == before.(properties := before.properties[MemberName(last) :=
                   if last.tsString then Typed("string") else InlineOf(u, last.fieldType)],
                 required := before.required + if AlwaysThere(u, last) then [MemberName(last)] else [])
  {
    hide WellFormed, InlineOf;
    var last := fields[|fields| - 1];
    var before := Folded(u, Typed("object"), fields[..|fields| - 1]);
    assert before.required + [] == before.required;
  }

  lemma {:induction false} FoldedShape(u: Universe, fields: seq<Field>)
    requires WellFormed(u) && forall i :: 0 <= i < |fields| ==> fields[i].fieldType < |u.types|
    ensures var s := Folded(u, Typed("object"), fields);
      s == Typed("object").(properties := s.properties, required := NamesOfAlways(u, fields))
    decreases |fields|
  {
    hide WellFormed, InlineOf, AlwaysThere, MemberName;
    if fields != [] {
      hide Folded;
      FoldedMore(u, fields);
      FoldedShape(u, fields[..|fields| - 1]);
    }
  }

  predicate HasName(fields: seq<Field>, name: string) {
    exists i :: 0 <= i < |fields| && MemberName(fields[i]) == name
  }

  lemma {:induction false} FoldedNames(u: Universe, fields: seq<Field>)
    requires WellFormed(u) && forall i :: 0 <= i < |fields| ==> fields[i].fieldType < |u.types|
    ensures forall k :: k in Folded(u, Typed("object"), fields).properties <==> HasName(fields, k)
    decreases |fields|
  {
    hide WellFormed, InlineOf, AlwaysThere, MemberName;
    if fields != [] {
      hide Folded;
      var front := fields[..|fields| - 1];
      FoldedMore(u, fields);
      FoldedNames(u, front);
      forall k ensures HasName(fields, k) <==> HasName(front, k) || k == MemberName(fields[|fields| - 1]) {
        OneMoreName(fields, k);
      }
    }
  }

  lemma {:induction false} OneMoreName(fields: seq<Field>, k: string)
    requires fields != []
    ensures HasName(fields, k) <==> HasName(fields[..|fields| - 1], k) || k == MemberName(fields[|fields| - 1])
  {
    hide MemberName;
    var front := fields[..|fields| - 1];
    if HasName(front, k) {
      var i :| 0 <= i < |front| && MemberName(front[i]) == k;
      assert MemberName(fields[i]) == k;
    }
    if HasName(fields, k) && k != MemberName(fields[|fields| - 1]) {
      var i :| 0 <= i < |fields| && MemberName(fields[i]) == k;
      assert front[i] == fields[i];
    }
  }

  lemma {:induction false} FoldedProperty(u: Universe, fields: seq<Field>, i: nat)
    requires WellFormed(u) && forall i :: 0 <= i < |fields| ==> fields[i].fieldType < |u.types|
    requires i < |fields| && DistinctNames(fields)
    ensures var s := Folded(u, Typed("object"), fields);
      && MemberName(fields[i]) in s.properties
      && s.properties[MemberName(fields[i])]
         == if fields[i].tsString then Typed("string") else InlineOf(u, fields[i].fieldType)
    decreases |fields|
  {
    hide WellFormed, InlineOf, AlwaysThere, MemberName, Folded;
    FoldedMore(u, fields);
    if i < |fields| - 1 {
      var front := fields[..|fields| - 1];
      assert front[i] == fields[i] && MemberName(fields[i]) != MemberName(fields[|fields| - 1]);
      FoldedProperty(u, front, i);
    }
  }

  /**
   * The schema of a struct has a property for exactly the members that its encodings can have, and requires exactly
   * those that are always there.
   */
  lemma {:induction false} StructSchemaExactly(u: Universe, t: TypeId)
    requires WellFormed(u) && Regular(u) && t < |u.types| && u.types[t].kind.Struct?
    ensures var s, fields := Finished(AllFieldsOf(u, t)), AllMembers(u, t);
      && (forall k :: k in s.properties <==> HasName(fields, k))
      && multiset(s.required) == multiset(NamesOfAlways(u, fields))
      && (DistinctNames(fields) ==> forall i :: 0 <= i < |fields| ==>
            MemberName(fields[i]) in s.properties
            && s.properties[MemberName(fields[i])]
               == if fields[i].tsString then Typed("string") else InlineOf(u, fields[i].fieldType))
  {
    hide WellFormed, InlineOf, AlwaysThere, MemberName, Folded, Members, FieldsOf, HasName;
    var fields := AllMembers(u, t);
    FieldsAreMembers(u, Typed("object"), t, |u.types[t].kind.fields|);
    FoldedShape(u, fields);
    FoldedNames(u, fields);
    if DistinctNames(fields) {
      forall i | 0 <= i < |fields|
        ensures MemberName(fields[i]) in Folded(u, Typed("object"), fields).properties
        ensures Folded(u, Typed("object"), fields).properties[MemberName(fields[i])]
          == if fields[i].tsString then Typed("string") else InlineOf(u, fields[i].fieldType)
      {
        FoldedProperty(u, fields, i);
      }
    }
  }

  // ---- What a type permits ----

  /** A named type of such a kind gets a schema that only refers to itself. */
  predicate SaysNothing(k: Kind) { k.Slice? || k.Array? || k.Map? || k.Interface? || k.Other? }

  /** Types with an encoding of their own: a time is a text, raw JSON may be anything. */
  predicate IsTime(i: TypeInfo) { i.name == "Time" && i.pkg == "time" }

  predicate IsRawJson(i: TypeInfo) { i.name == "RawMessage" && i.pkg == "encoding/json" }

  /** The JSON values that a Go type stands for. */
  ghost predicate Permits(u: Universe, t: TypeId, j: Json)
    requires WellFormed(u) && Regular(u) && t < |u.types|
    decreases j, Weight(u, t)
  {
    var i := u.types[t];
    if i.kind.Pointer? then j.JNull? || Permits(u, i.kind.elem, j)
    else if IsTime(i) then j.JText?
    else if IsRawJson(i) then true
    else if IsNamed(i) && SaysNothing(i.kind) then true
    else if IsNamed(i) && i.rule.Enumerated? then j.JText? && j.s in i.rule.values
    else match i.kind
      case Bool => j.JBool?
      case Integer | Uint8 => j.JInteger?
      case Float => j.JInteger? || j.JDecimal?
      case String | Other => j.JText?
      case Interface => true
      case Slice(e) => ItemsPermitted(u, e, j)
      case Array(e) => ItemsPermitted(u, e, j)
      case Map(e) => j.JObject? && forall k :: k in j.members ==> Permits(u, e, j.members[k])
      case Struct(_) =>
        var fields := AllMembers(u, t);
        && j.JObject?
        && (forall i :: 0 <= i < |fields| && AlwaysThere(u, fields[i]) ==> MemberName(fields[i]) in j.members)
        && forall i :: 0 <= i < |fields| && MemberName(fields[i]) in j.members ==>
             var member := j.members[MemberName(fields[i])];
             if fields[i].tsString then member.JText? else Permits(u, fields[i].fieldType, member)
  }

  /** Bytes are encoded as text, other elements one by one. */
  ghost predicate ItemsPermitted(u: Universe, e: TypeId, j: Json)
    requires WellFormed(u) && Regular(u) && e < |u.types|
    decreases j, 0
  {
    if u.types[e].kind.Uint8? then j.JText?
    else j.JArray? && forall i :: 0 <= i < |j.items| ==> Permits(u, e, j.items[i])
  }

  /** A set of types that are registered, with all that they depend on. */
  ghost predicate Closed(u: Universe, schemas: map<string, Schema>, closed: set<TypeId>)
    requires WellFormed(u)
  {
    forall t :: t in closed ==>
      && t < |u.types| && IsRef(u.types[t]) && DefinitionDeps(u, t) <= closed
      && SchemaName(u, t) in schemas && schemas[SchemaName(u, t)] == DefinitionOf(u, t)
  }

  ghost predicate DistinctMembers(u: Universe)
    requires WellFormed(u) && Regular(u)
  {
    forall t :: 0 <= t < |u.types| && u.types[t].kind.Struct? ==> DistinctNames(AllMembers(u, t))
  }

  lemma {:induction false} MemberDeps(u: Universe, t: TypeId, n: nat, i: nat)
    requires WellFormed(u) && Regular(u) && t < |u.types| && u.types[t].kind.Struct?
    requires n <= |u.types[t].kind.fields| && i < |Members(u, t, n)|
    ensures InlineDeps(u, Members(u, t, n)[i].fieldType) <= FieldDeps(u, t, n)
    decreases u.order[t], n
  {
    hide InlineDeps, WellFormed, Regular, Flattened, Embedded, Unencoded, Skipped, InRange;
    if n > 0 {
      FieldFacts(u, t, n - 1);
      var f := u.types[t].kind.fields[n - 1];
      var front := Members(u, t, n - 1);
      if i < |front| {
        MemberDeps(u, t, n - 1, i);
      } else if !Unencoded(f) && Flattened(u, f) {
        var e := Indirect(u, f.fieldType);
        MemberDeps(u, e, |u.types[e].kind.fields|, i - |front|);
      }
    }
  }

  lemma {:induction false} AlwaysExactly(u: Universe, fields: seq<Field>, name: string)
    requires forall i :: 0 <= i < |fields| ==> fields[i].fieldType < |u.types|
    ensures name in NamesOfAlways(u, fields) <==>
      exists i :: 0 <= i < |fields| && AlwaysThere(u, fields[i]) && MemberName(fields[i]) == name
    decreases |fields|
  {
    hide AlwaysThere, MemberName;
    if fields != [] {
      var front, last := fields[..|fields| - 1], fields[|fields| - 1];
      AlwaysExactly(u, front, name);
      assert forall i :: 0 <= i < |front| ==> front[i] == fields[i];
      if i :| 0 <= i < |front| && AlwaysThere(u, front[i]) && MemberName(front[i]) == name {
        assert AlwaysThere(u, fields[i]) && MemberName(fields[i]) == name;
      }
    }
  }

  lemma RefAccepts(u: Universe, schemas: map<string, Schema>, closed: set<TypeId>, t: TypeId, j: Json)
    requires WellFormed(u) && Closed(u, schemas, closed) && t in closed
    ensures var d := DefinitionOf(u, t);
      Accepts(schemas, RefTo(SchemaName(u, t)), j) <==> d.ref != "" || (d.anyOf == [] && BodyAccepts(schemas, d, j))
  {
    hide WellFormed, DefinitionOf, DefinitionDeps, SchemaName, BodyAccepts;
    var ref := REF_PREFIX + SchemaName(u, t);
    assert ref[|REF_PREFIX|..] == SchemaName(u, t);
  }

  lemma PermitsStruct(u: Universe, t: TypeId, j: Json)
    requires WellFormed(u) && Regular(u) && t < |u.types| && u.types[t].kind.Struct?
    requires !IsSpecial(u.types[t]) && (IsNamed(u.types[t]) ==> u.types[t].rule.Standard?)
    ensures var fields := AllMembers(u, t);
      Permits(u, t, j) <==>
        && j.JObject?
        && (forall i :: 0 <= i < |fields| && AlwaysThere(u, fields[i]) ==> MemberName(fields[i]) in j.members)
        && forall i :: 0 <= i < |fields| && MemberName(fields[i]) in j.members ==>
             MemberPermits(u, fields[i], j.members[MemberName(fields[i])])
  {
    hide WellFormed, Regular, Members;
  }

  ghost predicate MemberPermits(u: Universe, f: Field, member: Json)
    requires WellFormed(u) && Regular(u) && f.fieldType < |u.types|
  {
    if f.tsString then member.JText? else Permits(u, f.fieldType, member)
  }

  /** What is asked of an object: all required members, and members that their properties accept. */
  lemma ObjectAccepts(schemas: map<string, Schema>, s: Schema, j: Json)
    requires PlainObject(s)
    ensures BodyAccepts(schemas, s, j) <==>
      && j.JObject? && (forall r :: r in s.required ==> r in j.members)
      && forall k :: k in j.members && k in s.properties ==> Accepts(schemas, s.properties[k], j.members[k])
  {
  }

  /** Two ways to ask for the members of an object. */
  lemma {:induction false} SameDemands(u: Universe, fields: seq<Field>, s: Schema, j: Json)
    requires forall i :: 0 <= i < |fields| ==> fields[i].fieldType < |u.types|
    requires j.JObject? && multiset(s.required) == multiset(NamesOfAlways(u, fields))
    ensures (forall r :: r in s.required ==> r in j.members) <==>
      forall i :: 0 <= i < |fields| && AlwaysThere(u, fields[i]) ==> MemberName(fields[i]) in j.members
  {
    hide AlwaysThere, MemberName, NamesOfAlways;
    var names := NamesOfAlways(u, fields);
    forall r ensures r in s.required <==> r in names {
      assert r in multiset(s.required) <==> r in multiset(names);
    }
    forall i | 0 <= i < |fields| && AlwaysThere(u, fields[i]) ensures MemberName(fields[i]) in names {
      AlwaysExactly(u, fields, MemberName(fields[i]));
    }
    forall r | r in names
      ensures exists i :: 0 <= i < |fields| && AlwaysThere(u, fields[i]) && MemberName(fields[i]) == r
    {
      AlwaysExactly(u, fields, r);
    }
  }

  /** A struct's schema accepts what the struct permits. */
  lemma {:induction false} StructExactly(u: Universe, schemas: map<string, Schema>, closed: set<TypeId>, t: TypeId,
          j: Json)
    requires WellFormed(u) && Regular(u) && DistinctMembers(u) && Closed(u, schemas, closed)
    requires t < |u.types| && u.types[t].kind.Struct? && AllFieldDeps(u, t) <= closed
    requires !IsSpecial(u.types[t]) && (IsNamed(u.types[t]) ==> u.types[t].rule.Standard?)
    ensures PlainObject(Finished(AllFieldsOf(u, t)))
    ensures BodyAccepts(schemas, Finished(AllFieldsOf(u, t)), j) <==> Permits(u, t, j)
    decreases j, 0, 0
  {
    var s, fields := Finished(AllFieldsOf(u, t)), AllMembers(u, t);
    assert DistinctNames(fields);
    StructShape(u, t);
    StructSchemaExactly(u, t);
    ObjectAccepts(schemas, s, j);
    PermitsStruct(u, t, j);
    hide WellFormed, Regular, InlineOf, InlineDeps, AlwaysThere, MemberName, FieldsOf, Members, FieldDeps, Accepts,
      BodyAccepts, Permits, Closed, DistinctMembers, DistinctNames, MemberPermits;
    if j.JObject? {
      SameDemands(u, fields, s, j);
      forall i | 0 <= i < |fields| && MemberName(fields[i]) in j.members
        ensures Accepts(schemas, s.properties[MemberName(fields[i])], j.members[MemberName(fields[i])])
          <==> MemberPermits(u, fields[i], j.members[MemberName(fields[i])])
      {
        MemberDeps(u, t, |u.types[t].kind.fields|, i);
        InlineExactly(u, schemas, closed, fields[i].fieldType, j.members[MemberName(fields[i])]);
        TextExactly(schemas, j.members[MemberName(fields[i])]);
        MemberPermitsIs(u, fields[i], j.members[MemberName(fields[i])]);
      }
      forall k | k in s.properties ensures HasName(fields, k) {}
    }
  }

  lemma MemberPermitsIs(u: Universe, f: Field, member: Json)
    requires WellFormed(u) && Regular(u) && f.fieldType < |u.types|
    ensures MemberPermits(u, f, member) <==> if f.tsString then member.JText? else Permits(u, f.fieldType, member)
  {
  }

  predicate PlainObject(s: Schema) { s == Typed("object").(properties := s.properties, required := s.required) }

  lemma {:induction false} StructShape(u: Universe, t: TypeId)
    requires WellFormed(u) && Regular(u) && t < |u.types| && u.types[t].kind.Struct?
    ensures PlainObject(Finished(AllFieldsOf(u, t)))
  {
    hide WellFormed, Regular, Folded, FieldsOf, Members, NamesOfAlways;
    FieldsAreMembers(u, Typed("object"), t, |u.types[t].kind.fields|);
    FoldedShape(u, AllMembers(u, t));
  }

  lemma TextExactly(schemas: map<string, Schema>, j: Json)
    ensures Accepts(schemas, Typed("string"), j) <==> j.JText?
    ensures Accepts(schemas, Typed("null"), j) <==> j.JNull?
    ensures Accepts(schemas, BLANK, j)
  {
  }

  /** What the schema of a type accepts where it is used is what the type permits. */
  lemma {:induction false} InlineExactly(u: Universe, schemas: map<string, Schema>, closed: set<TypeId>, t: TypeId,
          j: Json)
    requires WellFormed(u) && Regular(u) && DistinctMembers(u) && Closed(u, schemas, closed)
    requires t < |u.types| && InlineDeps(u, t) <= closed
    ensures Accepts(schemas, InlineOf(u, t), j) <==> Permits(u, t, j)
    decreases j, 1, Weight(u, t)
  {
    hide FieldsOf, FieldDeps, Members, DefinitionOf, DefinitionDeps, Regular, DistinctMembers, Closed;
    var i := u.types[t];
    if i.kind.Pointer? {
      InlineExactly(u, schemas, closed, i.kind.elem, j);
      OrNullExactly(schemas, InlineOf(u, i.kind.elem), j);
    } else if IsSpecial(i) {
      SpecialExactly(u, schemas, t, j);
    } else if IsNamed(i) {
      RefAccepts(u, schemas, closed, t, j);
      DefinitionExactly(u, schemas, closed, t, j);
    } else {
      UnnamedExactly(u, schemas, closed, t, j);
    }
  }

  lemma {:induction false} OrNullExactly(schemas: map<string, Schema>, s: Schema, j: Json)
    ensures Accepts(schemas, OrNull(s), j) <==> j.JNull? || Accepts(schemas, s, j)
  {
    TextExactly(schemas, j);
    var a := OrNull(s).anyOf;
    assert a[0] == s && a[1] == Typed("null");
    if Accepts(schemas, OrNull(s), j) {
      var k :| 0 <= k < |a| && Accepts(schemas, a[k], j);
      assert k == 0 || k == 1;
    }
  }

  lemma {:induction false} SpecialExactly(u: Universe, schemas: map<string, Schema>, t: TypeId, j: Json)
    requires WellFormed(u) && Regular(u) && t < |u.types| && IsSpecial(u.types[t]) && !u.types[t].kind.Pointer?
    ensures Accepts(schemas, InlineOf(u, t), j) <==> Permits(u, t, j)
  {
    hide WellFormed, Regular;
    TextExactly(schemas, j);
  }

  lemma {:induction false} ListExactly(u: Universe, schemas: map<string, Schema>, closed: set<TypeId>, e: TypeId,
          j: Json)
    requires WellFormed(u) && Regular(u) && DistinctMembers(u) && Closed(u, schemas, closed) && e < |u.types|
    requires u.types[e].kind.Uint8? || InlineDeps(u, e) <= closed
    ensures Accepts(schemas, ListOf(u, e), j) <==> ItemsPermitted(u, e, j)
    decreases j, 0, 0
  {
    hide WellFormed, Regular, DistinctMembers, Closed, InlineOf, InlineDeps, Permits;
    if !u.types[e].kind.Uint8? && j.JArray? {
      forall i | 0 <= i < |j.items|
        ensures Accepts(schemas, InlineOf(u, e), j.items[i]) <==> Permits(u, e, j.items[i])
      {
        InlineExactly(u, schemas, closed, e, j.items[i]);
      }
    }
  }

  predicate Unnamed(i: TypeInfo) { !i.kind.Pointer? && !IsSpecial(i) && !IsNamed(i) }

  lemma {:induction false} PrimitiveExactly(u: Universe, schemas: map<string, Schema>, t: TypeId, j: Json)
    requires WellFormed(u) && Regular(u) && t < |u.types| && Unnamed(u.types[t])
    requires var k := u.types[t].kind; !k.Struct? && !k.Slice? && !k.Array? && !k.Map?
    ensures Accepts(schemas, InlineOf(u, t), j) <==> Permits(u, t, j)
  {
    hide WellFormed, Regular;
  }

  lemma InlineUnnamed(u: Universe, t: TypeId)
    requires WellFormed(u) && t < |u.types| && Unnamed(u.types[t])
    ensures var k := u.types[t].kind;
      && (k.Struct? ==> InlineOf(u, t) == Finished(AllFieldsOf(u, t)) && InlineDeps(u, t) == AllFieldDeps(u, t))
      && (k.Slice? || k.Array? ==>
            && k.elem < |u.types| && InlineOf(u, t) == ListOf(u, k.elem)
            && (u.types[k.elem].kind.Uint8? || InlineDeps(u, t) == InlineDeps(u, k.elem)))
      && (k.Map? ==>
            && k.elem < |u.types| && InlineOf(u, t) == Typed("object").(additional := Some(InlineOf(u, k.elem)))
            && InlineDeps(u, t) == InlineDeps(u, k.elem))
  {
    hide FieldsOf, FieldDeps, ListOf;
  }

  lemma PermitsUnnamed(u: Universe, t: TypeId, j: Json)
    requires WellFormed(u) && Regular(u) && t < |u.types| && Unnamed(u.types[t])
    ensures var k := u.types[t].kind;
      && (k.Slice? || k.Array? ==> k.elem < |u.types| && (Permits(u, t, j) <==> ItemsPermitted(u, k.elem, j)))
      && (k.Map? ==>
            && k.elem < |u.types|
            && (Permits(u, t, j) <==> j.JObject? && forall m :: m in j.members ==> Permits(u, k.elem, j.members[m])))
  {
    hide Regular, Members, ItemsPermitted;
  }

  lemma {:induction false} UnnamedExactly(u: Universe, schemas: map<string, Schema>, closed: set<TypeId>, t: TypeId,
          j: Json)
    requires WellFormed(u) && Regular(u) && DistinctMembers(u) && Closed(u, schemas, closed)
    requires t < |u.types| && InlineDeps(u, t) <= closed && Unnamed(u.types[t])
    ensures Accepts(schemas, InlineOf(u, t), j) <==> Permits(u, t, j)
    decreases j, 0, 1
  {
    InlineUnnamed(u, t);
    PermitsUnnamed(u, t, j);
    hide FieldsOf, FieldDeps, Members, Regular, DistinctMembers, Closed, WellFormed, ListOf, ItemsPermitted, InlineOf,
      InlineDeps, Permits, Accepts, BodyAccepts;
    match u.types[t].kind
    case Struct(_) =>
      StructExactly(u, schemas, closed, t, j);
      ObjectIsBody(schemas, Finished(AllFieldsOf(u, t)), j);
    case Slice(e) => ListExactly(u, schemas, closed, e, j);
    case Array(e) => ListExactly(u, schemas, closed, e, j);
    case Map(e) => MapExactly(u, schemas, closed, e, j);
    case _ => PrimitiveExactly(u, schemas, t, j);
  }

  lemma ObjectIsBody(schemas: map<string, Schema>, s: Schema, j: Json)
    requires PlainObject(s)
    ensures Accepts(schemas, s, j) <==> BodyAccepts(schemas, s, j)
  {
    hide BodyAccepts;
  }

  lemma {:induction false} MapExactly(u: Universe, schemas: map<string, Schema>, closed: set<TypeId>, e: TypeId,
          j: Json)
    requires WellFormed(u) && Regular(u) && DistinctMembers(u) && Closed(u, schemas, closed) && e < |u.types|
    requires InlineDeps(u, e) <= closed
    ensures Accepts(schemas, Typed("object").(additional := Some(InlineOf(u, e))), j)
      <==> j.JObject? && forall k :: k in j.members ==> Permits(u, e, j.members[k])
    decreases j, 0, 0
  {
    hide WellFormed, Regular, DistinctMembers, Closed, InlineOf, InlineDeps, Permits;
    if j.JObject? {
      forall k | k in j.members
        ensures Accepts(schemas, InlineOf(u, e), j.members[k]) <==> Permits(u, e, j.members[k])
      {
        InlineExactly(u, schemas, closed, e, j.members[k]);
      }
    }
  }

  lemma {:induction false} DefinitionExactly(u: Universe, schemas: map<string, Schema>, closed: set<TypeId>, t: TypeId,
          j: Json)
    requires WellFormed(u) && Regular(u) && DistinctMembers(u) && Closed(u, schemas, closed)
    requires t in closed && t < |u.types|
    ensures var d := DefinitionOf(u, t);
      (d.ref != "" || (d.anyOf == [] && BodyAccepts(schemas, d, j))) <==> Permits(u, t, j)
    decreases j, 0, 1
  {
    hide FieldsOf, FieldDeps, Members, DistinctMembers;
    var i := u.types[t];
    assert IsRef(i) && DefinitionDeps(u, t) <= closed;
    if i.rule.Standard? && i.kind.Struct? {
      StructExactly(u, schemas, closed, t, j);
    }
  }

  /**
   * In a finished contract, the schema that is registered for a type accepts exactly the JSON values that the Go type
   * permits: members by their tags, required exactly where every encoding has them, each by its own type, at any depth.
   */
  lemma {:induction false} ContractMeansTypes(u: Universe, starts: set<TypeId>, schemas: map<string, Schema>, t: TypeId,
          j: Json)
    requires WellFormed(u) && Regular(u) && DistinctMembers(u) && Describes(u, starts, schemas)
    requires forall s :: s in starts ==> s < |u.types| && IsRef(u.types[s])
    requires t < |u.types| && ReachedFrom(u, starts, t)
    ensures SchemaName(u, t) in schemas
    ensures Accepts(schemas, RefTo(SchemaName(u, t)), j) <==> Permits(u, t, j)
  {
    hide WellFormed, Regular, DistinctMembers, DefinitionOf, DefinitionDeps, ReachedFrom, Permits, Accepts;
    var closed := set x: TypeId | x < |u.types| && ReachedFrom(u, starts, x);
    forall x | x in closed ensures IsRef(u.types[x]) && DefinitionDeps(u, x) <= closed {
      ReachedIsRef(u, starts, x);
      forall d | d in DefinitionDeps(u, x) ensures d in closed {
        ReachedThenDependency(u, starts, x, d);
      }
    }
    ReachedIsRef(u, starts, t);
    RefIsInline(u, t);
    InlineExactly(u, schemas, closed, t, j);
  }

  lemma RefIsInline(u: Universe, t: TypeId)
    requires WellFormed(u) && t < |u.types| && IsRef(u.types[t])
    ensures InlineOf(u, t) == RefTo(SchemaName(u, t)) && InlineDeps(u, t) == {t}
  {
  }
}
