/** The walk that turns Go types into named OpenAPI schemas (cmd/workflowcontractgen/main.go). */
module SchemaBuilder {
  import opened Text

  /** A Go type is identified by its index in the universe; identity is equality of indices. */
  type TypeId = nat

  datatype Field = Field(
    name: string, exported: bool, anonymous: bool,
    jsonName: string, options: set<string>, tsString: bool, fieldType: TypeId)

  datatype Kind =
    | Bool | Integer | Uint8 | Float | String | Other
    | Interface
    | Pointer(elem: TypeId) | Slice(elem: TypeId) | Array(elem: TypeId) | Map(elem: TypeId)
    | Struct(fields: seq<Field>)

  /** How `definition` treats a type: the types it singles out, the enumerations, and all others. */
  datatype Rule =
    | Standard
    | Fixed(schema: Schema)
    | Limits(property: string, minimum: int, maximum: int)
    | AlsoRequired(property: string)
    | Composed(fixed: map<string, Schema>, inlined: seq<(string, TypeId)>)
    | Enumerated(values: seq<string>)

  datatype TypeInfo = TypeInfo(name: string, pkg: string, kind: Kind, rule: Rule)

  datatype Schema = Schema(
    ref: string, kind: string, format: string, minimum: Option<int>, maximum: Option<int>,
    enumeration: seq<string>, anyOf: seq<Schema>, properties: map<string, Schema>,
    required: seq<string>, items: Option<Schema>, additional: Option<Schema>)

  const BLANK := Schema("", "", "", None, None, [], [], map[], [], None, None)
  const REF_PREFIX := "#/components/schemas/"

  function Typed(kind: string): Schema { BLANK.(kind := kind) }

  function OrNull(s: Schema): Schema { BLANK.(anyOf := [s, Typed("null")]) }

  function RefTo(name: string): Schema { BLANK.(ref := REF_PREFIX + name) }

  /** `order` witnesses that expanding a type in place, without passing a named type, ends. */
  datatype Universe = Universe(
    types: seq<TypeInfo>, operationStatus: TypeId, isNameChar: char -> bool, order: seq<nat>)

  predicate IsSpecial(i: TypeInfo) {
    (i.pkg == "time" && i.name == "Time") || (i.pkg == "encoding/json" && i.name == "RawMessage")
  }

  predicate IsNamed(i: TypeInfo) { i.name != "" && i.pkg != "" }

  /** `inline` leaves such a type behind a reference and registers it instead of expanding it. */
  predicate IsRef(i: TypeInfo) { !i.kind.Pointer? && IsNamed(i) && !IsSpecial(i) }

  function PrimitiveType(k: Kind): string {
    match k
    case Bool => "boolean"
    case Integer | Uint8 => "integer"
    case Float => "number"
    case _ => "string"
  }

  predicate Skipped(f: Field) { !f.exported || f.jsonName == "-" }

  function JsonKey(f: Field): string { if f.jsonName == "" then f.name else f.jsonName }

  ghost predicate InRange(u: Universe) {
    && |u.order| == |u.types|
    && forall t :: 0 <= t < |u.types| ==>
       var i := u.types[t];
       && (i.kind.Pointer? || i.kind.Slice? || i.kind.Array? || i.kind.Map? ==> i.kind.elem < |u.types|)
       && (i.kind.Struct? ==> forall f :: f in i.kind.fields ==> f.fieldType < |u.types|)
       && (i.rule.Composed? ==> forall p :: p in i.rule.inlined ==> p.1 < |u.types|)
       && (i.rule.Limits? || i.rule.AlsoRequired? ==> i.kind.Struct?)
       && (i.kind.Pointer? && u.types[i.kind.elem].kind.Pointer? ==> u.order[i.kind.elem] < u.order[t])
  }

  function Indirect(u: Universe, t: TypeId): (r: TypeId)
    requires InRange(u) && t < |u.types|
    ensures r < |u.types| && !u.types[r].kind.Pointer?
    decreases u.order[t]
  {
    var k := u.types[t].kind;
    if !k.Pointer? then t
    else if u.types[k.elem].kind.Pointer? then Indirect(u, k.elem)
    else k.elem
  }

  function Weight(u: Universe, t: TypeId): nat
    requires InRange(u) && t < |u.types|
  {
    if IsRef(u.types[t]) then 0 else u.order[t]
  }

  predicate Embedded(u: Universe, f: Field)
    requires InRange(u) && f.fieldType < |u.types|
  {
    f.anonymous && f.jsonName == "" && u.types[Indirect(u, f.fieldType)].kind.Struct?
  }

  /** Expansion in place is acyclic: pointers, unnamed containers and structs, and embedding. */
  ghost predicate WellFormed(u: Universe) {
    && InRange(u)
    && forall t :: 0 <= t < |u.types| ==>
       var k := u.types[t].kind;
       && (k.Pointer? ==> Weight(u, k.elem) < u.order[t])
       && ((k.Slice? || k.Array? || k.Map?) && !IsNamed(u.types[t]) ==> Weight(u, k.elem) < u.order[t])
       && (k.Struct? ==> forall f :: f in k.fields && !Skipped(f) ==>
             if Embedded(u, f) then u.order[Indirect(u, f.fieldType)] < u.order[t]
             else Weight(u, f.fieldType) < u.order[t])
  }

  function NameChars(s: string, keep: char -> bool): string {
    if s == "" then "" else (if keep(s[0]) then [s[0]] else []) + NameChars(s[1..], keep)
  }

  /** A name loses exactly the characters that a schema name cannot have. */
  lemma {:induction false} NameCharsExactly(a: string, c: char, b: string, keep: char -> bool)
    ensures NameChars("", keep) == ""
    ensures NameChars(a + [c] + b, keep) == NameChars(a, keep) + (if keep(c) then [c] else []) + NameChars(b, keep)
  {
    assert a + [c] + b == a + ([c] + b);
    NameCharsConcat(a, [c] + b, keep);
    NameCharsConcat([c], b, keep);
    assert NameChars([c], keep) == if keep(c) then [c] else [];
  }

  lemma NameCharsFirst(s: string, keep: char -> bool)
    requires s != ""
    ensures NameChars(s, keep) == (if keep(s[0]) then [s[0]] else []) + NameChars(s[1..], keep)
    ensures NameChars("", keep) == ""
  {
  }

  lemma {:induction false} NameCharsConcat(a: string, b: string, keep: char -> bool)
    ensures NameChars(a + b, keep) == NameChars(a, keep) + NameChars(b, keep)
    decreases |a|
  {
    if a == "" {
      assert a + b == b;
    } else {
      NameCharsFirst(a, keep);
      NameCharsFirst(a + b, keep);
      hide NameChars;
      assert (a + b)[1..] == a[1..] + b && (a + b)[0] == a[0];
      NameCharsConcat(a[1..], b, keep);
      var first := if keep(a[0]) then [a[0]] else [];
      var more, last := NameChars(a[1..], keep), NameChars(b, keep);
      assert first + (more + last) == (first + more) + last;
    }
  }

  function SchemaName(u: Universe, t: TypeId): string
    requires t < |u.types|
  {
    if t == u.operationStatus then "Operation" else NameChars(u.types[t].name, u.isNameChar)
  }

  /** The operation status has a name of its own, and a type whose name has no other characters keeps it. */
  lemma {:induction false} SchemaNames(u: Universe, t: TypeId)
    requires t < |u.types|
    ensures t == u.operationStatus ==> SchemaName(u, t) == "Operation"
    ensures t != u.operationStatus && (forall c :: c in u.types[t].name ==> u.isNameChar(c)) ==>
      SchemaName(u, t) == u.types[t].name
  {
    if forall c :: c in u.types[t].name ==> u.isNameChar(c) { AllNameChars(u.types[t].name, u.isNameChar); }
  }

  lemma {:induction false} AllNameChars(s: string, keep: char -> bool)
    requires forall c :: c in s ==> keep(c)
    ensures NameChars(s, keep) == s
  {
    if s != "" {
      assert s == [s[0]] + s[1..];
      AllNameChars(s[1..], keep);
    }
  }

  // ---- What a type's schema is, without any builder state ----

  ghost function InlineOf(u: Universe, t: TypeId): Schema
    requires WellFormed(u) && t < |u.types|
    decreases Weight(u, t), 1, 0
  {
    var i := u.types[t];
    if i.kind.Pointer? then OrNull(InlineOf(u, i.kind.elem))
    else if IsSpecial(i) then
      if i.pkg == "time" && i.name == "Time" then Typed("string").(format := "date-time") else BLANK
    else if IsNamed(i) then RefTo(SchemaName(u, t))
    else match i.kind
      case Struct(fields) => Finished(FieldsOf(u, Typed("object"), t, |fields|))
      case Slice(e) => ListOf(u, e)
      case Array(e) => ListOf(u, e)
      case Map(e) => Typed("object").(additional := Some(InlineOf(u, e)))
      case Interface => BLANK
      case _ => Typed(PrimitiveType(i.kind))
  }

  ghost function ListOf(u: Universe, e: TypeId): Schema
    requires WellFormed(u) && e < |u.types|
    decreases Weight(u, e), 2, 0
  {
    if u.types[e].kind.Uint8? then Typed("string").(format := "byte")
    else Typed("array").(items := Some(InlineOf(u, e)))
  }

  function Finished(s: Schema): Schema { s.(required := SortStrings(s.required)) }

  predicate IsRequired(u: Universe, f: Field)
    requires f.fieldType < |u.types|
  {
    "omitempty" !in f.options && "omitzero" !in f.options && !u.types[f.fieldType].kind.Pointer?
  }

  function WithProperty(u: Universe, acc: Schema, f: Field, inlined: Schema): Schema
    requires f.fieldType < |u.types|
  {
    var s := if f.tsString then Typed("string") else inlined;
    acc.(properties := acc.properties[JsonKey(f) := s],
         required := if IsRequired(u, f) then acc.required + [JsonKey(f)] else acc.required)
  }

  /** `acc` extended by the first `n` fields of struct `t`; embedded structs are merged in place. */
  ghost function FieldsOf(u: Universe, acc: Schema, t: TypeId, n: nat): Schema
    requires WellFormed(u) && t < |u.types| && u.types[t].kind.Struct? && n <= |u.types[t].kind.fields|
    decreases u.order[t], 0, n
  {
    if n == 0 then acc
    else
      var prev := FieldsOf(u, acc, t, n - 1);
      var f := u.types[t].kind.fields[n - 1];
      if Skipped(f) then prev
      else if Embedded(u, f) then
        var e := Indirect(u, f.fieldType);
        FieldsOf(u, prev, e, |u.types[e].kind.fields|)
      else WithProperty(u, prev, f, InlineOf(u, f.fieldType))
  }

  ghost function AllFieldsOf(u: Universe, t: TypeId): Schema
    requires WellFormed(u) && t < |u.types| && u.types[t].kind.Struct?
  {
    FieldsOf(u, Typed("object"), t, |u.types[t].kind.fields|)
  }

  ghost function ComposedOf(u: Universe, fixed: map<string, Schema>, inlined: seq<(string, TypeId)>, n: nat)
    : map<string, Schema>
    requires WellFormed(u) && n <= |inlined| && forall p :: p in inlined ==> p.1 < |u.types|
  {
    if n == 0 then fixed
    else ComposedOf(u, fixed, inlined, n - 1)[inlined[n - 1].0 := InlineOf(u, inlined[n - 1].1)]
  }

  function WithLimits(s: Schema, property: string, minimum: int, maximum: int): Schema {
    if property in s.properties then
      s.(properties := s.properties[property :=
           s.properties[property].(minimum := Some(minimum), maximum := Some(maximum))])
    else s
  }

  ghost function DefinitionOf(u: Universe, t: TypeId): Schema
    requires WellFormed(u) && t < |u.types|
  {
    var i := u.types[t];
    match i.rule
    case Fixed(s) => s
    case Limits(p, lo, hi) => WithLimits(AllFieldsOf(u, t), p, lo, hi)
    case AlsoRequired(p) => Finished(AllFieldsOf(u, t).(required := AllFieldsOf(u, t).required + [p]))
    case Composed(fixed, inlined) => Typed("object").(properties := ComposedOf(u, fixed, inlined, |inlined|))
    case Enumerated(values) => Typed(PrimitiveType(i.kind)).(enumeration := values)
    case Standard =>
      match i.kind
      case Struct(_) => Finished(AllFieldsOf(u, t))
      case Bool | Integer | Uint8 | Float | String => Typed(PrimitiveType(i.kind))
      case _ => InlineOf(u, t)
  }

  /**
   * The definitions written by hand differ from the one of the same struct by exactly what they say: a limited property
   * has both its bounds and nothing else changes, or one property more is required.
   */
  lemma {:induction false} HandWrittenExactly(u: Universe, t: TypeId, name: string)
    requires WellFormed(u) && t < |u.types|
    ensures var d, rule := DefinitionOf(u, t), u.types[t].rule;
      && (rule.Limits? ==>
            var s := AllFieldsOf(u, t);
            && d.(properties := s.properties) == s && d.properties.Keys == s.properties.Keys
            && (name in s.properties && name != rule.property ==> d.properties[name] == s.properties[name])
            && (name in s.properties && name == rule.property ==>
                  && d.properties[name].minimum == Some(rule.minimum)
                  && d.properties[name].maximum == Some(rule.maximum)
                  && d.properties[name].kind == s.properties[name].kind
                  && d.properties[name].ref == s.properties[name].ref))
      && (rule.AlsoRequired? ==>
            var s := AllFieldsOf(u, t);
            && d.properties == s.properties && d.kind == "object" && Ordered(d.required)
            && multiset(d.required) == multiset(s.required) + multiset{rule.property})
      && (rule.Enumerated? ==> d.enumeration == rule.values && d.properties == map[] && d.ref == "")
  {
    assert u.types[t].rule.AlsoRequired? ==> u.types[t].kind.Struct?;
    hide WellFormed, FieldsOf, ComposedOf;
    if u.types[t].rule.AlsoRequired? { AllFieldsMakeAnObject(u, Typed("object"), t, |u.types[t].kind.fields|); }
  }

  lemma {:induction false} AllFieldsMakeAnObject(u: Universe, acc: Schema, t: TypeId, n: nat)
    requires WellFormed(u) && t < |u.types| && u.types[t].kind.Struct? && n <= |u.types[t].kind.fields|
    ensures FieldsOf(u, acc, t, n).kind == acc.kind
    decreases u.order[t], 0, n
  {
    hide InlineOf, Indirect;
    if n > 0 {
      AllFieldsMakeAnObject(u, acc, t, n - 1);
      var f := u.types[t].kind.fields[n - 1];
      if !Skipped(f) && Embedded(u, f) {
        var e := Indirect(u, f.fieldType);
        AllFieldsMakeAnObject(u, FieldsOf(u, acc, t, n - 1), e, |u.types[e].kind.fields|);
      }
    }
  }

  // ---- Which types a schema makes the builder register ----

  ghost function InlineDeps(u: Universe, t: TypeId): (d: set<TypeId>)
    requires WellFormed(u) && t < |u.types|
    ensures forall x :: x in d ==> x < |u.types| && IsRef(u.types[x])
    decreases Weight(u, t), 1, 0
  {
    var i := u.types[t];
    if i.kind.Pointer? then InlineDeps(u, i.kind.elem)
    else if IsSpecial(i) then {}
    else if IsNamed(i) then {t}
    else match i.kind
      case Struct(fields) => FieldDeps(u, t, |fields|)
      case Slice(e) => if u.types[e].kind.Uint8? then {} else InlineDeps(u, e)
      case Array(e) => if u.types[e].kind.Uint8? then {} else InlineDeps(u, e)
      case Map(e) => InlineDeps(u, e)
      case _ => {}
  }

  ghost function FieldDeps(u: Universe, t: TypeId, n: nat): (d: set<TypeId>)
    requires WellFormed(u) && t < |u.types| && u.types[t].kind.Struct? && n <= |u.types[t].kind.fields|
    ensures forall x :: x in d ==> x < |u.types| && IsRef(u.types[x])
    decreases u.order[t], 0, n
  {
    if n == 0 then {}
    else
      var prev := FieldDeps(u, t, n - 1);
      var f := u.types[t].kind.fields[n - 1];
      if Skipped(f) then prev
      else if Embedded(u, f) then
        var e := Indirect(u, f.fieldType);
        prev + FieldDeps(u, e, |u.types[e].kind.fields|)
      else prev + InlineDeps(u, f.fieldType)
  }

  ghost function AllFieldDeps(u: Universe, t: TypeId): (d: set<TypeId>)
    requires WellFormed(u) && t < |u.types| && u.types[t].kind.Struct?
    ensures forall x :: x in d ==> x < |u.types| && IsRef(u.types[x])
  {
    FieldDeps(u, t, |u.types[t].kind.fields|)
  }

  ghost function ComposedDeps(u: Universe, inlined: seq<(string, TypeId)>, n: nat): (d: set<TypeId>)
    requires WellFormed(u) && n <= |inlined| && forall p :: p in inlined ==> p.1 < |u.types|
    ensures forall x :: x in d ==> x < |u.types| && IsRef(u.types[x])
  {
    if n == 0 then {} else ComposedDeps(u, inlined, n - 1) + InlineDeps(u, inlined[n - 1].1)
  }

  ghost function DefinitionDeps(u: Universe, t: TypeId): (d: set<TypeId>)
    requires WellFormed(u) && t < |u.types|
    ensures forall x :: x in d ==> x < |u.types| && IsRef(u.types[x])
  {
    var i := u.types[t];
    match i.rule
    case Fixed(_) => {}
    case Limits(_, _, _) => AllFieldDeps(u, t)
    case AlsoRequired(_) => AllFieldDeps(u, t)
    case Composed(_, inlined) => ComposedDeps(u, inlined, |inlined|)
    case Enumerated(_) => {}
    case Standard =>
      match i.kind
      case Struct(_) => AllFieldDeps(u, t)
      case Bool | Integer | Uint8 | Float | String => {}
      case _ => InlineDeps(u, t)
  }

  ghost predicate ReachesIn(u: Universe, a: TypeId, b: TypeId, n: nat)
    requires WellFormed(u) && a < |u.types|
    decreases n
  {
    if n == 0 then a == b else exists c :: c in DefinitionDeps(u, a) && ReachesIn(u, c, b, n - 1)
  }

  ghost predicate Reaches(u: Universe, a: TypeId, b: TypeId)
    requires WellFormed(u) && a < |u.types|
  {
    exists n: nat :: ReachesIn(u, a, b, n)
  }

  ghost predicate ReachedFrom(u: Universe, starts: set<TypeId>, b: TypeId)
    requires WellFormed(u)
  {
    exists a :: a in starts && a < |u.types| && Reaches(u, a, b)
  }

  lemma {:induction false} ReachesSelf(u: Universe, starts: set<TypeId>, a: TypeId)
    requires WellFormed(u) && a in starts && a < |u.types|
    ensures ReachedFrom(u, starts, a)
  {
    assert ReachesIn(u, a, a, 0);
  }

  lemma {:induction false} ReachesThrough(u: Universe, a: TypeId, b: TypeId)
    requires WellFormed(u) && a < |u.types| && ReachedFrom(u, DefinitionDeps(u, a), b)
    ensures ReachedFrom(u, {a}, b)
  {
    var c :| c in DefinitionDeps(u, a) && c < |u.types| && Reaches(u, c, b);
    var n: nat :| ReachesIn(u, c, b, n);
    assert ReachesIn(u, a, b, n + 1);
  }

  /** Nothing outside a set closed under registration is reachable from inside it. */
  lemma {:induction false} ClosedContainsReach(u: Universe, closed: set<TypeId>, a: TypeId, b: TypeId, n: nat)
    requires WellFormed(u) && a < |u.types| && a in closed && ReachesIn(u, a, b, n)
    requires forall t :: t in closed ==> t < |u.types| && DefinitionDeps(u, t) <= closed
    ensures b in closed
    decreases n
  {
    hide WellFormed, DefinitionDeps;
    if n > 0 {
      var c :| c in DefinitionDeps(u, a) && ReachesIn(u, c, b, n - 1);
      ClosedContainsReach(u, closed, c, b, n - 1);
    }
  }

  // ---- The builder ----

  ghost predicate Extends(u: Universe, before: map<string, TypeId>, after: map<string, TypeId>, starts: set<TypeId>)
    requires WellFormed(u)
  {
    && (forall n :: n in before ==> n in after && after[n] == before[n])
    && (forall n :: n in after && n !in before ==> ReachedFrom(u, starts, after[n]))
  }

  /** A registered type and one reachable from `starts` share a name but are different types. */
  ghost predicate Clash(u: Universe, owners: map<string, TypeId>, starts: set<TypeId>)
    requires WellFormed(u)
  {
    exists n, t: TypeId :: n in owners && t < |u.types| && IsRef(u.types[t]) && SchemaName(u, t) == n
                   && owners[n] != t && ReachedFrom(u, starts, t)
  }

  lemma {:induction false} ExtendsMore(u: Universe, o1: map<string, TypeId>, o2: map<string, TypeId>,
          o3: map<string, TypeId>, d1: set<TypeId>, d2: set<TypeId>, d: set<TypeId>)
    requires WellFormed(u) && Extends(u, o1, o2, d1) && Extends(u, o2, o3, d2) && d1 <= d && d2 <= d
    ensures Extends(u, o1, o3, d)
    ensures Clash(u, o3, d2) ==> Clash(u, o3, d)
  {
    hide Reaches, WellFormed;
  }

  lemma {:induction false} FieldDepsGrow(u: Universe, t: TypeId, n: nat, m: nat)
    requires WellFormed(u) && t < |u.types| && u.types[t].kind.Struct? && n <= m <= |u.types[t].kind.fields|
    ensures FieldDeps(u, t, n) <= FieldDeps(u, t, m)
    decreases m - n
  {
    hide WellFormed, InlineDeps, Indirect;
    if n < m { FieldDepsGrow(u, t, n + 1, m); }
  }

  lemma {:induction false} ComposedDepsGrow(u: Universe, inlined: seq<(string, TypeId)>, n: nat, m: nat)
    requires WellFormed(u) && n <= m <= |inlined| && forall p :: p in inlined ==> p.1 < |u.types|
    ensures ComposedDeps(u, inlined, n) <= ComposedDeps(u, inlined, m)
    decreases m - n
  {
    hide WellFormed, InlineDeps;
    if n < m { ComposedDepsGrow(u, inlined, n + 1, m); }
  }

  predicate Registered(u: Universe, owners: map<string, TypeId>, t: TypeId)
    requires t < |u.types|
  {
    SchemaName(u, t) in owners && owners[SchemaName(u, t)] == t
  }

  /** What `ensureNamed(value)` is asked to register: pointers are dereferenced, unnamed types ignored. */
  ghost function RootType(u: Universe, value: TypeId): (d: set<TypeId>)
    requires WellFormed(u) && value < |u.types|
    ensures forall t :: t in d ==> t < |u.types| && IsRef(u.types[t])
  {
    var t := Indirect(u, value);
    if IsRef(u.types[t]) then {t} else {}
  }

  ghost function Unregistered(u: Universe, owners: map<string, TypeId>): set<TypeId> {
    set t | 0 <= t < |u.types| && !Registered(u, owners, t)
  }

  /** What holds before any of a struct's fields is looked at. */
  lemma NoFieldsYet(u: Universe, owners: map<string, TypeId>, acc: Schema, t: TypeId)
    requires WellFormed(u) && t < |u.types| && u.types[t].kind.Struct?
    ensures FieldDeps(u, t, 0) == {} && FieldsOf(u, acc, t, 0) == acc
    ensures Extends(u, owners, owners, {}) && AllRegistered(u, owners, {})
  {
  }

  /** What holds before any of the inlined properties is looked at. */
  lemma NothingComposedYet(u: Universe, owners: map<string, TypeId>, fixed: map<string, Schema>,
          inlined: seq<(string, TypeId)>)
    requires WellFormed(u) && forall p :: p in inlined ==> p.1 < |u.types|
    ensures ComposedDeps(u, inlined, 0) == {} && ComposedOf(u, fixed, inlined, 0) == fixed
    ensures Extends(u, owners, owners, {}) && AllRegistered(u, owners, {})
  {
  }

  lemma OneMoreComposed(u: Universe, fixed: map<string, Schema>, inlined: seq<(string, TypeId)>, n: nat)
    requires WellFormed(u) && n < |inlined| && forall p :: p in inlined ==> p.1 < |u.types|
    ensures ComposedDeps(u, inlined, n + 1) == ComposedDeps(u, inlined, n) + InlineDeps(u, inlined[n].1)
    ensures ComposedOf(u, fixed, inlined, n + 1)
      == ComposedOf(u, fixed, inlined, n)[inlined[n].0 := InlineOf(u, inlined[n].1)]
  {
    hide InlineDeps, InlineOf, WellFormed;
  }

  lemma MoreRegistered(u: Universe, owners: map<string, TypeId>, d: set<TypeId>, e: set<TypeId>)
    requires AllRegistered(u, owners, d) && AllRegistered(u, owners, e)
    ensures AllRegistered(u, owners, d + e)
  {
  }

  lemma ExtendsShrinksRest(u: Universe, before: map<string, TypeId>, after: map<string, TypeId>, d: set<TypeId>)
    requires WellFormed(u) && Extends(u, before, after, d)
    ensures Unregistered(u, after) <= Unregistered(u, before)
  {
  }

  lemma StillRegistered(u: Universe, before: map<string, TypeId>, after: map<string, TypeId>, d: set<TypeId>)
    requires WellFormed(u)
    requires exists e :: Extends(u, before, after, e)
    requires AllRegistered(u, before, d)
    ensures AllRegistered(u, after, d)
  {
  }

  /** Every dependency in `d` is registered. */
  ghost predicate AllRegistered(u: Universe, owners: map<string, TypeId>, d: set<TypeId>) {
    forall t :: t in d ==> t < |u.types| && Registered(u, owners, t)
  }

  /** Finished types carry their definition and have all their dependencies registered; the others are being visited. */
  ghost predicate Consistent(u: Universe, owners: map<string, TypeId>, schemas: map<string, Schema>,
          visiting: set<TypeId>)
    requires WellFormed(u)
  {
    && (forall n :: n in owners ==> owners[n] < |u.types| && IsRef(u.types[owners[n]]) && SchemaName(u, owners[n]) == n)
    && AllRegistered(u, owners, visiting)
    && (forall n :: n in owners ==> (n in schemas <==> owners[n] !in visiting))
    && (forall n :: n in schemas ==> n in owners && schemas[n] == DefinitionOf(u, owners[n]))
    && (forall n :: n in schemas ==> AllRegistered(u, owners, DefinitionDeps(u, owners[n])))
  }

  /** A type that owns its name is finished or being visited, and the other way round. */
  lemma OwnedIsMet(u: Universe, owners: map<string, TypeId>, schemas: map<string, Schema>, visiting: set<TypeId>,
          t: TypeId)
    requires WellFormed(u) && Consistent(u, owners, schemas, visiting) && t < |u.types|
    ensures InRange(u)
    ensures var name := SchemaName(u, t);
      && (name in schemas ==> name in owners) && (t in visiting ==> Registered(u, owners, t))
      && (Registered(u, owners, t) ==> name in schemas || t in visiting)
  {
  }

  lemma ExtendsSelf(u: Universe, owners: map<string, TypeId>, d: set<TypeId>)
    requires WellFormed(u)
    ensures Extends(u, owners, owners, d)
  {
  }

  lemma {:induction false} Enter(u: Universe, owners: map<string, TypeId>, schemas: map<string, Schema>,
          visiting: set<TypeId>, t: TypeId)
    requires WellFormed(u) && Consistent(u, owners, schemas, visiting)
    requires t < |u.types| && IsRef(u.types[t]) && SchemaName(u, t) !in owners
    ensures Consistent(u, owners[SchemaName(u, t) := t], schemas, visiting + {t})
    ensures Extends(u, owners, owners[SchemaName(u, t) := t], {t})
  {
    hide WellFormed, DefinitionOf, DefinitionDeps, Reaches, ReachedFrom, IsRef;
    ReachesSelf(u, {t}, t);
  }

  lemma {:induction false} EnterShrinksRest(u: Universe, owners: map<string, TypeId>, t: TypeId)
    requires t < |u.types| && SchemaName(u, t) !in owners
    ensures Unregistered(u, owners[SchemaName(u, t) := t]) < Unregistered(u, owners)
  {
    assert t in Unregistered(u, owners) && t !in Unregistered(u, owners[SchemaName(u, t) := t]);
  }

  lemma Leave(u: Universe, owners: map<string, TypeId>, schemas: map<string, Schema>, visiting: set<TypeId>, t: TypeId)
    requires WellFormed(u) && Consistent(u, owners, schemas, visiting) && t in visiting && t < |u.types|
    requires AllRegistered(u, owners, DefinitionDeps(u, t))
    ensures Consistent(u, owners, schemas[SchemaName(u, t) := DefinitionOf(u, t)], visiting - {t})
  {
  }

  lemma {:induction false} ReachThroughDefinition(u: Universe, before: map<string, TypeId>, after: map<string, TypeId>,
          t: TypeId)
    requires WellFormed(u) && t < |u.types| && Extends(u, before, after, DefinitionDeps(u, t))
    ensures Extends(u, before, after, {t})
    ensures Clash(u, after, DefinitionDeps(u, t)) ==> Clash(u, after, {t})
  {
    forall x | ReachedFrom(u, DefinitionDeps(u, t), x) ensures ReachedFrom(u, {t}, x) {
      ReachesThrough(u, t, x);
    }
  }

  lemma {:induction false} NameTaken(u: Universe, owners: map<string, TypeId>, t: TypeId)
    requires WellFormed(u) && t < |u.types| && IsRef(u.types[t])
    requires SchemaName(u, t) in owners && owners[SchemaName(u, t)] != t
    ensures Clash(u, owners, {t})
  {
    ReachesSelf(u, {t}, t);
  }

  class Builder {
    const u: Universe
    var schemas: map<string, Schema>
    var owners: map<string, TypeId>
    var visiting: set<TypeId>

    constructor (u: Universe)
      requires WellFormed(u)
      ensures this.u == u && schemas == map[] && owners == map[] && visiting == {} && Valid()
    {
      this.u := u;
      schemas, owners, visiting := map[], map[], {};
    }

    ghost predicate Valid()
      reads this
    {
      WellFormed(u) && Consistent(u, owners, schemas, visiting)
    }

    /** Panics (`ok` is false) exactly when a name already belongs to a different type. */
    method EnsureNamed(value: TypeId) returns (ok: bool)
      requires Valid() && value < |u.types|
      modifies this
      ensures Valid() && Extends(u, old(owners), owners, RootType(u, value))
      ensures ok ==> visiting == old(visiting) && AllRegistered(u, owners, RootType(u, value))
      ensures !ok ==> Clash(u, owners, RootType(u, value))
      decreases Unregistered(u, owners), 0, 0, 0
    {
      hide Reaches, ReachedFrom, DefinitionOf, DefinitionDeps, Extends, Clash, Unregistered, WellFormed, Consistent;
      ExtendsSelf(u, owners, RootType(u, value));
      OwnedIsMet(u, owners, schemas, visiting, value);
      var t := Indirect(u, value);
      OwnedIsMet(u, owners, schemas, visiting, t);
      if !IsNamed(u.types[t]) || IsSpecial(u.types[t]) { return true; }
      var name := SchemaName(u, t);
      if name in owners && owners[name] != t {
        NameTaken(u, owners, t);
        return false;
      }
      if name in schemas || t in visiting { return true; }
      Enter(u, owners, schemas, visiting, t);
      EnterShrinksRest(u, owners, t);
      owners := owners[name := t];
      visiting := visiting + {t};
      ghost var entered := owners;
      var s;
      ok, s := Definition(t);
      ReachThroughDefinition(u, entered, owners, t);
      StillRegistered(u, entered, owners, {t});
      ExtendsMore(u, old(owners), entered, owners, {t}, {t}, {t});
      if !ok { return; }
      Leave(u, owners, schemas, visiting, t);
      schemas := schemas[name := s];
      visiting := visiting - {t};
    }

    method Definition(t: TypeId) returns (ok: bool, s: Schema)
      requires Valid() && t < |u.types|
      modifies this
      ensures Valid() && Extends(u, old(owners), owners, DefinitionDeps(u, t))
      ensures ok ==> visiting == old(visiting) && s == DefinitionOf(u, t)
      ensures ok ==> AllRegistered(u, owners, DefinitionDeps(u, t))
      ensures !ok ==> Clash(u, owners, DefinitionDeps(u, t))
      decreases Unregistered(u, owners), 3, 0, 0
    {
      hide Reaches, ReachedFrom, Consistent;
      var i := u.types[t];
      match i.rule
      case Fixed(schema) => return true, schema;
      case Limits(p, lo, hi) =>
        ok, s := AddFields(Typed("object"), t);
        s := WithLimits(s, p, lo, hi);
      case AlsoRequired(p) =>
        ok, s := AddFields(Typed("object"), t);
        s := Finished(s.(required := s.required + [p]));
      case Composed(fixed, inlined) =>
        ok, s := Compose(fixed, inlined);
      case Enumerated(values) =>
        return true, Typed(PrimitiveType(i.kind)).(enumeration := values);
      case Standard =>
        match i.kind {
          case Struct(_) =>
            ok, s := AddFields(Typed("object"), t);
            s := Finished(s);
          case Bool | Integer | Uint8 | Float | String => return true, Typed(PrimitiveType(i.kind));
          case _ => ok, s := Inline(t);
        }
    }

    method Compose(fixed: map<string, Schema>, inlined: seq<(string, TypeId)>) returns (ok: bool, s: Schema)
      requires Valid() && forall p :: p in inlined ==> p.1 < |u.types|
      modifies this
      ensures Valid() && Extends(u, old(owners), owners, ComposedDeps(u, inlined, |inlined|))
      ensures ok ==> visiting == old(visiting)
      ensures ok ==> s == Typed("object").(properties := ComposedOf(u, fixed, inlined, |inlined|))
      ensures ok ==> AllRegistered(u, owners, ComposedDeps(u, inlined, |inlined|))
      ensures !ok ==> Clash(u, owners, ComposedDeps(u, inlined, |inlined|))
      decreases Unregistered(u, owners), 2, 0, 0
    {
      hide Reaches, ReachedFrom, Consistent, WellFormed, InlineOf, InlineDeps, ComposedDeps, ComposedOf, Extends,
        AllRegistered, Clash, Unregistered;
      NothingComposedYet(u, owners, fixed, inlined);
      s := Typed("object").(properties := fixed);
      for n := 0 to |inlined|
        invariant Valid() && Extends(u, old(owners), owners, ComposedDeps(u, inlined, n))
        invariant visiting == old(visiting)
        invariant s == Typed("object").(properties := ComposedOf(u, fixed, inlined, n))
        invariant AllRegistered(u, owners, ComposedDeps(u, inlined, n))
      {
        ComposedDepsGrow(u, inlined, n + 1, |inlined|);
        OneMoreComposed(u, fixed, inlined, n);
        ghost var before := owners;
        ExtendsShrinksRest(u, old(owners), owners, ComposedDeps(u, inlined, n));
        var p;
        ok, p := Inline(inlined[n].1);
        ExtendsMore(u, old(owners), before, owners, ComposedDeps(u, inlined, n), InlineDeps(u, inlined[n].1),
                    ComposedDeps(u, inlined, if ok then n + 1 else |inlined|));
        if !ok { return; }
        StillRegistered(u, before, owners, ComposedDeps(u, inlined, n));
        MoreRegistered(u, owners, ComposedDeps(u, inlined, n), InlineDeps(u, inlined[n].1));
        s := s.(properties := s.properties[inlined[n].0 := p]);
      }
      ok := true;
    }

    method AddFields(result: Schema, t: TypeId) returns (ok: bool, s: Schema)
      requires Valid() && t < |u.types| && u.types[t].kind.Struct?
      modifies this
      ensures Valid() && Extends(u, old(owners), owners, AllFieldDeps(u, t))
      ensures ok ==> visiting == old(visiting) && s == FieldsOf(u, result, t, |u.types[t].kind.fields|)
      ensures ok ==> AllRegistered(u, owners, AllFieldDeps(u, t))
      ensures !ok ==> Clash(u, owners, AllFieldDeps(u, t))
      decreases Unregistered(u, owners), 1, u.order[t], 1
    {
      hide Reaches, ReachedFrom, Consistent, WellFormed, FieldsOf, FieldDeps, Extends, AllRegistered, Clash,
        Unregistered;
      NoFieldsYet(u, owners, result, t);
      ok, s := true, result;
      for n := 0 to |u.types[t].kind.fields|
        invariant Valid() && Extends(u, old(owners), owners, FieldDeps(u, t, n))
        invariant ok && visiting == old(visiting) && s == FieldsOf(u, result, t, n)
        invariant AllRegistered(u, owners, FieldDeps(u, t, n))
      {
        ghost var before := owners;
        ExtendsShrinksRest(u, old(owners), owners, FieldDeps(u, t, n));
        FieldDepsGrow(u, t, n, n + 1);
        FieldDepsGrow(u, t, n + 1, |u.types[t].kind.fields|);
        ok, s := AddField(s, t, n);
        ExtendsMore(u, old(owners), before, owners, FieldDeps(u, t, n), FieldDeps(u, t, n + 1),
                    FieldDeps(u, t, if ok then n + 1 else |u.types[t].kind.fields|));
        if !ok { return; }
      }
    }

    /** The body of the loop over a struct's fields, for field `n`. */
    method AddField(result: Schema, t: TypeId, n: nat) returns (ok: bool, s: Schema)
      requires Valid() && t < |u.types| && u.types[t].kind.Struct? && n < |u.types[t].kind.fields|
      requires AllRegistered(u, owners, FieldDeps(u, t, n))
      modifies this
      ensures Valid() && Extends(u, old(owners), owners, FieldDeps(u, t, n + 1))
      ensures ok ==> visiting == old(visiting)
      ensures ok ==> forall acc :: result == FieldsOf(u, acc, t, n) ==> s == FieldsOf(u, acc, t, n + 1)
      ensures ok ==> AllRegistered(u, owners, FieldDeps(u, t, n + 1))
      ensures !ok ==> Clash(u, owners, FieldDeps(u, t, n + 1))
      decreases Unregistered(u, owners), 1, u.order[t], 0
    {
      hide Reaches, ReachedFrom, Consistent;
      var f := u.types[t].kind.fields[n];
      if Skipped(f) { return true, result; }
      if Embedded(u, f) {
        var e := Indirect(u, f.fieldType);
        ok, s := AddFields(result, e);
        ExtendsMore(u, old(owners), old(owners), owners, {}, AllFieldDeps(u, e), FieldDeps(u, t, n + 1));
        return;
      }
      ok, s := Inline(f.fieldType);
      ExtendsMore(u, old(owners), old(owners), owners, {}, InlineDeps(u, f.fieldType), FieldDeps(u, t, n + 1));
      s := WithProperty(u, result, f, s);
    }

    method Inline(t: TypeId) returns (ok: bool, s: Schema)
      requires Valid() && t < |u.types|
      modifies this
      ensures Valid() && Extends(u, old(owners), owners, InlineDeps(u, t))
      ensures ok ==> visiting == old(visiting) && s == InlineOf(u, t)
      ensures ok ==> AllRegistered(u, owners, InlineDeps(u, t))
      ensures !ok ==> Clash(u, owners, InlineDeps(u, t))
      decreases Unregistered(u, owners), 1, Weight(u, t), 2
    {
      var i := u.types[t];
      if i.kind.Pointer? {
        ok, s := Inline(i.kind.elem);
        return ok, OrNull(s);
      }
      if IsSpecial(i) {
        return true, if i.pkg == "time" && i.name == "Time" then Typed("string").(format := "date-time") else BLANK;
      }
      if IsNamed(i) {
        ok := EnsureNamed(t);
        return ok, RefTo(SchemaName(u, t));
      }
      match i.kind
      case Struct(_) =>
        ok, s := AddFields(Typed("object"), t);
        s := Finished(s);
      case Slice(e) => ok, s := InlineList(e);
      case Array(e) => ok, s := InlineList(e);
      case Map(e) =>
        ok, s := Inline(e);
        s := Typed("object").(additional := Some(s));
      case Interface => return true, BLANK;
      case _ => return true, Typed(PrimitiveType(i.kind));
    }

    method InlineList(e: TypeId) returns (ok: bool, s: Schema)
      requires Valid() && e < |u.types|
      modifies this
      ensures Valid()
      ensures Extends(u, old(owners), owners, if u.types[e].kind.Uint8? then {} else InlineDeps(u, e))
      ensures ok ==> visiting == old(visiting) && s == ListOf(u, e)
      ensures ok && !u.types[e].kind.Uint8? ==> AllRegistered(u, owners, InlineDeps(u, e))
      ensures !ok ==> !u.types[e].kind.Uint8? && Clash(u, owners, InlineDeps(u, e))
      decreases Unregistered(u, owners), 1, Weight(u, e), 3
    {
      if u.types[e].kind.Uint8? { return true, Typed("string").(format := "byte"); }
      ok, s := Inline(e);
      s := Typed("array").(items := Some(s));
    }
  }

  // ---- Building the whole contract ----

  ghost predicate ValidRoots(u: Universe, roots: seq<TypeId>) {
    forall i :: 0 <= i < |roots| ==> roots[i] < |u.types|
  }

  /** The named types that the walk starts from. */
  ghost function RootTypes(u: Universe, roots: seq<TypeId>): (d: set<TypeId>)
    requires WellFormed(u) && ValidRoots(u, roots)
    ensures forall t :: t in d ==> t < |u.types| && IsRef(u.types[t])
  {
    set i, t | 0 <= i < |roots| && t in RootType(u, roots[i]) :: t
  }

  /** Distinct types reachable from `starts` have distinct schema names. */
  ghost predicate Unambiguous(u: Universe, starts: set<TypeId>)
    requires WellFormed(u)
  {
    forall a: TypeId, b: TypeId |
      a < |u.types| && b < |u.types| && ReachedFrom(u, starts, a) && ReachedFrom(u, starts, b) ::
      SchemaName(u, a) == SchemaName(u, b) ==> a == b
  }

  /** `schemas` holds the definition of every type reachable from `starts` under its name, and nothing else. */
  ghost predicate Describes(u: Universe, starts: set<TypeId>, schemas: map<string, Schema>)
    requires WellFormed(u)
  {
    && (forall t: TypeId | t < |u.types| && ReachedFrom(u, starts, t) ::
          SchemaName(u, t) in schemas && schemas[SchemaName(u, t)] == DefinitionOf(u, t))
    && (forall n :: n in schemas ==> exists t: TypeId ::
      t < |u.types| && ReachedFrom(u, starts, t) && SchemaName(u, t) == n)
  }

  lemma {:induction false} ReachStaysInRange(u: Universe, a: TypeId, b: TypeId, n: nat)
    requires WellFormed(u) && a < |u.types| && IsRef(u.types[a]) && ReachesIn(u, a, b, n)
    ensures b < |u.types| && IsRef(u.types[b])
    decreases n
  {
    hide WellFormed, DefinitionDeps;
    if n > 0 {
      var c :| c in DefinitionDeps(u, a) && ReachesIn(u, c, b, n - 1);
      ReachStaysInRange(u, c, b, n - 1);
    }
  }

  lemma {:induction false} RegisteredIsReached(u: Universe, owners: map<string, TypeId>, schemas: map<string, Schema>,
          starts: set<TypeId>, b: TypeId)
    requires WellFormed(u) && Consistent(u, owners, schemas, {}) && AllRegistered(u, owners, starts)
    requires ReachedFrom(u, starts, b)
    ensures b < |u.types| && Registered(u, owners, b)
  {
    hide WellFormed, DefinitionOf, DefinitionDeps, Consistent;
    var a :| a in starts && a < |u.types| && Reaches(u, a, b);
    var n: nat :| ReachesIn(u, a, b, n);
    var closed := set m | m in owners :: owners[m];
    assert owners[SchemaName(u, a)] == a;
    OwnersAreClosed(u, owners, schemas, closed);
    ClosedContainsReach(u, closed, a, b, n);
  }

  lemma {:induction false} OwnersAreClosed(u: Universe, owners: map<string, TypeId>, schemas: map<string, Schema>,
          closed: set<TypeId>)
    requires WellFormed(u) && Consistent(u, owners, schemas, {})
    requires closed == set m | m in owners :: owners[m]
    ensures forall t :: t in closed ==> t < |u.types| && DefinitionDeps(u, t) <= closed && Registered(u, owners, t)
  {
    hide WellFormed, DefinitionOf, DefinitionDeps, IsRef;
    forall m | m in owners
      ensures owners[m] < |u.types| && SchemaName(u, owners[m]) == m && DefinitionDeps(u, owners[m]) <= closed
    {
      assert m in schemas;
      forall d | d in DefinitionDeps(u, owners[m]) ensures d in closed {
        assert owners[SchemaName(u, d)] == d;
      }
    }
  }

  lemma {:induction false} WalkOutcome(u: Universe, owners: map<string, TypeId>, schemas: map<string, Schema>,
          starts: set<TypeId>)
    requires WellFormed(u) && Consistent(u, owners, schemas, {}) && AllRegistered(u, owners, starts)
    requires forall n :: n in owners ==> ReachedFrom(u, starts, owners[n])
    ensures Unambiguous(u, starts) && Describes(u, starts, schemas)
  {
    hide WellFormed, DefinitionOf, DefinitionDeps, ReachedFrom;
    forall t: TypeId | t < |u.types| && ReachedFrom(u, starts, t) ensures Registered(u, owners, t) {
      RegisteredIsReached(u, owners, schemas, starts, t);
    }
  }

  lemma {:induction false} ClashIsAmbiguous(u: Universe, owners: map<string, TypeId>, starts: set<TypeId>)
    requires WellFormed(u) && Clash(u, owners, starts)
    requires exists schemas, visiting :: Consistent(u, owners, schemas, visiting)
    requires forall n :: n in owners ==> ReachedFrom(u, starts, owners[n])
    ensures !Unambiguous(u, starts)
  {
    hide WellFormed, ReachedFrom, DefinitionOf, DefinitionDeps;
  }

  lemma {:induction false} RootsGrow(u: Universe, roots: seq<TypeId>, n: nat)
    requires WellFormed(u) && n < |roots| && ValidRoots(u, roots)
    ensures RootTypes(u, roots[..n + 1]) == RootTypes(u, roots[..n]) + RootType(u, roots[n])
    ensures RootType(u, roots[n]) <= RootTypes(u, roots)
  {
    hide WellFormed, RootType;
    assert roots[..n + 1] == roots[..n] + [roots[n]];
  }

  lemma {:induction false} MoreStarts(u: Universe, before: map<string, TypeId>, after: map<string, TypeId>,
          some: set<TypeId>, starts: set<TypeId>)
    requires WellFormed(u) && Extends(u, before, after, some) && some <= starts
    requires forall n :: n in before ==> ReachedFrom(u, starts, before[n])
    ensures forall n :: n in after ==> ReachedFrom(u, starts, after[n])
    ensures Clash(u, after, some) ==> Clash(u, after, starts)
    ensures forall d :: AllRegistered(u, before, d) ==> AllRegistered(u, after, d)
  {
    hide WellFormed, Reaches;
  }

  lemma NoRootsYet(u: Universe, roots: seq<TypeId>)
    requires WellFormed(u)
    ensures AllRegistered(u, map[], RootTypes(u, roots[..0]))
  {
  }

  /** The walk fails exactly when two reachable types share a name; otherwise it describes what is reachable. */
  method BuildContract(u: Universe, roots: seq<TypeId>) returns (ok: bool, schemas: map<string, Schema>)
    requires WellFormed(u) && ValidRoots(u, roots)
    ensures ok <==> Unambiguous(u, RootTypes(u, roots))
    ensures ok ==> Describes(u, RootTypes(u, roots), schemas)
  {
    hide WellFormed, ReachedFrom, Unambiguous, Describes, Extends, Clash, Consistent, RootType, AllRegistered,
      RootTypes;
    var b := new Builder(u);
    ghost var starts := RootTypes(u, roots);
    NoRootsYet(u, roots);
    for n := 0 to |roots|
      invariant fresh(b) && b.u == u && b.Valid() && b.visiting == {}
      invariant AllRegistered(u, b.owners, RootTypes(u, roots[..n]))
      invariant forall m :: m in b.owners ==> ReachedFrom(u, starts, b.owners[m])
    {
      RootsGrow(u, roots, n);
      ghost var before := b.owners;
      ok := b.EnsureNamed(roots[n]);
      MoreStarts(u, before, b.owners, RootType(u, roots[n]), starts);
      if !ok {
        assert Consistent(u, b.owners, b.schemas, b.visiting);
        ClashIsAmbiguous(u, b.owners, starts);
        return ok, map[];
      }
      MoreRegistered(u, b.owners, RootTypes(u, roots[..n]), RootType(u, roots[n]));
    }
    assert roots[..|roots|] == roots;
    WalkOutcome(u, b.owners, b.schemas, starts);
    return true, b.schemas;
  }

  lemma {:induction false} DescribedOnce(u: Universe, starts: set<TypeId>, m: map<string, Schema>,
          w: map<string, Schema>)
    requires WellFormed(u) && Describes(u, starts, m) && Describes(u, starts, w)
    ensures m == w
  {
    hide WellFormed, DefinitionOf, ReachedFrom;
    forall n ensures n in m <==> n in w {
      if n in m { var t: TypeId :| t < |u.types| && ReachedFrom(u, starts, t) && SchemaName(u, t) == n; }
      if n in w { var t: TypeId :| t < |u.types| && ReachedFrom(u, starts, t) && SchemaName(u, t) == n; }
    }
    forall n | n in m ensures m[n] == w[n] {
      var t: TypeId :| t < |u.types| && ReachedFrom(u, starts, t) && SchemaName(u, t) == n;
    }
  }

  /** Same roots in any order or multiplicity, same contract. */
  lemma {:induction false} ContractIgnoresRootOrder(u: Universe, roots: seq<TypeId>, others: seq<TypeId>,
          schemas: map<string, Schema>, otherSchemas: map<string, Schema>)
    requires WellFormed(u) && ValidRoots(u, roots) && ValidRoots(u, others)
    requires (forall r :: r in roots <==> r in others)
    requires Describes(u, RootTypes(u, roots), schemas) && Describes(u, RootTypes(u, others), otherSchemas)
    ensures schemas == otherSchemas
  {
    hide WellFormed, DefinitionOf, ReachedFrom, RootType, Describes;
    forall t ensures t in RootTypes(u, roots) <==> t in RootTypes(u, others) {
      if i :| 0 <= i < |roots| && t in RootType(u, roots[i]) { assert roots[i] in others; }
      if i :| 0 <= i < |others| && t in RootType(u, others[i]) { assert others[i] in roots; }
    }
    assert RootTypes(u, roots) == RootTypes(u, others);
    DescribedOnce(u, RootTypes(u, roots), schemas, otherSchemas);
  }

  // ---- Every reference resolves ----

  /** Every `$ref` anywhere inside `s` names a component in `names` and has no properties beside it. */
  ghost predicate RefsIn(s: Schema, names: set<string>) {
    && (s.ref == "" || (s.properties == map[] && exists n :: n in names && s.ref == REF_PREFIX + n))
    && (forall i :: 0 <= i < |s.anyOf| ==> RefsIn(s.anyOf[i], names))
    && (forall k :: k in s.properties ==> RefsIn(s.properties[k], names))
    && (s.items.Some? ==> RefsIn(s.items.value, names))
    && (s.additional.Some? ==> RefsIn(s.additional.value, names))
  }

  ghost function Names(u: Universe, d: set<TypeId>): set<string>
    requires forall t :: t in d ==> t < |u.types|
  {
    set t | t in d :: SchemaName(u, t)
  }

  /** The schemas written out by hand for single types contain no references. */
  ghost predicate FixedSchemasAreClosed(u: Universe) {
    forall t :: 0 <= t < |u.types| ==>
      match u.types[t].rule
      case Fixed(s) => RefsIn(s, {})
      case Composed(fixed, _) => forall k :: k in fixed ==> RefsIn(fixed[k], {})
      case _ => true
  }

  lemma {:induction false} RefsInMore(s: Schema, names: set<string>, more: set<string>)
    requires RefsIn(s, names) && names <= more
    ensures RefsIn(s, more)
  {
    forall i | 0 <= i < |s.anyOf| ensures RefsIn(s.anyOf[i], more) { RefsInMore(s.anyOf[i], names, more); }
    forall k | k in s.properties ensures RefsIn(s.properties[k], more) { RefsInMore(s.properties[k], names, more); }
    if s.items.Some? { RefsInMore(s.items.value, names, more); }
    if s.additional.Some? { RefsInMore(s.additional.value, names, more); }
  }

  lemma ObjectRefs(s: Schema, names: set<string>)
    requires RefsIn(Typed("object"), names) ==> RefsIn(s, names)
    ensures RefsIn(Finished(s), names)
  {
  }

  lemma {:induction false} InlineRefs(u: Universe, t: TypeId)
    requires WellFormed(u) && t < |u.types|
    ensures RefsIn(InlineOf(u, t), Names(u, InlineDeps(u, t)))
    decreases Weight(u, t), 1, 0
  {
    hide NameChars, PrimitiveType, FieldsOf, FieldDeps;
    var i := u.types[t];
    var names := Names(u, InlineDeps(u, t));
    if i.kind.Pointer? {
      InlineRefs(u, i.kind.elem);
    } else if IsSpecial(i) {
    } else if IsNamed(i) {
      assert SchemaName(u, t) in names;
    } else {
      match i.kind
      case Struct(fields) =>
        FieldRefs(u, Typed("object"), t, |fields|, names);
        ObjectRefs(FieldsOf(u, Typed("object"), t, |fields|), names);
      case Slice(e) => InlineRefs(u, e);
      case Array(e) => InlineRefs(u, e);
      case Map(e) => InlineRefs(u, e);
      case _ =>
    }
  }

  lemma PropertyRefs(u: Universe, acc: Schema, f: Field, inlined: Schema, names: set<string>)
    requires f.fieldType < |u.types| && RefsIn(acc, names) && RefsIn(inlined, names) && acc.ref == ""
    ensures RefsIn(WithProperty(u, acc, f, inlined), names)
  {
    assert RefsIn(Typed("string"), names);
  }

  lemma {:induction false} FieldRefs(u: Universe, acc: Schema, t: TypeId, n: nat, names: set<string>)
    requires WellFormed(u) && t < |u.types| && u.types[t].kind.Struct? && n <= |u.types[t].kind.fields|
    requires acc.ref == "" && RefsIn(acc, names) && Names(u, FieldDeps(u, t, n)) <= names
    ensures RefsIn(FieldsOf(u, acc, t, n), names)
    decreases u.order[t], 0, n
  {
    hide SchemaName, PrimitiveType, InlineOf, InlineDeps, RefsIn, WithProperty, IsRef, Names;
    if n > 0 {
      var prev := FieldsOf(u, acc, t, n - 1);
      NamesGrow(u, FieldDeps(u, t, n - 1), FieldDeps(u, t, n));
      FieldRefs(u, acc, t, n - 1, names);
      FieldsKeepKind(u, acc, t, n - 1);
      var f := u.types[t].kind.fields[n - 1];
      if Skipped(f) {
      } else if Embedded(u, f) {
        var e := Indirect(u, f.fieldType);
        NamesGrow(u, AllFieldDeps(u, e), FieldDeps(u, t, n));
        FieldRefs(u, prev, e, |u.types[e].kind.fields|, names);
      } else {
        InlineRefs(u, f.fieldType);
        NamesGrow(u, InlineDeps(u, f.fieldType), FieldDeps(u, t, n));
        RefsInMore(InlineOf(u, f.fieldType), Names(u, InlineDeps(u, f.fieldType)), names);
        PropertyRefs(u, prev, f, InlineOf(u, f.fieldType), names);
      }
    }
  }

  lemma NamesGrow(u: Universe, d: set<TypeId>, e: set<TypeId>)
    requires d <= e && forall t :: t in e ==> t < |u.types|
    ensures Names(u, d) <= Names(u, e)
  {
  }

  lemma {:induction false} ComposedRefs(u: Universe, fixed: map<string, Schema>, inlined: seq<(string, TypeId)>, n: nat,
          k: string)
    requires WellFormed(u) && n <= |inlined| && forall p :: p in inlined ==> p.1 < |u.types|
    requires forall k :: k in fixed ==> RefsIn(fixed[k], {})
    requires k in ComposedOf(u, fixed, inlined, n)
    ensures RefsIn(ComposedOf(u, fixed, inlined, n)[k], Names(u, ComposedDeps(u, inlined, n)))
  {
    hide WellFormed, InlineOf, InlineDeps, RefsIn;
    var names := Names(u, ComposedDeps(u, inlined, n));
    if n == 0 {
      RefsInMore(fixed[k], {}, names);
    } else if k == inlined[n - 1].0 {
      InlineRefs(u, inlined[n - 1].1);
      RefsInMore(InlineOf(u, inlined[n - 1].1), Names(u, InlineDeps(u, inlined[n - 1].1)), names);
    } else {
      ComposedRefs(u, fixed, inlined, n - 1, k);
      RefsInMore(ComposedOf(u, fixed, inlined, n - 1)[k], Names(u, ComposedDeps(u, inlined, n - 1)), names);
    }
  }

  lemma {:induction false} DefinitionRefs(u: Universe, t: TypeId)
    requires WellFormed(u) && FixedSchemasAreClosed(u) && t < |u.types|
    ensures RefsIn(DefinitionOf(u, t), Names(u, DefinitionDeps(u, t)))
  {
    hide InlineOf, InlineDeps, FieldsOf, FieldDeps;
    var i := u.types[t];
    var names := Names(u, DefinitionDeps(u, t));
    if i.kind.Struct? {
      FieldRefs(u, Typed("object"), t, |i.kind.fields|, Names(u, AllFieldDeps(u, t)));
      assert RefsIn(Typed("object"), Names(u, AllFieldDeps(u, t)));
      assert RefsIn(AllFieldsOf(u, t), Names(u, AllFieldDeps(u, t)));
    }
    match i.rule
    case Fixed(s) => RefsInMore(s, {}, names);
    case Composed(fixed, inlined) =>
      forall k | k in ComposedOf(u, fixed, inlined, |inlined|)
        ensures RefsIn(ComposedOf(u, fixed, inlined, |inlined|)[k], names)
      {
        ComposedRefs(u, fixed, inlined, |inlined|, k);
      }
    case Standard => InlineRefs(u, t);
    case _ =>
  }

  /** Section 8.2.3.1 of JSON Schema Core 2020-12: each `$ref` of a finished contract resolves inside it. */
  lemma {:induction false} EveryRefResolves(u: Universe, starts: set<TypeId>, schemas: map<string, Schema>,
          name: string)
    requires WellFormed(u) && FixedSchemasAreClosed(u) && Describes(u, starts, schemas) && name in schemas
    requires forall t :: t in starts ==> t < |u.types| && IsRef(u.types[t])
    ensures RefsIn(schemas[name], schemas.Keys)
  {
    hide WellFormed, DefinitionOf, DefinitionDeps, RefsIn;
    var t: TypeId :| t < |u.types| && ReachedFrom(u, starts, t) && SchemaName(u, t) == name;
    DefinitionRefs(u, t);
    forall d | d in DefinitionDeps(u, t) ensures SchemaName(u, d) in schemas {
      ReachedThenDependency(u, starts, t, d);
    }
    RefsInMore(DefinitionOf(u, t), Names(u, DefinitionDeps(u, t)), schemas.Keys);
  }

  lemma {:induction false} ReachesInThen(u: Universe, a: TypeId, b: TypeId, d: TypeId, n: nat)
    requires WellFormed(u) && a < |u.types| && b < |u.types| && ReachesIn(u, a, b, n) && d in DefinitionDeps(u, b)
    ensures ReachesIn(u, a, d, n + 1)
    decreases n
  {
    hide WellFormed, DefinitionDeps;
    if n == 0 {
      assert ReachesIn(u, d, d, 0);
    } else {
      var c :| c in DefinitionDeps(u, a) && ReachesIn(u, c, b, n - 1);
      ReachesInThen(u, c, b, d, n - 1);
    }
  }

  lemma {:induction false} ReachedThenDependency(u: Universe, starts: set<TypeId>, b: TypeId, d: TypeId)
    requires WellFormed(u) && b < |u.types| && ReachedFrom(u, starts, b) && d in DefinitionDeps(u, b)
    ensures ReachedFrom(u, starts, d)
  {
    hide WellFormed, DefinitionDeps;
    var a :| a in starts && a < |u.types| && Reaches(u, a, b);
    var n: nat :| ReachesIn(u, a, b, n);
    ReachesInThen(u, a, b, d, n);
  }

  // ---- Named types whose schema says nothing ----

  lemma {:induction false} FieldsKeepKind(u: Universe, acc: Schema, t: TypeId, n: nat)
    requires WellFormed(u) && t < |u.types| && u.types[t].kind.Struct? && n <= |u.types[t].kind.fields|
    ensures FieldsOf(u, acc, t, n).kind == acc.kind && FieldsOf(u, acc, t, n).ref == acc.ref
    decreases u.order[t], n
  {
    if n > 0 {
      FieldsKeepKind(u, acc, t, n - 1);
      var f := u.types[t].kind.fields[n - 1];
      if !Skipped(f) && Embedded(u, f) {
        var e := Indirect(u, f.fieldType);
        FieldsKeepKind(u, FieldsOf(u, acc, t, n - 1), e, |u.types[e].kind.fields|);
      }
    }
  }

  /**
   * A named type is described by a bare reference to itself exactly when it is a container, an interface or the like.
   */
  lemma {:induction false} SelfReferenceExactly(u: Universe, t: TypeId)
    requires WellFormed(u) && t < |u.types| && IsRef(u.types[t]) && u.types[t].rule.Standard?
    ensures DefinitionOf(u, t) == RefTo(SchemaName(u, t))
      <==> var k := u.types[t].kind; k.Slice? || k.Array? || k.Map? || k.Interface? || k.Other?
  {
    if u.types[t].kind.Struct? {
      FieldsKeepKind(u, Typed("object"), t, |u.types[t].kind.fields|);
    }
  }

  lemma {:induction false} ReachesRef(u: Universe, a: TypeId, b: TypeId, n: nat)
    requires WellFormed(u) && a < |u.types| && IsRef(u.types[a]) && ReachesIn(u, a, b, n)
    ensures b < |u.types| && IsRef(u.types[b])
    decreases n
  {
    hide WellFormed, DefinitionDeps, IsRef;
    if n > 0 {
      var c :| c in DefinitionDeps(u, a) && ReachesIn(u, c, b, n - 1);
      ReachesRef(u, c, b, n - 1);
    }
  }

  lemma {:induction false} ReachedIsRef(u: Universe, starts: set<TypeId>, b: TypeId)
    requires WellFormed(u) && ReachedFrom(u, starts, b)
    requires forall t :: t in starts ==> t < |u.types| && IsRef(u.types[t])
    ensures b < |u.types| && IsRef(u.types[b])
  {
    hide WellFormed, IsRef;
    var a :| a in starts && a < |u.types| && Reaches(u, a, b);
    var n: nat :| ReachesIn(u, a, b, n);
    ReachesRef(u, a, b, n);
  }

  /** A registered schema that is a reference refers to itself. */
  lemma {:induction false} RegisteredRefIsItsOwn(u: Universe, starts: set<TypeId>, schemas: map<string, Schema>,
          name: string)
    requires WellFormed(u) && FixedSchemasAreClosed(u) && Describes(u, starts, schemas) && name in schemas
    requires forall t :: t in starts ==> t < |u.types| && IsRef(u.types[t])
    ensures schemas[name].ref == "" || schemas[name].ref == REF_PREFIX + name
  {
    hide WellFormed, FixedSchemasAreClosed, DefinitionOf, ReachedFrom;
    var t: TypeId :| t < |u.types| && ReachedFrom(u, starts, t) && SchemaName(u, t) == name;
    ReachedIsRef(u, starts, t);
    DefinitionRef(u, t);
  }

  lemma {:induction false} DefinitionRef(u: Universe, t: TypeId)
    requires WellFormed(u) && FixedSchemasAreClosed(u) && t < |u.types| && IsRef(u.types[t])
    ensures DefinitionOf(u, t).ref in ["", REF_PREFIX + SchemaName(u, t)]
  {
    hide SchemaName, FieldsOf;
    if u.types[t].kind.Struct? {
      FieldsKeepKind(u, Typed("object"), t, |u.types[t].kind.fields|);
    }
  }
}
