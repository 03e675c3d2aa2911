/**
 * Go values and their JSON encoding (package encoding/json), and that the schemas of a finished contract accept what is
 * encoded (cmd/workflowcontractgen/main.go).
 */
module SchemaEncoding {
  import opened Text
  import opened SchemaBuilder
  import opened SchemaMeaning

  /** Numbers, raw messages and the contents of interfaces are given by their JSON; bytes and times by their text. */
  datatype Value =
    | Nil | Pointed(target: Value)
    | Truth(b: bool) | Number(json: Json) | Words(s: string) | Bytes(text: string) | Raw(json: Json)
    | Elements(items: seq<Value>) | Entries(entries: map<string, Value>) | Fields(fields: seq<Value>)

  /** `drops` tells which values an option omits: the empty ones, or those that are zero. */
  datatype Encoder = Encoder(drops: (string, Value) -> bool)

  predicate Omitted(c: Encoder, f: Field, v: Value) {
    || ("omitempty" in f.options && c.drops("omitempty", v))
    || ("omitzero" in f.options && c.drops("omitzero", v))
  }

  /** The value of an embedded struct, behind its pointers. */
  function Target(v: Value): Value {
    if v.Pointed? then Target(v.target) else v
  }

  lemma {:induction false} TargetIsInside(v: Value)
    ensures Target(v) == v || Target(v) < v
  {
    if v.Pointed? { TargetIsInside(v.target); }
  }

  /** A struct's value has one value for each field; no embedded pointer is nil. */
  ghost predicate FitsFields(u: Universe, t: TypeId, v: Value)
    requires WellFormed(u) && Regular(u) && t < |u.types| && u.types[t].kind.Struct?
    decreases v, 0, 0
  {
    && v.Fields? && |v.fields| == |u.types[t].kind.fields|
    && forall n :: 0 <= n < |v.fields| ==>
         var f := u.types[t].kind.fields[n];
         f.fieldType < |u.types| && (Unencoded(f) || FitsField(u, f, v.fields[n]))
  }

  ghost predicate FitsField(u: Universe, f: Field, w: Value)
    requires WellFormed(u) && Regular(u) && f.fieldType < |u.types|
    decreases w, 2, 0
  {
    if Flattened(u, f) then
      var e := Indirect(u, f.fieldType);
      TargetIsInside(w);
      FitsFields(u, e, Target(w))
    else
      && Fits(u, f.fieldType, w) && "string" !in f.options
      && (f.tsString ==> PlainText(u.types[f.fieldType]))
  }

  /** Strings and times are encoded as text. */
  predicate PlainText(i: TypeInfo) {
    !i.kind.Pointer? && (IsTime(i) || (i.kind.String? && !IsRawJson(i)))
  }

  /** A value of the type without nil slices and maps, without arrays of bytes, with enumerated strings as listed. */
  ghost predicate Fits(u: Universe, t: TypeId, v: Value)
    requires WellFormed(u) && Regular(u) && t < |u.types|
    decreases v, 1, 0
  {
    var i := u.types[t];
    if i.kind.Pointer? then v.Nil? || (v.Pointed? && Fits(u, i.kind.elem, v.target))
    else if IsTime(i) then v.Words?
    else if IsRawJson(i) then v.Raw?
    else match i.kind
      case Bool => v.Truth?
      case Integer | Uint8 => v.Number? && v.json.JInteger?
      case Float => v.Number? && (v.json.JInteger? || v.json.JDecimal?)
      case String => v.Words? && (IsNamed(i) && i.rule.Enumerated? ==> v.s in i.rule.values)
      case Interface => v.Raw?
      case Other => false
      case Slice(e) =>
        if u.types[e].kind.Uint8? then v.Bytes?
        else v.Elements? && forall k :: 0 <= k < |v.items| ==> Fits(u, e, v.items[k])
      case Array(e) =>
        !u.types[e].kind.Uint8? && v.Elements? && forall k :: 0 <= k < |v.items| ==> Fits(u, e, v.items[k])
      case Map(e) => v.Entries? && forall k :: k in v.entries ==> Fits(u, e, v.entries[k])
      case Struct(_) => FitsFields(u, t, v)
  }

  /** What fits a struct has values that fit its fields. */
  lemma {:induction false} FieldFits(u: Universe, t: TypeId, v: Value, n: nat)
    requires WellFormed(u) && Regular(u) && t < |u.types| && u.types[t].kind.Struct? && FitsFields(u, t, v)
    requires n < |u.types[t].kind.fields|
    ensures v.Fields? && |v.fields| == |u.types[t].kind.fields|
    ensures var f, w := u.types[t].kind.fields[n], v.fields[n];
      && f.fieldType < |u.types| && w < v
      && (!Unencoded(f) ==>
          if Flattened(u, f) then FitsFields(u, Indirect(u, f.fieldType), Target(w)) && Target(w) < v
          else Fits(u, f.fieldType, w) && (f.tsString ==> PlainText(u.types[f.fieldType])))
  {
    hide WellFormed, Regular, Unencoded, Flattened, InRange;
    FieldFacts(u, t, n);
    var f, w := u.types[t].kind.fields[n], v.fields[n];
    TargetIsInside(w);
    if !Unencoded(f) { assert FitsField(u, f, w); }
  }

  // ---- The encoding ----

  ghost function Encode(c: Encoder, u: Universe, t: TypeId, v: Value): Json
    requires WellFormed(u) && Regular(u) && t < |u.types| && Fits(u, t, v)
    decreases v, 1, 0, 0
  {
    var i := u.types[t];
    if i.kind.Pointer? then if v.Nil? then JNull else Encode(c, u, i.kind.elem, v.target)
    else if IsTime(i) then JText(v.s)
    else if IsRawJson(i) then v.json
    else match i.kind
      case Bool => JBool(v.b)
      case Integer | Uint8 | Float | Interface => v.json
      case String => JText(v.s)
      case Other => JNull
      case Slice(e) => if v.Bytes? then JText(v.text) else EncodedItems(c, u, e, v)
      case Array(e) => EncodedItems(c, u, e, v)
      case Map(e) => JObject(map k | k in v.entries :: Encode(c, u, e, v.entries[k]))
      case Struct(fields) => JObject(EncodedFields(c, u, t, v, |fields|))
  }

  ghost function EncodedItems(c: Encoder, u: Universe, e: TypeId, v: Value): Json
    requires WellFormed(u) && Regular(u) && e < |u.types|
    requires v.Elements? && forall k :: 0 <= k < |v.items| ==> Fits(u, e, v.items[k])
    decreases v, 0, 0, 0
  {
    JArray(seq(|v.items|, k requires 0 <= k < |v.items| => Encode(c, u, e, v.items[k])))
  }

  /** Each field under its name, unless it is omitted; the fields of embedded structs among them. */
  ghost function EncodedFields(c: Encoder, u: Universe, t: TypeId, v: Value, n: nat): map<string, Json>
    requires WellFormed(u) && Regular(u) && t < |u.types| && u.types[t].kind.Struct?
    requires n <= |u.types[t].kind.fields| && FitsFields(u, t, v)
    decreases v, 0, u.order[t], n
  {
    if n == 0 then map[]
    else
      FieldFits(u, t, v, n - 1);
      FieldFacts(u, t, n - 1);
      var f, w := u.types[t].kind.fields[n - 1], v.fields[n - 1];
      var front := EncodedFields(c, u, t, v, n - 1);
      if Unencoded(f) then front
      else if Flattened(u, f) then
        var e := Indirect(u, f.fieldType);
        front + EncodedFields(c, u, e, Target(w), |u.types[e].kind.fields|)
      else if Omitted(c, f, w) then front
      else front[MemberName(f) := Encode(c, u, f.fieldType, w)]
  }

  // ---- What is encoded is permitted ----

  /** An object has the members that are always there, and no member but permitted ones. */
  ghost predicate MembersPermitted(u: Universe, fields: seq<Field>, o: map<string, Json>)
    requires WellFormed(u) && Regular(u) && forall i :: 0 <= i < |fields| ==> fields[i].fieldType < |u.types|
  {
    && (forall k :: k in o ==> HasName(fields, k))
    && (forall i :: 0 <= i < |fields| && AlwaysThere(u, fields[i]) ==> MemberName(fields[i]) in o)
    && forall i :: 0 <= i < |fields| && MemberName(fields[i]) in o ==>
         MemberPermits(u, fields[i], o[MemberName(fields[i])])
  }

  lemma {:induction false} NamesApart(a: seq<Field>, b: seq<Field>)
    requires DistinctNames(a + b)
    ensures DistinctNames(a) && DistinctNames(b)
    ensures forall i, k :: 0 <= i < |a| && HasName(b, k) ==> MemberName(a[i]) != k
    ensures forall i, k :: 0 <= i < |b| && HasName(a, k) ==> MemberName(b[i]) != k
  {
    hide MemberName;
    assert forall i :: 0 <= i < |a| ==> (a + b)[i] == a[i];
    assert forall i :: 0 <= i < |b| ==> (a + b)[|a| + i] == b[i];
  }

  lemma {:induction false} BothPermitted(u: Universe, a: seq<Field>, b: seq<Field>, o: map<string, Json>,
          p: map<string, Json>)
    requires WellFormed(u) && Regular(u) && (forall i :: 0 <= i < |a| ==> a[i].fieldType < |u.types|)
    requires forall i :: 0 <= i < |b| ==> b[i].fieldType < |u.types|
    requires DistinctNames(a + b) && MembersPermitted(u, a, o) && MembersPermitted(u, b, p)
    ensures forall i :: 0 <= i < |a + b| ==> (a + b)[i].fieldType < |u.types|
    ensures MembersPermitted(u, a + b, o + p)
  {
    hide WellFormed, Regular, MemberName, MemberPermits, AlwaysThere, DistinctNames, HasName;
    NamesApart(a, b);
    var all := a + b;
    forall k | k in o + p ensures HasName(all, k) {
      NameOfBoth(a, b, k);
    }
    forall i | 0 <= i < |all| && MemberName(all[i]) in o + p
      ensures MemberPermits(u, all[i], (o + p)[MemberName(all[i])])
    {
      assert all[i] == if i < |a| then a[i] else b[i - |a|];
    }
    forall i | 0 <= i < |all| && AlwaysThere(u, all[i]) ensures MemberName(all[i]) in o + p {
      assert all[i] == if i < |a| then a[i] else b[i - |a|];
    }
  }

  lemma {:induction false} NameOfBoth(a: seq<Field>, b: seq<Field>, k: string)
    ensures HasName(a + b, k) <==> HasName(a, k) || HasName(b, k)
  {
    hide MemberName;
    var all := a + b;
    if HasName(a, k) {
      var i :| 0 <= i < |a| && MemberName(a[i]) == k;
      assert MemberName(all[i]) == k;
    }
    if HasName(b, k) {
      var i :| 0 <= i < |b| && MemberName(b[i]) == k;
      assert MemberName(all[|a| + i]) == k;
    }
  }

  lemma {:induction false} LonePermitted(c: Encoder, u: Universe, f: Field, w: Value, j: Json)
    requires WellFormed(u) && Regular(u) && f.fieldType < |u.types| && MemberPermits(u, f, j)
    ensures MembersPermitted(u, [f], map[MemberName(f) := j])
    ensures Omitted(c, f, w) ==> MembersPermitted(u, [f], map[])
  {
    hide WellFormed, Regular, MemberPermits;
    assert [f][0] == f;
  }

  lemma {:induction false} NothingPermitted(u: Universe)
    requires WellFormed(u) && Regular(u)
    ensures MembersPermitted(u, [], map[])
  {
  }

  lemma {:induction false} FieldsPermitted(c: Encoder, u: Universe, t: TypeId, v: Value, n: nat)
    requires WellFormed(u) && Regular(u) && DistinctMembers(u) && t < |u.types| && u.types[t].kind.Struct?
    requires n <= |u.types[t].kind.fields| && FitsFields(u, t, v) && DistinctNames(Members(u, t, n))
    ensures MembersPermitted(u, Members(u, t, n), EncodedFields(c, u, t, v, n))
    decreases v, 0, u.order[t], n
  {
    hide WellFormed, Regular, DistinctMembers, DistinctNames, MembersPermitted, Encode, Omitted, MemberName,
      MemberPermits, Unencoded, Flattened, Skipped, Embedded, AlwaysThere, InRange, Fits, PlainText, Target;
    if n == 0 {
      NothingPermitted(u);
    } else {
      FieldFacts(u, t, n - 1);
      FieldFits(u, t, v, n - 1);
      var f, w := u.types[t].kind.fields[n - 1], v.fields[n - 1];
      var front, o := Members(u, t, n - 1), EncodedFields(c, u, t, v, n - 1);
      MembersMore(u, t, n);
      NamesApart(front, OwnMembers(u, f));
      FieldsPermitted(c, u, t, v, n - 1);
      if Unencoded(f) {
        assert front + [] == front;
      } else if Flattened(u, f) {
        var e := Indirect(u, f.fieldType);
        FieldsPermitted(c, u, e, Target(w), |u.types[e].kind.fields|);
        BothPermitted(u, front, AllMembers(u, e), o,
          EncodedFields(c, u, e, Target(w), |u.types[e].kind.fields|));
      } else {
        FieldPermitted(c, u, f, w);
        var j := Encode(c, u, f.fieldType, w);
        LonePermitted(c, u, f, w, j);
        if Omitted(c, f, w) {
          BothPermitted(u, front, [f], o, map[]);
          assert o + map[] == o;
        } else {
          BothPermitted(u, front, [f], o, map[MemberName(f) := j]);
          assert o + map[MemberName(f) := j] == o[MemberName(f) := j];
        }
      }
    }
  }

  /** The members that one field contributes. */
  ghost function OwnMembers(u: Universe, f: Field): seq<Field>
    requires WellFormed(u) && Regular(u) && f.fieldType < |u.types|
  {
    if Unencoded(f) then []
    else if Flattened(u, f) then AllMembers(u, Indirect(u, f.fieldType))
    else [f]
  }

  lemma MembersMore(u: Universe, t: TypeId, n: nat)
    requires WellFormed(u) && Regular(u) && t < |u.types| && u.types[t].kind.Struct?
    requires 0 < n <= |u.types[t].kind.fields| && u.types[t].kind.fields[n - 1].fieldType < |u.types|
    ensures Members(u, t, n) == Members(u, t, n - 1) + OwnMembers(u, u.types[t].kind.fields[n - 1])
  {
    hide Regular;
  }

  lemma {:induction false} FieldPermitted(c: Encoder, u: Universe, f: Field, w: Value)
    requires WellFormed(u) && Regular(u) && DistinctMembers(u) && f.fieldType < |u.types|
    requires Fits(u, f.fieldType, w) && (f.tsString ==> PlainText(u.types[f.fieldType]))
    ensures MemberPermits(u, f, Encode(c, u, f.fieldType, w))
    decreases w, 3, 0, 0
  {
    hide WellFormed, Regular, DistinctMembers, Permits, Fits, Encode;
    if f.tsString {
      PlainTextIsText(c, u, f.fieldType, w);
    } else {
      EncodedIsPermitted(c, u, f.fieldType, w);
    }
  }

  lemma PlainTextIsText(c: Encoder, u: Universe, t: TypeId, v: Value)
    requires WellFormed(u) && Regular(u) && t < |u.types| && Fits(u, t, v) && PlainText(u.types[t])
    ensures Encode(c, u, t, v).JText?
  {
    hide Regular;
  }

  lemma {:induction false} StructIsPermitted(c: Encoder, u: Universe, t: TypeId, v: Value)
    requires WellFormed(u) && Regular(u) && DistinctMembers(u) && t < |u.types| && Fits(u, t, v)
    requires u.types[t].kind.Struct? && !IsSpecial(u.types[t])
    requires IsNamed(u.types[t]) ==> u.types[t].rule.Standard?
    ensures Permits(u, t, Encode(c, u, t, v))
    decreases v, 1, 0, 0
  {
    var n := |u.types[t].kind.fields|;
    assert FitsFields(u, t, v) && v.Fields?;
    assert DistinctNames(AllMembers(u, t));
    PermitsStruct(u, t, Encode(c, u, t, v));
    assert Encode(c, u, t, v) == JObject(EncodedFields(c, u, t, v, n));
    hide WellFormed, Regular, DistinctMembers, Members, EncodedFields, FitsFields, MemberPermits, AlwaysThere,
      MemberName, Permits, Encode;
    FieldsPermitted(c, u, t, v, n);
  }

  lemma {:induction false} ItemsArePermitted(c: Encoder, u: Universe, t: TypeId, v: Value)
    requires WellFormed(u) && Regular(u) && DistinctMembers(u) && t < |u.types| && Fits(u, t, v)
    requires (u.types[t].kind.Slice? || u.types[t].kind.Array?) && !IsSpecial(u.types[t])
    ensures u.types[t].kind.elem < |u.types| && ItemsPermitted(u, u.types[t].kind.elem, Encode(c, u, t, v))
    decreases v, 1, 0, 0
  {
    hide Regular, DistinctMembers, Permits;
    if v.Elements? {
      forall k | 0 <= k < |v.items|
        ensures Permits(u, u.types[t].kind.elem, Encode(c, u, u.types[t].kind.elem, v.items[k]))
      {
        EncodedIsPermitted(c, u, u.types[t].kind.elem, v.items[k]);
      }
    }
  }

  lemma RuleFacts(u: Universe, t: TypeId)
    requires WellFormed(u) && Regular(u) && t < |u.types|
    ensures u.types[t].rule.Standard? || (u.types[t].rule.Enumerated? && u.types[t].kind.String?)
  {
  }

  /** Every encoding of a value of a type is one that the type permits. */
  lemma {:induction false} EncodedIsPermitted(c: Encoder, u: Universe, t: TypeId, v: Value)
    requires WellFormed(u) && Regular(u) && DistinctMembers(u) && t < |u.types| && Fits(u, t, v)
    ensures Permits(u, t, Encode(c, u, t, v))
    decreases v, 2, 0, 0
  {
    RuleFacts(u, t);
    hide Regular, DistinctMembers, Members, FitsFields, EncodedFields, MemberPermits;
    var i := u.types[t];
    if i.kind.Pointer? {
      if v.Pointed? { EncodedIsPermitted(c, u, i.kind.elem, v.target); }
    } else if !IsSpecial(i) && !(IsNamed(i) && SaysNothing(i.kind)) {
      match i.kind
      case Struct(fields) => StructIsPermitted(c, u, t, v);
      case Slice(e) => ItemsArePermitted(c, u, t, v);
      case Array(e) => ItemsArePermitted(c, u, t, v);
      case Map(e) =>
        forall k | k in v.entries ensures Permits(u, e, Encode(c, u, e, v.entries[k])) {
          EncodedIsPermitted(c, u, e, v.entries[k]);
        }
      case _ =>
    }
  }

  /**
   * In a finished contract, the schema that is registered for a type accepts every encoding of a value of the type that
   * has no nil slice, map or embedded pointer and no array of bytes.
   */
  lemma {:induction false} EncodedIsAccepted(c: Encoder, u: Universe, starts: set<TypeId>, schemas: map<string, Schema>,
          t: TypeId, v: Value)
    requires WellFormed(u) && Regular(u) && DistinctMembers(u) && Describes(u, starts, schemas)
    requires forall s :: s in starts ==> s < |u.types| && IsRef(u.types[s])
    requires t < |u.types| && ReachedFrom(u, starts, t) && Fits(u, t, v)
    ensures SchemaName(u, t) in schemas && Accepts(schemas, RefTo(SchemaName(u, t)), Encode(c, u, t, v))
  {
    hide *;
    EncodedIsPermitted(c, u, t, v);
    ContractMeansTypes(u, starts, schemas, t, Encode(c, u, t, v));
  }

  /**
   * Those are no accident: where a slice or map has no name of its own, the null that encodes a nil one is refused, and
   * so are the numbers that encode an array of bytes.
   */
  lemma {:induction false} NilAndByteArraysAreRefused(u: Universe, schemas: map<string, Schema>, t: TypeId, j: Json)
    requires WellFormed(u) && t < |u.types| && Unnamed(u.types[t])
    ensures var k := u.types[t].kind;
      && (k.Slice? || k.Map? ==> !Accepts(schemas, InlineOf(u, t), JNull))
      && (k.Array? && k.elem < |u.types| && u.types[k.elem].kind.Uint8? && j.JArray? ==>
          !Accepts(schemas, InlineOf(u, t), j))
  {
    InlineUnnamed(u, t);
    hide WellFormed, InlineOf;
  }
}
