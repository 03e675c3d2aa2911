/**
 * Request schemas projected along route-bound fields (cmd/workflowcontractgen/main.go). Schemas are objects that share
 * children.
 */
module SchemaProjection {
  import opened Text

  /** `body` stands for the fields that are only copied. */
  class Schema {
    var ref: string
    var description: string
    var body: string
    var properties: map<string, Schema>
    var required: seq<string>
    var children: seq<Schema>

    /** cloneSchema */
    constructor Clone(s: Schema)
      ensures ref == s.ref && description == s.description && body == s.body
      ensures properties == s.properties && required == s.required && children == s.children
    {
      ref, description, body := s.ref, s.description, s.body;
      properties, required, children := s.properties, s.required, s.children;
    }
  }

  /** The part of a reference after its last slash. */
  function RefName(ref: string): string {
    var i := FirstIndex(ref, IsSlash);
    if i < |ref| then RefName(ref[i + 1..]) else ref
  }

  predicate IsSlash(c: char) { c == '/' }

  /** slices.DeleteFunc for the names in `names` */
  function Without(required: seq<string>, names: set<string>): (r: seq<string>)
    ensures forall x :: x in r <==> x in required && x !in names
  {
    if required == [] then []
    else (if required[0] in names then [] else [required[0]]) + Without(required[1..], names)
  }

  function NamesIn(s: seq<string>): set<string> { set n | n in s }

  lemma {:induction false} WithoutTwice(required: seq<string>, names: set<string>, more: set<string>)
    ensures Without(Without(required, names), more) == Without(required, names + more)
    decreases |required|
  {
    if required != [] {
      WithoutTwice(required[1..], names, more);
      var rest := Without(required[1..], names);
      if required[0] in names {
        assert Without(required, names) == rest;
      } else {
        assert ([required[0]] + rest)[1..] == rest;
      }
    }
  }

  lemma {:induction false} WithoutNone(required: seq<string>)
    ensures Without(required, {}) == required
    decreases |required|
  {
    if required != [] { WithoutNone(required[1..]); }
  }

  /**
   * What the builder leaves: a set of schemas closed under properties and references, where a reference has no
   * properties of its own and a registered schema refers at most to itself.
   */
  ghost predicate Built(schemas: map<string, Schema>, heap: set<Schema>)
    reads heap
  {
    && (forall n :: n in schemas ==> schemas[n] in heap)
    && (forall s, n :: s in heap && n in s.properties ==> s.properties[n] in heap)
    && (forall s :: s in heap && s.ref != "" ==> RefName(s.ref) in schemas && s.properties == map[])
    && (forall n :: n in schemas && schemas[n].ref != "" ==> RefName(schemas[n].ref) == n)
  }

  /** The schema a reference stands for. */
  ghost function Target(schemas: map<string, Schema>, s: Schema, heap: set<Schema>): (t: Schema)
    requires s in heap && Built(schemas, heap)
    reads heap
    ensures t in heap
  {
    if s.ref != "" then schemas[RefName(s.ref)] else s
  }

  /** The schema at the end of a path of property names, through references. */
  ghost function At(schemas: map<string, Schema>, s: Schema, path: seq<string>, heap: set<Schema>): (a: Schema?)
    requires s in heap && Built(schemas, heap)
    reads heap
    ensures a != null ==> a in heap
    decreases |path|
  {
    if path == [] then s
    else
      var t := Target(schemas, s, heap);
      if path[0] in t.properties then At(schemas, t.properties[path[0]], path[1..], heap) else null
  }

  function ServerSupplied(parameter: string): string {
    "Server supplied from the {" + parameter + "} path parameter; compatibility values are accepted but ignored."
  }

  /** Descriptions tell the parameters apart. */
  lemma {:induction false} DescriptionNamesParameter(a: string, b: string)
    requires ServerSupplied(a) == ServerSupplied(b)
    ensures a == b
  {
    var start := "Server supplied from the {";
    var end := "} path parameter; compatibility values are accepted but ignored.";
    assert ServerSupplied(a) == start + a + end && ServerSupplied(b) == start + b + end;
    assert a == ServerSupplied(a)[|start|..|ServerSupplied(a)| - |end|];
    assert b == ServerSupplied(b)[|start|..|ServerSupplied(b)| - |end|];
  }

  lemma {:induction false} AtInLarger(schemas: map<string, Schema>, s: Schema, path: seq<string>, heap: set<Schema>,
          larger: set<Schema>)
    requires s in heap && heap <= larger && Built(schemas, heap) && Built(schemas, larger)
    ensures At(schemas, s, path, larger) == At(schemas, s, path, heap)
    decreases |path|
  {
    if path != [] {
      var t := Target(schemas, s, heap);
      if path[0] in t.properties { AtInLarger(schemas, t.properties[path[0]], path[1..], heap, larger); }
    }
  }

  /** `n` copies `t`, apart from its description, from what it requires and from the property `changed`. */
  ghost predicate Copies(n: Schema, t: Schema, changed: Option<string>)
    reads n, t
  {
    && n.ref == t.ref && n.body == t.body && n.children == t.children && n.properties.Keys == t.properties.Keys
    && (forall k :: k in t.properties && changed != Some(k) ==> n.properties[k] == t.properties[k])
  }

  /**
   * What stands at a path towards the field: a described copy of the field itself, above it a copy of what stood there.
   */
  ghost predicate Changed(schemas: map<string, Schema>, o: Schema, n: Schema, rest: seq<string>, end: bool,
          parameter: string, heap: set<Schema>)
    requires o in heap && Built(schemas, heap)
    reads heap, n
  {
    && n !in heap
    && if end then Copies(n, o, None) && n.description == ServerSupplied(parameter) && n.required == o.required
       else
         var t := Target(schemas, o, heap);
         && Copies(n, t, if rest == [] then None else Some(rest[0])) && n.description == t.description
         && n.required == if |rest| == 1 && rest[0] in t.properties then Without(t.required, {rest[0]}) else t.required
  }

  /** `r` differs from `value` exactly along the path `fields`: every other path leads to the very schema it led to. */
  ghost predicate Projects(schemas: map<string, Schema>, value: Schema, r: Schema, fields: seq<string>, end: bool,
          parameter: string, heap: set<Schema>, larger: set<Schema>)
    requires value in heap && r in larger && heap <= larger && Built(schemas, heap) && Built(schemas, larger)
    reads heap, larger
  {
    && (forall path :: !(path <= fields) ==> At(schemas, r, path, larger) == At(schemas, value, path, heap))
    && (forall path :: path <= fields && At(schemas, value, path, heap) != null ==>
          At(schemas, r, path, larger) != null
          && Changed(schemas, At(schemas, value, path, heap), At(schemas, r, path, larger), fields[|path|..],
            end && path == fields, parameter, heap))
  }

  ghost predicate States(schemas: map<string, Schema>, value: Schema, r: Schema, heap: set<Schema>, larger: set<Schema>)
    reads heap, larger
  {
    value in heap && r in larger && heap <= larger && Built(schemas, heap) && Built(schemas, larger)
  }

  lemma {:induction false} OldPathsStay(schemas: map<string, Schema>, s: Schema, heap: set<Schema>, larger: set<Schema>)
    requires s in heap && heap <= larger && Built(schemas, heap) && Built(schemas, larger)
    ensures forall path :: At(schemas, s, path, larger) == At(schemas, s, path, heap)
  {
    forall path ensures At(schemas, s, path, larger) == At(schemas, s, path, heap) {
      AtInLarger(schemas, s, path, heap, larger);
    }
  }

  /** A described copy. */
  lemma {:induction false} DescribedProjects(schemas: map<string, Schema>, o: Schema, n: Schema, parameter: string,
          heap: set<Schema>, larger: set<Schema>)
    requires States(schemas, o, n, heap, larger) && n !in heap
    requires Copies(n, o, None) && n.description == ServerSupplied(parameter) && n.required == o.required
    ensures Projects(schemas, o, n, [], true, parameter, heap, larger)
  {
    var t := Target(schemas, o, heap);
    forall path | !(path <= []) ensures At(schemas, n, path, larger) == At(schemas, o, path, heap) {
      assert path != [];
      if path[0] in t.properties {
        AtInLarger(schemas, t.properties[path[0]], path[1..], heap, larger);
      }
    }
  }

  /** A copy of the target, when the field is not there. */
  lemma {:induction false} CopyProjects(schemas: map<string, Schema>, value: Schema, r: Schema, fields: seq<string>,
          parameter: string, heap: set<Schema>, larger: set<Schema>)
    requires States(schemas, value, r, heap, larger) && r !in heap
    requires var t := Target(schemas, value, heap);
      && Copies(r, t, None) && r.description == t.description && r.required == t.required
      && (fields == [] || fields[0] !in t.properties)
    ensures Projects(schemas, value, r, fields, fields != [], parameter, heap, larger)
  {
    var t := Target(schemas, value, heap);
    forall path | path != [] && !(path <= fields)
      ensures At(schemas, r, path, larger) == At(schemas, value, path, heap) {
      if path[0] in t.properties {
        AtInLarger(schemas, t.properties[path[0]], path[1..], heap, larger);
      }
    }
    forall path | path <= fields && At(schemas, value, path, heap) != null ensures path == [] {
    }
  }

  /** A copy of the target whose first property on the way is projected. */
  lemma {:induction false} ChildProjects(schemas: map<string, Schema>, value: Schema, r: Schema, fields: seq<string>,
          parameter: string, heap: set<Schema>, larger: set<Schema>)
    requires States(schemas, value, r, heap, larger) && r !in heap && fields != []
    requires var t := Target(schemas, value, heap);
      && fields[0] in t.properties && Copies(r, t, Some(fields[0])) && r.description == t.description
      && r.required == (if |fields| == 1 then Without(t.required, {fields[0]}) else t.required)
      && Projects(schemas, t.properties[fields[0]], r.properties[fields[0]], fields[1..], true, parameter, heap, larger)
    ensures Projects(schemas, value, r, fields, true, parameter, heap, larger)
  {
    hide Changed;
    var t := Target(schemas, value, heap);
    assert Target(schemas, r, larger) == r;
    forall path | !(path <= fields) ensures At(schemas, r, path, larger) == At(schemas, value, path, heap) {
      if path[0] in t.properties {
        if path[0] == fields[0] {
          PrefixOfRest(path, fields);
        } else {
          AtInLarger(schemas, t.properties[path[0]], path[1..], heap, larger);
        }
      }
    }
    assert Changed(schemas, value, r, fields, false, parameter, heap) by {
      ChangedHere(schemas, value, r, fields, parameter, heap);
    }
    forall path | path <= fields && At(schemas, value, path, heap) != null
      ensures At(schemas, r, path, larger) != null
      ensures Changed(schemas, At(schemas, value, path, heap), At(schemas, r, path, larger), fields[|path|..],
        path == fields, parameter, heap)
    {
      if path == [] {
        assert fields[0..] == fields;
      } else {
        PrefixOfRest(path, fields);
        assert fields[1..][|path[1..]|..] == fields[|path|..];
        assert path[1..] == fields[1..] <==> path == fields;
      }
    }
  }

  lemma ChangedHere(schemas: map<string, Schema>, value: Schema, r: Schema, fields: seq<string>, parameter: string,
          heap: set<Schema>)
    requires value in heap && Built(schemas, heap) && r !in heap && fields != []
    requires var t := Target(schemas, value, heap);
      && fields[0] in t.properties && Copies(r, t, Some(fields[0])) && r.description == t.description
      && r.required == (if |fields| == 1 then Without(t.required, {fields[0]}) else t.required)
    ensures Changed(schemas, value, r, fields, false, parameter, heap)
  {
  }

  lemma {:induction false} PrefixOfRest(path: seq<string>, fields: seq<string>)
    requires path != [] && fields != [] && path[0] == fields[0]
    ensures path[1..] <= fields[1..] <==> path <= fields
    ensures path[1..] == fields[1..] <==> path == fields
  {
    assert path == [path[0]] + path[1..] && fields == [fields[0]] + fields[1..];
  }

  /** A schema of the heap, or one copied from it, keeps what the builder built. */
  lemma BuiltWith(schemas: map<string, Schema>, heap: set<Schema>, s: Schema)
    requires Built(schemas, heap)
    requires forall n :: n in s.properties ==> s.properties[n] in heap
    requires s.ref != "" ==> RefName(s.ref) in schemas && s.properties == map[]
    ensures Built(schemas, heap + {s})
  {
  }

  lemma BuiltFacts(schemas: map<string, Schema>, heap: set<Schema>, s: Schema)
    requires s in heap && Built(schemas, heap)
    ensures forall n :: n in s.properties ==> s.properties[n] in heap
    ensures s.ref != "" ==> RefName(s.ref) in schemas && s.properties == map[] && schemas[RefName(s.ref)] in heap
  {
  }

  /** A copy of the schema that a possible reference stands for. */
  method CloneTarget(schemas: map<string, Schema>, value: Schema, ghost heap: set<Schema>) returns (projected: Schema)
    requires value in heap && Built(schemas, heap)
    ensures fresh(projected) && projected !in heap && Built(schemas, heap + {projected})
    ensures var t := Target(schemas, value, heap);
      Copies(projected, t, None) && projected.description == t.description && projected.required == t.required
  {
    hide Built;
    BuiltFacts(schemas, heap, value);
    projected := new Schema.Clone(value);
    if projected.ref != "" {
      projected := new Schema.Clone(schemas[RefName(projected.ref)]);
      BuiltFacts(schemas, heap, schemas[RefName(value.ref)]);
    }
    BuiltWith(schemas, heap, projected);
  }

  /** The end of the path. */
  method DescribeField(projected: Schema, name: string, parameter: string) returns (described: Schema)
    requires name in projected.properties && projected.properties[name] != projected
    modifies projected
    ensures fresh(described) && Copies(described, old(projected.properties[name]), None)
    ensures described.description == ServerSupplied(parameter)
      && described.required == old(projected.properties[name].required)
    ensures projected.properties == old(projected.properties)[name := described]
    ensures projected.required == Without(old(projected.required), {name})
    ensures unchanged(projected`ref) && unchanged(projected`body) && unchanged(projected`description)
      && unchanged(projected`children)
  {
    described := new Schema.Clone(projected.properties[name]);
    described.description := ServerSupplied(parameter);
    projected.properties := projected.properties[name := described];
    projected.required := Without(projected.required, {name});
  }

  /** A copy whose last field on the way is described and no longer required. */
  lemma {:induction false} EndProjects(schemas: map<string, Schema>, value: Schema, projected: Schema, name: string,
          parameter: string, heap: set<Schema>)
    requires value in heap && projected !in heap && Built(schemas, heap)
    requires var t := Target(schemas, value, heap);
      && name in t.properties && Copies(projected, t, Some(name)) && projected.description == t.description
      && projected.required == Without(t.required, {name}) && projected.properties[name] !in heap
      && projected.properties[name] != projected
    requires var o, n := Target(schemas, value, heap).properties[name], projected.properties[name];
      Copies(n, o, None) && n.description == ServerSupplied(parameter) && n.required == o.required
    ensures var larger := heap + {projected.properties[name]} + {projected};
      && States(schemas, value, projected, heap, larger)
      && Projects(schemas, value, projected, [name], true, parameter, heap, larger)
  {
    hide Projects, Built, At, Changed, Target, Without;
    var t := Target(schemas, value, heap);
    BuiltFacts(schemas, heap, t);
    var property, described := t.properties[name], projected.properties[name];
    BuiltFacts(schemas, heap, property);
    BuiltWith(schemas, heap, described);
    BuiltWith(schemas, heap + {described}, projected);
    var larger := heap + {described} + {projected};
    DescribedProjects(schemas, property, described, parameter, heap, larger);
    assert [name][1..] == [];
    ChildProjects(schemas, value, projected, [name], parameter, heap, larger);
  }

  /** The last field: the copy of its parent gets a described copy of it and no longer requires it. */
  method ProjectEnd(schemas: map<string, Schema>, value: Schema, projected: Schema, name: string, parameter: string,
          ghost heap: set<Schema>)
    returns (ghost larger: set<Schema>)
    requires value in heap && projected !in heap && Built(schemas, heap)
    requires var t := Target(schemas, value, heap);
      && Copies(projected, t, None) && projected.description == t.description && projected.required == t.required
      && name in t.properties
    modifies projected
    ensures fresh(larger - heap - {projected}) && States(schemas, value, projected, heap, larger)
    ensures Projects(schemas, value, projected, [name], true, parameter, heap, larger)
  {
    hide Projects, Built, At, Changed, Target, Without;
    ghost var t := Target(schemas, value, heap);
    BuiltFacts(schemas, heap, t);
    var described := DescribeField(projected, name, parameter);
    larger := heap + {described} + {projected};
    EndProjects(schemas, value, projected, name, parameter, heap);
  }

  /** A field further down: the copy of its parent gets the projected property. */
  method AttachInner(schemas: map<string, Schema>, value: Schema, projected: Schema, inner: Schema, fields: seq<string>,
          parameter: string, ghost heap: set<Schema>, ghost below: set<Schema>)
    returns (ghost larger: set<Schema>)
    requires value in heap && projected !in below && Built(schemas, heap) && |fields| > 1
    requires var t := Target(schemas, value, heap);
      && Copies(projected, t, None) && projected.description == t.description && projected.required == t.required
      && fields[0] in t.properties && States(schemas, t.properties[fields[0]], inner, heap, below)
      && Projects(schemas, t.properties[fields[0]], inner, fields[1..], true, parameter, heap, below)
    modifies projected
    ensures larger == below + {projected} && States(schemas, value, projected, heap, larger)
    ensures Projects(schemas, value, projected, fields, true, parameter, heap, larger)
  {
    hide Projects, Built, At, Changed, Target, Without;
    ghost var t := Target(schemas, value, heap);
    BuiltFacts(schemas, heap, t);
    projected.properties := projected.properties[fields[0] := inner];
    BuiltWith(schemas, below, projected);
    larger := below + {projected};
    ProjectsInLarger(schemas, t.properties[fields[0]], inner, fields[1..], parameter, heap, below, larger);
    ChildProjects(schemas, value, projected, fields, parameter, heap, larger);
  }

  /** projectRouteBoundField. It modifies nothing that exists. */
  method ProjectRouteBoundField(schemas: map<string, Schema>, value: Schema, fields: seq<string>, parameter: string,
          ghost heap: set<Schema>)
    returns (projected: Schema, ghost larger: set<Schema>)
    requires value in heap && Built(schemas, heap)
    ensures fresh(larger - heap) && fresh(projected) && States(schemas, value, projected, heap, larger)
    ensures Projects(schemas, value, projected, fields, fields != [], parameter, heap, larger)
    decreases |fields|
  {
    hide Projects, Built, At, Changed, Target, Without;
    projected := CloneTarget(schemas, value, heap);
    ghost var t := Target(schemas, value, heap);
    BuiltFacts(schemas, heap, t);
    larger := heap + {projected};
    if |fields| == 0 || fields[0] !in projected.properties {
      CopyProjects(schemas, value, projected, fields, parameter, heap, larger);
      return;
    }
    var name := fields[0];
    var property := projected.properties[name];
    assert property == t.properties[name] && property in heap;
    if |fields| == 1 {
      larger := ProjectEnd(schemas, value, projected, name, parameter, heap);
      assert fields == [name];
      return;
    }
    var inner;
    ghost var below;
    inner, below := ProjectRouteBoundField(schemas, property, fields[1..], parameter, heap);
    larger := AttachInner(schemas, value, projected, inner, fields, parameter, heap, below);
  }

  lemma {:induction false} ProjectsInLarger(schemas: map<string, Schema>, value: Schema, r: Schema, fields: seq<string>,
          parameter: string, heap: set<Schema>, below: set<Schema>, larger: set<Schema>)
    requires States(schemas, value, r, heap, below) && below <= larger && Built(schemas, larger)
    requires Projects(schemas, value, r, fields, true, parameter, heap, below)
    ensures Projects(schemas, value, r, fields, true, parameter, heap, larger)
  {
    hide Changed;
    OldPathsStay(schemas, r, below, larger);
  }

  // ---- The whole request schema ----

  datatype Binding = Binding(fields: seq<string>, parameter: string)

  /** No binding passes through the path or ends there. */
  ghost predicate OffPaths(path: seq<string>, bindings: seq<Binding>) {
    forall i :: 0 <= i < |bindings| ==> !(path <= bindings[i].fields)
  }

  ghost predicate Through(path: seq<string>, bindings: seq<Binding>) {
    exists i :: 0 <= i < |bindings| && path < bindings[i].fields
  }

  ghost predicate EndsAt(path: seq<string>, bindings: seq<Binding>) {
    exists i :: 0 <= i < |bindings| && bindings[i].fields == path
  }

  /** Bindings pass through the path or end there, but not both. */
  ghost predicate TakenOnce(path: seq<string>, bindings: seq<Binding>) {
    !OffPaths(path, bindings) && !(Through(path, bindings) && EndsAt(path, bindings))
  }

  /** The parameter of the last binding that ends at the path. */
  function LastParameter(path: seq<string>, bindings: seq<Binding>): string {
    if bindings == [] then ""
    else if bindings[|bindings| - 1].fields == path then bindings[|bindings| - 1].parameter
    else LastParameter(path, bindings[..|bindings| - 1])
  }

  /** The properties of a schema at `path` that are bound there. */
  ghost function BoundNames(properties: set<string>, path: seq<string>, bindings: seq<Binding>): set<string> {
    set k | k in properties && EndsAt(path + [k], bindings)
  }

  /**
   * `n` copies `t` but for the properties that are gone or lie on a binding's path; gone and bound ones are not
   * required.
   */
  ghost predicate PassedThrough(t: Schema, n: Schema, gone: set<string>, path: seq<string>, bindings: seq<Binding>)
    reads t, n
  {
    && n.ref == t.ref && n.description == t.description && n.body == t.body && n.children == t.children
    && n.properties.Keys == t.properties.Keys - gone
    && (forall k :: k in n.properties && OffPaths(path + [k], bindings) ==> n.properties[k] == t.properties[k])
    && n.required == Without(t.required, gone + BoundNames(t.properties.Keys, path, bindings))
  }

  /** What stands at a path of the projected request where the registered one has `o`. */
  ghost predicate Stands(schemas: map<string, Schema>, o: Schema, n: Schema, path: seq<string>, bindings: seq<Binding>,
          heap: set<Schema>)
    requires o in heap && Built(schemas, heap)
    reads heap, n
  {
    && n !in heap
    && if Through(path, bindings) then PassedThrough(Target(schemas, o, heap), n, {}, path, bindings)
       else
         && Copies(n, o, None) && n.required == o.required
         && n.description == ServerSupplied(LastParameter(path, bindings))
  }

  /**
   * The projected request against the registered one: the root loses the omitted properties; a path that no binding
   * takes leads to the registered object; at the end of a binding stands a described copy, and on the way to it a copy
   * that does not require what is bound below it. Nothing is said where one binding ends on the way of another.
   */
  ghost predicate Request(schemas: map<string, Schema>, original: Schema, r: Schema, omitted: seq<string>,
          bindings: seq<Binding>, heap: set<Schema>, larger: set<Schema>)
    requires States(schemas, original, r, heap, larger)
    reads heap, larger
  {
    && r !in heap && r.ref == "" && PassedThrough(original, r, NamesIn(omitted), [], bindings)
    && (forall path :: path != [] && path[0] !in omitted && OffPaths(path, bindings) ==>
          At(schemas, r, path, larger) == At(schemas, original, path, heap))
    && (forall path | path != [] && path[0] !in omitted && TakenOnce(path, bindings)
      && At(schemas, original, path, heap) != null ::
          At(schemas, r, path, larger) != null
          && Stands(schemas, At(schemas, original, path, heap), At(schemas, r, path, larger), path, bindings, heap))
  }

  lemma PathsOfMore(path: seq<string>, bindings: seq<Binding>, b: Binding)
    ensures OffPaths(path, bindings + [b]) <==> OffPaths(path, bindings) && !(path <= b.fields)
    ensures Through(path, bindings + [b]) <==> Through(path, bindings) || path < b.fields
    ensures EndsAt(path, bindings + [b]) <==> EndsAt(path, bindings) || b.fields == path
    ensures LastParameter(path, bindings + [b])
      == if b.fields == path then b.parameter else LastParameter(path, bindings)
    ensures !OffPaths(path, bindings) <==> Through(path, bindings) || EndsAt(path, bindings)
  {
    var all := bindings + [b];
    assert all[|bindings|] == b && all[..|bindings|] == bindings;
    assert forall i :: 0 <= i < |bindings| ==> all[i] == bindings[i];
  }

  lemma {:induction false} BoundNamesOfMore(properties: set<string>, path: seq<string>, bindings: seq<Binding>,
          b: Binding)
    ensures BoundNames(properties, path, bindings + [b])
      == BoundNames(properties, path, bindings) + (set k | k in properties && b.fields == path + [k])
  {
    hide EndsAt;
    forall k ensures EndsAt(path + [k], bindings + [b]) <==> EndsAt(path + [k], bindings) || b.fields == path + [k] {
      PathsOfMore(path + [k], bindings, b);
    }
  }

  /** A schema that nothing below it binds has passed no binding. */
  lemma {:induction false} Untouched(t: Schema, path: seq<string>, bindings: seq<Binding>)
    requires OffPaths(path, bindings) || t.properties == map[]
    ensures PassedThrough(t, t, {}, path, bindings)
  {
    var names := BoundNames(t.properties.Keys, path, bindings);
    if OffPaths(path, bindings) {
      forall i, k | 0 <= i < |bindings| ensures bindings[i].fields != path + [k] {
        assert path <= path + [k];
      }
    }
    assert {} + names == {};
    WithoutNone(t.required);
  }

  /** One more binding passes through a schema. */
  lemma {:induction false} PassesOneMore(t: Schema, mid: Schema, n: Schema, gone: set<string>, path: seq<string>,
          bindings: seq<Binding>, b: Binding)
    requires PassedThrough(t, mid, gone, path, bindings) && path < b.fields
    requires Copies(n, mid, Some(b.fields[|path|])) && n.description == mid.description
    requires n.required == if |b.fields| == |path| + 1 && b.fields[|path|] in mid.properties
      then Without(mid.required, {b.fields[|path|]}) else mid.required
    ensures PassedThrough(t, n, gone, path, bindings + [b])
  {
    hide OffPaths, BoundNames, Without;
    var name := b.fields[|path|];
    forall k | k in n.properties && OffPaths(path + [k], bindings + [b]) ensures n.properties[k] == t.properties[k] {
      PathsOfMore(path + [k], bindings, b);
      assert path + [name] <= b.fields;
    }
    RequiredOneMore(t.required, t.properties.Keys, gone, path, bindings, b);
  }

  /** What one more binding through `path` leaves required there. */
  lemma {:induction false} RequiredOneMore(required: seq<string>, keys: set<string>, gone: set<string>,
          path: seq<string>, bindings: seq<Binding>, b: Binding)
    requires path < b.fields
    ensures var name := b.fields[|path|];
      var before := Without(required, gone + BoundNames(keys, path, bindings));
      Without(required, gone + BoundNames(keys, path, bindings + [b]))
      == if |b.fields| == |path| + 1 && name in keys - gone then Without(before, {name}) else before
  {
    hide BoundNames, Without;
    var name := b.fields[|path|];
    BoundNamesOfMore(keys, path, bindings, b);
    var before := gone + BoundNames(keys, path, bindings);
    var more := set k | k in keys && b.fields == path + [k];
    assert gone + BoundNames(keys, path, bindings + [b]) == before + more;
    if |b.fields| == |path| + 1 {
      assert b.fields == path + [name];
      assert more == if name in keys then {name} else {};
      WithoutTwice(required, before, {name});
      assert name in gone || name !in keys ==> before + more == before;
    } else {
      assert before + more == before;
    }
  }

  /** One more binding elsewhere does not matter to a schema. */
  lemma {:induction false} PassesBy(t: Schema, n: Schema, gone: set<string>, path: seq<string>, bindings: seq<Binding>,
          b: Binding)
    requires PassedThrough(t, n, gone, path, bindings) && !(path <= b.fields)
    ensures PassedThrough(t, n, gone, path, bindings + [b])
  {
    hide OffPaths, BoundNames;
    forall k ensures OffPaths(path + [k], bindings + [b]) <==> OffPaths(path + [k], bindings) {
      PathsOfMore(path + [k], bindings, b);
      assert path + [k] <= b.fields ==> path <= b.fields;
    }
    BoundNamesOfMore(t.properties.Keys, path, bindings, b);
    assert (set k | k in t.properties.Keys && b.fields == path + [k]) == {};
    assert BoundNames(t.properties.Keys, path, bindings) + {} == BoundNames(t.properties.Keys, path, bindings);
  }

  /** What a projected schema resolves to has passed the same bindings as the schema itself. */
  lemma {:induction false} TargetPassed(schemas: map<string, Schema>, o: Schema, mid: Schema, path: seq<string>,
          bindings: seq<Binding>, heap: set<Schema>, larger: set<Schema>)
    requires States(schemas, o, mid, heap, larger)
    requires PassedThrough(Target(schemas, o, heap), mid, {}, path, bindings)
    ensures PassedThrough(Target(schemas, o, heap), Target(schemas, mid, larger), {}, path, bindings)
  {
    var t := Target(schemas, o, heap);
    if mid.ref != "" {
      assert Target(schemas, mid, larger) == t;
      Untouched(t, path, bindings);
    }
  }

  /** At one path, after one more binding. */
  lemma {:induction false} StandsAfter(schemas: map<string, Schema>, o: Schema, mid: Schema, n: Schema,
          path: seq<string>, bindings: seq<Binding>, b: Binding, heap: set<Schema>, between: set<Schema>)
    requires States(schemas, o, mid, heap, between) && n !in heap && path <= b.fields
    requires if OffPaths(path, bindings) then mid == o else Stands(schemas, o, mid, path, bindings, heap)
    requires Changed(schemas, mid, n, b.fields[|path|..], path == b.fields, b.parameter, between)
    requires !(Through(path, bindings + [b]) && EndsAt(path, bindings + [b]))
    ensures Stands(schemas, o, n, path, bindings + [b], heap)
  {
    hide OffPaths, Through, EndsAt, Built, PassedThrough, Target, Without;
    PathsOfMore(path, bindings, b);
    if path != b.fields {
      assert path < b.fields;
      var t := Target(schemas, o, heap);
      if OffPaths(path, bindings) {
        Untouched(t, path, bindings);
        SameTarget(schemas, o, heap, between);
      } else {
        TargetPassed(schemas, o, mid, path, bindings, heap, between);
      }
      PassesOneMore(t, Target(schemas, mid, between), n, {}, path, bindings, b);
    }
  }

  lemma SameTarget(schemas: map<string, Schema>, s: Schema, heap: set<Schema>, larger: set<Schema>)
    requires s in heap && heap <= larger && Built(schemas, heap) && Built(schemas, larger)
    ensures Target(schemas, s, larger) == Target(schemas, s, heap)
  {
  }

  /** A node that the binding does not touch. */
  lemma {:induction false} StandsStill(schemas: map<string, Schema>, o: Schema, n: Schema, path: seq<string>,
          bindings: seq<Binding>, b: Binding, heap: set<Schema>)
    requires o in heap && Built(schemas, heap) && !(path <= b.fields)
    requires Stands(schemas, o, n, path, bindings, heap)
    ensures Stands(schemas, o, n, path, bindings + [b], heap)
  {
    hide OffPaths, Through, EndsAt, Built, PassedThrough, Target;
    PathsOfMore(path, bindings, b);
    if Through(path, bindings) {
      PassesBy(Target(schemas, o, heap), n, {}, path, bindings, b);
    }
  }

  lemma {:induction false} OneMoreBinding(schemas: map<string, Schema>, original: Schema, s: Schema, r: Schema,
          omitted: seq<string>, bindings: seq<Binding>, b: Binding, heap: set<Schema>, mid: set<Schema>,
          larger: set<Schema>)
    requires States(schemas, original, s, heap, mid) && States(schemas, s, r, mid, larger) && b.fields != []
    requires Request(schemas, original, s, omitted, bindings, heap, mid)
    requires Projects(schemas, s, r, b.fields, true, b.parameter, mid, larger)
    ensures heap <= larger && Request(schemas, original, r, omitted, bindings + [b], heap, larger)
  {
    var all := bindings + [b];
    RootAfter(schemas, original, s, r, omitted, bindings, b, heap, mid, larger);
    hide OffPaths, Through, EndsAt, Built, Stands, PassedThrough, Changed, At;
    forall path | path != [] && path[0] !in omitted && OffPaths(path, all)
      ensures At(schemas, r, path, larger) == At(schemas, original, path, heap)
    {
      PathsOfMore(path, bindings, b);
    }
    forall path | path != [] && path[0] !in omitted && TakenOnce(path, all) && At(schemas, original, path, heap) != null
      ensures At(schemas, r, path, larger) != null
      ensures Stands(schemas, At(schemas, original, path, heap), At(schemas, r, path, larger), path, all, heap)
    {
      PathsOfMore(path, bindings, b);
      var o, between := At(schemas, original, path, heap), At(schemas, s, path, mid);
      assert between != null &&
        if OffPaths(path, bindings) then between == o else Stands(schemas, o, between, path, bindings, heap);
      if path <= b.fields {
        var n := At(schemas, r, path, larger);
        assert Changed(schemas, between, n, b.fields[|path|..], path == b.fields, b.parameter, mid);
        assert n !in heap by { NewIsNew(schemas, between, n, b.fields[|path|..], path == b.fields, b.parameter, mid); }
        StandsAfter(schemas, o, between, n, path, bindings, b, heap, mid);
      } else {
        StandsStill(schemas, o, between, path, bindings, b, heap);
      }
    }
  }

  lemma NewIsNew(schemas: map<string, Schema>, o: Schema, n: Schema, rest: seq<string>, end: bool, parameter: string,
          heap: set<Schema>)
    requires o in heap && Built(schemas, heap) && Changed(schemas, o, n, rest, end, parameter, heap)
    ensures n !in heap
  {
  }

  /** The root after one more binding. */
  lemma {:induction false} RootAfter(schemas: map<string, Schema>, original: Schema, s: Schema, r: Schema,
          omitted: seq<string>, bindings: seq<Binding>, b: Binding, heap: set<Schema>, mid: set<Schema>,
          larger: set<Schema>)
    requires States(schemas, original, s, heap, mid) && States(schemas, s, r, mid, larger) && b.fields != []
    requires Request(schemas, original, s, omitted, bindings, heap, mid)
    requires Projects(schemas, s, r, b.fields, true, b.parameter, mid, larger)
    ensures r !in heap && r.ref == "" && PassedThrough(original, r, NamesIn(omitted), [], bindings + [b])
  {
    hide OffPaths, Through, EndsAt, Built, Stands, PassedThrough, Without;
    assert At(schemas, s, [], mid) == s && At(schemas, r, [], larger) == r && Target(schemas, s, mid) == s;
    assert [] <= b.fields && b.fields[0..] == b.fields;
    assert Changed(schemas, s, r, b.fields, false, b.parameter, mid);
    PassesOneMore(original, s, r, NamesIn(omitted), [], bindings, b);
  }

  /** projectedRequestSchema, for the omitted names and the bindings of the route. It modifies nothing that exists. */
  method ProjectedRequestSchema(schemas: map<string, Schema>, name: string, omitted: seq<string>,
          bindings: seq<Binding>, ghost heap: set<Schema>)
    returns (projected: Schema, ghost larger: set<Schema>)
    requires Built(schemas, heap) && name in schemas && schemas[name].ref == ""
    requires forall i :: 0 <= i < |bindings| ==> bindings[i].fields != []
    ensures fresh(larger - heap) && fresh(projected) && States(schemas, schemas[name], projected, heap, larger)
    ensures Request(schemas, schemas[name], projected, omitted, bindings, heap, larger)
  {
    hide Projects, Request, At, Changed, Built;
    ghost var original := schemas[name];
    projected, larger := OmitFields(schemas, name, omitted, heap);
    for k := 0 to |bindings|
      invariant fresh(larger - heap) && fresh(projected) && States(schemas, original, projected, heap, larger)
      invariant Request(schemas, original, projected, omitted, bindings[..k], heap, larger)
    {
      ghost var before, mid := projected, larger;
      projected, larger := ProjectRouteBoundField(schemas, projected, bindings[k].fields, bindings[k].parameter,
        larger);
      OneMoreBinding(schemas, original, before, projected, omitted, bindings[..k], bindings[k], heap, mid, larger);
      assert bindings[..k + 1] == bindings[..k] + [bindings[k]];
    }
    assert bindings[..|bindings|] == bindings;
  }

  /** The first part: a copy without the omitted fields. */
  method OmitFields(schemas: map<string, Schema>, name: string, omitted: seq<string>, ghost heap: set<Schema>)
    returns (projected: Schema, ghost larger: set<Schema>)
    requires Built(schemas, heap) && name in schemas && schemas[name].ref == ""
    ensures fresh(larger - heap) && fresh(projected) && States(schemas, schemas[name], projected, heap, larger)
    ensures Request(schemas, schemas[name], projected, omitted, [], heap, larger)
  {
    hide Built, At, Without;
    ghost var original := schemas[name];
    projected := new Schema.Clone(schemas[name]);
    WithoutNone(original.required);
    assert NamesIn(omitted[..0]) == {};
    for k := 0 to |omitted|
      invariant projected.ref == "" && projected.description == original.description && projected.body == original.body
      invariant projected.children == original.children
      invariant projected.properties.Keys == original.properties.Keys - NamesIn(omitted[..k])
      invariant forall n :: n in projected.properties ==> projected.properties[n] == original.properties[n]
      invariant projected.required == Without(original.required, NamesIn(omitted[..k]))
    {
      projected.properties := projected.properties - {omitted[k]};
      projected.required := Without(projected.required, {omitted[k]});
      assert omitted[..k + 1] == omitted[..k] + [omitted[k]];
      assert NamesIn(omitted[..k + 1]) == NamesIn(omitted[..k]) + {omitted[k]};
      WithoutTwice(original.required, NamesIn(omitted[..k]), {omitted[k]});
    }
    assert omitted[..|omitted|] == omitted;
    assert BoundNames(original.properties.Keys, [], []) == {};
    assert NamesIn(omitted) + {} == NamesIn(omitted);
    assert original in heap by { RegisteredIsThere(schemas, heap, name); }
    BuiltFacts(schemas, heap, original);
    BuiltWith(schemas, heap, projected);
    larger := heap + {projected};
    forall path | path != [] && path[0] !in omitted
      ensures At(schemas, projected, path, larger) == At(schemas, original, path, heap) {
      SamePropertySamePath(schemas, original, projected, path, heap, larger);
    }
  }

  lemma RegisteredIsThere(schemas: map<string, Schema>, heap: set<Schema>, name: string)
    requires Built(schemas, heap) && name in schemas
    ensures schemas[name] in heap
  {
  }

  lemma {:induction false} SamePropertySamePath(schemas: map<string, Schema>, s: Schema, r: Schema, path: seq<string>,
          heap: set<Schema>, larger: set<Schema>)
    requires States(schemas, s, r, heap, larger) && s.ref == "" && r.ref == "" && path != []
    requires path[0] in r.properties <==> path[0] in s.properties
    requires path[0] in r.properties ==> r.properties[path[0]] == s.properties[path[0]]
    ensures At(schemas, r, path, larger) == At(schemas, s, path, heap)
  {
    if path[0] in s.properties {
      AtInLarger(schemas, s.properties[path[0]], path[1..], heap, larger);
    }
  }

  // ---- What a client sees ----

  /** A path that leads somewhere passes its parent, which has the last name as a property. */
  lemma {:induction false} AtParent(schemas: map<string, Schema>, s: Schema, parent: seq<string>, name: string,
          heap: set<Schema>)
    requires s in heap && Built(schemas, heap) && At(schemas, s, parent + [name], heap) != null
    ensures At(schemas, s, parent, heap) != null
    ensures name in Target(schemas, At(schemas, s, parent, heap), heap).properties
    decreases |parent|
  {
    hide Built;
    var path := parent + [name];
    if parent != [] {
      assert path[0] == parent[0] && path[1..] == parent[1..] + [name];
      BuiltFacts(schemas, heap, Target(schemas, s, heap));
      AtParent(schemas, Target(schemas, s, heap).properties[path[0]], parent[1..], name, heap);
    }
  }

  /**
   * Every bound field that exists is described as server supplied, in a new schema, and its parent does not require it.
   */
  lemma {:induction false} BoundFieldIsServerSupplied(schemas: map<string, Schema>, original: Schema, r: Schema,
          omitted: seq<string>, bindings: seq<Binding>, parent: seq<string>, name: string, heap: set<Schema>,
          larger: set<Schema>)
    requires States(schemas, original, r, heap, larger) && original.ref == ""
    requires Request(schemas, original, r, omitted, bindings, heap, larger)
    requires EndsAt(parent + [name], bindings) && !Through(parent + [name], bindings) && !EndsAt(parent, bindings)
    requires (parent + [name])[0] !in omitted && At(schemas, original, parent + [name], heap) != null
    ensures var n, p := At(schemas, r, parent + [name], larger), At(schemas, r, parent, larger);
      && n != null && n !in heap && n.description == ServerSupplied(LastParameter(parent + [name], bindings))
      && p != null && p !in heap && name !in p.required
  {
    var path := parent + [name];
    assert path <= path && parent < path && parent <= path;
    AtParent(schemas, original, parent, name, heap);
    assert Through(parent, bindings);
    assert name in BoundNames(Target(schemas, At(schemas, original, parent, heap), heap).properties.Keys, parent,
      bindings);
    hide EndsAt, OffPaths, Through, Built;
    PathsOfNone(path, bindings);
    PathsOfNone(parent, bindings);
    assert TakenOnce(path, bindings);
    assert parent != [] ==> parent[0] == path[0] && TakenOnce(parent, bindings);
  }

  lemma PathsOfNone(path: seq<string>, bindings: seq<Binding>)
    ensures !OffPaths(path, bindings) <==> Through(path, bindings) || EndsAt(path, bindings)
  {
    PathsOfMore(path, bindings, Binding.Binding([], ""));
  }
}
