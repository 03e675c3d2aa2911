/** Guarded declarations in terms of what is written in them (internal/architecturepolicy/provider_metadata.go). */
module ProviderChains {
  import opened Text
  import opened ProviderTaint

  // ---- What is written in a declaration ----

  /** The part of a tree at a path of child positions; the only child of a selector is what is before its dot. */
  function At(s: Syntax, path: seq<nat>): Option<Syntax>
    decreases |path|
  {
    if path == [] then Some(s)
    else match s
      case Ident(_) => None
      case Selector(x, _) => if path[0] == 0 then At(x, path[1..]) else None
      case Node(children) => if path[0] < |children| then At(children[path[0]], path[1..]) else None
  }

  ghost predicate Occurs(s: Syntax, part: Syntax) { exists path :: At(s, path) == Some(part) }

  /** The name is written somewhere, by itself or behind a dot. */
  ghost predicate Writes(s: Syntax, name: string) {
    Occurs(s, Ident(name)) || exists x :: Occurs(s, Selector(x, name))
  }

  lemma {:induction false} OccursHere(s: Syntax)
    ensures Occurs(s, s)
  {
    assert At(s, []) == Some(s);
  }

  lemma {:induction false} OccursInSelector(x: Syntax, sel: string, part: Syntax)
    ensures Occurs(Selector(x, sel), part) <==> part == Selector(x, sel) || Occurs(x, part)
  {
    var s := Selector(x, sel);
    if Occurs(s, part) && part != s {
      var path :| At(s, path) == Some(part);
      assert At(x, path[1..]) == Some(part);
    }
    if Occurs(x, part) {
      var path :| At(x, path) == Some(part);
      assert ([0] + path)[1..] == path && At(s, [0] + path) == Some(part);
    }
    OccursHere(s);
  }

  lemma {:induction false} OccursInNode(children: seq<Syntax>, part: Syntax)
    ensures Occurs(Node(children), part) <==>
      part == Node(children) || exists i :: 0 <= i < |children| && Occurs(children[i], part)
  {
    var s := Node(children);
    if Occurs(s, part) && part != s {
      var path :| At(s, path) == Some(part);
      assert At(children[path[0]], path[1..]) == Some(part);
    }
    if i :| 0 <= i < |children| && Occurs(children[i], part) {
      var path :| At(children[i], path) == Some(part);
      assert ([i] + path)[1..] == path && At(s, [i] + path) == Some(part);
    }
    OccursHere(s);
  }

  lemma {:induction false} OccursInIdent(name: string, part: Syntax)
    ensures Occurs(Ident(name), part) <==> part == Ident(name)
  {
    OccursHere(Ident(name));
  }

  lemma {:induction false} WritesInSelector(x: Syntax, sel: string, name: string)
    ensures Writes(Selector(x, sel), name) <==> name == sel || Writes(x, name)
  {
    hide Occurs;
    var s := Selector(x, sel);
    forall part ensures Occurs(s, part) <==> part == s || Occurs(x, part) { OccursInSelector(x, sel, part); }
  }

  lemma {:induction false} WritesInNode(children: seq<Syntax>, name: string)
    ensures Writes(Node(children), name) <==> exists i :: 0 <= i < |children| && Writes(children[i], name)
  {
    hide Occurs;
    forall part
      ensures Occurs(Node(children), part)
        <==> part == Node(children) || exists i :: 0 <= i < |children| && Occurs(children[i], part)
    {
      OccursInNode(children, part);
    }
  }

  lemma {:induction false} WritesInIdent(own: string, name: string)
    ensures Writes(Ident(own), name) <==> name == own
  {
    hide Occurs;
    forall part ensures Occurs(Ident(own), part) <==> part == Ident(own) { OccursInIdent(own, part); }
  }

  lemma {:induction false} IdentsExactly(s: Syntax, name: string)
    ensures name in Idents(s) <==> Writes(s, name)
  {
    hide Writes;
    match s
    case Ident(own) => WritesInIdent(own, name);
    case Selector(x, sel) =>
      WritesInSelector(x, sel, name);
      IdentsExactly(x, name);
    case Node(children) =>
      WritesInNode(children, name);
      forall i | 0 <= i < |children| ensures name in Idents(children[i]) <==> Writes(children[i], name) {
        IdentsExactly(children[i], name);
      }
  }

  // ---- What a declaration refers to ----

  function Imported(imports: map<string, string>, name: string): string {
    if name in imports then imports[name] else ""
  }

  /** The symbol is named in its own directory, or selected from the package that an import gives the name. */
  ghost predicate Names(directory: string, imports: map<string, string>, s: Syntax, key: string) {
    || (exists name :: Writes(s, name) && key == directory + ":" + name)
    || (exists name, package :: Occurs(s, Selector(Ident(package), name))
          && key == Imported(imports, package) + ":" + name)
  }

  ghost predicate Selects(imports: map<string, string>, s: Syntax, key: string) {
    exists name, package :: Occurs(s, Selector(Ident(package), name)) && key == Imported(imports, package) + ":" + name
  }

  ghost predicate NamesOwn(directory: string, s: Syntax, key: string) {
    exists name :: Writes(s, name) && key == directory + ":" + name
  }

  lemma {:induction false} OwnNames(directory: string, s: Syntax, key: string)
    ensures s.Ident? ==> (NamesOwn(directory, s, key) <==> key == directory + ":" + s.name)
    ensures s.Selector? ==>
      (NamesOwn(directory, s, key) <==> key == directory + ":" + s.sel || NamesOwn(directory, s.x, key))
    ensures s.Node? ==> (NamesOwn(directory, s, key) <==>
      exists i :: 0 <= i < |s.children| && NamesOwn(directory, s.children[i], key))
  {
    hide Writes;
    forall name
      ensures s.Ident? ==> (Writes(s, name) <==> name == s.name)
      ensures s.Selector? ==> (Writes(s, name) <==> name == s.sel || Writes(s.x, name))
      ensures s.Node? ==> (Writes(s, name) <==> exists i :: 0 <= i < |s.children| && Writes(s.children[i], name))
    {
      match s
      case Ident(own) => WritesInIdent(own, name);
      case Selector(x, sel) => WritesInSelector(x, sel, name);
      case Node(children) => WritesInNode(children, name);
    }
  }

  lemma {:induction false} SelectedNames(imports: map<string, string>, s: Syntax, key: string)
    ensures s.Ident? ==> !Selects(imports, s, key)
    ensures s.Selector? ==> (Selects(imports, s, key) <==>
      (s.x.Ident? && key == Imported(imports, s.x.name) + ":" + s.sel) || Selects(imports, s.x, key))
    ensures s.Node? ==> (Selects(imports, s, key) <==>
      exists i :: 0 <= i < |s.children| && Selects(imports, s.children[i], key))
  {
    hide Occurs;
    forall part
      ensures s.Ident? ==> (Occurs(s, part) <==> part == s)
      ensures s.Selector? ==> (Occurs(s, part) <==> part == s || Occurs(s.x, part))
      ensures s.Node? ==>
        (Occurs(s, part) <==> part == s || exists i :: 0 <= i < |s.children| && Occurs(s.children[i], part))
    {
      match s
      case Ident(own) => OccursInIdent(own, part);
      case Selector(x, sel) => OccursInSelector(x, sel, part);
      case Node(children) => OccursInNode(children, part);
    }
  }

  lemma {:induction false} ReferencesExactly(directory: string, imports: map<string, string>, s: Syntax, key: string)
    ensures key in References(directory, imports, s) <==> Names(directory, imports, s, key)
  {
    hide NamesOwn, Selects;
    assert Names(directory, imports, s, key) <==> NamesOwn(directory, s, key) || Selects(imports, s, key) by {
      NamesByParts(directory, imports, s, key);
    }
    OwnNames(directory, s, key);
    SelectedNames(imports, s, key);
    hide Names;
    match s
    case Ident(_) =>
    case Selector(x, _) =>
      ReferencesExactly(directory, imports, x, key);
      NamesByParts(directory, imports, x, key);
    case Node(children) =>
      forall i | 0 <= i < |children|
        ensures key in References(directory, imports, children[i])
          <==> NamesOwn(directory, children[i], key) || Selects(imports, children[i], key)
      {
        ReferencesExactly(directory, imports, children[i], key);
        NamesByParts(directory, imports, children[i], key);
      }
  }

  lemma NamesByParts(directory: string, imports: map<string, string>, s: Syntax, key: string)
    ensures Names(directory, imports, s, key) <==> NamesOwn(directory, s, key) || Selects(imports, s, key)
  {
  }

  // ---- What a declaration gives away ----

  /** `base` behind `n` pointers. */
  function Starred(base: ResultType, n: nat): ResultType { if n == 0 then base else Star(Starred(base, n - 1)) }

  ghost predicate HoldsValue(r: ResultType) {
    exists n: nat, base :: r == Starred(base, n) && (base == Literal || (base.Named? && base.name in VALUE_TYPES))
  }

  lemma {:induction false} ValueTypeExactly(r: ResultType)
    ensures ValueType(r) <==> HoldsValue(r)
  {
    match r
    case Star(elem) =>
      ValueTypeExactly(elem);
      if n: nat, base :| elem == Starred(base, n) && (base == Literal || (base.Named? && base.name in VALUE_TYPES)) {
        assert r == Starred(base, n + 1);
      }
      if n: nat, base :| r == Starred(base, n) && (base == Literal || (base.Named? && base.name in VALUE_TYPES)) {
        assert elem == Starred(base, n - 1);
      }
    case _ => assert r == Starred(r, 0);
  }

  /** The declaration has the name, by itself or as that of a method, and values can leave through it. */
  ghost predicate Offers(d: Consumer, name: string) {
    && (exists symbol :: symbol in d.symbols && IsLastName(symbol, name))
    && (d.declaration.Func? ==>
          exists i :: 0 <= i < |d.declaration.results| && HoldsValue(d.declaration.results[i]))
  }

  ghost predicate IsLastName(symbol: string, name: string) {
    '.' !in name && (symbol == name || exists receiver :: symbol == receiver + "." + name)
  }

  lemma {:induction false} LastNameExactly(symbol: string, name: string)
    ensures IsLastName(symbol, name) <==> LastName(symbol) == name
    decreases |symbol|
  {
    if symbol != "" {
      LastNameExactly(symbol[1..], name);
      var rest := symbol[1..];
      assert symbol == [symbol[0]] + rest;
      if '.' in symbol {
        if symbol[0] == '.' && '.' !in rest {
          assert symbol == "" + "." + rest;
        }
        if receiver :| rest == receiver + "." + name {
          assert symbol == ([symbol[0]] + receiver) + "." + name;
        }
        if receiver :| symbol == receiver + "." + name {
          if receiver == "" {
            assert rest == name;
          } else {
            assert rest == receiver[1..] + "." + name;
          }
        }
      } else {
        forall receiver ensures symbol != receiver + "." + name {
          assert (receiver + "." + name)[|receiver|] == '.';
        }
      }
    }
  }

  lemma {:induction false} ExportsExactly(d: Consumer, key: string)
    ensures key in Exports(d) <==> exists name :: Offers(d, name) && key == d.directory + ":" + name
  {
    hide IsLastName, LastName, HoldsValue, ValueType;
    forall symbol, name ensures IsLastName(symbol, name) <==> LastName(symbol) == name {
      LastNameExactly(symbol, name);
    }
    forall r ensures ValueType(r) <==> HoldsValue(r) { ValueTypeExactly(r); }
    if key in Exports(d) {
      var i :| 0 <= i < |d.symbols| && key == d.directory + ":" + LastName(d.symbols[i]);
      assert IsLastName(d.symbols[i], LastName(d.symbols[i])) && d.symbols[i] in d.symbols;
      assert Offers(d, LastName(d.symbols[i]));
    }
    if name :| Offers(d, name) && key == d.directory + ":" + name {
      var symbol :| symbol in d.symbols && IsLastName(symbol, name);
      var i :| 0 <= i < |d.symbols| && d.symbols[i] == symbol;
    }
  }

  // ---- Chains ----

  /** `c` names what `d` offers. */
  ghost predicate Refers(c: Consumer, d: Consumer) {
    exists name :: Offers(d, name) && Names(c.directory, c.imports, SyntaxOf(c.declaration), d.directory + ":" + name)
  }

  ghost predicate Mentions(c: Consumer) {
    exists name :: name in METADATA_NAMES && Writes(SyntaxOf(c.declaration), name)
  }

  /** A chain of declarations, each naming what the next one offers, that ends at one that names provider metadata. */
  ghost predicate Chain(all: set<Consumer>, chain: seq<Consumer>) {
    && chain != [] && Mentions(chain[|chain| - 1])
    && forall i :: 0 < i < |chain| ==> chain[i] in all && Refers(chain[i - 1], chain[i])
  }

  lemma {:induction false} RefersExactly(c: Consumer, d: Consumer)
    ensures Refers(c, d) <==> exists k :: k in Uses(c) && k in Exports(d)
  {
    hide Names, Offers, References, Exports;
    forall k
      ensures k in Uses(c) <==> Names(c.directory, c.imports, SyntaxOf(c.declaration), k)
      ensures k in Exports(d) <==> exists name :: Offers(d, name) && k == d.directory + ":" + name
    {
      ReferencesExactly(c.directory, c.imports, SyntaxOf(c.declaration), k);
      ExportsExactly(d, k);
    }
    if name :| Offers(d, name) && Names(c.directory, c.imports, SyntaxOf(c.declaration), d.directory + ":" + name) {
      assert d.directory + ":" + name in Uses(c);
    }
  }

  lemma {:induction false} MentionsExactly(c: Consumer)
    ensures Mentions(c) <==> MentionsMetadata(SyntaxOf(c.declaration))
  {
    hide Writes, Idents;
    forall name ensures name in Idents(SyntaxOf(c.declaration)) <==> Writes(SyntaxOf(c.declaration), name) {
      IdentsExactly(SyntaxOf(c.declaration), name);
    }
  }

  lemma {:induction false} GuardedHasChain(all: set<Consumer>, c: Consumer, n: nat)
    requires GuardedIn(all, c, n)
    ensures exists chain :: Chain(all, chain) && chain[0] == c
    decreases n
  {
    hide Refers, Mentions, MentionsMetadata, Uses, Exports;
    MentionsExactly(c);
    if Mentions(c) {
      assert Chain(all, [c]);
    } else {
      var d, k :| d in all && k in Uses(c) && k in Exports(d) && GuardedIn(all, d, n - 1);
      RefersExactly(c, d);
      GuardedHasChain(all, d, n - 1);
      var chain :| Chain(all, chain) && chain[0] == d;
      var longer := [c] + chain;
      assert forall i :: 0 < i < |longer| ==> longer[i] == chain[i - 1];
      assert Chain(all, longer);
    }
  }

  lemma {:induction false} ChainIsGuarded(all: set<Consumer>, chain: seq<Consumer>)
    requires Chain(all, chain)
    ensures Guarded(all, chain[0])
    decreases |chain|
  {
    hide Refers, Mentions, MentionsMetadata, Uses, Exports, Guarded;
    if |chain| == 1 {
      MentionsExactly(chain[0]);
      assert GuardedIn(all, chain[0], 0);
      GuardedByMention(all, chain[0]);
    } else {
      assert forall i :: 0 <= i < |chain[1..]| ==> chain[1..][i] == chain[i + 1];
      ChainIsGuarded(all, chain[1..]);
      assert Refers(chain[0], chain[1]);
      RefersExactly(chain[0], chain[1]);
      var k :| k in Uses(chain[0]) && k in Exports(chain[1]);
      GuardedByReference(all, chain[0], chain[1], k);
    }
  }

  lemma GuardedByMention(all: set<Consumer>, c: Consumer)
    requires GuardedIn(all, c, 0)
    ensures Guarded(all, c)
  {
  }

  /**
   * What is reported: every declaration from which a chain of references leads to provider metadata, unless it has a
   * review of its present syntax with a reason, and every other one whose review is stale or lacks its reason.
   */
  lemma {:induction false} ReportedExactly(all: set<Consumer>, c: Consumer, reviews: map<string, Review>,
          fingerprint: Declaration -> string, blank: string -> bool)
    ensures Violates(all, c, reviews, fingerprint, blank) <==>
      if c.key in reviews then
        reviews[c.key].fingerprint != fingerprint(c.declaration) || blank(reviews[c.key].reason)
      else exists chain :: Chain(all, chain) && chain[0] == c
  {
    hide Refers, Mentions, GuardedIn;
    if Guarded(all, c) {
      var n: nat :| GuardedIn(all, c, n);
      GuardedHasChain(all, c, n);
    }
    if chain :| Chain(all, chain) && chain[0] == c {
      ChainIsGuarded(all, chain);
    }
  }
}
