/** Which declarations consume provider metadata (internal/architecturepolicy/provider_metadata.go). */
module ProviderTaint {
  import opened Text

  /** The parts of Go syntax that the policy looks at; `Node` stands for every other node with its children. */
  datatype Syntax =
    | Ident(name: string)
    | Selector(x: Syntax, sel: string)
    | Node(children: seq<Syntax>)

  /** The result types that `providerValueType` distinguishes. */
  datatype ResultType =
    | Star(elem: ResultType)
    | Literal            // array, map, interface, struct or function type
    | Named(name: string)
    | Other

  datatype Declaration =
    | Func(results: seq<ResultType>, funcSyntax: Syntax)
    | Gen(genSyntax: Syntax)

  datatype Consumer = Consumer(
    key: string, directory: string, declaration: Declaration, imports: map<string, string>, symbols: seq<string>)

  function SyntaxOf(d: Declaration): Syntax { if d.Func? then d.funcSyntax else d.genSyntax }

  const METADATA_NAMES: set<string> := {
    "ProviderMetadata", "EffectiveMetadata", "SourceScopedMetadata", "TMDBMetadata", "TMDBLocalizedData",
    "IMDBMetadata", "IMDBAKA", "TVDBMetadata", "TVDBEpisodeMetadata", "TVDBNameDisambiguation", "TVmazeMetadata",
    "BlurayMetadata", "AniListMetadata", "PreferredTitle", "PreferredAlternateTitle",
    "PreferredOriginalTitle", "PreferredYear", "PreferredGenres", "PreferredGenreText",
    "PreferredOriginalLanguage", "PreferredDistributor"}

  const VALUE_TYPES: set<string> := {
    "string", "bool", "int", "int8", "int16", "int32", "int64", "uint", "uint8", "uint16", "uint32", "uint64",
    "float32", "float64", "any"}

  /** The identifiers of a syntax tree, the selected names included. */
  function Idents(s: Syntax): set<string> {
    match s
    case Ident(name) => {name}
    case Selector(x, sel) => Idents(x) + {sel}
    case Node(children) => set i, n | 0 <= i < |children| && n in Idents(children[i]) :: n
  }

  /** containsProviderMetadata */
  predicate MentionsMetadata(s: Syntax) { exists n :: n in Idents(s) && n in METADATA_NAMES }

  /** The symbols that a declaration refers to: names in its own directory, and names selected from an import. */
  function References(directory: string, imports: map<string, string>, s: Syntax): set<string> {
    match s
    case Ident(name) => {directory + ":" + name}
    case Selector(x, sel) =>
      References(directory, imports, x) + {directory + ":" + sel}
      + (if x.Ident? then {(if x.name in imports then imports[x.name] else "") + ":" + sel} else {})
    case Node(children) => set i, k | 0 <= i < |children| && k in References(directory, imports, children[i]) :: k
  }

  function Uses(c: Consumer): set<string> { References(c.directory, c.imports, SyntaxOf(c.declaration)) }

  predicate ValueType(r: ResultType) {
    match r
    case Star(elem) => ValueType(elem)
    case Literal => true
    case Named(name) => name in VALUE_TYPES
    case Other => false
  }

  /** providerValueReturn: declarations through which raw provider values can leave. */
  predicate ReturnsValue(d: Declaration) {
    d.Func? ==> exists i :: 0 <= i < |d.results| && ValueType(d.results[i])
  }

  /** The part of a symbol after its last dot. */
  function LastName(s: string): string {
    if s == "" then "" else if '.' in s then LastName(s[1..]) else s
  }

  function Exports(c: Consumer): set<string> {
    if ReturnsValue(c.declaration) then
      set i | 0 <= i < |c.symbols| :: c.directory + ":" + LastName(c.symbols[i])
    else
      {}
  }

  // ---- What being guarded means ----

  /** `c` mentions provider metadata itself, or refers to a symbol exported by one that is guarded in fewer steps. */
  ghost predicate GuardedIn(all: set<Consumer>, c: Consumer, n: nat)
    decreases n
  {
    || MentionsMetadata(SyntaxOf(c.declaration))
    || (n > 0 && exists d, k :: d in all && k in Uses(c) && k in Exports(d) && GuardedIn(all, d, n - 1))
  }

  /** A chain of references through value-returning declarations leads from `c` to provider metadata. */
  ghost predicate Guarded(all: set<Consumer>, c: Consumer) {
    exists n: nat :: GuardedIn(all, c, n)
  }

  lemma {:induction false} GuardedByReference(all: set<Consumer>, c: Consumer, d: Consumer, k: string)
    requires d in all && k in Uses(c) && k in Exports(d) && Guarded(all, d)
    ensures Guarded(all, c)
  {
    var n: nat :| GuardedIn(all, d, n);
    assert GuardedIn(all, c, n + 1);
  }

  /** A set of symbols that follows from itself contains what every guarded declaration exports. */
  lemma {:induction false} ClosedContainsGuarded(all: set<Consumer>, marked: set<Consumer>, symbols: set<string>,
          c: Consumer, n: nat)
    requires marked <= all && c in all && GuardedIn(all, c, n)
    requires forall d :: d in all && (MentionsMetadata(SyntaxOf(d.declaration)) || Uses(d) * symbols != {}) ==>
      d in marked
    requires forall d :: d in marked ==> Exports(d) <= symbols
    ensures c in marked
    decreases n
  {
    if !MentionsMetadata(SyntaxOf(c.declaration)) {
      var d, k :| d in all && k in Uses(c) && k in Exports(d) && GuardedIn(all, d, n - 1);
      ClosedContainsGuarded(all, marked, symbols, d, n - 1);
      assert k in Uses(c) * symbols;
    }
  }

  // ---- The loop ----

  function AllExports(consumers: seq<Consumer>): set<string> {
    set i, k | 0 <= i < |consumers| && k in Exports(consumers[i]) :: k
  }

  ghost function Collected(consumers: seq<Consumer>): set<Consumer> {
    set i | 0 <= i < |consumers| :: consumers[i]
  }

  /** Every marked consumer and every collected symbol is justified, and marked consumers mention or refer. */
  ghost predicate Justified(consumers: seq<Consumer>, guarded: seq<bool>, symbols: set<string>) {
    && |guarded| == |consumers|
    && (forall i :: 0 <= i < |consumers| && guarded[i] ==> Guarded(Collected(consumers), consumers[i]))
    && (forall k :: k in symbols ==> exists i ::
      0 <= i < |consumers| && k in Exports(consumers[i]) && Guarded(Collected(consumers), consumers[i]))
    && (forall i :: 0 <= i < |consumers| && MentionsMetadata(SyntaxOf(consumers[i].declaration)) ==> guarded[i])
  }

  lemma AllCollected(consumers: seq<Consumer>)
    ensures forall m :: 0 <= m < |consumers| ==> consumers[m] in Collected(consumers)
  {
  }

  lemma {:induction false} MarkIsJustified(consumers: seq<Consumer>, guarded: seq<bool>, symbols: set<string>, i: nat)
    requires Justified(consumers, guarded, symbols) && i < |consumers| && Uses(consumers[i]) * symbols != {}
    ensures Justified(consumers, guarded[i := true], symbols)
  {
    hide Guarded, Exports, Uses, MentionsMetadata, Collected;
    var k :| k in Uses(consumers[i]) * symbols;
    assert forall m :: 0 <= m < |consumers| ==> consumers[m] in Collected(consumers) by { AllCollected(consumers); }
    var j :| 0 <= j < |consumers| && k in Exports(consumers[j]) && Guarded(Collected(consumers), consumers[j]);
    GuardedByReference(Collected(consumers), consumers[i], consumers[j], k);
  }

  /** One consumer: it becomes guarded if it refers to a guarded symbol, and then its exports are guarded too. */
  predicate Settled(c: Consumer, guarded: bool, symbols: set<string>) {
    && (Uses(c) * symbols != {} ==> guarded)
    && (guarded ==> Exports(c) <= symbols)
  }

  /**
   * The least fixpoint: a declaration ends up guarded exactly when a chain of references leads to provider metadata.
   */
  method FindGuarded(consumers: seq<Consumer>) returns (guarded: seq<bool>)
    ensures |guarded| == |consumers|
    ensures forall i :: 0 <= i < |consumers| ==> (guarded[i] <==> Guarded(Collected(consumers), consumers[i]))
  {
    hide Guarded, Exports, Uses, MentionsMetadata;
    guarded :=
      seq(|consumers|, i requires 0 <= i < |consumers| => MentionsMetadata(SyntaxOf(consumers[i].declaration)));
    var symbols: set<string> := {};
    InitiallyJustified(consumers, guarded);
    var changed := true;
    while changed
      invariant Justified(consumers, guarded, symbols) && symbols <= AllExports(consumers)
      invariant !changed ==> forall i :: 0 <= i < |consumers| ==> Settled(consumers[i], guarded[i], symbols)
      decreases AllExports(consumers) - symbols, changed
    {
      changed := false;
      ghost var before := symbols;
      for i := 0 to |consumers|
        invariant Justified(consumers, guarded, symbols) && before <= symbols <= AllExports(consumers)
        invariant changed <==> symbols != before
        invariant !changed ==> forall j :: 0 <= j < i ==> Settled(consumers[j], guarded[j], symbols)
      {
        if !guarded[i] && Uses(consumers[i]) * symbols != {} {
          MarkIsJustified(consumers, guarded, symbols, i);
          guarded := guarded[i := true];
        }
        if guarded[i] && !(Exports(consumers[i]) <= symbols) {
          ExportIsJustified(consumers, guarded, symbols, i);
          symbols := symbols + Exports(consumers[i]);
          changed := true;
        }
      }
    }
    FixpointIsComplete(consumers, guarded, symbols);
  }

  lemma {:induction false} InitiallyJustified(consumers: seq<Consumer>, guarded: seq<bool>)
    requires |guarded| == |consumers|
    requires forall i :: 0 <= i < |consumers| ==> guarded[i] == MentionsMetadata(SyntaxOf(consumers[i].declaration))
    ensures Justified(consumers, guarded, {})
  {
    hide MentionsMetadata;
    forall i | 0 <= i < |consumers| && guarded[i] ensures Guarded(Collected(consumers), consumers[i]) {
      assert GuardedIn(Collected(consumers), consumers[i], 0);
    }
  }

  lemma {:induction false} ExportIsJustified(consumers: seq<Consumer>, guarded: seq<bool>, symbols: set<string>, i: nat)
    requires Justified(consumers, guarded, symbols) && symbols <= AllExports(consumers) && i < |consumers| && guarded[i]
    ensures Justified(consumers, guarded, symbols + Exports(consumers[i]))
    ensures symbols + Exports(consumers[i]) <= AllExports(consumers)
  {
    hide Guarded, Exports, MentionsMetadata;
  }

  lemma {:induction false} FixpointIsComplete(consumers: seq<Consumer>, guarded: seq<bool>, symbols: set<string>)
    requires Justified(consumers, guarded, symbols)
    requires forall i :: 0 <= i < |consumers| ==> Settled(consumers[i], guarded[i], symbols)
    ensures forall i :: 0 <= i < |consumers| && Guarded(Collected(consumers), consumers[i]) ==> guarded[i]
  {
    hide Exports, Uses, MentionsMetadata;
    var all := Collected(consumers);
    var marked := set c | c in all && (MentionsMetadata(SyntaxOf(c.declaration)) || Uses(c) * symbols != {});
    forall i | 0 <= i < |consumers| && Guarded(all, consumers[i]) ensures guarded[i] {
      var n: nat :| GuardedIn(all, consumers[i], n);
      assert consumers[i] in all;
      ClosedContainsGuarded(all, marked, symbols, consumers[i], n);
    }
  }

  /** The outcome for a declaration does not depend on the order in which declarations were collected. */
  lemma {:induction false} GuardedIgnoresOrder(consumers: seq<Consumer>, others: seq<Consumer>, c: Consumer)
    requires forall d :: d in consumers <==> d in others
    ensures Guarded(Collected(consumers), c) == Guarded(Collected(others), c)
  {
    forall d ensures d in Collected(consumers) <==> d in Collected(others) {
      assert d in Collected(consumers) <==> d in consumers;
      assert d in Collected(others) <==> d in others;
    }
    assert Collected(consumers) == Collected(others);
  }

  // ---- Violations ----

  datatype Review = Review(fingerprint: string, reason: string)

  /** A declaration is reported unless it is neither guarded nor reviewed, or its review is current and has a reason. */
  ghost predicate Violates(all: set<Consumer>, c: Consumer, reviews: map<string, Review>,
          fingerprint: Declaration -> string, blank: string -> bool)
  {
    && (Guarded(all, c) || c.key in reviews)
    && (c.key in reviews ==> fingerprint(c.declaration) != reviews[c.key].fingerprint || blank(reviews[c.key].reason))
  }

  /** verifyProviderMetadataConsumers: the reported indices, in order. */
  method Verify(consumers: seq<Consumer>, reviews: map<string, Review>, fingerprint: Declaration -> string,
          blank: string -> bool)
    returns (violations: seq<nat>)
    ensures forall i, j :: 0 <= i < j < |violations| ==> violations[i] < violations[j]
    ensures forall i :: i in violations <==>
      0 <= i < |consumers| && Violates(Collected(consumers), consumers[i], reviews, fingerprint, blank)
  {
    hide Guarded, Collected;
    var guarded := FindGuarded(consumers);
    violations := [];
    for i := 0 to |consumers|
      invariant forall k, j :: 0 <= k < j < |violations| ==> violations[k] < violations[j]
      invariant forall k :: 0 <= k < |violations| ==> violations[k] < i
      invariant forall j :: j in violations <==>
        0 <= j < i && Violates(Collected(consumers), consumers[j], reviews, fingerprint, blank)
    {
      var c := consumers[i];
      var reviewed := c.key in reviews;
      if !guarded[i] && !reviewed { continue; }
      if !reviewed || fingerprint(c.declaration) != reviews[c.key].fingerprint || blank(reviews[c.key].reason) {
        violations := violations + [i];
      }
    }
  }
}
