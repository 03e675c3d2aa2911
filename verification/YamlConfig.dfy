/** The YAML printer and parser of the configuration converter (scripts/convert_ua_config.py). */
module YamlConfig {
  import opened Text

  /** A float is kept as its text; `float()` itself is not modelled. */
  datatype Scalar = Str(s: string) | Int(n: int) | Boolean(b: bool) | Float(text: string) | Null

  /** A Python dict is its entries in insertion order. */
  datatype Value = Leaf(scalar: Scalar) | List(items: seq<Value>) | Dict(entries: seq<Entry>)

  datatype Entry = Entry(key: string, value: Value)

  // ---- Python string operations ----

  /** str.isspace */
  predicate IsPythonSpace(c: char) {
    || '\t' <= c <= '\r' || '\U{1C}' <= c <= ' ' || c == '\U{0085}' || c == '\U{00A0}' || c == '\U{1680}'
    || '\U{2000}' <= c <= '\U{200A}' || c == '\U{2028}' || c == '\U{2029}' || c == '\U{202F}' || c == '\U{205F}'
    || c == '\U{3000}'
  }

  function LStrip(s: string): string { if s != "" && IsPythonSpace(s[0]) then LStrip(s[1..]) else s }

  function RStrip(s: string): string { if s != "" && IsPythonSpace(s[|s| - 1]) then RStrip(s[..|s| - 1]) else s }

  function Strip(s: string): string { RStrip(LStrip(s)) }

  /** s.lstrip(" ") */
  function Unindented(s: string): string { if s != "" && s[0] == ' ' then Unindented(s[1..]) else s }

  function Indent(s: string): int { |s| - |Unindented(s)| }

  /** str(int) */
  function IntText(n: int): string { if n < 0 then "-" + NatText(-n) else NatText(n) }

  /** The index of the first colon, or the length of `s`. */
  function Colon(s: string): (i: nat)
    ensures i <= |s| && (i < |s| ==> s[i] == ':')
  {
    if s == "" || s[0] == ':' then 0 else 1 + Colon(s[1..])
  }

  // ---- Scalars ----

  /** Backslashes and double quotes get a backslash. */
  function Escape(s: string): string {
    if s == "" then "" else (if s[0] == '\\' || s[0] == '"' then ['\\', s[0]] else [s[0]]) + Escape(s[1..])
  }

  predicate Printable(v: Value) { v.Leaf? && !v.scalar.Float? && !v.scalar.Null? }

  /** format_scalar */
  function FormatScalar(v: Value): string
    requires Printable(v)
  {
    match v.scalar
    case Str(s) => "\"" + Escape(s) + "\""
    case Int(n) => IntText(n)
    case Boolean(b) => if b then "true" else "false"
  }

  predicate Wrapped(s: string, quote: char) { s != "" && s[0] == quote && s[|s| - 1] == quote }

  /** parse_scalar; `isFloat` tells for which texts `float()` succeeds. */
  function ParseScalar(isFloat: string -> bool, text: string): Value {
    var s := Strip(text);
    if s == "" then Leaf(Str(""))
    else if s == "[]" then List([])
    else if s == "{}" then Dict([])
    else if Wrapped(s, '"') || Wrapped(s, '\'') then Leaf(Str(if |s| < 2 then "" else s[1..|s| - 1]))
    else if Lower(s) == "true" then Leaf(Boolean(true))
    else if Lower(s) == "false" then Leaf(Boolean(false))
    else if Lower(s) == "null" || Lower(s) == "none" then Leaf(Null)
    else if s[0] == '-' && IsDigits(s[1..]) then Leaf(Int(0 - NatOf(s[1..])))
    else if IsDigits(s) then Leaf(Int(NatOf(s)))
    else if ('.' in s || 'e' in s || 'E' in s) && isFloat(s) then Leaf(Float(s))
    else Leaf(Str(s))
  }

  // ---- Printing ----

  const SECTIONS: seq<string> := [
    "main_settings", "image_hosting", "metadata", "screenshot_handling", "description_settings", "client_setup",
    "arr_integration", "torrent_creation", "post_upload", "logging", "trackers", "torrent_clients"]

  function Spaces(n: nat): string { seq(n, _ => ' ') }

  function Find(entries: seq<Entry>, key: string): Option<Value> {
    if entries == [] then None else if entries[0].key == key then Some(entries[0].value) else Find(entries[1..], key)
  }

  function ItemLines(items: seq<Value>, indent: nat): seq<string>
    requires forall i :: 0 <= i < |items| ==> Printable(items[i])
  {
    if items == [] then [] else [Spaces(indent + 2) + "- " + FormatScalar(items[0])] + ItemLines(items[1..], indent)
  }

  /** What `dump_yaml` can print: lists and leaves of strings, integers and booleans. */
  predicate Dumpable(v: Value) {
    match v
    case Leaf(_) => Printable(v)
    case List(items) => forall i :: 0 <= i < |items| ==> Printable(items[i])
    case Dict(entries) => forall i :: 0 <= i < |entries| ==> Dumpable(entries[i].value)
  }

  function EntryLines(key: string, v: Value, indent: nat): seq<string>
    requires Dumpable(v)
    decreases v, 1
  {
    match v
    case Dict(entries) => [Spaces(indent) + key + ":"] + EntriesLines(entries, indent + 2)
    case List(items) =>
      if items == [] then [Spaces(indent) + key + ": []"]
      else [Spaces(indent) + key + ":"] + ItemLines(items, indent)
    case Leaf(_) => [Spaces(indent) + key + ": " + FormatScalar(v)]
  }

  function EntriesLines(entries: seq<Entry>, indent: nat): seq<string>
    requires forall i :: 0 <= i < |entries| ==> Dumpable(entries[i].value)
    decreases entries, 0
  {
    if entries == [] then []
    else
      assert entries[0].value < entries[0];
      EntryLines(entries[0].key, entries[0].value, indent) + EntriesLines(entries[1..], indent)
  }

  function Others(entries: seq<Entry>): seq<Entry> {
    if entries == [] then []
    else (if entries[0].key in SECTIONS then [] else [entries[0]]) + Others(entries[1..])
  }

  function InOrder(entries: seq<Entry>, order: seq<string>): seq<Entry> {
    if order == [] then []
    else
      (match Find(entries, order[0]) case None => [] case Some(v) => [Entry(order[0], v)])
      + InOrder(entries, order[1..])
  }

  /** The entries of a root mapping in the order they are printed: known sections first. */
  function Reordered(entries: seq<Entry>): seq<Entry> { InOrder(entries, SECTIONS) + Others(entries) }

  /** The sections of the root mapping; a section that is not a mapping raises TypeError. */
  function SectionLines(entries: seq<Entry>, order: seq<string>): Result<seq<string>>
    requires forall i :: 0 <= i < |entries| ==> Dumpable(entries[i].value)
  {
    if order == [] then Ok([])
    else match SectionLines(entries, order[1..])
      case Err => Err
      case Ok(rest) =>
        match Find(entries, order[0])
        case None => Ok(rest)
        case Some(v) =>
          FindIsEntry(entries, order[0]);
          if v.Dict? then Ok([order[0] + ":"] + EntriesLines(v.entries, 2) + rest) else Err
  }

  lemma {:induction false} FindIsEntry(entries: seq<Entry>, key: string)
    ensures var f := Find(entries, key);
      f.Some? ==> exists i :: 0 <= i < |entries| && entries[i] == Entry(key, f.value)
  {
    if entries != [] && entries[0].key != key {
      FindIsEntry(entries[1..], key);
      if Find(entries[1..], key).Some? {
        var i :| 0 <= i < |entries[1..]| && entries[1..][i] == Entry(key, Find(entries[1..], key).value);
        assert entries[i + 1] == entries[1..][i];
      }
    }
  }

  lemma {:induction false} OthersAreEntries(entries: seq<Entry>)
    ensures forall i :: 0 <= i < |Others(entries)| ==> Others(entries)[i] in entries
  {
    if entries != [] { OthersAreEntries(entries[1..]); }
  }

  /** dump_yaml of the root mapping */
  function DumpYaml(entries: seq<Entry>): Result<seq<string>>
    requires forall i :: 0 <= i < |entries| ==> Dumpable(entries[i].value)
  {
    OthersAreEntries(entries);
    match SectionLines(entries, SECTIONS)
    case Err => Err
    case Ok(lines) => Ok(lines + EntriesLines(Others(entries), 0))
  }

  // ---- Parsing ----

  /** An open container on the parser's stack, with the key it has in the container below it. */
  datatype Frame = Frame(indent: int, key: string, node: Value)

  const ROOT := Frame(-1, "", Dict([]))

  /** parent[key] = value */
  function Put(entries: seq<Entry>, key: string, value: Value): seq<Entry> {
    if entries == [] then [Entry(key, value)]
    else if entries[0].key == key then [Entry(key, value)] + entries[1..]
    else [entries[0]] + Put(entries[1..], key, value)
  }

  function PutIn(f: Frame, key: string, value: Value): Frame
    requires f.node.Dict?
  {
    f.(node := Dict(Put(f.node.entries, key, value)))
  }

  /** Only mappings have containers above them. */
  predicate ValidStack(stack: seq<Frame>) {
    stack != [] && forall i :: 0 <= i < |stack| - 1 ==> stack[i].node.Dict?
  }

  function Top(stack: seq<Frame>): Frame
    requires stack != []
  {
    stack[|stack| - 1]
  }

  function WithTop(stack: seq<Frame>, f: Frame): seq<Frame>
    requires stack != []
  {
    stack[..|stack| - 1] + [f]
  }

  /** The container on top gets its final contents in the one below it. */
  function CloseTop(stack: seq<Frame>): (r: seq<Frame>)
    requires ValidStack(stack) && |stack| > 1
    ensures ValidStack(r) && |r| == |stack| - 1
  {
    var below := stack[..|stack| - 1];
    WithTop(below, PutIn(Top(below), Top(stack).key, Top(stack).node))
  }

  function CloseTo(stack: seq<Frame>, indent: int): (r: seq<Frame>)
    requires ValidStack(stack)
    ensures ValidStack(r)
    decreases |stack|
  {
    if |stack| > 1 && indent <= Top(stack).indent then CloseTo(CloseTop(stack), indent) else stack
  }

  function CloseAll(stack: seq<Frame>): Value
    requires ValidStack(stack)
    decreases |stack|
  {
    if |stack| > 1 then CloseAll(CloseTop(stack)) else stack[0].node
  }

  predicate IsComment(s: string) { s != "" && s[0] == '#' }

  /** next_significant_line on the remaining lines */
  function NextSignificant(lines: seq<string>): Option<string> {
    if lines == [] then None
    else if Unindented(lines[0]) == "" || IsComment(Unindented(lines[0])) then NextSignificant(lines[1..])
    else Some(RStrip(lines[0]))
  }

  predicate OpensList(rest: seq<string>, indent: int) {
    match NextSignificant(rest)
    case None => false
    case Some(next) => Indent(next) > indent && HasPrefix(Unindented(next), "- ")
  }

  /** One line of the file, with the lines after it for the lookahead. */
  function ParseLine(isFloat: string -> bool, stack: seq<Frame>, raw: string,
          rest: seq<string>): (r: Result<seq<Frame>>)
    requires ValidStack(stack)
    ensures r.Ok? ==> ValidStack(r.value)
  {
    var line := RStrip(raw);
    var s := Unindented(line);
    if Strip(raw) == "" || IsComment(s) then Ok(stack)
    else
      var open := CloseTo(stack, Indent(line));
      var top := Top(open);
      if HasPrefix(s, "- ") then
        if !top.node.List? then Err
        else Ok(WithTop(open, top.(node := List(top.node.items + [ParseScalar(isFloat, s[2..])]))))
      else if Colon(s) == |s| || !top.node.Dict? then Err
      else
        var key, value := Strip(s[..Colon(s)]), Strip(s[Colon(s) + 1..]);
        if value == "" then
          var container := if OpensList(rest, Indent(line)) then List([]) else Dict([]);
          Ok(WithTop(open, PutIn(top, key, container)) + [Frame(Indent(line), key, container)])
        else Ok(WithTop(open, PutIn(top, key, ParseScalar(isFloat, value))))
  }

  function ParseFrom(isFloat: string -> bool, stack: seq<Frame>, lines: seq<string>): Result<Value>
    requires ValidStack(stack)
    decreases |lines|
  {
    if lines == [] then Ok(CloseAll(stack))
    else match ParseLine(isFloat, stack, lines[0], lines[1..])
      case Err => Err
      case Ok(next) => ParseFrom(isFloat, next, lines[1..])
  }

  method NextSignificantLine(lines: seq<string>, start: nat) returns (next: Option<string>)
    requires start <= |lines|
    ensures next == NextSignificant(lines[start..])
  {
    for k := start to |lines|
      invariant NextSignificant(lines[start..]) == NextSignificant(lines[k..])
    {
      var s := Unindented(lines[k]);
      if s == "" || IsComment(s) { continue; }
      return Some(RStrip(lines[k]));
    }
    return None;
  }

  /** parse_simple_yaml on the lines of the file */
  method ParseSimpleYaml(isFloat: string -> bool, lines: seq<string>) returns (result: Result<Value>)
    ensures result == ParseFrom(isFloat, [ROOT], lines)
  {
    hide Strip, RStrip, Unindented, Colon, ParseScalar, Put, CloseTop, IsComment, Indent, NextSignificant;
    var stack := [ROOT];
    for k := 0 to |lines|
      invariant ValidStack(stack)
      invariant ParseFrom(isFloat, [ROOT], lines) == ParseFrom(isFloat, stack, lines[k..])
    {
      ghost var before := stack;
      assert lines[k..][1..] == lines[k + 1..];
      var line := RStrip(lines[k]);
      var s := Unindented(line);
      if Strip(lines[k]) == "" || IsComment(s) { continue; }
      var indent := Indent(line);
      while |stack| > 1 && indent <= Top(stack).indent
        invariant ValidStack(stack) && CloseTo(before, indent) == CloseTo(stack, indent)
        decreases |stack|
      {
        stack := CloseTop(stack);
      }
      var top := Top(stack);
      if HasPrefix(s, "- ") {
        if !top.node.List? { return Err; }
        stack := WithTop(stack, top.(node := List(top.node.items + [ParseScalar(isFloat, s[2..])])));
        continue;
      }
      if Colon(s) == |s| || !top.node.Dict? { return Err; }
      var key, value := Strip(s[..Colon(s)]), Strip(s[Colon(s) + 1..]);
      if value == "" {
        var upcoming := NextSignificantLine(lines, k + 1);
        var isList := upcoming.Some? && Indent(upcoming.value) > indent && HasPrefix(Unindented(upcoming.value), "- ");
        var container := if isList then List([]) else Dict([]);
        stack := WithTop(stack, PutIn(top, key, container)) + [Frame(indent, key, container)];
        continue;
      }
      stack := WithTop(stack, PutIn(top, key, ParseScalar(isFloat, value)));
    }
    while |stack| > 1
      invariant ValidStack(stack) && ParseFrom(isFloat, [ROOT], lines) == Ok(CloseAll(stack))
      decreases |stack|
    {
      stack := CloseTop(stack);
    }
    return Ok(stack[0].node);
  }
}
