/** Parsing what was printed gives the mapping back, with every string leaf in its escaped form. */
module YamlRoundTrip {
  import opened Text
  import opened YamlConfig

  // ---- Text of one line ----

  predicate Tight(s: string) { s != "" && !IsPythonSpace(s[0]) && !IsPythonSpace(s[|s| - 1]) }

  lemma TightStrips(s: string)
    requires Tight(s)
    ensures LStrip(s) == s && RStrip(s) == s && Strip(s) == s
  {
  }

  lemma {:induction false} LineFacts(n: nat, c: string)
    requires Tight(c)
    ensures var l := Spaces(n) + c;
      Strip(l) == c && RStrip(l) == l && Unindented(l) == c && Indent(l) == n
    decreases n
  {
    TightStrips(c);
    var l := Spaces(n) + c;
    assert l[|l| - 1] == c[|c| - 1];
    if n == 0 {
      assert l == c;
    } else {
      assert l[0] == ' ' && l[1..] == Spaces(n - 1) + c;
      LineFacts(n - 1, c);
    }
  }

  lemma {:induction false} ColonAfter(key: string, rest: string)
    requires ':' !in key
    ensures Colon(key + ":" + rest) == |key|
    decreases |key|
  {
    if key != "" {
      assert (key + ":" + rest)[1..] == key[1..] + ":" + rest;
      ColonAfter(key[1..], rest);
    }
  }

  predicate GoodKey(k: string) {
    Tight(k) && ':' !in k && k[0] != '#' && !HasPrefix(k, "- ")
  }

  /** The content of a line for a key: neither a comment nor a list item, and it splits at the key's colon. */
  lemma {:induction false} KeyContent(key: string, rest: string)
    requires GoodKey(key)
    ensures var c := key + ":" + rest;
      && !IsComment(c) && !HasPrefix(c, "- ")
      && Colon(c) == |key| && c[..|key|] == key && c[|key| + 1..] == rest
  {
    ColonAfter(key, rest);
    var c := key + ":" + rest;
    assert c[0] == key[0];
    if |key| == 1 {
      assert c[1] == ':';
    } else {
      assert c[..2] == key[..2];
    }
  }

  lemma {:induction false} KeySignificant(key: string, rest: string)
    requires GoodKey(key)
    ensures !IsComment(key + ":" + rest) && !HasPrefix(key + ":" + rest, "- ")
  {
    KeyContent(key, rest);
  }

  // ---- Scalars ----

  /** What the parser makes of a printed value: strings keep the escaping that the printer added. */
  function Escaped(v: Value): Value {
    match v
    case Leaf(Str(s)) => Leaf(Str(Escape(s)))
    case Leaf(_) => v
    case List(items) => List(EscapedItems(items))
    case Dict(entries) => Dict(EscapedEntries(entries))
  }

  function EscapedItems(items: seq<Value>): seq<Value> {
    if items == [] then [] else [Escaped(items[0])] + EscapedItems(items[1..])
  }

  function EscapedEntries(entries: seq<Entry>): seq<Entry> {
    if entries == [] then []
    else
      assert entries[0].value < entries[0];
      [Entry(entries[0].key, Escaped(entries[0].value))] + EscapedEntries(entries[1..])
  }

  lemma {:induction false} DigitsText(n: nat)
    ensures var s := NatText(n);
      Tight(s) && (forall i :: 0 <= i < |s| ==> '0' <= s[i] <= '9') && Lower(s) == s
  {
    hide NatOf, NatText, Lower;
    LowerDigits(NatText(n));
  }

  lemma {:induction false} LowerDigits(s: string)
    requires forall i :: 0 <= i < |s| ==> '0' <= s[i] <= '9'
    ensures Lower(s) == s
    decreases |s|
  {
    if s != "" {
      LowerDigits(s[1..]);
      assert s == [s[0]] + s[1..];
    }
  }

  /** A text that starts like a number is none of the words. */
  lemma {:induction false} NoWord(s: string)
    requires s != "" && (s[0] == '-' || '0' <= s[0] <= '9')
    ensures Lower(s) != "true" && Lower(s) != "false" && Lower(s) != "null" && Lower(s) != "none"
  {
    assert Lower(s)[0] == s[0];
    hide Lower;
    assert "true"[0] == 't' && "false"[0] == 'f' && "null"[0] == 'n' && "none"[0] == 'n';
  }

  lemma {:induction false} NumberForm(isFloat: string -> bool, s: string)
    requires Tight(s) && (s[0] == '-' || '0' <= s[0] <= '9') && (s[0] == '-' ==> IsDigits(s[1..]))
      && (s[0] != '-' ==> IsDigits(s))
    ensures ParseScalar(isFloat, s) == Leaf(Int(if s[0] == '-' then 0 - NatOf(s[1..]) else NatOf(s)))
  {
    hide NatOf, Strip, Lower;
    TightStrips(s);
    NoWord(s);
    assert "[]"[0] == '[' && "{}"[0] == '{';
  }

  lemma {:induction false} NumbersParse(isFloat: string -> bool, n: int)
    ensures ParseScalar(isFloat, IntText(n)) == Leaf(Int(n)) && Tight(IntText(n))
  {
    hide ParseScalar, NatText;
    var digits := NatText(if n < 0 then -n else n);
    var s := IntText(n);
    DigitsText(if n < 0 then -n else n);
    if n < 0 {
      assert s[|s| - 1] == digits[|digits| - 1] && s[1..] == digits;
    }
    NumberForm(isFloat, s);
  }

  lemma {:induction false} StringsParse(isFloat: string -> bool, s: string)
    ensures ParseScalar(isFloat, "\"" + Escape(s) + "\"") == Leaf(Str(Escape(s))) && Tight("\"" + Escape(s) + "\"")
  {
    var t := "\"" + Escape(s) + "\"";
    assert t[0] == '"' && t[|t| - 1] == '"';
    TightStrips(t);
    assert t[1..|t| - 1] == Escape(s);
  }

  lemma {:induction false} BooleansParse(isFloat: string -> bool)
    ensures ParseScalar(isFloat, "true") == Leaf(Boolean(true)) && Tight("true")
    ensures ParseScalar(isFloat, "false") == Leaf(Boolean(false)) && Tight("false")
  {
    TightStrips("true");
    TightStrips("false");
    assert Lower("true") == "true" && Lower("false") == "false";
  }

  lemma {:induction false} ScalarsParse(isFloat: string -> bool, v: Value)
    requires Printable(v)
    ensures ParseScalar(isFloat, FormatScalar(v)) == Escaped(v) && Tight(FormatScalar(v))
  {
    hide ParseScalar, IntText, Tight;
    match v.scalar
    case Str(s) => StringsParse(isFloat, s);
    case Int(n) => NumbersParse(isFloat, n);
    case Boolean(b) => BooleansParse(isFloat);
  }

  // ---- One printed line on the parser's stack ----

  /** The stack with `top` above `below`, ready for lines indented by at least `n`. */
  predicate Ready(below: seq<Frame>, top: Frame, n: int) {
    top.indent < n && forall i :: 0 <= i < |below| ==> below[i].node.Dict?
  }

  lemma {:induction false} ReadyStack(below: seq<Frame>, top: Frame, n: int)
    requires Ready(below, top, n)
    ensures ValidStack(below + [top]) && Top(below + [top]) == top && CloseTo(below + [top], n) == below + [top]
    ensures forall f :: WithTop(below + [top], f) == below + [f]
  {
    assert (below + [top])[..|below|] == below;
  }

  /** "key: value" */
  lemma {:induction false} LeafLine(isFloat: string -> bool, below: seq<Frame>, top: Frame, n: nat, key: string,
          text: string, rest: seq<string>)
    requires Ready(below, top, n) && top.node.Dict? && GoodKey(key) && Tight(text)
    ensures ValidStack(below + [top])
    ensures ParseLine(isFloat, below + [top], Spaces(n) + key + ": " + text, rest)
      == Ok(below + [PutIn(top, key, ParseScalar(isFloat, text))])
  {
    hide LStrip, RStrip, Unindented, IsPythonSpace, ParseScalar;
    var c := key + ":" + (" " + text);
    assert Spaces(n) + key + ": " + text == Spaces(n) + c;
    assert Tight(c) by { assert c[0] == key[0] && c[|c| - 1] == text[|text| - 1]; }
    LineFacts(n, c);
    KeyContent(key, " " + text);
    ReadyStack(below, top, n);
    TightStrips(key);
    assert Strip(" " + text) == text by { LineFacts(1, text); assert Spaces(1) + text == " " + text; }
  }

  /** "key:" */
  lemma {:induction false} HeaderLine(isFloat: string -> bool, below: seq<Frame>, top: Frame, n: nat, key: string,
          rest: seq<string>)
    requires Ready(below, top, n) && top.node.Dict? && GoodKey(key)
    ensures ValidStack(below + [top])
    ensures var container := if OpensList(rest, n) then List([]) else Dict([]);
      ParseLine(isFloat, below + [top], Spaces(n) + key + ":", rest)
      == Ok(below + [PutIn(top, key, container)] + [Frame(n, key, container)])
  {
    hide LStrip, RStrip, Unindented, IsPythonSpace;
    var c := key + ":" + "";
    assert Spaces(n) + key + ":" == Spaces(n) + c;
    assert Tight(c) by { assert c[0] == key[0] && c[|c| - 1] == ':'; ColonIsNoSpace(); }
    LineFacts(n, c);
    KeyContent(key, "");
    ReadyStack(below, top, n);
    TightStrips(key);
    assert Strip("") == "" by { EmptyStrips(); }
  }

  lemma ColonIsNoSpace()
    ensures !IsPythonSpace(':') && !IsPythonSpace('-') && !IsPythonSpace(']')
  {
  }

  lemma EmptyStrips()
    ensures Strip("") == ""
  {
  }

  /** "  - item" */
  lemma {:induction false} ItemLine(isFloat: string -> bool, below: seq<Frame>, top: Frame, n: nat, text: string,
          rest: seq<string>)
    requires Ready(below, top, n) && top.node.List? && Tight(text)
    ensures ValidStack(below + [top])
    ensures ParseLine(isFloat, below + [top], Spaces(n) + "- " + text, rest)
      == Ok(below + [top.(node := List(top.node.items + [ParseScalar(isFloat, text)]))])
  {
    hide LStrip, RStrip, Unindented, IsPythonSpace, ParseScalar;
    var c := "- " + text;
    assert Spaces(n) + "- " + text == Spaces(n) + c;
    assert Tight(c) by { assert c[0] == '-' && c[|c| - 1] == text[|text| - 1]; ColonIsNoSpace(); }
    LineFacts(n, c);
    ReadyStack(below, top, n);
    assert c[..2] == "- " && c[2..] == text;
  }

  // ---- Whole mappings ----

  /** The lines after a container: none, or a significant line indented by at most `n`. */
  predicate Outer(rest: seq<string>, n: int) {
    rest == [] || (Strip(rest[0]) != "" && !IsComment(Unindented(rest[0])) && RStrip(rest[0]) == rest[0]
                   && Unindented(rest[0]) != "" && Indent(rest[0]) <= n)
  }

  lemma OuterClosesList(rest: seq<string>, n: int)
    requires Outer(rest, n)
    ensures !OpensList(rest, n)
  {
  }

  /** Leaving a container: the next line, or the end of the file, puts its contents into the one below. */
  lemma {:induction false} Leave(isFloat: string -> bool, below: seq<Frame>, top: Frame, n: int, key: string,
          node: Value, rest: seq<string>)
    requires Ready(below, top, n) && top.node.Dict? && Outer(rest, n)
    ensures ValidStack(below + [top] + [Frame(n, key, node)]) && ValidStack(below + [PutIn(top, key, node)])
    ensures ParseFrom(isFloat, below + [top] + [Frame(n, key, node)], rest)
      == ParseFrom(isFloat, below + [PutIn(top, key, node)], rest)
  {
    var stack := below + [top] + [Frame(n, key, node)];
    assert stack[..|stack| - 1] == below + [top] && (below + [top])[..|below|] == below;
    assert CloseTop(stack) == below + [PutIn(top, key, node)];
  }

  lemma {:induction false} PutNew(entries: seq<Entry>, key: string, value: Value)
    requires Find(entries, key) == None
    ensures Put(entries, key, value) == entries + [Entry(key, value)]
  {
    if entries != [] { PutNew(entries[1..], key, value); }
  }

  lemma {:induction false} PutTwice(entries: seq<Entry>, key: string, first: Value, value: Value)
    ensures Put(Put(entries, key, first), key, value) == Put(entries, key, value)
  {
    if entries != [] { PutTwice(entries[1..], key, first, value); }
  }

  /** Keys that survive the trip, each once, at every level. */
  predicate GoodKeys(v: Value) {
    match v
    case Dict(entries) => GoodEntries(entries)
    case _ => true
  }

  predicate GoodEntries(entries: seq<Entry>) {
    entries == [] || (
      assert entries[0].value < entries[0];
      GoodKey(entries[0].key) && Find(entries[1..], entries[0].key) == None
      && GoodKeys(entries[0].value) && GoodEntries(entries[1..]))
  }

  lemma StillReady(below: seq<Frame>, top: Frame, next: Frame, n: int)
    requires Ready(below, top, n) && next.indent == top.indent
    ensures Ready(below, next, n)
  {
  }

  lemma NoItems(n: nat)
    ensures ItemLines([], n) == [] && EscapedItems([]) == []
  {
  }

  lemma {:induction false} ItemsCons(items: seq<Value>, n: nat, rest: seq<string>)
    requires items != [] && forall i :: 0 <= i < |items| ==> Printable(items[i])
    ensures ItemLines(items, n) + rest
      == [Spaces(n + 2) + "- " + FormatScalar(items[0])] + (ItemLines(items[1..], n) + rest)
    ensures EscapedItems(items) == [Escaped(items[0])] + EscapedItems(items[1..])
  {
    hide FormatScalar, Escaped;
  }

  lemma {:induction false} ParseStep(isFloat: string -> bool, stack: seq<Frame>, line: string, more: seq<string>,
          next: seq<Frame>)
    requires ValidStack(stack) && ValidStack(next) && ParseLine(isFloat, stack, line, more) == Ok(next)
    ensures ParseFrom(isFloat, stack, [line] + more) == ParseFrom(isFloat, next, more)
  {
    hide ParseLine;
    assert ([line] + more)[1..] == more;
  }

  lemma {:induction false} ItemsParse(isFloat: string -> bool, below: seq<Frame>, top: Frame, n: nat, items: seq<Value>,
          rest: seq<string>)
    requires Ready(below, top, n + 2) && top.node.List? && forall i :: 0 <= i < |items| ==> Printable(items[i])
    ensures ValidStack(below + [top]) && ValidStack(below + [top.(node := List(top.node.items + EscapedItems(items)))])
    ensures ParseFrom(isFloat, below + [top], ItemLines(items, n) + rest)
      == ParseFrom(isFloat, below + [top.(node := List(top.node.items + EscapedItems(items)))], rest)
    decreases |items|
  {
    hide ParseLine, FormatScalar, ParseScalar, Escaped, CloseTo, ParseFrom, ItemLines, EscapedItems, ValidStack, Ready;
    var after := top.(node := List(top.node.items + EscapedItems(items)));
    StillReady(below, top, after, n + 2);
    ReadyStack(below, top, n + 2);
    ReadyStack(below, after, n + 2);
    if items == [] {
      NoItems(n);
      assert ItemLines(items, n) + rest == rest && top.node.items + [] == top.node.items;
    } else {
      var text := FormatScalar(items[0]);
      var more := ItemLines(items[1..], n) + rest;
      var next := top.(node := List(top.node.items + [Escaped(items[0])]));
      StillReady(below, top, next, n + 2);
      ReadyStack(below, next, n + 2);
      ItemsCons(items, n, rest);
      ScalarsParse(isFloat, items[0]);
      ItemLine(isFloat, below, top, n + 2, text, more);
      ParseStep(isFloat, below + [top], Spaces(n + 2) + "- " + text, more, below + [next]);
      ItemsParse(isFloat, below, next, n, items[1..], rest);
      assert top.node.items + [Escaped(items[0])] + EscapedItems(items[1..]) == top.node.items + EscapedItems(items);
    }
  }

  /** A non-empty list: its header and its items. */
  lemma {:induction false} ListParses(isFloat: string -> bool, below: seq<Frame>, top: Frame, n: nat, key: string,
          items: seq<Value>, rest: seq<string>)
    requires Ready(below, top, n) && top.node.Dict? && GoodKey(key) && Find(top.node.entries, key) == None
      && Outer(rest, n)
    requires items != [] && forall i :: 0 <= i < |items| ==> Printable(items[i])
    ensures ValidStack(below + [top]) && ValidStack(below + [PutIn(top, key, List(EscapedItems(items)))])
    ensures ParseFrom(isFloat, below + [top], [Spaces(n) + key + ":"] + ItemLines(items, n) + rest)
      == ParseFrom(isFloat, below + [PutIn(top, key, List(EscapedItems(items)))], rest)
  {
    hide ParseLine, ParseFrom, FormatScalar, Put, OpensList, ItemLines, EscapedItems, NextSignificant, Outer, CloseTo,
      ValidStack, GoodKey, Find;
    var line := Spaces(n) + key + ":";
    var more := ItemLines(items, n) + rest;
    var parent, list := PutIn(top, key, List([])), Frame(n, key, List([]));
    ReadyStack(below, top, n);
    ReadyStack(below + [parent], list, n + 2);
    ItemsOpenList(items, n, rest);
    HeaderLine(isFloat, below, top, n, key, more);
    assert [line] + ItemLines(items, n) + rest == [line] + more;
    ParseStep(isFloat, below + [top], line, more, below + [parent] + [list]);
    ItemsParse(isFloat, below + [parent], list, n, items, rest);
    assert [] + EscapedItems(items) == EscapedItems(items);
    Leave(isFloat, below, parent, n, key, List(EscapedItems(items)), rest);
    PutTwice(top.node.entries, key, List([]), List(EscapedItems(items)));
  }

  lemma {:induction false} ItemsOpenList(items: seq<Value>, n: nat, rest: seq<string>)
    requires items != [] && Printable(items[0]) && forall i :: 0 <= i < |items| ==> Printable(items[i])
    ensures OpensList(ItemLines(items, n) + rest, n)
  {
    hide LStrip, RStrip, Unindented, IsPythonSpace, FormatScalar;
    var text := FormatScalar(items[0]);
    ScalarsParse(_ => false, items[0]);
    var c := "- " + text;
    var line := Spaces(n + 2) + "- " + text;
    assert (ItemLines(items, n) + rest)[0] == line == Spaces(n + 2) + c;
    assert Tight(c) by { assert c[0] == '-' && c[|c| - 1] == text[|text| - 1]; ColonIsNoSpace(); }
    LineFacts(n + 2, c);
    assert c[..2] == "- ";
  }

  /** What a key's line has after the colon. */
  function Tail(v: Value): string
    requires Dumpable(v)
  {
    if v.Leaf? then " " + FormatScalar(v) else if v.List? && v.items == [] then " []" else ""
  }

  lemma {:induction false} TightLine(key: string, tail: string)
    requires GoodKey(key) && (tail == "" || !IsPythonSpace(tail[|tail| - 1]))
    ensures Tight(key + ":" + tail)
  {
    hide IsPythonSpace;
    var c := key + ":" + tail;
    ColonIsNoSpace();
    assert c[0] == key[0] && c[|c| - 1] == if tail == "" then ':' else tail[|tail| - 1];
  }

  lemma {:induction false} FirstLine(key: string, v: Value, n: nat)
    requires GoodKey(key) && Dumpable(v)
    ensures EntryLines(key, v, n) != [] && EntryLines(key, v, n)[0] == Spaces(n) + (key + ":" + Tail(v))
    ensures Tight(key + ":" + Tail(v))
  {
    hide IsPythonSpace, FormatScalar, ItemLines, EntriesLines, Spaces, ParseScalar, Unindented, GoodKey;
    var c := key + ":" + Tail(v);
    if v.Leaf? {
      ScalarsParse(_ => false, v);
      var text := FormatScalar(v);
      assert (" " + text)[|text|] == text[|text| - 1];
      assert Spaces(n) + key + ": " + text == Spaces(n) + c;
    } else if v.List? && v.items == [] {
      BracketIsNoSpace();
      assert Spaces(n) + key + ": []" == Spaces(n) + c;
    } else {
      assert Spaces(n) + key + ":" == Spaces(n) + c;
    }
    TightLine(key, Tail(v));
  }

  lemma BracketIsNoSpace()
    ensures !IsPythonSpace(']')
  {
  }

  /** A significant line that is no list item neither opens a list nor belongs to anything indented deeper. */
  lemma {:induction false} SignificantLine(n: nat, c: string, more: seq<string>)
    requires Tight(c) && !IsComment(c) && !HasPrefix(c, "- ")
    ensures var lines := [Spaces(n) + c] + more;
      Outer(lines, n) && forall m :: !OpensList(lines, m)
  {
    hide LStrip, RStrip, Unindented, IsPythonSpace, Strip;
    LineFacts(n, c);
    var lines := [Spaces(n) + c] + more;
    assert lines[0] == Spaces(n) + c;
    assert NextSignificant(lines) == Some(Spaces(n) + c);
  }

  lemma {:induction false} EntriesCons(entries: seq<Entry>, n: nat, rest: seq<string>)
    requires entries != [] && forall i :: 0 <= i < |entries| ==> Dumpable(entries[i].value)
    ensures EntriesLines(entries, n) + rest
      == EntryLines(entries[0].key, entries[0].value, n) + (EntriesLines(entries[1..], n) + rest)
    ensures EscapedEntries(entries) == [Entry(entries[0].key, Escaped(entries[0].value))] + EscapedEntries(entries[1..])
  {
    hide EntryLines, Escaped, Dumpable;
  }

  /** The first line of a mapping's entries is a key line, so that it does not open a list. */
  lemma {:induction false} EntriesFirstLine(entries: seq<Entry>, n: nat, rest: seq<string>)
    requires GoodEntries(entries) && entries != [] && forall i :: 0 <= i < |entries| ==> Dumpable(entries[i].value)
    ensures Outer(EntriesLines(entries, n) + rest, n) && (EntriesLines(entries, n) + rest) != []
    ensures forall m :: !OpensList(EntriesLines(entries, n) + rest, m)
  {
    hide Unindented, IsPythonSpace, FormatScalar, EntryLines, GoodKeys, Dumpable, Tight, OpensList, Outer, EntriesLines,
      IsComment, HasPrefix;
    var key, v := entries[0].key, entries[0].value;
    assert GoodKey(key);
    FirstLine(key, v, n);
    EntriesCons(entries, n, rest);
    hide GoodEntries, GoodKey, Tail, Spaces, Find, Strip, LStrip, RStrip, Colon, Indent;
    KeySignificant(key, Tail(v));
    var tail := EntriesLines(entries[1..], n) + rest;
    var more := EntryLines(key, v, n)[1..] + tail;
    var lines := EntryLines(key, v, n);
    assert lines + tail == [lines[0]] + more;
    SignificantLine(n, key + ":" + Tail(v), more);
  }

  lemma {:induction false} RestIsOuter(entries: seq<Entry>, n: nat, rest: seq<string>)
    requires GoodEntries(entries) && (forall i :: 0 <= i < |entries| ==> Dumpable(entries[i].value)) && Outer(rest, n)
    ensures Outer(EntriesLines(entries, n) + rest, n)
  {
    if entries == [] {
      assert EntriesLines(entries, n) + rest == rest;
    } else {
      EntriesFirstLine(entries, n, rest);
    }
  }

  lemma {:induction false} EntryParses(isFloat: string -> bool, below: seq<Frame>, top: Frame, n: nat, key: string,
          v: Value, rest: seq<string>)
    requires Ready(below, top, n) && top.node.Dict? && GoodKey(key) && Find(top.node.entries, key) == None
      && Outer(rest, n)
    requires Dumpable(v) && GoodKeys(v)
    ensures ValidStack(below + [top]) && ValidStack(below + [PutIn(top, key, Escaped(v))])
    ensures ParseFrom(isFloat, below + [top], EntryLines(key, v, n) + rest)
      == ParseFrom(isFloat, below + [PutIn(top, key, Escaped(v))], rest)
    decreases v, 1
  {
    hide ParseLine, Put, OpensList, Outer, CloseTo, GoodKey, ParseScalar, EntriesLines, ValidStack, ParseFrom;
    ReadyStack(below, top, n);
    match v
    case Leaf(_) =>
      LeafParses(isFloat, below, top, n, key, v, rest);
    case List(items) =>
      if items == [] {
        EmptyListParses(isFloat, below, top, n, key, rest);
      } else {
        ListParses(isFloat, below, top, n, key, items, rest);
      }
    case Dict(entries) =>
      var line := Spaces(n) + key + ":";
      var more := EntriesLines(entries, n + 2) + rest;
      assert EntryLines(key, v, n) + rest == [line] + more && ([line] + more)[1..] == more;
      var parent := PutIn(top, key, Dict([]));
      assert Outer(rest, n + 2) by { OuterWider(rest, n); }
      NestedReady(below, parent, n, key);
      ParseHeader(isFloat, below, top, n, key, entries, rest);
      EntriesParse(isFloat, below + [parent], Frame(n, key, Dict([])), n + 2, entries, rest);
      assert [] + EscapedEntries(entries) == EscapedEntries(entries);
      Leave(isFloat, below, parent, n, key, Escaped(v), rest);
      PutTwice(top.node.entries, key, Dict([]), Escaped(v));
  }

  lemma NestedReady(below: seq<Frame>, parent: Frame, n: nat, key: string)
    requires Ready(below, parent, n) && parent.node.Dict?
    ensures Ready(below + [parent], Frame(n, key, Dict([])), n + 2)
  {
  }

  lemma {:induction false} ParseHeader(isFloat: string -> bool, below: seq<Frame>, top: Frame, n: nat, key: string,
          entries: seq<Entry>, rest: seq<string>)
    requires Ready(below, top, n) && top.node.Dict? && GoodKey(key) && Outer(rest, n)
    requires GoodEntries(entries) && forall i :: 0 <= i < |entries| ==> Dumpable(entries[i].value)
    ensures var more := EntriesLines(entries, n + 2) + rest;
      && ValidStack(below + [top]) && ValidStack(below + [PutIn(top, key, Dict([]))] + [Frame(n, key, Dict([]))])
      && ParseFrom(isFloat, below + [top], [Spaces(n) + key + ":"] + more)
         == ParseFrom(isFloat, below + [PutIn(top, key, Dict([]))] + [Frame(n, key, Dict([]))], more)
  {
    hide ParseLine, Put, Outer;
    HeaderOfDict(isFloat, below, top, n, key, entries, rest);
    var more := EntriesLines(entries, n + 2) + rest;
    assert ([Spaces(n) + key + ":"] + more)[1..] == more;
  }

  lemma OuterWider(rest: seq<string>, n: int)
    requires Outer(rest, n)
    ensures Outer(rest, n + 2)
  {
  }

  lemma {:induction false} HeaderOfDict(isFloat: string -> bool, below: seq<Frame>, top: Frame, n: nat, key: string,
          entries: seq<Entry>, rest: seq<string>)
    requires Ready(below, top, n) && top.node.Dict? && GoodKey(key) && Outer(rest, n)
    requires GoodEntries(entries) && forall i :: 0 <= i < |entries| ==> Dumpable(entries[i].value)
    ensures ValidStack(below + [top])
    ensures ParseLine(isFloat, below + [top], Spaces(n) + key + ":", EntriesLines(entries, n + 2) + rest)
      == Ok(below + [PutIn(top, key, Dict([]))] + [Frame(n, key, Dict([]))])
  {
    hide ParseLine, Put, OpensList, Outer;
    var more := EntriesLines(entries, n + 2) + rest;
    if entries == [] {
      assert more == rest;
      OuterClosesList(rest, n);
    } else {
      EntriesFirstLine(entries, n + 2, rest);
    }
    HeaderLine(isFloat, below, top, n, key, more);
  }

  lemma {:induction false} LeafParses(isFloat: string -> bool, below: seq<Frame>, top: Frame, n: nat, key: string,
          v: Value, rest: seq<string>)
    requires Ready(below, top, n) && top.node.Dict? && GoodKey(key) && v.Leaf? && Dumpable(v)
    ensures ValidStack(below + [top]) && ValidStack(below + [PutIn(top, key, Escaped(v))])
    ensures ParseFrom(isFloat, below + [top], EntryLines(key, v, n) + rest)
      == ParseFrom(isFloat, below + [PutIn(top, key, Escaped(v))], rest)
  {
    hide ParseLine, Put, ParseScalar, FormatScalar;
    ReadyStack(below, top, n);
    var line := Spaces(n) + key + ": " + FormatScalar(v);
    ScalarsParse(isFloat, v);
    LeafLine(isFloat, below, top, n, key, FormatScalar(v), rest);
    assert EntryLines(key, v, n) + rest == [line] + rest && ([line] + rest)[1..] == rest;
  }

  lemma {:induction false} EmptyListParses(isFloat: string -> bool, below: seq<Frame>, top: Frame, n: nat, key: string,
          rest: seq<string>)
    requires Ready(below, top, n) && top.node.Dict? && GoodKey(key)
    ensures ValidStack(below + [top]) && ValidStack(below + [PutIn(top, key, List([]))])
    ensures ParseFrom(isFloat, below + [top], EntryLines(key, List([]), n) + rest)
      == ParseFrom(isFloat, below + [PutIn(top, key, List([]))], rest)
  {
    hide ParseLine, Put;
    ReadyStack(below, top, n);
    TightStrips("[]");
    LeafLine(isFloat, below, top, n, key, "[]", rest);
    var line := Spaces(n) + key + ": []";
    assert line == Spaces(n) + key + ": " + "[]";
    assert EntryLines(key, List([]), n) + rest == [line] + rest && ([line] + rest)[1..] == rest;
  }

  lemma {:induction false} FindAppended(entries: seq<Entry>, e: Entry, key: string)
    ensures Find(entries + [e], key) == if Find(entries, key).Some? then Find(entries, key)
      else if e.key == key then Some(e.value) else None
    decreases |entries|
  {
    if entries != [] {
      assert (entries + [e])[1..] == entries[1..] + [e];
      FindAppended(entries[1..], e, key);
    }
  }

  /** No key of `entries` is in `into`. */
  predicate Disjoint(entries: seq<Entry>, into: seq<Entry>) {
    forall i :: 0 <= i < |entries| ==> Find(into, entries[i].key) == None
  }

  lemma {:induction false} KeyIsFound(entries: seq<Entry>, i: nat)
    requires i < |entries|
    ensures Find(entries, entries[i].key).Some?
    decreases i
  {
    if i > 0 && entries[0].key != entries[i].key {
      assert entries[1..][i - 1] == entries[i];
      KeyIsFound(entries[1..], i - 1);
    }
  }

  lemma {:induction false} DisjointStep(entries: seq<Entry>, into: seq<Entry>, v: Value)
    requires entries != [] && GoodEntries(entries) && Disjoint(entries, into)
    ensures Disjoint(entries[1..], into + [Entry(entries[0].key, v)])
  {
    forall i | 0 <= i < |entries[1..]| ensures Find(into + [Entry(entries[0].key, v)], entries[1..][i].key) == None {
      assert entries[1..][i] == entries[i + 1];
      KeyIsFound(entries[1..], i);
      FindAppended(into, Entry(entries[0].key, v), entries[i + 1].key);
    }
  }

  lemma FirstIsNew(entries: seq<Entry>, into: seq<Entry>)
    requires entries != [] && Disjoint(entries, into)
    ensures Find(into, entries[0].key) == None
  {
  }

  lemma {:induction false} EntriesParse(isFloat: string -> bool, below: seq<Frame>, top: Frame, n: nat,
          entries: seq<Entry>, rest: seq<string>)
    requires Ready(below, top, n) && top.node.Dict? && Outer(rest, n)
    requires GoodEntries(entries) && Disjoint(entries, top.node.entries)
    requires forall i :: 0 <= i < |entries| ==> Dumpable(entries[i].value)
    ensures var after := top.(node := Dict(top.node.entries + EscapedEntries(entries)));
      && ValidStack(below + [top]) && ValidStack(below + [after])
      && ParseFrom(isFloat, below + [top], EntriesLines(entries, n) + rest) == ParseFrom(isFloat, below + [after], rest)
    decreases entries, 0
  {
    hide ParseLine, Put, OpensList, Outer, CloseTo, GoodKey, ParseScalar, EntryLines, ParseFrom, Disjoint, Escaped,
      ValidStack, Ready;
    ReadyStack(below, top, n);
    if entries == [] {
      assert EntriesLines(entries, n) + rest == rest && top.node.entries + [] == top.node.entries;
    } else {
      var key, v := entries[0].key, entries[0].value;
      assert v < entries[0];
      var more := EntriesLines(entries[1..], n) + rest;
      EntriesCons(entries, n, rest);
      FirstIsNew(entries, top.node.entries);
      RestIsOuter(entries[1..], n, rest);
      EntryParses(isFloat, below, top, n, key, v, more);
      PutNew(top.node.entries, key, Escaped(v));
      DisjointStep(entries, top.node.entries, Escaped(v));
      StillReady(below, top, PutIn(top, key, Escaped(v)), n);
      EntriesParse(isFloat, below, PutIn(top, key, Escaped(v)), n, entries[1..], rest);
      assert top.node.entries + [Entry(key, Escaped(v))] + EscapedEntries(entries[1..])
        == top.node.entries + EscapedEntries(entries);
    }
  }
}
