/** The converter's file: the root mapping printed with its sections first, and read back. */
module YamlConversion {
  import opened Text
  import opened YamlConfig
  import opened YamlRoundTrip

  // ---- The printed order of the root mapping ----

  lemma SectionsAreDistinct()
    ensures forall i, j :: 0 <= i < j < |SECTIONS| ==> SECTIONS[i] != SECTIONS[j]
  {
  }

  lemma {:induction false} FindInOrder(entries: seq<Entry>, order: seq<string>, key: string)
    ensures Find(InOrder(entries, order), key) == if key in order then Find(entries, key) else None
    decreases |order|
  {
    if order != [] {
      FindInOrder(entries, order[1..], key);
      var rest := InOrder(entries, order[1..]);
      match Find(entries, order[0])
      case None => assert InOrder(entries, order) == rest;
      case Some(v) => assert InOrder(entries, order)[1..] == rest;
    }
  }

  lemma {:induction false} FindOthers(entries: seq<Entry>, key: string)
    ensures Find(Others(entries), key) == if key in SECTIONS then None else Find(entries, key)
    decreases |entries|
  {
    if entries != [] {
      FindOthers(entries[1..], key);
      var rest := Others(entries[1..]);
      if entries[0].key in SECTIONS {
        assert Others(entries) == rest;
      } else {
        assert Others(entries)[1..] == rest;
      }
    }
  }

  lemma {:induction false} FindConcat(a: seq<Entry>, b: seq<Entry>, key: string)
    ensures Find(a + b, key) == if Find(a, key).Some? then Find(a, key) else Find(b, key)
    decreases |a|
  {
    if a == [] {
      assert a + b == b;
    } else {
      assert (a + b)[1..] == a[1..] + b;
      FindConcat(a[1..], b, key);
    }
  }

  /** Printing sections first does not change the mapping. */
  lemma {:induction false} ReorderedIsSameMapping(entries: seq<Entry>, key: string)
    ensures Find(Reordered(entries), key) == Find(entries, key)
  {
    hide InOrder, Others, Find;
    FindInOrder(entries, SECTIONS, key);
    FindOthers(entries, key);
    FindConcat(InOrder(entries, SECTIONS), Others(entries), key);
  }

  lemma {:induction false} GoodOthers(entries: seq<Entry>)
    requires GoodEntries(entries)
    ensures GoodEntries(Others(entries))
    decreases |entries|
  {
    hide GoodKey, GoodKeys;
    if entries != [] {
      GoodOthers(entries[1..]);
      var rest := Others(entries[1..]);
      FindOthers(entries[1..], entries[0].key);
      if entries[0].key in SECTIONS {
        assert Others(entries) == rest;
      } else {
        assert Others(entries)[1..] == rest && Others(entries)[0] == entries[0];
      }
    }
  }

  lemma {:induction false} GoodMember(entries: seq<Entry>, key: string)
    requires GoodEntries(entries) && Find(entries, key).Some?
    ensures GoodKey(key) && GoodKeys(Find(entries, key).value)
    decreases |entries|
  {
    if entries[0].key != key { GoodMember(entries[1..], key); }
  }

  /** `order` lists no key twice and only sections. */
  predicate Listing(order: seq<string>) {
    && (forall i, j :: 0 <= i < j < |order| ==> order[i] != order[j])
    && forall i :: 0 <= i < |order| ==> order[i] in SECTIONS
  }

  lemma {:induction false} GoodInOrder(entries: seq<Entry>, order: seq<string>)
    requires GoodEntries(entries) && Listing(order)
    ensures GoodEntries(InOrder(entries, order) + Others(entries))
    decreases |order|
  {
    hide GoodKey, GoodKeys, Others;
    if order == [] {
      GoodOthers(entries);
      assert InOrder(entries, order) + Others(entries) == Others(entries);
    } else {
      GoodInOrder(entries, order[1..]);
      var front, rest := InOrder(entries, order[1..]), InOrder(entries, order[1..]) + Others(entries);
      match Find(entries, order[0])
      case None =>
        assert InOrder(entries, order) + Others(entries) == rest;
      case Some(v) =>
        var all := InOrder(entries, order) + Others(entries);
        assert all == [Entry(order[0], v)] + rest && all[1..] == rest;
        GoodMember(entries, order[0]);
        assert order[0] !in order[1..];
        FindInOrder(entries, order[1..], order[0]);
        FindOthers(entries, order[0]);
        FindConcat(front, Others(entries), order[0]);
    }
  }

  lemma {:induction false} GoodReordered(entries: seq<Entry>)
    requires GoodEntries(entries)
    ensures GoodEntries(Reordered(entries))
  {
    hide GoodEntries, InOrder, Others;
    SectionsAreDistinct();
    GoodInOrder(entries, SECTIONS);
  }

  lemma {:induction false} FoundIsDumpable(entries: seq<Entry>, key: string)
    requires (forall i :: 0 <= i < |entries| ==> Dumpable(entries[i].value)) && Find(entries, key).Some?
    ensures Dumpable(Find(entries, key).value)
    decreases |entries|
  {
    hide Dumpable;
    if entries[0].key != key { FoundIsDumpable(entries[1..], key); }
  }

  lemma {:induction false} DumpableInOrder(entries: seq<Entry>, order: seq<string>)
    requires forall i :: 0 <= i < |entries| ==> Dumpable(entries[i].value)
    ensures forall i :: 0 <= i < |InOrder(entries, order)| ==> Dumpable(InOrder(entries, order)[i].value)
    decreases |order|
  {
    hide Dumpable;
    if order != [] {
      DumpableInOrder(entries, order[1..]);
      if Find(entries, order[0]).Some? { FoundIsDumpable(entries, order[0]); }
    }
  }

  lemma {:induction false} DumpableReordered(entries: seq<Entry>)
    requires forall i :: 0 <= i < |entries| ==> Dumpable(entries[i].value)
    ensures forall i :: 0 <= i < |Reordered(entries)| ==> Dumpable(Reordered(entries)[i].value)
    ensures forall i :: 0 <= i < |InOrder(entries, SECTIONS)| ==> Dumpable(InOrder(entries, SECTIONS)[i].value)
    ensures forall i :: 0 <= i < |Others(entries)| ==> Dumpable(Others(entries)[i].value)
  {
    hide Dumpable, InOrder, Others;
    OthersAreEntries(entries);
    DumpableInOrder(entries, SECTIONS);
  }

  lemma {:induction false} LinesConcat(a: seq<Entry>, b: seq<Entry>, n: nat)
    requires forall i :: 0 <= i < |a| ==> Dumpable(a[i].value)
    requires forall i :: 0 <= i < |b| ==> Dumpable(b[i].value)
    ensures EntriesLines(a + b, n) == EntriesLines(a, n) + EntriesLines(b, n)
    decreases |a|
  {
    hide Dumpable, EntryLines;
    if a == [] {
      assert a + b == b;
    } else {
      assert (a + b)[1..] == a[1..] + b;
      LinesConcat(a[1..], b, n);
    }
  }

  lemma {:induction false} SectionsPrintInOrder(entries: seq<Entry>, order: seq<string>)
    requires forall i :: 0 <= i < |entries| ==> Dumpable(entries[i].value)
    requires SectionLines(entries, order).Ok?
    ensures forall i :: 0 <= i < |InOrder(entries, order)| ==> Dumpable(InOrder(entries, order)[i].value)
    ensures SectionLines(entries, order).value == EntriesLines(InOrder(entries, order), 0)
    decreases |order|
  {
    hide Dumpable;
    DumpableInOrder(entries, order);
    if order != [] {
      SectionsPrintInOrder(entries, order[1..]);
      var rest := InOrder(entries, order[1..]);
      match Find(entries, order[0])
      case None => assert InOrder(entries, order) == rest;
      case Some(v) =>
        FoundIsDumpable(entries, order[0]);
        assert InOrder(entries, order)[1..] == rest;
        SectionPrints(order[0], v);
    }
  }

  lemma {:induction false} SectionPrints(key: string, v: Value)
    requires v.Dict? && Dumpable(v)
    ensures EntryLines(key, v, 0) == [key + ":"] + EntriesLines(v.entries, 2)
  {
    assert Spaces(0) + key + ":" == key + ":";
  }

  lemma {:induction false} DumpPrintsReordered(entries: seq<Entry>)
    requires (forall i :: 0 <= i < |entries| ==> Dumpable(entries[i].value)) && DumpYaml(entries).Ok?
    ensures forall i :: 0 <= i < |Reordered(entries)| ==> Dumpable(Reordered(entries)[i].value)
    ensures DumpYaml(entries).value == EntriesLines(Reordered(entries), 0)
  {
    hide Dumpable, EntriesLines, InOrder, Others, SectionLines;
    DumpableReordered(entries);
    SectionsPrintInOrder(entries, SECTIONS);
    LinesConcat(InOrder(entries, SECTIONS), Others(entries), 0);
  }

  // ---- Parsing what was printed ----

  /** The parsed mapping: the printed order, with every string leaf in its escaped form. */
  lemma {:induction false} DumpThenParse(isFloat: string -> bool, entries: seq<Entry>)
    requires GoodEntries(entries) && forall i :: 0 <= i < |entries| ==> Dumpable(entries[i].value)
    requires DumpYaml(entries).Ok?
    ensures ParseFrom(isFloat, [ROOT], DumpYaml(entries).value) == Ok(Dict(EscapedEntries(Reordered(entries))))
  {
    hide Dumpable, EntriesLines, GoodEntries, Reordered, DumpYaml, EscapedEntries;
    DumpPrintsReordered(entries);
    GoodReordered(entries);
    var all := Reordered(entries);
    EntriesParse(isFloat, [], ROOT, 0, all, []);
    assert EntriesLines(all, 0) + [] == EntriesLines(all, 0) && [] + [ROOT] == [ROOT];
    assert [] + EscapedEntries(all) == EscapedEntries(all);
  }

  ghost predicate SameMapping(a: seq<Entry>, b: seq<Entry>) {
    forall key :: Find(a, key) == Find(b, key)
  }

  /** No string leaf has a double quote or a backslash. */
  predicate Clean(v: Value) {
    match v
    case Leaf(Str(s)) => '"' !in s && '\\' !in s
    case Leaf(_) => true
    case List(items) => forall i :: 0 <= i < |items| ==> Clean(items[i])
    case Dict(entries) => forall i :: 0 <= i < |entries| ==> Clean(entries[i].value)
  }

  lemma {:induction false} EscapeExactly(s: string)
    ensures |Escape(s)| >= |s|
    ensures Escape(s) == s <==> '"' !in s && '\\' !in s
    decreases |s|
  {
    if s != "" {
      EscapeExactly(s[1..]);
      assert s == [s[0]] + s[1..];
      if s[0] == '\\' || s[0] == '"' {
        assert |Escape(s)| > |s|;
      } else {
        assert Escape(s)[1..] == Escape(s[1..]);
      }
    }
  }

  lemma {:induction false} EscapedExactly(v: Value)
    ensures Escaped(v) == v <==> Clean(v)
    decreases v, 1
  {
    match v
    case Leaf(Str(s)) => EscapeExactly(s);
    case Leaf(_) =>
    case List(items) => ItemsExactly(items);
    case Dict(entries) => EntriesExactly(entries);
  }

  lemma {:induction false} ItemsExactly(items: seq<Value>)
    ensures EscapedItems(items) == items <==> forall i :: 0 <= i < |items| ==> Clean(items[i])
    decreases items, 0
  {
    hide Clean, Escaped;
    if items != [] {
      EscapedExactly(items[0]);
      ItemsExactly(items[1..]);
      assert items == [items[0]] + items[1..];
      assert EscapedItems(items)[0] == Escaped(items[0]) && EscapedItems(items)[1..] == EscapedItems(items[1..]);
    }
  }

  lemma {:induction false} EntriesExactly(entries: seq<Entry>)
    ensures EscapedEntries(entries) == entries <==> forall i :: 0 <= i < |entries| ==> Clean(entries[i].value)
    decreases entries, 0
  {
    hide Clean, Escaped;
    if entries != [] {
      assert entries[0].value < entries[0];
      EscapedExactly(entries[0].value);
      EntriesExactly(entries[1..]);
      assert entries == [entries[0]] + entries[1..];
      assert EscapedEntries(entries)[0] == Entry(entries[0].key, Escaped(entries[0].value));
      assert EscapedEntries(entries)[1..] == EscapedEntries(entries[1..]);
    }
  }

  lemma {:induction false} FindEscaped(entries: seq<Entry>, key: string)
    ensures Find(EscapedEntries(entries), key)
      == match Find(entries, key) case None => None case Some(v) => Some(Escaped(v))
    decreases |entries|
  {
    hide Escaped;
    if entries != [] {
      FindEscaped(entries[1..], key);
      assert EscapedEntries(entries)[1..] == EscapedEntries(entries[1..]);
    }
  }

  lemma {:induction false} FindMember(entries: seq<Entry>, i: nat)
    requires GoodEntries(entries) && i < |entries|
    ensures Find(entries, entries[i].key) == Some(entries[i].value)
    decreases i
  {
    if i > 0 {
      assert entries[1..][i - 1] == entries[i];
      FindMember(entries[1..], i - 1);
    }
  }

  /** A printed mapping reads back as the same mapping exactly when no string leaf has a double quote or a backslash. */
  lemma {:induction false} RoundTripExactly(isFloat: string -> bool, entries: seq<Entry>)
    requires GoodEntries(entries) && forall i :: 0 <= i < |entries| ==> Dumpable(entries[i].value)
    requires DumpYaml(entries).Ok?
    ensures var parsed := ParseFrom(isFloat, [ROOT], DumpYaml(entries).value);
      && parsed.Ok? && parsed.value.Dict?
      && (SameMapping(parsed.value.entries, entries) <==> forall i :: 0 <= i < |entries| ==> Clean(entries[i].value))
  {
    hide Dumpable, GoodEntries, Reordered, DumpYaml, EscapedEntries, Find, Clean, Escaped, ParseFrom;
    DumpThenParse(isFloat, entries);
    var parsed := EscapedEntries(Reordered(entries));
    forall key
      ensures Find(parsed, key) == match Find(entries, key) case None => None case Some(v) => Some(Escaped(v))
    {
      ReorderedIsSameMapping(entries, key);
      FindEscaped(Reordered(entries), key);
    }
    forall i | 0 <= i < |entries|
      ensures Find(parsed, entries[i].key) == Find(entries, entries[i].key) <==> Clean(entries[i].value)
    {
      FindMember(entries, i);
      EscapedExactly(entries[i].value);
    }
    forall key | Find(entries, key).Some?
      ensures exists i :: 0 <= i < |entries| && entries[i] == Entry(key, Find(entries, key).value) {
      FindIsEntry(entries, key);
    }
  }

  // ---- The file as text ----

  /** str.splitlines boundaries */
  predicate IsBreak(c: char) {
    '\n' <= c <= '\r' || '\U{1C}' <= c <= '\U{1E}' || c == '\U{0085}' || c == '\U{2028}' || c == '\U{2029}'
  }

  function SplitLines(text: string): seq<string>
    decreases |text|
  {
    if text == "" then []
    else
      var i := FirstIndex(text, IsBreak);
      if i == |text| then [text]
      else
        var next := if text[i] == '\r' && i + 1 < |text| && text[i + 1] == '\n' then i + 2 else i + 1;
        [text[..i]] + SplitLines(text[next..])
  }

  /** The lines joined by newlines, with a newline at the end. */
  function FileText(lines: seq<string>): string {
    if lines == [] then "\n" else if |lines| == 1 then lines[0] + "\n" else lines[0] + "\n" + FileText(lines[1..])
  }

  predicate OneLine(s: string) { forall i :: 0 <= i < |s| ==> !IsBreak(s[i]) }

  lemma {:induction false} SplitFirst(line: string, rest: string)
    requires OneLine(line)
    ensures SplitLines(line + "\n" + rest) == [line] + SplitLines(rest)
  {
    var text := line + "\n" + rest;
    assert text[|line|] == '\n';
    var i := FirstIndex(text, IsBreak);
    assert forall k :: 0 <= k < |line| ==> text[k] == line[k];
    assert i == |line|;
    assert text[..i] == line && text[i + 1..] == rest;
  }

  /** Reading the written file gives its lines back, if none of them contains a line boundary. */
  lemma {:induction false} FileKeepsLines(lines: seq<string>)
    requires lines != [] && forall k :: 0 <= k < |lines| ==> OneLine(lines[k])
    ensures SplitLines(FileText(lines)) == lines
    decreases |lines|
  {
    hide SplitLines, OneLine;
    if |lines| == 1 {
      SplitFirst(lines[0], "");
      assert lines[0] + "\n" + "" == lines[0] + "\n";
      SplitNothing();
    } else {
      SplitFirst(lines[0], FileText(lines[1..]));
      FileKeepsLines(lines[1..]);
    }
  }

  lemma SplitNothing()
    ensures SplitLines("") == []
  {
  }

  /** No key and no string contains a line boundary. */
  predicate Unbroken(v: Value) {
    match v
    case Leaf(Str(s)) => OneLine(s)
    case Leaf(_) => true
    case List(items) => forall i :: 0 <= i < |items| ==> Unbroken(items[i])
    case Dict(entries) => forall i :: 0 <= i < |entries| ==> OneLine(entries[i].key) && Unbroken(entries[i].value)
  }

  lemma OneLineConcat(a: string, b: string)
    requires OneLine(a) && OneLine(b)
    ensures OneLine(a + b)
  {
  }

  lemma {:induction false} EscapeStaysOneLine(s: string)
    requires OneLine(s)
    ensures OneLine(Escape(s))
    decreases |s|
  {
    if s != "" {
      assert forall i :: 0 <= i < |s[1..]| ==> s[1..][i] == s[i + 1];
      EscapeStaysOneLine(s[1..]);
    }
  }

  lemma {:induction false} ScalarIsOneLine(v: Value)
    requires Printable(v) && Unbroken(v)
    ensures OneLine(FormatScalar(v))
  {
    match v.scalar
    case Str(s) => EscapeStaysOneLine(s);
    case Int(n) => DigitsText(if n < 0 then -n else n);
    case Boolean(_) =>
  }

  ghost predicate AllOneLine(lines: seq<string>) { forall k :: 0 <= k < |lines| ==> OneLine(lines[k]) }

  lemma {:induction false} ItemsAreOneLine(items: seq<Value>, n: nat)
    requires forall i :: 0 <= i < |items| ==> Printable(items[i]) && Unbroken(items[i])
    ensures AllOneLine(ItemLines(items, n))
    decreases |items|
  {
    hide OneLine, FormatScalar, Unbroken;
    if items != [] {
      ItemsAreOneLine(items[1..], n);
      ScalarIsOneLine(items[0]);
      PunctuationIsOneLine(n + 2);
      OneLineConcat(Spaces(n + 2), "- ");
      OneLineConcat(Spaces(n + 2) + "- ", FormatScalar(items[0]));
    }
  }

  lemma PunctuationIsOneLine(n: nat)
    ensures OneLine(Spaces(n)) && OneLine("- ") && OneLine(":") && OneLine(": ") && OneLine(": []")
  {
  }

  lemma {:induction false} EntryIsOneLine(key: string, v: Value, n: nat)
    requires Dumpable(v) && Unbroken(v) && OneLine(key)
    ensures AllOneLine(EntryLines(key, v, n))
    decreases v, 1
  {
    hide OneLine, FormatScalar, ItemLines, EntriesLines;
    PunctuationIsOneLine(n);
    OneLineConcat(Spaces(n), key);
    var head := Spaces(n) + key;
    OneLineConcat(head, ":");
    match v
    case Dict(entries) => EntriesAreOneLine(entries, n + 2);
    case List(items) =>
      OneLineConcat(head, ": []");
      ItemsAreOneLine(items, n);
    case Leaf(_) =>
      ScalarIsOneLine(v);
      OneLineConcat(head, ": ");
      OneLineConcat(head + ": ", FormatScalar(v));
  }

  lemma {:induction false} EntriesAreOneLine(entries: seq<Entry>, n: nat)
    requires forall i :: 0 <= i < |entries| ==>
      Dumpable(entries[i].value) && Unbroken(entries[i].value) && OneLine(entries[i].key)
    ensures AllOneLine(EntriesLines(entries, n))
    decreases entries, 0
  {
    hide OneLine, Dumpable, Unbroken, EntryLines;
    if entries != [] {
      assert entries[0].value < entries[0];
      EntryIsOneLine(entries[0].key, entries[0].value, n);
      EntriesAreOneLine(entries[1..], n);
    }
  }

  lemma {:induction false} InOrderUnbroken(entries: seq<Entry>, order: seq<string>)
    requires forall i :: 0 <= i < |entries| ==> Unbroken(entries[i].value) && OneLine(entries[i].key)
    ensures forall i :: 0 <= i < |InOrder(entries, order)| ==>
      Unbroken(InOrder(entries, order)[i].value) && OneLine(InOrder(entries, order)[i].key)
    decreases |order|
  {
    hide Unbroken, OneLine;
    if order != [] {
      InOrderUnbroken(entries, order[1..]);
      FindIsEntry(entries, order[0]);
    }
  }

  /** What the written file reads back as, from text to mapping. */
  lemma {:induction false} FileRoundTrip(isFloat: string -> bool, entries: seq<Entry>)
    requires GoodEntries(entries) && forall i :: 0 <= i < |entries| ==> Dumpable(entries[i].value)
    requires forall i :: 0 <= i < |entries| ==> Unbroken(entries[i].value) && OneLine(entries[i].key)
    requires DumpYaml(entries).Ok?
    ensures ParseFrom(isFloat, [ROOT], SplitLines(FileText(DumpYaml(entries).value)))
      == Ok(Dict(EscapedEntries(Reordered(entries))))
  {
    hide Dumpable, Unbroken, OneLine, GoodEntries, DumpYaml, EscapedEntries, EntriesLines, SplitLines, FileText,
      InOrder, Others;
    DumpThenParse(isFloat, entries);
    DumpPrintsReordered(entries);
    OthersAreEntries(entries);
    InOrderUnbroken(entries, SECTIONS);
    EntriesAreOneLine(Reordered(entries), 0);
    var lines := DumpYaml(entries).value;
    if lines == [] {
      EmptyFile(isFloat);
    } else {
      FileKeepsLines(lines);
    }
  }

  lemma {:induction false} EmptyFile(isFloat: string -> bool)
    ensures ParseFrom(isFloat, [ROOT], SplitLines(FileText([]))) == ParseFrom(isFloat, [ROOT], [])
  {
    SplitFirst("", "");
    assert "" + "\n" + "" == "\n";
    assert SplitLines("\n") == [""];
    assert Strip("") == "";
    assert ParseLine(isFloat, [ROOT], "", []) == Ok([ROOT]);
  }
}
