/**
 * The converted configuration as a file (scripts/convert_ua_config.py): which mappings come back when it is read.
 */
module YamlFile {
  import opened Text
  import opened YamlConfig
  import opened YamlRoundTrip
  import opened YamlConversion

  // ---- What is read from lines has no line boundaries ----

  lemma {:induction false} LinesAreOneLine(text: string)
    ensures AllOneLine(SplitLines(text))
    decreases |text|
  {
    if text != "" {
      var i := FirstIndex(text, IsBreak);
      if i < |text| {
        LinesAreOneLine(text[if text[i] == '\r' && i + 1 < |text| && text[i + 1] == '\n' then i + 2 else i + 1..]);
      }
    }
  }

  lemma PartIsOneLine(s: string, i: nat, j: nat)
    requires OneLine(s) && i <= j <= |s|
    ensures OneLine(s[i..j]) && OneLine(s[i..])
  {
  }

  lemma {:induction false} RStripIsOneLine(s: string)
    requires OneLine(s)
    ensures OneLine(RStrip(s))
    decreases |s|
  {
    hide IsPythonSpace, OneLine;
    if s != "" && IsPythonSpace(s[|s| - 1]) {
      PartIsOneLine(s, 0, |s| - 1);
      RStripIsOneLine(s[..|s| - 1]);
    }
  }

  lemma {:induction false} LStripIsOneLine(s: string)
    requires OneLine(s)
    ensures OneLine(LStrip(s)) && OneLine(Unindented(s))
    decreases |s|
  {
    hide IsPythonSpace, OneLine;
    if s != "" {
      PartIsOneLine(s, 1, |s|);
      LStripIsOneLine(s[1..]);
    }
  }

  lemma {:induction false} StripIsOneLine(s: string)
    requires OneLine(s)
    ensures OneLine(Strip(s))
  {
    hide OneLine, LStrip, RStrip;
    LStripIsOneLine(s);
    RStripIsOneLine(LStrip(s));
  }

  lemma {:induction false} ParsedIsUnbroken(isFloat: string -> bool, text: string)
    requires OneLine(text)
    ensures Unbroken(ParseScalar(isFloat, text))
  {
    hide Strip, Lower, IsDigits, NatOf;
    StripIsOneLine(text);
    var s := Strip(text);
    if |s| >= 2 { PartIsOneLine(s, 1, |s| - 1); }
  }

  ghost predicate EntriesUnbroken(entries: seq<Entry>) {
    forall i :: 0 <= i < |entries| ==> OneLine(entries[i].key) && Unbroken(entries[i].value)
  }

  lemma {:induction false} PutUnbroken(entries: seq<Entry>, key: string, v: Value)
    requires EntriesUnbroken(entries) && OneLine(key) && Unbroken(v)
    ensures EntriesUnbroken(Put(entries, key, v))
    decreases |entries|
  {
    hide OneLine, Unbroken;
    if entries != [] { PutUnbroken(entries[1..], key, v); }
  }

  ghost predicate FrameUnbroken(f: Frame) { OneLine(f.key) && Unbroken(f.node) }

  ghost predicate StackUnbroken(stack: seq<Frame>) {
    forall i :: 0 <= i < |stack| ==> FrameUnbroken(stack[i])
  }

  lemma {:induction false} PutInUnbroken(f: Frame, key: string, v: Value)
    requires f.node.Dict? && FrameUnbroken(f) && OneLine(key) && Unbroken(v)
    ensures FrameUnbroken(PutIn(f, key, v))
  {
    hide OneLine, Put;
    PutUnbroken(f.node.entries, key, v);
  }

  lemma {:induction false} CloseTopUnbroken(stack: seq<Frame>)
    requires ValidStack(stack) && |stack| > 1 && StackUnbroken(stack)
    ensures StackUnbroken(CloseTop(stack))
  {
    hide OneLine, Unbroken, PutIn;
    var top := Top(stack);
    assert FrameUnbroken(top);
    PutInUnbroken(Top(stack[..|stack| - 1]), top.key, top.node);
  }

  lemma {:induction false} CloseToUnbroken(stack: seq<Frame>, indent: int)
    requires ValidStack(stack) && StackUnbroken(stack)
    ensures StackUnbroken(CloseTo(stack, indent))
    decreases |stack|
  {
    hide CloseTop, FrameUnbroken;
    if |stack| > 1 && indent <= Top(stack).indent {
      CloseTopUnbroken(stack);
      CloseToUnbroken(CloseTop(stack), indent);
    }
  }

  lemma {:induction false} CloseAllUnbroken(stack: seq<Frame>)
    requires ValidStack(stack) && StackUnbroken(stack)
    ensures Unbroken(CloseAll(stack))
    decreases |stack|
  {
    hide CloseTop, OneLine, Unbroken;
    if |stack| > 1 {
      CloseTopUnbroken(stack);
      CloseAllUnbroken(CloseTop(stack));
    } else {
      assert FrameUnbroken(stack[0]);
    }
  }

  lemma {:induction false} AppendedUnbroken(f: Frame, v: Value)
    requires f.node.List? && FrameUnbroken(f) && Unbroken(v)
    ensures FrameUnbroken(f.(node := List(f.node.items + [v])))
  {
    hide OneLine;
  }

  lemma {:induction false} EmptyUnbroken(indent: int, key: string)
    requires OneLine(key)
    ensures FrameUnbroken(Frame(indent, key, List([]))) && FrameUnbroken(Frame(indent, key, Dict([])))
  {
    hide OneLine;
  }

  lemma {:induction false} LineUnbroken(isFloat: string -> bool, stack: seq<Frame>, raw: string, rest: seq<string>)
    requires ValidStack(stack) && StackUnbroken(stack) && OneLine(raw)
    ensures ParseLine(isFloat, stack, raw, rest).Ok? ==> StackUnbroken(ParseLine(isFloat, stack, raw, rest).value)
  {
    hide OneLine, Unbroken, CloseTo, Strip, RStrip, Unindented, Colon, OpensList, PutIn, ParseScalar, Indent, IsComment;
    var line := RStrip(raw);
    var s := Unindented(line);
    RStripIsOneLine(raw);
    LStripIsOneLine(line);
    CloseToUnbroken(stack, Indent(line));
    var open := CloseTo(stack, Indent(line));
    var top := Top(open);
    assert FrameUnbroken(top);
    if HasPrefix(s, "- ") {
      PartIsOneLine(s, 2, |s|);
      ParsedIsUnbroken(isFloat, s[2..]);
      if top.node.List? { AppendedUnbroken(top, ParseScalar(isFloat, s[2..])); }
    } else if Colon(s) < |s| && top.node.Dict? {
      var c := Colon(s);
      PartIsOneLine(s, 0, c);
      PartIsOneLine(s, c + 1, |s|);
      StripIsOneLine(s[..c]);
      StripIsOneLine(s[c + 1..]);
      var key, value := Strip(s[..c]), Strip(s[c + 1..]);
      EmptyUnbroken(Indent(line), key);
      PutInUnbroken(top, key, List([]));
      PutInUnbroken(top, key, Dict([]));
      ParsedIsUnbroken(isFloat, value);
      PutInUnbroken(top, key, ParseScalar(isFloat, value));
    }
  }

  /** Whatever lines are parsed, no key and no string of the result has a line boundary. */
  lemma {:induction false} ParseUnbroken(isFloat: string -> bool, stack: seq<Frame>, lines: seq<string>)
    requires ValidStack(stack) && StackUnbroken(stack) && AllOneLine(lines)
    ensures ParseFrom(isFloat, stack, lines).Ok? ==> Unbroken(ParseFrom(isFloat, stack, lines).value)
    decreases |lines|
  {
    hide OneLine, Unbroken, ParseLine, FrameUnbroken;
    if lines == [] {
      CloseAllUnbroken(stack);
    } else {
      LineUnbroken(isFloat, stack, lines[0], lines[1..]);
      var next := ParseLine(isFloat, stack, lines[0], lines[1..]);
      if next.Ok? { ParseUnbroken(isFloat, next.value, lines[1..]); }
    }
  }

  // ---- Which mappings come back ----

  lemma {:induction false} FoundIsUnbroken(entries: seq<Entry>, key: string)
    requires EntriesUnbroken(entries) && Find(entries, key).Some?
    ensures OneLine(key) && Unbroken(Find(entries, key).value)
  {
    hide OneLine, Unbroken;
    if entries[0].key != key { FoundIsUnbroken(entries[1..], key); }
  }

  /**
   * The written file reads back as the same mapping exactly when no string has a double quote, a backslash or a line
   * boundary, and no key a line boundary.
   */
  lemma {:induction false} FileRoundTripExactly(isFloat: string -> bool, entries: seq<Entry>)
    requires GoodEntries(entries) && forall i :: 0 <= i < |entries| ==> Dumpable(entries[i].value)
    requires DumpYaml(entries).Ok?
    ensures var parsed := ParseFrom(isFloat, [ROOT], SplitLines(FileText(DumpYaml(entries).value)));
      parsed.Ok? && parsed.value.Dict? && SameMapping(parsed.value.entries, entries)
      <==>
      forall i :: 0 <= i < |entries| ==>
        Clean(entries[i].value) && Unbroken(entries[i].value) && OneLine(entries[i].key)
  {
    hide Dumpable, GoodEntries, Reordered, DumpYaml, EscapedEntries, Find, Clean, Escaped, ParseFrom, SplitLines,
      FileText, OneLine, Unbroken;
    var text := FileText(DumpYaml(entries).value);
    var parsed := ParseFrom(isFloat, [ROOT], SplitLines(text));
    if parsed.Ok? && parsed.value.Dict? && SameMapping(parsed.value.entries, entries) {
      LinesAreOneLine(text);
      RootIsUnbroken();
      ParseUnbroken(isFloat, [ROOT], SplitLines(text));
      DictIsUnbroken(parsed.value);
      forall i | 0 <= i < |entries| ensures Unbroken(entries[i].value) && OneLine(entries[i].key) {
        FindMember(entries, i);
        FoundIsUnbroken(parsed.value.entries, entries[i].key);
      }
    }
    if forall i :: 0 <= i < |entries| ==> Unbroken(entries[i].value) && OneLine(entries[i].key) {
      FileRoundTrip(isFloat, entries);
      DumpThenParse(isFloat, entries);
      RoundTripExactly(isFloat, entries);
    }
  }

  lemma RootIsUnbroken()
    ensures ValidStack([ROOT]) && StackUnbroken([ROOT])
  {
  }

  lemma DictIsUnbroken(v: Value)
    requires v.Dict? && Unbroken(v)
    ensures EntriesUnbroken(v.entries)
  {
  }
}
