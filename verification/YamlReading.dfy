/** What the scalars, comments and blank lines of a hand-written file stand for (scripts/convert_ua_config.py). */
module YamlReading {
  import opened Text
  import opened YamlConfig

  /** The text is the decimal number `n`, with or without a minus sign. */
  ghost predicate Writes(s: string, n: int) {
    || (IsDigits(s) && n == NatOf(s))
    || (s != "" && s[0] == '-' && IsDigits(s[1..]) && n == 0 - NatOf(s[1..]))
  }

  /** The text is `inner` in quotes, which may be of either kind; a single quote character counts as an empty text. */
  ghost predicate Quotes(s: string, inner: string) {
    s == "\"" + inner + "\"" || s == "'" + inner + "'" || (inner == "" && s in ["\"", "'"])
  }

  predicate LooksFloating(s: string) { '.' in s || 'e' in s || 'E' in s }

  /** One of the texts with a meaning of its own: brackets, words, numbers and quoted texts. */
  ghost predicate Special(s: string) {
    || s in ["[]", "{}"] || Lower(s) in ["true", "false", "null", "none"]
    || (exists inner :: Quotes(s, inner)) || (exists n :: Writes(s, n))
  }

  lemma {:induction false} LowerStart(s: string)
    ensures |Lower(s)| == |s|
    ensures s != "" && !('A' <= s[0] <= 'Z') ==> Lower(s)[0] == s[0]
    decreases |s|
  {
    if s != "" { LowerStart(s[1..]); }
  }

  lemma {:induction false} WrappedExactly(s: string)
    requires s != ""
    ensures Wrapped(s, '"') || Wrapped(s, '\'') <==>
      exists inner :: Quotes(s, inner) && inner == if |s| < 2 then "" else s[1..|s| - 1]
    ensures forall inner :: Quotes(s, inner) ==> inner == if |s| < 2 then "" else s[1..|s| - 1]
  {
    var middle := if |s| < 2 then "" else s[1..|s| - 1];
    if Wrapped(s, '"') || Wrapped(s, '\'') {
      if |s| >= 2 {
        assert s == [s[0]] + middle + [s[|s| - 1]];
      } else {
        assert s == [s[0]];
      }
      assert Quotes(s, middle);
    }
    forall inner | Quotes(s, inner) ensures inner == middle && (Wrapped(s, '"') || Wrapped(s, '\'')) {
    }
  }

  lemma NothingIsAWord()
    ensures Lower("") == "" && (forall n :: !Writes("", n)) && forall inner :: !Quotes("", inner)
  {
  }

  /** No text is of two special kinds. */
  lemma {:induction false} KindsExclude(s: string)
    requires s != ""
    ensures s in ["[]", "{}"] ==> Lower(s) !in ["true", "false", "null", "none"] && (s == "[]" || s == "{}")
    ensures s in ["[]", "{}"] || Lower(s) in ["true", "false", "null", "none"] ==>
      !Wrapped(s, '"') && !Wrapped(s, '\'') && s[0] != '-' && !IsDigits(s)
    ensures Wrapped(s, '"') || Wrapped(s, '\'') ==> s[0] != '-' && !IsDigits(s)
    ensures s[0] == '-' ==> !IsDigits(s)
  {
    LowerStart(s);
    hide Lower;
    assert forall w :: w in ["true", "false", "null", "none"] ==> w[0] in "tfn";
  }

  /** The cases exclude each other and leave out nothing: which value a text stands for, surrounding space aside. */
  lemma {:induction false} ScalarExactly(isFloat: string -> bool, text: string)
    ensures var s, v := Strip(text), ParseScalar(isFloat, text);
      && (v == List([]) <==> s == "[]") && (v == Dict([]) <==> s == "{}")
      && (v == Leaf(Null) <==> Lower(s) in ["null", "none"])
      && (forall b :: v == Leaf(Boolean(b)) <==> Lower(s) == if b then "true" else "false")
      && (forall n :: v == Leaf(Int(n)) <==> Writes(s, n))
      && (forall x :: v == Leaf(Float(x)) <==> x == s && !Special(s) && LooksFloating(s) && isFloat(s))
      && (forall x :: v == Leaf(Str(x)) <==>
            Quotes(s, x) || (x == s && !Special(s) && !(LooksFloating(s) && isFloat(s))))
  {
    hide NatOf, Strip, Lower, IsDigits, Wrapped, Quotes;
    var s := Strip(text);
    NothingIsAWord();
    if s != "" {
      WrappedExactly(s);
      KindsExclude(s);
    }
  }

  // ---- Lines that say nothing ----

  /** Nothing but spaces, or a comment behind spaces. */
  ghost predicate SaysNothing(line: string) {
    exists n: nat :: n <= |line| && line[..n] == Spaces(n) && (n == |line| || line[n] == '#')
  }

  lemma {:induction false} SpacesAreStripped(n: nat)
    ensures LStrip(Spaces(n)) == "" && Unindented(Spaces(n)) == ""
  {
    if n > 0 {
      assert Spaces(n)[1..] == Spaces(n - 1);
      SpacesAreStripped(n - 1);
    }
  }

  lemma {:induction false} UnindentedComment(n: nat, text: string)
    ensures Unindented(Spaces(n) + "#" + text) == "#" + text
  {
    var s := Spaces(n) + "#" + text;
    if n == 0 {
      assert s == "#" + text;
    } else {
      assert s[0] == ' ' && s[1..] == Spaces(n - 1) + "#" + text;
      UnindentedComment(n - 1, text);
    }
  }

  /** Stripping the end of a line does not reach beyond a number sign. */
  lemma {:induction false} StrippedComment(front: string, text: string)
    ensures exists rest :: RStrip(front + "#" + text) == front + "#" + rest
    decreases |text|
  {
    var s := front + "#" + text;
    if text == "" {
      assert s[|s| - 1] == '#';
      assert RStrip(s) == front + "#" + "";
    } else if IsPythonSpace(s[|s| - 1]) {
      assert s[..|s| - 1] == front + "#" + text[..|text| - 1];
      StrippedComment(front, text[..|text| - 1]);
    }
  }

  lemma {:induction false} NothingIsParsed(isFloat: string -> bool, stack: seq<Frame>, line: string, rest: seq<string>)
    requires ValidStack(stack) && SaysNothing(line)
    ensures ParseLine(isFloat, stack, line, rest) == Ok(stack)
    ensures Unindented(line) == "" || IsComment(Unindented(line))
  {
    var n: nat :| n <= |line| && line[..n] == Spaces(n) && (n == |line| || line[n] == '#');
    SpacesAreStripped(n);
    if n == |line| {
      assert line == Spaces(n);
    } else {
      var text := line[n + 1..];
      assert line == Spaces(n) + "#" + text;
      UnindentedComment(n, text);
      StrippedComment(Spaces(n), text);
      var rest :| RStrip(line) == Spaces(n) + "#" + rest;
      UnindentedComment(n, rest);
    }
  }

  lemma {:induction false} NextAgrees(before: seq<string>, line: string, after: seq<string>)
    requires Unindented(line) == "" || IsComment(Unindented(line))
    ensures NextSignificant(before + [line] + after) == NextSignificant(before + after)
    decreases |before|
  {
    hide Unindented, IsComment, RStrip;
    var with := before + [line] + after;
    if before == [] {
      assert with[0] == line && with[1..] == after && before + after == after;
    } else {
      assert with[1..] == before[1..] + [line] + after && (before + after)[1..] == before[1..] + after;
      NextAgrees(before[1..], line, after);
    }
  }

  /** A line is parsed alike whenever the next significant line is the same. */
  lemma ParsesAlike(isFloat: string -> bool, stack: seq<Frame>, raw: string, rest: seq<string>, other: seq<string>)
    requires ValidStack(stack) && NextSignificant(rest) == NextSignificant(other)
    ensures ParseLine(isFloat, stack, raw, rest) == ParseLine(isFloat, stack, raw, other)
  {
    hide Strip, RStrip, Unindented, Colon, ParseScalar, Put, CloseTo, IsComment, Indent, NextSignificant;
  }

  /** Comments and lines of spaces can be added and removed anywhere, also between a key and its list. */
  lemma {:induction false} CommentsDoNotMatter(isFloat: string -> bool, stack: seq<Frame>, before: seq<string>,
          line: string, after: seq<string>)
    requires ValidStack(stack) && SaysNothing(line)
    ensures ParseFrom(isFloat, stack, before + [line] + after) == ParseFrom(isFloat, stack, before + after)
    decreases |before|
  {
    hide ParseLine, SaysNothing, NextSignificant, CloseAll, Unindented, IsComment;
    var with := before + [line] + after;
    if before == [] {
      NothingIsParsed(isFloat, stack, line, after);
      assert with[0] == line && with[1..] == after && before + after == after;
    } else {
      var without := before + after;
      assert with[1..] == before[1..] + [line] + after && without[1..] == before[1..] + after;
      NothingIsParsed(isFloat, stack, line, after);
      NextAgrees(before[1..], line, after);
      ParsesAlike(isFloat, stack, before[0], with[1..], without[1..]);
      var next := ParseLine(isFloat, stack, before[0], with[1..]);
      if next.Ok? { CommentsDoNotMatter(isFloat, next.value, before[1..], line, after); }
    }
  }

  const HEADER := "k:"
  const TAB := "\t"
  const ITEM := "  - x"

  lemma {:induction false} ExampleTexts()
    ensures RStrip(HEADER) == HEADER && Unindented(HEADER) == HEADER && Strip(HEADER) == HEADER && Colon(HEADER) == 1
    ensures RStrip(TAB) == "" && Strip(TAB) == "" && Unindented(TAB) == TAB && !IsComment(TAB)
    ensures RStrip(ITEM) == ITEM && Strip(ITEM) == "- x" && Unindented(ITEM) == "- x" && Strip("x") == "x"
    ensures Unindented("") == "" && Strip("k") == "k" && Strip("") == ""
  {
    assert ITEM[1..] == " - x" && ITEM[1..][1..] == "- x";
    assert Unindented("- x") == "- x" && Unindented(" - x") == "- x";
    assert LStrip("- x") == "- x" && LStrip(" - x") == "- x" && RStrip("- x") == "- x";
    assert TAB[1..] == "" && TAB[..0] == "";
  }

  /** A tab alone is not such a line: behind the key of a list it turns the list into an error. */
  lemma {:induction false} TabMatters(isFloat: string -> bool)
    ensures ParseFrom(isFloat, [ROOT], [HEADER, ITEM]) == Ok(Dict([Entry("k", List([Leaf(Str("x"))]))]))
    ensures ParseFrom(isFloat, [ROOT], [HEADER, TAB, ITEM]) == Err
  {
    ExampleTexts();
    ExampleItem(isFloat);
    hide Strip, RStrip, Unindented, Colon, ParseScalar, Put;
    assert [HEADER, ITEM][1..] == [ITEM] && [ITEM][1..] == [] && [TAB, ITEM][1..] == [ITEM];
    assert [HEADER, TAB, ITEM][1..] == [TAB, ITEM];
    assert NextSignificant([ITEM]) == Some(ITEM) && NextSignificant([TAB, ITEM]) == Some("");
    assert OpensList([ITEM], 0) && !OpensList([TAB, ITEM], 0);
    hide ParseLine, NextSignificant, CloseAll;
    HeaderOpens(isFloat, [ITEM]);
    HeaderOpens(isFloat, [TAB, ITEM]);
    ItemFollows(isFloat);
    ParseFromSteps(isFloat, [ROOT], [HEADER, ITEM]);
    ParseFromSteps(isFloat, AfterHeader(List([])), [ITEM]);
    ParseFromSteps(isFloat, [ROOT], [HEADER, TAB, ITEM]);
    ParseFromSteps(isFloat, AfterHeader(Dict([])), [TAB, ITEM]);
    ParseFromSteps(isFloat, AfterHeader(Dict([])), [ITEM]);
  }

  lemma ParseFromSteps(isFloat: string -> bool, stack: seq<Frame>, lines: seq<string>)
    requires ValidStack(stack) && lines != []
    ensures var next := ParseLine(isFloat, stack, lines[0], lines[1..]);
      ParseFrom(isFloat, stack, lines) == if next.Err? then Err else ParseFrom(isFloat, next.value, lines[1..])
    ensures ParseFrom(isFloat, stack, []) == Ok(CloseAll(stack))
  {
  }

  function AfterHeader(container: Value): seq<Frame> {
    [Frame(-1, "", Dict([Entry("k", container)])), Frame(0, "k", container)]
  }

  lemma {:induction false} ExampleItem(isFloat: string -> bool)
    ensures ParseScalar(isFloat, "x") == Leaf(Str("x"))
  {
    assert Lower("x") == "x";
  }

  lemma {:induction false} HeaderOpens(isFloat: string -> bool, rest: seq<string>)
    ensures ParseLine(isFloat, [ROOT], HEADER, rest)
      == Ok(AfterHeader(if OpensList(rest, 0) then List([]) else Dict([])))
  {
    ExampleTexts();
    hide Strip, RStrip, Unindented, Colon, ParseScalar, OpensList;
    assert HEADER[..1] == "k" && HEADER[2..] == "" && !HasPrefix(HEADER, "- ") && Indent(HEADER) == 0;
    var container := if OpensList(rest, 0) then List([]) else Dict([]);
    assert Put([], "k", container) == [Entry("k", container)];
    assert WithTop([ROOT], PutIn(ROOT, "k", container)) + [Frame(0, "k", container)] == AfterHeader(container);
  }

  lemma {:induction false} ItemFollows(isFloat: string -> bool)
    ensures ParseLine(isFloat, AfterHeader(List([])), ITEM, []).Ok?
    ensures CloseAll(ParseLine(isFloat, AfterHeader(List([])), ITEM, []).value)
      == Dict([Entry("k", List([Leaf(Str("x"))]))])
    ensures ParseLine(isFloat, AfterHeader(Dict([])), TAB, [ITEM]) == Ok(AfterHeader(Dict([])))
    ensures ParseLine(isFloat, AfterHeader(Dict([])), ITEM, []) == Err
  {
    ExampleTexts();
    ExampleItem(isFloat);
    hide Strip, RStrip, Unindented, Colon, ParseScalar;
    assert "- x"[2..] == "x" && Indent(ITEM) == 2;
    var items := List([Leaf(Str("x"))]);
    assert [] + [Leaf(Str("x"))] == [Leaf(Str("x"))];
    var stack := AfterHeader(List([]));
    assert WithTop(stack, Top(stack).(node := items)) == [stack[0], Frame(0, "k", items)];
    assert ParseLine(isFloat, stack, ITEM, []) == Ok([stack[0], Frame(0, "k", items)]);
    ItemCloses(items);
  }

  lemma {:induction false} ItemCloses(items: Value)
    ensures CloseAll([Frame(-1, "", Dict([Entry("k", List([]))])), Frame(0, "k", items)]) == Dict([Entry("k", items)])
  {
    var stack := [Frame(-1, "", Dict([Entry("k", List([]))])), Frame(0, "k", items)];
    assert stack[..1] == [stack[0]];
    var entries := [Entry("k", List([]))];
    assert Put(entries, "k", items) == [Entry("k", items)] + entries[1..] == [Entry("k", items)];
    assert PutIn(stack[0], "k", items) == Frame(-1, "", Dict([Entry("k", items)]));
    assert WithTop([stack[0]], PutIn(stack[0], "k", items)) == [PutIn(stack[0], "k", items)];
    assert CloseTop(stack) == [PutIn(stack[0], "k", items)];
  }
}
