/** The console log writer of the terminal interface (cmd/upbrr/tui_bridge.go); a character stands for one byte. */
module LogWriter {
  import opened Text

  const LINE_LIMIT: nat := 4096
  const OVERSIZED := "[oversized diagnostic omitted]"

  predicate EndsLine(c: char) { c == '\n' || c == '\r' }

  /** The length of the first line of `s`, or of all of it. */
  function LineEnd(s: string): (i: nat)
    ensures i <= |s|
  {
    FirstIndex(s, EndsLine)
  }

  /** What the writer has handed on and what it holds back. */
  datatype State = State(appended: seq<string>, fragment: string, oversized: bool)

  /** One chunk, as `Write` goes through it. */
  function Written(s: State, data: string): State
    decreases |data|
  {
    if data == "" then s
    else
      var index := LineEnd(data);
      var held := Held(s, data[..index]);
      if index == |data| then held
      else Written(State(held.appended + [held.fragment], "", false), data[index + 1..])
  }

  /** `part` added to the held fragment, unless the line is or becomes too long. */
  function Held(s: State, part: string): State {
    if s.oversized then s
    else if |part| > LINE_LIMIT - |s.fragment| then State(s.appended, OVERSIZED, true)
    else s.(fragment := s.fragment + part)
  }

  class Writer {
    var appended: seq<string>
    var fragment: string
    var oversized: bool

    constructor ()
      ensures appended == [] && fragment == "" && !oversized
    {
      appended, fragment, oversized := [], "", false;
    }

    method Write(chunk: string) returns (count: nat)
      modifies this
      ensures State(appended, fragment, oversized) == Written(old(State(appended, fragment, oversized)), chunk)
      ensures count == |chunk|
    {
      var data := chunk;
      while data != ""
        invariant Written(State(appended, fragment, oversized), data)
          == Written(old(State(appended, fragment, oversized)), chunk)
        decreases |data|
      {
        var index := LineEnd(data);
        var part := data[..index];
        if !oversized {
          if |part| > LINE_LIMIT - |fragment| {
            fragment := OVERSIZED;
            oversized := true;
          } else {
            fragment := fragment + part;
          }
        }
        if index == |data| {
          data := "";
          break;
        }
        appended := appended + [fragment];
        fragment, oversized := "", false;
        data := data[index + 1..];
      }
      return |chunk|;
    }
  }

  // ---- What a whole stream amounts to ----

  /** The finished lines of a stream. */
  function Lines(stream: string): seq<string>
    decreases |stream|
  {
    var index := LineEnd(stream);
    if index == |stream| then [] else [stream[..index]] + Lines(stream[index + 1..])
  }

  /** The unfinished line at the end of a stream. */
  function Unfinished(stream: string): string
    decreases |stream|
  {
    var index := LineEnd(stream);
    if index == |stream| then stream else Unfinished(stream[index + 1..])
  }

  /** A line is replaced exactly when its whole length exceeds the limit. */
  function Shown(line: string): string { if |line| > LINE_LIMIT then OVERSIZED else line }

  function ShownAll(lines: seq<string>): seq<string> { seq(|lines|, i requires 0 <= i < |lines| => Shown(lines[i])) }

  function After(stream: string): State {
    State(ShownAll(Lines(stream)), Shown(Unfinished(stream)), |Unfinished(stream)| > LINE_LIMIT)
  }

  lemma {:induction false} FirstIndexOfUnbroken(a: string, b: string)
    requires forall i :: 0 <= i < |a| ==> !EndsLine(a[i])
    ensures FirstIndex(a + b, EndsLine) == |a| + FirstIndex(b, EndsLine)
  {
    if a == "" {
      assert a + b == b;
    } else {
      assert (a + b)[1..] == a[1..] + b;
      FirstIndexOfUnbroken(a[1..], b);
    }
  }

  lemma {:induction false} UnfinishedIsUnbroken(stream: string)
    ensures forall i :: 0 <= i < |Unfinished(stream)| ==> !EndsLine(Unfinished(stream)[i])
    decreases |stream|
  {
    var index := LineEnd(stream);
    if index < |stream| { UnfinishedIsUnbroken(stream[index + 1..]); }
  }

  /** The first line of a stream, its end and the rest. */
  lemma {:induction false} FirstLine(a: string, b: string)
    requires LineEnd(a) < |a|
    ensures LineEnd(a + b) == LineEnd(a)
    ensures (a + b)[..LineEnd(a)] == a[..LineEnd(a)] && (a + b)[LineEnd(a) + 1..] == a[LineEnd(a) + 1..] + b
  {
    var i := LineEnd(a);
    var rest := [a[i]] + (a[i + 1..] + b);
    assert a[..i] + rest == a + b;
    assert FirstIndex(rest, EndsLine) == 0;
    FirstIndexOfUnbroken(a[..i], rest);
  }

  lemma {:induction false} LinesOfFirst(a: string)
    ensures LineEnd(a) == |a| ==> Lines(a) == [] && Unfinished(a) == a
    ensures LineEnd(a) < |a| ==> Lines(a) == [a[..LineEnd(a)]] + Lines(a[LineEnd(a) + 1..])
    ensures LineEnd(a) < |a| ==> Unfinished(a) == Unfinished(a[LineEnd(a) + 1..])
  {
    hide LineEnd;
  }

  /** Going on with a stream only extends its unfinished line. */
  lemma {:induction false} LinesConcat(a: string, b: string)
    ensures Lines(a + b) == Lines(a) + Lines(Unfinished(a) + b)
    ensures Unfinished(a + b) == Unfinished(Unfinished(a) + b)
    decreases |a|
  {
    hide Lines, Unfinished, LineEnd;
    var i := LineEnd(a);
    LinesOfFirst(a);
    if i == |a| {
      assert [] + Lines(a + b) == Lines(a + b);
    } else {
      LinesConcat(a[i + 1..], b);
      FirstLine(a, b);
      LinesOfFirst(a + b);
      assert [a[..i]] + (Lines(a[i + 1..]) + Lines(Unfinished(a) + b)) == Lines(a) + Lines(Unfinished(a) + b);
    }
  }

  lemma ShownConcat(a: seq<string>, b: seq<string>)
    ensures ShownAll(a + b) == ShownAll(a) + ShownAll(b)
  {
  }

  lemma {:induction false} WrittenContinues(stream: string, data: string)
    ensures Written(After(stream), data) == After(stream + data)
    decreases |data|
  {
    hide Lines, Unfinished, ShownAll, Shown;
    if data == "" {
      assert stream + data == stream;
    } else {
      var index := LineEnd(data);
      var part := data[..index];
      HeldContinues(stream, part);
      if index == |data| {
        assert part == data;
      } else {
        LineEnds(stream + part, data[index]);
        var next := stream + part + [data[index]];
        WrittenContinues(next, data[index + 1..]);
        assert next + data[index + 1..] == stream + data;
      }
    }
  }

  lemma {:induction false} HeldContinues(stream: string, part: string)
    requires forall i :: 0 <= i < |part| ==> !EndsLine(part[i])
    ensures Held(After(stream), part) == After(stream + part)
  {
    var line := Unfinished(stream);
    UnfinishedIsUnbroken(stream);
    LinesConcat(stream, part);
    var all := line + part;
    assert all + "" == all;
    FirstIndexOfUnbroken(all, "");
    assert Lines(all) == [] && Unfinished(all) == all;
    assert Lines(stream) + [] == Lines(stream);
  }

  lemma {:induction false} LineEnds(stream: string, c: char)
    requires EndsLine(c)
    ensures After(stream + [c]) == State(After(stream).appended + [After(stream).fragment], "", false)
  {
    var line := Unfinished(stream);
    UnfinishedIsUnbroken(stream);
    LinesConcat(stream, [c]);
    FirstIndexOfUnbroken(line, [c]);
    assert (line + [c])[..|line|] == line && (line + [c])[|line| + 1..] == "";
    assert Lines("") == [] && Unfinished("") == "";
    assert Lines(line + [c]) == [line] && Unfinished(line + [c]) == "";
    ShownConcat(Lines(stream), [line]);
    assert ShownAll([line]) == [Shown(line)];
  }

  function WriteAll(s: State, chunks: seq<string>): State
    decreases |chunks|
  {
    if chunks == [] then s else WriteAll(Written(s, chunks[0]), chunks[1..])
  }

  function Concat(chunks: seq<string>): string { if chunks == [] then "" else chunks[0] + Concat(chunks[1..]) }

  lemma {:induction false} WriteAllContinues(stream: string, chunks: seq<string>)
    ensures WriteAll(After(stream), chunks) == After(stream + Concat(chunks))
    decreases |chunks|
  {
    hide After, Written;
    if chunks == [] {
      assert stream + "" == stream;
    } else {
      WrittenContinues(stream, chunks[0]);
      WriteAllContinues(stream + chunks[0], chunks[1..]);
      assert stream + chunks[0] + Concat(chunks[1..]) == stream + Concat(chunks);
    }
  }

  /** However a stream is cut into chunks, the writer appends its lines, and holds back its unfinished line. */
  lemma {:induction false} ChunkingDoesNotMatter(chunks: seq<string>)
    ensures WriteAll(State([], "", false), chunks) == After(Concat(chunks))
  {
    assert "" + Concat(chunks) == Concat(chunks);
    assert After("") == State([], "", false);
    WriteAllContinues("", chunks);
  }

  /** Lines with the characters that end them. */
  function Ended(lines: seq<string>, ends: string): string
    requires |ends| == |lines|
  {
    if lines == [] then "" else lines[0] + [ends[0]] + Ended(lines[1..], ends[1..])
  }

  predicate Unbroken(line: string) { '\n' !in line && '\r' !in line }

  lemma {:induction false} FirstOfEnded(line: string, c: char, more: string)
    requires Unbroken(line) && EndsLine(c)
    ensures var s := line + [c] + more;
      LineEnd(s) == |line| && |line| < |s| && s[..|line|] == line && s[|line| + 1..] == more
  {
    assert forall i :: 0 <= i < |line| ==> line[i] in line;
    FirstIndexOfUnbroken(line, [c] + more);
    assert line + [c] + more == line + ([c] + more);
  }

  lemma {:induction false} NoneEnded(last: string)
    requires Unbroken(last)
    ensures LineEnd(last) == |last|
  {
    assert forall i :: 0 <= i < |last| ==> last[i] in last;
    FirstIndexOfUnbroken(last, "");
    assert last + "" == last;
  }

  lemma {:induction false} LinesOfEnded(lines: seq<string>, ends: string, last: string)
    requires |ends| == |lines| && (forall i :: 0 <= i < |ends| ==> ends[i] == '\n' || ends[i] == '\r')
    requires Unbroken(last) && forall i :: 0 <= i < |lines| ==> Unbroken(lines[i])
    ensures Lines(Ended(lines, ends) + last) == lines && Unfinished(Ended(lines, ends) + last) == last
    decreases |lines|
  {
    hide Lines, Unfinished, LineEnd, Unbroken;
    var stream := Ended(lines, ends) + last;
    LinesOfFirst(stream);
    if lines == [] {
      assert stream == last;
      NoneEnded(last);
    } else {
      var more := Ended(lines[1..], ends[1..]) + last;
      FirstOfEnded(lines[0], ends[0], more);
      assert stream == lines[0] + [ends[0]] + more;
      LinesOfEnded(lines[1..], ends[1..], last);
      assert lines == [lines[0]] + lines[1..];
    }
  }

  /**
   * What the console gets of a stream of lines, each ended by a line feed or a carriage return, in whatever chunks it
   * arrives: every finished line in order, whole or, if it is longer than 4096, as a placeholder.
   */
  lemma {:induction false} StreamIsLogged(lines: seq<string>, ends: string, last: string, chunks: seq<string>)
    requires |ends| == |lines| && (forall i :: 0 <= i < |ends| ==> ends[i] == '\n' || ends[i] == '\r')
    requires Unbroken(last) && forall i :: 0 <= i < |lines| ==> Unbroken(lines[i])
    requires Concat(chunks) == Ended(lines, ends) + last
    ensures var s := WriteAll(State([], "", false), chunks);
      && |s.appended| == |lines|
      && (forall i :: 0 <= i < |lines| ==>
            s.appended[i] == if |lines[i]| <= 4096 then lines[i] else "[oversized diagnostic omitted]")
      && s.fragment == (if |last| <= 4096 then last else "[oversized diagnostic omitted]")
  {
    ChunkingDoesNotMatter(chunks);
    LinesOfEnded(lines, ends, last);
  }
}
