/**
 * Arguments as editable text: the printer `joinCLIDraftTokens` (cmd/upbrr/tui_launcher.go) and the tokenizer
 * `splitInteractiveCLIArgs` (cmd/upbrr/cli_interaction_helpers.go).
 */
module ArgumentText {
  import opened Text

  predicate NeedsQuotes(t: string) {
    t == "" || exists c :: c in t && c in " \t\n\"'"
  }

  function Quoted(t: string): string {
    if !NeedsQuotes(t) then t
    else if '"' !in t then "\"" + t + "\""
    else "'" + t + "'"
  }

  /** strings.Join with a space */
  function SpaceJoined(parts: seq<string>): string {
    if parts == [] then "" else if |parts| == 1 then parts[0] else parts[0] + " " + SpaceJoined(parts[1..])
  }

  function QuotedAll(ts: seq<string>): seq<string> { seq(|ts|, i requires 0 <= i < |ts| => Quoted(ts[i])) }

  function Joined(ts: seq<string>): string { SpaceJoined(QuotedAll(ts)) }

  lemma {:induction false} JoinedCons(ts: seq<string>)
    requires |ts| > 1
    ensures Joined(ts) == Quoted(ts[0]) + (" " + Joined(ts[1..]))
  {
    assert QuotedAll(ts)[1..] == QuotedAll(ts[1..]);
  }

  /** joinCLIDraftTokens */
  method Join(tokens: seq<string>) returns (text: string)
    ensures text == Joined(tokens)
  {
    var quoted: seq<string> := [];
    for k := 0 to |tokens|
      invariant quoted == QuotedAll(tokens[..k])
    {
      var token := tokens[k];
      if NeedsQuotes(token) {
        if '"' !in token {
          token := "\"" + token + "\"";
        } else {
          token := "'" + token + "'";
        }
      }
      quoted := quoted + [token];
    }
    assert tokens[..|tokens|] == tokens;
    return SpaceJoined(quoted);
  }

  // ---- The tokenizer ----

  datatype Scan = Scan(args: seq<string>, current: string, quote: Option<char>, started: bool, boundary: bool)

  const CLEAN := Scan([], "", None, false, true)

  function Literal(s: Scan, c: char): Scan {
    s.(current := s.current + [c], started := true, boundary := c == '=')
  }

  function ScanChar(s: Scan, c: char): Scan {
    if s.quote.None? then
      if IsSpace(c) then
        Scan(if s.started then s.args + [s.current] else s.args, if s.started then "" else s.current, None, false, true)
      else if s.boundary && (c == '"' || c == '\'') then s.(quote := Some(c), started := true, boundary := false)
      else Literal(s, c)
    else if s.quote == Some(c) then s.(quote := None, boundary := false)
    else Literal(s, c)
  }

  function ScanText(s: Scan, text: string): Scan
    decreases |text|
  {
    if text == "" then s else ScanText(ScanChar(s, text[0]), text[1..])
  }

  function Completed(s: Scan): Result<seq<string>> {
    if s.quote.Some? then Err
    else Ok(if s.started then s.args + [s.current] else s.args)
  }

  function Tokens(text: string): Result<seq<string>> { Completed(ScanText(CLEAN, text)) }

  lemma {:induction false} ScanConcat(s: Scan, a: string, b: string)
    ensures ScanText(s, a + b) == ScanText(ScanText(s, a), b)
    decreases |a|
  {
    if a == "" {
      assert a + b == b;
    } else {
      assert (a + b)[1..] == a[1..] + b;
      ScanConcat(ScanChar(s, a[0]), a[1..], b);
    }
  }

  lemma {:induction false} ScanCons(s: Scan, c: char, rest: string)
    ensures ScanText(s, [c] + rest) == ScanText(ScanChar(s, c), rest)
  {
    assert ([c] + rest)[1..] == rest;
  }

  lemma ScanOne(s: Scan, c: char)
    ensures ScanText(s, [c]) == ScanChar(s, c)
  {
  }

  /** splitInteractiveCLIArgs */
  method Split(input: string) returns (result: Result<seq<string>>)
    ensures result == Tokens(input)
  {
    var args: seq<string>, current, quote, started, boundary := [], "", None, false, true;
    for k := 0 to |input|
      invariant Scan(args, current, quote, started, boundary) == ScanText(CLEAN, input[..k])
    {
      var c := input[k];
      ScanConcat(CLEAN, input[..k], [c]);
      assert input[..k + 1] == input[..k] + [c];
      if quote.None? {
        if IsSpace(c) {
          if started {
            args, current, started := args + [current], "", false;
          }
          boundary := true;
          continue;
        }
        if boundary && (c == '"' || c == '\'') {
          quote, started, boundary := Some(c), true, false;
          continue;
        }
      } else if quote.value == c {
        quote, boundary := None, false;
        continue;
      }
      current, started, boundary := current + [c], true, c == '=';
    }
    assert input[..|input|] == input;
    if quote.Some? { return Err; }
    return Ok(if started then args + [current] else args);
  }

  // ---- Which tokens survive printing and tokenizing ----

  /** `t` has no apostrophe before its trailing run of apostrophes. */
  predicate ApostrophesTrail(t: string) {
    forall i, j :: 0 <= i < j < |t| && t[i] == '\'' ==> t[j] == '\''
  }

  predicate Representable(t: string) {
    if NeedsQuotes(t) then '"' !in t || ApostrophesTrail(t)
    else forall c :: c in t ==> !IsSpace(c)
  }

  lemma {:induction false} ScanPlain(s: Scan, u: string)
    requires s.quote.None? && forall c :: c in u ==> !IsSpace(c) && c != '"' && c != '\''
    ensures var r := ScanText(s, u);
      r.args == s.args && r.current == s.current + u && r.quote.None? && (u != "" ==> r.started)
    decreases |u|
  {
    if u != "" { ScanPlain(ScanChar(s, u[0]), u[1..]); }
  }

  lemma {:induction false} ScanInside(s: Scan, q: char, u: string)
    requires s.quote == Some(q) && q !in u && s.started
    ensures var r := ScanText(s, u); r == s.(current := s.current + u, boundary := r.boundary)
    decreases |u|
  {
    if u != "" { ScanInside(ScanChar(s, u[0]), q, u[1..]); }
  }

  /** Apostrophes directly after a closing quote are literal. */
  lemma {:induction false} ScanTail(s: Scan, u: string)
    requires s.quote.None? && s.started && !s.boundary && forall i :: 0 <= i < |u| ==> u[i] == '\''
    ensures ScanText(s, u) == s.(current := s.current + u)
    decreases |u|
  {
    if u != "" { ScanTail(ScanChar(s, u[0]), u[1..]); }
  }

  /** The length of `t` up to its first apostrophe. */
  function BeforeApostrophe(t: string): (n: nat)
    ensures n <= |t| && (forall i :: 0 <= i < n ==> t[i] != '\'') && (n < |t| ==> t[n] == '\'')
  {
    if t == "" || t[0] == '\'' then 0 else 1 + BeforeApostrophe(t[1..])
  }

  lemma {:induction false} RunParts(t: string, n: nat, m: nat)
    requires n < m <= |t| && forall i :: n <= i < m ==> t[i] == '\''
    ensures "'" + t[..m] == ['\''] + (t[..n] + (['\''] + t[n + 1..m]))
    ensures t[..n] + t[n + 1..m] == t[..m - 1]
  {
    assert t[..m] == t[..n] + t[n..m] && t[n..m] == [t[n]] + t[n + 1..m];
  }

  lemma {:induction false} QuotedParts(t: string, m: nat)
    requires m < |t|
    ensures "'" + t + "'" == ("'" + t[..m]) + ([t[m]] + (t[m + 1..] + "'"))
  {
    assert t == t[..m] + ([t[m]] + t[m + 1..]);
  }

  /**
   * Scanning the printed form of a token with double quotes, up to the end of the run of apostrophes that closes it.
   */
  lemma {:induction false} ScanApostropheQuoted(args: seq<string>, t: string, m: nat)
    requires NeedsQuotes(t) && '"' in t
    requires BeforeApostrophe(t) < m <= |t| && forall i :: BeforeApostrophe(t) <= i < m ==> t[i] == '\''
    ensures var s := ScanText(CLEAN.(args := args), "'" + t[..m]);
      s == Scan(args, t[..m - 1], None, true, false)
  {
    hide NeedsQuotes, ScanText;
    var n := BeforeApostrophe(t);
    var start := CLEAN.(args := args);
    var body, tail := t[..n], t[n + 1..m];
    var entered := Scan(args, "", Some('\''), true, false);
    var inside := ScanText(entered, body);
    var closed := Scan(args, body, None, true, false);
    RunParts(t, n, m);
    ScanInside(entered, '\'', body);
    assert "" + body == body;
    assert ScanChar(inside, '\'') == closed;
    calc {
      ScanText(start, "'" + t[..m]);
      { ScanCons(start, '\'', body + (['\''] + tail)); }
      ScanText(entered, body + (['\''] + tail));
      { ScanConcat(entered, body, ['\''] + tail); }
      ScanText(inside, ['\''] + tail);
      { ScanCons(inside, '\'', tail); }
      ScanText(closed, tail);
      { ScanTail(closed, tail); }
      closed.(current := body + tail);
      Scan(args, t[..m - 1], None, true, false);
    }
  }

  lemma {:induction false} NoQuoteCharacters(t: string)
    requires !NeedsQuotes(t)
    ensures t != "" && forall c :: c in t ==> c != '"' && c != '\''
  {
    assert '"' in " \t\n\"'" && '\'' in " \t\n\"'";
  }

  lemma {:induction false} ScanToken(args: seq<string>, t: string)
    requires Representable(t)
    ensures var s := ScanText(CLEAN.(args := args), Quoted(t));
      s.args == args && s.current == t && s.quote.None? && s.started
  {
    hide ScanText, NeedsQuotes;
    var start := CLEAN.(args := args);
    if !NeedsQuotes(t) {
      NoQuoteCharacters(t);
      ScanPlain(start, t);
    } else if '"' !in t || BeforeApostrophe(t) == |t| {
      var q := if '"' in t then '\'' else '"';
      assert Quoted(t) == [q] + (t + [q]);
      ScanCons(start, q, t + [q]);
      ScanConcat(ScanChar(start, q), t, [q]);
      assert q !in t;
      ScanInside(ScanChar(start, q), q, t);
      ScanOne(ScanText(ScanChar(start, q), t), q);
      assert "" + t == t;
    } else {
      ScanApostropheQuoted(args, t, |t|);
      assert t[..|t|] == t && t == t[..|t| - 1] + ['\''];
      ScanConcat(start, "'" + t, "'");
      ScanTail(Scan(args, t[..|t| - 1], None, true, false), "'");
    }
  }

  lemma {:induction false} ScanJoined(args: seq<string>, ts: seq<string>)
    requires forall t :: t in ts ==> Representable(t)
    ensures Completed(ScanText(CLEAN.(args := args), Joined(ts))) == Ok(args + ts)
    decreases |ts|
  {
    if ts == [] {
      assert args + ts == args;
    } else {
      ScanToken(args, ts[0]);
      if |ts| == 1 {
        assert ts == [ts[0]];
      } else {
        var start := CLEAN.(args := args);
        var rest := Joined(ts[1..]);
        JoinedCons(ts);
        ScanConcat(start, Quoted(ts[0]), " " + rest);
        assert (" " + rest)[1..] == rest;
        ScanJoined(args + [ts[0]], ts[1..]);
        assert args + [ts[0]] + ts[1..] == args + ts;
      }
    }
  }

  /** Tokenizing what was printed gives the tokens back. */
  lemma {:induction false} JoinThenSplit(ts: seq<string>)
    requires forall t :: t in ts ==> Representable(t)
    ensures Tokens(Joined(ts)) == Ok(ts)
  {
    ScanJoined([], ts);
    assert [] + ts == ts;
    assert CLEAN.(args := []) == CLEAN;
  }

  // ---- And no other token survives ----

  /** The first token of a result is settled by what has been scanned so far. */
  lemma {:induction false} FirstTokenSettled(s: Scan, text: string)
    requires s.args != [] || s.started
    ensures var r := Completed(ScanText(s, text));
      r.Ok? ==> r.value != [] && (if s.args != [] then r.value[0] == s.args[0] else HasPrefix(r.value[0], s.current))
    decreases |text|
  {
    if text != "" { FirstTokenSettled(ScanChar(s, text[0]), text[1..]); }
  }

  /** Without quote characters every token is free of white space. */
  lemma {:induction false} UnquotedHasNoSpace(s: Scan, text: string)
    requires s.quote.None? && '"' !in text && '\'' !in text
    requires forall a, c :: a in s.args + [s.current] && c in a ==> !IsSpace(c)
    ensures var r := Completed(ScanText(s, text));
      r.Ok? && forall a, c :: a in r.value && c in a ==> !IsSpace(c)
    decreases |text|
  {
    if text != "" { UnquotedHasNoSpace(ScanChar(s, text[0]), text[1..]); }
  }

  lemma {:induction false} EndOfRun(t: string, n: nat) returns (m: nat)
    requires n < |t| && t[n] == '\'' && !(forall i :: n <= i < |t| ==> t[i] == '\'')
    ensures n < m < |t| && t[m] != '\'' && forall i :: n <= i < m ==> t[i] == '\''
  {
    m := n + 1;
    while t[m] == '\''
      invariant n < m < |t| && forall i :: n <= i < m ==> t[i] == '\''
      decreases |t| - m
    {
      m := m + 1;
    }
  }

  /** Where the token that was closed too early ends up: the character after the run of apostrophes settles it. */
  lemma {:induction false} ScanPastRun(t: string, m: nat)
    requires NeedsQuotes(t) && '"' in t && BeforeApostrophe(t) < m < |t|
    requires forall i :: BeforeApostrophe(t) <= i < m ==> t[i] == '\''
    ensures var r := Tokens(Quoted(t));
      r.Ok? ==>
        r.value != [] &&
        if IsSpace(t[m]) then r.value[0] == t[..m - 1] else HasPrefix(r.value[0], t[..m - 1] + [t[m]])
  {
    hide NeedsQuotes, ScanText, IsSpace, HasPrefix, Completed;
    var rest := t[m + 1..] + "'";
    var before := Scan([], t[..m - 1], None, true, false);
    ScanApostropheQuoted([], t, m);
    assert CLEAN.(args := []) == CLEAN;
    QuotedParts(t, m);
    ScanConcat(CLEAN, "'" + t[..m], [t[m]] + rest);
    ScanCons(before, t[m], rest);
    FirstTokenSettled(ScanChar(before, t[m]), rest);
  }

  lemma {:induction false} BrokenByApostrophe(t: string)
    requires NeedsQuotes(t) && '"' in t && !ApostrophesTrail(t)
    ensures Tokens(Quoted(t)) != Ok([t])
  {
    hide NeedsQuotes, Tokens, Quoted, IsSpace;
    var n := BeforeApostrophe(t);
    var i, j :| 0 <= i < j < |t| && t[i] == '\'' && t[j] != '\'';
    assert n <= i;
    var m := EndOfRun(t, n);
    ScanPastRun(t, m);
    assert !HasPrefix(t, t[..m - 1] + [t[m]]) by {
      assert (t[..m - 1] + [t[m]])[m - 1] == t[m] && t[..m][m - 1] == t[m - 1];
    }
  }

  /** Exactly which single tokens the editor text can carry. */
  lemma {:induction false} RepresentableExactly(t: string)
    ensures Tokens(Joined([t])) == Ok([t]) <==> Representable(t)
  {
    if Representable(t) {
      JoinThenSplit([t]);
    } else if NeedsQuotes(t) {
      BrokenByApostrophe(t);
    } else {
      UnquotedHasNoSpace(CLEAN, t);
    }
  }

  /** Tokens without both quote kinds and without white space beyond space, tab and newline are representable. */
  lemma OrdinaryTokensAreRepresentable(t: string)
    requires '"' !in t || '\'' !in t
    requires forall c :: c in t && IsSpace(c) ==> c in " \t\n"
    ensures Representable(t)
  {
  }

  /** A no-break space is neither quoted nor kept: the token comes back as two. */
  lemma {:induction false} NoBreakSpaceSplits()
    ensures Tokens(Joined(["a\U{00A0}b"])) != Ok(["a\U{00A0}b"])
  {
    var t := "a\U{00A0}b";
    assert t[1] in t && IsSpace(t[1]);
    RepresentableExactly(t);
  }
}
