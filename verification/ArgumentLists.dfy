/**
 * Which lists of tokens survive printing and tokenizing (cmd/upbrr/tui_launcher.go,
 * cmd/upbrr/cli_interaction_helpers.go).
 */
module ArgumentLists {
  import opened Text
  import opened ArgumentText

  /** The tokenizer between two tokens, with `args` found so far. */
  function Between(args: seq<string>): Scan { CLEAN.(args := args) }

  function Outcome(s: Scan, text: string): Text.Result<seq<string>> { Completed(ScanText(s, text)) }

  lemma {:induction false} OutcomeCons(s: Scan, c: char, rest: string)
    ensures Outcome(s, [c] + rest) == Outcome(ScanChar(s, c), rest)
  {
    ScanCons(s, c, rest);
  }

  /** What is scanned so far settles the tokens that are complete, and how the current one begins. */
  lemma {:induction false} Settled(s: Scan, text: string, j: nat)
    requires j < |s.args| || (j == |s.args| && s.started)
    ensures Outcome(s, text).Ok? ==> j < |Outcome(s, text).value|
    ensures Outcome(s, text).Ok? ==>
      if j < |s.args| then Outcome(s, text).value[j] == s.args[j] else HasPrefix(Outcome(s, text).value[j], s.current)
    decreases |text|
  {
    if text != "" { Settled(ScanChar(s, text[0]), text[1..], j); }
  }

  // ---- The shape of a token ----

  /** Up to the first '=', white space comes from one opening quoted part, which has no quote `q` inside. */
  predicate ShapedWith(t: string, q: char) {
    forall j :: 0 <= j < |t| && IsSpace(t[j]) && '=' !in t[..j] ==> q !in t[..j]
  }

  predicate Shaped(t: string) { ShapedWith(t, '"') || ShapedWith(t, '\'') }

  /** The current token is on its way to a shape. */
  predicate Shaping(s: Scan, q: char) {
    && s.started && ShapedWith(s.current, q)
    && ('=' in s.current || (s.quote == Some(q) && q !in s.current) || (s.quote.None? && !s.boundary))
  }

  lemma {:induction false} LongerShape(t: string, c: char, q: char)
    requires ShapedWith(t, q) && (IsSpace(c) && '=' !in t ==> q !in t)
    ensures ShapedWith(t + [c], q)
  {
    hide IsSpace;
    var u := t + [c];
    forall j | 0 <= j < |u| && IsSpace(u[j]) && '=' !in u[..j] ensures q !in u[..j] {
      assert u[..j] == t[..j];
      if j == |t| { assert t[..j] == t; }
    }
  }

  /** One character keeps the shape, or completes the token. */
  lemma {:induction false} ShapingStep(s: Scan, c: char, q: char)
    requires Shaping(s, q)
    ensures var n := ScanChar(s, c);
      if n.args == s.args then Shaping(n, q) else n == Between(s.args + [s.current]) && ShapedWith(s.current, q)
  {
    hide IsSpace, ShapedWith;
    LongerShapeIf(s.current, c, q);
  }

  lemma LongerShapeIf(t: string, c: char, q: char)
    ensures ShapedWith(t, q) && (IsSpace(c) && '=' !in t ==> q !in t) ==> ShapedWith(t + [c], q)
  {
    hide IsSpace, ShapedWith;
    if ShapedWith(t, q) && (IsSpace(c) && '=' !in t ==> q !in t) { LongerShape(t, c, q); }
  }

  /** A token that is on its way to a shape gets it. */
  lemma {:induction false} SettledShape(s: Scan, text: string, q: char)
    requires Shaping(s, q)
    ensures Outcome(s, text).Ok? ==>
      |s.args| < |Outcome(s, text).value| && ShapedWith(Outcome(s, text).value[|s.args|], q)
    decreases |text|
  {
    hide ShapedWith;
    if text != "" {
      var n := ScanChar(s, text[0]);
      ShapingStep(s, text[0], q);
      if n.args == s.args {
        SettledShape(n, text[1..], q);
      } else {
        Settled(n, text[1..], |s.args|);
      }
    }
  }

  /** Nothing has been scanned of a next token, or it is on its way to a shape. */
  predicate Sound(s: Scan) {
    && (forall a :: a in s.args ==> Shaped(a))
    && (if s.started then Shaping(s, '"') || Shaping(s, '\'') else s == Between(s.args))
  }

  lemma {:induction false} SoundStep(s: Scan, c: char)
    requires Sound(s)
    ensures Sound(ScanChar(s, c))
  {
    hide IsSpace, ShapedWith;
    var n := ScanChar(s, c);
    if s.started {
      if Shaping(s, '"') { ShapingStep(s, c, '"'); } else { ShapingStep(s, c, '\''); }
    } else if n.started {
      assert n.args == s.args;
      TokenStarts(s.args, c);
    }
  }

  /** The first character of a token puts it on its way to a shape. */
  lemma {:induction false} TokenStarts(args: seq<string>, c: char)
    requires !IsSpace(c)
    ensures var n := ScanChar(Between(args), c);
      && n.args == args && n.started && (c == '"' || c == '\'' ==> Shaping(n, c))
      && (c != '"' && c != '\'' ==> n.current == [c] && Shaping(n, '"'))
  {
    hide IsSpace;
    assert "" + [c] == [c];
  }

  /** Every token that the tokenizer ever produces has a shape. */
  lemma {:induction false} AllShaped(s: Scan, text: string)
    requires Sound(s)
    ensures Outcome(s, text).Ok? ==> forall a :: a in Outcome(s, text).value ==> Shaped(a)
    decreases |text|
  {
    hide ShapedWith;
    if text != "" {
      SoundStep(s, text[0]);
      AllShaped(ScanChar(s, text[0]), text[1..]);
    }
  }

  // ---- Tokens of unusual white space ----

  /** A token of white space that is printed without quotes. */
  predicate Blank(t: string) { t != "" && !NeedsQuotes(t) && forall c :: c in t ==> IsSpace(c) }

  lemma {:induction false} BlankLeavesNothing(args: seq<string>, t: string)
    requires forall c :: c in t ==> IsSpace(c)
    ensures ScanText(Between(args), t) == Between(args)
    decreases |t|
  {
    hide IsSpace;
    if t != "" { BlankLeavesNothing(args, t[1..]); }
  }

  lemma Differs(t: string, start: string, i: nat)
    requires i < |start| && (i < |t| ==> t[i] != start[i])
    ensures !HasPrefix(t, start)
  {
    if |start| <= |t| { assert t[..|start|][i] == t[i]; }
  }

  /** A token cannot start with white space outside quotes. */
  lemma {:induction false} StartsWithout(args: seq<string>, c: char, rest: string, first: string)
    requires !IsSpace(c) && c != '"' && c != '\'' && first != "" && IsSpace(first[0])
    ensures Outcome(Between(args), [c] + rest).Ok? ==>
      |args| < |Outcome(Between(args), [c] + rest).value| && Outcome(Between(args), [c] + rest).value[|args|] != first
  {
    hide IsSpace, ScanText, Completed;
    var n := ScanChar(Between(args), c);
    OutcomeCons(Between(args), c, rest);
    TokenStarts(args, c);
    Settled(n, rest, |args|);
    Differs(first, [c], 0);
  }

  // ---- A token that its own apostrophe cuts off after white space ----

  /**
   * `g` is printed in apostrophes, starts with `n` blank characters, then has an apostrophe and white space, and its
   * first double quote is at `k` or later.
   */
  predicate CutOff(g: string, n: nat, k: nat) {
    && 0 < n && n + 2 <= k < |g| && Blank(g[..n]) && g[n] == '\'' && IsSpace(g[n + 1])
    && '"' in g[k..] && '"' !in g[..k] && '=' !in g[..k]
  }

  lemma {:induction false} CutOffIsNotShapedWithApostrophe(g: string, n: nat, k: nat)
    requires CutOff(g, n, k)
    ensures !ShapedWith(g, '\'') && IsSpace(g[0])
  {
    hide IsSpace, NeedsQuotes;
    assert g[..n + 1][n] == '\'' && forall i :: 0 <= i < n + 1 ==> g[..n + 1][i] == g[..k][i];
    assert g[..n][0] == g[0];
  }

  /** White space directly after its first double quote would leave it no shape at all. */
  lemma {:induction false} CutOffTwice(g: string, n: nat, k: nat)
    requires CutOff(g, n, k) && g[k] == '"' && k + 1 < |g| && IsSpace(g[k + 1])
    ensures !Shaped(g)
  {
    hide IsSpace, Blank;
    CutOffIsNotShapedWithApostrophe(g, n, k);
    assert g[..k + 1] == g[..k] + ['"'];
    assert g[..k + 1][k] == '"';
  }

  lemma {:induction false} CutOffNext(g: string, n: nat, k: nat)
    requires CutOff(g, n, k) && g[k] != '"' && g[k] != '='
    ensures CutOff(g, n, k + 1)
  {
    hide IsSpace, Blank;
    assert g[k..] == [g[k]] + g[k + 1..] && g[..k + 1] == g[..k] + [g[k]];
  }

  /** The text that is still to be scanned of a printed list after the first `k` characters of `g`. */
  function Rest(g: string, k: nat, tail: string): string
    requires k <= |g|
  {
    g[k..] + "'" + tail
  }

  lemma {:induction false} RestCons(g: string, k: nat, tail: string)
    requires k < |g|
    ensures Rest(g, k, tail) == [g[k]] + Rest(g, k + 1, tail)
  {
    assert g[k..] == [g[k]] + g[k + 1..];
  }

  /** The token at `j` of an outcome, if there is an outcome, is not `first`. */
  predicate Misses(o: Text.Result<seq<string>>, j: nat, first: string) {
    o.Ok? ==> j < |o.value| && o.value[j] != first
  }

  /** A double quote right after the white space of a cut-off token starts a token of the wrong kind. */
  lemma {:induction false} AfterDoubleQuote(args: seq<string>, first: string, g: string, n: nat, k: nat, tail: string)
    requires CutOff(g, n, k) && g[k] == '"' && Shaped(g) && first != "" && IsSpace(first[0])
    ensures Misses(Outcome(Between(args), Rest(g, k, tail)), |args|, first)
  {
    hide IsSpace, Outcome, Misses, Shaped, CutOff, Rest;
    CutOffHasMore(g, n, k);
    RestCons(g, k, tail);
    OutcomeCons(Between(args), '"', Rest(g, k + 1, tail));
    assert ScanChar(Between(args), '"') == Scan(args, "", Some('"'), true, false) by { QuoteIsNoSpace(); }
    if k + 1 < |g| {
      if IsSpace(g[k + 1]) { CutOffTwice(g, n, k); }
      RestCons(g, k + 1, tail);
      if g[k + 1] == '"' { AfterEmptyQuotes(args, first, g, k + 2, tail); }
      InsideDoubleQuotes(args, first, g[k + 1], Rest(g, k + 2, tail));
    } else {
      assert Rest(g, k + 1, tail) == ['\''] + tail by { hide *; LastRest(g, tail); }
      QuoteIsNoSpace();
      InsideDoubleQuotes(args, first, '\'', tail);
    }
  }

  lemma LastRest(g: string, tail: string)
    ensures Rest(g, |g|, tail) == ['\''] + tail
  {
  }

  /** Inside a double quote that has just been opened, with a character that is no white space next. */
  lemma {:induction false} InsideDoubleQuotes(args: seq<string>, first: string, next: char, more: string)
    requires first != "" && IsSpace(first[0]) && !IsSpace(next)
    requires next == '"' ==> Misses(Outcome(Scan(args, "", None, true, false), more), |args|, first)
    ensures Misses(Outcome(Scan(args, "", Some('"'), true, false), [next] + more), |args|, first)
  {
    hide IsSpace, Outcome;
    var q := Scan(args, "", Some('"'), true, false);
    OutcomeCons(q, next, more);
    if next != '"' {
      assert "" + [next] == [next];
      Settled(ScanChar(q, next), more, |args|);
      Differs(first, [next], 0);
    }
  }

  lemma QuoteIsNoSpace()
    ensures !IsSpace('"') && !IsSpace('\'') && !IsSpace('=')
  {
  }

  /** Empty quotes: the token is empty or goes on with a character that is no white space. */
  lemma {:induction false} AfterEmptyQuotes(args: seq<string>, first: string, g: string, k: nat, tail: string)
    requires k <= |g| && first != "" && IsSpace(first[0])
    ensures Misses(Outcome(Scan(args, "", None, true, false), Rest(g, k, tail)), |args|, first)
  {
    hide IsSpace, ScanText, Completed;
    var s := Scan(args, "", None, true, false);
    var next, more := if k < |g| then g[k] else '\'', if k < |g| then Rest(g, k + 1, tail) else tail;
    assert Rest(g, k, tail) == [next] + more by {
      if k < |g| { RestCons(g, k, tail); } else { assert g[k..] == ""; }
    }
    OutcomeCons(s, next, more);
    var n := ScanChar(s, next);
    Settled(n, more, |args|);
    if IsSpace(next) {
      assert n.args == args + [""];
    } else {
      assert "" + [next] == [next];
      Differs(first, [next], 0);
    }
  }

  /** The first expected token starts with white space. */
  lemma {:induction false} FirstExpected(pending: seq<string>, g: string, n: nat, k: nat)
    requires CutOff(g, n, k) && forall b :: b in pending ==> Blank(b)
    ensures var first := (pending + [g])[0]; first != "" && IsSpace(first[0])
  {
    hide IsSpace, NeedsQuotes, ShapedWith;
    CutOffIsNotShapedWithApostrophe(g, n, k);
    if pending != [] { assert pending[0] in pending; }
  }

  lemma Missed(o: Text.Result<seq<string>>, args: seq<string>, pending: seq<string>, g: string, rest: seq<string>)
    requires Misses(o, |args|, (pending + [g])[0])
    ensures o != Ok(args + pending + [g] + rest)
  {
    assert (args + pending + [g] + rest)[|args|] == (pending + [g])[0];
  }

  /** Inside apostrophes only white space is scanned so far, and a blank token is expected. */
  lemma {:induction false} InsideApostrophes(args: seq<string>, current: string, boundary: bool, pending: seq<string>,
          g: string, n: nat, k: nat, tail: string, rest: seq<string>)
    requires CutOff(g, n, k) && Shaped(g) && pending != [] && (forall b :: b in pending ==> Blank(b))
    requires forall c :: c in current ==> IsSpace(c)
    ensures Outcome(Scan(args, current, Some('\''), true, boundary), Rest(g, k, tail))
      != Ok(args + pending + [g] + rest)
    decreases |g| - k
  {
    hide IsSpace, ScanText, Completed, Shaped, NeedsQuotes, CutOff;
    assert k < |g| by { CutOffHasMore(g, n, k); }
    var s, y := Scan(args, current, Some('\''), true, boundary), g[k];
    RestCons(g, k, tail);
    OutcomeCons(s, y, Rest(g, k + 1, tail));
    var first := pending[0];
    assert first in pending && Blank(first) && (pending + [g])[0] == first;
    if y == '\'' {
      CutOffNext(g, n, k);
      CutOffHasMore(g, n, k + 1);
      AfterApostrophes(args, current, pending, g, n, k + 1, tail, rest);
    } else if IsSpace(y) {
      assert y != '"' && y != '=' by { QuoteIsNoSpace(); }
      CutOffNext(g, n, k);
      InsideApostrophes(args, current + [y], false, pending, g, n, k + 1, tail, rest);
    } else {
      NoBlank(ScanChar(s, y), Rest(g, k + 1, tail), current, y, first);
      Missed(Outcome(s, Rest(g, k, tail)), args, pending, g, rest);
    }
  }

  lemma CutOffHasMore(g: string, n: nat, k: nat)
    requires CutOff(g, n, k)
    ensures k < |g|
  {
  }

  /** A token that has a character other than white space is not blank. */
  lemma {:induction false} NoBlank(s: Scan, text: string, before: string, c: char, first: string)
    requires s.started && s.current == before + [c] && !IsSpace(c) && Blank(first)
    ensures Misses(Outcome(s, text), |s.args|, first)
  {
    hide IsSpace, NeedsQuotes, ScanText, Completed;
    Settled(s, text, |s.args|);
    assert s.current[|before|] == c;
    if |before| < |first| { assert first[|before|] in first; }
    Differs(first, s.current, |before|);
  }

  /** Right after the apostrophes have been closed. */
  lemma {:induction false} AfterApostrophes(args: seq<string>, current: string, pending: seq<string>, g: string, n: nat,
          k: nat, tail: string, rest: seq<string>)
    requires CutOff(g, n, k) && Shaped(g) && pending != [] && (forall b :: b in pending ==> Blank(b))
    ensures Outcome(Scan(args, current, None, true, false), Rest(g, k, tail)) != Ok(args + pending + [g] + rest)
    decreases |g| - k
  {
    hide IsSpace, ScanText, Completed, Shaped, NeedsQuotes, CutOff;
    CutOffHasMore(g, n, k);
    var s, z := Scan(args, current, None, true, false), g[k];
    RestCons(g, k, tail);
    OutcomeCons(s, z, Rest(g, k + 1, tail));
    var first := pending[0];
    assert first in pending && Blank(first) && (pending + [g])[0] == first;
    if !IsSpace(z) {
      NoBlank(ScanChar(s, z), Rest(g, k + 1, tail), current, z, first);
      Missed(Outcome(s, Rest(g, k, tail)), args, pending, g, rest);
    } else if current != first {
      assert ScanChar(s, z) == Between(args + [current]);
      Settled(Between(args + [current]), Rest(g, k + 1, tail), |args|);
      Missed(Outcome(s, Rest(g, k, tail)), args, pending, g, rest);
    } else {
      assert ScanChar(s, z) == Between(args + [current]);
      assert z != '"' && z != '=' by { QuoteIsNoSpace(); }
      CutOffNext(g, n, k);
      CutOffFails(args + [current], pending[1..], g, n, k + 1, tail, rest);
      assert args + [current] + pending[1..] + [g] + rest == args + pending + [g] + rest;
    }
  }

  /**
   * After the white space that cut it off, what is left of `g` does not give the expected blank tokens and then `g`.
   */
  lemma {:induction false} CutOffFails(args: seq<string>, pending: seq<string>, g: string, n: nat, k: nat, tail: string,
          rest: seq<string>)
    requires CutOff(g, n, k) && Shaped(g) && (forall b :: b in pending ==> Blank(b))
    ensures Outcome(Between(args), Rest(g, k, tail)) != Ok(args + pending + [g] + rest)
    decreases |g| - k
  {
    hide IsSpace, ScanText, Completed, ShapedWith, NeedsQuotes, CutOff;
    CutOffHasMore(g, n, k);
    FirstExpected(pending, g, n, k);
    var first, c := (pending + [g])[0], g[k];
    RestCons(g, k, tail);
    OutcomeCons(Between(args), c, Rest(g, k + 1, tail));
    if IsSpace(c) {
      assert c != '"' && c != '=' by { QuoteIsNoSpace(); }
      CutOffNext(g, n, k);
      assert ScanChar(Between(args), c) == Between(args);
      CutOffFails(args, pending, g, n, k + 1, tail, rest);
    } else if c == '"' {
      AfterDoubleQuote(args, first, g, n, k, tail);
      Missed(Outcome(Between(args), Rest(g, k, tail)), args, pending, g, rest);
    } else if c == '\'' {
      var q := Scan(args, "", Some('\''), true, false);
      assert ScanChar(Between(args), c) == q;
      CutOffNext(g, n, k);
      if pending == [] {
        assert Shaping(q, '\'') by { TokenStarts(args, c); }
        SettledShape(q, Rest(g, k + 1, tail), '\'');
        CutOffIsNotShapedWithApostrophe(g, n, k);
        Missed(Outcome(Between(args), Rest(g, k, tail)), args, pending, g, rest);
      } else {
        InsideApostrophes(args, "", false, pending, g, n, k + 1, tail, rest);
      }
    } else {
      StartsWithout(args, c, Rest(g, k + 1, tail), first);
      Missed(Outcome(Between(args), Rest(g, k, tail)), args, pending, g, rest);
    }
  }

  // ---- The tokens of a printed list, one by one ----

  /** What follows a printed token in a printed list. */
  function Tail(ts: seq<string>): string { if ts == [] then "" else " " + Joined(ts) }

  lemma {:induction false} JoinedTail(ts: seq<string>)
    requires ts != []
    ensures Joined(ts) == Quoted(ts[0]) + Tail(ts[1..])
  {
    if |ts| > 1 { JoinedCons(ts); }
  }

  lemma JoinedNone()
    ensures Joined([]) == ""
  {
  }

  lemma {:induction false} OutcomeConcat(s: Scan, a: string, b: string)
    ensures Outcome(s, a + b) == Outcome(ScanText(s, a), b)
  {
    ScanConcat(s, a, b);
  }

  /** The tail completes a token, and the scan is between two tokens again. */
  lemma {:induction false} TailCompletes(s: Scan, ts: seq<string>)
    requires s.quote.None? && (s.started || s == Between(s.args))
    ensures Outcome(s, Tail(ts)) == Outcome(Between(if s.started then s.args + [s.current] else s.args), Joined(ts))
  {
    hide Joined;
    if ts != [] { OutcomeCons(s, ' ', Joined(ts)); }
    JoinedNone();
  }

  /** The blank tokens that are still expected, then `ts`. */
  predicate Fails(o: Text.Result<seq<string>>, args: seq<string>, pending: seq<string>, ts: seq<string>) {
    o != Ok(args + pending + ts)
  }

  lemma {:induction false} MissedFirst(o: Text.Result<seq<string>>, args: seq<string>, pending: seq<string>,
          ts: seq<string>)
    requires ts != [] && Misses(o, |args|, (pending + [ts[0]])[0])
    ensures Fails(o, args, pending, ts)
  {
    Missed(o, args, pending, ts[0], ts[1..]);
    assert args + pending + ts == args + pending + [ts[0]] + ts[1..];
  }

  lemma {:induction false} BlankIsNotRepresentable(t: string)
    requires Blank(t)
    ensures !Representable(t)
  {
    assert t[0] in t;
  }

  lemma BlankIsPrinted(t: string)
    requires Blank(t)
    ensures Quoted(t) == t && forall c :: c in t ==> IsSpace(c)
  {
  }

  /** Unquoted text that goes on with white space after other characters gives a shorter token. */
  lemma {:induction false} UnquotedIsCut(args: seq<string>, g: string, e: nat, tail: string)
    requires !NeedsQuotes(g) && 0 < e < |g| && IsSpace(g[e]) && forall i :: 0 <= i < e ==> !IsSpace(g[i])
    ensures Misses(Outcome(Between(args), g + tail), |args|, g)
  {
    hide IsSpace, ScanText, Completed, NeedsQuotes;
    NoQuoteCharacters(g);
    var u, more := g[..e], g[e + 1..] + tail;
    var s := ScanText(Between(args), u);
    assert g + tail == u + ([g[e]] + more);
    OutcomeConcat(Between(args), u, [g[e]] + more);
    assert forall c :: c in u ==> !IsSpace(c) && c in g;
    ScanPlain(Between(args), u);
    assert "" + u == u;
    OutcomeCons(s, g[e], more);
    Settled(ScanChar(s, g[e]), more, |args|);
  }

  /** Unquoted text gives no token that starts with white space. */
  lemma {:induction false} UnquotedIsTrimmed(args: seq<string>, g: string, p: nat, tail: string, first: string)
    requires !NeedsQuotes(g) && p < |g| && !IsSpace(g[p]) && forall i :: 0 <= i < p ==> IsSpace(g[i])
    requires first != "" && IsSpace(first[0])
    ensures Misses(Outcome(Between(args), g + tail), |args|, first)
  {
    hide IsSpace, Outcome, NeedsQuotes;
    NoQuoteCharacters(g);
    assert g[p] in g;
    var more := g[p + 1..] + tail;
    assert g + tail == g[..p] + ([g[p]] + more);
    OutcomeConcat(Between(args), g[..p], [g[p]] + more);
    BlankLeavesNothing(args, g[..p]);
    StartsWithout(args, g[p], more, first);
  }

  /** Unquoted text with white space and with other characters never gives a token that has both. */
  lemma {:induction false} UnquotedFails(args: seq<string>, pending: seq<string>, ts: seq<string>)
    requires ts != [] && (forall b :: b in pending ==> Blank(b))
    requires var g := ts[0]; !NeedsQuotes(g) && !Representable(g) && !Blank(g)
    ensures Fails(Outcome(Between(args), Joined(ts)), args, pending, ts)
  {
    hide IsSpace, Outcome, NeedsQuotes, Joined, Fails;
    var g, tail := ts[0], Tail(ts[1..]);
    JoinedTail(ts);
    assert Quoted(g) == g && g != "" by { NoQuoteCharacters(g); }
    var p := FirstIndex(g, c => !IsSpace(c));
    if pending != [] { assert pending[0] in pending; }
    if p == 0 && pending == [] {
      UnquotedIsCut(args, g, FirstIndex(g, IsSpace), tail);
    } else {
      UnquotedIsTrimmed(args, g, p, tail, (pending + [g])[0]);
    }
    MissedFirst(Outcome(Between(args), Joined(ts)), args, pending, ts);
  }

  /**
   * The printed form of a token with double quotes, cut after the character at `m` that follows its first apostrophes.
   */
  lemma {:induction false} ScanToCut(args: seq<string>, g: string, m: nat, tail: string)
    requires NeedsQuotes(g) && '"' in g && BeforeApostrophe(g) < m < |g|
    requires forall i :: BeforeApostrophe(g) <= i < m ==> g[i] == '\''
    ensures var before := Scan(args, g[..m - 1], None, true, false);
      Outcome(Between(args), Quoted(g) + tail) == Outcome(ScanChar(before, g[m]), Rest(g, m + 1, tail))
  {
    hide IsSpace, ScanText, Completed, NeedsQuotes;
    var before := Scan(args, g[..m - 1], None, true, false);
    ScanApostropheQuoted(args, g, m);
    QuotedParts(g, m);
    assert Quoted(g) + tail == ("'" + g[..m]) + ([g[m]] + Rest(g, m + 1, tail));
    OutcomeConcat(Between(args), "'" + g[..m], [g[m]] + Rest(g, m + 1, tail));
    OutcomeCons(before, g[m], Rest(g, m + 1, tail));
  }

  /** A token with both kinds of quotes that its own apostrophe cuts off. */
  lemma {:induction false} CutFails(args: seq<string>, pending: seq<string>, ts: seq<string>)
    requires ts != [] && (forall b :: b in pending ==> Blank(b)) && Shaped(ts[0])
    requires var g := ts[0]; NeedsQuotes(g) && !Representable(g)
    ensures Fails(Outcome(Between(args), Joined(ts)), args, pending, ts)
  {
    hide IsSpace, ScanText, Completed, NeedsQuotes, Joined, Fails, Shaped;
    var g, tail := ts[0], Tail(ts[1..]);
    JoinedTail(ts);
    var n := BeforeApostrophe(g);
    var i, j :| 0 <= i < j < |g| && g[i] == '\'' && g[j] != '\'';
    assert n <= i;
    var m := EndOfRun(g, n);
    ScanToCut(args, g, m, tail);
    var s := ScanChar(Scan(args, g[..m - 1], None, true, false), g[m]);
    var o, first := Outcome(Between(args), Joined(ts)), (pending + [g])[0];
    if pending != [] { assert pending[0] in pending; }
    if !IsSpace(g[m]) {
      assert s.current == g[..m - 1] + [g[m]];
      if pending == [] {
        Settled(s, Rest(g, m + 1, tail), |args|);
        assert g[m - 1] == '\'' && s.current[m - 1] == g[m];
        Differs(g, s.current, m - 1);
      } else {
        NoBlank(s, Rest(g, m + 1, tail), g[..m - 1], g[m], first);
      }
      MissedFirst(o, args, pending, ts);
    } else if g[..m - 1] != first {
      Settled(s, Rest(g, m + 1, tail), |args|);
      MissedFirst(o, args, pending, ts);
    } else {
      CutAtBlank(args, pending, ts, m);
    }
  }

  lemma {:induction false} CutAtBlank(args: seq<string>, pending: seq<string>, ts: seq<string>, m: nat)
    requires ts != [] && (forall b :: b in pending ==> Blank(b)) && Shaped(ts[0])
    requires var g := ts[0];
      && NeedsQuotes(g) && '"' in g && BeforeApostrophe(g) < m < |g| && IsSpace(g[m])
      && (forall i :: BeforeApostrophe(g) <= i < m ==> g[i] == '\'') && g[..m - 1] == (pending + [g])[0]
    ensures Fails(Outcome(Between(args), Joined(ts)), args, pending, ts)
  {
    hide IsSpace, Outcome, NeedsQuotes, Joined, Shaped, Blank, CutOff, BeforeApostrophe, Rest, Quoted;
    var g, tail := ts[0], Tail(ts[1..]);
    JoinedTail(ts);
    ScanToCut(args, g, m, tail);
    var n := BeforeApostrophe(g);
    assert pending != [] by { assert |g[..m - 1]| < |g|; }
    assert pending[0] in pending;
    BlankBeforeRun(g, n, m);
    CutOffHere(g, n);
    CutOffFails(args + [g[..n]], pending[1..], g, n, n + 2, tail, ts[1..]);
    assert args + [g[..n]] + pending[1..] + [g] + ts[1..] == args + pending + ts;
  }

  lemma {:induction false} BlankBeforeRun(g: string, n: nat, m: nat)
    requires n < m <= |g| && Blank(g[..m - 1]) && g[n] == '\''
    ensures m == n + 1
  {
    hide IsSpace, NeedsQuotes;
    if m > n + 1 {
      assert g[..m - 1][n] in g[..m - 1];
      QuoteIsNoSpace();
    }
  }

  lemma {:induction false} CutOffHere(g: string, n: nat)
    requires '"' in g && n + 1 < |g| && Blank(g[..n]) && g[n] == '\'' && IsSpace(g[n + 1])
    ensures CutOff(g, n, n + 2)
  {
    hide IsSpace, NeedsQuotes;
    QuoteIsNoSpace();
    assert g == g[..n] + [g[n], g[n + 1]] + g[n + 2..] && g[..n + 2] == g[..n] + [g[n], g[n + 1]];
  }

  /**
   * Scanning the printed list `ts` after some blank tokens that have left nothing: the blank tokens and `ts` come back
   * only if there is no blank token and every token of `ts` is representable.
   */
  lemma {:induction false} Survives(args: seq<string>, pending: seq<string>, ts: seq<string>)
    requires (forall b :: b in pending ==> Blank(b)) && (forall t :: t in ts ==> Shaped(t))
    ensures
      || Fails(Outcome(Between(args), Joined(ts)), args, pending, ts)
      || (pending == [] && forall t :: t in ts ==> Representable(t))
    decreases |ts|
  {
    hide IsSpace, ScanText, Completed, NeedsQuotes, Joined, Shaped, Representable, Blank;
    if ts == [] {
      JoinedNone();
      NothingMore(args);
    } else {
      var g, more := ts[0], ts[1..];
      JoinedTail(ts);
      if Representable(g) {
        ScanToken(args, g);
        OutcomeConcat(Between(args), Quoted(g), Tail(more));
        TailCompletes(ScanText(Between(args), Quoted(g)), more);
        if pending == [] {
          Survives(args + [g], [], more);
          assert args + [g] + [] + more == args + [] + ts;
        } else {
          assert pending[0] in pending;
          BlankIsNotRepresentable(pending[0]);
          Settled(Between(args + [g]), Joined(more), |args|);
          MissedFirst(Outcome(Between(args), Joined(ts)), args, pending, ts);
        }
      } else if Blank(g) {
        BlankIsPrinted(g);
        BlankLeavesNothing(args, g);
        OutcomeConcat(Between(args), g, Tail(more));
        TailCompletes(Between(args), more);
        Survives(args, pending + [g], more);
        assert args + (pending + [g]) + more == args + pending + ts;
      } else if NeedsQuotes(g) {
        CutFails(args, pending, ts);
      } else {
        UnquotedFails(args, pending, ts);
      }
    }
  }

  lemma NothingMore(args: seq<string>)
    ensures Outcome(Between(args), "") == Ok(args)
  {
  }

  /** Exactly which lists of tokens the editor text can carry: those all of whose tokens it can carry one by one. */
  lemma {:induction false} ListRepresentableExactly(ts: seq<string>)
    ensures Tokens(Joined(ts)) == Ok(ts) <==> forall t :: t in ts ==> Representable(t)
  {
    hide Representable, Joined, ScanText, Completed, Shaped;
    assert Between([]) == CLEAN;
    if forall t :: t in ts ==> Representable(t) {
      JoinThenSplit(ts);
    } else if Tokens(Joined(ts)) == Ok(ts) {
      AllShaped(CLEAN, Joined(ts));
      Survives([], [], ts);
      assert [] + [] + ts == ts;
    }
  }
}
