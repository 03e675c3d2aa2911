/**
 * The bridge between concurrent producers and the terminal model: bounded logs, telemetry and snapshots
 * (cmd/upbrr/tui_bridge.go, cmd/upbrr/tui_model.go). A character stands for one byte.
 */
module Bridge {
  import opened Text
  import opened LogWriter

  const PENDING_LIMIT: nat := 1000
  const RETAINED_LIMIT: nat := 2000
  const TELEMETRY_LIMIT: nat := 256
  const RESULT_LIMIT: nat := 128
  const RESULT_BYTES: nat := 4096
  const TRUNCATED := " [truncated]"
  const OMITTED := " [details omitted]"

  datatype Line = Line(level: string, text: string)

  datatype Telemetry = Telemetry(item: nat, epoch: nat, workflow: string, operation: string, lane: string,
                                 attempt: string, phase: string, completed: int, total: int, itemOnly: bool)

  /** A snapshot; `lanes` holds the printed lines of its lanes. */
  datatype View = View(item: nat, epoch: nat, workflow: string, revision: nat, operation: string, stage: string,
                       result: string, lanes: seq<string>, completed: int, total: int, itemFailed: bool)

  const EMPTY_VIEW := View(0, 0, "", 0, "", "", "", [], 0, 0, false)

  datatype Update = Update(view: Option<View>, logs: seq<Line>, dropped: nat, progress: Option<Telemetry>,
          telemetry: seq<Telemetry>)

  /** The fields of the bridge that its lock guards. */
  datatype State = State(view: Option<View>, progress: Option<Telemetry>, telemetry: seq<Telemetry>, logs: seq<Line>,
          dropped: nat,
                         latest: View, results: seq<string>, resultsDropped: nat, itemsFinished: nat,
                         itemsFailed: nat, epoch: nat)

  /** The fields of the model that an update from the bridge changes. */
  datatype Screen = Screen(view: View, telemetry: seq<Telemetry>, logs: seq<Line>, dropped: nat, evicted: nat,
    unseen: nat)

  const NEW_BRIDGE := State.State(None, None, [], [], 0, EMPTY_VIEW, [], 0, 0, 0, 0)

  function Last<T>(s: seq<T>, n: nat): seq<T> { if |s| <= n then s else s[|s| - n..] }

  function Excess(length: nat, limit: nat): nat { if length <= limit then 0 else length - limit }

  // ---- Logs ----

  predicate Bounded(line: Line) { 0 < |line.text| <= LINE_LIMIT }

  /** A line cut to the limit, redacted by `safe`, and cut again. */
  function Cleaned(safe: string -> string, line: string, sanitized: bool): (text: string)
    ensures |text| <= LINE_LIMIT
  {
    var whole := if |line| <= LINE_LIMIT then line
                 else if sanitized then line[..LINE_LIMIT - |TRUNCATED|] + TRUNCATED else OVERSIZED;
    var shown := safe(whole);
    if |shown| > LINE_LIMIT then shown[..LINE_LIMIT - |TRUNCATED|] + TRUNCATED else shown
  }

  predicate EndsMessageLine(c: char) { c == '\n' }

  /** The lines that a message adds to the log. */
  function LinesOf(safe: string -> string, level: string, message: string, sanitized: bool): (lines: seq<Line>)
    ensures forall i :: 0 <= i < |lines| ==> Bounded(lines[i])
    decreases |message|
  {
    if message == "" then []
    else
      var index := FirstIndex(message, EndsMessageLine);
      var text := Cleaned(safe, message[..index], sanitized);
      var rest := if index == |message| then "" else message[index + 1..];
      (if text == "" then [] else [Line(level, text)]) + LinesOf(safe, level, rest, sanitized)
  }

  lemma {:induction false} LinesOfRest(safe: string -> string, level: string, message: string, sanitized: bool)
    requires message != ""
    ensures var index := FirstIndex(message, EndsMessageLine);
      var text := Cleaned(safe, message[..index], sanitized);
      LinesOf(safe, level, message, sanitized) ==
      (if text == "" then [] else [Line(level, text)])
      + LinesOf(safe, level, if index == |message| then "" else message[index + 1..], sanitized)
  {
    hide Cleaned, FirstIndex;
  }

  lemma NoLinesOf(safe: string -> string, level: string, sanitized: bool)
    ensures LinesOf(safe, level, "", sanitized) == []
  {
  }

  /**
   * How a text comes from a line of a message: the redaction has seen either the whole line or, for one that is too
   * long, a placeholder, or its start if the message was sanitized before; only what it returns is cut to the limit.
   */
  ghost predicate Redacts(safe: string -> string, line: string, sanitized: bool, text: string) {
    exists seen ::
      && (if |line| <= 4096 then seen == line
          else seen == if sanitized then line[..4084] + " [truncated]" else "[oversized diagnostic omitted]")
      && text == if |safe(seen)| <= 4096 then safe(seen) else safe(seen)[..4084] + " [truncated]"
  }

  lemma {:induction false} CleanedRedacts(safe: string -> string, line: string, sanitized: bool)
    ensures forall text :: Redacts(safe, line, sanitized, text) <==> text == Cleaned(safe, line, sanitized)
  {
    var seen := if |line| <= 4096 then line
                else if sanitized then line[..4084] + " [truncated]" else "[oversized diagnostic omitted]";
    assert safe(seen) == safe(seen);
  }

  /** A message is logged line by line, each redacted on its own; lines that come out blank are left out. */
  lemma {:induction false} MessageLines(safe: string -> string, level: string, line: string, rest: string,
          sanitized: bool)
    requires '\n' !in line
    ensures exists text :: (
      && Redacts(safe, line, sanitized, text)
      && LinesOf(safe, level, line + "\n" + rest, sanitized)
         == (if text == "" then [] else [Line(level, text)]) + LinesOf(safe, level, rest, sanitized)
      && (line != "" ==> LinesOf(safe, level, line, sanitized) == if text == "" then [] else [Line(level, text)]))
  {
    hide Redacts, Cleaned;
    var text := Cleaned(safe, line, sanitized);
    CleanedRedacts(safe, line, sanitized);
    var whole := line + "\n" + rest;
    assert whole[|line|] == '\n';
    assert forall k :: 0 <= k < |line| ==> whole[k] == line[k];
    assert FirstIndex(whole, EndsMessageLine) == |line|;
    assert whole[..|line|] == line && whole[|line| + 1..] == rest;
    assert FirstIndex(line, EndsMessageLine) == |line| && line[..|line|] == line;
    LinesOfRest(safe, level, whole, sanitized);
    if line != "" {
      LinesOfRest(safe, level, line, sanitized);
      NoLinesOf(safe, level, sanitized);
      var shown := if text == "" then [] else [Line(level, text)];
      assert shown + [] == shown;
    }
  }

  /** A line of a message, between line feeds or its ends. */
  ghost predicate LineIn(line: string, message: string) {
    exists i, j {:trigger message[i..j]} ::
      && 0 <= i <= j <= |message| && line == message[i..j] && '\n' !in line
      && (i == 0 || message[i - 1] == '\n') && (j == |message| || message[j] == '\n')
  }

  /** Nothing gets into the log that is not a redacted line of the message. */
  lemma {:induction false} LoggedIsRedacted(safe: string -> string, level: string, message: string, sanitized: bool,
          logged: Line)
    requires logged in LinesOf(safe, level, message, sanitized)
    ensures logged.level == level && exists line :: LineIn(line, message) && Redacts(safe, line, sanitized, logged.text)
    decreases |message|
  {
    hide Redacts, Cleaned, FirstIndex, LineIn, LinesOf;
    NoLinesOf(safe, level, sanitized);
    var index := FirstIndex(message, EndsMessageLine);
    var first := message[..index];
    LinesOfRest(safe, level, message, sanitized);
    CleanedRedacts(safe, first, sanitized);
    FirstLineIsIn(message);
    if logged != Line(level, Cleaned(safe, first, sanitized)) {
      if index < |message| {
        var rest := message[index + 1..];
        LoggedIsRedacted(safe, level, rest, sanitized, logged);
        var line :| LineIn(line, rest) && Redacts(safe, line, sanitized, logged.text);
        LineOfRest(line, message, index + 1);
      }
    }
  }

  lemma {:induction false} FirstLineIsIn(message: string)
    ensures LineIn(message[..FirstIndex(message, EndsMessageLine)], message)
  {
    var index := FirstIndex(message, EndsMessageLine);
    assert message[..index] == message[0..index];
  }

  lemma {:induction false} LineOfRest(line: string, message: string, start: nat)
    requires 0 < start <= |message| && message[start - 1] == '\n' && LineIn(line, message[start..])
    ensures LineIn(line, message)
  {
    var rest := message[start..];
    var i, j {:trigger rest[i..j]} :| 0 <= i <= j <= |rest| && line == rest[i..j] && '\n' !in line
      && (i == 0 || rest[i - 1] == '\n') && (j == |rest| || rest[j] == '\n');
    assert message[start + i..start + j] == line;
  }

  /** The oldest pending lines make room for new ones and are counted. */
  function WithLines(b: State, lines: seq<Line>): State {
    b.(logs := Last(b.logs + lines, PENDING_LIMIT), dropped := b.dropped + Excess(|b.logs + lines|, PENDING_LIMIT))
  }

  lemma {:induction false} LinesInTurn(b: State, first: seq<Line>, second: seq<Line>)
    requires |b.logs| <= PENDING_LIMIT
    ensures WithLines(WithLines(b, first), second) == WithLines(b, first + second)
  {
    assert b.logs + (first + second) == (b.logs + first) + second;
    LastInTurn(b.logs + first, second, PENDING_LIMIT);
  }

  lemma {:induction false} NoLines(b: State)
    requires |b.logs| <= PENDING_LIMIT
    ensures WithLines(b, []) == b
  {
    assert b.logs + [] == b.logs;
  }

  lemma LastInTurn<T>(s: seq<T>, t: seq<T>, n: nat)
    ensures Last(Last(s, n) + t, n) == Last(s + t, n)
  {
  }

  // ---- Telemetry ----

  predicate SameKey(a: Telemetry, b: Telemetry) { a.lane == b.lane && a.attempt == b.attempt }

  ghost predicate DistinctKeys(telemetry: seq<Telemetry>) {
    forall i, j :: 0 <= i < j < |telemetry| ==> !SameKey(telemetry[i], telemetry[j])
  }

  predicate Accepts(b: State, p: Telemetry) {
    && p.epoch == b.epoch && p.item >= b.latest.item
    && (p.workflow == "" || p.workflow == b.latest.workflow)
    && (p.operation == "" || p.operation == b.latest.operation)
  }

  function KeyIndex(telemetry: seq<Telemetry>, p: Telemetry): (i: nat)
    ensures i <= |telemetry|
    ensures forall k :: 0 <= k < i ==> !SameKey(telemetry[k], p)
    ensures i < |telemetry| ==> SameKey(telemetry[i], p)
  {
    if telemetry == [] || SameKey(telemetry[0], p) then 0 else 1 + KeyIndex(telemetry[1..], p)
  }

  function Coalesced(telemetry: seq<Telemetry>, p: Telemetry): seq<Telemetry> {
    var i := KeyIndex(telemetry, p);
    if i < |telemetry| then telemetry[i := p]
    else (if |telemetry| >= TELEMETRY_LIMIT then telemetry[1..] else telemetry) + [p]
  }

  function WithProgress(b: State, p: Telemetry): State {
    if !Accepts(b, p) then b
    else b.(progress := if p.itemOnly then b.progress else Some(p), telemetry := Coalesced(b.telemetry, p))
  }

  // ---- Snapshots ----

  /** The retained text of a finished item; `valid` repairs a text that was cut inside a character. */
  function ResultText(valid: string -> string, view: View): string {
    var text := LaneText(view.result + "\n", view.lanes);
    if |text| > RESULT_BYTES then valid(text[..RESULT_BYTES - |OMITTED|]) + OMITTED else text
  }

  /** Lanes are added until the text is long enough. */
  function LaneText(text: string, lanes: seq<string>): string
    decreases |lanes|
  {
    if lanes == [] then text
    else if |text + lanes[0]| >= RESULT_BYTES then text + lanes[0]
    else LaneText(text + lanes[0], lanes[1..])
  }

  predicate LeavesItem(latest: View, view: View) { view.item != latest.item && latest.item != 0 }

  function Taken(b: State, view: View): bool {
    && !(view.item == b.latest.item && view.workflow == b.latest.workflow && view.revision < b.latest.revision)
    && view.item >= b.latest.item
  }

  function WithView(valid: string -> string, b: State, published: View): State {
    var view := published.(epoch := b.epoch);
    if !Taken(b, view) then b
    else
      var closed := if LeavesItem(b.latest, view) then [ResultText(valid, b.latest)] else [];
      b.(results := Last(b.results + closed, RESULT_LIMIT),
         resultsDropped := b.resultsDropped + Excess(|b.results + closed|, RESULT_LIMIT),
         itemsFinished := b.itemsFinished + (if closed != [] && b.latest.result != "" then 1 else 0),
         itemsFailed := b.itemsFailed + (if closed != [] && b.latest.itemFailed then 1 else 0),
         latest := view, view := Some(view))
  }

  /** A new reporter lifetime: what older callbacks reported is forgotten. */
  function WithNextEpoch(b: State): State {
    var latest := b.latest.(epoch := b.epoch + 1);
    b.(epoch := b.epoch + 1, progress := None, telemetry := [], latest := latest, view := Some(latest))
  }

  function Drained(b: State): State { b.(view := None, logs := [], progress := None) }

  lemma {:induction false} NoneMore(results: seq<string>)
    requires |results| <= RESULT_LIMIT
    ensures Last(results + [], RESULT_LIMIT) == results && Excess(|results + []|, RESULT_LIMIT) == 0
  {
    assert results + [] == results;
  }

  function UpdateOf(b: State): Update { Update(b.view, b.logs, b.dropped, b.progress, b.telemetry) }

  class Producer {
    const safe: string -> string
    const valid: string -> string
    var view: Option<View>
    var progress: Option<Telemetry>
    var telemetry: seq<Telemetry>
    var logs: seq<Line>
    var dropped: nat
    var latest: View
    var results: seq<string>
    var resultsDropped: nat
    var itemsFinished: nat
    var itemsFailed: nat
    var epoch: nat

    constructor (safe: string -> string, valid: string -> string)
      ensures Snapshot() == NEW_BRIDGE && this.safe == safe && this.valid == valid
    {
      this.safe, this.valid := safe, valid;
      view, progress, telemetry, logs, dropped := None, None, [], [], 0;
      latest, results, resultsDropped, itemsFinished, itemsFailed, epoch := EMPTY_VIEW, [], 0, 0, 0, 0;
    }

    ghost function Snapshot(): State
      reads this
    {
      State.State(view, progress, telemetry, logs, dropped, latest, results, resultsDropped, itemsFinished, itemsFailed,
        epoch)
    }

    method AppendLog(level: string, text: string, sanitized: bool)
      requires |logs| <= PENDING_LIMIT
      modifies this`logs, this`dropped
      ensures |logs| <= PENDING_LIMIT
      ensures Snapshot() == WithLines(old(Snapshot()), LinesOf(safe, level, text, sanitized))
    {
      hide WithLines, Cleaned, LinesOf;
      ghost var added: seq<Line> := [];
      var message := text;
      NoLines(Snapshot());
      while |message| > 0
        invariant added + LinesOf(safe, level, message, sanitized) == LinesOf(safe, level, text, sanitized)
        invariant |logs| <= PENDING_LIMIT
        invariant Snapshot() == WithLines(old(Snapshot()), added)
        decreases |message|
      {
        var index := FirstIndex(message, EndsMessageLine);
        var line := Cleaned(safe, message[..index], sanitized);
        LinesOfRest(safe, level, message, sanitized);
        message := if index == |message| then "" else message[index + 1..];
        if line == "" {
          continue;
        }
        Push(Line(level, line));
        LinesInTurn(old(Snapshot()), added, [Line(level, line)]);
        added := added + [Line(level, line)];
      }
      assert LinesOf(safe, level, "", sanitized) == [] by { NoLinesOf(safe, level, sanitized); }
      assert added + [] == added;
    }

    /** The part of `AppendLog` under the lock. */
    method Push(line: Line)
      requires |logs| <= PENDING_LIMIT
      modifies this`logs, this`dropped
      ensures |logs| <= PENDING_LIMIT
      ensures Snapshot() == WithLines(old(Snapshot()), [line])
    {
      if |logs| == PENDING_LIMIT {
        logs := logs[1..];
        dropped := dropped + 1;
      }
      logs := logs + [line];
    }

    method Progress(reported: Telemetry)
      modifies this`progress, this`telemetry
      ensures Snapshot() == WithProgress(old(Snapshot()),
        reported.(phase := safe(reported.phase), lane := safe(reported.lane), attempt := safe(reported.attempt)))
    {
      var p := reported.(phase := safe(reported.phase), lane := safe(reported.lane), attempt := safe(reported.attempt));
      if p.epoch == epoch && p.item >= latest.item && (p.workflow == "" || p.workflow == latest.workflow)
         && (p.operation == "" || p.operation == latest.operation) {
        if !p.itemOnly {
          progress := Some(p);
        }
        var index := KeyIndex(telemetry, p);
        if index < |telemetry| {
          telemetry := telemetry[index := p];
        } else {
          if |telemetry| >= TELEMETRY_LIMIT {
            telemetry := telemetry[1..];
          }
          telemetry := telemetry + [p];
        }
      }
    }

    method Publish(published: View)
      requires |results| <= RESULT_LIMIT
      modifies this
      ensures Snapshot() == WithView(valid, old(Snapshot()), published)
    {
      hide Last, Excess, ResultText;
      NoneMore(results);
      var v := published.(epoch := epoch);
      if v.item == latest.item && v.workflow == latest.workflow && v.revision < latest.revision {
        return;
      }
      if v.item >= latest.item {
        if v.item != latest.item && latest.item != 0 {
          var text := ItemText();
          Retain(text);
          if latest.result != "" {
            itemsFinished := itemsFinished + 1;
          }
          if latest.itemFailed {
            itemsFailed := itemsFailed + 1;
          }
        }
        latest := v;
        view := Some(v);
      }
    }

    /** What `Publish` keeps of the item it leaves. */
    method ItemText() returns (text: string)
      ensures text == ResultText(valid, latest)
    {
      text := latest.result + "\n";
      var i := 0;
      assert latest.lanes[0..] == latest.lanes;
      while i < |latest.lanes|
        invariant 0 <= i <= |latest.lanes|
        invariant LaneText(text, latest.lanes[i..]) == LaneText(latest.result + "\n", latest.lanes)
      {
        text := text + latest.lanes[i];
        i := i + 1;
        if |text| >= RESULT_BYTES {
          break;
        }
      }
      assert text == LaneText(latest.result + "\n", latest.lanes);
      if |text| > RESULT_BYTES {
        text := valid(text[..RESULT_BYTES - |OMITTED|]) + OMITTED;
      }
    }

    /** The newest results stay; the others are counted. */
    method Retain(text: string)
      requires |results| <= RESULT_LIMIT
      modifies this`results, this`resultsDropped
      ensures results == Last(old(results) + [text], RESULT_LIMIT)
      ensures resultsDropped == old(resultsDropped) + Excess(|old(results)| + 1, RESULT_LIMIT)
    {
      if |results| == RESULT_LIMIT {
        results := results[1..] + [text];
        resultsDropped := resultsDropped + 1;
      } else {
        results := results + [text];
      }
    }

    /** The start of `presentationProgressContext`. */
    method NextEpoch()
      modifies this
      ensures Snapshot() == WithNextEpoch(old(Snapshot()))
    {
      epoch := epoch + 1;
      progress := None;
      telemetry := [];
      latest := latest.(epoch := epoch);
      view := Some(latest);
    }

    method Drain() returns (update: Update)
      modifies this`view, this`logs, this`progress
      ensures update == UpdateOf(old(Snapshot()))
      ensures Snapshot() == Drained(old(Snapshot()))
    {
      update := Update(view, logs, dropped, progress, telemetry);
      view, logs, progress := None, [], None;
    }
  }

  // ---- The model's side ----

  predicate Shows(current: View, v: View) {
    && v.epoch >= current.epoch && v.item >= current.item
    && (v.workflow != current.workflow || v.revision >= current.revision)
  }

  /** Whether a count is about the item and workflow of the view. */
  predicate Concerns(p: Telemetry, v: View) {
    && p.epoch >= v.epoch && p.item >= v.item
    && (p.workflow == "" || p.workflow == v.workflow)
    && (p.operation == "" || p.operation == v.operation)
  }

  function Concerning(telemetry: seq<Telemetry>, v: View): seq<Telemetry> {
    if telemetry == [] then []
    else (if Concerns(telemetry[0], v) then [telemetry[0]] else []) + Concerning(telemetry[1..], v)
  }

  function Received(m: Screen, u: Update, follow: bool): Screen {
    var shown := if u.view.Some? && Shows(m.view, u.view.value) then u.view.value else m.view;
    var view := if u.progress.Some? && Concerns(u.progress.value, shown)
                then shown.(stage := u.progress.value.phase, completed := u.progress.value.completed,
                            total := u.progress.value.total)
                else shown;
    Screen(view, Concerning(u.telemetry, view), Last(m.logs + u.logs, RETAINED_LIMIT), u.dropped,
           m.evicted + Excess(|m.logs + u.logs|, RETAINED_LIMIT), m.unseen + (if follow then 0 else |u.logs|))
  }

  /** Whether a count is of this lifetime, item, workflow and operation, or of a later lifetime or item. */
  predicate IsAbout(p: Telemetry, v: View) {
    p.epoch >= v.epoch && p.item >= v.item && p.workflow in ["", v.workflow] && p.operation in ["", v.operation]
  }

  /**
   * What the model makes of an update: a snapshot is shown unless it goes back in lifetime, item or, within a workflow,
   * revision; an aggregate count changes stage and numbers if it is about what is shown, and of the other counts
   * exactly those about it are kept.
   */
  lemma {:induction false} ReceivedExactly(m: Screen, u: Update, follow: bool)
    ensures var s := Received(m, u, follow);
      var goesBack := u.view.None? || u.view.value.epoch < m.view.epoch || u.view.value.item < m.view.item
        || (u.view.value.workflow == m.view.workflow && u.view.value.revision < m.view.revision);
      var shown := if goesBack then m.view else u.view.value;
      && s.view == (if u.progress.Some? && IsAbout(u.progress.value, shown)
                    then shown.(stage := u.progress.value.phase, completed := u.progress.value.completed,
                                total := u.progress.value.total)
                    else shown)
      && forall p :: p in s.telemetry <==> p in u.telemetry && IsAbout(p, s.view)
  {
    hide Last, Excess;
    AboutExactly(u.telemetry, Received(m, u, follow).view);
  }

  lemma {:induction false} AboutExactly(telemetry: seq<Telemetry>, v: View)
    ensures forall p :: p in Concerning(telemetry, v) <==> p in telemetry && IsAbout(p, v)
  {
    if telemetry != [] {
      assert telemetry == [telemetry[0]] + telemetry[1..];
      AboutExactly(telemetry[1..], v);
    }
  }

  function Least(a: nat, b: nat): nat { if a <= b then a else b }

  /** Nothing is dropped before a buffer is full. */
  lemma {:induction false} BufferSizes(b: State, lines: seq<Line>, p: Telemetry, m: Screen, u: Update, follow: bool,
          results: seq<string>)
    ensures |WithLines(b, lines).logs| == Least(|b.logs| + |lines|, 1000)
    ensures |Received(m, u, follow).logs| == Least(|m.logs| + |u.logs|, 2000)
    ensures (forall i :: 0 <= i < |b.telemetry| ==> !SameKey(b.telemetry[i], p)) && |b.telemetry| <= 256 ==>
      |Coalesced(b.telemetry, p)| == Least(|b.telemetry| + 1, 256)
    ensures |Last(results, RESULT_LIMIT)| == Least(|results|, 128)
  {
    hide Concerning, Concerns, Shows;
  }

  class Model {
    var follow: bool
    var view: View
    var telemetry: seq<Telemetry>
    var logs: seq<Line>
    var dropped: nat
    var evicted: nat
    var unseen: nat

    constructor ()
      ensures Snapshot() == Screen(EMPTY_VIEW.(stage := "Starting"), [], [], 0, 0, 0) && follow
    {
      follow, view, telemetry, logs, dropped, evicted, unseen :=
        true, EMPTY_VIEW.(stage := "Starting"), [], [], 0, 0, 0;
    }

    ghost function Snapshot(): Screen
      reads this
    {
      Screen(view, telemetry, logs, dropped, evicted, unseen)
    }

    method Receive(update: Update)
      modifies this`view, this`telemetry, this`logs, this`dropped, this`evicted, this`unseen
      ensures Snapshot() == Received(old(Snapshot()), update, follow)
    {
      hide Shows, Concerns, Concerning;
      if update.view.Some? && Shows(view, update.view.value) {
        view := update.view.value;
      }
      if update.progress.Some? && Concerns(update.progress.value, view) {
        var p := update.progress.value;
        view := view.(stage := p.phase, completed := p.completed, total := p.total);
      }
      logs := logs + update.logs;
      telemetry := Concerning(update.telemetry, view);
      if |logs| > RETAINED_LIMIT {
        var removed := |logs| - RETAINED_LIMIT;
        logs := logs[removed..];
        evicted := evicted + removed;
      }
      dropped := update.dropped;
      if !follow {
        unseen := unseen + |update.logs|;
      }
    }
  }
}
