/**
 * Runs of producers, the bridge and the model, with any interleaving (cmd/upbrr/tui_bridge.go, cmd/upbrr/tui_model.go).
 */
module BridgeRuns {
  import opened Text
  import opened Bridge

  datatype Event =
    | Append(line: Line)          // one line of AppendLog, which locks line by line
    | Publish(view: View)
    | Progress(telemetry: Telemetry)
    | NextEpoch
    | Drain                       // the only outstanding receive takes an update
    | Deliver                     // the model handles it and starts the next receive

  /**
   * The running system and, for the account, what has happened: every line ever appended, which of them are still kept
   * (their indices), the lines the model has evicted, the items left behind and the snapshots the bridge has taken.
   */
  datatype System = System(bridge: Bridge.State, flight: Option<Update>, model: Screen, history: seq<Line>,
                           kept: seq<nat>, evicted: seq<Line>, closed: seq<View>, taken: seq<View>,
                           travelling: int, shown: int)

  const START := System(NEW_BRIDGE, None, Screen(EMPTY_VIEW.(stage := "Starting"), [], [], 0, 0, 0), [], [], [], [],
    [EMPTY_VIEW], 0, 0)

  predicate Enabled(s: System, e: Event) {
    match e
    case Append(line) => Bounded(line)
    case Drain => s.flight.None?
    case Deliver => s.flight.Some?
    case _ => true
  }

  function InFlight(s: System): seq<Line> { if s.flight.Some? then s.flight.value.logs else [] }

  /** The lines that have left the bridge, in order: evicted, retained, in flight. */
  function Gone(s: System): seq<Line> { s.evicted + s.model.logs + InFlight(s) }

  function Next(valid: string -> string, follow: bool, s: System, e: Event): System
    requires Enabled(s, e)
  {
    match e
    case Append(line) =>
      var oldest := |Gone(s)|;
      var kept := if |s.bridge.logs| == PENDING_LIMIT && oldest < |s.kept| then s.kept[..oldest] + s.kept[oldest + 1..]
        else s.kept;
      s.(bridge := WithLines(s.bridge, [line]), history := s.history + [line], kept := kept + [|s.history|])
    case Publish(view) =>
      var b := WithView(valid, s.bridge, view);
      if Taken(s.bridge, view.(epoch := s.bridge.epoch)) then
        s.(bridge := b, taken := s.taken + [b.latest],
           closed := s.closed + (if LeavesItem(s.bridge.latest, view) then [s.bridge.latest] else []))
      else s.(bridge := b)
    case Progress(telemetry) => s.(bridge := WithProgress(s.bridge, telemetry))
    case NextEpoch => var b := WithNextEpoch(s.bridge); s.(bridge := b, taken := s.taken + [b.latest])
    case Drain => s.(bridge := Drained(s.bridge), flight := Some(UpdateOf(s.bridge)), travelling := |s.taken| - 1)
    case Deliver =>
      var all := s.model.logs + InFlight(s);
      s.(flight := None, model := Received(s.model, s.flight.value, follow),
         evicted := s.evicted + all[..Excess(|all|, RETAINED_LIMIT)],
         shown := var v := s.flight.value.view;
           if v.Some? && Shows(s.model.view, v.value) then s.travelling else s.shown)
  }

  // ---- What every state of a run satisfies ----

  /** The lines that are somewhere, in order, the pending ones last. */
  function Kept(s: System): seq<Line> { Gone(s) + s.bridge.logs }

  ghost predicate AllBounded(lines: seq<Line>) { forall i :: 0 <= i < |lines| ==> Bounded(lines[i]) }

  /** `lines` are the lines of the history at the indices `kept`, in the order of the history. */
  ghost predicate Selects(kept: seq<nat>, history: seq<Line>, lines: seq<Line>) {
    && |kept| == |lines|
    && (forall i, j :: 0 <= i < j < |kept| ==> kept[i] < kept[j])
    && (forall i :: 0 <= i < |kept| ==> kept[i] < |history| && lines[i] == history[kept[i]])
  }

  /**
   * Every line ever appended is kept, in its place and unchanged, or counted as dropped; buffers stay within their
   * limits.
   */
  ghost predicate LogsAccounted(s: System) {
    && Selects(s.kept, s.history, Kept(s))
    && |s.kept| + s.bridge.dropped == |s.history|
    && |s.evicted| == s.model.evicted
    && |s.bridge.logs| <= PENDING_LIMIT && |s.model.logs| <= RETAINED_LIMIT
    && AllBounded(s.history)
  }

  ghost predicate TelemetrySound(telemetry: seq<Telemetry>) {
    |telemetry| <= TELEMETRY_LIMIT && DistinctKeys(telemetry)
  }

  ghost predicate NoneOlder(telemetry: seq<Telemetry>, epoch: nat) {
    forall i :: 0 <= i < |telemetry| ==> telemetry[i].epoch >= epoch
  }

  ghost predicate Current(telemetry: seq<Telemetry>, epoch: nat) {
    forall i :: 0 <= i < |telemetry| ==> telemetry[i].epoch == epoch
  }

  ghost predicate TelemetryAccounted(s: System) {
    && TelemetrySound(s.bridge.telemetry) && Current(s.bridge.telemetry, s.bridge.epoch)
    && (s.bridge.progress.Some? ==> s.bridge.progress.value.epoch == s.bridge.epoch)
    && (s.flight.Some? ==> TelemetrySound(s.flight.value.telemetry))
    && TelemetrySound(s.model.telemetry) && NoneOlder(s.model.telemetry, s.model.view.epoch)
  }

  /** The results shown in the summary are those of the last items left, numbered after the dropped ones. */
  ghost predicate ResultsMatch(valid: string -> string, results: seq<string>, dropped: nat, finished: nat, failed: nat,
          closed: seq<View>, item: nat)
  {
    && |results| <= RESULT_LIMIT && dropped + |results| == |closed|
    && (forall i :: 0 <= i < |results| ==> results[i] == ResultText(valid, closed[dropped + i]))
    && failed == |Failed(closed)| && finished == |Finished(closed)|
    && (forall i, j :: 0 <= i < j < |closed| ==> closed[i].item < closed[j].item)
    && (forall i :: 0 <= i < |closed| ==> closed[i].item < item)
  }

  ghost predicate ResultsAccounted(valid: string -> string, s: System) {
    ResultsMatch(valid, s.bridge.results, s.bridge.resultsDropped, s.bridge.itemsFinished, s.bridge.itemsFailed,
      s.closed, s.bridge.latest.item)
  }

  function Failed(views: seq<View>): seq<View> {
    if views == [] then []
    else Failed(views[..|views| - 1]) + (if views[|views| - 1].itemFailed then [views[|views| - 1]] else [])
  }

  function Finished(views: seq<View>): seq<View> {
    if views == [] then []
    else Finished(views[..|views| - 1]) + (if views[|views| - 1].result != "" then [views[|views| - 1]] else [])
  }

  predicate NotBefore(v: View, w: View) { w.epoch <= v.epoch && w.item <= v.item }

  /** Views travel in order: what the model shows, what is under way, what is pending, the latest. */
  ghost predicate ViewsOrdered(s: System) {
    && s.bridge.latest.epoch == s.bridge.epoch
    && (s.bridge.view.Some? ==> s.bridge.view.value == s.bridge.latest)
    && NotBefore(s.bridge.latest, s.model.view)
    && (s.flight.Some? && s.flight.value.view.Some? ==>
          NotBefore(s.bridge.latest, s.flight.value.view.value) && NotBefore(s.flight.value.view.value, s.model.view))
  }

  ghost predicate Invariant(valid: string -> string, s: System) {
    LogsAccounted(s) && TelemetryAccounted(s) && ResultsAccounted(valid, s) && ViewsOrdered(s)
  }

  // ---- The invariant is kept by every step ----

  lemma SelectsWithout(kept: seq<nat>, history: seq<Line>, lines: seq<Line>, k: nat)
    requires Selects(kept, history, lines) && k < |kept|
    ensures Selects(kept[..k] + kept[k + 1..], history, lines[..k] + lines[k + 1..])
  {
  }

  lemma SelectsOneMore(kept: seq<nat>, history: seq<Line>, lines: seq<Line>, line: Line)
    requires Selects(kept, history, lines)
    ensures Selects(kept + [|history|], history + [line], lines + [line])
  {
  }

  lemma {:induction false} AppendKeepsLogs(valid: string -> string, follow: bool, s: System, line: Line)
    requires LogsAccounted(s) && Bounded(line)
    ensures LogsAccounted(Next(valid, follow, s, Append(line)))
  {
    hide Bounded, Gone, Selects;
    var t := Next(valid, follow, s, Append(line));
    var oldest := |Gone(s)|;
    AppendLeavesGone(valid, follow, s, line);
    assert |s.kept| == |Kept(s)| by { SelectsAsMany(s.kept, s.history, Kept(s)); }
    if |s.bridge.logs| == PENDING_LIMIT {
      SelectsWithout(s.kept, s.history, Kept(s), oldest);
      SelectsOneMore(s.kept[..oldest] + s.kept[oldest + 1..], s.history,
        Kept(s)[..oldest] + Kept(s)[oldest + 1..], line);
      assert Kept(t) == Kept(s)[..oldest] + Kept(s)[oldest + 1..] + [line];
    } else {
      SelectsOneMore(s.kept, s.history, Kept(s), line);
      assert Kept(t) == Kept(s) + [line];
    }
  }

  lemma AppendLeavesGone(valid: string -> string, follow: bool, s: System, line: Line)
    requires Bounded(line)
    ensures Gone(Next(valid, follow, s, Append(line))) == Gone(s)
  {
  }

  lemma SelectsAsMany(kept: seq<nat>, history: seq<Line>, lines: seq<Line>)
    requires Selects(kept, history, lines)
    ensures |kept| == |lines|
  {
  }

  lemma {:induction false} DeliverKeepsLogs(valid: string -> string, follow: bool, s: System)
    requires LogsAccounted(s) && s.flight.Some?
    ensures LogsAccounted(Next(valid, follow, s, Deliver))
  {
    hide Concerning, Concerns, Shows, Selects, AllBounded;
    var t := Next(valid, follow, s, Deliver);
    EvictionMovesLines(s.evicted, s.model.logs, InFlight(s));
    assert Gone(t) == Gone(s) by {
      var all := s.model.logs + InFlight(s);
      assert Gone(t) == t.evicted + t.model.logs;
    }
  }

  lemma {:induction false} EvictionMovesLines(evicted: seq<Line>, retained: seq<Line>, flight: seq<Line>)
    ensures var all := retained + flight;
      evicted + all[..Excess(|all|, RETAINED_LIMIT)] + Last(all, RETAINED_LIMIT) == evicted + retained + flight
  {
    var all := retained + flight;
    var cut := Excess(|all|, RETAINED_LIMIT);
    assert all == all[..cut] + all[cut..];
  }

  lemma {:induction false} StepKeepsLogs(valid: string -> string, follow: bool, s: System, e: Event)
    requires LogsAccounted(s) && Enabled(s, e)
    ensures LogsAccounted(Next(valid, follow, s, e))
  {
    match e
    case Append(line) => AppendKeepsLogs(valid, follow, s, line);
    case Deliver => DeliverKeepsLogs(valid, follow, s);
    case _ =>
      hide ResultText, Coalesced, Selects, Bounded;
      assert Kept(Next(valid, follow, s, e)) == Kept(s);
  }

  lemma CoalescedKeepsTelemetry(telemetry: seq<Telemetry>, p: Telemetry)
    requires TelemetrySound(telemetry) && Current(telemetry, p.epoch)
    ensures TelemetrySound(Coalesced(telemetry, p)) && Current(Coalesced(telemetry, p), p.epoch)
  {
  }

  /** What is kept of telemetry concerns the view and was there before. */
  lemma {:induction false} ConcerningIsSound(telemetry: seq<Telemetry>, v: View)
    requires DistinctKeys(telemetry)
    ensures |Concerning(telemetry, v)| <= |telemetry| && DistinctKeys(Concerning(telemetry, v))
    ensures forall p :: p in Concerning(telemetry, v) <==> p in telemetry && Concerns(p, v)
  {
    hide Concerns;
    if telemetry != [] {
      ConcerningIsSound(telemetry[1..], v);
      assert telemetry == [telemetry[0]] + telemetry[1..];
      forall i | 0 <= i < |Concerning(telemetry[1..], v)|
        ensures !SameKey(telemetry[0], Concerning(telemetry[1..], v)[i]) {
        assert Concerning(telemetry[1..], v)[i] in telemetry[1..];
      }
    }
  }

  lemma {:induction false} StepKeepsTelemetry(valid: string -> string, follow: bool, s: System, e: Event)
    requires TelemetryAccounted(s) && Enabled(s, e)
    ensures TelemetryAccounted(Next(valid, follow, s, e))
  {
    hide ResultText, Coalesced, Concerning, Last, DistinctKeys;
    match e
    case Progress(p) =>
      if Accepts(s.bridge, p) {
        CoalescedKeepsTelemetry(s.bridge.telemetry, p);
      }
    case Deliver =>
      var view := Received(s.model, s.flight.value, follow).view;
      ConcerningIsSound(s.flight.value.telemetry, view);
      assert forall i :: 0 <= i < |Concerning(s.flight.value.telemetry, view)| ==>
        Concerning(s.flight.value.telemetry, view)[i] in Concerning(s.flight.value.telemetry, view);
    case NextEpoch => assert DistinctKeys([]) by { NoKeys(); }
    case _ =>
  }

  lemma NoKeys()
    ensures DistinctKeys([])
  {
  }

  lemma {:induction false} LeavingCounts(closed: seq<View>, view: View)
    ensures |Failed(closed + [view])| == |Failed(closed)| + (if view.itemFailed then 1 else 0)
    ensures |Finished(closed + [view])| == |Finished(closed)| + (if view.result != "" then 1 else 0)
  {
    assert (closed + [view])[..|closed|] == closed;
  }

  lemma {:induction false} PublishKeepsResults(valid: string -> string, follow: bool, s: System, view: View)
    requires ResultsAccounted(valid, s)
    ensures ResultsAccounted(valid, Next(valid, follow, s, Publish(view)))
  {
    hide ResultText, Failed, Finished;
    var leaving := s.bridge.latest;
    if Taken(s.bridge, view.(epoch := s.bridge.epoch)) {
      if LeavesItem(leaving, view) {
        LeavingCounts(s.closed, leaving);
      } else {
        assert s.closed + [] == s.closed;
        NoneMore(s.bridge.results);
      }
    }
  }

  lemma {:induction false} StepKeepsResults(valid: string -> string, follow: bool, s: System, e: Event)
    requires ResultsAccounted(valid, s) && Enabled(s, e)
    ensures ResultsAccounted(valid, Next(valid, follow, s, e))
  {
    if e.Publish? {
      PublishKeepsResults(valid, follow, s, e.view);
    } else {
      hide ResultsMatch, Coalesced, Received, Last, WithView, Accepts;
    }
  }

  lemma {:induction false} StepKeepsViews(valid: string -> string, follow: bool, s: System, e: Event)
    requires ViewsOrdered(s) && Enabled(s, e)
    ensures ViewsOrdered(Next(valid, follow, s, e))
  {
    hide ResultText, Coalesced, Concerning, Last;
  }

  function Run(valid: string -> string, follow: bool, s: System, events: seq<Event>): Option<System>
    decreases |events|
  {
    if events == [] then Some(s)
    else if Enabled(s, events[0]) then Run(valid, follow, Next(valid, follow, s, events[0]), events[1..])
    else None
  }

  lemma {:induction false} RunKeepsInvariant(valid: string -> string, follow: bool, s: System, events: seq<Event>)
    requires Invariant(valid, s)
    ensures Run(valid, follow, s, events).Some? ==> Invariant(valid, Run(valid, follow, s, events).value)
    decreases |events|
  {
    hide LogsAccounted, TelemetryAccounted, ResultsAccounted, ViewsOrdered, Next;
    if events != [] && Enabled(s, events[0]) {
      StepKeepsLogs(valid, follow, s, events[0]);
      StepKeepsTelemetry(valid, follow, s, events[0]);
      StepKeepsResults(valid, follow, s, events[0]);
      StepKeepsViews(valid, follow, s, events[0]);
      RunKeepsInvariant(valid, follow, Next(valid, follow, s, events[0]), events[1..]);
    }
  }

  // ---- The main results ----

  /** In every run, each appended line is counted once, and the bounds hold. */
  lemma {:induction false} NoLineGoesUncounted(valid: string -> string, follow: bool, events: seq<Event>)
    requires Run(valid, follow, START, events).Some?
    ensures var s := Run(valid, follow, START, events).value;
      && Invariant(valid, s)
      && |s.history| == s.bridge.dropped + |s.bridge.logs| + |InFlight(s)| + s.model.evicted + |s.model.logs|
      && (s.bridge.dropped == 0 ==> Kept(s) == s.history)
  {
    hide TelemetryAccounted, ResultsAccounted, ViewsOrdered, Run;
    StartIsSound(valid);
    RunKeepsInvariant(valid, follow, START, events);
    var s := Run(valid, follow, START, events).value;
    if s.bridge.dropped == 0 {
      SelectsAll(s.kept, s.history, Kept(s));
    }
  }

  lemma StartIsSound(valid: string -> string)
    ensures Invariant(valid, START)
  {
  }

  lemma {:induction false} SelectsAll(kept: seq<nat>, history: seq<Line>, lines: seq<Line>)
    requires Selects(kept, history, lines) && |kept| == |history|
    ensures lines == history
  {
    forall i | 0 <= i < |kept| ensures kept[i] == i {
      IndicesGrow(kept, i);
      IndicesStayBelow(kept, |history|, i);
    }
  }

  lemma {:induction false} IndicesGrow(kept: seq<nat>, i: nat)
    requires i < |kept| && (forall i, j :: 0 <= i < j < |kept| ==> kept[i] < kept[j])
    ensures kept[i] >= i
  {
    if i > 0 { IndicesGrow(kept, i - 1); }
  }

  lemma {:induction false} IndicesStayBelow(kept: seq<nat>, n: nat, i: nat)
    requires i < |kept| && (forall i, j :: 0 <= i < j < |kept| ==> kept[i] < kept[j])
    requires forall i :: 0 <= i < |kept| ==> kept[i] < n
    ensures kept[i] <= n - (|kept| - i)
    decreases |kept| - i
  {
    if i < |kept| - 1 { IndicesStayBelow(kept, n, i + 1); }
  }

  /** Only appended lines are ever shown, and a level and text that are shown were appended that way. */
  lemma {:induction false} OnlyAppendedIsShown(valid: string -> string, follow: bool, events: seq<Event>, i: nat)
    requires Run(valid, follow, START, events).Some? && i < |Run(valid, follow, START, events).value.model.logs|
    ensures Append(Run(valid, follow, START, events).value.model.logs[i]) in events
  {
    hide TelemetryAccounted, ResultsAccounted, ViewsOrdered, Run;
    StartIsSound(valid);
    RunKeepsInvariant(valid, follow, START, events);
    var s := Run(valid, follow, START, events).value;
    assert Kept(s)[|s.evicted| + i] == s.model.logs[i];
    HistoryIsAppended(valid, follow, START, events, s.kept[|s.evicted| + i]);
  }

  lemma {:induction false} HistoryIsAppended(valid: string -> string, follow: bool, s: System, events: seq<Event>,
          k: nat)
    requires Run(valid, follow, s, events).Some? && |s.history| <= k < |Run(valid, follow, s, events).value.history|
    ensures Append(Run(valid, follow, s, events).value.history[k]) in events
    decreases |events|
  {
    hide ResultText, Coalesced, Received, WithView;
    if events != [] {
      var t := Next(valid, follow, s, events[0]);
      HistoryGrows(valid, follow, t, events[1..]);
      if k >= |t.history| {
        HistoryIsAppended(valid, follow, t, events[1..], k);
        assert events == [events[0]] + events[1..];
      }
    }
  }

  lemma {:induction false} HistoryGrows(valid: string -> string, follow: bool, s: System, events: seq<Event>)
    requires Run(valid, follow, s, events).Some?
    ensures s.history <= Run(valid, follow, s, events).value.history
    decreases |events|
  {
    hide ResultText, Coalesced, Received, WithView;
    if events != [] { HistoryGrows(valid, follow, Next(valid, follow, s, events[0]), events[1..]); }
  }

  predicate SameSnapshot(v: View, w: View) {
    v.(stage := "", completed := 0, total := 0) == w.(stage := "", completed := 0, total := 0)
  }

  /** A delivered snapshot is shown exactly when it does not go back within the shown workflow. */
  lemma {:induction false} ShownExactly(valid: string -> string, follow: bool, s: System)
    requires Invariant(valid, s) && s.flight.Some? && s.flight.value.view.Some?
    ensures var v := s.flight.value.view.value;
      SameSnapshot(Next(valid, follow, s, Deliver).model.view,
        if v.workflow != s.model.view.workflow || v.revision >= s.model.view.revision then v else s.model.view)
  {
    hide LogsAccounted, TelemetryAccounted, ResultsAccounted, Concerning, Last;
  }

  /** No workflow's revision ever goes down in what the bridge takes. */
  ghost predicate RevisionsGrow(taken: seq<View>) {
    forall i, j :: 0 <= i < j < |taken| && taken[i].workflow == taken[j].workflow ==>
      taken[i].revision <= taken[j].revision
  }

  /** Where the shown, travelling and latest snapshots stand in what the bridge has taken. */
  ghost predicate CatchesUp(s: System) {
    var last := |s.taken| - 1;
    && s.taken != [] && s.taken[last] == s.bridge.latest
    && 0 <= s.shown <= last && SameSnapshot(s.taken[s.shown], s.model.view)
    && (if s.flight.Some? && s.flight.value.view.Some? then
          && s.shown <= s.travelling <= last && s.taken[s.travelling] == s.flight.value.view.value
          && (s.bridge.view.None? ==> s.travelling == last)
        else s.bridge.view.None? ==> s.shown == last)
  }

  lemma {:induction false} StepCatchesUp(valid: string -> string, follow: bool, s: System, e: Event)
    requires Enabled(s, e)
    requires ViewsOrdered(s) && CatchesUp(s) && RevisionsGrow(Next(valid, follow, s, e).taken)
    ensures CatchesUp(Next(valid, follow, s, e))
  {
    hide ResultText, Coalesced, Concerning, Last;
  }

  lemma {:induction false} TakenGrows(valid: string -> string, follow: bool, s: System, events: seq<Event>)
    requires Run(valid, follow, s, events).Some?
    ensures s.taken <= Run(valid, follow, s, events).value.taken
    decreases |events|
  {
    hide ResultText, Coalesced, Received, WithView;
    if events != [] {
      TakenGrows(valid, follow, Next(valid, follow, s, events[0]), events[1..]);
    }
  }

  lemma {:induction false} RunCatchesUp(valid: string -> string, follow: bool, s: System, events: seq<Event>)
    requires ViewsOrdered(s) && CatchesUp(s) && Run(valid, follow, s, events).Some?
    requires RevisionsGrow(Run(valid, follow, s, events).value.taken)
    ensures CatchesUp(Run(valid, follow, s, events).value)
    decreases |events|
  {
    hide ViewsOrdered, Next, SameSnapshot;
    if events != [] {
      var t := Next(valid, follow, s, events[0]);
      TakenGrows(valid, follow, t, events[1..]);
      StepKeepsViews(valid, follow, s, events[0]);
      StepCatchesUp(valid, follow, s, events[0]);
      RunCatchesUp(valid, follow, t, events[1..]);
    }
  }

  /** While revisions only grow, the model shows the latest snapshot as soon as none is pending or in flight. */
  lemma {:induction false} ModelCatchesUp(valid: string -> string, follow: bool, events: seq<Event>)
    requires Run(valid, follow, START, events).Some?
    ensures var s := Run(valid, follow, START, events).value;
      RevisionsGrow(s.taken) && s.flight.None? && s.bridge.view.None? ==> SameSnapshot(s.model.view, s.bridge.latest)
  {
    hide Run, RevisionsGrow;
    StartIsSound(valid);
    assert CatchesUp(START);
    if RevisionsGrow(Run(valid, follow, START, events).value.taken) {
      RunCatchesUp(valid, follow, START, events);
    }
  }

  /**
   * Otherwise it need not: the bridge compares revisions within an item only, the model within a workflow. Here the
   * snapshot that opens the second item is replaced by the next one before the model receives it.
   */
  lemma {:induction false} StaleSnapshotCanStay(valid: string -> string)
    ensures var first := EMPTY_VIEW.(item := 1, workflow := "w", revision := 5);
      var second := EMPTY_VIEW.(item := 2, workflow := "w", revision := 1);
      var events := [Publish(first), Drain, Deliver, Publish(EMPTY_VIEW.(item := 2)), Publish(second), Drain, Deliver];
      var s := Run(valid, true, START, events);
      && s.Some? && s.value.flight.None? && s.value.bridge.view.None?
      && s.value.bridge.latest == second && s.value.model.view == first
  {
    hide ResultText, Last, Coalesced;
    var first := EMPTY_VIEW.(item := 1, workflow := "w", revision := 5);
    var opening := EMPTY_VIEW.(item := 2);
    var second := EMPTY_VIEW.(item := 2, workflow := "w", revision := 1);
    var s1 := Next(valid, true, START, Publish(first));
    var s2 := Next(valid, true, s1, Drain);
    var s3 := Next(valid, true, s2, Deliver);
    var s4 := Next(valid, true, s3, Publish(opening));
    var s5 := Next(valid, true, s4, Publish(second));
    var s6 := Next(valid, true, s5, Drain);
    var s7 := Next(valid, true, s6, Deliver);
    assert s3.model.view == first && s4.bridge.view == Some(opening) && s5.bridge.view == Some(second);
    assert s7.model.view == first && s7.bridge.latest == second;
    hide Next;
    assert Run(valid, true, s7, []) == Some(s7);
    assert Run(valid, true, s6, [Deliver]) == Some(s7);
    assert Run(valid, true, s5, [Drain, Deliver]) == Some(s7);
    assert Run(valid, true, s4, [Publish(second), Drain, Deliver]) == Some(s7);
    assert Run(valid, true, s3, [Publish(opening), Publish(second), Drain, Deliver]) == Some(s7);
    assert Run(valid, true, s2, [Deliver, Publish(opening), Publish(second), Drain, Deliver]) == Some(s7);
    assert Run(valid, true, s1, [Drain, Deliver, Publish(opening), Publish(second), Drain, Deliver]) == Some(s7);
  }
}
