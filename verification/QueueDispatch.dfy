/** How often callbacks run (cmd/upbrr/named_queue.go): once in a session, and never less often than attempts tell. */
module QueueDispatch {
  import opened Text
  import opened QueueModel
  import opened QueueRuns

  // ---- The order of a session ----

  predicate Unfinished(items: seq<Item>, path: string) {
    exists i :: 0 <= i < |items| && items[i].path == path && items[i].status != "completed"
  }

  /** Members waiting in a session: none twice, and none that is completed. */
  ghost predicate Queued(inv: Inventory, todo: seq<string>) {
    NoRepeats(todo) && forall p :: p in todo ==> Unfinished(inv.items, p)
  }

  /** The member being processed is running and does not wait again. */
  ghost predicate Current(inv: Inventory, i: nat, rest: seq<string>) {
    && i < |inv.items| && inv.items[i].status == "running"
    && inv.items[i].path !in rest && Queued(inv, rest)
  }

  ghost predicate PurposeInOrder(inv: Inventory, why: Purpose) {
    match why
    case Opening(_, _) => true
    case Starting(i, rest) => Current(inv, i, rest)
    case Finishing(_, rest) => Queued(inv, rest)
  }

  ghost predicate InOrder(w: World) {
    match w.process
    case Down => true
    case Saving(inv, why) => PurposeInOrder(inv, why)
    case Renamed(inv, why) => PurposeInOrder(inv, why)
    case Idle(inv, todo) => Queued(inv, todo)
    case Started(inv, i, todo) => Current(inv, i, todo)
    case Working(inv, i, todo) => Current(inv, i, todo)
  }

  lemma {:induction false} SelectionHasNoRepeats(e: Paths, items: seq<Item>, retry: bool)
    requires Equivalence(e) && Distinct(e, items)
    ensures NoRepeats(SelectedPaths(items, retry))
  {
    if items != [] {
      assert forall i, j :: 0 <= i < j < |items[1..]| ==> !e.same(items[1..][i].path, items[1..][j].path);
      SelectionHasNoRepeats(e, items[1..], retry);
      assert e.same(items[0].path, items[0].path);
      assert items[0].path !in SelectedPaths(items[1..], retry);
    }
  }

  lemma {:induction false} SelectionIsQueued(e: Paths, inv: Inventory, retry: bool, limit: int)
    requires Equivalence(e) && Distinct(e, inv.items)
    ensures Queued(inv, Limited(SelectedPaths(inv.items, retry), limit))
  {
    SelectionHasNoRepeats(e, inv.items, retry);
    forall p | p in SelectedPaths(inv.items, retry) ensures Unfinished(inv.items, p) {
      var i :| 0 <= i < |inv.items| && inv.items[i].path == p && Selected(inv.items[i], retry);
    }
  }

  lemma {:induction false} QueuedAfterRewrite(inv: Inventory, i: nat, item: Item, todo: seq<string>)
    requires Queued(inv, todo) && i < |inv.items| && item.path == inv.items[i].path && item.path !in todo
    ensures Queued(WithItem(inv, i, item), todo)
  {
    var after := WithItem(inv, i, item);
    forall p | p in todo ensures Unfinished(after.items, p) {
      var k :| 0 <= k < |inv.items| && inv.items[k].path == p && inv.items[k].status != "completed";
      assert after.items[k] == inv.items[k];
    }
  }

  /** The next member is found where it is. */
  lemma {:induction false} NextMember(e: Paths, inv: Inventory, todo: seq<string>) returns (k: nat)
    requires Equivalence(e) && Distinct(e, inv.items) && Queued(inv, todo) && todo != []
    ensures k < |inv.items| && inv.items[k].path == todo[0] && inv.items[k].status != "completed"
    ensures IndexOf(e, inv.items, todo[0]) == k && todo[0] !in todo[1..] && Queued(inv, todo[1..])
  {
    assert todo[0] in todo && todo == [todo[0]] + todo[1..];
    k :| 0 <= k < |inv.items| && inv.items[k].path == todo[0] && inv.items[k].status != "completed";
    IndexOfMember(e, inv.items, k);
  }

  lemma {:induction false} StepKeepsOrder(first: seq<Item>, e: Paths, name: string, w: World, a: Action, w': World)
    requires Equivalence(e) && Invariant(first, e, name, w) && InOrder(w) && Step(e, name, w, a, w')
    ensures InOrder(w')
  {
    hide Queued, Limited, SelectedPaths, IndexOf, Equivalence;
    VisibleSurvives(w.disk);
    match a
    case Barrier =>
      if w.process.why.Opening? { SelectionIsQueued(e, w.process.inv, w.process.why.retry, w.process.why.limit); }
    case Begin(now) =>
      var inv, todo := w.process.inv, w.process.todo;
      var k := NextMember(e, inv, todo);
      QueuedAfterRewrite(inv, k, Begun(inv.items[k], now), todo[1..]);
    case Finish(outcome, err, now) =>
      var inv, i := w.process.inv, w.process.index;
      QueuedAfterRewrite(inv, i, Ended(inv.items[i], outcome, err, now), w.process.todo);
    case _ =>
  }

  lemma {:induction false} BehaviorKeepsOrder(e: Paths, name: string, worlds: seq<World>, actions: seq<Action>, k: nat)
    requires Equivalence(e) && Behavior(e, name, worlds, actions) && k < |worlds|
    ensures InOrder(worlds[k])
  {
    hide Step, Invariant, InOrder;
    if k > 0 {
      BehaviorKeepsOrder(e, name, worlds, actions, k - 1);
      BehaviorKeepsInvariant(e, name, worlds, actions, k - 1);
      StepKeepsOrder(FirstItems(worlds[0]), e, name, worlds[k - 1], actions[k - 1], worlds[k]);
    } else {
      hide *;
      InitialIsInOrder(e, name, worlds, actions);
    }
  }

  lemma InitialIsInOrder(e: Paths, name: string, worlds: seq<World>, actions: seq<Action>)
    requires Behavior(e, name, worlds, actions)
    ensures |worlds| > 0 && worlds[0].process.Down? && InOrder(worlds[0])
  {
  }

  // ---- At most once ----

  ghost predicate NotYet(start: map<string, nat>, runs: map<string, nat>, paths: seq<string>) {
    forall p :: p in paths ==> Runs(runs, p) == Runs(start, p)
  }

  ghost predicate PurposeOnce(start: map<string, nat>, inv: Inventory, why: Purpose, runs: map<string, nat>) {
    match why
    case Opening(retry, _) => NotYet(start, runs, SelectedPaths(inv.items, retry))
    case Starting(i, rest) => i < |inv.items| && NotYet(start, runs, [inv.items[i].path] + rest)
    case Finishing(_, rest) => NotYet(start, runs, rest)
  }

  /** No callback has run twice since the runs were `start`, and none that is waiting has run since. */
  ghost predicate OnceSince(start: map<string, nat>, w: World) {
    && (forall p :: Runs(w.runs, p) <= Runs(start, p) + 1)
    && match w.process
       case Down => true
       case Saving(inv, why) => PurposeOnce(start, inv, why, w.runs)
       case Renamed(inv, why) => PurposeOnce(start, inv, why, w.runs)
       case Idle(_, todo) => NotYet(start, w.runs, todo)
       case Started(inv, i, todo) => i < |inv.items| && NotYet(start, w.runs, [inv.items[i].path] + todo)
       case Working(_, _, todo) => NotYet(start, w.runs, todo)
  }

  lemma {:induction false} BeginKeepsOnce(start: map<string, nat>, first: seq<Item>, e: Paths, name: string, w: World,
          now: int, w': World)
    requires Equivalence(e) && Invariant(first, e, name, w) && InOrder(w) && OnceSince(start, w)
    requires Step(e, name, w, Begin(now), w')
    ensures OnceSince(start, w')
  {
    hide IndexOf, Queued, Equivalence;
    var inv, todo := w.process.inv, w.process.todo;
    VisibleSurvives(w.disk);
    var k := NextMember(e, inv, todo);
    assert [todo[0]] + todo[1..] == todo;
  }

  lemma {:induction false} InvokeKeepsOnce(start: map<string, nat>, e: Paths, name: string, w: World, w': World)
    requires InOrder(w) && OnceSince(start, w) && Step(e, name, w, Invoke, w')
    ensures OnceSince(start, w')
  {
    var path := w.process.inv.items[w.process.index].path;
    assert path in [path] + w.process.todo;
    forall p ensures Runs(w'.runs, p) == if p == path then Runs(w.runs, p) + 1 else Runs(w.runs, p) {}
  }

  lemma {:induction false} StepKeepsOnce(start: map<string, nat>, first: seq<Item>, e: Paths, name: string, w: World,
          a: Action, w': World)
    requires Equivalence(e) && Invariant(first, e, name, w) && InOrder(w) && OnceSince(start, w)
    requires Step(e, name, w, a, w') && (a.Open? ==> OnceSince(start, w'))
    ensures OnceSince(start, w')
  {
    hide InOrder, Invariant;
    match a
    case Begin(now) => BeginKeepsOnce(start, first, e, name, w, now, w');
    case Invoke => InvokeKeepsOnce(start, e, name, w, w');
    case _ =>
  }

  ghost predicate Unretried(actions: seq<Action>) {
    forall i :: 0 <= i < |actions| ==> (actions[i].Open? ==> !actions[i].retry)
  }

  /** Without retry, what an opening selects has never run. */
  lemma {:induction false} OpeningIsFresh(first: seq<Item>, e: Paths, name: string, w: World, a: Action, w': World)
    requires Equivalence(e) && Invariant(first, e, name, w) && OnceSince(map[], w) && Step(e, name, w, a, w')
    requires a.Open? && !a.retry
    ensures OnceSince(map[], w')
  {
    hide Opened, Acceptable, Before;
    OpenedIsSound(first, e, name, w, a.root, a.refresh, a.found, a.now);
    var items := w'.process.inv.items;
    forall p | p in SelectedPaths(items, false) ensures Runs(w.runs, p) == 0 {
      var i :| 0 <= i < |items| && items[i].path == p && Selected(items[i], false);
      assert Counted(first, items[i], w.runs);
    }
  }

  /** Over all sessions that do not retry, crashes included, no callback runs twice. */
  lemma {:induction false} DispatchedAtMostOnce(e: Paths, name: string, worlds: seq<World>, actions: seq<Action>,
          k: nat)
    requires Equivalence(e) && Behavior(e, name, worlds, actions) && Unretried(actions) && k < |worlds|
    ensures OnceSince(map[], worlds[k]) && forall p :: Runs(worlds[k].runs, p) <= 1
  {
    hide Step, Invariant, InOrder;
    if k > 0 {
      var first := FirstItems(worlds[0]);
      DispatchedAtMostOnce(e, name, worlds, actions, k - 1);
      BehaviorKeepsInvariant(e, name, worlds, actions, k - 1);
      BehaviorKeepsOrder(e, name, worlds, actions, k - 1);
      if actions[k - 1].Open? { OpeningIsFresh(first, e, name, worlds[k - 1], actions[k - 1], worlds[k]); }
      StepKeepsOnce(map[], first, e, name, worlds[k - 1], actions[k - 1], worlds[k]);
    }
  }

  /** With retry too, no callback runs twice in one session: from `j` on nothing is opened but, at most, at `j`. */
  lemma {:induction false} OncePerSession(e: Paths, name: string, worlds: seq<World>, actions: seq<Action>, j: nat,
          k: nat)
    requires Equivalence(e) && Behavior(e, name, worlds, actions) && j <= k < |worlds| && worlds[j].process.Down?
    requires forall i :: j < i < k ==> !actions[i].Open?
    ensures OnceSince(worlds[j].runs, worlds[k])
    ensures forall p :: Runs(worlds[k].runs, p) <= Runs(worlds[j].runs, p) + 1
    decreases k
  {
    hide Step, Invariant, InOrder;
    if k > j {
      OncePerSession(e, name, worlds, actions, j, k - 1);
      BehaviorKeepsInvariant(e, name, worlds, actions, k - 1);
      BehaviorKeepsOrder(e, name, worlds, actions, k - 1);
      if actions[k - 1].Open? { OpeningRunsNothing(e, name, worlds[j], actions[j], worlds[k]); }
      StepKeepsOnce(worlds[j].runs, FirstItems(worlds[0]), e, name, worlds[k - 1], actions[k - 1], worlds[k]);
    }
  }

  lemma OpeningRunsNothing(e: Paths, name: string, w: World, a: Action, w': World)
    requires a.Open? && Step(e, name, w, a, w')
    ensures OnceSince(w.runs, w')
  {
  }

  // ---- Completed members ----

  predicate Done(items: seq<Item>, path: string) {
    HasMember(items, path) && forall i :: 0 <= i < |items| && items[i].path == path ==> items[i].status == "completed"
  }

  /** The member is completed wherever it is stored, and has not run. */
  ghost predicate StaysDone(path: string, w: World) {
    && Runs(w.runs, path) == 0
    && (forall v :: Survives(w.disk, v) ==> v.Some? && Done(v.value.items, path))
    && (w.process.Saving? ==> Done(w.process.inv.items, path))
  }

  lemma {:induction false} OpenedIsDone(e: Paths, stored: Inventory, name: string, root: string, refresh: bool,
          found: seq<string>, now: int, path: string)
    requires Equivalence(e) && Done(stored.items, path)
    requires Distinct(e, Opened(e, Some(stored), name, root, refresh, found, now).items)
    ensures Done(Opened(e, Some(stored), name, root, refresh, found, now).items, path)
  {
    hide Equivalence, IndexOf, Merged, Distinct;
    var grown := Opened(e, Some(stored), name, root, refresh, found, now).items;
    MergedAppendsFresh(e, Interrupted(stored.items), found, now);
    var j :| 0 <= j < |stored.items| && stored.items[j].path == path;
    assert Interrupted(stored.items) <= grown;
    assert grown[j] == Interrupted(stored.items)[j] == stored.items[j];
    forall i | 0 <= i < |grown| && grown[i].path == path ensures grown[i].status == "completed" {
      OnlyMember(e, grown, i, j);
    }
  }

  lemma {:induction false} OpeningStaysDone(first: seq<Item>, e: Paths, name: string, path: string, w: World, a: Action,
          w': World)
    requires Equivalence(e) && Invariant(first, e, name, w) && StaysDone(path, w) && Step(e, name, w, a, w') && a.Open?
    ensures StaysDone(path, w')
  {
    hide Equivalence, Opened, Done, Before, Distinct;
    VisibleSurvives(w.disk);
    OpenedIsSound(first, e, name, w, a.root, a.refresh, a.found, a.now);
    OpenedIsDone(e, Visible(w.disk).value, name, a.root, a.refresh, a.found, a.now, path);
  }

  lemma {:induction false} DoneAfterRewrite(inv: Inventory, i: nat, item: Item, path: string)
    requires Done(inv.items, path) && i < |inv.items| && item.path == inv.items[i].path && item.path != path
    ensures Done(WithItem(inv, i, item).items, path)
  {
    var after := WithItem(inv, i, item).items;
    var j :| 0 <= j < |inv.items| && inv.items[j].path == path;
    assert after[j].path == path;
  }

  lemma {:induction false} StepKeepsDone(first: seq<Item>, e: Paths, name: string, path: string, w: World, a: Action,
          w': World)
    requires Equivalence(e) && Invariant(first, e, name, w) && InOrder(w) && StaysDone(path, w)
    requires Step(e, name, w, a, w')
    ensures StaysDone(path, w')
  {
    hide Done, Queued, Sound, Armed, Equivalence, IndexOf;
    VisibleSurvives(w.disk);
    match a
    case Open(_, _, _, _, _, _) => OpeningStaysDone(first, e, name, path, w, a, w');
    case Begin(now) =>
      var inv, todo := w.process.inv, w.process.todo;
      SoundIsDistinct(first, e, name, inv, w.runs);
      var k := NextMember(e, inv, todo);
      NotDone(inv.items, k, path);
      DoneAfterRewrite(inv, k, Begun(inv.items[k], now), path);
    case Invoke => NotDone(w.process.inv.items, w.process.index, path);
    case Finish(outcome, err, now) =>
      var inv, i := w.process.inv, w.process.index;
      NotDone(inv.items, i, path);
      DoneAfterRewrite(inv, i, Ended(inv.items[i], outcome, err, now), path);
    case _ =>
  }

  lemma SoundIsDistinct(first: seq<Item>, e: Paths, name: string, inv: Inventory, runs: map<string, nat>)
    requires Sound(first, e, name, inv, runs)
    ensures Distinct(e, inv.items)
  {
  }

  lemma NotDone(items: seq<Item>, i: nat, path: string)
    requires Done(items, path) && i < |items| && items[i].status != "completed"
    ensures items[i].path != path
  {
  }

  lemma {:induction false} CompletedNeverRuns(e: Paths, name: string, worlds: seq<World>, actions: seq<Action>, k: nat,
          path: string)
    requires Equivalence(e) && Behavior(e, name, worlds, actions) && k < |worlds| && Done(FirstItems(worlds[0]), path)
    ensures StaysDone(path, worlds[k])
  {
    hide Step, Invariant, InOrder, Done;
    if k > 0 {
      CompletedNeverRuns(e, name, worlds, actions, k - 1, path);
      BehaviorKeepsInvariant(e, name, worlds, actions, k - 1);
      BehaviorKeepsOrder(e, name, worlds, actions, k - 1);
      StepKeepsDone(FirstItems(worlds[0]), e, name, path, worlds[k - 1], actions[k - 1], worlds[k]);
    } else {
      NoMembers(path);
    }
  }

  lemma NoMembers(path: string)
    ensures !Done([], path)
  {
  }

  // ---- Which members can have fewer attempts than runs ----

  lemma {:induction false} OneMoreStep(e: Paths, name: string, worlds: seq<World>, actions: seq<Action>, a: Action,
          w: World)
    requires Behavior(e, name, worlds, actions) && Step(e, name, worlds[|worlds| - 1], a, w)
    ensures Behavior(e, name, worlds + [w], actions + [a])
  {
    hide Step, Initial;
    var more, taken := worlds + [w], actions + [a];
    forall i | 0 <= i < |taken| ensures Step(e, name, more[i], taken[i], more[i + 1]) {
      if i < |actions| {
        assert Step(e, name, worlds[i], actions[i], worlds[i + 1]);
      }
    }
  }

  ghost predicate AreSteps(e: Paths, name: string, w: World, steps: seq<(Action, World)>) {
    forall i :: 0 <= i < |steps| ==> Step(e, name, if i == 0 then w else steps[i - 1].1, steps[i].0, steps[i].1)
  }

  lemma NthStep(e: Paths, name: string, w: World, steps: seq<(Action, World)>, n: nat)
    requires AreSteps(e, name, w, steps) && n < |steps|
    ensures Step(e, name, if n == 0 then w else steps[n - 1].1, steps[n].0, steps[n].1)
  {
  }

  lemma {:induction false} MoreSteps(e: Paths, name: string, worlds: seq<World>, actions: seq<Action>,
          steps: seq<(Action, World)>)
    returns (more: seq<World>, taken: seq<Action>)
    requires Behavior(e, name, worlds, actions) && |worlds| == |actions| + 1
    requires AreSteps(e, name, worlds[|worlds| - 1], steps)
    ensures Behavior(e, name, more, taken) && |more| == |taken| + 1 && worlds <= more
    ensures more[|more| - 1] == if steps == [] then worlds[|worlds| - 1] else steps[|steps| - 1].1
  {
    hide Step, Behavior;
    more, taken := worlds, actions;
    for n := 0 to |steps|
      invariant Behavior(e, name, more, taken) && |more| == |taken| + 1 && worlds <= more
      invariant more[|more| - 1] == if n == 0 then worlds[|worlds| - 1] else steps[n - 1].1
    {
      NthStep(e, name, worlds[|worlds| - 1], steps, n);
      OneMoreStep(e, name, more, taken, steps[n].0, steps[n].1);
      more, taken := more + [steps[n].1], taken + [steps[n].0];
    }
  }

  const COMPLETED := Outcome("completed", [], "")

  function BegunAt(inv: Inventory, i: nat): Inventory
    requires i < |inv.items|
  {
    WithItem(inv, i, Begun(inv.items[i], 0))
  }

  function EndedAt(inv: Inventory, i: nat): Inventory
    requires i < |inv.items|
  {
    WithItem(inv, i, Ended(inv.items[i], COMPLETED, NoError, 0))
  }

  function OneMoreRun(runs: map<string, nat>, path: string): map<string, nat> { runs[path := Runs(runs, path) + 1] }

  /** How member `i` is processed when it is next: `start`, the callback, `finish`, each checkpoint in two steps. */
  function ItemSteps(inv: Inventory, i: nat, rest: seq<string>, runs: map<string, nat>): seq<(Action, World)>
    requires i < |inv.items|
  {
    var begun := BegunAt(inv, i);
    var ended := EndedAt(begun, i);
    var after := OneMoreRun(runs, inv.items[i].path);
    [(Begin(0), World(Disk(Some(inv), []), runs, Saving(begun, Starting(i, rest)))),
     (Action.Rename, World(Disk(Some(inv), [begun]), runs, Renamed(begun, Starting(i, rest)))),
     (Action.Barrier, World(Disk(Some(begun), []), runs, Started(begun, i, rest))),
     (Invoke, World(Disk(Some(begun), []), after, Working(begun, i, rest))),
     (Action.Finish(COMPLETED, NoError, 0), World(Disk(Some(begun), []), after, Saving(ended, Finishing(i, rest)))),
     (Action.Rename, World(Disk(Some(begun), [ended]), after, Renamed(ended, Finishing(i, rest)))),
     (Action.Barrier, World(Disk(Some(ended), []), after, Idle(ended, rest)))]
  }

  lemma {:induction false} ItemStepsAreSteps(e: Paths, name: string, inv: Inventory, i: nat, todo: seq<string>,
          runs: map<string, nat>)
    requires i < |inv.items| && todo != [] && IndexOf(e, inv.items, todo[0]) == i
    ensures var steps := ItemSteps(inv, i, todo[1..], runs);
      AreSteps(e, name, World(Disk(Some(inv), []), runs, Idle(inv, todo)), steps)
  {
    hide IndexOf, Begun, Ended, Opened, Acceptable, SelectedPaths, Limited;
    var steps := ItemSteps(inv, i, todo[1..], runs);
    var w := World(Disk(Some(inv), []), runs, Idle(inv, todo));
    assert Step(e, name, w, steps[0].0, steps[0].1);
    assert Step(e, name, steps[0].1, steps[1].0, steps[1].1);
    assert Step(e, name, steps[1].1, steps[2].0, steps[2].1);
    assert BegunAt(inv, i).items[i].path == inv.items[i].path by { BegunKeepsPath(inv.items[i]); }
    assert Step(e, name, steps[2].1, steps[3].0, steps[3].1);
    assert Step(e, name, steps[3].1, steps[4].0, steps[4].1);
    assert Step(e, name, steps[4].1, steps[5].0, steps[5].1);
    assert Step(e, name, steps[5].1, steps[6].0, steps[6].1);
  }

  lemma BegunKeepsPath(item: Item)
    ensures Begun(item, 0).path == item.path && Begun(item, 0).attempts == item.attempts + 1
    ensures Ended(Begun(item, 0), COMPLETED, NoError, 0).path == item.path
    ensures Ended(Begun(item, 0), COMPLETED, NoError, 0).attempts == item.attempts + 1
  {
  }

  /** The driver, idle, processes the next member. */
  lemma {:induction false} RunNext(e: Paths, name: string, worlds: seq<World>, actions: seq<Action>)
    returns (i: nat, more: seq<World>, taken: seq<Action>)
    requires Equivalence(e) && Behavior(e, name, worlds, actions) && |worlds| == |actions| + 1
    requires worlds[|worlds| - 1].process.Idle? && worlds[|worlds| - 1].process.todo != []
    ensures var w := worlds[|worlds| - 1];
      var inv, todo := w.process.inv, w.process.todo;
      && Behavior(e, name, more, taken) && |more| == |taken| + 1 && worlds <= more
      && i < |inv.items| && todo[0] !in todo[1..]
      && (forall j :: 0 <= j < |inv.items| ==> (inv.items[j].path == todo[0] <==> j == i))
      && var ended := EndedAt(BegunAt(inv, i), i);
         more[|more| - 1] == World(Disk(Some(ended), []), OneMoreRun(w.runs, todo[0]), Idle(ended, todo[1..]))
  {
    var w := worlds[|worlds| - 1];
    BehaviorKeepsInvariant(e, name, worlds, actions, |worlds| - 1);
    BehaviorKeepsOrder(e, name, worlds, actions, |worlds| - 1);
    VisibleSurvives(w.disk);
    var inv, todo := w.process.inv, w.process.todo;
    assert w == World(Disk(Some(inv), []), w.runs, Idle(inv, todo));
    hide Step, Behavior, Equivalence, IndexOf, Queued, BegunAt, EndedAt;
    i := NextMember(e, inv, todo);
    forall j | 0 <= j < |inv.items| && inv.items[j].path == todo[0] ensures j == i { OnlyMember(e, inv.items, j, i); }
    ItemStepsAreSteps(e, name, inv, i, todo, w.runs);
    more, taken := MoreSteps(e, name, worlds, actions, ItemSteps(inv, i, todo[1..], w.runs));
  }

  /** The driver processes waiting members until member `i` is next. */
  lemma {:induction false} RunUpTo(e: Paths, name: string, worlds: seq<World>, actions: seq<Action>, i: nat)
    returns (more: seq<World>, taken: seq<Action>)
    requires Equivalence(e) && Behavior(e, name, worlds, actions) && |worlds| == |actions| + 1
    requires var w := worlds[|worlds| - 1];
      w.process.Idle? && i < |w.process.inv.items| && w.process.inv.items[i].path in w.process.todo
    ensures Behavior(e, name, more, taken) && |more| == |taken| + 1 && worlds <= more
    ensures var w, m := worlds[|worlds| - 1], more[|more| - 1];
      var path := w.process.inv.items[i].path;
      && m.process.Idle? && i < |m.process.inv.items| && m.process.inv.items[i] == w.process.inv.items[i]
      && m.process.todo != [] && m.process.todo[0] == path && Runs(m.runs, path) == Runs(w.runs, path)
    decreases |worlds[|worlds| - 1].process.todo|
  {
    hide Step, Behavior, Equivalence, Begun, Ended;
    var w := worlds[|worlds| - 1];
    var path := w.process.inv.items[i].path;
    if w.process.todo[0] == path {
      more, taken := worlds, actions;
    } else {
      var k;
      k, more, taken := RunNext(e, name, worlds, actions);
      assert w.process.todo == [w.process.todo[0]] + w.process.todo[1..];
      more, taken := RunUpTo(e, name, more, taken, i);
    }
  }

  /** A run from a stored inventory after which a member has fewer attempts in the file than its callback has runs. */
  ghost predicate FallsShort(e: Paths, name: string, inv: Inventory, path: string, worlds: seq<World>,
          actions: seq<Action>)
  {
    && Behavior(e, name, worlds, actions) && worlds[0] == World(Disk(Some(inv), []), map[], Down)
    && var w := worlds[|worlds| - 1];
       && Runs(w.runs, path) > 0
       && exists v, item :: Survives(w.disk, Some(v)) && item in v.items && item.path == path
            && item.attempts < Runs(w.runs, path)
  }

  /** The opening of a stored inventory, with retry and without a limit. */
  lemma {:induction false} OpenStored(e: Paths, name: string, inv: Inventory)
    returns (worlds: seq<World>, actions: seq<Action>)
    requires Equivalence(e) && Acceptable(e, inv, name, inv.root)
    ensures Behavior(e, name, worlds, actions) && |worlds| == |actions| + 1
    ensures worlds[0] == World(Disk(Some(inv), []), map[], Down)
    ensures var stored := inv.(items := Interrupted(inv.items));
      worlds[|worlds| - 1]
        == World(Disk(Some(stored), []), map[], Idle(stored, SelectedPaths(Interrupted(inv.items), true)))
  {
    var w := World(Disk(Some(inv), []), map[], Down);
    var grown := inv.(items := Interrupted(inv.items));
    assert grown == Opened(e, Some(inv), name, inv.root, false, [], 0);
    var why := Opening(true, 0);
    hide Opened, Interrupted, SelectedPaths, Equivalence;
    var steps := [(Open(inv.root, false, [], true, 0, 0), World(w.disk, map[], Saving(grown, why))),
                  (Action.Rename, World(Disk(Some(inv), [grown]), map[], Renamed(grown, why))),
                  (Action.Barrier, World(Disk(Some(grown), []), map[],
                                         Idle(grown, SelectedPaths(Interrupted(inv.items), true))))];
    assert Behavior(e, name, [w], []);
    assert Step(e, name, w, steps[0].0, steps[0].1);
    assert Step(e, name, steps[0].1, steps[1].0, steps[1].1);
    assert Step(e, name, steps[1].1, steps[2].0, steps[2].1);
    worlds, actions := MoreSteps(e, name, [w], [], steps);
    assert worlds[0] == [w][0];
  }

  /** A member can fall short exactly if it has negative attempts in the file and can still be selected. */
  lemma {:induction false} FallsShortExactly(e: Paths, name: string, inv: Inventory, i: nat)
    requires Equivalence(e) && Acceptable(e, inv, name, inv.root) && i < |inv.items|
    ensures (exists worlds, actions :: FallsShort(e, name, inv, inv.items[i].path, worlds, actions))
      <==> inv.items[i].attempts < 0 && inv.items[i].status != "completed"
  {
    var path := inv.items[i].path;
    if inv.items[i].attempts < 0 && inv.items[i].status != "completed" {
      var worlds, actions := ShortRun(e, name, inv, i);
    }
    forall worlds, actions | FallsShort(e, name, inv, path, worlds, actions)
      ensures inv.items[i].attempts < 0 && inv.items[i].status != "completed"
    {
      OnlyNegativeFallShort(e, name, inv, i, worlds, actions);
    }
  }

  lemma {:induction false} OnlyNegativeFallShort(e: Paths, name: string, inv: Inventory, i: nat, worlds: seq<World>,
          actions: seq<Action>)
    requires Equivalence(e) && Acceptable(e, inv, name, inv.root) && i < |inv.items|
    requires FallsShort(e, name, inv, inv.items[i].path, worlds, actions)
    ensures inv.items[i].attempts < 0 && inv.items[i].status != "completed"
  {
    hide Step, Initial, Equivalence, Acceptable;
    var path := inv.items[i].path;
    var w := worlds[|worlds| - 1];
    var v, item :| Survives(w.disk, Some(v)) && item in v.items && item.path == path
                   && item.attempts < Runs(w.runs, path);
    AttemptsCoverRuns(e, name, worlds, actions, |worlds| - 1, Some(v), path);
    AcceptableIsDistinct(e, inv, name);
    BeforeOfMember(e, inv.items, i);
    if inv.items[i].status == "completed" {
      forall k | 0 <= k < |inv.items| && inv.items[k].path == path ensures inv.items[k].status == "completed" {
        OnlyMember(e, inv.items, k, i);
      }
      CompletedNeverRuns(e, name, worlds, actions, |worlds| - 1, path);
    }
  }

  lemma AcceptableIsDistinct(e: Paths, inv: Inventory, name: string)
    requires Acceptable(e, inv, name, inv.root)
    ensures Distinct(e, inv.items) && forall i :: 0 <= i < |inv.items| ==> KnownStatus(inv.items[i].status)
  {
  }

  lemma {:induction false} ShortRun(e: Paths, name: string, inv: Inventory, i: nat)
    returns (worlds: seq<World>, actions: seq<Action>)
    requires Equivalence(e) && Acceptable(e, inv, name, inv.root) && i < |inv.items|
    requires inv.items[i].attempts < 0 && inv.items[i].status != "completed"
    ensures FallsShort(e, name, inv, inv.items[i].path, worlds, actions)
  {
    hide Step, Behavior, Equivalence, Begun, Ended, Acceptable;
    var path := inv.items[i].path;
    AcceptableIsDistinct(e, inv, name);
    worlds, actions := OpenStored(e, name, inv);
    assert Selected(Interrupted(inv.items)[i], true);
    worlds, actions := RunUpTo(e, name, worlds, actions, i);
    var item := worlds[|worlds| - 1].process.inv.items[i];
    assert item.path == path && item.attempts == inv.items[i].attempts;
    var k;
    k, worlds, actions := RunNext(e, name, worlds, actions);
    assert k == i;
    BegunKeepsPath(item);
    var v := worlds[|worlds| - 1].process.inv;
    assert Survives(worlds[|worlds| - 1].disk, Some(v)) && v.items[i] in v.items;
  }
}
