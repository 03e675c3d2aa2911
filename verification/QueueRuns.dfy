/** What holds in every run of the named queue, over any number of sessions and crashes. */
module QueueRuns {
  import opened Text
  import opened QueueModel

  // ---- Members and edits ----

  lemma {:induction false} IndexOfMember(e: Paths, items: seq<Item>, k: nat)
    requires Equivalence(e) && Distinct(e, items) && k < |items|
    ensures IndexOf(e, items, items[k].path) == k
  {
    assert e.same(items[k].path, items[k].path);
    assert forall j :: 0 <= j < k ==> !e.same(items[j].path, items[k].path);
  }

  lemma KeepsReflexive(a: seq<Item>)
    ensures Keeps(a, a)
  {
  }

  lemma {:induction false} KeepsTransitive(a: seq<Item>, b: seq<Item>, c: seq<Item>)
    requires Keeps(a, b) && Keeps(b, c)
    ensures Keeps(a, c)
  {
    forall i | 0 <= i < |a| ensures a[i].confirmed <= c[i].confirmed {
      assert a[i].confirmed <= b[i].confirmed <= c[i].confirmed;
    }
  }

  /** Rewriting one member in place, as `start` and `finish` do, keeps the checkpoint well formed. */
  lemma {:induction false} RewriteKeeps(e: Paths, items: seq<Item>, i: nat, item: Item)
    requires WellFormed(e, items) && i < |items| && item.path == items[i].path && KnownStatus(item.status)
    requires Keeps([items[i]], [item])
    ensures WellFormed(e, items[i := item]) && Keeps(items, items[i := item])
  {
    assert [items[i]][0] == items[i] && [item][0] == item;
  }

  lemma {:induction false} MergedKeeps(e: Paths, items: seq<Item>, found: seq<string>, now: int)
    requires Equivalence(e) && WellFormed(e, items) && forall i :: 0 <= i < |found| ==> e.isAbs(found[i])
    ensures WellFormed(e, Merged(e, items, found, now)) && items <= Merged(e, items, found, now)
    decreases |found|
  {
    if found != [] {
      var grown := if IndexOf(e, items, found[0]) < 0 then items + [Fresh(found[0], now)] else items;
      assert WellFormed(e, grown);
      hide IndexOf, WellFormed, Fresh, Equivalence;
      MergedKeeps(e, grown, found[1..], now);
    }
  }

  lemma MergedRest(e: Paths, items: seq<Item>, found: seq<string>, now: int)
    requires found != []
    ensures Merged(e, items, found, now)
      == Merged(e, if IndexOf(e, items, found[0]) < 0 then items + [Fresh(found[0], now)] else items, found[1..], now)
  {
    hide IndexOf;
  }

  /** What a refresh appends: fresh members, pending and without attempts, for discovered paths. */
  lemma {:induction false} MergedAppendsFresh(e: Paths, items: seq<Item>, found: seq<string>, now: int)
    ensures items <= Merged(e, items, found, now)
    ensures forall i :: |items| <= i < |Merged(e, items, found, now)| ==>
      var item := Merged(e, items, found, now)[i];
      item.path in found && item == Item(item.path, "pending", 0, [], "", now)
    decreases |found|
  {
    if found != [] {
      hide IndexOf, Merged;
      var grown := if IndexOf(e, items, found[0]) < 0 then items + [Fresh(found[0], now)] else items;
      var r := Merged(e, items, found, now);
      MergedRest(e, items, found, now);
      MergedAppendsFresh(e, grown, found[1..], now);
      forall i | |items| <= i < |r| ensures r[i].path in found && r[i] == Fresh(r[i].path, now) {
        if i < |grown| {
          assert r[i] == grown[i] == Fresh(found[0], now);
        } else {
          assert r[i].path in found[1..];
        }
      }
    }
  }

  /** After a refresh every discovered path is, up to equivalence, that of a member. */
  lemma {:induction false} MergedFindsAll(e: Paths, items: seq<Item>, found: seq<string>, now: int, k: nat)
    requires Equivalence(e) && k < |found|
    ensures IndexOf(e, Merged(e, items, found, now), found[k]) >= 0
    decreases |found|
  {
    hide IndexOf, Merged;
    var first := IndexOf(e, items, found[0]);
    var grown := if first < 0 then items + [Fresh(found[0], now)] else items;
    MergedRest(e, items, found, now);
    if k > 0 {
      MergedFindsAll(e, grown, found[1..], now, k - 1);
    } else {
      MergedAppendsFresh(e, grown, found[1..], now);
      var i := if first < 0 then |items| else first;
      assert e.same(found[0], found[0]) && e.same(grown[i].path, found[0]);
      MemberIsFound(e, Merged(e, items, found, now), i, found[0]);
    }
  }

  lemma MemberIsFound(e: Paths, items: seq<Item>, i: nat, path: string)
    requires i < |items| && e.same(items[i].path, path)
    ensures IndexOf(e, items, path) >= 0
  {
    hide IndexOf;
  }

  // ---- Accounting ----

  /** The attempts that a member had in the first file, where `first` are the members of that file. */
  function Before(first: seq<Item>, path: string): int {
    if first == [] then 0 else if first[0].path == path then first[0].attempts else Before(first[1..], path)
  }

  predicate HasMember(items: seq<Item>, path: string) { exists i :: 0 <= i < |items| && items[i].path == path }

  lemma {:induction false} BeforeOfOthers(first: seq<Item>, path: string)
    requires !HasMember(first, path)
    ensures Before(first, path) == 0
  {
    if first != [] {
      assert forall i :: 0 <= i < |first[1..]| ==> first[1..][i] == first[i + 1];
      BeforeOfOthers(first[1..], path);
    }
  }

  lemma {:induction false} BeforeOfMember(e: Paths, first: seq<Item>, i: nat)
    requires Equivalence(e) && Distinct(e, first) && i < |first|
    ensures Before(first, first[i].path) == first[i].attempts
  {
    if i > 0 {
      assert e.same(first[i].path, first[i].path) && first[i] == first[1..][i - 1];
      BeforeOfMember(e, first[1..], i - 1);
    }
  }

  lemma OnlyMember(e: Paths, items: seq<Item>, i: nat, j: nat)
    requires Equivalence(e) && Distinct(e, items) && i < |items| && j < |items| && items[i].path == items[j].path
    ensures i == j
  {
    assert e.same(items[i].path, items[j].path) && e.same(items[j].path, items[i].path);
  }

  /** Every member has an attempt for each run of its callback, besides those it had in the first file. */
  predicate Counted(first: seq<Item>, item: Item, runs: map<string, nat>) {
    && item.attempts >= Runs(runs, item.path) + Before(first, item.path)
    && (Runs(runs, item.path) > 0 ==> item.status != "pending")
  }

  /** Members are counted; those of the first file and those whose callback ran are all there. */
  ghost predicate Accounts(first: seq<Item>, items: seq<Item>, runs: map<string, nat>) {
    && (forall i :: 0 <= i < |items| ==> Counted(first, items[i], runs))
    && forall p :: Runs(runs, p) > 0 || HasMember(first, p) ==> HasMember(items, p)
  }

  lemma {:induction false} KeepsAccounts(first: seq<Item>, e: Paths, a: seq<Item>, b: seq<Item>, runs: map<string, nat>)
    requires Keeps(a, b) && Accounts(first, a, runs) && Equivalence(e) && Distinct(e, b)
    requires forall i :: |a| <= i < |b| ==> b[i].attempts >= 0
    ensures Accounts(first, b, runs)
  {
    hide Equivalence, Distinct;
    forall i | 0 <= i < |b| ensures Counted(first, b[i], runs) {
      if i < |a| {
        assert Counted(first, a[i], runs);
      } else {
        var p := b[i].path;
        if HasMember(a, p) {
          var j :| 0 <= j < |a| && a[j].path == p;
          OnlyMember(e, b, j, i);
        }
        BeforeOfOthers(first, p);
      }
    }
    forall p | HasMember(a, p) ensures HasMember(b, p) {
      var i :| 0 <= i < |a| && a[i].path == p;
      assert b[i].path == p;
    }
  }

  ghost predicate Sound(first: seq<Item>, e: Paths, name: string, inv: Inventory, runs: map<string, nat>) {
    Acceptable(e, inv, name, inv.root) && Accounts(first, inv.items, runs)
  }

  /** A member about to be processed: recorded as running, with an attempt that no callback has used yet. */
  ghost predicate Armed(first: seq<Item>, inv: Inventory, i: nat, runs: map<string, nat>) {
    && i < |inv.items| && inv.items[i].status == "running"
    && inv.items[i].attempts > Runs(runs, inv.items[i].path) + Before(first, inv.items[i].path)
  }

  ghost predicate PurposeHolds(first: seq<Item>, inv: Inventory, why: Purpose, runs: map<string, nat>) {
    match why
    case Opening(_, _) => true
    case Starting(i, _) => Armed(first, inv, i, runs)
    case Finishing(i, _) => i < |inv.items|
  }

  ghost predicate Invariant(first: seq<Item>, e: Paths, name: string, w: World) {
    && (Survives(w.disk, None) ==> first == [] && forall p :: Runs(w.runs, p) == 0)
    && (forall inv :: Survives(w.disk, Some(inv)) ==> Sound(first, e, name, inv, w.runs))
    && match w.process
       case Down => true
       case Saving(inv, why) =>
         && Sound(first, e, name, inv, w.runs) && PurposeHolds(first, inv, why, w.runs)
         && (Visible(w.disk).Some? ==>
             inv.root == Visible(w.disk).value.root && Keeps(Visible(w.disk).value.items, inv.items))
       case Renamed(inv, why) => Visible(w.disk) == Some(inv) && PurposeHolds(first, inv, why, w.runs)
       case Idle(inv, _) => w.disk == Disk(Some(inv), [])
       case Started(inv, i, _) => w.disk == Disk(Some(inv), []) && Armed(first, inv, i, w.runs)
       case Working(inv, i, _) => w.disk == Disk(Some(inv), []) && i < |inv.items|
  }

  lemma VisibleSurvives(d: Disk)
    ensures Survives(d, Visible(d))
  {
  }

  lemma {:induction false} OpenedIsSound(first: seq<Item>, e: Paths, name: string, w: World, root: string,
          refresh: bool, found: seq<string>, now: int)
    requires Equivalence(e) && Invariant(first, e, name, w) && forall i :: 0 <= i < |found| ==> e.isAbs(found[i])
    ensures var inv := Opened(e, Visible(w.disk), name, root, refresh, found, now);
      && Sound(first, e, name, inv, w.runs)
      && (Visible(w.disk).Some? ==>
          inv.root == Visible(w.disk).value.root && Keeps(Visible(w.disk).value.items, inv.items))
  {
    hide IndexOf, Merged, Before;
    VisibleSurvives(w.disk);
    var stored := Visible(w.disk);
    var inv := Opened(e, stored, name, root, refresh, found, now);
    assert e.same(inv.root, inv.root);
    if stored.None? {
      forall p ensures Before([], p) == 0 { BeforeOfOthers([], p); }
      MergedKeeps(e, [], found, now);
      MergedAppendsFresh(e, [], found, now);
    } else {
      var items := stored.value.items;
      var base := Interrupted(items);
      assert Keeps(items, base);
      MergedKeeps(e, base, found, now);
      MergedAppendsFresh(e, base, found, now);
      if refresh {
        forall i | 0 <= i < |base| ensures base[i] == inv.items[i] {}
      }
      assert Keeps(base, inv.items);
      KeepsTransitive(items, base, inv.items);
      KeepsAccounts(first, e, items, inv.items, w.runs);
    }
  }

  lemma {:induction false} RewriteIsSound(first: seq<Item>, e: Paths, name: string, inv: Inventory, i: nat, item: Item,
          runs: map<string, nat>)
    requires Equivalence(e) && Sound(first, e, name, inv, runs) && i < |inv.items| && item.path == inv.items[i].path
    requires KnownStatus(item.status) && Keeps([inv.items[i]], [item])
    ensures Sound(first, e, name, WithItem(inv, i, item), runs) && Keeps(inv.items, WithItem(inv, i, item).items)
  {
    RewriteKeeps(e, inv.items, i, item);
    KeepsAccounts(first, e, inv.items, WithItem(inv, i, item).items, runs);
  }

  lemma {:induction false} CountOneRun(first: seq<Item>, e: Paths, items: seq<Item>, i: nat, runs: map<string, nat>)
    requires Equivalence(e) && Distinct(e, items) && Accounts(first, items, runs) && i < |items|
    requires items[i].status != "pending"
    requires items[i].attempts > Runs(runs, items[i].path) + Before(first, items[i].path)
    ensures Accounts(first, items, runs[items[i].path := Runs(runs, items[i].path) + 1])
  {
    hide Before;
    var more := runs[items[i].path := Runs(runs, items[i].path) + 1];
    forall k | 0 <= k < |items| ensures Counted(first, items[k], more) {
      assert Counted(first, items[k], runs);
      if items[k].path == items[i].path { OnlyMember(e, items, k, i); }
    }
    assert HasMember(items, items[i].path);
  }

  lemma {:induction false} BeginKeepsInvariant(first: seq<Item>, e: Paths, name: string, w: World, now: int, w': World)
    requires Equivalence(e) && Invariant(first, e, name, w) && Step(e, name, w, Begin(now), w')
    ensures Invariant(first, e, name, w')
  {
    VisibleSurvives(w.disk);
    var inv := w.process.inv;
    var i := IndexOf(e, inv.items, w.process.todo[0]);
    assert Counted(first, inv.items[i], w.runs);
    RewriteIsSound(first, e, name, inv, i, Begun(inv.items[i], now), w.runs);
  }

  lemma {:induction false} FinishKeepsInvariant(first: seq<Item>, e: Paths, name: string, w: World, outcome: Outcome,
          err: AttemptError, now: int, w': World)
    requires Equivalence(e) && Invariant(first, e, name, w) && Step(e, name, w, Finish(outcome, err, now), w')
    ensures Invariant(first, e, name, w')
  {
    VisibleSurvives(w.disk);
    var inv := w.process.inv;
    RewriteIsSound(first, e, name, inv, w.process.index, Ended(inv.items[w.process.index], outcome, err, now), w.runs);
  }

  lemma {:induction false} InvokeKeepsInvariant(first: seq<Item>, e: Paths, name: string, w: World, w': World)
    requires Equivalence(e) && Invariant(first, e, name, w) && Step(e, name, w, Invoke, w')
    ensures Invariant(first, e, name, w')
  {
    VisibleSurvives(w.disk);
    CountOneRun(first, e, w.process.inv.items, w.process.index, w.runs);
  }

  lemma {:induction false} StepKeepsInvariant(first: seq<Item>, e: Paths, name: string, w: World, a: Action, w': World)
    requires Equivalence(e) && Invariant(first, e, name, w) && Step(e, name, w, a, w')
    ensures Invariant(first, e, name, w')
  {
    VisibleSurvives(w.disk);
    match a
    case Open(root, refresh, found, retry, limit, now) => OpenedIsSound(first, e, name, w, root, refresh, found, now);
    case Begin(now) => BeginKeepsInvariant(first, e, name, w, now, w');
    case Invoke => InvokeKeepsInvariant(first, e, name, w, w');
    case Finish(outcome, err, now) => FinishKeepsInvariant(first, e, name, w, outcome, err, now, w');
    case _ => hide Sound, Acceptable, Keeps, Armed;
  }

  /** The members of the file that the first session finds, if there is one. */
  function FirstItems(w: World): seq<Item> { if w.disk.durable.Some? then w.disk.durable.value.items else [] }

  lemma {:induction false} InitialKeepsInvariant(e: Paths, name: string, w: World)
    requires Equivalence(e) && Initial(e, name, w)
    ensures Invariant(FirstItems(w), e, name, w)
  {
    assert forall p :: Runs(w.runs, p) == 0;
    if w.disk.durable.Some? {
      var items := w.disk.durable.value.items;
      forall i | 0 <= i < |items| ensures Counted(items, items[i], w.runs) {
        BeforeOfMember(e, items, i);
      }
    }
  }

  lemma {:induction false} BehaviorKeepsInvariant(e: Paths, name: string, worlds: seq<World>, actions: seq<Action>,
          k: nat)
    requires Equivalence(e) && Behavior(e, name, worlds, actions) && k < |worlds|
    ensures Invariant(FirstItems(worlds[0]), e, name, worlds[k])
  {
    hide Invariant, Step, Initial, FirstItems;
    if k > 0 {
      BehaviorKeepsInvariant(e, name, worlds, actions, k - 1);
      StepKeepsInvariant(FirstItems(worlds[0]), e, name, worlds[k - 1], actions[k - 1], worlds[k]);
    } else {
      InitialKeepsInvariant(e, name, worlds[0]);
    }
  }

  // ---- Main results ----

  /**
   * Whatever a crash leaves behind, a member whose callback ran is still there and not pending, and has an attempt for
   * every run besides those it had in the first file.
   */
  lemma {:induction false} AttemptsCoverRuns(e: Paths, name: string, worlds: seq<World>, actions: seq<Action>, k: nat,
          survivor: Option<Inventory>, p: string)
    requires Equivalence(e) && Behavior(e, name, worlds, actions) && k < |worlds|
    requires Survives(worlds[k].disk, survivor) && Runs(worlds[k].runs, p) > 0
    ensures survivor.Some? && HasMember(survivor.value.items, p)
    ensures forall item :: item in survivor.value.items && item.path == p ==>
      item.status != "pending" && item.attempts >= Runs(worlds[k].runs, p) + Before(FirstItems(worlds[0]), p)
  {
    BehaviorKeepsInvariant(e, name, worlds, actions, k);
    var items := survivor.value.items;
    assert forall i :: 0 <= i < |items| ==> Counted(FirstItems(worlds[0]), items[i], worlds[k].runs);
  }

  /** Whatever a crash leaves behind is acceptable under its own root. */
  lemma {:induction false} EverySurvivorIsAcceptable(e: Paths, name: string, worlds: seq<World>, actions: seq<Action>,
          k: nat, inv: Inventory)
    requires Equivalence(e) && Behavior(e, name, worlds, actions) && k < |worlds| && Survives(worlds[k].disk, Some(inv))
    ensures Acceptable(e, inv, name, inv.root)
  {
    BehaviorKeepsInvariant(e, name, worlds, actions, k);
  }

  /** Between saves the driver's memory is the checkpoint, and the checkpoint is durable. */
  lemma {:induction false} MemoryIsDurableBetweenSaves(e: Paths, name: string, worlds: seq<World>, actions: seq<Action>,
          k: nat)
    requires Equivalence(e) && Behavior(e, name, worlds, actions) && k < |worlds|
    requires worlds[k].process.Idle? || worlds[k].process.Started? || worlds[k].process.Working?
    ensures worlds[k].disk == Disk(Some(worlds[k].process.inv), [])
  {
    BehaviorKeepsInvariant(e, name, worlds, actions, k);
  }

  /** What all survivors and the memory of a process keep of an inventory: its root and its members' progress. */
  ghost predicate AllKeep(inv: Inventory, w: World) {
    && (forall v :: Survives(w.disk, v) ==> v.Some? && v.value.root == inv.root && Keeps(inv.items, v.value.items))
    && (!w.process.Down? ==> w.process.inv.root == inv.root && Keeps(inv.items, w.process.inv.items))
  }

  lemma {:induction false} StepKeepsAll(first: seq<Item>, e: Paths, name: string, inv: Inventory, w: World, a: Action,
          w': World)
    requires Equivalence(e) && Invariant(first, e, name, w) && AllKeep(inv, w) && Step(e, name, w, a, w')
    ensures AllKeep(inv, w')
  {
    VisibleSurvives(w.disk);
    StepKeepsInvariant(first, e, name, w, a, w');
    if w'.process.Saving? {
      KeepsTransitive(inv.items, Visible(w.disk).value.items, w'.process.inv.items);
    }
  }

  /**
   * From the moment a checkpoint is durable, whatever is ever written or survives a crash keeps its root and its
   * members in place and order, never lowers attempts, never makes a member pending again, and only extends
   * confirmed uploads.
   */
  lemma {:induction false} DurableProgressIsKept(e: Paths, name: string, worlds: seq<World>, actions: seq<Action>,
          k: nat, m: nat, inv: Inventory)
    requires Equivalence(e) && Behavior(e, name, worlds, actions) && k <= m < |worlds|
    requires worlds[k].disk == Disk(Some(inv), [])
    ensures AllKeep(inv, worlds[m])
    decreases m
  {
    var first := FirstItems(worlds[0]);
    BehaviorKeepsInvariant(e, name, worlds, actions, m);
    if m == k {
      KeepsReflexive(inv.items);
    } else {
      DurableProgressIsKept(e, name, worlds, actions, k, m - 1, inv);
      BehaviorKeepsInvariant(e, name, worlds, actions, m - 1);
      StepKeepsAll(first, e, name, inv, worlds[m - 1], actions[m - 1], worlds[m]);
    }
  }

  /** Once a checkpoint was durable, every later survivor is accepted under any path equivalent to its root. */
  lemma {:induction false} EverySurvivorReopens(e: Paths, name: string, worlds: seq<World>, actions: seq<Action>,
          k: nat, m: nat, inv: Inventory, root: string, survivor: Option<Inventory>)
    requires Equivalence(e) && Behavior(e, name, worlds, actions) && k <= m < |worlds|
    requires worlds[k].disk == Disk(Some(inv), []) && e.same(inv.root, root) && Survives(worlds[m].disk, survivor)
    ensures survivor.Some? && Acceptable(e, survivor.value, name, root)
  {
    DurableProgressIsKept(e, name, worlds, actions, k, m, inv);
    EverySurvivorIsAcceptable(e, name, worlds, actions, m, survivor.value);
  }

}
