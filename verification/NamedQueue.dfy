/** The queue object and its driver loop (cmd/upbrr/named_queue.go, cmd/upbrr/main.go), refining the transitions. */
module NamedQueue {
  import opened Text
  import opened QueueModel

  /** Where a save fails: anywhere up to and including the rename, or at the metadata barrier after it. */
  datatype Fault = NoFault | BeforeRename | AtBarrier

  function SavedDisk(d: Disk, inv: Inventory, fault: Fault): Disk {
    match fault
    case NoFault => Disk(Some(inv), [])
    case BeforeRename => d
    case AtBarrier => Replaced(d, inv)
  }

  function SavedUnconfirmed(unconfirmed: bool, fault: Fault): bool {
    match fault
    case NoFault => false
    case BeforeRename => unconfirmed
    case AtBarrier => true
  }

  /** The memory after `saveItem`: a failed save is rolled back unless durability is unconfirmed. */
  function SavedInventory(unconfirmed: bool, inv: Inventory, index: nat, previous: Item, fault: Fault): Inventory
    requires index < |inv.items|
  {
    if fault != NoFault && !SavedUnconfirmed(unconfirmed, fault) then WithItem(inv, index, previous) else inv
  }

  /**
   * Starting from memory that differs from the checkpoint only in one edited member, `saveItem` restores
   * agreement exactly when it is not a failure before the rename on top of an already unconfirmed checkpoint
   * (or the edit changed nothing).
   */
  lemma {:induction false} SaveItemAgreesExactly(d: Disk, unconfirmed: bool, inv: Inventory, index: nat, previous: Item,
          fault: Fault)
    requires index < |inv.items| && Visible(d) == Some(WithItem(inv, index, previous))
    ensures Visible(SavedDisk(d, inv, fault)) == Some(SavedInventory(unconfirmed, inv, index, previous, fault))
      <==> !(unconfirmed && fault == BeforeRename) || inv.items[index] == previous
  {
    if inv.items[index] == previous {
      assert WithItem(inv, index, previous) == inv;
    } else {
      assert WithItem(inv, index, previous).items[index] != inv.items[index];
    }
  }

  /** The file at the checkpoint path, with the history of every process that used it. */
  class CheckpointFile {
    const e: Paths
    const name: string
    var disk: Disk
    ghost var worlds: seq<World>
    ghost var actions: seq<Action>

    constructor (e: Paths, name: string, content: Option<Inventory>)
      requires content.Some? ==> Acceptable(e, content.value, name, content.value.root)
      ensures Valid() && Now().process == Down && disk == Disk(content, [])
      ensures this.e == e && this.name == name
    {
      this.e, this.name := e, name;
      disk := Disk(content, []);
      worlds, actions := [World(Disk(content, []), map[], Down)], [];
    }

    ghost predicate Valid()
      reads this
    {
      Behavior(e, name, worlds, actions) && worlds[|worlds| - 1].disk == disk
    }

    ghost function Now(): World
      requires Valid()
      reads this
    {
      worlds[|worlds| - 1]
    }

    /** Records a step that leaves the file itself alone. */
    ghost method Record(a: Action, w: World)
      requires Valid() && Step(e, name, Now(), a, w) && w.disk == disk
      modifies this`worlds, this`actions
      ensures Valid() && Now() == w && old(worlds) <= worlds
    {
      worlds, actions := worlds + [w], actions + [a];
    }

    /** The process ends, with or without an error; the file stays as it is. */
    ghost method Stop()
      requires Valid()
      modifies this`worlds, this`actions
      ensures Valid() && Now() == old(Now()).(process := Down) && old(worlds) <= worlds
    {
      Record(Exit, Now().(process := Down));
    }

    method Rename(inv: Inventory, ghost why: Purpose)
      requires Valid() && Now().process == Saving(inv, why)
      modifies this
      ensures Valid() && disk == Replaced(old(disk), inv) && old(worlds) <= worlds
      ensures Now() == old(Now()).(disk := disk, process := Renamed(inv, why))
    {
      worlds := worlds + [Now().(disk := Replaced(disk, inv), process := Renamed(inv, why))];
      actions := actions + [Action.Rename];
      disk := Replaced(disk, inv);
    }

    method Barrier(inv: Inventory, ghost why: Purpose)
      requires Valid() && Now().process == Renamed(inv, why) && Visible(disk) == Some(inv)
      modifies this
      ensures Valid() && disk == Disk(Some(inv), []) && old(worlds) <= worlds
      ensures Now() == old(Now()).(disk := disk, process := AfterSave(inv, why))
    {
      worlds := worlds + [Now().(disk := Synced(disk), process := AfterSave(inv, why))];
      actions := actions + [Action.Barrier];
      disk := Synced(disk);
    }
  }

  method FindIndex(e: Paths, items: seq<Item>, path: string) returns (i: int)
    ensures i == IndexOf(e, items, path)
  {
    for k := 0 to |items|
      invariant forall j :: 0 <= j < k ==> !e.same(items[j].path, path)
    {
      if e.same(items[k].path, path) { return k; }
    }
    return -1;
  }

  method Validate(e: Paths, inv: Inventory, name: string, root: string) returns (ok: bool)
    ensures ok <==> Acceptable(e, inv, name, root)
  {
    if inv.version != 1 || inv.name != name || !e.same(inv.root, root) { return false; }
    for k := 0 to |inv.items|
      invariant WellFormed(e, inv.items[..k])
    {
      var previous := FindIndex(e, inv.items[..k], inv.items[k].path);
      if !e.isAbs(inv.items[k].path) || previous >= 0 {
        if previous >= 0 { assert e.same(inv.items[previous].path, inv.items[k].path); }
        return false;
      }
      if !KnownStatus(inv.items[k].status) { return false; }
      assert inv.items[..k + 1] == inv.items[..k] + [inv.items[k]];
    }
    assert inv.items[..|inv.items|] == inv.items;
    return true;
  }

  /**
   * What `start` leaves in memory: the begun member, unless there is none or its checkpoint failed before the rename.
   */
  function AfterStart(e: Paths, inv: Inventory, path: string, canceled: bool, now: int, fault: Fault): Inventory {
    var i := IndexOf(e, inv.items, path);
    if canceled || i < 0 || fault == BeforeRename then inv else WithItem(inv, i, Begun(inv.items[i], now))
  }

  function AfterFinish(inv: Inventory, index: nat, outcome: Outcome, err: AttemptError, now: int,
          fault: Fault): Inventory
    requires index < |inv.items|
  {
    if fault == BeforeRename then inv else WithItem(inv, index, Ended(inv.items[index], outcome, err, now))
  }

  class Queue {
    const file: CheckpointFile
    var inventory: Inventory
    var durabilityUnconfirmed: bool

    constructor (file: CheckpointFile, inventory: Inventory)
      ensures this.file == file && this.inventory == inventory && !durabilityUnconfirmed
    {
      this.file, this.inventory, this.durabilityUnconfirmed := file, inventory, false;
    }

    /** Between two saves, with `todo` still to be processed: memory and file agree. */
    ghost predicate Resting(todo: seq<string>)
      reads this, file
    {
      file.Valid() && file.Now().process == Idle(inventory, todo) && file.disk == Disk(Some(inventory), [])
        && !durabilityUnconfirmed
    }

    method Save(fault: Fault, ghost why: Purpose) returns (ok: bool)
      requires file.Valid() && file.Now().process == Saving(inventory, why)
      modifies this`durabilityUnconfirmed, file
      ensures file.Valid() && ok == (fault == NoFault) && old(file.worlds) <= file.worlds
      ensures file.disk == SavedDisk(old(file.disk), inventory, fault)
      ensures durabilityUnconfirmed == SavedUnconfirmed(old(durabilityUnconfirmed), fault)
      ensures file.Now().process == if ok then AfterSave(inventory, why) else Down
      ensures file.Now().runs == old(file.Now().runs)
    {
      if fault == BeforeRename {
        file.Stop();
        return false;
      }
      file.Rename(inventory, why);
      durabilityUnconfirmed := true;
      if fault == AtBarrier {
        file.Stop();
        return false;
      }
      file.Barrier(inventory, why);
      durabilityUnconfirmed := false;
      return true;
    }

    method SaveItem(index: nat, previous: Item, fault: Fault, ghost why: Purpose) returns (ok: bool)
      requires file.Valid() && file.Now().process == Saving(inventory, why) && index < |inventory.items|
      modifies this, file
      ensures file.Valid() && ok == (fault == NoFault) && old(file.worlds) <= file.worlds
      ensures file.disk == SavedDisk(old(file.disk), old(inventory), fault)
      ensures durabilityUnconfirmed == SavedUnconfirmed(old(durabilityUnconfirmed), fault)
      ensures inventory == SavedInventory(old(durabilityUnconfirmed), old(inventory), index, previous, fault)
      ensures file.Now().process == if ok then AfterSave(inventory, why) else Down
      ensures file.Now().runs == old(file.Now().runs)
    {
      ok := Save(fault, why);
      if !ok && !durabilityUnconfirmed {
        inventory := WithItem(inventory, index, previous);
      }
    }

    /** `canceled` stands for a context that is done before or during the membership scan. */
    method Start(path: string, canceled: bool, now: int, fault: Fault, ghost todo: seq<string>)
      returns (index: int, ok: bool)
      requires Resting([path] + todo)
      modifies this, file
      ensures file.Valid() && Visible(file.disk) == Some(inventory) && old(file.worlds) <= file.worlds
      ensures ok <==> !canceled && IndexOf(file.e, old(inventory).items, path) >= 0 && fault == NoFault
      ensures inventory == AfterStart(file.e, old(inventory), path, canceled, now, fault)
      ensures ok ==>
        && index == IndexOf(file.e, old(inventory).items, path) && !durabilityUnconfirmed
        && var before := old(inventory).items[index];
           inventory.items[index]
           == Item(before.path, "running", before.attempts + 1, before.confirmed, before.workflow, now)
      ensures ok ==>
        && file.Now().process == Started(inventory, index, todo) && file.disk == Disk(Some(inventory), [])
      ensures !ok ==> file.Now().process == Down
      ensures file.Now().runs == old(file.Now().runs)
    {
      index := FindIndex(file.e, inventory.items, path);
      if canceled || index < 0 {
        file.Stop();
        return 0, false;
      }
      var previous := inventory.items[index];
      inventory := WithItem(inventory, index, Begun(previous, now));
      SaveItemAgreesExactly(file.disk, durabilityUnconfirmed, inventory, index, previous, fault) by {
        assert WithItem(inventory, index, previous) == old(inventory);
      }
      file.Record(Begin(now), file.Now().(process := Saving(inventory, Starting(index, todo)))) by {
        assert ([path] + todo)[1..] == todo;
      }
      ok := SaveItem(index, previous, fault, Starting(index, todo));
    }

    method Finish(index: nat, outcome: Outcome, err: AttemptError, now: int, fault: Fault,
            ghost todo: seq<string>) returns (ok: bool)
      requires file.Valid() && file.Now().process == Working(inventory, index, todo)
        && file.disk == Disk(Some(inventory), [])
      requires index < |inventory.items| && Reportable(outcome) && !durabilityUnconfirmed
      modifies this, file
      ensures file.Valid() && Visible(file.disk) == Some(inventory) && old(file.worlds) <= file.worlds
      ensures ok == (fault == NoFault)
      ensures inventory == AfterFinish(old(inventory), index, outcome, err, now, fault)
      ensures ok ==>
        && Tells(inventory.items[index].status, outcome, err)
        && Credits(old(inventory).items[index], inventory.items[index], outcome)
        && inventory.items[index].updatedAt == now
      ensures ok ==> Resting(todo)
      ensures !ok ==> file.Now().process == Down
      ensures file.Now().runs == old(file.Now().runs)
    {
      var previous := inventory.items[index];
      EndedTells(previous, outcome, err, now);
      inventory := WithItem(inventory, index, Ended(previous, outcome, err, now));
      SaveItemAgreesExactly(file.disk, durabilityUnconfirmed, inventory, index, previous, fault) by {
        assert WithItem(inventory, index, previous) == old(inventory);
      }
      file.Record(Action.Finish(outcome, err, now), file.Now().(process := Saving(inventory, Finishing(index, todo))));
      ok := SaveItem(index, previous, fault, Finishing(index, todo));
    }
  }

  /**
   * `failed` stands for every error that is not decided by the checkpoint itself: cancellation, locks, reads,
   * discovery.
   */
  method OpenQueue(file: CheckpointFile, root: string, refresh: bool, found: seq<string>, failed: bool, now: int,
          fault: Fault, ghost retry: bool, ghost limit: int) returns (queue: Queue?)
    requires file.Valid() && file.Now().process == Down
    requires forall i :: 0 <= i < |found| ==> file.e.isAbs(found[i])
    modifies file
    ensures file.Valid() && old(file.worlds) <= file.worlds && file.Now().runs == old(file.Now().runs)
    ensures queue != null <==>
      && !failed
      && fault == NoFault
      && (Visible(old(file.disk)).Some? ==> Acceptable(file.e, Visible(old(file.disk)).value, file.name, root))
    ensures queue != null ==>
      && fresh(queue) && queue.file == file
      && queue.inventory == Opened(file.e, Visible(old(file.disk)), file.name, root, refresh, found, now)
      && queue.Resting(Limited(SelectedPaths(queue.inventory.items, retry), limit))
    ensures queue == null ==> file.Now().process == Down
  {
    if failed { return null; }
    var stored := Visible(file.disk);
    if stored.Some? {
      var ok := Validate(file.e, stored.value, file.name, root);
      if !ok { return null; }
    }
    var q := new Queue(file, Opened(file.e, stored, file.name, root, refresh, found, now));
    file.Record(Action.Open(root, refresh, found, retry, limit, now),
                file.Now().(process := Saving(q.inventory, Opening(retry, limit))));
    var ok := q.Save(fault, Opening(retry, limit));
    return if ok then q else null;
  }

  /** What the surroundings do to one item: cancellation, save failures, and what the callback reports. */
  datatype Attempt = Attempt(
    abort: bool, startCanceled: bool, startFault: Fault, outcome: Outcome, err: AttemptError,
    parentDone: bool, finishFault: Fault, now: int)

  /** The callback's error, or an outcome that the driver turns into one. */
  predicate Fails(a: Attempt) {
    a.err != NoError || a.outcome.status in ["failed", "interrupted"]
  }

  function FailedPaths(todo: seq<string>, script: seq<Attempt>, n: nat): seq<string>
    requires n <= |todo| && n <= |script|
  {
    if n == 0 then [] else FailedPaths(todo, script, n - 1) + (if Fails(script[n - 1]) then [todo[n - 1]] else [])
  }

  /** The paths reported as failed are those whose member ends as failed or interrupted. */
  lemma {:induction false} FailedPathsExactly(todo: seq<string>, script: seq<Attempt>, n: nat, item: Item)
    requires n <= |todo| && n <= |script| && forall i :: 0 <= i < n ==> Reportable(script[i].outcome)
    ensures forall p :: p in FailedPaths(todo, script, n) <==> exists i ::
      0 <= i < n && todo[i] == p
        && Ended(item, script[i].outcome, script[i].err, script[i].now).status in ["failed", "interrupted"]
  {
    if n > 0 {
      FailedPathsExactly(todo, script, n - 1, item);
      var a := script[n - 1];
      assert Fails(a) <==> Ended(item, a.outcome, a.err, a.now).status in ["failed", "interrupted"];
    }
  }

  // ---- What a session does, item by item ----

  /** The callback runs for this item. */
  predicate Begins(e: Paths, inv: Inventory, path: string, a: Attempt) {
    !a.startCanceled && IndexOf(e, inv.items, path) >= 0 && a.startFault == NoFault
  }

  /** The driver does not go on after this item. */
  predicate StopsAt(e: Paths, inv: Inventory, path: string, a: Attempt) {
    a.abort || !Begins(e, inv, path, a) || a.finishFault != NoFault || (Fails(a) && a.parentDone)
  }

  function AfterItem(e: Paths, inv: Inventory, path: string, a: Attempt): Inventory {
    var begun := AfterStart(e, inv, path, a.startCanceled, a.now, a.startFault);
    if Begins(e, inv, path, a) then
      AfterFinish(begun, IndexOf(e, inv.items, path), a.outcome, a.err, a.now, a.finishFault)
    else begun
  }

  /** The inventory after the first `n` items. */
  function Driven(e: Paths, inv: Inventory, todo: seq<string>, script: seq<Attempt>, n: nat): Inventory
    requires n <= |todo| && n <= |script|
  {
    if n == 0 then inv
    else
      var before := Driven(e, inv, todo, script, n - 1);
      if script[n - 1].abort then before else AfterItem(e, before, todo[n - 1], script[n - 1])
  }

  /** The members whose callback runs among the first `n` items, in order. */
  function Dispatched(e: Paths, inv: Inventory, todo: seq<string>, script: seq<Attempt>, n: nat): seq<string>
    requires n <= |todo| && n <= |script|
  {
    if n == 0 then []
    else
      Dispatched(e, inv, todo, script, n - 1)
      + (if !script[n - 1].abort && Begins(e, inv, todo[n - 1], script[n - 1])
         then [inv.items[IndexOf(e, inv.items, todo[n - 1])].path] else [])
  }

  /** One more run for each listed member. */
  function WithRuns(runs: map<string, nat>, members: seq<string>): map<string, nat> {
    if members == [] then runs
    else
      var before := WithRuns(runs, members[..|members| - 1]);
      var member := members[|members| - 1];
      before[member := Runs(before, member) + 1]
  }

  lemma OneMoreRun(runs: map<string, nat>, members: seq<string>, member: string)
    ensures var before := WithRuns(runs, members);
      WithRuns(runs, members + [member]) == before[member := Runs(before, member) + 1]
  {
    assert (members + [member])[..|members|] == members;
  }

  /** Processing leaves the members' paths as they are. */
  ghost predicate SameMembers(a: Inventory, b: Inventory) {
    |a.items| == |b.items| && forall i :: 0 <= i < |a.items| ==> a.items[i].path == b.items[i].path
  }

  lemma {:induction false} SameIndex(e: Paths, a: seq<Item>, b: seq<Item>, path: string)
    requires |a| == |b| && forall i :: 0 <= i < |a| ==> a[i].path == b[i].path
    ensures IndexOf(e, a, path) == IndexOf(e, b, path)
    decreases |a|
  {
    if a != [] { SameIndex(e, a[1..], b[1..], path); }
  }

  /** One item under the driver: `start`, the callback, `finish`. Any failed checkpoint ends the process. */
  method ProcessItem(queue: Queue, path: string, a: Attempt, ghost rest: seq<string>) returns (ok: bool)
    requires queue.Resting([path] + rest) && Reportable(a.outcome)
    modifies queue, queue.file
    ensures queue.file.Valid() && old(queue.file.worlds) <= queue.file.worlds
    ensures Visible(queue.file.disk) == Some(queue.inventory)
    ensures ok <==> Begins(queue.file.e, old(queue.inventory), path, a) && a.finishFault == NoFault
    ensures if ok then queue.Resting(rest) else queue.file.Now().process == Down
    ensures queue.inventory == AfterItem(queue.file.e, old(queue.inventory), path, a)
    ensures ok ==>
      var i := IndexOf(queue.file.e, old(queue.inventory).items, path);
      && 0 <= i < |queue.inventory.items| && Tells(queue.inventory.items[i].status, a.outcome, a.err)
      && queue.inventory.items[i].attempts == old(queue.inventory).items[i].attempts + 1
      && queue.inventory.items[i].updatedAt == a.now
    ensures queue.file.Now().runs
      == if Begins(queue.file.e, old(queue.inventory), path, a)
         then WithRuns(old(queue.file.Now().runs),
                       [old(queue.inventory).items[IndexOf(queue.file.e, old(queue.inventory).items, path)].path])
         else old(queue.file.Now().runs)
  {
    hide Behavior, Ended, IndexOf, Survives, Initial, WithRuns;
    var file := queue.file;
    var index;
    index, ok := queue.Start(path, a.startCanceled, a.now, a.startFault, rest);
    if !ok { return; }
    ghost var member := queue.inventory.items[index].path;
    file.Record(Invoke, file.Now().(
      runs := file.Now().runs[member := Runs(file.Now().runs, member) + 1],
      process := Working(queue.inventory, index, rest)));
    FirstRun(old(file.Now().runs), member);
    ok := queue.Finish(index, a.outcome, a.err, a.now, a.finishFault, rest);
  }

  /**
   * The driver loop in queue mode. It goes through `todo` up to the first item that stops it, at a cancellation or a
   * failed checkpoint; the callback runs exactly for the dispatched members, and memory and file agree in every case.
   */
  method ProcessItems(queue: Queue, todo: seq<string>, script: seq<Attempt>) returns (done: nat, failed: seq<string>,
          finished: bool)
    requires queue.Resting(todo) && |script| == |todo|
    requires forall i :: 0 <= i < |script| ==> Reportable(script[i].outcome)
    modifies queue, queue.file
    ensures queue.file.Valid() && old(queue.file.worlds) <= queue.file.worlds
    ensures Visible(queue.file.disk) == Some(queue.inventory)
    ensures done <= |todo| && (finished <==> done == |todo|)
    ensures forall i :: 0 <= i < done ==> !StopsAt(queue.file.e, old(queue.inventory), todo[i], script[i])
    ensures done < |todo| ==> StopsAt(queue.file.e, old(queue.inventory), todo[done], script[done])
    ensures failed == FailedPaths(todo, script, done)
    ensures if finished then queue.Resting([]) else queue.file.Now().process == Down
    ensures var reached := if finished then done else done + 1;
      && queue.inventory == Driven(queue.file.e, old(queue.inventory), todo, script, reached)
      && queue.file.Now().runs
         == WithRuns(old(queue.file.Now().runs), Dispatched(queue.file.e, old(queue.inventory), todo, script, reached))
  {
    hide Behavior, Step, AfterItem, IndexOf, WithRuns, Driven, Dispatched, FailedPaths, Begins;
    failed := [];
    var file := queue.file;
    ghost var inv := queue.inventory;
    ghost var runs := file.Now().runs;
    NothingDone(file.e, inv, todo, script, runs);
    for i := 0 to |todo|
      invariant queue.Resting(todo[i..]) && old(queue.file.worlds) <= file.worlds
      invariant failed == FailedPaths(todo, script, i)
      invariant SameMembers(inv, queue.inventory)
      invariant queue.inventory == Driven(file.e, inv, todo, script, i)
      invariant file.Now().runs == WithRuns(runs, Dispatched(file.e, inv, todo, script, i))
      invariant forall k :: 0 <= k < i ==> !StopsAt(file.e, inv, todo[k], script[k])
    {
      var a := script[i];
      assert todo[i..] == [todo[i]] + todo[i + 1..];
      ghost var members := Dispatched(file.e, inv, todo, script, i);
      OneMoreItem(file.e, inv, todo, script, i);
      if a.abort {
        file.Stop();
        return i, failed, false;
      }
      ghost var before := queue.inventory;
      SameIndex(file.e, inv.items, before.items, todo[i]);
      var ok := ProcessItem(queue, todo[i], a, todo[i + 1..]);
      AfterItemKeepsMembers(file.e, before, todo[i], a);
      SameBegins(file.e, inv, before, todo[i], a);
      if Begins(file.e, inv, todo[i], a) {
        ghost var member := inv.items[IndexOf(file.e, inv.items, todo[i])].path;
        OneMoreRun(runs, members, member);
        FirstRun(WithRuns(runs, members), member);
      }
      if !ok { return i, failed, false; }
      if Fails(a) {
        if a.parentDone {
          file.Stop();
          return i, failed, false;
        }
        failed := failed + [todo[i]];
      }
    }
    return |todo|, failed, true;
  }

  lemma FirstRun(runs: map<string, nat>, member: string)
    ensures WithRuns(runs, [member]) == runs[member := Runs(runs, member) + 1]
  {
    assert [member][..0] == [];
  }

  lemma NothingDone(e: Paths, inv: Inventory, todo: seq<string>, script: seq<Attempt>, runs: map<string, nat>)
    ensures Driven(e, inv, todo, script, 0) == inv && Dispatched(e, inv, todo, script, 0) == []
    ensures FailedPaths(todo, script, 0) == [] && WithRuns(runs, []) == runs
  {
  }

  lemma OneMoreItem(e: Paths, inv: Inventory, todo: seq<string>, script: seq<Attempt>, i: nat)
    requires i < |todo| && i < |script|
    ensures var before := Driven(e, inv, todo, script, i);
      Driven(e, inv, todo, script, i + 1)
        == if script[i].abort then before else AfterItem(e, before, todo[i], script[i])
    ensures !script[i].abort && Begins(e, inv, todo[i], script[i]) ==>
      && IndexOf(e, inv.items, todo[i]) >= 0
      && Dispatched(e, inv, todo, script, i + 1)
         == Dispatched(e, inv, todo, script, i) + [inv.items[IndexOf(e, inv.items, todo[i])].path]
    ensures script[i].abort || !Begins(e, inv, todo[i], script[i]) ==>
      Dispatched(e, inv, todo, script, i + 1) == Dispatched(e, inv, todo, script, i)
    ensures FailedPaths(todo, script, i + 1)
      == FailedPaths(todo, script, i) + (if Fails(script[i]) then [todo[i]] else [])
  {
    hide AfterItem, IndexOf;
    assert Dispatched(e, inv, todo, script, i) + [] == Dispatched(e, inv, todo, script, i);
  }

  lemma {:induction false} SameBegins(e: Paths, a: Inventory, b: Inventory, path: string, attempt: Attempt)
    requires SameMembers(a, b)
    ensures Begins(e, a, path, attempt) <==> Begins(e, b, path, attempt)
  {
    hide IndexOf;
    SameIndex(e, a.items, b.items, path);
  }

  lemma AfterItemKeepsMembers(e: Paths, inv: Inventory, path: string, a: Attempt)
    ensures SameMembers(inv, AfterItem(e, inv, path, a))
  {
  }
}
