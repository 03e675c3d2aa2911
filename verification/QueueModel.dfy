/** The durable named queue (cmd/upbrr/named_queue.go): its checkpoint, its items and its transitions. */
module QueueModel {
  import opened Text

  datatype Item = Item(
    path: string, status: string, attempts: int, confirmed: seq<string>, workflow: string, updatedAt: int)

  datatype Inventory = Inventory(version: int, name: string, root: string, items: seq<Item>)

  datatype Outcome = Outcome(status: string, confirmed: seq<string>, workflow: string)

  /** What `finish` distinguishes in the error of an attempt: cancellation, deadline and unknown effects interrupt. */
  datatype AttemptError = NoError | Ordinary | Interrupting

  /** `same` stands for pathing.SamePath and `isAbs` for filepath.IsAbs. */
  datatype Paths = Paths(same: (string, string) -> bool, isAbs: string -> bool)

  ghost predicate Equivalence(e: Paths) {
    && (forall a :: e.same(a, a))
    && (forall a, b :: e.same(a, b) ==> e.same(b, a))
    && (forall a, b, c :: e.same(a, b) && e.same(b, c) ==> e.same(a, c))
  }

  // ---- Checkpoint contents ----

  predicate KnownStatus(s: string) {
    s in ["pending", "running", "completed", "failed", "interrupted", "skipped"]
  }

  function IndexOf(e: Paths, items: seq<Item>, path: string): (i: int)
    ensures -1 <= i < |items|
    ensures i >= 0 ==> e.same(items[i].path, path)
    ensures forall k :: 0 <= k < (if i < 0 then |items| else i) ==> !e.same(items[k].path, path)
  {
    if items == [] then -1
    else if e.same(items[0].path, path) then 0
    else var i := IndexOf(e, items[1..], path); if i < 0 then -1 else i + 1
  }

  ghost predicate Distinct(e: Paths, items: seq<Item>) {
    forall i, j :: 0 <= i < j < |items| ==> !e.same(items[i].path, items[j].path)
  }

  /** What `validate` accepts, apart from name and root. */
  ghost predicate WellFormed(e: Paths, items: seq<Item>) {
    && Distinct(e, items)
    && forall i :: 0 <= i < |items| ==> e.isAbs(items[i].path) && KnownStatus(items[i].status)
  }

  ghost predicate Acceptable(e: Paths, inv: Inventory, name: string, root: string) {
    inv.version == 1 && inv.name == name && e.same(inv.root, root) && WellFormed(e, inv.items)
  }

  /** `later` keeps the members of `earlier`, in place and in order, with their attempts and confirmed uploads. */
  ghost predicate Keeps(earlier: seq<Item>, later: seq<Item>) {
    && |earlier| <= |later|
    && forall i :: 0 <= i < |earlier| ==>
         && later[i].path == earlier[i].path
         && later[i].attempts >= earlier[i].attempts
         && earlier[i].confirmed <= later[i].confirmed
         && (NoRepeats(earlier[i].confirmed) ==> NoRepeats(later[i].confirmed))
         && (earlier[i].status != "pending" ==> later[i].status != "pending")
  }

  ghost predicate NoRepeats(s: seq<string>) {
    forall i, j :: 0 <= i < j < |s| ==> s[i] != s[j]
  }

  // ---- The edits of one item ----

  function Begun(item: Item, now: int): Item {
    item.(status := "running", attempts := item.attempts + 1, updatedAt := now)
  }

  function FinalStatus(outcome: Outcome, err: AttemptError): string {
    match err
    case NoError => if outcome.status == "" then "skipped" else outcome.status
    case Ordinary => if outcome.status == "interrupted" then "interrupted" else "failed"
    case Interrupting => "interrupted"
  }

  /** `more` appended to `s` except for what is already there. */
  function Union(s: seq<string>, more: seq<string>): (r: seq<string>)
    ensures s <= r
    ensures NoRepeats(s) ==> NoRepeats(r)
    ensures forall x :: x in r <==> x in s || x in more
    decreases |more|
  {
    if more == [] then s
    else Union(if more[0] in s then s else s + [more[0]], more[1..])
  }

  function Ended(item: Item, outcome: Outcome, err: AttemptError, now: int): Item {
    item.(status := FinalStatus(outcome, err),
          confirmed := Union(item.confirmed, outcome.confirmed),
          workflow := if outcome.workflow != "" then outcome.workflow else item.workflow,
          updatedAt := now)
  }

  /** What a status of a member that has been processed tells about its attempt. */
  predicate Tells(status: string, outcome: Outcome, err: AttemptError) {
    && status in ["completed", "failed", "skipped", "interrupted"]
    && (status == "completed" <==> err.NoError? && outcome.status == "completed")
    && (status == "skipped" <==> err.NoError? && outcome.status in ["", "skipped"])
    && (status == "interrupted" <==> err.Interrupting? || outcome.status == "interrupted")
  }

  /** `after` is `before` with the uploads that the attempt confirmed and the workflow that it names. */
  ghost predicate Credits(before: Item, after: Item, outcome: Outcome) {
    && after.path == before.path && after.attempts == before.attempts && before.confirmed <= after.confirmed
    && (forall u :: u in after.confirmed <==> u in before.confirmed || u in outcome.confirmed)
    && after.workflow == (if outcome.workflow == "" then before.workflow else outcome.workflow)
  }

  lemma EndedTells(item: Item, outcome: Outcome, err: AttemptError, now: int)
    requires Reportable(outcome)
    ensures Tells(Ended(item, outcome, err, now).status, outcome, err)
    ensures Credits(item, Ended(item, outcome, err, now), outcome) && Ended(item, outcome, err, now).updatedAt == now
  {
  }

  /** The statuses the process callbacks report: cliQueueWorkflowOutcome never reports "pending" or "running". */
  predicate Reportable(outcome: Outcome) {
    outcome.status in ["", "completed", "failed", "interrupted", "skipped"]
  }

  function WithItem(inv: Inventory, index: nat, item: Item): Inventory
    requires index < |inv.items|
  {
    inv.(items := inv.items[index := item])
  }

  // ---- Opening ----

  /** Items left running by a session that did not end are reported as interrupted. */
  function Interrupted(items: seq<Item>): (r: seq<Item>)
    ensures |r| == |items|
    ensures forall i :: 0 <= i < |items| ==>
      r[i] == if items[i].status == "running" then items[i].(status := "interrupted") else items[i]
  {
    if items == [] then []
    else
      [if items[0].status == "running" then items[0].(status := "interrupted") else items[0]]
      + Interrupted(items[1..])
  }

  function Fresh(path: string, now: int): Item { Item(path, "pending", 0, [], "", now) }

  /** Discovered paths are appended unless they are members already. */
  function Merged(e: Paths, items: seq<Item>, found: seq<string>, now: int): (r: seq<Item>)
    decreases |found|
  {
    if found == [] then items
    else Merged(e, if IndexOf(e, items, found[0]) < 0 then items + [Fresh(found[0], now)] else items, found[1..], now)
  }

  function Opened(e: Paths, stored: Option<Inventory>, name: string, root: string, refresh: bool, found: seq<string>,
          now: int)
    : Inventory
  {
    var base := match stored
      case None => Inventory(1, name, root, [])
      case Some(inv) => inv.(items := Interrupted(inv.items));
    if stored.None? || refresh then base.(items := Merged(e, base.items, found, now)) else base
  }

  predicate Selected(item: Item, retry: bool) {
    item.status == "pending" || (retry && item.status in ["failed", "interrupted", "skipped"])
  }

  function SelectedPaths(items: seq<Item>, retry: bool): (r: seq<string>)
    ensures forall p :: p in r <==> exists i :: 0 <= i < |items| && items[i].path == p && Selected(items[i], retry)
  {
    if items == [] then []
    else
      assert items == [items[0]] + items[1..];
      (if Selected(items[0], retry) then [items[0].path] else []) + SelectedPaths(items[1..], retry)
  }

  function Limited(paths: seq<string>, limit: int): seq<string> {
    if limit <= 0 || |paths| <= limit then paths else paths[..limit]
  }

  // ---- Disk ----

  /** The contents that survive a crash for certain, and those renamed into place since but not yet synced. */
  datatype Disk = Disk(durable: Option<Inventory>, unsynced: seq<Inventory>)

  function Visible(d: Disk): Option<Inventory> {
    if d.unsynced == [] then d.durable else Some(d.unsynced[|d.unsynced| - 1])
  }

  function Replaced(d: Disk, inv: Inventory): Disk { d.(unsynced := d.unsynced + [inv]) }

  function Synced(d: Disk): Disk { Disk(Visible(d), []) }

  /** After a crash the file holds one of these. */
  ghost predicate Survives(d: Disk, v: Option<Inventory>) {
    v == d.durable || (v.Some? && v.value in d.unsynced)
  }

  // ---- Transitions of one queue over all its sessions ----

  /** Why a save is under way, and what the driver does once it has succeeded. */
  datatype Purpose =
    | Opening(retry: bool, limit: int)
    | Starting(index: nat, rest: seq<string>)
    | Finishing(index: nat, rest: seq<string>)

  /** Where the process is, if there is one. `Saving` precedes the rename, `Renamed` precedes the barrier. */
  datatype Process =
    | Down
    | Saving(inv: Inventory, why: Purpose)
    | Renamed(inv: Inventory, why: Purpose)
    | Idle(inv: Inventory, todo: seq<string>)
    | Started(inv: Inventory, index: nat, todo: seq<string>)
    | Working(inv: Inventory, index: nat, todo: seq<string>)

  /** `runs` counts, for each member, how often its process callback was invoked. */
  datatype World = World(disk: Disk, runs: map<string, nat>, process: Process)

  function Runs(runs: map<string, nat>, path: string): nat { if path in runs then runs[path] else 0 }

  /** What the driver does after a save that succeeded. */
  function AfterSave(inv: Inventory, why: Purpose): Process {
    match why
    case Opening(retry, limit) => Idle(inv, Limited(SelectedPaths(inv.items, retry), limit))
    case Starting(index, rest) => Started(inv, index, rest)
    case Finishing(index, rest) => Idle(inv, rest)
  }

  datatype Action =
    | Open(root: string, refresh: bool, found: seq<string>, retry: bool, limit: int, now: int)
    | Rename
    | Barrier
    | Begin(now: int)
    | Invoke
    | Finish(outcome: Outcome, err: AttemptError, now: int)
    | Exit
    | Crash(survivor: Option<Inventory>)

  /** One step. `Exit` covers every error and cancellation: the driver never continues after a failed checkpoint. */
  ghost predicate Step(e: Paths, name: string, w: World, a: Action, w': World) {
    match a
    case Open(root, refresh, found, retry, limit, now) =>
      && w.process.Down?
      && (Visible(w.disk).Some? ==> Acceptable(e, Visible(w.disk).value, name, root))
      && (forall i :: 0 <= i < |found| ==> e.isAbs(found[i]))
      && w' == w.(process := Saving(Opened(e, Visible(w.disk), name, root, refresh, found, now), Opening(retry, limit)))
    case Rename =>
      && w.process.Saving?
      && w' == w.(disk := Replaced(w.disk, w.process.inv), process := Renamed(w.process.inv, w.process.why))
    case Barrier =>
      && w.process.Renamed?
      && w' == w.(disk := Synced(w.disk), process := AfterSave(w.process.inv, w.process.why))
    case Begin(now) =>
      && w.process.Idle? && w.process.todo != []
      && var inv := w.process.inv;
         var i := IndexOf(e, inv.items, w.process.todo[0]);
         && i >= 0
         && w' == w.(process := Saving(WithItem(inv, i, Begun(inv.items[i], now)), Starting(i, w.process.todo[1..])))
    case Invoke =>
      && w.process.Started? && w.process.index < |w.process.inv.items|
      && var path := w.process.inv.items[w.process.index].path;
         w' == w.(runs := w.runs[path := Runs(w.runs, path) + 1],
                  process := Working(w.process.inv, w.process.index, w.process.todo))
    case Finish(outcome, err, now) =>
      && w.process.Working? && w.process.index < |w.process.inv.items| && Reportable(outcome)
      && var inv := w.process.inv;
         var i := w.process.index;
         w' == w.(process := Saving(WithItem(inv, i, Ended(inv.items[i], outcome, err, now)),
           Finishing(i, w.process.todo)))
    case Exit =>
      w' == w.(process := Down)
    case Crash(survivor) =>
      Survives(w.disk, survivor) && w' == w.(disk := Disk(survivor, []), process := Down)
  }

  /** No process has touched the queue yet; a file may already be there. */
  ghost predicate Initial(e: Paths, name: string, w: World) {
    && w.process.Down? && w.runs == map[] && w.disk.unsynced == []
    && (w.disk.durable.Some? ==> Acceptable(e, w.disk.durable.value, name, w.disk.durable.value.root))
  }

  ghost predicate Behavior(e: Paths, name: string, worlds: seq<World>, actions: seq<Action>) {
    && |worlds| == |actions| + 1
    && Initial(e, name, worlds[0])
    && forall i :: 0 <= i < |actions| ==> Step(e, name, worlds[i], actions[i], worlds[i + 1])
  }
}
