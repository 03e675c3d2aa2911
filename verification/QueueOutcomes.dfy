/** What the statuses in the queue's file tell, and which members a retry is offered (cmd/upbrr/named_queue.go). */
module QueueOutcomes {
  import opened Text
  import opened QueueModel
  import opened QueueRuns
  import opened QueueDispatch

  /** How the last attempt of a member ended that was finished before the `k`-th world. */
  function LastAttempt(worlds: seq<World>, actions: seq<Action>, k: nat, path: string): Option<(Outcome, AttemptError)>
    requires k <= |actions| <= |worlds|
    decreases k
  {
    if k == 0 then None
    else if Finishes(worlds[k - 1], actions[k - 1], path) then Some((actions[k - 1].outcome, actions[k - 1].err))
    else LastAttempt(worlds, actions, k - 1, path)
  }

  predicate Finishes(w: World, a: Action, path: string) {
    && a.Finish? && w.process.Working? && w.process.index < |w.process.inv.items|
    && w.process.inv.items[w.process.index].path == path
  }

  /** A status that nothing but an attempt, or the first file, gives to a member. */
  predicate Settles(status: string) { status in ["completed", "failed", "skipped"] }

  /** The first file has the status for the member, or its last attempt is what the status tells. */
  ghost predicate Earned(worlds: seq<World>, actions: seq<Action>, k: nat, item: Item)
    requires 0 < |worlds| && k <= |actions| <= |worlds|
  {
    || (exists j :: 0 <= j < |FirstItems(worlds[0])| && FirstItems(worlds[0])[j].path == item.path
          && FirstItems(worlds[0])[j].status == item.status)
    || (var last := LastAttempt(worlds, actions, k, item.path);
        last.Some? && Tells(item.status, last.value.0, last.value.1))
  }

  ghost predicate ItemsEarned(worlds: seq<World>, actions: seq<Action>, k: nat, items: seq<Item>)
    requires 0 < |worlds| && k <= |actions| <= |worlds|
  {
    forall i :: 0 <= i < |items| && Settles(items[i].status) ==> Earned(worlds, actions, k, items[i])
  }

  ghost predicate AllEarned(worlds: seq<World>, actions: seq<Action>, k: nat)
    requires 0 < |worlds| && k <= |actions| && |worlds| == |actions| + 1
  {
    && (forall v :: Survives(worlds[k].disk, Some(v)) ==> ItemsEarned(worlds, actions, k, v.items))
    && (worlds[k].process.Saving? ==> ItemsEarned(worlds, actions, k, worlds[k].process.inv.items))
  }

  /** A step that finishes no attempt leaves what is earned as it is. */
  lemma {:induction false} StillEarned(worlds: seq<World>, actions: seq<Action>, k: nat, items: seq<Item>)
    requires 0 < |worlds| && k < |actions| <= |worlds| && !actions[k].Finish? && ItemsEarned(worlds, actions, k, items)
    ensures ItemsEarned(worlds, actions, k + 1, items)
  {
    forall i | 0 <= i < |items| && Settles(items[i].status) ensures Earned(worlds, actions, k + 1, items[i]) {
      assert Earned(worlds, actions, k, items[i]);
    }
  }

  /** Opening settles no status. */
  lemma {:induction false} OpenedEarned(e: Paths, worlds: seq<World>, actions: seq<Action>, k: nat,
          stored: Option<Inventory>, name: string, root: string, refresh: bool, found: seq<string>, now: int)
    requires 0 < |worlds| && k <= |actions| <= |worlds|
    requires stored.Some? ==> ItemsEarned(worlds, actions, k, stored.value.items)
    ensures ItemsEarned(worlds, actions, k, Opened(e, stored, name, root, refresh, found, now).items)
  {
    hide Merged, Earned, LastAttempt;
    var base := if stored.Some? then Interrupted(stored.value.items) else [];
    MergedAppendsFresh(e, base, found, now);
    var grown := Opened(e, stored, name, root, refresh, found, now).items;
    assert base <= grown;
    forall i | 0 <= i < |grown| && Settles(grown[i].status) ensures Earned(worlds, actions, k, grown[i]) {
      if i < |base| { assert grown[i] == base[i] == stored.value.items[i]; }
    }
  }

  lemma OthersDiffer(e: Paths, items: seq<Item>, i: nat, j: nat)
    requires Equivalence(e) && Distinct(e, items) && i < |items| && j < |items| && i != j
    ensures items[i].path != items[j].path
  {
    if i < j {
      assert !e.same(items[i].path, items[j].path);
    } else {
      assert !e.same(items[j].path, items[i].path);
    }
  }

  /** An attempt that ends settles its own status and leaves the others. */
  lemma {:induction false} FinishedEarned(e: Paths, worlds: seq<World>, actions: seq<Action>, k: nat, inv: Inventory,
          i: nat, item: Item)
    requires 0 < |worlds| && k < |actions| <= |worlds| && Equivalence(e) && Distinct(e, inv.items)
    requires i < |inv.items| && Finishes(worlds[k], actions[k], inv.items[i].path) && worlds[k].process.inv == inv
    requires item.path == inv.items[i].path && Tells(item.status, actions[k].outcome, actions[k].err)
    requires ItemsEarned(worlds, actions, k, inv.items) && inv.items[i].status == "running"
    ensures ItemsEarned(worlds, actions, k + 1, inv.items)
    ensures ItemsEarned(worlds, actions, k + 1, WithItem(inv, i, item).items)
  {
    var after := WithItem(inv, i, item).items;
    forall j | 0 <= j < |inv.items| && j != i && Settles(inv.items[j].status)
      ensures Earned(worlds, actions, k + 1, inv.items[j])
    {
      assert Earned(worlds, actions, k, inv.items[j]);
      OthersDiffer(e, inv.items, j, i);
    }
    assert Earned(worlds, actions, k + 1, item);
  }

  lemma {:induction false} StepKeepsEarned(e: Paths, name: string, worlds: seq<World>, actions: seq<Action>, k: nat)
    requires Equivalence(e) && Behavior(e, name, worlds, actions) && |worlds| == |actions| + 1 && k < |actions|
    requires Invariant(FirstItems(worlds[0]), e, name, worlds[k]) && InOrder(worlds[k]) && AllEarned(worlds, actions, k)
    ensures AllEarned(worlds, actions, k + 1)
  {
    hide ItemsEarned, Equivalence, Queued, Sound, Armed, Keeps;
    var w, a, w' := worlds[k], actions[k], worlds[k + 1];
    assert Step(e, name, w, a, w');
    VisibleSurvives(w.disk);
    if a.Finish? {
      var inv, i := w.process.inv, w.process.index;
      SoundIsDistinct(FirstItems(worlds[0]), e, name, inv, w.runs);
      EndedTells(inv.items[i], a.outcome, a.err, a.now);
      FinishedEarned(e, worlds, actions, k, inv, i, Ended(inv.items[i], a.outcome, a.err, a.now));
    } else {
      forall v | Survives(w.disk, Some(v)) ensures ItemsEarned(worlds, actions, k + 1, v.items) {
        StillEarned(worlds, actions, k, v.items);
      }
      if w.process.Saving? { StillEarned(worlds, actions, k, w.process.inv.items); }
      if a.Open? {
        OpenedEarned(e, worlds, actions, k + 1, Visible(w.disk), name, a.root, a.refresh, a.found, a.now);
      } else if a.Begin? {
        var i := IndexOf(e, w.process.inv.items, w.process.todo[0]);
        BegunEarned(e, worlds, actions, k + 1, w.process.inv, i, a.now);
      }
    }
  }

  lemma {:induction false} BegunEarned(e: Paths, worlds: seq<World>, actions: seq<Action>, k: nat, inv: Inventory,
          i: nat, now: int)
    requires 0 < |worlds| && k <= |actions| <= |worlds| && i < |inv.items| && ItemsEarned(worlds, actions, k, inv.items)
    ensures ItemsEarned(worlds, actions, k, WithItem(inv, i, Begun(inv.items[i], now)).items)
  {
    hide Earned;
  }

  lemma {:induction false} BehaviorKeepsEarned(e: Paths, name: string, worlds: seq<World>, actions: seq<Action>, k: nat)
    requires Equivalence(e) && Behavior(e, name, worlds, actions) && |worlds| == |actions| + 1 && k <= |actions|
    ensures AllEarned(worlds, actions, k)
    decreases k
  {
    hide Step, QueueRuns.Invariant, InOrder, Behavior, AllEarned;
    if k > 0 {
      BehaviorKeepsEarned(e, name, worlds, actions, k - 1);
      BehaviorKeepsInvariant(e, name, worlds, actions, k - 1);
      BehaviorKeepsOrder(e, name, worlds, actions, k - 1);
      StepKeepsEarned(e, name, worlds, actions, k - 1);
    } else {
      FirstIsEarned(e, name, worlds, actions);
    }
  }

  lemma {:induction false} FirstIsEarned(e: Paths, name: string, worlds: seq<World>, actions: seq<Action>)
    requires Behavior(e, name, worlds, actions) && |worlds| == |actions| + 1
    ensures AllEarned(worlds, actions, 0)
  {
    forall v | Survives(worlds[0].disk, Some(v)) ensures ItemsEarned(worlds, actions, 0, v.items) {
      assert FirstItems(worlds[0]) == v.items;
      forall i | 0 <= i < |v.items| ensures Earned(worlds, actions, 0, v.items[i]) {
        assert FirstItems(worlds[0])[i].path == v.items[i].path;
      }
    }
  }

  /**
   * Whatever survives, a member is stored as completed, failed or skipped only if the first file had it so or that is
   * how its last attempt ended: completed, only without an error and with that outcome.
   */
  lemma {:induction false} StatusTellsLastAttempt(e: Paths, name: string, worlds: seq<World>, actions: seq<Action>,
          k: nat, v: Inventory, i: nat)
    requires Equivalence(e) && Behavior(e, name, worlds, actions) && |worlds| == |actions| + 1 && k <= |actions|
    requires Survives(worlds[k].disk, Some(v)) && i < |v.items| && Settles(v.items[i].status)
    ensures Earned(worlds, actions, k, v.items[i])
  {
    hide Earned;
    BehaviorKeepsEarned(e, name, worlds, actions, k);
  }

  /** A member counts as completed: in the first file, or by its last attempt. */
  ghost predicate Succeeded(worlds: seq<World>, actions: seq<Action>, k: nat, path: string)
    requires 0 < |worlds| && k <= |actions| <= |worlds|
  {
    || (exists j :: 0 <= j < |FirstItems(worlds[0])| && FirstItems(worlds[0])[j].path == path
          && FirstItems(worlds[0])[j].status == "completed")
    || (var last := LastAttempt(worlds, actions, k, path);
        last.Some? && last.value.1.NoError? && last.value.0.status == "completed")
  }

  /**
   * An opening with retry and without a limit selects every member but those that are completed; so it is offered every
   * member whose last attempt ended with an error or with any other outcome.
   */
  lemma {:induction false} RetrySelectsTheRest(e: Paths, name: string, worlds: seq<World>, actions: seq<Action>, k: nat,
          i: nat)
    requires Equivalence(e) && Behavior(e, name, worlds, actions) && |worlds| == |actions| + 1 && k < |actions|
    requires actions[k].Open? && actions[k].retry && actions[k].limit <= 0
    requires worlds[k + 1].process.Saving? && i < |worlds[k + 1].process.inv.items|
    ensures var items := worlds[k + 1].process.inv.items;
      && (items[i].path in Limited(SelectedPaths(items, true), actions[k].limit) <==> items[i].status != "completed")
      && (!Succeeded(worlds, actions, k, items[i].path) ==>
          items[i].path in Limited(SelectedPaths(items, true), actions[k].limit))
  {
    var items := worlds[k + 1].process.inv.items;
    OpeningHasNoRunning(e, name, worlds, actions, k);
    BehaviorKeepsInvariant(e, name, worlds, actions, k + 1);
    BehaviorKeepsEarned(e, name, worlds, actions, k + 1);
    hide Step, Initial, Equivalence, LastAttempt;
    SoundIsDistinct(FirstItems(worlds[0]), e, name, worlds[k + 1].process.inv, worlds[k + 1].runs);
    if items[i].status != "completed" {
      assert Selected(items[i], true);
    } else {
      forall j | 0 <= j < |items| && items[j].path == items[i].path ensures j == i { OnlyMember(e, items, j, i); }
      assert Earned(worlds, actions, k + 1, items[i]);
      SameLastAttempt(worlds, actions, k, items[i].path);
    }
  }

  lemma SameLastAttempt(worlds: seq<World>, actions: seq<Action>, k: nat, path: string)
    requires k < |actions| <= |worlds| && !actions[k].Finish?
    ensures LastAttempt(worlds, actions, k + 1, path) == LastAttempt(worlds, actions, k, path)
  {
  }

  /** What an opening has in memory has no running member, and all statuses are known. */
  lemma {:induction false} OpeningHasNoRunning(e: Paths, name: string, worlds: seq<World>, actions: seq<Action>, k: nat)
    requires Equivalence(e) && Behavior(e, name, worlds, actions) && |worlds| == |actions| + 1 && k < |actions|
    requires actions[k].Open?
    ensures worlds[k + 1].process.Saving?
    ensures var items := worlds[k + 1].process.inv.items;
      forall j :: 0 <= j < |items| ==> KnownStatus(items[j].status) && items[j].status != "running"
  {
    BehaviorKeepsInvariant(e, name, worlds, actions, k + 1);
    var w, a := worlds[k], actions[k];
    assert Step(e, name, w, a, worlds[k + 1]);
    hide Step, Initial, Equivalence, Merged;
    var base := if Visible(w.disk).Some? then Interrupted(Visible(w.disk).value.items) else [];
    MergedAppendsFresh(e, base, a.found, a.now);
  }

  // ---- What an opening finds ----

  /**
   * An opened queue has the members of the file in place and in order, as they were except that none is running, and
   * behind them, if there was no file or a refresh is asked for, the discovered paths that were not members yet: then
   * every discovered path is a member. Without a refresh a file alone decides the members.
   */
  lemma {:induction false} OpenedExactly(e: Paths, stored: Option<Inventory>, name: string, root: string, refresh: bool,
          found: seq<string>, now: int)
    requires Equivalence(e)
    ensures var items := Opened(e, stored, name, root, refresh, found, now).items;
      var before := if stored.Some? then stored.value.items else [];
      && |before| <= |items|
      && (forall i :: 0 <= i < |before| ==>
            items[i] == if before[i].status == "running" then before[i].(status := "interrupted") else before[i])
      && (forall i :: |before| <= i < |items| ==>
            items[i].path in found && items[i] == Item(items[i].path, "pending", 0, [], "", now))
      && (if stored.None? || refresh then forall k :: 0 <= k < |found| ==> IndexOf(e, items, found[k]) >= 0
          else |items| == |before|)
  {
    hide IndexOf, Merged, Equivalence;
    var base := if stored.Some? then Interrupted(stored.value.items) else [];
    MergedAppendsFresh(e, base, found, now);
    forall k | 0 <= k < |found| ensures IndexOf(e, Merged(e, base, found, now), found[k]) >= 0 {
      MergedFindsAll(e, base, found, now, k);
    }
    assert base <= Merged(e, base, found, now);
  }

  // ---- What a session selects ----

  lemma {:induction false} SelectionConcat(a: seq<Item>, b: seq<Item>, retry: bool)
    ensures SelectedPaths(a + b, retry) == SelectedPaths(a, retry) + SelectedPaths(b, retry)
    decreases |a|
  {
    if a == [] {
      assert a + b == b;
    } else {
      assert (a + b)[1..] == a[1..] + b;
      SelectionConcat(a[1..], b, retry);
      var head := if Selected(a[0], retry) then [a[0].path] else [];
      assert head + (SelectedPaths(a[1..], retry) + SelectedPaths(b, retry))
        == head + SelectedPaths(a[1..], retry) + SelectedPaths(b, retry);
    }
  }

  /**
   * A session takes the selected members in the order of the file, without retry exactly the pending ones, and no more
   * than its limit, if it has one.
   */
  lemma {:induction false} SelectionExactly(items: seq<Item>, retry: bool, limit: int, i: nat)
    requires i < |items|
    ensures var all := SelectedPaths(items, retry);
      var todo := Limited(all, limit);
      && todo <= all && (limit <= 0 ==> todo == all)
      && (limit > 0 ==> |todo| == if |all| < limit then |all| else limit)
    ensures SelectedPaths(items, retry)
      == SelectedPaths(items[..i], retry) + SelectedPaths([items[i]], retry) + SelectedPaths(items[i + 1..], retry)
    ensures SelectedPaths([items[i]], retry)
      == var s := items[i].status;
         if s == "pending" || (retry && s !in ["completed", "running"] && KnownStatus(s)) then [items[i].path] else []
  {
    assert items == items[..i] + ([items[i]] + items[i + 1..]);
    SelectionConcat(items[..i], [items[i]] + items[i + 1..], retry);
    SelectionConcat([items[i]], items[i + 1..], retry);
    assert [items[i]][1..] == [];
  }
}
