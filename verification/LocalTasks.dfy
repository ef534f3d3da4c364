/** The process-local side of the task registry over whole histories, and both sides
    together (UI/backend/open_webui/tasks.py). */
module LocalTasks {
  import opened Basics
  import opened Sorting
  import opened Tasks

  // ----- Stop and callback on the whole registry -----

  datatype Registry = Registry(redis: Redis, local: Local)

  function StoppedBoth(useRedis: bool, g: Registry, task: string): Registry {
    Registry(if useRedis then Stopped(g.redis, task) else g.redis, LocalStopped(useRedis, g.local, task))
  }

  function DoneBoth(useRedis: bool, g: Registry, task: string, id: Option<string>): Registry {
    Registry(if useRedis then Cleaned(g.redis, task, id) else g.redis, LocalCleaned(g.local, task, id))
  }

  /** With or without Redis, a stop and the callback commute on both sides, and leave what
      the callback alone leaves. */
  lemma WholeRegistryCommutes(useRedis: bool, g: Registry, task: string, id: Option<string>)
    requires Agree(g.redis) && (task in g.redis.hash ==> g.redis.hash[task] == OrEmpty(id))
    ensures DoneBoth(useRedis, StoppedBoth(useRedis, g, task), task, id)
         == StoppedBoth(useRedis, DoneBoth(useRedis, g, task, id), task)
         == DoneBoth(useRedis, g, task, id)
  {
    StopAndCallbackCommute(g.redis, task, id);
    assert g.local.tasks - {task} - {task} == g.local.tasks - {task};
  }

  // ----- The local listing after any history -----

  ghost function LocalAfter(useRedis: bool, events: seq<Event>): Local {
    if events == [] then Local({}, map[])
    else
      var before := LocalAfter(useRedis, events[..|events| - 1]);
      match events[|events| - 1]
      case Create(task, id) => LocalCreated(before, task, id)
      case Stop(task) => LocalStopped(useRedis, before, task)
      case Done(task, id) => LocalCleaned(before, task, id)
  }

  ghost predicate CalledBack(e: Event, task: string) { e.Done? && e.task == task }

  /** Created under this id and, where the id is not empty, not called back since. */
  ghost predicate Listed(events: seq<Event>, task: string, id: Option<string>) {
    exists i :: 0 <= i < |events| && events[i] == Create(task, id)
      && (Truthy(id) ==> forall j :: i < j < |events| ==> !CalledBack(events[j], task))
  }

  lemma ListedNext(events: seq<Event>, e: Event, task: string, id: Option<string>)
    ensures Listed(events + [e], task, id)
       <==> e == Create(task, id) || (Listed(events, task, id) && !(Truthy(id) && CalledBack(e, task)))
  {
    var more := events + [e];
    assert more[|events|] == e && forall i :: 0 <= i < |events| ==> more[i] == events[i];
    if Listed(more, task, id) && e != Create(task, id) {
      var i :| 0 <= i < |more| && more[i] == Create(task, id)
        && (Truthy(id) ==> forall j :: i < j < |more| ==> !CalledBack(more[j], task));
      assert i < |events| && events[i] == Create(task, id);
      assert forall j :: i < j < |events| ==> events[j] == more[j];
    }
    if Listed(events, task, id) && !(Truthy(id) && CalledBack(e, task)) {
      var i :| 0 <= i < |events| && events[i] == Create(task, id)
        && (Truthy(id) ==> forall j :: i < j < |events| ==> !CalledBack(events[j], task));
      assert more[i] == Create(task, id);
    }
  }

  /** Every list is free of repetitions, and none is stored empty. */
  ghost predicate ListsOk(l: Local) {
    forall id :: id in l.items ==> l.items[id] != [] && Distinct(l.items[id])
  }

  ghost predicate ListsExactly(l: Local, events: seq<Event>) {
    forall task: string, id: Option<string> :: task in Registered(l.items, id) <==> Listed(events, task, id)
  }

  lemma RemovedMembers(ids: Ids, task: string)
    requires Distinct(ids)
    ensures Distinct(Removed(ids, task))
    ensures forall t :: t in Removed(ids, task) <==> t in ids && t != task
  {
    IndexOfFirst(ids, task);
    if task in ids {
      Sorting.WithoutMembers(ids, IndexOf(ids, task));
    }
  }

  lemma {:induction false} IndexOfFirst(ids: Ids, task: string)
    ensures task in ids <==> IndexOf(ids, task) < |ids|
  {
    if ids != [] && ids[0] != task {
      IndexOfFirst(ids[1..], task);
      assert ids == [ids[0]] + ids[1..];
    }
  }

  lemma CreatedOnce(events: seq<Event>, init: seq<Event>, e: Event, id: Option<string>)
    requires IsHistory(events) && events == init + [e]
    ensures e.Create? ==> !Listed(init, e.task, id)
    ensures e.Done? && Listed(init, e.task, id) ==> e.id == id
  {
    assert events[|init|] == e && forall i :: 0 <= i < |init| ==> events[i] == init[i];
    if Listed(init, e.task, id) {
      var i :| 0 <= i < |init| && init[i] == Create(e.task, id);
      if e.Done? {
        var k :| 0 <= k < |init| && events[k] == Create(events[|init|].task, events[|init|].id);
        assert i < k || k < i || i == k;
      }
    }
  }

  lemma CreateLists(before: Local, init: seq<Event>, task: string, id: Option<string>)
    requires ListsOk(before) && ListsExactly(before, init) && !Listed(init, task, id)
    ensures ListsOk(LocalCreated(before, task, id))
    ensures ListsExactly(LocalCreated(before, task, id), init + [Create(task, id)])
  {
    var after := LocalCreated(before, task, id);
    assert task !in Registered(before.items, id);
    forall t: string, i: Option<string> ensures t in Registered(after.items, i) <==> Listed(init + [Create(task, id)], t, i) {
      ListedNext(init, Create(task, id), t, i);
      assert i == id ==> Registered(after.items, i) == Registered(before.items, id) + [task];
    }
  }

  lemma CleanLists(before: Local, init: seq<Event>, task: string, id: Option<string>)
    requires ListsOk(before) && ListsExactly(before, init)
    requires forall i :: Listed(init, task, i) ==> i == id
    ensures ListsOk(LocalCleaned(before, task, id))
    ensures ListsExactly(LocalCleaned(before, task, id), init + [Done(task, id)])
  {
    var after := LocalCleaned(before, task, id);
    assert Distinct(Registered(before.items, id));
    RemovedMembers(Registered(before.items, id), task);
    forall t: string, i: Option<string> ensures t in Registered(after.items, i) <==> Listed(init + [Done(task, id)], t, i) {
      ListedNext(init, Done(task, id), t, i);
    }
  }

  /** After any history the local table lists, under each id, exactly the tasks created
      with it and, unless the id is empty, not called back. */
  lemma {:induction false} LocalListing(useRedis: bool, events: seq<Event>)
    requires IsHistory(events)
    ensures ListsOk(LocalAfter(useRedis, events)) && ListsExactly(LocalAfter(useRedis, events), events)
  {
    if events != [] {
      var n := |events| - 1;
      var init, e := events[..n], events[n];
      var before := LocalAfter(useRedis, init);
      HistoryPrefix(events, init);
      LocalListing(useRedis, init);
      assert events == init + [e];
      forall id ensures (e.Create? ==> !Listed(init, e.task, id)) && (e.Done? && Listed(init, e.task, id) ==> e.id == id) {
        CreatedOnce(events, init, e, id);
      }
      match e
      case Create(task, id) => CreateLists(before, init, task, id);
      case Done(task, id) => CleanLists(before, init, task, id);
      case Stop(task) => StopLists(useRedis, before, init, task);
    }
  }

  lemma StopLists(useRedis: bool, before: Local, init: seq<Event>, task: string)
    requires ListsOk(before) && ListsExactly(before, init)
    ensures ListsOk(LocalStopped(useRedis, before, task))
    ensures ListsExactly(LocalStopped(useRedis, before, task), init + [Stop(task)])
  {
    var after := LocalStopped(useRedis, before, task);
    forall t: string, i: Option<string> ensures t in Registered(after.items, i) <==> Listed(init + [Stop(task)], t, i) {
      ListedNext(init, Stop(task), t, i);
    }
  }

  /** Without Redis an item is active exactly when a task was created for it and not called
      back since: a stop alone does not make it inactive. */
  lemma LocalActiveIffListed(events: seq<Event>, item: string)
    requires IsHistory(events)
    ensures Registered(LocalAfter(false, events).items, Some(item)) != [] <==> exists task :: Listed(events, task, Some(item))
  {
    LocalListing(false, events);
    var ids := Registered(LocalAfter(false, events).items, Some(item));
    if ids != [] {
      assert ids[0] in ids;
    }
  }

  /** Between a stop and its callback the two branches disagree: with Redis the item is no
      longer active, without it still is. */
  lemma StoppedStaysActive(task: string, item: string)
    requires item != ""
    ensures var events := [Create(task, Some(item)), Stop(task)];
      && IsHistory(events)
      && Registered(LocalAfter(false, events).items, Some(item)) != []
      && !(item in After(events).sets && After(events).sets[item] != {})
  {
    var events := [Create(task, Some(item)), Stop(task)];
    assert events[0] == Create(task, Some(item));
    assert Listed(events, task, Some(item));
    LocalActiveIffListed(events, item);
    ActiveIffRunning(events, item);
    assert !(exists t :: Running(events, t, item));
  }

  // ----- The local set of tasks, which decides a stop without Redis -----

  ghost predicate Ends(useRedis: bool, e: Event, task: string) {
    e.task == task && (e.Done? || (e.Stop? && !useRedis))
  }

  /** Created, and neither called back nor, without Redis, stopped since. */
  ghost predicate Kept(useRedis: bool, events: seq<Event>, task: string) {
    exists i :: 0 <= i < |events| && events[i].Create? && events[i].task == task
      && forall j :: i < j < |events| ==> !Ends(useRedis, events[j], task)
  }

  lemma KeptNext(useRedis: bool, events: seq<Event>, e: Event, task: string)
    ensures Kept(useRedis, events + [e], task)
       <==> (e.Create? && e.task == task) || (Kept(useRedis, events, task) && !Ends(useRedis, e, task))
  {
    var more := events + [e];
    assert more[|events|] == e && forall i :: 0 <= i < |events| ==> more[i] == events[i];
    if Kept(useRedis, more, task) && !(e.Create? && e.task == task) {
      var i :| 0 <= i < |more| && more[i].Create? && more[i].task == task
        && forall j :: i < j < |more| ==> !Ends(useRedis, more[j], task);
      assert events[i].Create? && events[i].task == task;
      assert forall j :: i < j < |events| ==> events[j] == more[j];
    }
    if Kept(useRedis, events, task) && !Ends(useRedis, e, task) {
      var i :| 0 <= i < |events| && events[i].Create? && events[i].task == task
        && forall j :: i < j < |events| ==> !Ends(useRedis, events[j], task);
      assert more[i].Create? && more[i].task == task;
    }
  }

  /** After any events the process holds exactly these tasks; without Redis a stop succeeds
      for them and for no others. */
  lemma {:induction false} TasksKept(useRedis: bool, events: seq<Event>, task: string)
    ensures task in LocalAfter(useRedis, events).tasks <==> Kept(useRedis, events, task)
  {
    if events != [] {
      var n := |events| - 1;
      TasksKept(useRedis, events[..n], task);
      assert events == events[..n] + [events[n]];
      KeptNext(useRedis, events[..n], events[n], task);
    }
  }
}
