/** Registry of running tasks (UI/backend/open_webui/tasks.py): the process-local
    dictionaries and, when Redis is configured, a hash and one set per item. Handlers run
    to completion; cancellation itself is not modelled. */
module Tasks {
  import opened Basics
  import opened Sorting

  type Ids = seq<string>

  /** The Redis side: `hash` maps a task to its item ("" for none), `sets` an item to its tasks. */
  datatype Redis = Redis(hash: map<string, string>, sets: map<string, set<string>>)

  /** The local side: `items` is keyed by whatever id the task was created with, also None. */
  datatype Local = Local(tasks: set<string>, items: map<Option<string>, Ids>)

  predicate Truthy(id: Option<string>) { id.Some? && id.value != "" }

  function OrEmpty(id: Option<string>): string { if id.Some? then id.value else "" }

  function OrNone(s: Option<string>): Option<string> { if Truthy(s) then s else None }

  // ----- Redis handlers -----

  function Saved(r: Redis, task: string, id: Option<string>): Redis {
    var item := OrEmpty(id);
    Redis(r.hash[task := item],
          if item == "" then r.sets
          else r.sets[item := (if item in r.sets then r.sets[item] else {}) + {task}])
  }

  function Cleaned(r: Redis, task: string, id: Option<string>): Redis {
    var item := OrEmpty(id);
    Redis(r.hash - {task},
          if item == "" || item !in r.sets then r.sets
          else if r.sets[item] - {task} == {} then r.sets - {item}
          else r.sets[item := r.sets[item] - {task}])
  }

  function Lookup(r: Redis, task: string): Option<string> {
    if task in r.hash then Some(r.hash[task]) else None
  }

  /** Stopping a task looks its item up in the hash and cleans up after it. */
  function Stopped(r: Redis, task: string): Redis { Cleaned(r, task, OrNone(Lookup(r, task))) }

  // ----- Agreement of the two indexes -----

  predicate InSet(r: Redis, task: string, item: string) { item in r.sets && task in r.sets[item] }

  /** A task is in an item's set exactly when the hash maps it to that item, and no empty
      set is stored. */
  ghost predicate Agree(r: Redis) {
    && (forall task: string, item: string :: InSet(r, task, item) <==> task in r.hash && r.hash[task] == item && item != "")
    && forall item :: item in r.sets ==> r.sets[item] != {}
  }

  lemma SavedAgrees(r: Redis, task: string, id: Option<string>)
    requires Agree(r) && task !in r.hash
    ensures Agree(Saved(r, task, id))
  {
    var item, s := OrEmpty(id), Saved(r, task, id);
    forall t: string, i: string ensures InSet(s, t, i) <==> t in s.hash && s.hash[t] == i && i != "" {
      assert InSet(r, t, i) <==> t in r.hash && r.hash[t] == i && i != "";
    }
  }

  lemma CleanedMembers(r: Redis, task: string, id: Option<string>, t: string, i: string)
    ensures InSet(Cleaned(r, task, id), t, i) <==> InSet(r, t, i) && !(t == task && i == OrEmpty(id) && i != "")
  {
    var item := OrEmpty(id);
    if item != "" && item in r.sets && r.sets[item] - {task} == {} {
      assert r.sets[item] <= {task};
    }
  }

  /** Cleaning up keeps the indexes in agreement exactly when it is told the item of the
      task, or the task is unknown or has none. */
  lemma CleanedAgreesIff(r: Redis, task: string, id: Option<string>)
    requires Agree(r)
    ensures Agree(Cleaned(r, task, id)) <==> (task in r.hash && r.hash[task] != "" ==> OrEmpty(id) == r.hash[task])
  {
    var c := Cleaned(r, task, id);
    forall t: string, i: string ensures InSet(c, t, i) <==> InSet(r, t, i) && !(t == task && i == OrEmpty(id) && i != "") {
      CleanedMembers(r, task, id, t, i);
    }
    if task in r.hash && r.hash[task] != "" && OrEmpty(id) != r.hash[task] {
      assert InSet(r, task, r.hash[task]);
      assert InSet(c, task, r.hash[task]) && task !in c.hash;
    }
  }

  /** Two registries that agree and have the same hash are the same. */
  lemma HashDetermines(a: Redis, b: Redis)
    requires Agree(a) && Agree(b) && a.hash == b.hash
    ensures a == b
  {
    forall item ensures item in a.sets <==> item in b.sets {
      SetFromHash(a, b, item);
      SetFromHash(b, a, item);
    }
    forall item | item in a.sets ensures a.sets[item] == b.sets[item] {
      forall t: string ensures t in a.sets[item] <==> t in b.sets[item] {
        assert InSet(a, t, item) <==> InSet(b, t, item);
      }
    }
    assert a.sets == b.sets;
  }

  lemma SetFromHash(a: Redis, b: Redis, item: string)
    requires Agree(a) && Agree(b) && a.hash == b.hash
    ensures item in a.sets ==> item in b.sets
  {
    if item in a.sets {
      var t :| t in a.sets[item];
      assert InSet(a, t, item);
      assert InSet(b, t, item);
    }
  }

  /** The done-callback and a stop commute, and leave what either leaves alone. */
  lemma StopAndCallbackCommute(r: Redis, task: string, id: Option<string>)
    requires Agree(r) && (task in r.hash ==> r.hash[task] == OrEmpty(id))
    ensures Cleaned(Stopped(r, task), task, id) == Stopped(Cleaned(r, task, id), task)
    ensures Cleaned(Stopped(r, task), task, id) == Cleaned(r, task, id)
  {
    var stopped, done := Stopped(r, task), Cleaned(r, task, id);
    CleanedAgreesIff(r, task, id);
    CleanedAgreesIff(r, task, OrNone(Lookup(r, task)));
    CleanedAgreesIff(stopped, task, id);
    CleanedAgreesIff(done, task, OrNone(Lookup(done, task)));
    HashDetermines(Cleaned(stopped, task, id), done);
    HashDetermines(Stopped(done, task), done);
  }

  // ----- Whole histories -----

  datatype Event = Create(task: string, id: Option<string>) | Stop(task: string) | Done(task: string, id: Option<string>)

  ghost function After(events: seq<Event>): Redis {
    if events == [] then Redis(map[], map[])
    else
      var before := After(events[..|events| - 1]);
      match events[|events| - 1]
      case Create(task, id) => Saved(before, task, id)
      case Stop(task) => Stopped(before, task)
      case Done(task, id) => Cleaned(before, task, id)
  }

  /** Task ids are created once, and a callback knows the item its task was created with. */
  ghost predicate IsHistory(events: seq<Event>) {
    && (forall i, j :: 0 <= i < j < |events| && events[i].Create? && events[j].Create? ==> events[i].task != events[j].task)
    && forall j :: 0 <= j < |events| && events[j].Done? ==>
      exists i :: 0 <= i < j && events[i] == Create(events[j].task, events[j].id)
  }

  /** The task was created for this item and neither stopped nor finished since. */
  ghost predicate Running(events: seq<Event>, task: string, item: string) {
    exists i :: 0 <= i < |events| && events[i].Create? && events[i].task == task && OrEmpty(events[i].id) == item
      && forall j :: i < j < |events| ==> events[j].task != task
  }

  lemma RunningNext(events: seq<Event>, e: Event, task: string, item: string)
    ensures Running(events + [e], task, item)
       <==> (if e.task == task then e.Create? && OrEmpty(e.id) == item else Running(events, task, item))
  {
    var more := events + [e];
    if Running(more, task, item) && e.task != task {
      var i :| 0 <= i < |more| && more[i].Create? && more[i].task == task && OrEmpty(more[i].id) == item
        && forall j :: i < j < |more| ==> more[j].task != task;
      assert events[i] == more[i];
      assert forall j :: i < j < |events| ==> events[j] == more[j];
    }
    if e.task == task && e.Create? && OrEmpty(e.id) == item {
      assert more[|events|] == e;
    }
    if e.task != task && Running(events, task, item) {
      var i :| 0 <= i < |events| && events[i].Create? && events[i].task == task && OrEmpty(events[i].id) == item
        && forall j :: i < j < |events| ==> events[j].task != task;
      assert more[i] == events[i];
      assert forall j :: i < j < |more| ==> more[j].task != task;
    }
  }

  lemma HistoryPrefix(events: seq<Event>, init: seq<Event>)
    requires IsHistory(events) && events != [] && init == events[..|events| - 1]
    ensures IsHistory(init)
  {
    forall j | 0 <= j < |init| && init[j].Done? ensures exists i :: 0 <= i < j && init[i] == Create(init[j].task, init[j].id) {
      assert init[j] == events[j];
      var i :| 0 <= i < j && events[i] == Create(events[j].task, events[j].id);
      assert init[i] == events[i];
    }
  }

  lemma {:induction false} RunningWasCreated(events: seq<Event>, task: string, item: string) returns (i: nat)
    requires Running(events, task, item)
    ensures i < |events| && events[i].Create? && events[i].task == task && OrEmpty(events[i].id) == item
  {
    i :| 0 <= i < |events| && events[i].Create? && events[i].task == task && OrEmpty(events[i].id) == item
      && forall j :: i < j < |events| ==> events[j].task != task;
  }

  /** After any history the indexes agree, and they list exactly the running tasks. */
  lemma {:induction false} HistoryAgrees(events: seq<Event>)
    requires IsHistory(events)
    ensures Agree(After(events))
    ensures forall task: string, item: string ::
      (task in After(events).hash && After(events).hash[task] == item) <==> Running(events, task, item)
  {
    if events != [] {
      var n := |events| - 1;
      var init, e := events[..n], events[n];
      HistoryPrefix(events, init);
      HistoryAgrees(init);
      assert events == init + [e];
      var before := After(init);
      if e.task in before.hash {
        EventFits(events, init, e, before.hash[e.task]);
      }
      FittingEventAgrees(before, e, After(events));
      forall task: string, item: string
        ensures (task in After(events).hash && After(events).hash[task] == item) <==> Running(events, task, item)
      {
        RunningNext(init, e, task, item);
      }
    }
  }

  /** A new event fits the tasks that are running: created tasks are new, and a callback
      names the item of its task. */
  ghost predicate Fits(e: Event, hash: map<string, string>) {
    && (e.Create? ==> e.task !in hash)
    && (e.Done? && e.task in hash ==> hash[e.task] == OrEmpty(e.id))
  }

  lemma EventFits(events: seq<Event>, init: seq<Event>, e: Event, item: string)
    requires IsHistory(events) && events == init + [e] && Running(init, e.task, item)
    ensures !e.Create? && (e.Done? ==> item == OrEmpty(e.id))
  {
    var i := RunningWasCreated(init, e.task, item);
    assert events[i] == init[i] && events[|init|] == e;
    if e.Done? {
      var k :| 0 <= k < |init| && events[k] == Create(events[|init|].task, events[|init|].id);
      assert events[k].task == events[i].task;
    }
  }

  lemma FittingEventAgrees(before: Redis, e: Event, after: Redis)
    requires Agree(before) && Fits(e, before.hash)
    requires after == match e
      case Create(task, id) => Saved(before, task, id)
      case Stop(task) => Stopped(before, task)
      case Done(task, id) => Cleaned(before, task, id)
    ensures Agree(after)
  {
    match e
    case Create(task, id) => SavedAgrees(before, task, id);
    case Stop(task) => CleanedAgreesIff(before, task, OrNone(Lookup(before, task)));
    case Done(task, id) => CleanedAgreesIff(before, task, id);
  }

  // ----- The handlers -----

  function Registered(items: map<Option<string>, Ids>, id: Option<string>): Ids {
    if id in items then items[id] else []
  }

  function IndexOf(ids: Ids, task: string): (i: nat)
    ensures i <= |ids|
    ensures i < |ids| ==> ids[i] == task
  {
    if ids == [] || ids[0] == task then 0 else 1 + IndexOf(ids[1..], task)
  }

  function Removed(ids: Ids, task: string): Ids {
    var i := IndexOf(ids, task);
    if i < |ids| then Without(ids, i) else ids
  }

  function LocalCreated(l: Local, task: string, id: Option<string>): Local {
    Local(l.tasks + {task}, l.items[id := Registered(l.items, id) + [task]])
  }

  function LocalCleaned(l: Local, task: string, id: Option<string>): Local {
    var left := Removed(Registered(l.items, id), task);
    Local(l.tasks - {task},
          if !Truthy(id) || task !in Registered(l.items, id) then l.items
          else if left == [] then l.items - {id} else l.items[id := left])
  }

  /** With Redis the local side is left to the callback. */
  function LocalStopped(useRedis: bool, l: Local, task: string): Local {
    if useRedis then l else l.(tasks := l.tasks - {task})
  }

  lemma {:induction false} RemovedLast(ids: Ids, task: string)
    requires task !in ids
    ensures Removed(ids + [task], task) == ids
  {
    IndexOfNew(ids, task);
  }

  lemma {:induction false} IndexOfNew(ids: Ids, task: string)
    requires task !in ids
    ensures IndexOf(ids + [task], task) == |ids|
  {
    if ids != [] {
      IndexOfNew(ids[1..], task);
      assert (ids + [task])[1..] == ids[1..] + [task];
    }
  }

  /** A new task leaves no local trace after its callback exactly when it has an item:
      without one it stays listed. */
  lemma NoTraceIffItem(l: Local, task: string, id: Option<string>)
    requires task !in l.tasks && task !in Registered(l.items, id) && (id in l.items ==> l.items[id] != [])
    ensures LocalCleaned(LocalCreated(l, task, id), task, id) == l <==> Truthy(id)
  {
    var ids := Registered(l.items, id);
    var created := LocalCreated(l, task, id);
    RemovedLast(ids, task);
    assert (ids + [task])[|ids|] == task;
    assert created.items[id] == ids + [task];
    if Truthy(id) {
      assert LocalCleaned(created, task, id).items == l.items;
    } else {
      assert LocalCleaned(created, task, id).items[id] != ids;
    }
  }

  class TaskRegistry {
    const useRedis: bool
    var redis: Redis
    var local: Local

    constructor (useRedis: bool)
      ensures this.useRedis == useRedis && Agree(redis) && local == Local({}, map[])
    {
      this.useRedis := useRedis;
      redis, local := Redis(map[], map[]), Local({}, map[]);
    }

    method CreateTask(task: string, id: Option<string>)
      modifies this
      ensures local == LocalCreated(old(local), task, id)
      ensures redis == if useRedis then Saved(old(redis), task, id) else old(redis)
    {
      var tasks, items := local.tasks + {task}, local.items;
      if id in items && items[id] != [] {
        items := items[id := items[id] + [task]];
      } else {
        assert Registered(items, id) + [task] == [task];
        items := items[id := [task]];
      }
      local := Local(tasks, items);
      if useRedis {
        RedisSaveTask(task, id);
      }
    }

    method RedisSaveTask(task: string, id: Option<string>)
      modifies this`redis
      ensures redis == Saved(old(redis), task, id)
    {
      var hash, sets := redis.hash[task := OrEmpty(id)], redis.sets;
      if Truthy(id) {
        sets := sets[id.value := (if id.value in sets then sets[id.value] else {}) + {task}];
      }
      redis := Redis(hash, sets);
    }

    method RedisCleanupTask(task: string, id: Option<string>)
      modifies this`redis
      ensures redis == Cleaned(old(redis), task, id)
    {
      var hash, sets := redis.hash - {task}, redis.sets;
      if Truthy(id) && id.value in sets {
        sets := sets[id.value := sets[id.value] - {task}];
        if |sets[id.value]| == 0 {
          sets := sets - {id.value};
          assert sets == redis.sets - {id.value};
        }
      }
      redis := Redis(hash, sets);
    }

    /** The done-callback. */
    method CleanupTask(task: string, id: Option<string>)
      modifies this
      ensures local == LocalCleaned(old(local), task, id)
      ensures redis == if useRedis then Cleaned(old(redis), task, id) else old(redis)
    {
      if useRedis {
        RedisCleanupTask(task, id);
      }
      var tasks, items := local.tasks - {task}, local.items;
      if Truthy(id) && task in Registered(items, id) {
        items := items[id := Removed(items[id], task)];
        if items[id] == [] {
          items := items - {id};
          assert items == local.items - {id};
        }
      }
      local := Local(tasks, items);
    }

    /** With Redis a stop always succeeds and leaves the local side to the owner's
        callback; without, it needs a local task. */
    method StopTask(task: string) returns (status: bool)
      modifies this
      ensures redis == if useRedis then Stopped(old(redis), task) else old(redis)
      ensures local == LocalStopped(useRedis, old(local), task)
      ensures status <==> useRedis || task in old(local).tasks
    {
      if useRedis {
        RedisCleanupTask(task, OrNone(Lookup(redis, task)));
        return true;
      }
      status := task in local.tasks;
      local := local.(tasks := local.tasks - {task});
    }

    method HasActiveTasks(id: string) returns (active: bool)
      ensures active <==> if useRedis then id in redis.sets && redis.sets[id] != {} else Registered(local.items, Some(id)) != []
    {
      if useRedis {
        active := id in redis.sets && |redis.sets[id]| > 0;
      } else {
        active := |Registered(local.items, Some(id))| > 0;
      }
    }
  }

  /** With Redis an item is active exactly when one of its tasks is running. */
  lemma ActiveIffRunning(events: seq<Event>, item: string)
    requires IsHistory(events) && item != ""
    ensures item in After(events).sets && After(events).sets[item] != {} <==> exists task :: Running(events, task, item)
  {
    HistoryAgrees(events);
    var r := After(events);
    if item in r.sets && r.sets[item] != {} {
      var task :| task in r.sets[item];
      assert InSet(r, task, item);
      assert Running(events, task, item);
    }
    if task :| Running(events, task, item) {
      assert InSet(r, task, item);
    }
  }
}
