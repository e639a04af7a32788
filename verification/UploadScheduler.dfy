/**
 * The upload queue: a bounded number of runners over tasks kept in insertion order, started oldest first.
 * A runner may throw before its first suspension, which frees its slot while the queue is still being processed.
 */
module UploadScheduler {
  datatype Status = Pending | Uploading | Paused | Completed | Failed | Cancelled | Skipped | Interrupted

  datatype Task = Task(id: nat, createdAt: int, status: Status)

  /** A start as it happened: runners of the same upload already running, occupied slots, and the limit. */
  datatype Start = Start(id: nat, sameRunning: nat, occupied: nat, limit: int)

  /** The store, and beside it the runner invocations actually under way and every start so far. */
  datatype Queue = Queue(
    tasks: seq<Task>, runners: set<nat>, active: set<nat>, limit: int, running: multiset<nat>, starts: seq<Start>)

  // ---- The map of uploads ----

  predicate UniqueIds(tasks: seq<Task>) {
    forall i, j :: 0 <= i < j < |tasks| ==> tasks[i].id != tasks[j].id
  }

  predicate HasId(tasks: seq<Task>, id: nat) {
    exists i :: 0 <= i < |tasks| && tasks[i].id == id
  }

  /** Overwriting the entry of one id, where it stands. */
  function Overwrite(tasks: seq<Task>, t: Task): (r: seq<Task>)
    ensures |r| == |tasks| && forall i :: 0 <= i < |r| ==> r[i] == if tasks[i].id == t.id then t else tasks[i]
  {
    seq(|tasks|, i requires 0 <= i < |tasks| => if tasks[i].id == t.id then t else tasks[i])
  }

  /** `Map.set`: an existing key keeps its place, a new one goes to the end. */
  function SetTask(tasks: seq<Task>, t: Task): (r: seq<Task>)
    ensures UniqueIds(tasks) ==> UniqueIds(r)
  {
    if HasId(tasks, t.id) then Overwrite(tasks, t) else tasks + [t]
  }

  function Find(tasks: seq<Task>, id: nat): Task
    requires HasId(tasks, id)
  {
    if tasks[0].id == id then tasks[0] else Find(tasks[1..], id)
  }

  // ---- Oldest first ----

  /** Inserting after everything as old or older. */
  function Insert(t: Task, sorted: seq<Task>): (r: seq<Task>)
    ensures |r| == |sorted| + 1
  {
    if sorted == [] then [t]
    else if t.createdAt < sorted[|sorted| - 1].createdAt then
      Insert(t, sorted[..|sorted| - 1]) + [sorted[|sorted| - 1]]
    else sorted + [t]
  }

  /** The stable sort by creation time. */
  function ByAge(tasks: seq<Task>): (r: seq<Task>)
    ensures |r| == |tasks|
  {
    if tasks == [] then [] else Insert(tasks[|tasks| - 1], ByAge(tasks[..|tasks| - 1]))
  }

  lemma {:induction false} InsertAdds(t: Task, sorted: seq<Task>)
    ensures multiset(Insert(t, sorted)) == multiset(sorted) + multiset{t}
  {
    if sorted != [] && t.createdAt < sorted[|sorted| - 1].createdAt {
      InsertAdds(t, sorted[..|sorted| - 1]);
      assert sorted == sorted[..|sorted| - 1] + [sorted[|sorted| - 1]];
    }
  }

  /** Sorting only rearranges. */
  lemma {:induction false} ByAgeRearranges(tasks: seq<Task>)
    ensures multiset(ByAge(tasks)) == multiset(tasks)
    ensures forall t :: t in ByAge(tasks) <==> t in tasks
  {
    if tasks != [] {
      var n := |tasks| - 1;
      ByAgeRearranges(tasks[..n]);
      InsertAdds(tasks[n], ByAge(tasks[..n]));
      assert tasks == tasks[..n] + [tasks[n]];
    }
    SameElements(ByAge(tasks), tasks);
  }

  lemma SameElements(a: seq<Task>, b: seq<Task>)
    requires multiset(a) == multiset(b)
    ensures forall t :: t in a <==> t in b
  {
    forall t ensures t in a <==> t in b {
      assert t in a <==> t in multiset(a);
      assert t in b <==> t in multiset(b);
    }
  }

  predicate Aged(tasks: seq<Task>) {
    forall i, j :: 0 <= i < j < |tasks| ==> tasks[i].createdAt <= tasks[j].createdAt
  }

  lemma {:induction false} InsertBound(t: Task, sorted: seq<Task>, bound: int)
    requires t.createdAt <= bound && forall i :: 0 <= i < |sorted| ==> sorted[i].createdAt <= bound
    ensures forall i :: 0 <= i <= |sorted| ==> Insert(t, sorted)[i].createdAt <= bound
  {
    if sorted != [] && t.createdAt < sorted[|sorted| - 1].createdAt {
      InsertBound(t, sorted[..|sorted| - 1], bound);
    }
  }

  lemma {:induction false} InsertAged(t: Task, sorted: seq<Task>)
    requires Aged(sorted)
    ensures Aged(Insert(t, sorted))
  {
    if sorted != [] && t.createdAt < sorted[|sorted| - 1].createdAt {
      InsertAged(t, sorted[..|sorted| - 1]);
      InsertBound(t, sorted[..|sorted| - 1], sorted[|sorted| - 1].createdAt);
    }
  }

  lemma {:induction false} ByAgeAged(tasks: seq<Task>)
    ensures Aged(ByAge(tasks))
  {
    if tasks != [] {
      ByAgeAged(tasks[..|tasks| - 1]);
      InsertAged(tasks[|tasks| - 1], ByAge(tasks[..|tasks| - 1]));
    }
  }

  lemma {:induction false} InsertOverwrites(x: Task, sorted: seq<Task>, t: Task)
    requires forall i :: 0 <= i < |sorted| ==> sorted[i].id == t.id ==> sorted[i].createdAt == t.createdAt
    requires x.id == t.id ==> x.createdAt == t.createdAt
    ensures Overwrite(Insert(x, sorted), t) == Insert(if x.id == t.id then t else x, Overwrite(sorted, t))
  {
    if sorted != [] {
      var n := |sorted| - 1;
      assert Overwrite(sorted, t)[..n] == Overwrite(sorted[..n], t);
      if x.createdAt < sorted[n].createdAt {
        InsertOverwrites(x, sorted[..n], t);
        assert Overwrite(Insert(x, sorted), t) == Overwrite(Insert(x, sorted[..n]), t) + [Overwrite(sorted, t)[n]];
      }
    }
  }

  /** Changing anything but its age leaves a task where it was in the order. */
  lemma {:induction false} ByAgeOverwrites(tasks: seq<Task>, t: Task)
    requires forall i :: 0 <= i < |tasks| ==> tasks[i].id == t.id ==> tasks[i].createdAt == t.createdAt
    ensures ByAge(Overwrite(tasks, t)) == Overwrite(ByAge(tasks), t)
  {
    if tasks != [] {
      var n := |tasks| - 1;
      assert Overwrite(tasks, t)[..n] == Overwrite(tasks[..n], t);
      ByAgeOverwrites(tasks[..n], t);
      var sorted := ByAge(tasks[..n]);
      ByAgeRearranges(tasks[..n]);
      forall i | 0 <= i < |sorted| && sorted[i].id == t.id ensures sorted[i].createdAt == t.createdAt {
        assert sorted[i] in tasks[..n];
      }
      InsertOverwrites(tasks[n], sorted, t);
    }
  }

  lemma ByAgeUnique(tasks: seq<Task>)
    requires UniqueIds(tasks)
    ensures UniqueIds(ByAge(tasks))
  {
    var r := ByAge(tasks);
    ByAgeRearranges(tasks);
    forall i, j | 0 <= i < j < |r| ensures r[i].id != r[j].id {
      TwoPlaces(r, i, j);
      assert r[i] in tasks && r[j] in tasks;
      var p :| 0 <= p < |tasks| && tasks[p] == r[i];
      var q :| 0 <= q < |tasks| && tasks[q] == r[j];
      if p == q {
        OnePlace(tasks, p);
      }
    }
  }

  lemma TwoPlaces(r: seq<Task>, i: nat, j: nat)
    requires i < j < |r|
    ensures r[i] == r[j] ==> multiset(r)[r[i]] >= 2
  {
    assert r == r[..i] + [r[i]] + r[i + 1..j] + [r[j]] + r[j + 1..];
  }

  lemma OnePlace(tasks: seq<Task>, p: nat)
    requires UniqueIds(tasks) && p < |tasks|
    ensures multiset(tasks)[tasks[p]] == 1
  {
    assert tasks == tasks[..p] + [tasks[p]] + tasks[p + 1..];
    assert tasks[p] !in tasks[..p] && tasks[p] !in tasks[p + 1..];
  }

  // ---- Which tasks may start ----

  predicate MayStart(q: Queue, t: Task) {
    t.status == Pending && t.id in q.runners && t.id !in q.active
  }

  function Startable(q: Queue, tasks: seq<Task>): (r: seq<Task>)
    ensures forall i :: 0 <= i < |r| ==> r[i] in tasks && MayStart(q, r[i])
  {
    if tasks == [] then []
    else (if MayStart(q, tasks[0]) then [tasks[0]] else []) + Startable(q, tasks[1..])
  }

  lemma StartableStep(q: Queue, tasks: seq<Task>, before: seq<Task>)
    requires tasks != []
    ensures MayStart(q, tasks[0]) <==>
      tasks[0].status == Pending && tasks[0].id in q.runners && tasks[0].id !in q.active
    ensures before + Startable(q, tasks)
      == (before + if MayStart(q, tasks[0]) then [tasks[0]] else []) + Startable(q, tasks[1..])
  {
    assert before + ([] + Startable(q, tasks[1..])) == (before + []) + Startable(q, tasks[1..]);
  }

  lemma NoneStartable(q: Queue, before: seq<Task>)
    ensures before + Startable(q, []) == before
  {
  }

  /** Pending tasks with a registered idle runner, oldest first. */
  function Eligible(q: Queue): seq<Task> {
    Startable(q, ByAge(q.tasks))
  }

  lemma {:induction false} StartableAged(q: Queue, tasks: seq<Task>)
    requires Aged(tasks)
    ensures Aged(Startable(q, tasks))
  {
    if tasks != [] {
      StartableAged(q, tasks[1..]);
      forall i | 0 <= i < |Startable(q, tasks[1..])| ensures tasks[0].createdAt <= Startable(q, tasks[1..])[i].createdAt {
        var t := Startable(q, tasks[1..])[i];
        var j :| 0 <= j < |tasks[1..]| && tasks[1..][j] == t;
        assert tasks[j + 1] == t;
      }
    }
  }

  lemma {:induction false} StartableAll(q: Queue, tasks: seq<Task>, t: Task)
    ensures t in Startable(q, tasks) <==> t in tasks && MayStart(q, t)
  {
    if tasks != [] {
      StartableAll(q, tasks[1..], t);
      assert t in tasks <==> t == tasks[0] || t in tasks[1..];
    }
  }

  /** Exactly the startable tasks are eligible. */
  lemma EligibleAll(q: Queue, t: Task)
    ensures t in Eligible(q) <==> t in q.tasks && MayStart(q, t)
  {
    StartableAll(q, ByAge(q.tasks), t);
    ByAgeRearranges(q.tasks);
  }

  // ---- Starting ----

  /** Starting a runner; one that throws at once fails its task and gives the slot back. */
  function StartOne(q: Queue, t: Task, throws: bool): Queue {
    q.(active := if throws then q.active - {t.id} else q.active + {t.id},
       running := if throws then q.running else q.running + multiset{t.id},
       tasks := SetTask(q.tasks, t.(status := if throws then Failed else Uploading)),
       starts := q.starts + [Start(t.id, q.running[t.id], |q.active|, q.limit)])
  }

  lemma {:induction false} StartableAfter(q: Queue, tasks: seq<Task>, t: Task, throws: bool)
    requires MayStart(q, t) && UniqueIds(tasks)
    ensures Startable(StartOne(q, t, throws), Overwrite(tasks, t.(status := if throws then Failed else Uploading)))
      == WithoutId(Startable(q, tasks), t.id)
  {
    var t' := t.(status := if throws then Failed else Uploading);
    if tasks != [] {
      assert Overwrite(tasks, t')[1..] == Overwrite(tasks[1..], t');
      StartableAfter(q, tasks[1..], t, throws);
      WithoutJoin(if MayStart(q, tasks[0]) then [tasks[0]] else [], Startable(q, tasks[1..]), t.id);
    }
  }

  function WithoutId(tasks: seq<Task>, id: nat): seq<Task> {
    if tasks == [] then [] else (if tasks[0].id == id then [] else [tasks[0]]) + WithoutId(tasks[1..], id)
  }

  lemma {:induction false} WithoutJoin(a: seq<Task>, b: seq<Task>, id: nat)
    ensures WithoutId(a + b, id) == WithoutId(a, id) + WithoutId(b, id)
  {
    if a == [] {
      assert a + b == b;
    } else {
      assert (a + b)[1..] == a[1..] + b;
      WithoutJoin(a[1..], b, id);
    }
  }

  lemma {:induction false} WithoutAbsent(tasks: seq<Task>, id: nat)
    requires !HasId(tasks, id)
    ensures WithoutId(tasks, id) == tasks
  {
    if tasks != [] {
      assert tasks[0].id != id;
      WithoutAbsent(tasks[1..], id);
    }
  }

  lemma {:induction false} StartableUnique(q: Queue, tasks: seq<Task>)
    requires UniqueIds(tasks)
    ensures UniqueIds(Startable(q, tasks))
  {
    if tasks != [] {
      StartableUnique(q, tasks[1..]);
      var rest := Startable(q, tasks[1..]);
      forall i | 0 <= i < |rest| ensures rest[i].id != tasks[0].id {
        assert rest[i] in tasks[1..];
        var j :| 0 <= j < |tasks[1..]| && tasks[1..][j] == rest[i];
        assert tasks[j + 1] == rest[i];
      }
    }
  }

  /** Starting the oldest eligible task leaves exactly the others eligible, in the same order. */
  lemma EligibleAfterStart(q: Queue, throws: bool)
    requires UniqueIds(q.tasks) && Eligible(q) != []
    ensures Eligible(StartOne(q, Eligible(q)[0], throws)) == Eligible(q)[1..]
    ensures UniqueIds(StartOne(q, Eligible(q)[0], throws).tasks)
  {
    hide ByAge, Startable;
    var e := Eligible(q);
    var t := e[0];
    EligibleAll(q, t);
    var t' := t.(status := if throws then Failed else Uploading);
    var p :| 0 <= p < |q.tasks| && q.tasks[p] == t;
    assert HasId(q.tasks, t.id);
    SameAge(q.tasks, p, t');
    ByAgeOverwrites(q.tasks, t');
    ByAgeUnique(q.tasks);
    StartableAfter(q, ByAge(q.tasks), t, throws);
    StartableUnique(q, ByAge(q.tasks));
    WithoutFirst(e);
  }

  lemma SameAge(tasks: seq<Task>, p: nat, t: Task)
    requires UniqueIds(tasks) && p < |tasks| && tasks[p].id == t.id && tasks[p].createdAt == t.createdAt
    ensures forall i :: 0 <= i < |tasks| ==> tasks[i].id == t.id ==> tasks[i].createdAt == t.createdAt
  {
    forall i | 0 <= i < |tasks| && tasks[i].id == t.id ensures tasks[i].createdAt == t.createdAt {
      assert i == p;
    }
  }

  lemma WithoutFirst(e: seq<Task>)
    requires UniqueIds(e) && e != []
    ensures WithoutId(e, e[0].id) == e[1..]
  {
    WithoutAbsent(e[1..], e[0].id);
  }

  // ---- Processing the queue, one start at a time ----

  /** `throws` names the uploads whose runner throws before suspending. */
  function Processed(q: Queue, throws: set<nat>): Queue
    requires UniqueIds(q.tasks)
    decreases |Eligible(q)|
  {
    if |q.active| >= q.limit || Eligible(q) == [] then q
    else
      var t := Eligible(q)[0];
      EligibleAfterStart(q, t.id in throws);
      Processed(StartOne(q, t, t.id in throws), throws)
  }

  /** Every runner invocation under way is an active one, once; every start was within the limit and alone. */
  predicate Sound(q: Queue) {
    && UniqueIds(q.tasks)
    && q.running == multiset(q.active)
    && forall i :: 0 <= i < |q.starts| ==> q.starts[i].sameRunning == 0 && q.starts[i].occupied < q.starts[i].limit
  }

  lemma StartSound(q: Queue, throws: bool)
    requires Sound(q) && Eligible(q) != [] && |q.active| < q.limit
    ensures Sound(StartOne(q, Eligible(q)[0], throws))
  {
    hide ByAge, Startable;
    var t := Eligible(q)[0];
    EligibleAll(q, t);
    EligibleAfterStart(q, throws);
    assert q.active - {t.id} == q.active;
  }

  /**
   * Processing keeps the store sound, starts an initial stretch of the eligible tasks oldest first,
   * and ends with the slots full or nothing eligible left.
   */
  lemma {:induction false} ProcessedKeeps(q: Queue, throws: set<nat>)
    requires Sound(q)
    ensures var r := Processed(q, throws);
      && Sound(r)
      && (|r.active| >= r.limit || Eligible(r) == [])
      && |q.starts| <= |r.starts| <= |q.starts| + |Eligible(q)|
      && r.starts[..|q.starts|] == q.starts
      && (forall i :: 0 <= i < |r.starts| - |q.starts| ==> r.starts[|q.starts| + i].id == Eligible(q)[i].id)
      && Eligible(r) == Eligible(q)[|r.starts| - |q.starts|..]
      && r.runners == q.runners && r.limit == q.limit
    decreases |Eligible(q)|
  {
    hide ByAge, Startable, Eligible, Sound, UniqueIds, StartOne;
    SoundUnique(q);
    if |q.active| < q.limit && Eligible(q) != [] {
      var t := Eligible(q)[0];
      var q' := StartOne(q, t, t.id in throws);
      StartFacts(q, t, t.id in throws);
      StartSound(q, t.id in throws);
      EligibleAfterStart(q, t.id in throws);
      ProcessedKeeps(q', throws);
      var r := Processed(q', throws);
      assert r.starts[..|q.starts|] == q'.starts[..|q.starts|] == q.starts;
      assert r.starts[|q.starts|] == r.starts[..|q'.starts|][|q.starts|];
      forall i | 0 <= i < |r.starts| - |q.starts| ensures r.starts[|q.starts| + i].id == Eligible(q)[i].id {
        if i > 0 {
          assert r.starts[|q'.starts| + (i - 1)].id == Eligible(q')[i - 1].id;
        }
      }
    }
  }

  lemma StartFacts(q: Queue, t: Task, throws: bool)
    ensures var r := StartOne(q, t, throws);
      r.starts == q.starts + [Start(t.id, q.running[t.id], |q.active|, q.limit)] && r.runners == q.runners && r.limit == q.limit
  {
  }

  lemma SoundUnique(q: Queue)
    requires Sound(q)
    ensures UniqueIds(q.tasks)
  {
  }

  /** No upload ever has two runners. */
  lemma OneRunnerEach(q: Queue, id: nat)
    requires Sound(q)
    ensures q.running[id] <= 1
  {
  }

  /** What starts is never younger than an eligible task left waiting. */
  lemma OldestFirst(q: Queue, throws: set<nat>, i: nat, j: nat)
    requires Sound(q) && i < |Processed(q, throws).starts| - |q.starts| && j < |Eligible(Processed(q, throws))|
    ensures i < |Eligible(q)| && Eligible(q)[i].id == Processed(q, throws).starts[|q.starts| + i].id
    ensures Eligible(q)[i].createdAt <= Eligible(Processed(q, throws))[j].createdAt
  {
    ProcessedKeeps(q, throws);
    ByAgeAged(q.tasks);
    StartableAged(q, ByAge(q.tasks));
    var k := |Processed(q, throws).starts| - |q.starts|;
    assert Eligible(Processed(q, throws))[j] == Eligible(q)[k + j];
  }

  // ---- Events ----

  datatype Event =
    | Enqueue(task: Task, withRunner: bool)
    | RegisterRunner(id: nat)
    | Resumed(task: Task)
    | Configure(limit: int)
    | Progress(task: Task)
    | Mark(id: nat, status: Status)
    | Replace(tasks: seq<Task>)
    | Remove(id: nat)
    | Release(id: nat)

  function Normalized(value: int): int {
    if value < 1 then 1 else if value > 8 then 8 else value
  }

  /** The change an event makes before the queue is processed. */
  function Changed(q: Queue, e: Event): Queue {
    match e
    case Enqueue(task, withRunner) =>
      q.(tasks := SetTask(q.tasks, task), runners := if withRunner then q.runners + {task.id} else q.runners)
    case RegisterRunner(id) =>
      if !HasId(q.tasks, id) then q
      else q.(runners := q.runners + {id}, tasks := SetTask(q.tasks, Find(q.tasks, id).(status := Pending)))
    case Resumed(task) => q.(tasks := SetTask(q.tasks, task.(status := Pending)))
    case Configure(limit) => q.(limit := Normalized(limit))
    case Progress(task) => q.(tasks := SetTask(q.tasks, task))
    case Mark(id, status) =>
      if !HasId(q.tasks, id) then q else q.(tasks := SetTask(q.tasks, Find(q.tasks, id).(status := status)))
    case Replace(tasks) =>
      if !UniqueIds(tasks) then q
      else q.(tasks := tasks, runners := set id | id in q.runners && HasId(tasks, id))
    case Remove(id) => q.(tasks := WithoutId(q.tasks, id), runners := q.runners - {id})
    case Release(id) => q.(active := q.active - {id}, running := q.running - multiset{id})
  }

  /** Which events process the queue afterwards; registering for an unknown upload returns early. */
  predicate Wakes(q: Queue, e: Event) {
    match e
    case Enqueue(_, _) => true
    case RegisterRunner(id) => HasId(q.tasks, id)
    case Resumed(_) => true
    case Configure(_) => true
    case Release(_) => true
    case _ => false
  }

  lemma {:induction false} WithoutUnique(tasks: seq<Task>, id: nat)
    requires UniqueIds(tasks)
    ensures UniqueIds(WithoutId(tasks, id))
    ensures forall t :: t in WithoutId(tasks, id) ==> t in tasks && t.id != id
  {
    if tasks != [] {
      WithoutUnique(tasks[1..], id);
      var rest := WithoutId(tasks[1..], id);
      forall i | 0 <= i < |rest| ensures rest[i].id != tasks[0].id {
        assert rest[i] in tasks[1..];
        var j :| 0 <= j < |tasks[1..]| && tasks[1..][j] == rest[i];
        assert tasks[j + 1] == rest[i];
      }
    }
  }

  lemma ChangedSound(q: Queue, e: Event)
    requires Sound(q) && (e.Release? ==> e.id in q.active)
    ensures Sound(Changed(q, e))
  {
    match e
    case Remove(id) => WithoutUnique(q.tasks, id);
    case Release(id) => assert multiset(q.active - {id}) == multiset(q.active) - multiset{id};
    case _ =>
  }

  function After(q: Queue, e: Event, throws: set<nat>): Queue
    requires Sound(q) && (e.Release? ==> e.id in q.active)
  {
    ChangedSound(q, e);
    if Wakes(q, e) then Processed(Changed(q, e), throws) else Changed(q, e)
  }

  datatype Happening = Happening(event: Event, throws: set<nat>)

  const START := Queue([], {}, {}, 3, multiset{}, [])

  /** A runner is released once, while it is running. */
  predicate Possible(q: Queue, hs: seq<Happening>)
    requires Sound(q)
    decreases |hs|
  {
    hs == [] ||
    ((hs[0].event.Release? ==> hs[0].event.id in q.active) &&
     (AfterSound(q, hs[0].event, hs[0].throws); Possible(After(q, hs[0].event, hs[0].throws), hs[1..])))
  }

  function AfterAll(q: Queue, hs: seq<Happening>): Queue
    requires Sound(q) && Possible(q, hs)
    decreases |hs|
  {
    if hs == [] then q
    else
      AfterSound(q, hs[0].event, hs[0].throws);
      AfterAll(After(q, hs[0].event, hs[0].throws), hs[1..])
  }

  lemma AfterSound(q: Queue, e: Event, throws: set<nat>)
    requires Sound(q) && (e.Release? ==> e.id in q.active)
    ensures Sound(After(q, e, throws))
    ensures Wakes(q, e) ==> |After(q, e, throws).active| >= After(q, e, throws).limit || Eligible(After(q, e, throws)) == []
  {
    hide Sound, Processed, Changed, Eligible;
    ChangedSound(q, e);
    if Wakes(q, e) {
      ProcessedKeeps(Changed(q, e), throws);
    }
  }

  /**
   * Over every run: no upload ever has two runners at once, and every runner that was ever started found
   * no other runner of its upload and a free slot.
   */
  lemma {:induction false} RunKeeps(q: Queue, hs: seq<Happening>)
    requires Sound(q) && Possible(q, hs)
    ensures var r := AfterAll(q, hs);
      && Sound(r) && (forall id :: r.running[id] <= 1)
      && forall i :: 0 <= i < |r.starts| ==> r.starts[i].sameRunning == 0 && r.starts[i].occupied < r.starts[i].limit
    decreases |hs|
  {
    hide After;
    if hs == [] {
      forall id ensures q.running[id] <= 1 {
        OneRunnerEach(q, id);
      }
    } else {
      AfterSound(q, hs[0].event, hs[0].throws);
      RunKeeps(After(q, hs[0].event, hs[0].throws), hs[1..]);
    }
  }

  /** A run is its events one after another. */
  lemma {:induction false} RunStep(q: Queue, hs: seq<Happening>, h: Happening)
    requires Sound(q) && Possible(q, hs) && Possible(q, hs + [h])
    ensures Sound(AfterAll(q, hs)) && (h.event.Release? ==> h.event.id in AfterAll(q, hs).active)
    ensures AfterAll(q, hs + [h]) == After(AfterAll(q, hs), h.event, h.throws)
    decreases |hs|
  {
    hide After, Sound;
    if hs != [] {
      assert (hs + [h])[1..] == hs[1..] + [h];
      AfterSound(q, hs[0].event, hs[0].throws);
      RunStep(After(q, hs[0].event, hs[0].throws), hs[1..], h);
    } else {
      assert (hs + [h])[1..] == [];
    }
  }

  // ---- The store object ----

  class UploadStore {
    var tasks: seq<Task>
    var runners: set<nat>
    var activeRunners: set<nat>
    var maxConcurrent: int
    var processing: bool
    ghost var running: multiset<nat>
    ghost var starts: seq<Start>

    ghost function State(): Queue
      reads this
    {
      Queue(tasks, runners, activeRunners, maxConcurrent, running, starts)
    }

    constructor ()
      ensures State() == START && !processing
    {
      tasks, runners, activeRunners, maxConcurrent, processing := [], {}, {}, 3, false;
      running, starts := multiset{}, [];
    }

    /** Batches of as many tasks as there are free slots, until a batch is empty or no slot is free. */
    method ProcessQueue(throws: set<nat>)
      requires UniqueIds(tasks)
      modifies this
      ensures processing == old(processing)
      ensures State() == if old(processing) then old(State()) else Processed(old(State()), throws)
      decreases if processing then 0 else 2
    {
      if processing { return; }
      processing := true;
      ghost var q0 := State();
      while true
        invariant processing && UniqueIds(tasks)
        invariant Processed(State(), throws) == Processed(q0, throws)
        decreases |Eligible(State())|
      {
        var slots := maxConcurrent - |activeRunners|;
        if slots <= 0 { break; }
        var eligible := Waiting();
        var nextTasks := if |eligible| <= slots then eligible else eligible[..slots];
        if |nextTasks| == 0 { break; }
        for k := 0 to |nextTasks|
          invariant processing && UniqueIds(tasks)
          invariant Processed(State(), throws) == Processed(q0, throws)
          invariant Eligible(State()) == eligible[k..]
          invariant |activeRunners| <= maxConcurrent - slots + k
        {
          EligibleAfterStart(State(), nextTasks[k].id in throws);
          StartRunner(nextTasks[k], throws);
        }
      }
      processing := false;
    }

    method Waiting() returns (r: seq<Task>)
      ensures r == Eligible(State())
    {
      hide ByAge, Startable, MayStart;
      var sorted := ByAge(tasks);
      r := [];
      for i := 0 to |sorted|
        invariant r + Startable(State(), sorted[i..]) == Eligible(State())
      {
        assert sorted[i..][1..] == sorted[i + 1..];
        StartableStep(State(), sorted[i..], r);
        if sorted[i].status == Pending && sorted[i].id in runners && sorted[i].id !in activeRunners {
          r := r + [sorted[i]];
        }
      }
      NoneStartable(State(), r);
    }

    /** A runner that throws at once ends in the same call, which asks for the queue again while it is being processed. */
    method StartRunner(task: Task, throws: set<nat>)
      requires processing && UniqueIds(tasks)
      modifies this
      ensures processing == old(processing)
      ensures State() == if task.id in old(runners) && task.id !in old(activeRunners)
        then StartOne(old(State()), task, task.id in throws) else old(State())
      ensures |activeRunners| <= |old(activeRunners)| + 1
      decreases 1
    {
      hide SetTask, UniqueIds;
      if task.id !in runners || task.id in activeRunners { return; }
      IdleTask(State(), task);
      starts := starts + [Start(task.id, running[task.id], |activeRunners|, maxConcurrent)];
      activeRunners := activeRunners + {task.id};
      tasks := SetTask(tasks, task.(status := Uploading));
      if task.id in throws {
        OverwriteTwice(old(tasks), task.(status := Uploading), task.(status := Failed));
        tasks := SetTask(tasks, task.(status := Failed));
        activeRunners := activeRunners - {task.id};
        ProcessQueue(throws);
      } else {
        running := running + multiset{task.id};
      }
    }

    method AddQueued(task: Task, withRunner: bool, throws: set<nat>)
      requires Sound(State()) && !processing
      modifies this
      ensures State() == After(old(State()), Enqueue(task, withRunner), throws) && Sound(State()) && !processing
    {
      hide Processed, Eligible, Sound, StartOne;
      AfterSound(State(), Enqueue(task, withRunner), throws);
      ChangedSound(State(), Enqueue(task, withRunner));
      tasks := SetTask(tasks, task);
      if withRunner { runners := runners + {task.id}; }
      SoundUnique(State());
      ProcessQueue(throws);
    }

    method Register(id: nat, throws: set<nat>)
      requires Sound(State()) && !processing
      modifies this
      ensures State() == After(old(State()), RegisterRunner(id), throws) && Sound(State()) && !processing
    {
      hide Processed, Eligible, Sound, StartOne;
      AfterSound(State(), RegisterRunner(id), throws);
      ChangedSound(State(), RegisterRunner(id));
      if !HasId(tasks, id) { return; }
      runners := runners + {id};
      tasks := SetTask(tasks, Find(tasks, id).(status := Pending));
      SoundUnique(State());
      ProcessQueue(throws);
    }

    /** The last part of `resume`, with the upload as it was read before the backend call. */
    method FinishResume(task: Task, throws: set<nat>)
      requires Sound(State()) && !processing
      modifies this
      ensures State() == After(old(State()), Resumed(task), throws) && Sound(State()) && !processing
    {
      hide Processed, Eligible, Sound, StartOne;
      AfterSound(State(), Resumed(task), throws);
      ChangedSound(State(), Resumed(task));
      tasks := SetTask(tasks, task.(status := Pending));
      SoundUnique(State());
      ProcessQueue(throws);
    }

    method ConfigureConcurrency(value: int, throws: set<nat>)
      requires Sound(State()) && !processing
      modifies this
      ensures State() == After(old(State()), Configure(value), throws) && Sound(State()) && !processing
    {
      hide Processed, Eligible, Sound, StartOne;
      AfterSound(State(), Configure(value), throws);
      ChangedSound(State(), Configure(value));
      maxConcurrent := Normalized(value);
      SoundUnique(State());
      ProcessQueue(throws);
    }

    /** The end of a runner's life: its slot is freed and the queue looked at again. */
    method Finally(id: nat, throws: set<nat>)
      requires Sound(State()) && !processing && id in activeRunners
      modifies this
      ensures State() == After(old(State()), Release(id), throws) && Sound(State()) && !processing
    {
      hide Processed, Eligible, Sound, StartOne;
      AfterSound(State(), Release(id), throws);
      ChangedSound(State(), Release(id));
      activeRunners := activeRunners - {id};
      running := running - multiset{id};
      SoundUnique(State());
      ProcessQueue(throws);
    }

    method ApplyProgress(task: Task)
      requires Sound(State())
      modifies this`tasks
      ensures State() == After(old(State()), Progress(task), {}) && Sound(State())
    {
      ChangedSound(State(), Progress(task));
      tasks := SetTask(tasks, task);
    }

    /** `setStatus` and `markFailed`: nothing happens for an unknown upload. */
    method MarkStatus(id: nat, status: Status)
      requires Sound(State())
      modifies this`tasks
      ensures State() == After(old(State()), Mark(id, status), {}) && Sound(State())
    {
      ChangedSound(State(), Mark(id, status));
      if HasId(tasks, id) {
        tasks := SetTask(tasks, Find(tasks, id).(status := status));
      }
    }

    method SetAll(all: seq<Task>)
      requires Sound(State()) && UniqueIds(all)
      modifies this`tasks, this`runners
      ensures State() == After(old(State()), Replace(all), {}) && Sound(State())
    {
      ChangedSound(State(), Replace(all));
      runners := set id | id in runners && HasId(all, id);
      tasks := all;
    }

    method RemoveTask(id: nat)
      requires Sound(State())
      modifies this`tasks, this`runners
      ensures State() == After(old(State()), Remove(id), {}) && Sound(State())
    {
      ChangedSound(State(), Remove(id));
      tasks := WithoutId(tasks, id);
      runners := runners - {id};
    }
  }

  lemma IdleTask(q: Queue, t: Task)
    requires t.id !in q.active
    ensures q.active + {t.id} - {t.id} == q.active == q.active - {t.id}
  {
  }

  lemma OverwriteTwice(tasks: seq<Task>, a: Task, b: Task)
    requires a.id == b.id
    ensures SetTask(SetTask(tasks, a), b) == SetTask(tasks, b)
  {
    var once := SetTask(tasks, a);
    if HasId(tasks, a.id) {
      assert HasId(once, a.id) by {
        var i :| 0 <= i < |tasks| && tasks[i].id == a.id;
        assert once[i].id == a.id;
      }
    } else {
      assert once[|tasks|].id == a.id;
    }
  }
}
