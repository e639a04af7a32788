/**
 * What each event of the upload queue leads to, said of the uploads themselves: which are started, which wait,
 * and that a free slot is never left empty while an upload could run.
 */
module UploadEvents {
  import opened UploadScheduler

  /** Pending, with a registered runner, and not running. */
  predicate CouldRun(q: Queue, t: Task) {
    t in q.tasks && t.status == Pending && t.id in q.runners && t.id !in q.active
  }

  /** No slot is free, or no upload could run. */
  ghost predicate Busy(q: Queue) {
    |q.active| >= q.limit || forall t :: !CouldRun(q, t)
  }

  function Starts(q: Queue, id: nat): nat {
    multiset(seq(|q.starts|, i requires 0 <= i < |q.starts| => q.starts[i].id))[id]
  }

  /** Started meanwhile: once, and running now unless its runner threw. */
  predicate Started(before: Queue, after: Queue, throws: set<nat>, id: nat) {
    && Starts(after, id) == Starts(before, id) + 1
    && HasId(after.tasks, id)
    && if id in throws then Find(after.tasks, id).status == Failed else Find(after.tasks, id).status == Uploading && id in after.active
  }

  /** Left as it was: the entry, and whether it runs. */
  predicate Left(before: Queue, after: Queue, id: nat) {
    && Starts(after, id) == Starts(before, id)
    && (id in after.active <==> id in before.active)
    && (HasId(after.tasks, id) <==> HasId(before.tasks, id))
    && (HasId(before.tasks, id) ==> Find(after.tasks, id) == Find(before.tasks, id))
  }

  lemma EligibleIsCouldRun(q: Queue)
    ensures Eligible(q) == [] <==> forall t :: !CouldRun(q, t)
  {
    forall t ensures t in Eligible(q) <==> CouldRun(q, t) {
      EligibleAll(q, t);
    }
    if Eligible(q) != [] {
      assert CouldRun(q, Eligible(q)[0]) by { assert Eligible(q)[0] in Eligible(q); }
    }
  }

  // ---- One entry among many ----

  lemma FindIs(tasks: seq<Task>, t: Task)
    requires UniqueIds(tasks) && t in tasks
    ensures HasId(tasks, t.id) && Find(tasks, t.id) == t
  {
    if tasks[0] != t {
      assert t in tasks[1..];
      var i :| 0 <= i < |tasks| && tasks[i] == t;
      assert tasks[0].id != t.id;
      FindIs(tasks[1..], t);
    }
  }

  lemma {:induction false} FindAt(tasks: seq<Task>, id: nat)
    requires HasId(tasks, id)
    ensures Find(tasks, id) in tasks && Find(tasks, id).id == id
  {
    if tasks[0].id != id {
      var i :| 0 <= i < |tasks| && tasks[i].id == id;
      assert tasks[1..][i - 1].id == id;
      FindAt(tasks[1..], id);
    }
  }

  /** Setting an entry gives that entry, and leaves the others. */
  lemma SetThenFind(tasks: seq<Task>, t: Task, id: nat)
    requires UniqueIds(tasks)
    ensures var r := SetTask(tasks, t);
      && UniqueIds(r) && (HasId(r, id) <==> id == t.id || HasId(tasks, id))
      && (HasId(r, id) ==> Find(r, id) == if id == t.id then t else Find(tasks, id))
  {
    var r := SetTask(tasks, t);
    SetHas(tasks, t, id);
    assert t in r by { SetHolds(tasks, t); }
    FindIs(r, t);
    if id != t.id && HasId(tasks, id) {
      FindAt(tasks, id);
      var u := Find(tasks, id);
      var i :| 0 <= i < |tasks| && tasks[i] == u;
      assert r[i] == u;
      FindIs(r, u);
    }
  }

  lemma SetHolds(tasks: seq<Task>, t: Task)
    ensures t in SetTask(tasks, t)
  {
    var r := SetTask(tasks, t);
    if i :| 0 <= i < |tasks| && tasks[i].id == t.id {
      assert r[i] == t;
    } else {
      assert r[|tasks|] == t;
    }
  }

  lemma SetHas(tasks: seq<Task>, t: Task, id: nat)
    ensures HasId(SetTask(tasks, t), id) <==> id == t.id || HasId(tasks, id)
  {
    var r := SetTask(tasks, t);
    SetHolds(tasks, t);
    if i :| 0 <= i < |tasks| && tasks[i].id == id {
      assert r[i].id == id;
    }
    if j :| 0 <= j < |r| && r[j].id == id {
      if j < |tasks| { assert tasks[j].id == id || id == t.id; }
    }
  }

  // ---- Processing ----

  lemma StartsMore(q: Queue, s: Start, id: nat)
    ensures Starts(q.(starts := q.starts + [s]), id) == Starts(q, id) + if s.id == id then 1 else 0
  {
    var a := seq(|q.starts|, i requires 0 <= i < |q.starts| => q.starts[i].id);
    var b := seq(|q.starts| + 1, i requires 0 <= i < |q.starts| + 1 => (q.starts + [s])[i].id);
    assert b == a + [s.id];
  }

  lemma StartOneFacts(q: Queue, t: Task, throws: set<nat>, id: nat)
    requires Sound(q) && CouldRun(q, t)
    ensures var r := StartOne(q, t, t.id in throws);
      if id == t.id then Started(q, r, throws, id) else Left(q, r, id)
  {
    hide SetTask, Find, HasId, Starts;
    var t' := t.(status := if t.id in throws then Failed else Uploading);
    var s := Start(t.id, q.running[t.id], |q.active|, q.limit);
    SetThenFind(q.tasks, t', id);
    StartsMore(q, s, id);
    StartsAlone(q.(starts := q.starts + [s]), StartOne(q, t, t.id in throws), id);
  }

  lemma StartsAlone(q: Queue, r: Queue, id: nat)
    requires q.starts == r.starts
    ensures Starts(q, id) == Starts(r, id)
  {
  }

  /** Processing starts an upload or leaves it, and starts only what could run. */
  lemma {:induction false} ProcessedEach(q: Queue, throws: set<nat>, id: nat)
    requires Sound(q)
    ensures var r := Processed(q, throws);
      Left(q, r, id) || (Started(q, r, throws, id) && HasId(q.tasks, id) && CouldRun(q, Find(q.tasks, id)))
    decreases |Eligible(q)|
  {
    hide Eligible, Sound, StartOne, Starts, Find, HasId, UniqueIds;
    SoundUnique(q);
    if |q.active| < q.limit && Eligible(q) != [] {
      var t := Eligible(q)[0];
      EligibleAll(q, t);
      StartSound(q, t.id in throws);
      EligibleAfterStart(q, t.id in throws);
      StartOneFacts(q, t, throws, id);
      var q' := StartOne(q, t, t.id in throws);
      ProcessedEach(q', throws, id);
      StartFacts(q, t, t.id in throws);
      if HasId(q.tasks, id) { FindAt(q.tasks, id); }
      if id == t.id {
        FoundTask(q, t);
        StartedCannotRun(q, q', throws, id);
      }
    }
  }

  lemma FoundTask(q: Queue, t: Task)
    requires Sound(q) && t in q.tasks
    ensures HasId(q.tasks, t.id) && Find(q.tasks, t.id) == t
  {
    FindIs(q.tasks, t);
  }

  lemma StartedCannotRun(q: Queue, r: Queue, throws: set<nat>, id: nat)
    requires Started(q, r, throws, id)
    ensures !CouldRun(r, Find(r.tasks, id))
  {
  }

  /** After processing the slots are full or no upload could run; each upload was started or left. */
  lemma ProcessedBusy(q: Queue, throws: set<nat>)
    requires Sound(q)
    ensures Sound(Processed(q, throws)) && Busy(Processed(q, throws))
    ensures Processed(q, throws).limit == q.limit && Processed(q, throws).runners == q.runners
  {
    hide Sound, Processed, Eligible;
    SoundUnique(q);
    ProcessedKeeps(q, throws);
    EligibleIsCouldRun(Processed(q, throws));
  }

  // ---- Events ----

  /** As it should be for upload `id` after an event that gave it this entry: unchanged or started, and no idle slot. */
  ghost predicate Settled(before: Queue, after: Queue, throws: set<nat>, t: Task) {
    && Busy(after) && HasId(after.tasks, t.id)
    && if Starts(after, t.id) == Starts(before, t.id) then Find(after.tasks, t.id) == t
       else Starts(after, t.id) == Starts(before, t.id) + 1 && t.status == Pending
            && Find(after.tasks, t.id) == t.(status := if t.id in throws then Failed else Uploading)
  }

  lemma SettledBy(q: Queue, throws: set<nat>, t: Task)
    requires Sound(q) && HasId(q.tasks, t.id) && Find(q.tasks, t.id) == t
    ensures Settled(q, Processed(q, throws), throws, t)
  {
    hide Sound, Processed, Eligible, Starts, Find, HasId, Busy;
    ProcessedBusy(q, throws);
    ProcessedEach(q, throws, t.id);
    ProcessedEntry(q, throws, t);
  }

  /** A start changes nothing of an entry but its status. */
  lemma {:induction false} ProcessedEntry(q: Queue, throws: set<nat>, t: Task)
    requires Sound(q) && HasId(q.tasks, t.id) && Find(q.tasks, t.id) == t
    ensures var r := Processed(q, throws);
      HasId(r.tasks, t.id) && Find(r.tasks, t.id) == t.(status := Find(r.tasks, t.id).status)
    decreases |Eligible(q)|
  {
    hide Eligible, Sound, Starts, Find, HasId, UniqueIds, SetTask;
    SoundUnique(q);
    if |q.active| < q.limit && Eligible(q) != [] {
      var u := Eligible(q)[0];
      EligibleAll(q, u);
      StartSound(q, u.id in throws);
      EligibleAfterStart(q, u.id in throws);
      var u' := u.(status := if u.id in throws then Failed else Uploading);
      SetThenFind(q.tasks, u', t.id);
      FoundTask(q, u);
      var q' := StartOne(q, u, u.id in throws);
      ProcessedEntry(q', throws, Find(q'.tasks, t.id));
    }
  }

  /** A queued upload is there as it came or has been started, and no slot stays free while an upload could run. */
  lemma EnqueueSettles(q: Queue, task: Task, withRunner: bool, throws: set<nat>)
    requires Sound(q)
    ensures var r := After(q, Enqueue(task, withRunner), throws);
      Settled(q, r, throws, task) && r.runners == (if withRunner then q.runners + {task.id} else q.runners)
  {
    hide Sound, Processed, Eligible, Starts, Find, HasId, SetTask, Busy, Settled;
    var e := Enqueue(task, withRunner);
    ChangedSound(q, e);
    SoundUnique(q);
    SetThenFind(q.tasks, task, task.id);
    SettledBy(Changed(q, e), throws, task);
    ProcessedBusy(Changed(q, e), throws);
    SettledSince(q, Changed(q, e), After(q, e, throws), throws, task);
  }

  lemma SettledSince(q: Queue, changed: Queue, after: Queue, throws: set<nat>, t: Task)
    requires changed.starts == q.starts && Settled(changed, after, throws, t)
    ensures Settled(q, after, throws, t)
  {
    hide Busy, Starts;
    StartsAlone(q, changed, t.id);
  }

  /** A resumed upload is pending or has been started. */
  lemma ResumeSettles(q: Queue, task: Task, throws: set<nat>)
    requires Sound(q)
    ensures Settled(q, After(q, Resumed(task), throws), throws, task.(status := Pending))
  {
    hide Sound, Processed, Eligible, Starts, Find, HasId, SetTask, Busy, Settled;
    var e, t := Resumed(task), task.(status := Pending);
    ChangedSound(q, e);
    SoundUnique(q);
    SetThenFind(q.tasks, t, task.id);
    SettledBy(Changed(q, e), throws, t);
    SettledSince(q, Changed(q, e), After(q, e, throws), throws, t);
  }

  /** Registering a runner makes a known upload pending, with that runner, or starts it; an unknown one changes nothing. */
  lemma RegisterSettles(q: Queue, id: nat, throws: set<nat>)
    requires Sound(q)
    ensures var r := After(q, RegisterRunner(id), throws);
      if !HasId(q.tasks, id) then r == q
      else id in r.runners && Settled(q, r, throws, Find(q.tasks, id).(status := Pending))
  {
    hide Sound, Processed, Eligible, Starts, Find, HasId, SetTask, Busy, Settled;
    var e := RegisterRunner(id);
    ChangedSound(q, e);
    if HasId(q.tasks, id) {
      FindAt(q.tasks, id);
      var t := Find(q.tasks, id).(status := Pending);
      SoundUnique(q);
      SetThenFind(q.tasks, t, id);
      SettledBy(Changed(q, e), throws, t);
      ProcessedBusy(Changed(q, e), throws);
      SettledSince(q, Changed(q, e), After(q, e, throws), throws, t);
    }
  }

  /** The limit becomes the value brought into the range 1 to 8, and new slots are taken at once. */
  lemma ConfigureFills(q: Queue, value: int, throws: set<nat>)
    requires Sound(q)
    ensures var r := After(q, Configure(value), throws);
      && Busy(r) && 1 <= r.limit <= 8
      && (1 <= value <= 8 ==> r.limit == value) && (value < 1 ==> r.limit == 1) && (value > 8 ==> r.limit == 8)
  {
    hide Sound, Processed, Eligible, Busy;
    ChangedSound(q, Configure(value));
    ProcessedBusy(Changed(q, Configure(value)), throws);
  }

  /** The end of a runner frees its slot, and the slot is taken again at once if any upload could run. */
  lemma ReleaseFills(q: Queue, id: nat, throws: set<nat>)
    requires Sound(q) && id in q.active
    ensures var r := After(q, Release(id), throws);
      && Busy(r) && r.limit == q.limit
      && (id in r.active ==> Starts(r, id) == Starts(q, id) + 1 && HasId(q.tasks, id) && Find(q.tasks, id).status == Pending)
  {
    hide Sound, Processed, Eligible, Busy, Starts, Find, HasId;
    var e := Release(id);
    ChangedSound(q, e);
    ProcessedBusy(Changed(q, e), throws);
    ProcessedEach(Changed(q, e), throws, id);
    StartsAlone(q, Changed(q, e), id);
  }

  /** Progress, a status change, a new list and a removal start nothing and stop nothing. */
  lemma OthersStartNothing(q: Queue, e: Event, throws: set<nat>)
    requires Sound(q) && (e.Progress? || e.Mark? || e.Replace? || e.Remove?)
    ensures var r := After(q, e, throws); r.starts == q.starts && r.active == q.active && r.limit == q.limit
  {
  }

  /** They set, or take out, exactly the entry they name. */
  lemma OthersSetTheirs(q: Queue, e: Event, throws: set<nat>, id: nat)
    requires Sound(q) && (e.Progress? || e.Mark? || e.Remove?)
    ensures var r := After(q, e, throws); var named := if e.Progress? then e.task.id else e.id;
      && (HasId(r.tasks, id) <==> if id == named then e.Progress? || (e.Mark? && HasId(q.tasks, id)) else HasId(q.tasks, id))
      && (HasId(r.tasks, id) && id != named ==> Find(r.tasks, id) == Find(q.tasks, id))
      && (e.Progress? && id == named ==> Find(r.tasks, id) == e.task)
      && (e.Mark? && id == named && HasId(q.tasks, id) ==>
            Find(r.tasks, id) == Find(q.tasks, id).(status := e.status))
      && r.runners == if e.Remove? then q.runners - {e.id} else q.runners
  {
    hide Processed, Eligible, Find, HasId, SetTask, UniqueIds;
    SoundUnique(q);
    match e
    case Progress(t) => SetThenFind(q.tasks, t, id);
    case Mark(n, status) =>
      if HasId(q.tasks, n) {
        FindAt(q.tasks, n);
        SetThenFind(q.tasks, Find(q.tasks, n).(status := status), id);
      }
    case Remove(n) => WithoutThenFind(q.tasks, n, id);
  }

  lemma {:induction false} WithoutThenFind(tasks: seq<Task>, n: nat, id: nat)
    requires UniqueIds(tasks)
    ensures var r := WithoutId(tasks, n);
      && (HasId(r, id) <==> id != n && HasId(tasks, id))
      && (HasId(r, id) ==> Find(r, id) == Find(tasks, id))
  {
    if tasks != [] {
      WithoutThenFind(tasks[1..], n, id);
      var rest := WithoutId(tasks[1..], n);
      HasCons(tasks[0], tasks[1..], id);
      HasCons(tasks[0], rest, id);
      assert [tasks[0]] + tasks[1..] == tasks && ([tasks[0]] + rest)[1..] == rest;
      assert [] + rest == rest;
    }
  }

  lemma HasCons(t: Task, rest: seq<Task>, id: nat)
    ensures HasId([t] + rest, id) <==> t.id == id || HasId(rest, id)
  {
    if i :| 0 <= i < |rest| && rest[i].id == id {
      assert ([t] + rest)[i + 1].id == id;
    }
    if t.id == id { assert ([t] + rest)[0].id == id; }
  }
}
