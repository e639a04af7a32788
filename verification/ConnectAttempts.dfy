/**
 * The single-slot registry of connection attempts: registering supersedes, cancelling signals,
 * claiming wins at most once. An attempt's id is drawn before the lock is taken, so registrations
 * may install in another order than they drew.
 */
module ConnectAttempts {
  import opened Arithmetic
  import opened Outcomes

  /**
   * The slot, which attempts' control values are true, which have no receiver left,
   * the atomic counter, and the ids drawn but not installed yet.
   */
  datatype Registry = Registry(active: Option<nat>, signalled: set<nat>, deaf: set<nat>, counter: nat, pending: set<nat>)

  const START := Registry(None, {}, {}, 0, {})

  /** The atomic parts of the calls; `Hangup` is an attempt dropping its receiver. */
  datatype Event = Draw | Install(id: nat) | Cancel | Claim(id: nat) | Unregister(id: nat) | Hangup(id: nat)

  datatype Answer = Nothing | Drew(id: nat) | Said(yes: bool)

  function DrawnId(counter: nat): nat {
    (counter + 1) % U64_END
  }

  /** Sending to a control channel takes effect only while someone listens. */
  function Signal(r: Registry, id: nat): Registry {
    if id in r.deaf then r else r.(signalled := r.signalled + {id})
  }

  predicate CanClaim(r: Registry, id: nat) {
    r.active == Some(id) && id !in r.signalled
  }

  function Step(r: Registry, e: Event): (Registry, Answer) {
    match e
    case Draw =>
      var id := DrawnId(r.counter);
      (r.(counter := r.counter + 1, pending := r.pending + {id}), Drew(id))
    case Install(id) =>
      var told := if r.active.Some? then Signal(r, r.active.value) else r;
      (told.(active := Some(id), pending := r.pending - {id}), Nothing)
    case Cancel =>
      if r.active.None? then (r, Said(false))
      else (Signal(r, r.active.value), Said(r.active.value !in r.deaf))
    case Claim(id) =>
      if CanClaim(r, id) then (r.(active := None), Said(true)) else (r, Said(false))
    case Unregister(id) =>
      (if r.active == Some(id) then r.(active := None) else r, Nothing)
    case Hangup(id) => (r.(deaf := r.deaf + {id}), Nothing)
  }

  /** An id installs once, after it was drawn; a caller can use it only once `register` has returned it. */
  predicate Enabled(r: Registry, e: Event) {
    match e
    case Install(id) => id in r.pending
    case Claim(id) => Returned(r, id)
    case Unregister(id) => Returned(r, id)
    case Hangup(id) => Returned(r, id)
    case _ => true
  }

  predicate Returned(r: Registry, id: nat) {
    1 <= id <= r.counter && id !in r.pending
  }

  predicate Runnable(r: Registry, events: seq<Event>)
    decreases |events|
  {
    events == [] || (Enabled(r, events[0]) && Runnable(Step(r, events[0]).0, events[1..]))
  }

  function AfterAll(r: Registry, events: seq<Event>): Registry
    decreases |events|
  {
    if events == [] then r else AfterAll(Step(r, events[0]).0, events[1..])
  }

  /** The answer to event `i` of a run. */
  function AnswerAt(r: Registry, events: seq<Event>, i: nat): Answer
    requires i < |events|
  {
    Step(AfterAll(r, events[..i]), events[i]).1
  }

  /** Pending and active ids have been drawn, and no id is both. */
  predicate Sound(r: Registry) {
    && r.counter < U64_END
    && (forall id :: id in r.pending ==> 1 <= id <= r.counter)
    && (r.active.Some? ==> Returned(r, r.active.value))
    && (forall id :: id in r.signalled ==> Returned(r, id))
  }

  /** The attempt has had its turn: it is installed no more, or it has been told to stop. */
  predicate Spent(r: Registry, id: nat) {
    Returned(r, id) && (r.active == Some(id) ==> id in r.signalled)
  }

  lemma StepKeeps(r: Registry, e: Event)
    requires Sound(r) && Enabled(r, e) && r.counter + 1 < U64_END
    ensures Sound(Step(r, e).0) && Step(r, e).0.counter <= r.counter + 1
    ensures forall id :: Spent(r, id) ==> Spent(Step(r, e).0, id)
  {
  }

  lemma {:induction false} RunKeeps(r: Registry, events: seq<Event>, id: nat)
    requires Sound(r) && Runnable(r, events) && r.counter + |events| < U64_END
    ensures Sound(AfterAll(r, events)) && AfterAll(r, events).counter <= r.counter + |events|
    ensures Spent(r, id) ==> Spent(AfterAll(r, events), id)
    decreases |events|
  {
    hide Step, Sound, Enabled, Spent;
    if events != [] {
      StepKeeps(r, events[0]);
      RunKeeps(Step(r, events[0]).0, events[1..], id);
    }
  }

  lemma {:induction false} Chained(r: Registry, first: seq<Event>, second: seq<Event>)
    ensures AfterAll(r, first + second) == AfterAll(AfterAll(r, first), second)
    ensures Runnable(r, first + second) <==> Runnable(r, first) && Runnable(AfterAll(r, first), second)
    decreases |first|
  {
    hide Step, Enabled;
    if first == [] {
      assert first + second == second;
    } else {
      assert (first + second)[1..] == first[1..] + second;
      Chained(Step(r, first[0]).0, first[1..], second);
    }
  }

  /** The registry just before event `i`, and just after it. */
  lemma Around(events: seq<Event>, i: nat)
    requires Runnable(START, events) && i < |events| < U64_END
    ensures var r := AfterAll(START, events[..i]);
      && Sound(r) && Enabled(r, events[i]) && r.counter + 1 < U64_END
      && AfterAll(START, events[..i + 1]) == Step(r, events[i]).0
      && Runnable(START, events[..i]) && Runnable(START, events[..i + 1])
  {
    hide Step, Enabled, Sound;
    assert events == events[..i] + events[i..];
    Chained(START, events[..i], events[i..]);
    assert Sound(START) by { SoundStart(); }
    RunKeeps(START, events[..i], 0);
    assert events[..i + 1] == events[..i] + [events[i]];
    Chained(START, events[..i], [events[i]]);
    OneStep(AfterAll(START, events[..i]), events[i]);
    assert events == events[..i + 1] + events[i + 1..];
    Chained(START, events[..i + 1], events[i + 1..]);
  }

  lemma SoundStart()
    ensures Sound(START) && START.counter == 0
  {
  }

  lemma OneStep(r: Registry, e: Event)
    ensures AfterAll(r, [e]) == Step(r, e).0
  {
    assert [e][1..] == [];
  }

  /** Once an attempt is spent it never wins again. */
  lemma SpentNeverWins(events: seq<Event>, i: nat, j: nat, id: nat)
    requires Runnable(START, events) && i < j < |events| < U64_END
    requires Spent(AfterAll(START, events[..i + 1]), id)
    ensures events[j] == Claim(id) ==> AnswerAt(START, events, j) == Said(false)
  {
    hide Sound, Enabled;
    Around(events, i);
    Around(events, j);
    var r := AfterAll(START, events[..i + 1]);
    var between := events[i + 1..j];
    assert events[..j] == events[..i + 1] + between;
    Chained(START, events[..i + 1], between);
    assert Sound(r) by {
      StepKeeps(AfterAll(START, events[..i]), events[i]);
    }
    CounterBound(events, i + 1);
    RunKeeps(r, between, id);
  }

  lemma CounterBound(events: seq<Event>, i: nat)
    requires Runnable(START, events) && i <= |events| < U64_END
    ensures AfterAll(START, events[..i]).counter <= i
  {
    assert events == events[..i] + events[i..];
    Chained(START, events[..i], events[i..]);
    SoundStart();
    RunKeeps(START, events[..i], 0);
  }

  /** What makes an attempt spent: winning, a cancel that reported success, being superseded, unregistering. */
  predicate Retires(r: Registry, e: Event, id: nat) {
    match e
    case Claim(x) => x == id && CanClaim(r, id)
    case Cancel => r.active == Some(id) && Step(r, e).1 == Said(true)
    case Install(x) => r.active == Some(id)
    case Unregister(x) => x == id
    case _ => false
  }

  lemma RetiredIsSpent(r: Registry, e: Event, id: nat)
    requires Sound(r) && Enabled(r, e) && Retires(r, e, id)
    ensures Spent(Step(r, e).0, id)
  {
  }

  /**
   * In every interleaving: an attempt that has won, been superseded, been unregistered, or been active
   * when a cancel returned true, never wins afterwards. In particular each id wins at most once.
   */
  lemma RetiredNeverWins(events: seq<Event>, i: nat, j: nat, id: nat)
    requires Runnable(START, events) && i < j < |events| < U64_END
    requires Retires(AfterAll(START, events[..i]), events[i], id)
    ensures events[j] == Claim(id) ==> AnswerAt(START, events, j) == Said(false)
  {
    hide Step, Sound, Enabled, Spent, Retires;
    Around(events, i);
    RetiredIsSpent(AfterAll(START, events[..i]), events[i], id);
    SpentNeverWins(events, i, j, id);
  }

  lemma WinsOnce(events: seq<Event>, i: nat, j: nat, id: nat)
    requires Runnable(START, events) && i < j < |events| < U64_END
    requires events[i] == Claim(id) && events[j] == Claim(id) && AnswerAt(START, events, i) == Said(true)
    ensures AnswerAt(START, events, j) == Said(false)
  {
    RetiredNeverWins(events, i, j, id);
  }

  /** A freshly installed attempt may complete, and keeps that until something retires it. */
  lemma ClaimableStep(r: Registry, e: Event, id: nat)
    requires Sound(r) && Enabled(r, e)
    ensures e == Install(id) ==> CanClaim(Step(r, e).0, id)
    ensures CanClaim(r, id) && !Retires(r, e, id) ==> CanClaim(Step(r, e).0, id)
  {
  }

  /** The converse: an installed attempt that nothing has retired since does win. */
  lemma {:induction false} UnretiredWins(events: seq<Event>, i: nat, j: nat, id: nat)
    requires Runnable(START, events) && i < j < |events| < U64_END && events[i] == Install(id)
    requires forall k :: i < k < j ==> !Retires(AfterAll(START, events[..k]), events[k], id)
    ensures CanClaim(AfterAll(START, events[..j]), id)
    ensures events[j] == Claim(id) ==> AnswerAt(START, events, j) == Said(true)
    decreases j
  {
    hide Sound, Enabled, Retires;
    Around(events, j - 1);
    ClaimableStep(AfterAll(START, events[..j - 1]), events[j - 1], id);
    if j - 1 > i {
      UnretiredWins(events, i, j - 1, id);
    }
  }

  lemma {:induction false} CounterGrows(r: Registry, events: seq<Event>)
    ensures AfterAll(r, events).counter >= r.counter
    decreases |events|
  {
    if events != [] {
      CounterGrows(Step(r, events[0]).0, events[1..]);
    }
  }

  lemma DrawStep(r: Registry)
    requires r.counter + 1 < U64_END
    ensures Step(r, Draw).0.counter == r.counter + 1 && Step(r, Draw).1 == Drew(r.counter + 1)
  {
  }

  /** No two registrations draw the same id. */
  lemma IdsDistinct(events: seq<Event>, i: nat, j: nat)
    requires Runnable(START, events) && i < j < |events| < U64_END && events[i] == Draw && events[j] == Draw
    ensures AnswerAt(START, events, i) != AnswerAt(START, events, j)
  {
    hide Step, Sound, Enabled, Runnable;
    Around(events, i);
    Around(events, j);
    var between := events[i + 1..j];
    assert events[..j] == events[..i + 1] + between;
    Chained(START, events[..i + 1], between);
    DrawStep(AfterAll(START, events[..i]));
    DrawStep(AfterAll(START, events[..j]));
    CounterGrows(AfterAll(START, events[..i + 1]), between);
  }

  // ---- Being told to stop ----

  /** The attempt is told to stop: it is replaced, or cancelled, while it is in the slot and still listens. */
  predicate TellsToStop(r: Registry, e: Event, id: nat) {
    r.active == Some(id) && id !in r.deaf && (e.Install? || e == Cancel)
  }

  lemma ToldStep(r: Registry, e: Event, id: nat)
    ensures id in Step(r, e).0.signalled <==> id in r.signalled || TellsToStop(r, e, id)
  {
  }

  /**
   * Over every run: an attempt has been told to stop exactly when, at some event so far, it was in the slot and
   * still listening while another was installed or a cancel came. Once told, it stays told.
   */
  lemma {:induction false} ToldExactly(events: seq<Event>, id: nat)
    ensures id in AfterAll(START, events).signalled
      <==> exists i :: 0 <= i < |events| && TellsToStop(AfterAll(START, events[..i]), events[i], id)
    decreases |events|
  {
    hide Step, TellsToStop;
    if events != [] {
      var n := |events| - 1;
      var front := events[..n];
      ToldExactly(front, id);
      assert events == front + [events[n]];
      Chained(START, front, [events[n]]);
      OneStep(AfterAll(START, front), events[n]);
      ToldStep(AfterAll(START, front), events[n], id);
      assert forall i :: 0 <= i < n ==> front[..i] == events[..i] && front[i] == events[i];
      if i :| 0 <= i < n && TellsToStop(AfterAll(START, front[..i]), front[i], id) {
        assert TellsToStop(AfterAll(START, events[..i]), events[i], id);
      }
      if i :| 0 <= i < |events| && TellsToStop(AfterAll(START, events[..i]), events[i], id) {
        assert i < n ==> TellsToStop(AfterAll(START, front[..i]), front[i], id);
      }
    }
  }

  /** An attempt no longer listens exactly once it has hung up. */
  lemma {:induction false} ListensExactly(events: seq<Event>, id: nat)
    ensures id in AfterAll(START, events).deaf <==> Hangup(id) in events
  {
    if events != [] {
      var n := |events| - 1;
      ListensExactly(events[..n], id);
      assert events == events[..n] + [events[n]];
      Chained(START, events[..n], [events[n]]);
      OneStep(AfterAll(START, events[..n]), events[n]);
    }
  }

  /** An attempt that is replaced while it listens is told so, for good. */
  lemma ReplacedIsTold(events: seq<Event>, i: nat, k: nat, replaced: nat)
    requires i < k <= |events| && events[i].Install?
    requires var r := AfterAll(START, events[..i]); r.active == Some(replaced) && replaced !in r.deaf
    ensures replaced in AfterAll(START, events[..k]).signalled
  {
    hide Step;
    var run := events[..k];
    assert run[..i] == events[..i] && run[i] == events[i];
    assert TellsToStop(AfterAll(START, run[..i]), run[i], replaced);
    ToldExactly(run, replaced);
  }

  /** A cancel that returns true has told the attempt in the slot, for good; one that returns false told nobody. */
  lemma CancelTells(events: seq<Event>, i: nat, k: nat)
    requires i < k <= |events| && events[i] == Cancel
    ensures var r := AfterAll(START, events[..i]);
      && (AnswerAt(START, events, i) == Said(true) ==>
            r.active.Some? && r.active.value in AfterAll(START, events[..k]).signalled)
      && (AnswerAt(START, events, i) == Said(false) ==> Step(r, Cancel).0 == r)
      && (AnswerAt(START, events, i) == Said(true) || AnswerAt(START, events, i) == Said(false))
  {
    var r := AfterAll(START, events[..i]);
    var run := events[..k];
    assert run[..i] == events[..i] && run[i] == events[i];
    if AnswerAt(START, events, i) == Said(true) {
      assert TellsToStop(AfterAll(START, run[..i]), run[i], r.active.value);
      ToldExactly(run, r.active.value);
    }
  }

  // ---- When an older attempt supersedes a newer one ----

  /** The holder of the slot gives it up: it wins, it is unregistered, or another attempt is installed. */
  predicate Leaves(r: Registry, e: Event, id: nat) {
    match e
    case Claim(x) => x == id && CanClaim(r, id)
    case Unregister(x) => x == id
    case Install(_) => true
    case _ => false
  }

  /** The attempt installed at `i` is in the slot when one with a smaller id is installed at `k`. */
  predicate OlderTakes(events: seq<Event>, i: nat, k: nat) {
    && i < k < |events| && events[i].Install? && events[k].Install? && events[k].id < events[i].id
    && AfterAll(START, events[..k]).active == Some(events[i].id)
  }

  /** A smaller id is pending at the install `i`, and is installed at `k` before the slot is given up. */
  ghost predicate LateInstall(events: seq<Event>, i: nat, k: nat) {
    && i < k < |events| && events[i].Install? && events[k].Install? && events[k].id < events[i].id
    && events[k].id in AfterAll(START, events[..i]).pending
    && forall j :: i < j < k ==> !Leaves(AfterAll(START, events[..j]), events[j], events[i].id)
  }

  lemma SlotStep(r: Registry, e: Event, id: nat)
    requires Sound(r) && Enabled(r, e) && Returned(r, id) && r.active == Some(id)
    ensures Step(r, e).0.active == Some(id) <==> !Leaves(r, e, id)
  {
  }

  /** An id known before an event is pending after it only if it was before; a returned one stays returned. */
  lemma PendingStep(r: Registry, e: Event, id: nat)
    requires Sound(r) && Enabled(r, e) && r.counter + 1 < U64_END && id <= r.counter
    ensures id in Step(r, e).0.pending ==> id in r.pending
    ensures Returned(r, id) ==> Returned(Step(r, e).0, id)
    ensures e == Install(id) ==> Returned(Step(r, e).0, id) && Step(r, e).0.active == Some(id)
    ensures r.active != Some(id) && Returned(r, id) ==> Step(r, e).0.active != Some(id)
  {
  }

  /** From its install on, an attempt holds the slot exactly as long as no event makes it leave. */
  lemma {:induction false} HoldsUntilLeaving(events: seq<Event>, i: nat, k: nat)
    requires Runnable(START, events) && i < k <= |events| < U64_END && events[i].Install?
    ensures Returned(AfterAll(START, events[..k]), events[i].id)
    ensures AfterAll(START, events[..k]).active == Some(events[i].id)
      <==> forall j :: i < j < k ==> !Leaves(AfterAll(START, events[..j]), events[j], events[i].id)
    decreases k
  {
    hide Step, Sound, Enabled, Leaves, Runnable, Returned;
    var id := events[i].id;
    Around(events, k - 1);
    var r := AfterAll(START, events[..k - 1]);
    InstallKnown(r, events[k - 1]);
    if k - 1 > i {
      HoldsUntilLeaving(events, i, k - 1);
      ReturnedKnown(r, id);
      PendingStep(r, events[k - 1], id);
      if r.active == Some(id) { SlotStep(r, events[k - 1], id); }
    } else {
      PendingStep(r, events[i], id);
    }
  }

  lemma InstallKnown(r: Registry, e: Event)
    requires Sound(r) && Enabled(r, e)
    ensures e.Install? ==> e.id <= r.counter && e.id in r.pending
  {
  }

  lemma ReturnedKnown(r: Registry, id: nat)
    requires Returned(r, id)
    ensures id <= r.counter
  {
  }

  /** An id that is pending later and had been drawn by now is pending now. */
  lemma {:induction false} PendingBefore(events: seq<Event>, i: nat, k: nat, id: nat)
    requires Runnable(START, events) && i <= k < |events| < U64_END
    requires id <= AfterAll(START, events[..i]).counter && id in AfterAll(START, events[..k]).pending
    ensures id in AfterAll(START, events[..i]).pending
    decreases k
  {
    hide Step, Sound, Enabled, Runnable;
    if i < k {
      Around(events, k - 1);
      CounterAt(events, i, k - 1);
      PendingStep(AfterAll(START, events[..k - 1]), events[k - 1], id);
      PendingBefore(events, i, k - 1, id);
    }
  }

  lemma CounterAt(events: seq<Event>, i: nat, k: nat)
    requires i <= k < |events|
    ensures AfterAll(START, events[..i]).counter <= AfterAll(START, events[..k]).counter
  {
    hide Step;
    assert events[..k] == events[..i] + events[i..k];
    Chained(START, events[..i], events[i..k]);
    CounterGrows(AfterAll(START, events[..i]), events[i..k]);
  }

  lemma TakesIsLate(events: seq<Event>, i: nat, k: nat)
    requires Runnable(START, events) && |events| < U64_END
    ensures OlderTakes(events, i, k) <==> LateInstall(events, i, k)
  {
    hide Step, Sound, Enabled, Leaves, Runnable;
    if i < k < |events| && events[i].Install? && events[k].Install? && events[k].id < events[i].id {
      HoldsUntilLeaving(events, i, k);
      Around(events, i);
      Around(events, k);
      InstallKnown(AfterAll(START, events[..i]), events[i]);
      InstallKnown(AfterAll(START, events[..k]), events[k]);
      PendingBefore(events, i, k, events[k].id);
    }
  }

  /**
   * Over every run: an attempt is superseded by an older one exactly when a smaller id was pending as it was
   * installed and is installed before it leaves the slot. Being cancelled does not make it leave.
   */
  lemma SupersededByOlder(events: seq<Event>, i: nat)
    requires Runnable(START, events) && i < |events| < U64_END && events[i].Install?
    ensures (exists k :: OlderTakes(events, i, k)) <==> exists k :: LateInstall(events, i, k)
  {
    hide Runnable, OlderTakes, LateInstall;
    forall k: nat ensures OlderTakes(events, i, k) <==> LateInstall(events, i, k) {
      TakesIsLate(events, i, k);
    }
  }

  /** No install happens while a smaller id is pending. */
  ghost predicate InstallsInOrder(events: seq<Event>) {
    forall i, id :: 0 <= i < |events| && events[i].Install? && id in AfterAll(START, events[..i]).pending ==>
      events[i].id <= id
  }

  /** Then every install takes the slot from a smaller id, or finds it empty. */
  lemma InOrderNeverOlder(events: seq<Event>, k: nat)
    requires Runnable(START, events) && k < |events| < U64_END && events[k].Install? && InstallsInOrder(events[..k + 1])
    ensures var r := AfterAll(START, events[..k]); r.active.Some? ==> r.active.value < events[k].id
  {
    hide Step, Sound, Enabled, Runnable, Leaves;
    var r := AfterAll(START, events[..k]);
    Around(events, k);
    InstallKnown(r, events[k]);
    if r.active.Some? {
      ActiveReturned(r);
      var i := InstalledAt(events, k);
      assert events[..k + 1][..i] == events[..i] && events[..k + 1][i] == events[i];
      TakesIsLate(events, i, k);
    }
  }

  lemma ActiveReturned(r: Registry)
    requires Sound(r) && r.active.Some?
    ensures r.active.value !in r.pending
  {
  }

  /** Whoever holds the slot was installed. */
  lemma {:induction false} InstalledAt(events: seq<Event>, k: nat) returns (i: nat)
    requires Runnable(START, events) && k < |events| < U64_END && AfterAll(START, events[..k]).active.Some?
    ensures i < k && events[i] == Install(AfterAll(START, events[..k]).active.value)
    decreases k
  {
    hide Step, Sound, Enabled, Runnable;
    assert events[..0] == [];
    Around(events, k - 1);
    var r := AfterAll(START, events[..k - 1]);
    ActiveStep(r, events[k - 1]);
    if r.active == AfterAll(START, events[..k]).active {
      i := InstalledAt(events, k - 1);
    } else {
      i := k - 1;
    }
  }

  lemma ActiveStep(r: Registry, e: Event)
    ensures Step(r, e).0.active.Some? && Step(r, e).0.active != r.active ==> e == Install(Step(r, e).0.active.value)
  {
  }

  /** What may follow an install: any continuation of the run that the 64-bit counter allows. */
  ghost predicate Continues(before: seq<Event>, newer: nat, after: seq<Event>) {
    Runnable(START, before + [Install(newer)] + after) && |before| + 1 + |after| < U64_END
  }

  /**
   * An installed attempt is safe from older ones, whatever follows, exactly when no smaller id is pending as it
   * is installed. Otherwise the smaller one can take the slot, win, and leave the newer one refused.
   */
  lemma SafeExactlyWithoutPending(before: seq<Event>, newer: nat)
    requires Runnable(START, before + [Install(newer)]) && |before| + 4 < U64_END
    ensures (forall after, k :: Continues(before, newer, after) ==>
               !OlderTakes(before + [Install(newer)] + after, |before|, k))
      <==> (forall id :: id in AfterAll(START, before).pending ==> newer <= id)
  {
    hide Runnable, OlderTakes, LateInstall, Step;
    var r := AfterAll(START, before);
    if older :| older in r.pending && older < newer {
      var after := [Install(older), Claim(newer), Claim(older)];
      OlderCanTake(before, newer, older);
      assert Continues(before, newer, after);
    } else {
      forall after, k | Continues(before, newer, after)
        ensures !OlderTakes(before + [Install(newer)] + after, |before|, k)
      {
        var run := before + [Install(newer)] + after;
        TakesIsLate(run, |before|, k);
        assert run[..|before|] == before && run[|before|] == Install(newer);
        if LateInstall(run, |before|, k) { LateIsPending(run, |before|, k); }
      }
    }
  }

  lemma LateIsPending(events: seq<Event>, i: nat, k: nat)
    requires LateInstall(events, i, k)
    ensures i < k < |events| && events[i].Install? && events[k].Install? && events[k].id < events[i].id
    ensures events[k].id in AfterAll(START, events[..i]).pending
  {
  }

  /** With an older id pending, that attempt can supersede the newer one and win over it. */
  lemma OlderCanTake(before: seq<Event>, newer: nat, older: nat)
    requires Runnable(START, before + [Install(newer)]) && |before| + 4 < U64_END
    requires older < newer && older in AfterAll(START, before).pending
    ensures var n := |before|; var run := before + [Install(newer)] + [Install(older), Claim(newer), Claim(older)];
      && Runnable(START, run) && OlderTakes(run, n, n + 1)
      && AnswerAt(START, run, n + 2) == Said(false) && AnswerAt(START, run, n + 3) == Said(true)
  {
    hide Step, Enabled, Sound, Runnable;
    var n := |before|;
    var first := before + [Install(newer)];
    var last := [Install(older), Claim(newer), Claim(older)];
    var run := first + last;
    assert first[..n] == before && first[n] == Install(newer);
    Around(first, n);
    assert first[..n + 1] == first;
    var r := AfterAll(START, before);
    InstallKnown(r, Install(newer));
    OldersTurn(r, newer, older);
    var s := Step(r, Install(newer)).0;
    ThreeSteps(s, Install(older), Claim(newer), Claim(older));
    Chained(START, first, last);
    assert run[..n + 1] == first && run[..n] == before && run[n + 1] == Install(older);
    assert run[..n + 2] == first + [Install(older)];
    Chained(START, first, [Install(older)]);
    OneStep(s, Install(older));
    assert run[..n + 3] == first + [Install(older), Claim(newer)];
    Chained(START, first, [Install(older), Claim(newer)]);
    TwoSteps(s, Install(older), Claim(newer));
  }

  lemma OldersTurn(r: Registry, newer: nat, older: nat)
    requires Sound(r) && newer in r.pending && older in r.pending && older < newer
    ensures var s := Step(r, Install(newer)).0; var t := Step(s, Install(older)).0;
      && s.active == Some(newer) && Enabled(s, Install(older))
      && Enabled(t, Claim(newer)) && Step(t, Claim(newer)) == (t, Said(false))
      && Enabled(t, Claim(older)) && Step(t, Claim(older)).1 == Said(true)
  {
  }

  lemma ThreeSteps(r: Registry, a: Event, b: Event, c: Event)
    ensures var s := Step(r, a).0; var t := Step(s, b).0;
      Runnable(r, [a, b, c]) <==> Enabled(r, a) && Enabled(s, b) && Enabled(t, c)
  {
    hide Step, Enabled;
    var s := Step(r, a).0;
    assert [a, b, c][1..] == [b, c] && [b, c][1..] == [c] && [c][1..] == [];
    assert Runnable(Step(s, b).0, [c]) <==> Enabled(Step(s, b).0, c);
    assert Runnable(s, [b, c]) <==> Enabled(s, b) && Runnable(Step(s, b).0, [c]);
  }

  /**
   * The shortest such run: both ids are drawn before either is installed, the newer first. It is then the
   * older attempt that may complete.
   */
  lemma OlderMaySupersede()
    ensures var run := [Draw, Draw, Install(2), Install(1), Claim(2), Claim(1)];
      Runnable(START, run) && AnswerAt(START, run, 4) == Said(false) && AnswerAt(START, run, 5) == Said(true)
  {
    var r0 := START;
    var r1 := Step(r0, Draw).0;
    var r2 := Step(r1, Draw).0;
    var r3 := Step(r2, Install(2)).0;
    var r4 := Step(r3, Install(1)).0;
    var r5 := Step(r4, Claim(2)).0;
    assert r4.active == Some(1) && r4.signalled == {2} && r5 == r4;
    var run := [Draw, Draw, Install(2), Install(1), Claim(2), Claim(1)];
    var tail4: seq<Event> := [Claim(2), Claim(1)];
    assert run[1..][1..][1..][1..] == tail4 && tail4[1..] == [Claim(1)] && [Claim(1)][1..] == [];
    assert Runnable(r5, [Claim(1)]);
    assert Runnable(r4, tail4);
    assert Runnable(r3, run[1..][1..][1..]);
    assert Runnable(r2, run[1..][1..]);
    assert Runnable(r1, run[1..]);
    assert run[..4] == [Draw, Draw] + [Install(2), Install(1)];
    assert run[..5] == run[..4] + [Claim(2)];
    TwoSteps(r0, Draw, Draw);
    TwoSteps(r2, Install(2), Install(1));
    Chained(r0, [Draw, Draw], [Install(2), Install(1)]);
    Chained(r0, run[..4], [Claim(2)]);
    OneStep(r4, Claim(2));
  }

  lemma TwoSteps(r: Registry, a: Event, b: Event)
    ensures AfterAll(r, [a, b]) == Step(Step(r, a).0, b).0
  {
    hide Step;
    assert [a, b][1..] == [b] && [b][1..] == [];
    assert AfterAll(r, [a, b]) == AfterAll(Step(r, a).0, [b]);
  }

  // ---- The registry object: each method is one critical section ----

  class ConnectAttemptRegistry {
    var active: Option<nat>
    var nextId: nat
    var signalled: set<nat>
    var deaf: set<nat>
    ghost var pending: set<nat>

    ghost function State(): Registry
      reads this
    {
      Registry(active, signalled, deaf, nextId, pending)
    }

    constructor ()
      ensures State() == START
    {
      active, nextId, signalled, deaf, pending := None, 0, {}, {}, {};
    }

    /** The first half of `register`: a fetch-and-add outside the lock. */
    method DrawId() returns (id: nat)
      modifies this
      ensures (State(), Drew(id)) == Step(old(State()), Draw)
    {
      id := (nextId + 1) % U64_END;
      nextId := nextId + 1;
      pending := pending + {id};
    }

    /** The second half: replace the slot under the lock and signal what was there. */
    method InstallId(id: nat)
      modifies this
      ensures State() == Step(old(State()), Install(id)).0
    {
      var previous := active;
      active := Some(id);
      pending := pending - {id};
      if previous.Some? && previous.value !in deaf {
        signalled := signalled + {previous.value};
      }
    }

    method CancelActive() returns (yes: bool)
      modifies this
      ensures (State(), Said(yes)) == Step(old(State()), Cancel)
    {
      if active.None? || active.value in deaf { return false; }
      signalled := signalled + {active.value};
      return true;
    }

    method ClaimCompletion(id: nat) returns (yes: bool)
      modifies this
      ensures (State(), Said(yes)) == Step(old(State()), Claim(id))
    {
      yes := active.Some? && active.value == id && id !in signalled;
      if yes {
        active := None;
      }
    }

    method UnregisterId(id: nat)
      modifies this
      ensures State() == Step(old(State()), Unregister(id)).0
    {
      if active.Some? && active.value == id {
        active := None;
      }
    }
  }
}
