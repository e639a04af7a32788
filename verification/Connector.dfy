/**
 * The frame dispatcher of a multiplexed connection: streams are begun here and by the peer, frames are
 * routed to per-stream queues, and streams end by a conclusion from either side, by their receiver
 * going away, by their id being taken again, or with the connection.
 */
module Connector {
  import opened Arithmetic
  import opened Frame
  import opened Outcomes

  /** A stream's receiving end: what has been put in its queue, and whether anyone still holds it. */
  datatype Stream = Stream(id: U32, queue: seq<Bytes>, held: bool)

  /** The connection: which stream each id leads to, every stream ever made, and the dispatch loop. */
  datatype Net = Net(routes: map<U32, nat>, streams: seq<Stream>, nextId: U32, looping: bool, accepting: bool)

  const START := Net(map[], [], 1, true, true)

  datatype Event =
    | Incoming(data: Bytes)
    | Open
    | Conclude(id: U32)
    | Drop(stream: nat)
    | StopAccepting
    | Closed

  function NextId(id: U32): U32 {
    (id + 2) % 0x1_0000_0000
  }

  /** A new stream takes over its id, whatever held it before. */
  function Register(n: Net, id: U32, held: bool): Net {
    n.(routes := n.routes[id := |n.streams|], streams := n.streams + [Stream(id, [], held)])
  }

  function Deliver(n: Net, id: U32, payload: Bytes): Net {
    if id !in n.routes || n.routes[id] >= |n.streams| then n
    else
      var s := n.streams[n.routes[id]];
      if s.held then n.(streams := n.streams[n.routes[id] := s.(queue := s.queue + [payload])])
      else n.(routes := n.routes - {id})
  }

  function Dispatch(n: Net, f: Frame): Net {
    var known := if f.id in n.routes then n else Register(n, f.id, n.accepting);
    var routed := Deliver(known, f.id, f.payload);
    if f.kind == Conclusion then routed.(routes := routed.routes - {f.id}) else routed
  }

  function After(n: Net, e: Event): Net {
    match e
    case Incoming(data) =>
      if !n.looping then n
      else
        (match Decode(data)
         case Err(_) => n.(looping := false)
         case Ok(f) => Dispatch(n, f))
    case Open => Register(n, n.nextId, true).(nextId := NextId(n.nextId))
    case Conclude(id) => n.(routes := n.routes - {id})
    case Drop(s) => if s < |n.streams| then n.(streams := n.streams[s := n.streams[s].(held := false)]) else n
    case StopAccepting => n.(accepting := false)
    case Closed => if n.looping then n.(routes := map[], looping := false) else n
  }

  function AfterAll(n: Net, events: seq<Event>): Net
    decreases |events|
  {
    if events == [] then n else AfterAll(After(n, events[0]), events[1..])
  }

  // ---- What a stream should hear ----

  /** The payloads for stream `s` under `id` among the events that follow its registration. */
  function Heard(id: U32, s: nat, nextId: U32, events: seq<Event>): seq<Bytes>
    decreases |events|
  {
    if events == [] then []
    else
      var rest := events[1..];
      match events[0]
      case Incoming(data) =>
        (match Decode(data)
         case Err(_) => []
         case Ok(f) =>
           if f.id != id then Heard(id, s, nextId, rest)
           else if f.kind == Conclusion then [f.payload]
           else [f.payload] + Heard(id, s, nextId, rest))
      case Open => if nextId == id then [] else Heard(id, s, NextId(nextId), rest)
      case Conclude(other) => if other == id then [] else Heard(id, s, nextId, rest)
      case Drop(stream) => if stream == s then [] else Heard(id, s, nextId, rest)
      case StopAccepting => Heard(id, s, nextId, rest)
      case Closed => []
  }

  /** Every route leads to a stream of that id. */
  predicate Sound(n: Net) {
    forall id :: id in n.routes ==> n.routes[id] < |n.streams| && n.streams[n.routes[id]].id == id
  }

  /** No stream disappears or changes its id. */
  predicate Grown(n: Net, n': Net) {
    && |n.streams| <= |n'.streams|
    && forall s :: 0 <= s < |n.streams| ==> n'.streams[s].id == n.streams[s].id
  }

  lemma RegisterSound(n: Net, id: U32, held: bool)
    requires Sound(n)
    ensures Sound(Register(n, id, held)) && Grown(n, Register(n, id, held))
  {
  }

  lemma DeliverSound(n: Net, id: U32, payload: Bytes)
    requires Sound(n)
    ensures Sound(Deliver(n, id, payload)) && Grown(n, Deliver(n, id, payload))
  {
  }

  lemma DispatchSound(n: Net, f: Frame)
    requires Sound(n)
    ensures Sound(Dispatch(n, f)) && Grown(n, Dispatch(n, f))
  {
    hide Register, Deliver;
    RegisterSound(n, f.id, n.accepting);
    DeliverSound(if f.id in n.routes then n else Register(n, f.id, n.accepting), f.id, f.payload);
  }

  lemma StepSound(n: Net, e: Event)
    requires Sound(n)
    ensures Sound(After(n, e)) && Grown(n, After(n, e))
  {
    hide Register, Dispatch, Decode;
    match e
    case Incoming(data) =>
      if Decode(data).Ok? { DispatchSound(n, Decode(data).value); }
    case Open => RegisterSound(n, n.nextId, true);
    case _ =>
  }

  lemma {:induction false} RunSound(n: Net, events: seq<Event>)
    requires Sound(n)
    ensures Sound(AfterAll(n, events)) && |AfterAll(n, events).streams| >= |n.streams|
    decreases |events|
  {
    hide After, Sound;
    if events != [] {
      StepSound(n, events[0]);
      RunSound(After(n, events[0]), events[1..]);
    }
  }

  /** Frames still reach stream `s`. */
  predicate Live(n: Net, s: nat) {
    s < |n.streams| && n.looping && n.streams[s].held && n.streams[s].id in n.routes && n.routes[n.streams[s].id] == s
  }

  lemma DeadStays(n: Net, s: nat, e: Event)
    requires Sound(n) && s < |n.streams| && !Live(n, s)
    ensures s < |After(n, e).streams| && !Live(After(n, e), s) && After(n, e).streams[s].queue == n.streams[s].queue
  {
    hide Decode, Dispatch;
    if n.looping && e.Incoming? && Decode(e.data).Ok? {
      DeadDispatch(n, s, Decode(e.data).value);
    }
  }

  lemma DeadDispatch(n: Net, s: nat, f: Frame)
    requires Sound(n) && s < |n.streams| && n.looping && !Live(n, s)
    ensures var n' := Dispatch(n, f);
      s < |n'.streams| && !Live(n', s) && n'.streams[s].queue == n.streams[s].queue
  {
  }

  lemma {:induction false} DeadHearsNothing(n: Net, s: nat, events: seq<Event>)
    requires Sound(n) && s < |n.streams| && !Live(n, s)
    ensures s < |AfterAll(n, events).streams| && AfterAll(n, events).streams[s].queue == n.streams[s].queue
    decreases |events|
  {
    hide After, Sound, Live;
    if events != [] {
      StepSound(n, events[0]);
      DeadStays(n, s, events[0]);
      DeadHearsNothing(After(n, events[0]), s, events[1..]);
    }
  }

  /** What one event adds to a live stream's queue, and whether the stream stays live. */
  lemma LiveStep(n: Net, s: nat, e: Event)
    requires Sound(n) && Live(n, s)
    ensures var n' := After(n, e); var id := n.streams[s].id;
      && s < |n'.streams| && n'.streams[s].id == id
      && n'.streams[s].queue == n.streams[s].queue + Heard(id, s, n.nextId, [e])
      && (Live(n', s) ==> n'.nextId == if e.Open? then NextId(n.nextId) else n.nextId)
      && (Live(n', s) <==>
          match e
          case Incoming(data) => Decode(data).Ok? && !(Decode(data).value.id == id && Decode(data).value.kind == Conclusion)
          case Open => n.nextId != id
          case Conclude(other) => other != id
          case Drop(stream) => stream != s
          case StopAccepting => true
          case Closed => false)
  {
    hide Decode, Dispatch;
    if e.Incoming? && Decode(e.data).Ok? {
      LiveDispatch(n, s, Decode(e.data).value);
    }
  }

  lemma LiveDispatch(n: Net, s: nat, f: Frame)
    requires Sound(n) && Live(n, s)
    ensures var n' := Dispatch(n, f); var id := n.streams[s].id;
      && s < |n'.streams| && n'.streams[s].id == id && n'.nextId == n.nextId
      && n'.streams[s].queue == n.streams[s].queue + (if f.id == id then [f.payload] else [])
      && (Live(n', s) <==> !(f.id == id && f.kind == Conclusion))
  {
  }

  lemma HeardStep(id: U32, s: nat, nextId: U32, e: Event, rest: seq<Event>)
    ensures Heard(id, s, nextId, [e] + rest)
      == Heard(id, s, nextId, [e]) +
         (match e
          case Incoming(data) =>
            if Decode(data).Ok? && !(Decode(data).value.id == id && Decode(data).value.kind == Conclusion)
            then Heard(id, s, nextId, rest) else []
          case Open => if nextId != id then Heard(id, s, NextId(nextId), rest) else []
          case Conclude(other) => if other != id then Heard(id, s, nextId, rest) else []
          case Drop(stream) => if stream != s then Heard(id, s, nextId, rest) else []
          case StopAccepting => Heard(id, s, nextId, rest)
          case Closed => [])
  {
    hide Decode;
    assert ([e] + rest)[1..] == rest && [e][1..] == [];
  }

  /**
   * From any point at which a stream is live, its queue receives, in order, exactly the payloads bearing
   * its id until it is concluded, replaced, dropped or the loop ends; nothing afterwards.
   */
  lemma {:induction false} QueueIsHeard(n: Net, s: nat, events: seq<Event>)
    requires Sound(n) && Live(n, s)
    ensures s < |AfterAll(n, events).streams|
    ensures AfterAll(n, events).streams[s].queue == n.streams[s].queue + Heard(n.streams[s].id, s, n.nextId, events)
    decreases |events|
  {
    hide After, Sound, Decode;
    var id := n.streams[s].id;
    if events == [] {
      assert n.streams[s].queue + [] == n.streams[s].queue;
    } else {
      var e, rest := events[0], events[1..];
      assert [e] + rest == events;
      var n' := After(n, e);
      StepSound(n, e);
      LiveStep(n, s, e);
      HeardStep(id, s, n.nextId, e, rest);
      if Live(n', s) {
        QueueIsHeard(n', s, rest);
      } else {
        DeadHearsNothing(n', s, rest);
      }
    }
  }

  /** A stream begun here hears, from its opening on, exactly its own frames. */
  lemma OpenedStream(before: seq<Event>, after: seq<Event>)
    ensures var n := AfterAll(START, before);
      var s := |n.streams|; var end := AfterAll(START, before + [Open] + after);
      s < |end.streams| && end.streams[s].id == n.nextId
      && (n.looping ==> end.streams[s].queue == Heard(n.nextId, s, NextId(n.nextId), after))
      && (!n.looping ==> end.streams[s].queue == [])
  {
    hide Decode, Heard;
    var n := AfterAll(START, before);
    RunSound(START, before);
    var made := After(n, Open);
    StepSound(n, Open);
    Chained(START, before, [Open] + after);
    assert before + [Open] + after == before + ([Open] + after);
    assert ([Open] + after)[1..] == after;
    var s := |n.streams|;
    RunSound(made, after);
    IdsKept(made, after, s);
    if n.looping {
      QueueIsHeard(made, s, after);
      assert [] + Heard(n.nextId, s, NextId(n.nextId), after) == Heard(n.nextId, s, NextId(n.nextId), after);
    } else {
      DeadHearsNothing(made, s, after);
    }
  }

  /** A stream begun by the peer has the frame that began it first in its queue, and then its own frames. */
  lemma PeerStream(before: seq<Event>, data: Bytes, after: seq<Event>)
    requires var n := AfterAll(START, before);
      n.looping && n.accepting && Decode(data).Ok? && Decode(data).value.id !in n.routes
    ensures var n := AfterAll(START, before); var f := Decode(data).value;
      var s := |n.streams|; var end := AfterAll(START, before + [Incoming(data)] + after);
      s < |end.streams| && end.streams[s].id == f.id
      && end.streams[s].queue == [f.payload] + if f.kind == Conclusion then [] else Heard(f.id, s, n.nextId, after)
  {
    hide Decode, Heard;
    var n, f := AfterAll(START, before), Decode(data).value;
    RunSound(START, before);
    var begun := After(n, Incoming(data));
    StepSound(n, Incoming(data));
    Chained(START, before, [Incoming(data)] + after);
    assert before + [Incoming(data)] + after == before + ([Incoming(data)] + after);
    assert ([Incoming(data)] + after)[1..] == after;
    var s := |n.streams|;
    IdsKept(begun, after, s);
    if f.kind == Conclusion {
      DeadHearsNothing(begun, s, after);
    } else {
      QueueIsHeard(begun, s, after);
    }
  }

  lemma {:induction false} IdsKept(n: Net, events: seq<Event>, s: nat)
    requires Sound(n) && s < |n.streams|
    ensures s < |AfterAll(n, events).streams| && AfterAll(n, events).streams[s].id == n.streams[s].id
    decreases |events|
  {
    hide After, Sound;
    if events != [] {
      StepSound(n, events[0]);
      IdsKept(After(n, events[0]), events[1..], s);
    }
  }

  lemma {:induction false} Chained(n: Net, first: seq<Event>, second: seq<Event>)
    ensures AfterAll(n, first + second) == AfterAll(AfterAll(n, first), second)
    decreases |first|
  {
    hide After;
    if first == [] {
      assert first + second == second;
    } else {
      assert (first + second)[1..] == first[1..] + second;
      Chained(After(n, first[0]), first[1..], second);
    }
  }

  // ---- Streams do not disturb one another ----

  predicate Foreign(id: U32, e: Event) {
    match e
    case Incoming(data) => Decode(data).Ok? && Decode(data).value.id != id
    case Conclude(other) => other != id
    case _ => false
  }

  function WithoutForeign(id: U32, events: seq<Event>): (fewer: seq<Event>)
    ensures forall i :: 0 <= i < |fewer| ==> !Foreign(id, fewer[i])
  {
    if events == [] then []
    else (if Foreign(id, events[0]) then [] else [events[0]]) + WithoutForeign(id, events[1..])
  }

  /** Frames and conclusions of other ids, however interleaved, change nothing in what a stream hears. */
  lemma {:induction false} OthersDoNotMatter(id: U32, s: nat, nextId: U32, events: seq<Event>)
    ensures Heard(id, s, nextId, events) == Heard(id, s, nextId, WithoutForeign(id, events))
    decreases |events|
  {
    hide Decode;
    if events != [] {
      var rest := events[1..];
      OthersDoNotMatter(id, s, nextId, rest);
      OthersDoNotMatter(id, s, NextId(nextId), rest);
      if !Foreign(id, events[0]) {
        assert ([events[0]] + WithoutForeign(id, rest))[1..] == WithoutForeign(id, rest);
      } else {
        assert [] + WithoutForeign(id, rest) == WithoutForeign(id, rest);
      }
    }
  }

  /** So a stream's queue is the same as if they had never come. */
  lemma QueueIgnoresOthers(n: Net, s: nat, events: seq<Event>)
    requires Sound(n) && Live(n, s)
    ensures var id := n.streams[s].id; var fewer := WithoutForeign(id, events);
      s < |AfterAll(n, events).streams| && s < |AfterAll(n, fewer).streams|
      && AfterAll(n, events).streams[s].queue == AfterAll(n, fewer).streams[s].queue
  {
    hide After, Sound, Decode, Heard, Live;
    var id := LiveId(n, s);
    QueueIsHeard(n, s, events);
    QueueIsHeard(n, s, WithoutForeign(id, events));
    OthersDoNotMatter(id, s, n.nextId, events);
  }

  lemma LiveId(n: Net, s: nat) returns (id: U32)
    requires Live(n, s)
    ensures s < |n.streams| && id == n.streams[s].id
  {
    id := n.streams[s].id;
  }

  /** After a conclusion sent from here, a late frame of that id starts a new stream and leaves the old one alone. */
  lemma LateFrameStartsAfresh(n: Net, data: Bytes)
    requires Sound(n) && n.looping && n.accepting && Decode(data).Ok?
    ensures var f := Decode(data).value; var n' := After(After(n, Conclude(f.id)), Incoming(data));
      && n'.streams == n.streams + [Stream(f.id, [f.payload], true)]
  {
    hide Decode;
    var f := Decode(data).value;
    assert [] + [f.payload] == [f.payload];
    var added := n.streams + [Stream(f.id, [], true)];
    assert added[|n.streams| := Stream(f.id, [f.payload], true)] == n.streams + [Stream(f.id, [f.payload], true)];
  }

  /** Whether a frame for this id finds a receiver: the one of its stream, or whoever accepts new streams. */
  predicate Received(n: Net, id: U32)
    requires Sound(n)
  {
    if id in n.routes then n.streams[n.routes[id]].held else n.accepting
  }

  /**
   * After a frame its id leads on exactly if the frame does not conclude the stream and finds a receiver; where it led
   * already, it leads to the same stream. All other ids lead where they led, and nothing else of the connection changes.
   */
  lemma RoutedExactly(n: Net, data: Bytes)
    requires Sound(n) && n.looping && Decode(data).Ok?
    ensures var f := Decode(data).value; var n' := After(n, Incoming(data));
      && (f.id in n'.routes <==> f.kind == Process && Received(n, f.id))
      && (f.id in n.routes && f.id in n'.routes ==> n'.routes[f.id] == n.routes[f.id])
      && n'.routes - {f.id} == n.routes - {f.id}
      && |n'.streams| == |n.streams| + (if f.id in n.routes then 0 else 1)
      && n'.nextId == n.nextId && n'.looping && n'.accepting == n.accepting
  {
    hide Decode;
  }

  /** Dispatching ends with the connection or at a frame that cannot be read, and begins never again. */
  lemma {:induction false} LoopsUntil(events: seq<Event>)
    ensures AfterAll(START, events).looping <==>
      (forall i :: 0 <= i < |events| ==> events[i] != Closed && (events[i].Incoming? ==> Decode(events[i].data).Ok?))
    ensures AfterAll(START, events).accepting <==> StopAccepting !in events
  {
    hide Decode, Dispatch;
    if events != [] {
      var k := |events| - 1;
      var front, n := events[..k], AfterAll(START, events[..k]);
      LoopsUntil(front);
      assert events == front + [events[k]] && [events[k]][1..] == [];
      Chained(START, front, [events[k]]);
      DispatchKeeps(n, events[k]);
    }
  }

  lemma DispatchKeeps(n: Net, e: Event)
    ensures After(n, e).looping <==> n.looping && e != Closed && (e.Incoming? ==> Decode(e.data).Ok?)
    ensures After(n, e).accepting <==> n.accepting && e != StopAccepting
  {
    hide Decode;
  }

  // ---- Client ids ----

  function Opens(events: seq<Event>): nat {
    if events == [] then 0 else Opens(events[..|events| - 1]) + if events[|events| - 1] == Open then 1 else 0
  }

  /** The id of the `k`-th stream begun here. */
  function ClientId(k: nat): U32 {
    (1 + 2 * k) % 0x1_0000_0000
  }

  /** The allocator hands out the odd numbers in turn, wrapping past 2^32. */
  lemma {:induction false} AllocatesInTurn(events: seq<Event>)
    ensures AfterAll(START, events).nextId == ClientId(Opens(events))
  {
    hide After, ClientId, NextId;
    FirstClientIds(Opens(events));
    if events != [] {
      var k := |events| - 1;
      FirstClientIds(Opens(events[..k]));
      AllocatesInTurn(events[..k]);
      assert events == events[..k] + [events[k]];
      Chained(START, events[..k], [events[k]]);
      var n := AfterAll(START, events[..k]);
      assert [events[k]][1..] == [];
      StepId(n, events[k]);
    }
  }

  lemma FirstClientIds(k: nat)
    ensures ClientId(0) == START.nextId && NextId(ClientId(k)) == ClientId(k + 1)
  {
    var end := 0x1_0000_0000;
    var q := (1 + 2 * k) / end;
    if ClientId(k) as int + 2 < end {
      DivModUnique(3 + 2 * k, end, q, ClientId(k) as int + 2);
    } else {
      DivModUnique(3 + 2 * k, end, q + 1, ClientId(k) as int + 2 - end);
    }
  }

  lemma StepId(n: Net, e: Event)
    ensures After(n, e).nextId == if e == Open then NextId(n.nextId) else n.nextId
  {
    hide Decode;
  }

  /** Client ids are always odd, also after wrapping, and the first 2^31 of them are distinct. */
  lemma ClientIdsOddDistinct(j: nat, k: nat)
    ensures ClientId(k) % 2 == 1
    ensures j < k < 0x8000_0000 ==> ClientId(j) != ClientId(k)
    ensures ClientId(k + 0x8000_0000) == ClientId(k)
  {
  }

  // ---- The connection object ----

  class Connection {
    var routes: map<U32, nat>
    var streams: seq<Stream>
    var nextStreamId: U32
    var looping: bool
    var accepting: bool

    function State(): Net
      reads this
    {
      Net(routes, streams, nextStreamId, looping, accepting)
    }

    constructor ()
      ensures State() == START
    {
      routes, streams, nextStreamId, looping, accepting := map[], [], 1, true, true;
    }

    /** `create_stream_with_capacity`; a zero capacity is refused before an id is drawn. */
    method CreateStream(capacity: nat) returns (r: Result<nat>)
      modifies this
      ensures r.Err? <==> capacity == 0
      ensures State() == if capacity == 0 then old(State()) else After(old(State()), Open)
      ensures r.Ok? ==> r.value == |old(streams)|
    {
      if capacity == 0 { return Err(InvalidRequest); }
      var id := nextStreamId;
      nextStreamId := NextId(id);
      routes := routes[id := |streams|];
      streams := streams + [Stream(id, [], true)];
      return Ok(|streams| - 1);
    }

    /** `send_raw` once the frame has gone out. */
    method SendRaw(id: U32, kind: Kind)
      modifies this
      ensures State() == if kind == Conclusion then After(old(State()), Conclude(id)) else old(State())
    {
      if kind == Conclusion {
        routes := routes - {id};
      }
    }

    /** One turn of the receive loop on a binary message. */
    method OnBinary(data: Bytes)
      requires Sound(State())
      modifies this
      ensures State() == After(old(State()), Incoming(data))
      ensures Sound(State())
    {
      hide Decode;
      StepSound(State(), Incoming(data));
      if !looping { return; }
      var d := Decode(data);
      if d.Err? {
        looping := false;
        return;
      }
      var f := d.value;
      if f.id !in routes {
        routes := routes[f.id := |streams|];
        streams := streams + [Stream(f.id, [], accepting)];
      }
      var s := routes[f.id];
      if streams[s].held {
        streams := streams[s := streams[s].(queue := streams[s].queue + [f.payload])];
      } else {
        routes := routes - {f.id};
      }
      if f.kind == Conclusion {
        routes := routes - {f.id};
      }
    }

    /** A close frame, an error or the end of the socket: every queue's sender goes away. */
    method OnEnd()
      modifies this
      ensures State() == After(old(State()), Closed)
    {
      if looping {
        routes := map[];
        looping := false;
      }
    }
  }
}
