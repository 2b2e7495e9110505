/** The in-process event bus of backend/app/routers/events.py.

    A queue is named by the order in which it was created; `received` is what its
    generator has yielded so far. Everything between two awaits is one step. A
    keepalive yields no event and changes nothing. */
module EventBus {

  const QUEUE_SIZE := 100

  datatype Payload = Payload(json: string)

  datatype Queue = Queue(project: string, items: seq<Payload>, received: seq<Payload>, live: bool)

  datatype State = State(bus: map<string, seq<nat>>, queues: seq<Queue>)

  datatype Op =
    | Subscribe(project: string)
    | Publish(project: string, payload: Payload)
    | Receive(queue: nat)
    | Unsubscribe(queue: nat)

  const EMPTY := State(map[], [])

  function Bucket(bus: map<string, seq<nat>>, project: string): seq<nat> {
    if project in bus then bus[project] else []
  }

  /** put_nowait, with QueueFull swallowed. */
  function Offer(q: Queue, x: Payload): Queue {
    if |q.items| < QUEUE_SIZE then q.(items := q.items + [x]) else q
  }

  function PublishTo(queues: seq<Queue>, handles: seq<nat>, x: Payload): (r: seq<Queue>)
    ensures |r| == |queues|
  {
    if handles == [] then queues
    else
      var h := handles[|handles| - 1];
      var before := PublishTo(queues, handles[..|handles| - 1], x);
      if h < |before| then before[h := Offer(before[h], x)] else before
  }

  /** list.remove: the first occurrence goes. */
  function Remove(hs: seq<nat>, h: nat): seq<nat> {
    if hs == [] then [] else if hs[0] == h then hs[1..] else [hs[0]] + Remove(hs[1..], h)
  }

  function Step(s: State, op: Op): State {
    match op
    case Subscribe(p) =>
      State(s.bus[p := Bucket(s.bus, p) + [|s.queues|]], s.queues + [Queue(p, [], [], true)])
    case Publish(p, x) =>
      s.(queues := PublishTo(s.queues, Bucket(s.bus, p), x))
    case Receive(h) =>
      if h < |s.queues| && s.queues[h].live && s.queues[h].items != [] then
        var q := s.queues[h];
        s.(queues := s.queues[h := q.(items := q.items[1..], received := q.received + [q.items[0]])])
      else s
    case Unsubscribe(h) =>
      if h < |s.queues| && s.queues[h].live then
        var p := s.queues[h].project;
        var bucket := Remove(Bucket(s.bus, p), h);
        State(if bucket == [] then s.bus - {p} else s.bus[p := bucket],
              s.queues[h := s.queues[h].(live := false)])
      else s
  }

  function Run(ops: seq<Op>): State {
    if ops == [] then EMPTY else Step(Run(ops[..|ops| - 1]), ops[|ops| - 1])
  }

  /** The module global `_event_bus` and the queues the generators hold. */
  class Bus {
    var bus: map<string, seq<nat>>
    var queues: seq<Queue>

    ghost function View(): State
      reads this
    {
      State(bus, queues)
    }

    constructor ()
      ensures View() == EMPTY
    {
      bus, queues := map[], [];
    }

    method PublishEvent(project: string, payload: Payload)
      modifies this`queues
      ensures View() == Step(old(View()), Publish(project, payload))
    {
      var snapshot := Bucket(bus, project);
      assert snapshot[..0] == [];
      for i := 0 to |snapshot|
        invariant queues == PublishTo(old(queues), snapshot[..i], payload)
      {
        var h := snapshot[i];
        assert snapshot[..i + 1][..i] == snapshot[..i];
        if h < |queues| && |queues[h].items| < QUEUE_SIZE {
          queues := queues[h := queues[h].(items := queues[h].items + [payload])];
        }
      }
      assert snapshot[..|snapshot|] == snapshot;
    }

    method Open(project: string) returns (h: nat)
      modifies this
      ensures h == |old(queues)| && View() == Step(old(View()), Subscribe(project))
    {
      h := |queues|;
      queues := queues + [Queue(project, [], [], true)];
      bus := bus[project := Bucket(bus, project) + [h]];
    }

    /** queue.get: the next item, or nothing where the source sends a keepalive. */
    method Next(h: nat) returns (item: seq<Payload>)
      requires h < |queues| && queues[h].live
      modifies this`queues
      ensures View() == Step(old(View()), Receive(h))
      ensures queues[h].received == old(queues)[h].received + item
    {
      var q := queues[h];
      if q.items == [] {
        return [];
      }
      item := [q.items[0]];
      queues := queues[h := q.(items := q.items[1..], received := q.received + item)];
    }

    /** The `finally` block of the generator. */
    method Close(h: nat)
      requires h < |queues| && queues[h].live
      modifies this
      ensures View() == Step(old(View()), Unsubscribe(h))
    {
      var project := queues[h].project;
      var bucket := Bucket(bus, project);
      if h in bucket {
        bucket := Remove(bucket, h);
        bus := bus[project := bucket];
      } else {
        RemoveAbsent(bucket, h);
      }
      if bucket == [] {
        bus := bus - {project};
        assert bus == old(bus) - {project};
      } else {
        assert bus == old(bus)[project := bucket];
      }
      queues := queues[h := queues[h].(live := false)];
    }
  }

  lemma {:induction false} RemoveAbsent(hs: seq<nat>, h: nat)
    requires h !in hs
    ensures Remove(hs, h) == hs
  {
    if hs != [] {
      RemoveAbsent(hs[1..], h);
    }
  }

  // ---------------------------------------------------------------- invariant

  ghost predicate Distinct(hs: seq<nat>) {
    forall i, j :: 0 <= i < j < |hs| ==> hs[i] != hs[j]
  }

  /** A key of the bus maps to a non-empty list of distinct live queues of that project. */
  ghost predicate BucketOk(s: State, p: string) {
    p in s.bus ==>
      && s.bus[p] != [] && Distinct(s.bus[p])
      && forall h :: h in s.bus[p] ==> h < |s.queues| && s.queues[h].live && s.queues[h].project == p
  }

  /** A live queue is listed under its project and no queue outgrows its size. */
  ghost predicate QueueOk(s: State, h: nat)
    requires h < |s.queues|
  {
    && |s.queues[h].items| <= QUEUE_SIZE
    && (s.queues[h].live ==> h in Bucket(s.bus, s.queues[h].project))
  }

  ghost predicate Valid(s: State) {
    && (forall p :: BucketOk(s, p))
    && (forall h: nat :: h < |s.queues| ==> QueueOk(s, h))
  }

  lemma {:induction false} PublishToEach(queues: seq<Queue>, handles: seq<nat>, x: Payload, h: nat)
    requires Distinct(handles) && h < |queues|
    ensures PublishTo(queues, handles, x)[h] == if h in handles then Offer(queues[h], x) else queues[h]
  {
    if handles != [] {
      var front, last := handles[..|handles| - 1], handles[|handles| - 1];
      PublishToEach(queues, front, x, h);
      assert handles == front + [last];
    }
  }

  lemma {:induction false} RemoveFacts(hs: seq<nat>, h: nat)
    requires Distinct(hs)
    ensures Distinct(Remove(hs, h))
    ensures forall x :: x in Remove(hs, h) <==> x in hs && x != h
  {
    if hs != [] {
      RemoveFacts(hs[1..], h);
      assert hs == [hs[0]] + hs[1..];
      assert hs[0] !in hs[1..];
    }
  }

  lemma StepValid(s: State, op: Op)
    requires Valid(s)
    ensures Valid(Step(s, op))
  {
    match op
    case Subscribe(p) => SubscribeValid(s, p);
    case Publish(p, x) => PublishValid(s, p, x);
    case Receive(h) => ReceiveValid(s, h);
    case Unsubscribe(h) => UnsubscribeValid(s, h);
  }

  lemma AppendDistinct(hs: seq<nat>, n: nat)
    requires Distinct(hs) && forall h :: h in hs ==> h < n
    ensures Distinct(hs + [n])
  {
    assert forall i :: 0 <= i < |hs| ==> hs[i] in hs;
  }

  lemma SubscribeValid(s: State, p: string)
    requires Valid(s)
    ensures Valid(Step(s, Subscribe(p)))
  {
    var t := Step(s, Subscribe(p));
    var bucket := Bucket(s.bus, p);
    assert BucketOk(s, p);
    AppendDistinct(bucket, |s.queues|);
    forall p' ensures BucketOk(t, p') {
      assert BucketOk(s, p');
    }
    forall h: nat | h < |t.queues| ensures QueueOk(t, h) {
      assert h < |s.queues| ==> QueueOk(s, h);
    }
  }

  lemma PublishValid(s: State, p: string, x: Payload)
    requires Valid(s)
    ensures Valid(Step(s, Publish(p, x)))
  {
    var t := Step(s, Publish(p, x));
    assert BucketOk(s, p);
    forall h: nat | h < |s.queues|
      ensures t.queues[h] == if h in Bucket(s.bus, p) then Offer(s.queues[h], x) else s.queues[h]
    {
      PublishToEach(s.queues, Bucket(s.bus, p), x, h);
    }
    forall p' ensures BucketOk(t, p') {
      assert BucketOk(s, p');
    }
    forall h: nat | h < |t.queues| ensures QueueOk(t, h) {
      assert QueueOk(s, h);
    }
  }

  lemma ReceiveValid(s: State, h: nat)
    requires Valid(s)
    ensures Valid(Step(s, Receive(h)))
  {
    var t := Step(s, Receive(h));
    forall p ensures BucketOk(t, p) {
      assert BucketOk(s, p);
    }
    forall h': nat | h' < |t.queues| ensures QueueOk(t, h') {
      assert QueueOk(s, h');
    }
  }

  lemma UnsubscribeValid(s: State, h: nat)
    requires Valid(s)
    ensures Valid(Step(s, Unsubscribe(h)))
  {
    var t := Step(s, Unsubscribe(h));
    if h < |s.queues| && s.queues[h].live {
      var p := s.queues[h].project;
      assert BucketOk(s, p) && QueueOk(s, h);
      RemoveFacts(s.bus[p], h);
      forall p' ensures BucketOk(t, p') {
        assert BucketOk(s, p');
      }
      forall h': nat | h' < |t.queues| ensures QueueOk(t, h') {
        assert QueueOk(s, h');
      }
    }
  }

  lemma {:induction false} AlwaysValid(ops: seq<Op>)
    ensures Valid(Run(ops))
  {
    if ops != [] {
      AlwaysValid(ops[..|ops| - 1]);
      StepValid(Run(ops[..|ops| - 1]), ops[|ops| - 1]);
    }
  }

  // ----------------------------------- what a subscriber is owed, from the run

  /** The number of subscriptions so far; the h-th one created queue h. */
  function Subscriptions(ops: seq<Op>): nat {
    if ops == [] then 0
    else Subscriptions(ops[..|ops| - 1]) + (if ops[|ops| - 1].Subscribe? then 1 else 0)
  }

  function ProjectOf(ops: seq<Op>, h: nat): string {
    if ops == [] then ""
    else
      var before, op := ops[..|ops| - 1], ops[|ops| - 1];
      if op.Subscribe? && Subscriptions(before) == h then op.project else ProjectOf(before, h)
  }

  predicate Subscribed(ops: seq<Op>, h: nat) {
    if ops == [] then false
    else
      var before, op := ops[..|ops| - 1], ops[|ops| - 1];
      if op.Subscribe? && Subscriptions(before) == h then true
      else Subscribed(before, h) && op != Unsubscribe(h)
  }

  /** The events published to the project of queue h while it was subscribed. */
  function PublishedWhile(ops: seq<Op>, h: nat): seq<Payload> {
    if ops == [] then []
    else
      var before, op := ops[..|ops| - 1], ops[|ops| - 1];
      PublishedWhile(before, h)
      + (if op.Publish? && Subscribed(before, h) && op.project == ProjectOf(before, h) then [op.payload] else [])
  }

  /** How many items queue h held at each of those publications. */
  function Depths(ops: seq<Op>, h: nat): (r: seq<nat>)
    ensures |r| == |PublishedWhile(ops, h)|
  {
    if ops == [] then []
    else
      var before, op := ops[..|ops| - 1], ops[|ops| - 1];
      Depths(before, h)
      + (if op.Publish? && Subscribed(before, h) && op.project == ProjectOf(before, h)
         then [Held(Run(before), h)] else [])
  }

  function Held(s: State, h: nat): nat {
    if h < |s.queues| then |s.queues[h].items| else 0
  }

  /** The events that met a queue with room, in order. */
  function WithRoom(xs: seq<Payload>, depths: seq<nat>): seq<Payload>
    requires |xs| == |depths|
  {
    if xs == [] then []
    else
      var n := |xs| - 1;
      WithRoom(xs[..n], depths[..n]) + (if depths[n] < QUEUE_SIZE then [xs[n]] else [])
  }

  lemma {:induction false} HandlesFollowRun(ops: seq<Op>, h: nat)
    ensures |Run(ops).queues| == Subscriptions(ops)
    ensures h < Subscriptions(ops) ==> Run(ops).queues[h].project == ProjectOf(ops, h)
    ensures Subscribed(ops, h) <==> h < Subscriptions(ops) && Run(ops).queues[h].live
  {
    if ops != [] {
      var before, op := ops[..|ops| - 1], ops[|ops| - 1];
      HandlesFollowRun(before, h);
      AlwaysValid(before);
      if op.Publish? && h < Subscriptions(before) {
        assert BucketOk(Run(before), op.project);
        PublishToEach(Run(before).queues, Bucket(Run(before).bus, op.project), op.payload, h);
      }
    }
  }

  /** Received followed by queued is exactly what was published to the project
      while subscribed, in order, less the events that met a queue of 100 items. */
  lemma {:induction false} DeliveryExact(ops: seq<Op>, h: nat)
    requires h < Subscriptions(ops)
    ensures |Run(ops).queues| == Subscriptions(ops)
    ensures Stream(Run(ops), h) == WithRoom(PublishedWhile(ops, h), Depths(ops, h))
  {
    var before, op := ops[..|ops| - 1], ops[|ops| - 1];
    HandlesFollowRun(before, h);
    HandlesFollowRun(ops, h);
    AlwaysValid(before);
    if h == Subscriptions(before) {
      NothingBeforeSubscription(before, h);
    } else {
      DeliveryExact(before, h);
      var s, xs, ds := Run(before), PublishedWhile(before, h), Depths(before, h);
      StepDelivers(s, op, h, xs, ds);
      if op.Publish? && s.queues[h].live && s.queues[h].project == op.project {
        assert PublishedWhile(ops, h) == xs + [op.payload] && Depths(ops, h) == ds + [Held(s, h)];
      } else {
        assert PublishedWhile(ops, h) == xs && Depths(ops, h) == ds;
      }
    }
  }

  /** What queue h has handed out, followed by what it still holds. */
  function Stream(s: State, h: nat): seq<Payload> {
    if h < |s.queues| then s.queues[h].received + s.queues[h].items else []
  }

  /** A step extends the stream of an existing queue exactly when it publishes to
      the queue's project while the queue is live and has room. */
  lemma StepDelivers(s: State, op: Op, h: nat, xs: seq<Payload>, ds: seq<nat>)
    requires Valid(s) && h < |s.queues| && |xs| == |ds|
    requires Stream(s, h) == WithRoom(xs, ds)
    ensures Stream(Step(s, op), h)
            == if op.Publish? && s.queues[h].live && s.queues[h].project == op.project
               then WithRoom(xs + [op.payload], ds + [Held(s, h)])
               else WithRoom(xs, ds)
  {
    match op
    case Publish(p, x) =>
      PublishDelivers(s, p, x, h);
      WithRoomAppend(xs, ds, x, Held(s, h));
    case Subscribe(_) =>
    case Unsubscribe(_) =>
    case Receive(h') => ReceiveKeepsStream(s, h', h);
  }

  lemma ReceiveKeepsStream(s: State, h': nat, h: nat)
    ensures Stream(Step(s, Receive(h')), h) == Stream(s, h)
  {
  }

  lemma WithRoomAppend(xs: seq<Payload>, ds: seq<nat>, x: Payload, d: nat)
    requires |xs| == |ds|
    ensures WithRoom(xs + [x], ds + [d]) == WithRoom(xs, ds) + (if d < QUEUE_SIZE then [x] else [])
  {
  }

  lemma PublishDelivers(s: State, p: string, x: Payload, h: nat)
    requires Valid(s) && h < |s.queues|
    ensures Stream(Step(s, Publish(p, x)), h)
            == Stream(s, h)
               + (if s.queues[h].live && s.queues[h].project == p && Held(s, h) < QUEUE_SIZE then [x] else [])
  {
    assert BucketOk(s, p) && QueueOk(s, h);
    PublishToEach(s.queues, Bucket(s.bus, p), x, h);
    var q := s.queues[h];
    assert q.received + (q.items + [x]) == q.received + q.items + [x];
  }

  lemma {:induction false} NothingBeforeSubscription(ops: seq<Op>, h: nat)
    requires Subscriptions(ops) <= h
    ensures PublishedWhile(ops, h) == [] && !Subscribed(ops, h)
  {
    if ops != [] {
      NothingBeforeSubscription(ops[..|ops| - 1], h);
    }
  }

  /** While a queue never held 100 items at a publication, nothing is lost. */
  lemma {:induction false} NothingLostWithRoom(xs: seq<Payload>, depths: seq<nat>)
    requires |xs| == |depths|
    ensures |WithRoom(xs, depths)| <= |xs|
    ensures WithRoom(xs, depths) == xs <==> forall i :: 0 <= i < |depths| ==> depths[i] < 100
    ensures (exists i :: 0 <= i < |depths| && depths[i] >= 100) ==> |WithRoom(xs, depths)| < |xs|
  {
    if xs != [] {
      var n := |xs| - 1;
      NothingLostWithRoom(xs[..n], depths[..n]);
      assert xs == xs[..n] + [xs[n]];
    }
  }

  /** `k` receives in a row on queue `h`. */
  function ReceiveTimes(s: State, h: nat, k: nat): State {
    if k == 0 then s else Step(ReceiveTimes(s, h, k - 1), Receive(h))
  }

  /** A subscriber that keeps receiving gets everything that was queued for it, oldest
      first, and leaves the other queues alone. */
  lemma {:induction false} ReceivesInOrder(s: State, h: nat, k: nat)
    requires h < |s.queues| && s.queues[h].live && k <= |s.queues[h].items|
    ensures var q, t := s.queues[h], ReceiveTimes(s, h, k);
            && t.bus == s.bus && |t.queues| == |s.queues|
            && t.queues[h] == q.(items := q.items[k..], received := q.received + q.items[..k])
            && forall j :: 0 <= j < |s.queues| && j != h ==> t.queues[j] == s.queues[j]
  {
    if k == 0 {
      assert s.queues[h].items[..0] == [] && s.queues[h].items[0..] == s.queues[h].items;
    } else {
      ReceivesInOrder(s, h, k - 1);
      var items := s.queues[h].items;
      assert items[k - 1..][1..] == items[k..] && items[..k - 1] + [items[k - 1]] == items[..k];
    }
  }
}
