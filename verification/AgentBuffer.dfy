/** The agent's bounded event buffer and flush loop (agent/lbro_agent.py).

    Push and drain each hold the buffer's lock, so every interleaving of threads
    is a sequence of whole pushes and whole drains. */
module AgentBuffer {

  /** A parsed log line, with its JSON body. */
  datatype Event = Event(body: string)

  datatype Op = Push(event: Event) | Drain(count: nat)

  /** The buffer, the batches handed out so far, and the events pushed out of a
      full buffer, oldest first. */
  datatype State = State(buf: seq<Event>, batches: seq<seq<Event>>, dropped: seq<Event>)

  const EMPTY := State([], [], [])

  function Min(a: nat, b: nat): nat {
    if a <= b then a else b
  }

  /** deque(maxlen).append: a full deque loses its oldest element. */
  function Append(buf: seq<Event>, e: Event, maxSize: nat): seq<Event> {
    if maxSize == 0 then []
    else if |buf| >= maxSize then buf[1..] + [e]
    else buf + [e]
  }

  /** What Append pushes out. */
  function Evicted(buf: seq<Event>, e: Event, maxSize: nat): seq<Event> {
    if maxSize == 0 then [e] else if |buf| >= maxSize then [buf[0]] else []
  }

  function Step(s: State, op: Op, maxSize: nat): State {
    match op
    case Push(e) => s.(buf := Append(s.buf, e, maxSize), dropped := s.dropped + Evicted(s.buf, e, maxSize))
    case Drain(n) =>
      var k := Min(n, |s.buf|);
      s.(buf := s.buf[k..], batches := s.batches + [s.buf[..k]])
  }

  function Run(ops: seq<Op>, maxSize: nat): State {
    if ops == [] then EMPTY else Step(Run(ops[..|ops| - 1], maxSize), ops[|ops| - 1], maxSize)
  }

  class EventBuffer {
    var buf: seq<Event>
    const maxSize: nat

    constructor (maxSize: nat)
      ensures this.maxSize == maxSize && buf == []
    {
      this.maxSize := maxSize;
      buf := [];
    }

    method PushEvent(e: Event)
      modifies this`buf
      ensures buf == Append(old(buf), e, maxSize)
    {
      if maxSize != 0 {
        buf := buf + [e];
        if |buf| > maxSize {
          buf := buf[1..];
        }
      } else {
        buf := [];
      }
    }

    /** Removes and returns up to `maxCount` events, oldest first. */
    method DrainBatch(maxCount: nat) returns (batch: seq<Event>)
      modifies this`buf
      ensures batch == old(buf)[..Min(maxCount, |old(buf)|)]
      ensures buf == old(buf)[Min(maxCount, |old(buf)|)..]
    {
      batch := [];
      while buf != [] && |batch| < maxCount
        invariant |batch| <= maxCount && |batch| <= |old(buf)|
        invariant batch == old(buf)[..|batch|] && buf == old(buf)[|batch|..]
        decreases |buf|
      {
        batch := batch + [buf[0]];
        buf := buf[1..];
      }
    }
  }

  /** Consecutive slices of length `n`, the last one possibly shorter. */
  function Chunks(s: seq<Event>, n: nat): seq<seq<Event>>
    requires n >= 1
  {
    if s == [] then [] else if |s| <= n then [s] else [s[..n]] + Chunks(s[n..], n)
  }

  class Agent {
    const buffer: EventBuffer
    const batchSize: nat
    /** Every batch given to `_ship_batch`, in order. */
    var shipped: seq<seq<Event>>

    constructor (batchSize: nat)
      ensures this.batchSize == batchSize && shipped == []
      ensures fresh(buffer) && buffer.maxSize == 10 * batchSize && buffer.buf == []
    {
      this.batchSize := batchSize;
      buffer := new EventBuffer(10 * batchSize);
      shipped := [];
    }

    /** `_flush` while nobody pushes. Unforced it ships one batch; forced it
        empties the buffer in full batches and one remainder. */
    method Flush(force: bool)
      modifies this`shipped, buffer`buf
      ensures force && batchSize >= 1 ==>
                buffer.buf == [] && shipped == old(shipped) + Chunks(old(buffer.buf), batchSize)
      ensures force && batchSize == 0 ==> buffer.buf == old(buffer.buf) && shipped == old(shipped)
      ensures !force ==>
                var k := Min(batchSize, |old(buffer.buf)|);
                && buffer.buf == old(buffer.buf)[k..]
                && shipped == old(shipped) + (if k == 0 then [] else [old(buffer.buf)[..k]])
    {
      ghost var whole := buffer.buf;
      while true
        invariant batchSize >= 1 ==>
                    shipped + Chunks(buffer.buf, batchSize) == old(shipped) + Chunks(whole, batchSize)
        invariant !force || batchSize == 0 ==> buffer.buf == whole && shipped == old(shipped)
        decreases |buffer.buf|
      {
        ghost var before, sent := buffer.buf, shipped;
        var batch := buffer.DrainBatch(batchSize);
        if batch == [] {
          break;
        }
        shipped := shipped + [batch];
        assert before == batch + buffer.buf;
        if batchSize >= 1 {
          if |before| <= batchSize {
            assert batch == before && buffer.buf == [];
          } else {
            assert batch == before[..batchSize] && buffer.buf == before[batchSize..];
          }
          assert Chunks(before, batchSize) == [batch] + Chunks(buffer.buf, batchSize);
          assert sent + ([batch] + Chunks(buffer.buf, batchSize)) == shipped + Chunks(buffer.buf, batchSize);
        }
        if !force || |batch| < batchSize {
          break;
        }
      }
    }
  }

  // --------------------------------------------------------------- conservation

  datatype Fate = Shipped | Overflowed

  function Pushed(ops: seq<Op>): seq<Event> {
    if ops == [] then []
    else
      var op := ops[|ops| - 1];
      Pushed(ops[..|ops| - 1]) + (if op.Push? then [op.event] else [])
  }

  /** The fate of each event that has left the buffer, in push order. */
  function Fates(ops: seq<Op>, maxSize: nat): seq<Fate> {
    if ops == [] then []
    else
      var before, op := ops[..|ops| - 1], ops[|ops| - 1];
      var buf := Run(before, maxSize).buf;
      Fates(before, maxSize)
      + match op
        case Push(e) => seq(|Evicted(buf, e, maxSize)|, i => Overflowed)
        case Drain(n) => seq(Min(n, |buf|), i => Shipped)
  }

  function Select(xs: seq<Event>, fates: seq<Fate>, f: Fate): seq<Event>
    requires |xs| == |fates|
  {
    if xs == [] then []
    else
      var n := |xs| - 1;
      Select(xs[..n], fates[..n], f) + (if fates[n] == f then [xs[n]] else [])
  }

  function Flatten(batches: seq<seq<Event>>): seq<Event> {
    if batches == [] then [] else Flatten(batches[..|batches| - 1]) + batches[|batches| - 1]
  }

  lemma {:induction false} SelectConcat(xs: seq<Event>, fs: seq<Fate>, ys: seq<Event>, gs: seq<Fate>, f: Fate)
    requires |xs| == |fs| && |ys| == |gs|
    ensures Select(xs + ys, fs + gs, f) == Select(xs, fs, f) + Select(ys, gs, f)
  {
    if ys == [] {
      assert xs + ys == xs && fs + gs == fs;
    } else {
      var n := |ys| - 1;
      assert (xs + ys)[..|xs| + n] == xs + ys[..n];
      assert (fs + gs)[..|xs| + n] == fs + gs[..n];
      SelectConcat(xs, fs, ys[..n], gs[..n], f);
    }
  }

  lemma {:induction false} SelectUniform(xs: seq<Event>, fs: seq<Fate>, g: Fate, f: Fate)
    requires |xs| == |fs| && forall i :: 0 <= i < |fs| ==> fs[i] == g
    ensures Select(xs, fs, f) == if f == g then xs else []
  {
    if xs != [] {
      var n := |xs| - 1;
      SelectUniform(xs[..n], fs[..n], g, f);
      assert xs[..n] + [xs[n]] == xs;
    }
  }

  /** The state agrees with a push list cut at the events that have left: what
      left is split between batches and overflow by its fate, the rest is buffered. */
  ghost predicate Accounts(s: State, pushed: seq<Event>, fates: seq<Fate>, maxSize: nat) {
    && |s.buf| <= maxSize
    && |fates| <= |pushed|
    && s.buf == pushed[|fates|..]
    && Flatten(s.batches) == Select(pushed[..|fates|], fates, Shipped)
    && s.dropped == Select(pushed[..|fates|], fates, Overflowed)
  }

  /** Over any interleaving of pushes and drains each pushed event has exactly one
      place - shipped, overflowed or buffered - batches and buffer keep push
      order, and the buffer is a suffix of the pushes within its capacity. */
  lemma {:induction false} EveryEventAccounted(ops: seq<Op>, maxSize: nat)
    ensures Accounts(Run(ops, maxSize), Pushed(ops), Fates(ops, maxSize), maxSize)
  {
    if ops != [] {
      var before, op := ops[..|ops| - 1], ops[|ops| - 1];
      EveryEventAccounted(before, maxSize);
      var s, pushed, fates := Run(before, maxSize), Pushed(before), Fates(before, maxSize);
      match op
      case Push(e) =>
        PushAccounts(s, pushed, fates, e, maxSize);
      case Drain(n) =>
        assert pushed + [] == pushed;
        DrainAccounts(s, pushed, fates, n, maxSize);
    }
  }

  /** Moving the next events of the push list to one fate. */
  lemma Leave(pushed: seq<Event>, fates: seq<Fate>, k: nat, g: Fate, f: Fate)
    requires |fates| + k <= |pushed|
    ensures Select(pushed[..|fates| + k], fates + seq(k, i => g), f)
         == Select(pushed[..|fates|], fates, f) + (if f == g then pushed[|fates|..|fates| + k] else [])
  {
    var moved, gs := pushed[|fates|..|fates| + k], seq(k, i => g);
    assert pushed[..|fates| + k] == pushed[..|fates|] + moved;
    SelectConcat(pushed[..|fates|], fates, moved, gs, f);
    SelectUniform(moved, gs, g, f);
  }

  lemma PushAccounts(s: State, pushed: seq<Event>, fates: seq<Fate>, e: Event, maxSize: nat)
    requires Accounts(s, pushed, fates, maxSize)
    ensures Accounts(Step(s, Push(e), maxSize), pushed + [e],
                     fates + seq(|Evicted(s.buf, e, maxSize)|, i => Overflowed), maxSize)
  {
    var out, all := Evicted(s.buf, e, maxSize), pushed + [e];
    PushCuts(s.buf, pushed, |fates|, e, maxSize);
    Leave(all, fates, |out|, Overflowed, Shipped);
    Leave(all, fates, |out|, Overflowed, Overflowed);
    var fs := fates + seq(|out|, i => Overflowed);
    var n := |fates| + |out|;
    assert |fs| == n;
    assert Select(all[..n], fs, Shipped) == Flatten(s.batches) + [] == Flatten(s.batches);
    assert Select(all[..n], fs, Overflowed) == s.dropped + out;
  }

  /** Where a push cuts the push list anew. */
  lemma PushCuts(buf: seq<Event>, pushed: seq<Event>, n: nat, e: Event, maxSize: nat)
    requires n <= |pushed| && buf == pushed[n..] && |buf| <= maxSize
    ensures var out, all := Evicted(buf, e, maxSize), pushed + [e];
            && n + |out| <= |all|
            && all[..n] == pushed[..n]
            && out == all[n..n + |out|]
            && Append(buf, e, maxSize) == all[n + |out|..]
            && |Append(buf, e, maxSize)| <= maxSize
  {
  }

  lemma DrainAccounts(s: State, pushed: seq<Event>, fates: seq<Fate>, n: nat, maxSize: nat)
    requires Accounts(s, pushed, fates, maxSize)
    ensures Accounts(Step(s, Drain(n), maxSize), pushed,
                     fates + seq(Min(n, |s.buf|), i => Shipped), maxSize)
  {
    var k := Min(n, |s.buf|);
    var batch := s.buf[..k];
    DrainCuts(s.buf, pushed, |fates|, k);
    Leave(pushed, fates, k, Shipped, Shipped);
    Leave(pushed, fates, k, Shipped, Overflowed);
    assert Flatten(s.batches + [batch]) == Flatten(s.batches) + batch by {
      assert (s.batches + [batch])[..|s.batches|] == s.batches;
    }
  }

  lemma DrainCuts(buf: seq<Event>, pushed: seq<Event>, n: nat, k: nat)
    requires n <= |pushed| && buf == pushed[n..] && k <= |buf|
    ensures buf[..k] == pushed[n..n + k] && buf[k..] == pushed[n + k..]
  {
  }

  /** Counting: as many events were pushed as were shipped, overflowed or are buffered. */
  lemma Conservation(ops: seq<Op>, maxSize: nat)
    ensures var s := Run(ops, maxSize);
            |Pushed(ops)| == |Flatten(s.batches)| + |s.dropped| + |s.buf|
  {
    EveryEventAccounted(ops, maxSize);
    var fates := Fates(ops, maxSize);
    SelectLengths(Pushed(ops)[..|fates|], fates);
  }

  lemma {:induction false} SelectLengths(xs: seq<Event>, fates: seq<Fate>)
    requires |xs| == |fates|
    ensures |xs| == |Select(xs, fates, Shipped)| + |Select(xs, fates, Overflowed)|
  {
    if xs != [] {
      SelectLengths(xs[..|xs| - 1], fates[..|xs| - 1]);
    }
  }

  /** Nothing overflows while no more events were pushed than the buffer holds. */
  lemma {:induction false} NoOverflowWithinCapacity(ops: seq<Op>, maxSize: nat)
    requires |Pushed(ops)| <= maxSize
    ensures Run(ops, maxSize).dropped == []
  {
    if ops != [] {
      var before := ops[..|ops| - 1];
      NoOverflowWithinCapacity(before, maxSize);
      EveryEventAccounted(before, maxSize);
    }
  }

  /** Chunks cover the list in order; every chunk is full except possibly the last. */
  lemma {:induction false} ChunksFacts(s: seq<Event>, n: nat)
    requires n >= 1
    ensures Flatten(Chunks(s, n)) == s
    ensures forall i :: 0 <= i < |Chunks(s, n)| - 1 ==> |Chunks(s, n)[i]| == n
    ensures s != [] ==> Chunks(s, n) != [] && 1 <= |Chunks(s, n)[|Chunks(s, n)| - 1]| <= n
  {
    if |s| > n {
      var rest := Chunks(s[n..], n);
      ChunksFacts(s[n..], n);
      FlattenCons(s[..n], rest);
      assert s == s[..n] + s[n..];
      assert Chunks(s, n) == [s[..n]] + rest;
      assert forall i :: 0 < i < |rest| ==> ([s[..n]] + rest)[i] == rest[i - 1];
    } else if s != [] {
      assert Flatten([s][..0]) == [];
    }
  }

  lemma {:induction false} FlattenCons(b: seq<Event>, bs: seq<seq<Event>>)
    ensures Flatten([b] + bs) == b + Flatten(bs)
  {
    if bs == [] {
      assert [b] + bs == [b] && [b][..0] == [];
    } else {
      assert ([b] + bs)[..|bs|] == [b] + bs[..|bs| - 1];
      FlattenCons(b, bs[..|bs| - 1]);
    }
  }
}
