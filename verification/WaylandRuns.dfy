/** What holds over any run of sends and flushes, with arbitrary partial
    writes. */
module WaylandRuns {
  import opened Wrappers
  import opened Bytes
  import opened WaylandWire
  import opened WaylandSocket

  datatype Op = SendOp(msg: Message) | FlushOp(kernel: seq<Reply>)

  /** The bytes and descriptors of a list of writes, one after another. */
  function BytesSent(writes: seq<Written>): seq<byte> {
    if writes == [] then [] else writes[0].bytes + BytesSent(writes[1..])
  }

  function FdsSent(writes: seq<Written>): seq<Queued> {
    if writes == [] then [] else writes[0].fds + FdsSent(writes[1..])
  }

  /** Good writes, each starting in the stream where the last one ended. */
  ghost predicate GoodFrom(writes: seq<Written>, at: nat) {
    writes == [] ||
    (GoodWrite(writes[0]) && writes[0].start == at && GoodFrom(writes[1..], at + |writes[0].bytes|))
  }

  /** One message alone has more descriptors than one write carries. */
  ghost predicate TooMany(fds: seq<Queued>) {
    |fds| > STREAM_MAX_FDS && forall i | 0 <= i <= STREAM_MAX_FDS :: fds[i].0 == fds[0].0
  }

  lemma {:induction false} Joined(a: seq<Written>, b: seq<Written>, at: nat)
    requires GoodFrom(a, at) && GoodFrom(b, at + |BytesSent(a)|)
    ensures GoodFrom(a + b, at)
    ensures BytesSent(a + b) == BytesSent(a) + BytesSent(b)
    ensures FdsSent(a + b) == FdsSent(a) + FdsSent(b)
    decreases |a|
  {
    if a == [] {
      assert a + b == b;
    } else {
      hide *;
      assert a == [a[0]] + a[1..] && a + b == [a[0]] + (a[1..] + b);
      Cons(a[0], a[1..], at);
      Cons(a[0], a[1..] + b, at);
      LengthOf(a[0].bytes, BytesSent(a[1..]));
      Joined(a[1..], b, at + |a[0].bytes|);
      Regrouped(a[0].bytes, BytesSent(a[1..]), BytesSent(b));
      Regrouped(a[0].fds, FdsSent(a[1..]), FdsSent(b));
    }
  }

  lemma Cons(w: Written, rest: seq<Written>, at: nat)
    ensures GoodFrom([w] + rest, at) <==> GoodWrite(w) && w.start == at && GoodFrom(rest, at + |w.bytes|)
    ensures BytesSent([w] + rest) == w.bytes + BytesSent(rest)
    ensures FdsSent([w] + rest) == w.fds + FdsSent(rest)
  {
    hide GoodWrite;
    assert ([w] + rest)[0] == w && ([w] + rest)[1..] == rest;
  }

  lemma LengthOf<T>(a: seq<T>, b: seq<T>)
    ensures |a + b| == |a| + |b|
  {
  }

  lemma Regrouped<T>(a: seq<T>, b: seq<T>, c: seq<T>)
    ensures a + (b + c) == a + b + c
  {
  }

  /** Writes take bytes and descriptors from the front of the queue. */
  ghost predicate Takes(q: Queue, writes: seq<Written>, left: Queue) {
    && Waiting(left)
    && GoodFrom(writes, q.written)
    && q.outgoing == BytesSent(writes) + left.outgoing
    && q.fds == FdsSent(writes) + left.fds
    && left.written == q.written + |BytesSent(writes)|
  }

  /** A flush loses, repeats and reorders nothing, and it refuses only a
      message that alone has more descriptors than one write carries. */
  lemma {:induction false} FlushTakes(q: Queue, kernel: seq<Reply>)
    requires Waiting(q)
    ensures var f := FlushFrom(q, kernel);
            && Takes(q, f.writes, f.q)
            && (f.r == Err(TooManyDescriptors) ==> TooMany(f.q.fds))
    decreases |kernel|
  {
    hide Waiting, GoodWrite, StepBack, BatchSize, BatchLimit, Takes, Taken, AfterWrite;
    NoWrites(q);
    RefusedExactly(q);
    if q.outgoing != [] && kernel != [] && (BatchSize(q.fds) > 0 || q.fds == []) {
      BatchFits(q);
      if kernel[0].Interrupted? {
        FlushTakes(q, kernel[1..]);
      } else if kernel[0].Took? {
        var n := BatchSize(q.fds);
        var sent := Taken(kernel[0].n, BatchLimit(q));
        TakenFits(kernel[0].n, BatchLimit(q));
        StillWaiting(q, sent, n);
        var next := AfterWrite(q, sent, n);
        FlushTakes(next, kernel[1..]);
        OneMore(q, sent, n, FlushFrom(next, kernel[1..]));
      }
    }
  }

  lemma NoWrites(q: Queue)
    requires Waiting(q)
    ensures Takes(q, [], q)
  {
    hide Waiting, GoodWrite;
    assert [] + q.outgoing == q.outgoing && [] + q.fds == q.fds;
  }

  lemma TakenFits(k: nat, limit: int)
    requires limit > 0
    ensures 0 < Taken(k, limit) <= limit
  {
  }

  lemma OneMore(q: Queue, sent: nat, n: nat, rest: Flushed)
    requires sent <= |q.outgoing| && n <= |q.fds|
    requires Takes(AfterWrite(q, sent, n), rest.writes, rest.q)
    requires GoodWrite(Written(q.written, q.outgoing[..sent], q.fds[..n]))
    ensures Takes(q, [Written(q.written, q.outgoing[..sent], q.fds[..n])] + rest.writes, rest.q)
  {
    hide Waiting, GoodWrite;
    var w := Written(q.written, q.outgoing[..sent], q.fds[..n]);
    var all := [w] + rest.writes;
    assert all[0] == w && all[1..] == rest.writes;
    Regroup([], q.outgoing, sent);
    Regroup([], q.fds, n);
    assert BytesSent(all) + rest.q.outgoing == w.bytes + (BytesSent(rest.writes) + rest.q.outgoing);
    assert FdsSent(all) + rest.q.fds == w.fds + (FdsSent(rest.writes) + rest.q.fds);
  }

  /** What a run leaves, the writes it made, and what it queued. */
  datatype Ran = Ran(q: Queue, writes: seq<Written>, bytes: seq<byte>, fds: seq<Queued>)

  ghost function Run(q: Queue, ops: seq<Op>, big: bool): (r: Ran)
    requires Waiting(q)
    ensures Waiting(r.q)
    decreases |ops|
  {
    if ops == [] then Ran(q, [], [], []) else
      match ops[0]
      case SendOp(msg) =>
        if SizeAt(msg, |q.outgoing|, big) > MAX_SIZE then Run(q, ops[1..], big) else
          var bytes := MessageBytes(msg, |q.outgoing|, big);
          var fds := WaylandSocket.At(FdsOf(msg.args), q.written + |q.outgoing|);
          QueueMore(q, bytes, FdsOf(msg.args));
          var rest := Run(Queue(q.outgoing + bytes, q.fds + fds, q.written), ops[1..], big);
          rest.(bytes := bytes + rest.bytes, fds := fds + rest.fds)
      case FlushOp(kernel) =>
        FlushTakes(q, kernel);
        var f := FlushFrom(q, kernel);
        var rest := Run(f.q, ops[1..], big);
        rest.(writes := f.writes + rest.writes)
  }

  /** What is waiting at first or queued in a run goes out in its writes or
      waits at its end. */
  ghost predicate Conserves(q: Queue, r: Ran) {
    && GoodFrom(r.writes, q.written)
    && q.outgoing + r.bytes == BytesSent(r.writes) + r.q.outgoing
    && q.fds + r.fds == FdsSent(r.writes) + r.q.fds
    && r.q.written == q.written + |BytesSent(r.writes)|
  }

  /** Over any run, however much of each write the kernel takes: every byte
      and descriptor queued goes out once and in order or is still waiting,
      no write is empty or carries too many descriptors, and no descriptor
      goes out after the first byte of its message. */
  lemma {:induction false} RunConserves(q: Queue, ops: seq<Op>, big: bool)
    requires Waiting(q)
    ensures Conserves(q, Run(q, ops, big))
    decreases |ops|
  {
    hide Waiting, FlushFrom, ArgsBytes, ToBytes, Word, GoodFrom, BytesSent, FdsSent, Conserves, WaylandSocket.At, FdsOf, SizeAt;
    if ops == [] {
      NothingRun(q);
    } else {
      match ops[0] {
        case SendOp(msg) =>
          if SizeAt(msg, |q.outgoing|, big) > MAX_SIZE {
            RunConserves(q, ops[1..], big);
          } else {
            var bytes := MessageBytes(msg, |q.outgoing|, big);
            var fds := WaylandSocket.At(FdsOf(msg.args), q.written + |q.outgoing|);
            QueueMore(q, bytes, FdsOf(msg.args));
            var next := Queue(q.outgoing + bytes, q.fds + fds, q.written);
            RunConserves(next, ops[1..], big);
            SendConserves(q, bytes, fds, Run(next, ops[1..], big));
          }
        case FlushOp(kernel) =>
          FlushTakes(q, kernel);
          var f := FlushFrom(q, kernel);
          RunConserves(f.q, ops[1..], big);
          FlushConserves(q, f.writes, f.q, Run(f.q, ops[1..], big));
      }
    }
  }

  lemma NothingRun(q: Queue)
    ensures Conserves(q, Ran(q, [], [], []))
  {
    assert q.outgoing + [] == [] + q.outgoing && q.fds + [] == [] + q.fds;
  }

  lemma SendConserves(q: Queue, bytes: seq<byte>, fds: seq<Queued>, rest: Ran)
    requires Conserves(Queue(q.outgoing + bytes, q.fds + fds, q.written), rest)
    ensures Conserves(q, rest.(bytes := bytes + rest.bytes, fds := fds + rest.fds))
  {
    hide GoodFrom, BytesSent, FdsSent;
    assert q.outgoing + bytes + rest.bytes == q.outgoing + (bytes + rest.bytes);
    assert q.fds + fds + rest.fds == q.fds + (fds + rest.fds);
  }

  lemma FlushConserves(q: Queue, writes: seq<Written>, left: Queue, rest: Ran)
    requires Takes(q, writes, left) && Conserves(left, rest)
    ensures Conserves(q, rest.(writes := writes + rest.writes))
  {
    hide GoodFrom, BytesSent, FdsSent, Waiting;
    Joined(writes, rest.writes, q.written);
    Through(q.outgoing, BytesSent(writes), left.outgoing, rest.bytes, BytesSent(rest.writes), rest.q.outgoing);
    Through(q.fds, FdsSent(writes), left.fds, rest.fds, FdsSent(rest.writes), rest.q.fds);
  }

  lemma Through<T>(start: seq<T>, first: seq<T>, left: seq<T>, more: seq<T>, second: seq<T>, end: seq<T>)
    requires start == first + left && left + more == second + end
    ensures start + more == first + second + end
  {
    assert start + more == first + (left + more);
    assert first + (second + end) == first + second + end;
  }
}
