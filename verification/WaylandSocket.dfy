/** The proxy's end of the bridge's connection: what has been read but not
    parsed, and what waits to be written with its descriptors. */
module WaylandSocket {
  import opened Wrappers
  import opened Bytes
  import opened WaylandWire
  import opened WaylandRoundTrip

  /** The most descriptors one write carries. */
  const STREAM_MAX_FDS: nat := 28

  /** What the kernel makes of one write. */
  datatype Reply = Took(n: nat) | WouldBlock | Interrupted | Broken

  datatype FlushError = TooManyDescriptors | SendFailed

  /** A descriptor waiting to go out, with the stream offset of its message. */
  type Queued = (nat, Fd)

  /** One write as it reached the kernel: where in the stream it starts, its
      bytes, and the descriptors with it. */
  datatype Written = Written(start: nat, bytes: seq<byte>, fds: seq<Queued>)

  /** Everything sent through a socket so far. */
  datatype Queue = Queue(outgoing: seq<byte>, fds: seq<Queued>, written: nat)

  ghost predicate Sorted(fds: seq<Queued>) {
    forall i, j | 0 <= i <= j < |fds| :: fds[i].0 <= fds[j].0
  }

  /** Every waiting descriptor belongs to a message of which no byte has gone
      out. */
  ghost predicate Waiting(q: Queue) {
    && Sorted(q.fds)
    && (forall i | 0 <= i < |q.fds| :: q.written <= q.fds[i].0 < q.written + |q.outgoing|)
  }

  /** The descriptors that go with the next write. Those of one message stay
      together: stepping back stops where a message's descriptors begin. */
  function StepBack(fds: seq<Queued>, n: nat): (k: nat)
    requires n < |fds|
    ensures k <= n
    ensures k > 0 ==> fds[k].0 != fds[k - 1].0
    ensures forall i | k <= i < n :: fds[i].0 == fds[i + 1].0
  {
    if n > 0 && fds[n].0 == fds[n - 1].0 then StepBack(fds, n - 1) else n
  }

  function BatchSize(fds: seq<Queued>): (n: nat)
    ensures n <= |fds| && n <= STREAM_MAX_FDS
  {
    if |fds| <= STREAM_MAX_FDS then |fds| else StepBack(fds, STREAM_MAX_FDS)
  }

  /** How much of the queue goes with them: up to the first message whose
      descriptors are left for the next write. */
  function BatchLimit(q: Queue): (n: int) {
    var n := BatchSize(q.fds);
    if n == |q.fds| then |q.outgoing| else q.fds[n].0 - q.written
  }

  lemma StepBackSame(fds: seq<Queued>, k: nat, n: nat)
    requires k <= n < |fds| && forall i | k <= i < n :: fds[i].0 == fds[i + 1].0
    ensures forall i | k <= i <= n :: fds[i].0 == fds[n].0
    decreases n - k
  {
    if k < n {
      assert fds[k].0 == fds[k + 1].0;
      StepBackSame(fds, k + 1, n);
    }
  }

  /** A batch is refused exactly when one message alone carries more
      descriptors than one write can. */
  lemma RefusedExactly(q: Queue)
    requires Waiting(q)
    ensures (BatchSize(q.fds) == 0 && q.fds != []) <==>
            |q.fds| > 28 && forall i | 0 <= i <= 28 :: q.fds[i].0 == q.fds[0].0
  {
    if |q.fds| > STREAM_MAX_FDS {
      var k := StepBack(q.fds, STREAM_MAX_FDS);
      StepBackSame(q.fds, k, STREAM_MAX_FDS);
    }
  }

  /** A batch that is not refused has bytes to send, and leaves every
      descriptor it does not take at or past its end. */
  lemma BatchFits(q: Queue)
    requires Waiting(q) && q.outgoing != [] && (BatchSize(q.fds) > 0 || q.fds == [])
    ensures 0 < BatchLimit(q) <= |q.outgoing|
    ensures forall i | BatchSize(q.fds) <= i < |q.fds| :: q.written + BatchLimit(q) <= q.fds[i].0
  {
    var n := BatchSize(q.fds);
    if n < |q.fds| {
      assert q.fds[n - 1].0 < q.fds[n].0;
    }
  }

  /** What a flush leaves, the writes it made, and how it ended. */
  datatype Flushed = Flushed(q: Queue, writes: seq<Written>, r: Result<(), FlushError>)

  /** The bytes the kernel takes of a write of `limit`. */
  function Taken(k: nat, limit: int): int {
    if 1 <= k <= limit then k else limit
  }

  function AfterWrite(q: Queue, sent: nat, n: nat): Queue
    requires sent <= |q.outgoing| && n <= |q.fds|
  {
    Queue(q.outgoing[sent..], q.fds[n..], q.written + sent)
  }

  /** Flushing `q` when the kernel answers each write as `kernel` says, and
      nothing more once that is used up. */
  ghost function FlushFrom(q: Queue, kernel: seq<Reply>): Flushed
    requires Waiting(q)
    decreases |kernel|
  {
    if q.outgoing == [] || kernel == [] then Flushed(q, [], Ok(()))
    else
      var n := BatchSize(q.fds);
      if n == 0 && q.fds != [] then Flushed(q, [], Err(TooManyDescriptors))
      else
        BatchFits(q);
        match kernel[0]
        case WouldBlock => Flushed(q, [], Ok(()))
        case Interrupted => FlushFrom(q, kernel[1..])
        case Broken => Flushed(q, [], Err(SendFailed))
        case Took(k) =>
          var sent := Taken(k, BatchLimit(q));
          StillWaiting(q, sent, n);
          var rest := FlushFrom(AfterWrite(q, sent, n), kernel[1..]);
          rest.(writes := [Written(q.written, q.outgoing[..sent], q.fds[..n])] + rest.writes)
  }

  /** What `FlushFrom` says, case by case. */
  lemma FlushUnfolds(q: Queue, kernel: seq<Reply>)
    requires Waiting(q)
    ensures q.outgoing == [] || kernel == [] ==> FlushFrom(q, kernel) == Flushed(q, [], Ok(()))
    ensures var n := BatchSize(q.fds);
            q.outgoing != [] && kernel != [] ==>
              && (n == 0 && q.fds != [] ==> FlushFrom(q, kernel) == Flushed(q, [], Err(TooManyDescriptors)))
              && (n > 0 || q.fds == [] ==>
                    && (kernel[0].WouldBlock? ==> FlushFrom(q, kernel) == Flushed(q, [], Ok(())))
                    && (kernel[0].Interrupted? ==> FlushFrom(q, kernel) == FlushFrom(q, kernel[1..]))
                    && (kernel[0].Broken? ==> FlushFrom(q, kernel) == Flushed(q, [], Err(SendFailed)))
                    && (kernel[0].Took? ==> FlushTook(q, kernel)))
  {
    hide Waiting, StepBack, BatchSize, BatchLimit, Taken, AfterWrite;
  }

  /** One write is made, and then what the rest of the flush does. */
  ghost predicate FlushTook(q: Queue, kernel: seq<Reply>)
    requires Waiting(q) && q.outgoing != [] && kernel != [] && kernel[0].Took?
    requires BatchSize(q.fds) > 0 || q.fds == []
  {
    BatchFits(q);
    var n, sent := BatchSize(q.fds), Taken(kernel[0].n, BatchLimit(q));
    StillWaiting(q, sent, n);
    var rest := FlushFrom(AfterWrite(q, sent, n), kernel[1..]);
    FlushFrom(q, kernel) == rest.(writes := [Written(q.written, q.outgoing[..sent], q.fds[..n])] + rest.writes)
  }

  /** `first` writes, followed by what the rest of a flush does. */
  ghost function After(first: seq<Written>, rest: Flushed): Flushed {
    rest.(writes := first + rest.writes)
  }

  lemma AfterOne(first: seq<Written>, w: Written, rest: Flushed)
    ensures After(first + [w], rest) == After(first, rest.(writes := [w] + rest.writes))
  {
    assert first + [w] + rest.writes == first + ([w] + rest.writes);
  }

  function Sent(log: seq<Written>): seq<byte> {
    if log == [] then [] else Sent(log[..|log| - 1]) + log[|log| - 1].bytes
  }

  function SentFds(log: seq<Written>): seq<Queued> {
    if log == [] then [] else SentFds(log[..|log| - 1]) + log[|log| - 1].fds
  }

  /** A write is never empty, carries at most the descriptors one write can,
      and no descriptor later than the first byte of its message. */
  ghost predicate GoodWrite(w: Written) {
    && w.bytes != []
    && |w.fds| <= STREAM_MAX_FDS
    && (forall f | f in w.fds :: w.start <= f.0)
  }

  /** Every write is good and starts where the one before it ended. */
  ghost predicate GoodLog(log: seq<Written>) {
    forall i | 0 <= i < |log| :: GoodWrite(log[i]) && log[i].start == |Sent(log[..i])|
  }

  lemma SentAppend(log: seq<Written>, w: Written)
    ensures Sent(log + [w]) == Sent(log) + w.bytes
    ensures SentFds(log + [w]) == SentFds(log) + w.fds
  {
    assert (log + [w])[..|log|] == log;
  }

  class Socket {
    var incoming: seq<byte>
    var incomingFds: seq<Fd>
    var outgoing: seq<byte>
    var outgoingFds: seq<Queued>
    var written: nat
    /** Everything ever queued, and every write made. */
    ghost var queued: seq<byte>
    ghost var queuedFds: seq<Queued>
    ghost var log: seq<Written>

    /** What holds over every run of sends and flushes, however much of each
        write the kernel takes: bytes and descriptors go out once each, in
        the order they were queued, in writes that are all good. */
    ghost predicate Valid()
      reads this
    {
      && Waiting(Queue(outgoing, outgoingFds, written))
      && queued == Sent(log) + outgoing
      && queuedFds == SentFds(log) + outgoingFds
      && |Sent(log)| == written
      && GoodLog(log)
    }

    constructor ()
      ensures Valid()
      ensures incoming == [] && incomingFds == [] && queued == [] && queuedFds == [] && log == []
    {
      incoming, incomingFds, outgoing, outgoingFds, written := [], [], [], [], 0;
      queued, queuedFds, log := [], [], [];
    }

    /** Adds what one read gave. */
    method Fill(bytes: seq<byte>, fds: seq<Fd>)
      requires Valid()
      modifies this`incoming, this`incomingFds
      ensures Valid()
      ensures incoming == old(incoming) + bytes && incomingFds == old(incomingFds) + fds
    {
      incoming := incoming + bytes;
      incomingFds := incomingFds + fds;
    }

    /** The next complete message read so far. */
    method Next(signatures: Signatures, big: bool) returns (r: Result<Option<Message>, WireError>)
      requires Valid()
      modifies this`incoming, this`incomingFds
      ensures Valid()
      ensures match Parse(old(incoming), old(incomingFds), signatures, big)
              case Err(e) => r == Err(e)
              case Ok(Incomplete) =>
                r == Ok(None) && incoming == old(incoming) && incomingFds == old(incomingFds)
              case Ok(Complete(msg, size, left)) =>
                r == Ok(Some(msg)) && incoming == old(incoming)[size..] && incomingFds == left
    {
      var parsed :- ParseOf(incoming, incomingFds, signatures, big);
      match parsed {
        case Incomplete => return Ok(None);
        case Complete(msg, size, left) =>
          incomingFds := left;
          incoming := incoming[size..];
          return Ok(Some(msg));
      }
    }

    /** Queues a message, each of its descriptors at the message's offset. */
    method Send(msg: Message, big: bool) returns (r: Result<(), WireError>)
      requires Valid()
      modifies this`outgoing, this`outgoingFds, this`queued, this`queuedFds
      ensures Valid()
      ensures r.Ok? <==> SizeAt(msg, |old(outgoing)|, big) <= MAX_SIZE
      ensures r.Ok? ==>
                && outgoing == old(outgoing) + MessageBytes(msg, |old(outgoing)|, big)
                && outgoingFds == old(outgoingFds) + At(FdsOf(msg.args), written + |old(outgoing)|)
                && queued == old(queued) + MessageBytes(msg, |old(outgoing)|, big)
                && queuedFds == old(queuedFds) + At(FdsOf(msg.args), written + |old(outgoing)|)
      ensures r.Err? ==>
                && outgoing == old(outgoing) && outgoingFds == old(outgoingFds)
                && queued == old(queued) && queuedFds == old(queuedFds)
    {
      hide MessageBytes, Sent, SentFds, GoodLog, Waiting;
      var at := written + |outgoing|;
      var _, out, fds :- WriteOf(msg, outgoing, big);
      QueueMore(Queue(outgoing, outgoingFds, written), MessageBytes(msg, |outgoing|, big), fds);
      queued := queued + MessageBytes(msg, |outgoing|, big);
      queuedFds := queuedFds + At(fds, at);
      outgoing := out;
      outgoingFds := outgoingFds + At(fds, at);
      return Ok(());
    }

    ghost function Pending(): Queue
      reads this
    {
      Queue(outgoing, outgoingFds, written)
    }

    /** Writes what the socket takes; `kernel` is what it makes of each
        write. */
    method Flush(kernel: seq<Reply>) returns (r: Result<(), FlushError>)
      requires Valid()
      modifies this`outgoing, this`outgoingFds, this`written, this`log
      ensures Valid()
      ensures Waiting(old(Pending())) && |old(log)| <= |log| && log[..|old(log)|] == old(log)
      ensures Flushed(Pending(), log[|old(log)|..], r) == FlushFrom(old(Pending()), kernel)
    {
      hide Waiting, Sent, SentFds, GoodLog, StepBack, FlushFrom;
      var next := 0;
      ghost var writes: seq<Written> := [];
      ghost var whole := FlushFrom(Pending(), kernel);
      assert kernel[0..] == kernel && [] + whole.writes == whole.writes && log + [] == log;
      while true
        invariant Valid() && Waiting(Pending())
        invariant log == old(log) + writes
        invariant 0 <= next <= |kernel|
        invariant After(writes, FlushFrom(Pending(), kernel[next..])) == whole
        decreases |kernel| - next
      {
        FlushUnfolds(Pending(), kernel[next..]);
        assert writes + [] == writes;
        assert log[|old(log)|..] == writes && log[..|old(log)|] == old(log);
        if outgoing == [] || next == |kernel| {
          return Ok(());
        }
        var n := if |outgoingFds| < STREAM_MAX_FDS then |outgoingFds| else STREAM_MAX_FDS;
        var limit := |outgoing|;
        if n < |outgoingFds| {
          n := CutBatch(n);
          if n == 0 {
            return Err(TooManyDescriptors);
          }
          limit := outgoingFds[n].0 - written;
        }
        BatchFits(Pending());
        var reply := kernel[next];
        assert kernel[next..][0] == reply && kernel[next..][1..] == kernel[next + 1..];
        next := next + 1;
        match reply {
          case WouldBlock => return Ok(());
          case Interrupted =>
          case Broken => return Err(SendFailed);
          case Took(k) =>
            var sent := Taken(k, limit);
            ghost var w := Written(written, outgoing[..sent], outgoingFds[..n]);
            StillWaiting(Pending(), sent, n);
            AfterOne(writes, w, FlushFrom(AfterWrite(Pending(), sent, n), kernel[next..]));
            Advance(sent, n);
            writes := writes + [w];
        }
      }
    }

    /** Leaves out the descriptors of a message that does not fit whole. */
    method CutBatch(limit: nat) returns (n: nat)
      requires limit == STREAM_MAX_FDS < |outgoingFds|
      ensures n == BatchSize(outgoingFds)
    {
      n := limit;
      while n > 0 && outgoingFds[n].0 == outgoingFds[n - 1].0
        invariant n <= limit && StepBack(outgoingFds, n) == StepBack(outgoingFds, limit)
      {
        n := n - 1;
      }
    }

    /** Takes out what one write sent. */
    method Advance(sent: nat, n: nat)
      requires Valid() && 0 < sent <= |outgoing|
      requires n <= |outgoingFds| && n <= STREAM_MAX_FDS
      requires forall i | n <= i < |outgoingFds| :: written + sent <= outgoingFds[i].0
      modifies this`outgoing, this`outgoingFds, this`written, this`log
      ensures Valid() && Pending() == AfterWrite(old(Pending()), sent, n)
      ensures log == old(log) + [Written(old(written), old(outgoing)[..sent], old(outgoingFds)[..n])]
    {
      hide Waiting, Sent, SentFds, GoodWrite, GoodLog;
      ghost var w := Written(written, outgoing[..sent], outgoingFds[..n]);
      StillWaiting(Queue(outgoing, outgoingFds, written), sent, n);
      SentAppend(log, w);
      AppendGood(log, w);
      Regroup(Sent(log), outgoing, sent);
      Regroup(SentFds(log), outgoingFds, n);
      log := log + [w];
      outgoing := outgoing[sent..];
      written := written + sent;
      outgoingFds := outgoingFds[n..];
    }
  }

  lemma AppendGood(log: seq<Written>, w: Written)
    requires GoodLog(log) && GoodWrite(w) && w.start == |Sent(log)|
    ensures GoodLog(log + [w])
  {
    hide Sent, GoodWrite;
    var all := log + [w];
    forall i | 0 <= i < |all|
      ensures GoodWrite(all[i]) && all[i].start == |Sent(all[..i])|
    {
      assert all[..i] == log[..i];
      if i == |log| {
        assert log[..i] == log;
      }
    }
  }

  /** What waits after a write of `sent` bytes and `n` descriptors, which was
      a good one. */
  lemma StillWaiting(q: Queue, sent: nat, n: nat)
    requires Waiting(q) && 0 < sent <= |q.outgoing|
    requires n <= |q.fds| && n <= STREAM_MAX_FDS
    requires forall i | n <= i < |q.fds| :: q.written + sent <= q.fds[i].0
    ensures Waiting(AfterWrite(q, sent, n))
    ensures GoodWrite(Written(q.written, q.outgoing[..sent], q.fds[..n]))
  {
  }

  lemma Regroup<T>(a: seq<T>, b: seq<T>, k: nat)
    requires k <= |b|
    ensures a + b == (a + b[..k]) + b[k..]
  {
  }

  lemma QueueMore(q: Queue, bytes: seq<byte>, fds: seq<Fd>)
    requires Waiting(q) && bytes != []
    ensures Waiting(Queue(q.outgoing + bytes, q.fds + At(fds, q.written + |q.outgoing|), q.written))
  {
  }

  /** Descriptors queued at one offset. */
  function At(fds: seq<Fd>, at: nat): (q: seq<Queued>)
    ensures |q| == |fds|
  {
    seq(|fds|, i requires 0 <= i < |fds| => (at, fds[i]))
  }

  /** Appends `msg` argument by argument, then fills in its header, or takes
      it all back when it is too large. */
  method WriteOf(msg: Message, out: seq<byte>, big: bool)
    returns (r: Result<(), WireError>, result: seq<byte>, fds: seq<Fd>)
    ensures r.Ok? <==> SizeAt(msg, |out|, big) <= MAX_SIZE
    ensures r.Ok? ==> result == out + MessageBytes(msg, |out|, big) && fds == FdsOf(msg.args)
    ensures r.Err? ==> result == out
  {
    hide ArgsBytes, FdsOf, Word;
    var start := |out|;
    result, fds := WriteArgs(msg.args, out + Zeros(HEADER), big);
    var size := |result| - start;
    if size > MAX_SIZE {
      result := result[..start];
      return Err(TooLarge), result, fds;
    }
    var first, second := Word(msg.sender, big), Word(size * 0x1_0000 + msg.opcode, big);
    FillHeader(out, first, second, ArgsBytes(msg.args, start + HEADER, big));
    result := result[..start] + first + result[start + 4..];
    result := result[..start + 4] + second + result[start + HEADER..];
    return Ok(()), result, fds;
  }

  method WriteArgs(args: seq<Arg>, out: seq<byte>, big: bool) returns (result: seq<byte>, fds: seq<Fd>)
    ensures result == out + ArgsBytes(args, |out|, big)
    ensures fds == FdsOf(args)
  {
    hide ArgBytes;
    result, fds := out, [];
    ghost var whole := out + ArgsBytes(args, |out|, big);
    assert args[0..] == args && [] + FdsOf(args) == FdsOf(args);
    for i := 0 to |args|
      invariant result + ArgsBytes(args[i..], |result|, big) == whole
      invariant fds + FdsOf(args[i..]) == FdsOf(args)
    {
      assert args[i..][0] == args[i] && args[i..][1..] == args[i + 1..];
      result := result + ArgBytes(args[i], |result|, big);
      if args[i].FdArg? {
        fds := fds + [args[i].fd];
      }
    }
    assert result + [] == result && fds + [] == fds;
  }

  lemma FillHeader(out: seq<byte>, first: seq<byte>, second: seq<byte>, args: seq<byte>)
    requires |first| == 4 && |second| == 4
    ensures var start := |out|;
            var empty := out + Zeros(HEADER) + args;
            var half := empty[..start] + first + empty[start + 4..];
            half[..start + 4] + second + half[start + HEADER..] == out + (first + second + args)
  {
    var start := |out|;
    var empty := out + Zeros(HEADER) + args;
    var half := empty[..start] + first + empty[start + 4..];
    assert empty[start + 4..] == Zeros(4) + args;
    assert half == out + first + (Zeros(4) + args);
    assert half[..start + 4] == out + first;
    assert half[start + HEADER..] == args;
  }

  /** Parses the message at the start of `buf`, argument by argument. */
  method ParseOf(buf: seq<byte>, fds: seq<Fd>, signatures: Signatures, big: bool) returns (r: Result<Parsed, WireError>)
    ensures r == Parse(buf, fds, signatures, big)
  {
    hide TakeArg, TakeWord;
    if |buf| < HEADER {
      return Ok(Incomplete);
    }
    var first :- TakeWord(buf, big);
    var second :- TakeWord(first.1, big);
    var size, opcode := second.0 / 0x1_0000, second.0 % 0x1_0000;
    if size < HEADER || size % 4 != 0 {
      return Err(MalformedHeader);
    }
    if |buf| < size {
      return Ok(Incomplete);
    }
    var known := signatures(first.0, opcode);
    if known == None {
      return Err(UnknownRequest);
    }
    if FdCount(known.value) > |fds| {
      return Err(MissingDescriptors);
    }
    var taken :- ParseArgs(known.value, buf[HEADER..size], fds, big);
    return Ok(Complete(Message(first.0, opcode, taken.0), size, taken.1));
  }

  method ParseArgs(sig: seq<ArgType>, bytes: seq<byte>, waiting: seq<Fd>, big: bool)
    returns (r: Result<(seq<Arg>, seq<Fd>), WireError>)
    requires FdCount(sig) <= |waiting|
    ensures r == TakeArgs(sig, bytes, waiting, big)
  {
    hide TakeArg;
    var args: seq<Arg> := [];
    var body, fds := bytes, waiting;
    assert sig[0..] == sig;
    PrependNone(TakeArgs(sig, bytes, waiting, big));
    for i := 0 to |sig|
      invariant FdCount(sig[i..]) <= |fds|
      invariant Prepend(args, TakeArgs(sig[i..], body, fds, big)) == TakeArgs(sig, bytes, waiting, big)
    {
      assert sig[i..][0] == sig[i] && sig[i..][1..] == sig[i + 1..];
      var taken :- TakeArg(sig[i], body, fds, big);
      FdsLeft(sig[i], body, fds, big);
      PrependNext(args, taken.0, TakeArgs(sig[i + 1..], taken.1, taken.2, big));
      args := args + [taken.0];
      body, fds := taken.1, taken.2;
    }
    if body != [] {
      return Err(LeftOver);
    }
    assert args + [] == args;
    return Ok((args, fds));
  }

  lemma FdsLeft(ty: ArgType, body: seq<byte>, fds: seq<Fd>, big: bool)
    requires ty == TFd ==> fds != []
    requires TakeArg(ty, body, fds, big).Ok?
    ensures TakeArg(ty, body, fds, big).value.2 == if ty == TFd then fds[1..] else fds
  {
    hide TakeArray, TakeWord;
  }

  function Prepend(args: seq<Arg>, r: Result<(seq<Arg>, seq<Fd>), WireError>): Result<(seq<Arg>, seq<Fd>), WireError> {
    match r
    case Ok((more, fds)) => Ok((args + more, fds))
    case Err(e) => Err(e)
  }

  lemma PrependNone(r: Result<(seq<Arg>, seq<Fd>), WireError>)
    ensures Prepend([], r) == r
  {
    if r.Ok? {
      assert [] + r.value.0 == r.value.0;
    }
  }

  lemma PrependNext(args: seq<Arg>, arg: Arg, r: Result<(seq<Arg>, seq<Fd>), WireError>)
    ensures Prepend(args + [arg], r) == Prepend(args, Prepend([arg], r))
  {
    if r.Ok? {
      assert args + [arg] + r.value.0 == args + ([arg] + r.value.0);
    }
  }

  /** A message queued behind a partly written one may be misaligned: after 5
      of 8 bytes have gone out, one with a string no longer parses. */
  lemma PartialWriteMisaligns(signatures: Signatures, big: bool)
    requires signatures(2, 0) == Some([TStr(false)])
    ensures var first, second := Message(1, 0, []), Message(2, 0, [Str(Some([97]))]);
            var q := Queue(MessageBytes(first, 0, big), [], 0);
            && Waiting(q)
            && (var left := FlushFrom(q, [Took(5), WouldBlock]).q;
                && |left.outgoing| == 3
                && SizeAt(second, |left.outgoing|, big) <= MAX_SIZE
                && Parse(MessageBytes(second, |left.outgoing|, big), [], signatures, big) == Err(MalformedHeader))
  {
    hide ToBytes;
    var first, second := Message(1, 0, []), Message(2, 0, [Str(Some([97]))]);
    var q := Queue(MessageBytes(first, 0, big), [], 0);
    PartialWrite(q);
    SizeOfString(big);
    assert IsPadded(second.args[0]);
    WriteThenParse(second, 3, [], [], signatures, big);
    assert MessageBytes(second, 3, big) + [] == MessageBytes(second, 3, big);
    assert FdsOf(second.args) + [] == [];
  }

  lemma SizeOfString(big: bool)
    ensures SizeAt(Message(2, 0, [Str(Some([97]))]), 3, big) == 17
    ensures FdsOf([Str(Some([97]))]) == []
  {
    hide ToBytes;
    var args := [Str(Some([97]))];
    assert args[1..] == [];
    assert |ArgBytes(args[0], 11, big)| == 9;
    assert ArgsBytes(args, 11, big) == ArgBytes(args[0], 11, big) + [];
  }

  lemma PartialWrite(q: Queue)
    requires |q.outgoing| == 8 && q.fds == [] && q.written == 0
    ensures FlushFrom(q, [Took(5), WouldBlock]).q.outgoing == q.outgoing[5..]
  {
    var left := AfterWrite(q, 5, 0);
    assert [Took(5), WouldBlock][1..] == [WouldBlock];
    assert FlushFrom(left, [WouldBlock]).q == left;
    assert FlushFrom(q, [Took(5), WouldBlock]).q == left;
  }
}
