/** However a stream of messages is cut into chunks, reading gives back the
    messages in order, each with its own descriptors. */
module Reassembly {
  import opened Wrappers
  import opened Bytes
  import opened Signatures
  import opened Values
  import opened Bodies
  import opened Messages
  import opened MessageTheorems
  import opened Connections
  import opened WireFormat

  /** One message on the wire and the descriptors sent with it. */
  datatype Packet = Packet(raw: seq<byte>, fds: seq<Fd>)

  /** The bytes are one whole message whose header counts its descriptors. */
  ghost predicate Framed(p: Packet) {
    && |p.raw| >= PREFIX
    && FrameLen(p.raw[..PREFIX]) == Ok(|p.raw|)
    && ParseHeader(p.raw).Ok?
    && ParseHeader(p.raw).value.0.unixFds == |p.fds|
  }

  /** What the receiver of a packet gets. */
  function Arrival(p: Packet): Outcome
    requires ParseHeader(p.raw).Ok?
  {
    Decoded(p.raw, ParseHeader(p.raw).value.0, p.fds)
  }

  function BytesOf(chunks: seq<Chunk>): seq<byte> {
    if chunks == [] then [] else (if chunks[0].Data? then chunks[0].bytes else []) + BytesOf(chunks[1..])
  }

  function FdsOf(chunks: seq<Chunk>): seq<Fd> {
    if chunks == [] then [] else (if chunks[0].Data? then chunks[0].fds else []) + FdsOf(chunks[1..])
  }

  function RawsOf(packets: seq<Packet>): seq<byte> {
    if packets == [] then [] else packets[0].raw + RawsOf(packets[1..])
  }

  function FdsSent(packets: seq<Packet>): seq<Fd> {
    if packets == [] then [] else packets[0].fds + FdsSent(packets[1..])
  }

  /** The stream carries exactly `packets`, in non-empty chunks. */
  ghost predicate Carries(st: Stream, packets: seq<Packet>) {
    && (forall p | p in packets :: Framed(p))
    && (forall c | c in st.socket :: c.Data? && c.bytes != [])
    && st.buf + BytesOf(st.socket) == RawsOf(packets)
    && st.fds + FdsOf(st.socket) == FdsSent(packets)
  }

  /** After `k` more chunks, the first `j` messages have not all arrived, or
      their descriptors have too. */
  ghost predicate InTimeAt(st: Stream, packets: seq<Packet>, k: nat, j: nat)
    requires k <= |st.socket| && j <= |packets|
  {
    |RawsOf(packets[..j])| <= |st.buf| + |BytesOf(st.socket[..k])|
    ==> |FdsSent(packets[..j])| <= |st.fds| + |FdsOf(st.socket[..k])|
  }

  /** Descriptors arrive no later than the message they belong to. */
  ghost predicate InTime(st: Stream, packets: seq<Packet>) {
    forall k, j | 0 <= k <= |st.socket| && 0 <= j <= |packets| :: InTimeAt(st, packets, k, j)
  }

  lemma ReceivedInTime(st: Stream, packets: seq<Packet>)
    requires st.socket != [] && st.socket[0].Data? && InTime(st, packets)
    ensures InTime(Stream(st.buf + st.socket[0].bytes, st.fds + st.socket[0].fds, st.socket[1..]), packets)
  {
    var next := Stream(st.buf + st.socket[0].bytes, st.fds + st.socket[0].fds, st.socket[1..]);
    forall k, j | 0 <= k <= |next.socket| && 0 <= j <= |packets|
      ensures InTimeAt(next, packets, k, j)
    {
      assert InTimeAt(st, packets, k + 1, j);
      assert st.socket[..k + 1][1..] == next.socket[..k];
    }
  }

  lemma TakenInTime(st: Stream, packets: seq<Packet>)
    requires packets != [] && InTime(st, packets)
    requires |packets[0].raw| <= |st.buf| && |packets[0].fds| <= |st.fds|
    ensures InTime(Stream(st.buf[|packets[0].raw|..], st.fds[|packets[0].fds|..], st.socket), packets[1..])
  {
    var next := Stream(st.buf[|packets[0].raw|..], st.fds[|packets[0].fds|..], st.socket);
    forall k, j | 0 <= k <= |next.socket| && 0 <= j <= |packets[1..]|
      ensures InTimeAt(next, packets[1..], k, j)
    {
      assert InTimeAt(st, packets, k, j + 1);
      assert packets[..j + 1][1..] == packets[1..][..j];
    }
  }

  /** The first message in the stream and its descriptors are read next, and
      the rest of the stream is untouched. */
  lemma {:induction false} ReadsFirst(st: Stream, packets: seq<Packet>)
    requires packets != [] && Carries(st, packets) && InTime(st, packets)
    ensures Framed(packets[0]) && ReadOne(st).0 == Arrival(packets[0])
    ensures Carries(ReadOne(st).1, packets[1..]) && InTime(ReadOne(st).1, packets[1..])
    decreases |st.socket|
  {
    hide ParseHeader, FrameLen, Decoded, InTime;
    assert packets[0] in packets;
    if |st.buf| >= |packets[0].raw| {
      FirstArrived(st, packets);
    } else {
      assert st.socket != [];
      assert st.socket[0] in st.socket;
      var next := Stream(st.buf + st.socket[0].bytes, st.fds + st.socket[0].fds, st.socket[1..]);
      ReceivedInTime(st, packets);
      StillCarries(st, packets);
      PrefixFrame(st, packets);
      assert ReadOne(st) == ReadOne(next);
      ReadsFirst(next, packets);
    }
  }

  lemma StillCarries(st: Stream, packets: seq<Packet>)
    requires Carries(st, packets) && st.socket != [] && st.socket[0].Data?
    ensures Carries(Stream(st.buf + st.socket[0].bytes, st.fds + st.socket[0].fds, st.socket[1..]), packets)
  {
    hide Framed;
    var c := st.socket[0];
    assert st.buf + c.bytes + BytesOf(st.socket[1..]) == st.buf + BytesOf(st.socket);
    assert st.fds + c.fds + FdsOf(st.socket[1..]) == st.fds + FdsOf(st.socket);
  }

  /** Once the prefix of a message is here, so is its length. */
  lemma PrefixFrame(st: Stream, packets: seq<Packet>)
    requires packets != [] && Carries(st, packets)
    ensures |st.buf| >= PREFIX ==> FrameLen(st.buf[..PREFIX]) == Ok(|packets[0].raw|)
  {
    hide ParseHeader, FrameLen;
    var p := packets[0];
    assert Framed(p);
    if |st.buf| >= PREFIX {
      assert st.buf[..PREFIX] == (st.buf + BytesOf(st.socket))[..PREFIX] == RawsOf(packets)[..PREFIX] == p.raw[..PREFIX];
    }
  }

  lemma FirstArrived(st: Stream, packets: seq<Packet>)
    requires packets != [] && Carries(st, packets) && InTime(st, packets)
    requires |st.buf| >= |packets[0].raw|
    ensures Framed(packets[0]) && ReadOne(st).0 == Arrival(packets[0])
    ensures Carries(ReadOne(st).1, packets[1..]) && InTime(ReadOne(st).1, packets[1..])
  {
    hide ParseHeader, FrameLen, Decoded;
    var p := packets[0];
    assert Framed(p);
    PrefixFrame(st, packets);
    FdsArrived(st, packets);
    SplitFirst(st.buf, BytesOf(st.socket), p.raw, RawsOf(packets[1..]));
    SplitFirst(st.fds, FdsOf(st.socket), p.fds, FdsSent(packets[1..]));
    var next := Stream(st.buf[|p.raw|..], st.fds[|p.fds|..], st.socket);
    assert ReadOne(st) == TakeMessage(st, |p.raw|);
    assert ReadOne(st).1 == next;
    TakenInTime(st, packets);
  }

  lemma FdsArrived(st: Stream, packets: seq<Packet>)
    requires packets != [] && InTime(st, packets) && |st.buf| >= |packets[0].raw|
    ensures |packets[0].fds| <= |st.fds|
  {
    assert InTimeAt(st, packets, 0, 1);
    assert packets[..1] == [packets[0]];
    assert st.socket[..0] == [];
    assert [packets[0]][1..] == [];
    assert RawsOf([packets[0]]) == packets[0].raw + [] == packets[0].raw;
    assert FdsSent([packets[0]]) == packets[0].fds + [] == packets[0].fds;
  }

  lemma SplitFirst<T>(a: seq<T>, b: seq<T>, x: seq<T>, y: seq<T>)
    requires a + b == x + y && |x| <= |a|
    ensures a[..|x|] == x && a[|x|..] + b == y
  {
    assert a[..|x|] == (a + b)[..|x|];
    assert a[|x|..] + b == (a + b)[|x|..];
  }

  /** What `n` reads in a row give. */
  function ReadMany(st: Stream, n: nat): (seq<Outcome>, Stream)
    decreases n
  {
    if n == 0 then ([], st) else
      var (o, next) := ReadOne(st);
      var (rest, last) := ReadMany(next, n - 1);
      ([o] + rest, last)
  }

  function Arrivals(packets: seq<Packet>): seq<Outcome>
    requires forall p | p in packets :: ParseHeader(p.raw).Ok?
  {
    if packets == [] then [] else [Arrival(packets[0])] + Arrivals(packets[1..])
  }

  lemma NothingToReceive(chunks: seq<Chunk>)
    requires forall c | c in chunks :: c.Data? && c.bytes != []
    ensures BytesOf(chunks) == [] ==> chunks == []
  {
  }

  /** However a stream of messages is cut into chunks, reading gives exactly
      those messages, in order, each with exactly its own descriptors, and
      leaves nothing. A message whose body does not decode costs only itself
      and its own descriptors. */
  lemma {:induction false} ReassemblesEverything(st: Stream, packets: seq<Packet>)
    requires Carries(st, packets) && InTime(st, packets)
    ensures ReadMany(st, |packets|).0 == Arrivals(packets)
    ensures ReadMany(st, |packets|).1 == Stream([], [], [])
    decreases |packets|
  {
    hide *;
    if packets == [] {
      NothingLeft(st);
    } else {
      ReadsFirst(st, packets);
      ReassemblesEverything(ReadOne(st).1, packets[1..]);
      AllFramed(st, packets);
      OneMoreRead(st, packets);
    }
  }

  lemma NothingLeft(st: Stream)
    requires Carries(st, [])
    ensures ReadMany(st, 0) == ([], Stream([], [], [])) && Arrivals([]) == []
  {
    NothingToReceive(st.socket);
  }

  lemma AllFramed(st: Stream, packets: seq<Packet>)
    requires Carries(st, packets)
    ensures forall p | p in packets :: ParseHeader(p.raw).Ok?
  {
    hide ParseHeader, FrameLen;
  }

  lemma OneMoreRead(st: Stream, packets: seq<Packet>)
    requires packets != [] && forall p | p in packets :: ParseHeader(p.raw).Ok?
    ensures ReadMany(st, |packets|).1 == ReadMany(ReadOne(st).1, |packets[1..]|).1
    ensures ReadMany(st, |packets|).0 == [ReadOne(st).0] + ReadMany(ReadOne(st).1, |packets[1..]|).0
    ensures Arrivals(packets) == [Arrival(packets[0])] + Arrivals(packets[1..])
  {
    hide ReadOne, ParseHeader, Arrival;
  }

  /** A message as a connection sends it: with its descriptors counted. */
  datatype Sent = Sent(m: Message, serial: u32, fds: seq<Fd>)

  function Counted(s: Sent): Message
    requires |s.fds| < 0x1_0000_0000
  {
    s.m.(unixFds := |s.fds|)
  }

  ghost predicate SentOk(s: Sent) {
    && |s.fds| < 0x1_0000_0000
    && HeaderOk(Counted(s))
    && |EncodeMessage(Counted(s), s.serial)| <= MAX_MESSAGE
  }

  function OnWire(s: Sent): Packet
    requires |s.fds| < 0x1_0000_0000
  {
    Packet(EncodeMessage(Counted(s), s.serial), s.fds)
  }

  /** A sent message arrives as itself when its body matches its signature,
      and is otherwise reported as undecodable with the same header. */
  lemma SentArrives(s: Sent)
    requires SentOk(s)
    ensures Framed(OnWire(s))
    ensures DecodeBody(s.m.signature, s.m.body, false).Ok? ==>
              Arrival(OnWire(s)) == Delivered(Received(Counted(s), s.serial), s.fds)
    ensures DecodeBody(s.m.signature, s.m.body, false).Err? ==>
              && Arrival(OnWire(s)).Undecodable?
              && Arrival(OnWire(s)).header == Received(Counted(s), s.serial).(body := [], signature := [])
  {
    hide ParseHeader, FrameLen, EncodeMessage, HeaderOk, DecodeBody;
    EncodedFrameLen(Counted(s), s.serial);
    EncodedHeader(Counted(s), s.serial);
  }

  /** The messages the bus itself sent that decode, each with its
      descriptors. */
  function OfBus(packets: seq<Packet>): seq<(Message, seq<Fd>)> {
    if packets == [] then []
    else
      var rest, m := OfBus(packets[1..]), Parse(packets[0].raw);
      if m.Ok? && m.value.sender == Some(Ascii("org.freedesktop.DBus")) then [(m.value, packets[0].fds)] + rest else rest
  }

  /** The message names the call with `serial` as the one it replies to. */
  predicate Replies(p: Packet, serial: u32) {
    ParseHeader(p.raw).Ok? && ParseHeader(p.raw).value.0.replySerial == Some(serial)
  }

  /** A waiting call answers with the first message that replies to it. Of
      those before, it keeps the bus's own, in order, and drops the rest;
      those after stay in the stream. */
  lemma {:induction false} CallKeepsBusMessages(
    st: Stream, before: seq<Packet>, reply: Packet, after: seq<Packet>, serial: u32, backlog: seq<(Message, seq<Fd>)>)
    requires Carries(st, before + [reply] + after) && InTime(st, before + [reply] + after)
    requires forall p | p in before :: !Replies(p, serial)
    requires Replies(reply, serial)
    ensures var (o, rest, kept) := Await(st, backlog, serial);
            && o == Arrival(reply)
            && kept == backlog + OfBus(before)
            && Carries(rest, after) && InTime(rest, after)
    decreases |before|
  {
    hide *;
    var packets := before + [reply] + after;
    AreFramed(st, packets);
    assert reply in packets;
    ReadsFirst(st, packets);
    AwaitStep(st, backlog, serial);
    BusNext(before);
    assert backlog + [] == backlog;
    if before == [] {
      assert packets[1..] == after;
      RepliesAnswer(reply, serial);
    } else {
      assert before[0] in packets;
      assert packets[1..] == before[1..] + [reply] + after;
      RepliesAnswer(before[0], serial);
      var m := Parse(before[0].raw);
      var kept := if m.Ok? && m.value.sender == Some(Ascii("org.freedesktop.DBus")) then [(m.value, before[0].fds)] else [];
      CallKeepsBusMessages(ReadOne(st).1, before[1..], reply, after, serial, backlog + kept);
      assert backlog + kept + OfBus(before[1..]) == backlog + OfBus(before);
    }
  }

  lemma BusNext(packets: seq<Packet>)
    ensures OfBus([]) == []
    ensures packets != [] ==>
              var m := Parse(packets[0].raw);
              OfBus(packets) ==
              (if m.Ok? && m.value.sender == Some(Ascii("org.freedesktop.DBus")) then [(m.value, packets[0].fds)] else [])
              + OfBus(packets[1..])
  {
    hide Parse;
    assert packets != [] ==> [] + OfBus(packets[1..]) == OfBus(packets[1..]);
  }

  lemma BusName()
    ensures BUS_NAME == Ascii("org.freedesktop.DBus")
  {
  }

  /** A message whose body does not decode arrives as its header, every part of
      it but the signature, with what is wrong. */
  lemma UndecodableArrives(p: Packet)
    requires Framed(p) && Parse(p.raw).Err?
    ensures Arrival(p).Undecodable? && Arrival(p).reason == Parse(p.raw).error
    ensures var h, m := Arrival(p).header, ParseHeader(p.raw).value.0;
            && h.kind == m.kind && h.flags == m.flags && h.serial == m.serial && h.path == m.path && h.iface == m.iface
            && h.member == m.member && h.errorName == m.errorName && h.replySerial == m.replySerial
            && h.destination == m.destination && h.sender == m.sender && h.unixFds == m.unixFds
            && h.signature == [] && h.body == []
  {
    hide ParseHeader, FrameLen, DecodeBody;
  }

  /** What a waiting call makes of a packet. */
  lemma RepliesAnswer(p: Packet, serial: u32)
    requires Framed(p)
    ensures Replies(p, serial) ==> Consider(Arrival(p), serial) == Answer(Arrival(p))
    ensures !Replies(p, serial) ==>
              Consider(Arrival(p), serial) ==
              if Parse(p.raw).Ok? && Parse(p.raw).value.sender == Some(Ascii("org.freedesktop.DBus"))
              then Keep(Parse(p.raw).value, p.fds) else Skip
    ensures Arrival(p).Delivered? <==> Parse(p.raw).Ok?
    ensures Arrival(p).Delivered? ==> Arrival(p) == Delivered(Parse(p.raw).value, p.fds)
  {
    hide ParseHeader, FrameLen, DecodeBody, Ascii;
    BusName();
  }

  /** The first message of a stream that replies to a call is the `i`th. */
  ghost predicate FirstReply(packets: seq<Packet>, serial: u32, i: nat) {
    i < |packets| && Replies(packets[i], serial) && forall j | 0 <= j < i :: !Replies(packets[j], serial)
  }

  /** A call succeeds if and only if some message of the stream replies to it
      and the first that does decodes and is no error; that message is what
      the caller is given. */
  lemma CallSucceedsExactly(st: Stream, packets: seq<Packet>, serial: u32, backlog: seq<(Message, seq<Fd>)>)
    requires Carries(st, packets) && InTime(st, packets)
    ensures var o := Answered(Await(st, backlog, serial).0);
            && (o.Delivered? <==> exists i: nat :: FirstReply(packets, serial, i) && Succeeds(packets[i]))
            && forall i: nat | FirstReply(packets, serial, i) && Succeeds(packets[i]) ::
                 o == Delivered(Parse(packets[i].raw).value, packets[i].fds)
  {
    hide InTime, Carries, Parse, Arrival, Await, Replies, DecodeBody, Framed;
    if i: nat :| FirstReply(packets, serial, i) {
      assert packets == packets[..i] + [packets[i]] + packets[i + 1..];
      AreFramed(st, packets);
      CallKeepsBusMessages(st, packets[..i], packets[i], packets[i + 1..], serial, backlog);
      RepliesAnswer(packets[i], serial);
    } else {
      NoAnswer(st, packets, serial, backlog);
    }
  }

  /** The message is whole and no error. */
  predicate Succeeds(p: Packet) {
    Parse(p.raw).Ok? && Parse(p.raw).value.kind != 3
  }

  lemma AreFramed(st: Stream, packets: seq<Packet>)
    requires Carries(st, packets)
    ensures forall p | p in packets :: Framed(p) && ParseHeader(p.raw).Ok?
  {
    hide ParseHeader, FrameLen;
  }

  /** With no reply a waiting call fails at the end of the stream. */
  lemma {:induction false} NoAnswer(st: Stream, packets: seq<Packet>, serial: u32, backlog: seq<(Message, seq<Fd>)>)
    requires Carries(st, packets) && InTime(st, packets)
    requires forall i: nat :: !FirstReply(packets, serial, i)
    ensures Await(st, backlog, serial).0 == Failed(EndOfStream)
    decreases |packets|
  {
    hide ReadOne, InTime, Carries, ParseHeader, FrameLen, Arrival, Await, Replies;
    AwaitStep(st, backlog, serial);
    if packets == [] {
      EndsThere(st);
    } else {
      ReadsFirst(st, packets);
      RepliesAnswer(packets[0], serial);
      assert !Replies(packets[0], serial) by {
        assert !FirstReply(packets, serial, 0);
      }
      forall i: nat
        ensures !FirstReply(packets[1..], serial, i)
      {
        assert FirstReply(packets[1..], serial, i) ==> FirstReply(packets, serial, i + 1);
      }
      var step := Consider(Arrival(packets[0]), serial);
      NoAnswer(ReadOne(st).1, packets[1..], serial, if step.Keep? then backlog + [(step.m, step.fds)] else backlog);
    }
  }

  lemma EndsThere(st: Stream)
    requires Carries(st, [])
    ensures ReadOne(st).0 == Failed(EndOfStream)
  {
    NothingToReceive(st.socket);
  }

  /** The arguments of a message begin with a text. */
  predicate BeginsWith(m: Message, t: Text) {
    var args := DecodeBody(m.signature, m.body, false);
    args.Ok? && args.value != [] && (args.value[0] == Str(t) || args.value[0] == Path(t) || args.value[0] == Sig(t))
  }

  /** When the reply is an error, the call fails with the error's name, and the
      text its arguments begin with. */
  lemma CallTellsError(st: Stream, packets: seq<Packet>, serial: u32, backlog: seq<(Message, seq<Fd>)>, i: nat)
    requires Carries(st, packets) && InTime(st, packets) && FirstReply(packets, serial, i)
    requires Parse(packets[i].raw).Ok? && Parse(packets[i].raw).value.kind == 3
    ensures var m := Parse(packets[i].raw).value;
            var o := Answered(Await(st, backlog, serial).0);
            && o.Failed? && o.failure.ErrorReply?
            && Some(o.failure.name) == (if m.errorName.Some? then m.errorName else Some(Ascii("error")))
            && (BeginsWith(m, o.failure.text) || (o.failure.text == [] && forall t :: !BeginsWith(m, t)))
  {
    hide *;
    assert packets == packets[..i] + [packets[i]] + packets[i + 1..] by {
      IsWithin(packets, serial, i);
    }
    IsWithin(packets, serial, i);
    AreFramed(st, packets);
    assert packets[i] in packets;
    CallKeepsBusMessages(st, packets[..i], packets[i], packets[i + 1..], serial, backlog);
    RepliesAnswer(packets[i], serial);
    ErrorIsTold(Parse(packets[i].raw).value, packets[i].fds);
  }

  lemma IsWithin(packets: seq<Packet>, serial: u32, i: nat)
    requires FirstReply(packets, serial, i)
    ensures i < |packets| && Replies(packets[i], serial) && forall p | p in packets[..i] :: !Replies(p, serial)
  {
    hide Replies;
  }

  lemma ErrorIsTold(m: Message, fds: seq<Fd>)
    requires m.kind == 3
    ensures var o := Answered(Delivered(m, fds));
            && o.Failed? && o.failure.ErrorReply?
            && Some(o.failure.name) == (if m.errorName.Some? then m.errorName else Some(Ascii("error")))
            && (BeginsWith(m, o.failure.text) || (o.failure.text == [] && forall t :: !BeginsWith(m, t)))
  {
    hide DecodeBody, Ascii;
    Unnamed();
  }

  lemma Unnamed()
    ensures UNNAMED == Ascii("error")
  {
  }

  // When the stream does not carry whole messages.

  /** A message whose descriptors have not come with it fails. */
  lemma MissingDescriptorsFail(st: Stream, raw: seq<byte>, rest: seq<byte>)
    requires |raw| >= PREFIX && FrameLen(raw[..PREFIX]) == Ok(|raw|) && ParseHeader(raw).Ok? && st.buf == raw + rest
    ensures ReadOne(st).0.Failed? <==> |st.fds| < ParseHeader(raw).value.0.unixFds
    ensures ReadOne(st).0.Failed? ==> ReadOne(st).0.failure == MissingDescriptors
  {
    hide ParseHeader, FrameLen, Parse;
    assert st.buf[..PREFIX] == raw[..PREFIX] && st.buf[..|raw|] == raw;
  }

  /** With less than a whole message left, reading fails as the stream ends:
      with nothing more to receive, nothing received, or a failure. */
  lemma {:induction false} CutShort(st: Stream, p: Packet, chunks: seq<Chunk>, last: seq<Chunk>)
    requires Framed(p) && st.socket == chunks + last
    requires forall c | c in chunks :: c.Data? && c.bytes != []
    requires last == [] || last[0].Broken? || last[0].bytes == []
    requires |st.buf + BytesOf(chunks)| < |p.raw| && st.buf + BytesOf(chunks) == p.raw[..|st.buf + BytesOf(chunks)|]
    ensures ReadOne(st).0 == Failed(if last != [] && last[0].Broken? then ReceiveFailed else EndOfStream)
    decreases |chunks|
  {
    hide ParseHeader, FrameLen, Parse;
    if |st.buf| >= PREFIX {
      assert st.buf[..PREFIX] == (st.buf + BytesOf(chunks))[..PREFIX] == p.raw[..PREFIX];
    }
    assert ReadOne(st) == Receive(st);
    if chunks != [] {
      var next := Stream(st.buf + st.socket[0].bytes, st.fds + st.socket[0].fds, st.socket[1..]);
      assert st.socket[0] == chunks[0] && st.socket[1..] == chunks[1..] + last;
      assert next.buf + BytesOf(chunks[1..]) == st.buf + BytesOf(chunks);
      CutShort(next, p, chunks[1..], last);
    }
  }
}
