/** Reading messages and their descriptors from a stream socket. */
module Connections {
  import opened Wrappers
  import opened Bytes
  import opened Signatures
  import opened Values
  import opened Bodies
  import opened Messages
  import opened MessageIO
  import opened Readers

  /** A descriptor, known by its identity. */
  type Fd = nat

  /** What one `recvmsg` gives: bytes with the descriptors that came along, or
      a failure. No bytes mean the end of the stream, as does having nothing
      left to receive. */
  datatype Chunk = Data(bytes: seq<byte>, fds: seq<Fd>) | Broken

  datatype Failure =
    | Invalid(reason: DecodeError)
    | MissingDescriptors
    | EndOfStream
    | ReceiveFailed
    | ErrorReply(name: Text, text: Text)

  /** What reading a message gives. An undecodable one keeps its header. */
  datatype Outcome =
    | Delivered(m: Message, fds: seq<Fd>)
    | Undecodable(header: Message, reason: DecodeError)
    | Failed(failure: Failure)

  /** What has been received and not yet read, and what the socket will give. */
  datatype Stream = Stream(buf: seq<byte>, fds: seq<Fd>, socket: seq<Chunk>)

  /** The bus's own name, `org.freedesktop.DBus`. */
  const BUS_NAME: Text := [111, 114, 103, 46, 102, 114, 101, 101, 100, 101, 115, 107, 116, 111, 112, 46, 68, 66, 117, 115]

  /** `error`, the name of an error reply without one. */
  const UNNAMED: Text := [101, 114, 114, 111, 114]

  /** Reads the next message. */
  function ReadOne(st: Stream): (Outcome, Stream)
    decreases |st.socket|
  {
    if |st.buf| < PREFIX then Receive(st)
    else
      match FrameLen(st.buf[..PREFIX])
      case Err(e) => (Failed(Invalid(e)), st)
      case Ok(total) => if |st.buf| >= total then TakeMessage(st, total) else Receive(st)
  }

  function Receive(st: Stream): (Outcome, Stream)
    decreases |st.socket|, 0
  {
    if st.socket == [] then (Failed(EndOfStream), st) else
      match st.socket[0]
      case Broken => (Failed(ReceiveFailed), st.(socket := st.socket[1..]))
      case Data(bytes, fds) =>
        var next := Stream(st.buf + bytes, st.fds + fds, st.socket[1..]);
        if bytes == [] then (Failed(EndOfStream), next) else ReadOne(next)
  }

  /** Takes the message of `total` bytes the buffer starts with. Its header
      names its descriptors, so they go with it even when its body cannot be
      decoded. */
  function TakeMessage(st: Stream, total: nat): (Outcome, Stream)
    requires total <= |st.buf|
  {
    var raw := st.buf[..total];
    var rest := st.(buf := st.buf[total..]);
    match ParseHeader(raw)
    case Err(e) => (Failed(Invalid(e)), rest)
    case Ok((header, _)) =>
      var n := header.unixFds;
      if |st.fds| < n then (Failed(MissingDescriptors), rest)
      else (Decoded(raw, header, st.fds[..n]), rest.(fds := st.fds[n..]))
  }

  function Decoded(raw: seq<byte>, header: Message, fds: seq<Fd>): Outcome {
    match Parse(raw)
    case Ok(m) => Delivered(m, fds)
    case Err(e) => Undecodable(header.(body := [], signature := []), e)
  }

  /** What a call waiting for a reply to `serial` makes of a message. */
  datatype Step = Answer(o: Outcome) | Keep(m: Message, fds: seq<Fd>) | Skip

  function Consider(o: Outcome, serial: u32): Step {
    match o
    case Delivered(m, fds) =>
      if m.replySerial == Some(serial) then Answer(o)
      else if m.sender == Some(BUS_NAME) then Keep(m, fds)
      else Skip
    case Undecodable(header, _) => if header.replySerial != Some(serial) then Skip else Answer(o)
    case Failed(_) => Answer(o)
  }

  function AsText(v: Value): Text {
    match v
    case Str(s) => s
    case Path(s) => s
    case Sig(s) => s
    case _ => []
  }

  /** What the caller is given: an error reply is a failure with its name and
      the text it begins with, if any. */
  function Answered(o: Outcome): Outcome {
    if !o.Delivered? || o.m.kind != ERROR then o
    else
      var args := DecodeBody(o.m.signature, o.m.body, false);
      Failed(ErrorReply(o.m.errorName.GetOr(UNNAMED), if args.Ok? && args.value != [] then AsText(args.value[0]) else []))
  }

  /** The reader's end of a connection. */
  class Conn {
    var buf: seq<byte>
    var fds: seq<Fd>
    /** Messages from the bus itself that arrived while a call waited. */
    var backlog: seq<(Message, seq<Fd>)>
    var socket: seq<Chunk>

    constructor (socket: seq<Chunk>)
      ensures Contents() == Stream([], [], socket) && backlog == []
    {
      this.buf, this.fds, this.backlog, this.socket := [], [], [], socket;
    }

    ghost function Contents(): Stream
      reads this
    {
      Stream(buf, fds, socket)
    }

    /** One `recvmsg`: the number of bytes received, or a failure. */
    method RecvMsg() returns (n: Option<nat>)
      modifies this`buf, this`fds, this`socket
      ensures old(socket) == [] ==> n == Some(0) && Contents() == old(Contents())
      ensures old(socket) != [] ==> socket == old(socket)[1..]
      ensures old(socket) != [] && old(socket)[0].Broken? ==> n == None && buf == old(buf) && fds == old(fds)
      ensures old(socket) != [] && old(socket)[0].Data? ==>
                && n == Some(|old(socket)[0].bytes|)
                && buf == old(buf) + old(socket)[0].bytes && fds == old(fds) + old(socket)[0].fds
    {
      if socket == [] {
        return Some(0);
      }
      var chunk := socket[0];
      socket := socket[1..];
      match chunk {
        case Broken => return None;
        case Data(bytes, received) =>
          fds := fds + received;
          buf := buf + bytes;
          return Some(|bytes|);
      }
    }

    /** Reads the next message from the socket, past the backlog. */
    method ReadNext() returns (o: Outcome)
      modifies this`buf, this`fds, this`socket
      ensures (o, Contents()) == ReadOne(old(Contents()))
      ensures o.Failed? || |buf| + SocketBytes(socket) < |old(buf)| + SocketBytes(old(socket))
    {
      hide FrameLen, TakeMessage;
      while true
        invariant ReadOne(Contents()) == ReadOne(old(Contents()))
        invariant |buf| + SocketBytes(socket) == |old(buf)| + SocketBytes(old(socket))
        decreases |socket|
      {
        if |buf| >= PREFIX {
          var frame := FrameLen(buf[..PREFIX]);
          if frame.Err? {
            return Failed(Invalid(frame.error));
          }
          var total := frame.value;
          if |buf| >= total {
            o := TakeFrame(total);
            return;
          }
        }
        ghost var before := Contents();
        var n := RecvMsg();
        if n == None {
          return Failed(ReceiveFailed);
        }
        if n == Some(0) {
          return Failed(EndOfStream);
        }
        assert ReadOne(before) == Receive(before);
      }
    }

    /** Takes the message of `total` bytes the buffer starts with. */
    method TakeFrame(total: nat) returns (o: Outcome)
      requires 0 < total <= |buf|
      modifies this`buf, this`fds
      ensures (o, Contents()) == TakeMessage(old(Contents()), total)
      ensures buf == old(buf)[total..]
    {
      hide ParseHeader, Parse;
      var raw := buf[..total];
      buf := buf[total..];
      var header := ParseHeaderOf(raw);
      if header.Err? {
        return Failed(Invalid(header.error));
      }
      var n := header.value.0.unixFds;
      if |fds| < n {
        return Failed(MissingDescriptors);
      }
      var mine := fds[..n];
      fds := fds[n..];
      var m := ParseOf(raw);
      match m {
        case Ok(m) => return Delivered(m, mine);
        case Err(e) => return Undecodable(header.value.0.(body := [], signature := []), e);
      }
    }

    /** The next message: from the backlog first. */
    method Recv() returns (o: Outcome)
      modifies this
      ensures old(backlog) != [] ==>
                && o == Delivered(old(backlog)[0].0, old(backlog)[0].1)
                && backlog == old(backlog)[1..] && Contents() == old(Contents())
      ensures old(backlog) == [] ==> (o, Contents()) == ReadOne(old(Contents())) && backlog == []
    {
      if backlog != [] {
        var (m, mine) := backlog[0];
        backlog := backlog[1..];
        return Delivered(m, mine);
      }
      o := ReadNext();
    }

    /** Waits for the reply to the call sent with `serial`, keeping what the
        bus itself sends meanwhile. */
    method AwaitReply(serial: u32) returns (o: Outcome)
      modifies this
      ensures (o, Contents(), backlog) == Await(old(Contents()), old(backlog), serial)
    {
      hide ReadOne;
      while true
        invariant Await(Contents(), backlog, serial) == Await(old(Contents()), old(backlog), serial)
        decreases |buf| + SocketBytes(socket)
      {
        ghost var before := (Contents(), backlog);
        var next := ReadNext();
        AwaitStep(before.0, before.1, serial);
        match Consider(next, serial) {
          case Answer(answer) => return answer;
          case Keep(m, mine) => backlog := backlog + [(m, mine)];
          case Skip =>
        }
      }
    }

    /** Waits for the reply to the call sent with `serial`, and tells an error
        reply from an answer. */
    method Call(serial: u32) returns (o: Outcome)
      modifies this
      ensures var (answer, rest, kept) := Await(old(Contents()), old(backlog), serial);
              o == Answered(answer) && Contents() == rest && backlog == kept
    {
      hide Await, DecodeBody;
      o := AwaitReply(serial);
      if o.Delivered? && o.m.kind == ERROR {
        var args := Decode(o.m.signature, o.m.body, false);
        var text := if args.Ok? && args.value != [] then AsText(args.value[0]) else [];
        o := Failed(ErrorReply(o.m.errorName.GetOr(UNNAMED), text));
      }
    }
  }

  /** A call made by the connection fails if and only if no reply comes, or an
      error reply does. */
  lemma FailsExactly(st: Stream, backlog: seq<(Message, seq<Fd>)>, serial: u32)
    ensures var o := Await(st, backlog, serial).0;
            && (Answered(o).Delivered? <==> o.Delivered? && o.m.replySerial == Some(serial) && o.m.kind != ERROR)
            && (Answered(o).Delivered? ==> Answered(o) == o)
    decreases Unread(st)
  {
    hide ReadOne, DecodeBody, Await;
    AwaitStep(st, backlog, serial);
    ReadOneShrinks(st);
    var (o, next) := ReadOne(st);
    match Consider(o, serial) {
      case Answer(_) =>
      case Keep(m, fds) => FailsExactly(next, backlog + [(m, fds)], serial);
      case Skip => FailsExactly(next, backlog, serial);
    }
  }

  function SocketBytes(chunks: seq<Chunk>): nat {
    if chunks == [] then 0
    else (match chunks[0] case Data(bytes, _) => |bytes| case Broken => 0) + SocketBytes(chunks[1..])
  }

  function Unread(st: Stream): nat {
    |st.buf| + SocketBytes(st.socket)
  }

  /** Every message read shortens what is left to read. */
  lemma ReadOneShrinks(st: Stream)
    ensures ReadOne(st).0.Failed? || Unread(ReadOne(st).1) < Unread(st)
    decreases |st.socket|
  {
    hide ParseHeader, Parse;
    if |st.buf| >= PREFIX && FrameLen(st.buf[..PREFIX]).Ok? && FrameLen(st.buf[..PREFIX]).value <= |st.buf| {
    } else if st.socket != [] && st.socket[0].Data? {
      ReadOneShrinks(Stream(st.buf + st.socket[0].bytes, st.fds + st.socket[0].fds, st.socket[1..]));
    }
  }

  /** The reply to `serial`, what is left of the stream, and the backlog. */
  function Await(st: Stream, backlog: seq<(Message, seq<Fd>)>, serial: u32): (Outcome, Stream, seq<(Message, seq<Fd>)>)
    decreases Unread(st)
  {
    ReadOneShrinks(st);
    var (o, next) := ReadOne(st);
    match Consider(o, serial)
    case Answer(answer) => (answer, next, backlog)
    case Keep(m, fds) => Await(next, backlog + [(m, fds)], serial)
    case Skip => Await(next, backlog, serial)
  }

  lemma AwaitStep(st: Stream, backlog: seq<(Message, seq<Fd>)>, serial: u32)
    ensures var (o, next) := ReadOne(st);
            Await(st, backlog, serial) ==
            match Consider(o, serial)
            case Answer(answer) => (answer, next, backlog)
            case Keep(m, fds) => Await(next, backlog + [(m, fds)], serial)
            case Skip => Await(next, backlog, serial)
  {
    hide ReadOne;
  }
}
