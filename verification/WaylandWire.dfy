/** The Wayland wire format: a printer and a parser for messages whose
    argument types the protocol gives. Integers are in native byte order,
    big-endian when `big`. */
module WaylandWire {
  import opened Wrappers
  import opened Bytes

  type Fd = nat

  /** A string's bytes hold no NUL. */
  datatype Arg =
    | Int(i: i32)
    | Uint(u: u32)
    | Fixed(f: i32)
    | Object(o: u32)
    | NewId(n: u32)
    | Str(s: Option<seq<byte>>)
    | Array(a: seq<byte>)
    | FdArg(fd: Fd)

  datatype ArgType = TInt | TUint | TFixed | TObject | TNewId | TStr(nullable: bool) | TArray | TFd

  datatype Message = Message(sender: u32, opcode: u16, args: seq<Arg>)

  datatype WireError =
    | MalformedHeader
    | UnknownRequest
    | MissingDescriptors
    | EndsEarly
    | NulInside
    | MalformedString
    | LeftOver
    | TooLarge

  /** The argument types of a message, for a known object and opcode. */
  type Signatures = (u32, u16) -> Option<seq<ArgType>>

  const HEADER: nat := 8
  const MAX_SIZE: nat := 0xFFFF

  /** The padding after `n` bytes. */
  function Pad4(n: nat): (k: nat)
    ensures k < 4 && (n + k) % 4 == 0
    ensures n % 4 == 0 ==> k == 0
  {
    (4 - n % 4) % 4
  }

  /** A length-prefixed run of bytes appended to a buffer of `at` bytes: the
      padding fills up that whole buffer. */
  function ArrayBytes(bytes: seq<byte>, at: nat, big: bool): (s: seq<byte>)
    ensures |s| == 4 + |bytes| + Pad4(at + 4 + |bytes|)
  {
    Word(|bytes|, big) + bytes + Zeros(Pad4(at + 4 + |bytes|))
  }

  function ArgBytes(arg: Arg, at: nat, big: bool): seq<byte> {
    match arg
    case Int(v) => ToBytes(Unsigned32(v), 4, big)
    case Fixed(v) => ToBytes(Unsigned32(v), 4, big)
    case Uint(v) => ToBytes(v, 4, big)
    case Object(v) => ToBytes(v, 4, big)
    case NewId(v) => ToBytes(v, 4, big)
    case Str(None) => Word(0, big)
    case Str(Some(s)) => ArrayBytes(s + [0], at, big)
    case Array(a) => ArrayBytes(a, at, big)
    case FdArg(_) => []
  }

  function Unsigned32(v: i32): u32 {
    if v < 0 then v + 0x1_0000_0000 else v
  }

  function Signed32(v: u32): i32 {
    if v >= 0x8000_0000 then v - 0x1_0000_0000 else v
  }

  function ArgsBytes(args: seq<Arg>, at: nat, big: bool): seq<byte> {
    if args == [] then [] else
      var first := ArgBytes(args[0], at, big);
      first + ArgsBytes(args[1..], at + |first|, big)
  }

  function FdsOf(args: seq<Arg>): seq<Fd> {
    if args == [] then [] else (if args[0].FdArg? then [args[0].fd] else []) + FdsOf(args[1..])
  }

  /** The size of `msg` written to a buffer of `at` bytes. */
  function SizeAt(msg: Message, at: nat, big: bool): nat {
    HEADER + |ArgsBytes(msg.args, at + HEADER, big)|
  }

  /** What writing `msg` appends to a buffer of `at` bytes. */
  function MessageBytes(msg: Message, at: nat, big: bool): (s: seq<byte>)
    ensures |s| == SizeAt(msg, at, big)
  {
    Word(msg.sender, big) + Word(SizeAt(msg, at, big) * 0x1_0000 + msg.opcode, big)
    + ArgsBytes(msg.args, at + HEADER, big)
  }

  /** The buffer after writing `msg`, which is left out when too large. */
  function Write(msg: Message, out: seq<byte>, big: bool): Result<seq<byte>, WireError> {
    if SizeAt(msg, |out|, big) > MAX_SIZE then Err(TooLarge)
    else Ok(out + MessageBytes(msg, |out|, big))
  }

  function TakeWord(body: seq<byte>, big: bool): (r: Result<(u32, seq<byte>), WireError>)
    ensures r.Ok? ==> |body| >= 4 && r.value.1 == body[4..]
  {
    if |body| < 4 then Err(EndsEarly) else
      Pow256Values();
      Ok((FromBytes(body[..4], big), body[4..]))
  }

  function TakeArray(body: seq<byte>, big: bool): (r: Result<(seq<byte>, seq<byte>), WireError>)
    ensures r.Ok? ==> |r.value.1| < |body|
  {
    var (len, rest) :- TakeWord(body, big);
    var padded := len + Pad4(len);
    if |rest| < padded then Err(EndsEarly) else Ok((rest[..len], rest[padded..]))
  }

  /** One argument of type `ty`, with the rest of the body and of the
      descriptors. */
  function TakeArg(ty: ArgType, body: seq<byte>, fds: seq<Fd>, big: bool): Result<(Arg, seq<byte>, seq<Fd>), WireError>
    requires ty == TFd ==> fds != []
  {
    if ty == TFd then Ok((FdArg(fds[0]), body, fds[1..]))
    else if ty.TStr? then
      var (bytes, rest) :- TakeArray(body, big);
      if bytes == [] then (if ty.nullable then Ok((Str(None), rest, fds)) else Err(MalformedString))
      else if bytes[|bytes| - 1] != 0 then Err(MalformedString)
      else if 0 in bytes[..|bytes| - 1] then Err(NulInside)
      else Ok((Str(Some(bytes[..|bytes| - 1])), rest, fds))
    else if ty == TArray then
      var (bytes, rest) :- TakeArray(body, big);
      Ok((Array(bytes), rest, fds))
    else
      var (v, rest) :- TakeWord(body, big);
      Ok((WordArg(ty, v), rest, fds))
  }

  function WordArg(ty: ArgType, v: u32): Arg
    requires ty != TFd && !ty.TStr? && ty != TArray
  {
    match ty
    case TInt => Int(Signed32(v))
    case TUint => Uint(v)
    case TFixed => Fixed(Signed32(v))
    case TObject => Object(v)
    case TNewId => NewId(v)
  }

  function FdCount(sig: seq<ArgType>): nat {
    if sig == [] then 0 else (if sig[0] == TFd then 1 else 0) + FdCount(sig[1..])
  }

  function TakeArgs(sig: seq<ArgType>, body: seq<byte>, fds: seq<Fd>, big: bool)
    : Result<(seq<Arg>, seq<Fd>), WireError>
    requires FdCount(sig) <= |fds|
  {
    if sig == [] then (if body == [] then Ok(([], fds)) else Err(LeftOver))
    else
      var (arg, rest, left) :- TakeArg(sig[0], body, fds, big);
      var (args, last) :- TakeArgs(sig[1..], rest, left, big);
      Ok(([arg] + args, last))
  }

  /** What parsing gives: nothing yet, or a message, its size in bytes, and
      the descriptors that remain. */
  datatype Parsed = Incomplete | Complete(msg: Message, size: nat, fds: seq<Fd>)

  /** Parses the message at the start of `buf` once all of it has arrived. */
  function Parse(buf: seq<byte>, fds: seq<Fd>, signatures: Signatures, big: bool): Result<Parsed, WireError> {
    if |buf| < HEADER then Ok(Incomplete) else
      var (sender, afterSender) :- TakeWord(buf, big);
      var (word, _) :- TakeWord(afterSender, big);
      var size, opcode := word / 0x1_0000, word % 0x1_0000;
      if size < HEADER || size % 4 != 0 then Err(MalformedHeader)
      else if |buf| < size then Ok(Incomplete)
      else if signatures(sender, opcode) == None then Err(UnknownRequest)
      else
        var sig := signatures(sender, opcode).value;
        if FdCount(sig) > |fds| then Err(MissingDescriptors) else
          var (args, left) :- TakeArgs(sig, buf[HEADER..size], fds, big);
          Ok(Complete(Message(sender, opcode, args), size, left))
  }
}
