/** Wayland messages byte by byte: which bytes are written for one, and which
    are read as one. */
module WaylandBytes {
  import opened Wrappers
  import opened Bytes
  import opened WaylandWire
  import Wire = WireFormat

  /** A run of bytes: its length, itself, and zeros up to a multiple of 4 of the
      whole buffer, of which `at` bytes come before. */
  ghost predicate RunIs(bytes: seq<byte>, b: seq<byte>, at: nat, big: bool) {
    && |b| >= 4 + |bytes| && |b| < |bytes| + 8 && (at + |b|) % 4 == 0
    && Wire.Is4(b[..4], |bytes| % 0x1_0000_0000, big)
    && b[4..4 + |bytes|] == bytes
    && forall i | 4 + |bytes| <= i < |b| :: b[i] == 0
  }

  /** `b` is `arg` as it is written after `at` bytes. */
  ghost predicate ArgIs(arg: Arg, b: seq<byte>, at: nat, big: bool) {
    match arg
    case Int(v) => Wire.Is4(b, if v < 0 then v + 0x1_0000_0000 else v, big)
    case Fixed(v) => Wire.Is4(b, if v < 0 then v + 0x1_0000_0000 else v, big)
    case Uint(v) => Wire.Is4(b, v, big)
    case Object(v) => Wire.Is4(b, v, big)
    case NewId(v) => Wire.Is4(b, v, big)
    case Str(None) => Wire.Is4(b, 0, big)
    case Str(Some(s)) => RunIs(s + [0], b, at, big)
    case Array(a) => RunIs(a, b, at, big)
    case FdArg(_) => b == []
  }

  ghost predicate ArgsAre(args: seq<Arg>, b: seq<byte>, at: nat, big: bool) {
    if args == [] then b == []
    else exists m: nat :: m <= |b| && ArgIs(args[0], b[..m], at, big) && ArgsAre(args[1..], b[m..], at + m, big)
  }

  /** A message is its sender, its size and opcode in one word, and its
      arguments. */
  ghost predicate MessageIs(msg: Message, b: seq<byte>, at: nat, big: bool) {
    && 8 <= |b| <= 0xFFFF
    && Wire.Is4(b[..4], msg.sender, big)
    && Wire.Is4(b[4..8], |b| * 0x1_0000 + msg.opcode, big)
    && ArgsAre(msg.args, b[8..], at + 8, big)
  }

  lemma RunExactly(bytes: seq<byte>, b: seq<byte>, at: nat, big: bool)
    ensures RunIs(bytes, b, at, big) <==> b == ArrayBytes(bytes, at, big)
  {
    hide Wire.Is4, Word;
    var k := Pad4(at + 4 + |bytes|);
    Only4(at + 4 + |bytes|, k, |b| - 4 - |bytes|);
    if |b| == 4 + |bytes| + k {
      Wire.WordExactly(b[..4], |bytes|, big);
      Wire.ThreeParts(b, Word(|bytes|, big), bytes, Zeros(k));
      assert b[4..][..|bytes|] == b[4..4 + |bytes|];
      assert b[4 + |bytes|..] == Zeros(k) <==> forall i | 4 + |bytes| <= i < |b| :: b[i] == 0 by {
        AllZero(b, 4 + |bytes|);
      }
    }
  }

  lemma Only4(n: nat, k: nat, j: int)
    requires k < 4 && (n + k) % 4 == 0
    ensures 0 <= j < 4 ==> ((n + j) % 4 == 0 <==> j == k)
  {
  }

  lemma AllZero(b: seq<byte>, n: nat)
    requires n <= |b|
    ensures b[n..] == Zeros(|b| - n) <==> forall i | n <= i < |b| :: b[i] == 0
  {
    if b[n..] == Zeros(|b| - n) {
      forall i | n <= i < |b|
        ensures b[i] == 0
      {
        assert b[i] == b[n..][i - n];
      }
    }
  }

  lemma ArgExactly(arg: Arg, b: seq<byte>, at: nat, big: bool)
    ensures ArgIs(arg, b, at, big) <==> b == ArgBytes(arg, at, big)
  {
    hide Wire.Is4, ToBytes, RunIs, ArrayBytes;
    match arg {
      case Int(v) => Wire.WordExactly(b, Unsigned32(v), big);
      case Fixed(v) => Wire.WordExactly(b, Unsigned32(v), big);
      case Uint(v) => Wire.WordExactly(b, v, big);
      case Object(v) => Wire.WordExactly(b, v, big);
      case NewId(v) => Wire.WordExactly(b, v, big);
      case Str(None) => Wire.WordExactly(b, 0, big);
      case Str(Some(s)) => RunExactly(s + [0], b, at, big);
      case Array(a) => RunExactly(a, b, at, big);
      case FdArg(_) =>
    }
  }

  lemma {:induction false} ArgsExactly(args: seq<Arg>, b: seq<byte>, at: nat, big: bool)
    ensures ArgsAre(args, b, at, big) <==> b == ArgsBytes(args, at, big)
    decreases |args|
  {
    hide ArgIs, ArgBytes;
    if args != [] {
      var first := ArgBytes(args[0], at, big);
      forall m: nat | m <= |b|
        ensures ArgIs(args[0], b[..m], at, big) <==> b[..m] == first
      {
        ArgExactly(args[0], b[..m], at, big);
      }
      if |b| >= |first| {
        ArgsExactly(args[1..], b[|first|..], at + |first|, big);
        Wire.Splits(b, first, ArgsBytes(args[1..], at + |first|, big));
      }
    }
  }

  /** What is written for a message, when it is not too large, is the one run of
      bytes that is that message at its offset. */
  lemma WritesExactly(msg: Message, b: seq<byte>, out: seq<byte>, big: bool)
    ensures Write(msg, out, big) == Ok(out + b) <==> MessageIs(msg, b, |out|, big)
    ensures Write(msg, out, big).Err? <==> SizeAt(msg, |out|, big) > 0xFFFF
  {
    hide Wire.Is4, Word, ArgsAre, ArgsBytes;
    var at := |out|;
    assert out + b == out + MessageBytes(msg, at, big) <==> b == MessageBytes(msg, at, big) by {
      assert (out + b)[at..] == b && (out + MessageBytes(msg, at, big))[at..] == MessageBytes(msg, at, big);
    }
    if |b| >= 8 {
      ArgsExactly(msg.args, b[8..], at + 8, big);
      Wire.ThreeParts(b, Word(msg.sender, big), Word(|b| * 0x1_0000 + msg.opcode, big), ArgsBytes(msg.args, at + 8, big));
      assert b[4..][..4] == b[4..8];
      Wire.WordExactly(b[..4], msg.sender, big);
      if |b| <= 0xFFFF {
        Wire.WordExactly(b[4..8], |b| * 0x1_0000 + msg.opcode, big);
      }
    }
  }

  // Reading.

  /** A run of bytes with any bytes up to a multiple of 4 after it. */
  ghost predicate RunRead(bytes: seq<byte>, b: seq<byte>, big: bool) {
    && |b| >= 4 + |bytes| && |b| < |bytes| + 8 && |b| % 4 == 0
    && Wire.Is4(b[..4], |bytes|, big) && b[4..4 + |bytes|] == bytes
  }

  /** `b` reads as `arg`, of the type `ty`. */
  ghost predicate ArgRead(ty: ArgType, arg: Arg, b: seq<byte>, big: bool) {
    match (ty, arg)
    case (TInt, Int(v)) => Wire.Is4(b, if v < 0 then v + 0x1_0000_0000 else v, big)
    case (TFixed, Fixed(v)) => Wire.Is4(b, if v < 0 then v + 0x1_0000_0000 else v, big)
    case (TUint, Uint(v)) => Wire.Is4(b, v, big)
    case (TObject, Object(v)) => Wire.Is4(b, v, big)
    case (TNewId, NewId(v)) => Wire.Is4(b, v, big)
    case (TStr(nullable), Str(None)) => nullable && Wire.Is4(b, 0, big)
    case (TStr(_), Str(Some(s))) => 0 !in s && RunRead(s + [0], b, big)
    case (TArray, Array(a)) => RunRead(a, b, big)
    case (TFd, FdArg(_)) => b == []
    case _ => false
  }

  /** `b` and the first of `fds` read as `args`, with `left` of them left. */
  ghost predicate ArgsRead(sig: seq<ArgType>, args: seq<Arg>, b: seq<byte>, fds: seq<Fd>, left: seq<Fd>, big: bool)
    decreases |sig|
  {
    if sig == [] then args == [] && b == [] && left == fds
    else
      && args != []
      && exists m: nat :: m <= |b| && ArgRead(sig[0], args[0], b[..m], big)
                          && if args[0].FdArg?
                             then fds != [] && args[0].fd == fds[0] && ArgsRead(sig[1..], args[1..], b[m..], fds[1..], left, big)
                             else ArgsRead(sig[1..], args[1..], b[m..], fds, left, big)
  }

  lemma WordRead(body: seq<byte>, n: nat, big: bool)
    ensures TakeWord(body, big).Ok? <==> |body| >= 4
    ensures |body| >= 4 ==> (TakeWord(body, big).value.0 == n <==> Wire.Is4(body[..4], n, big))
  {
    hide Wire.Is4, FromBytes;
    if |body| >= 4 {
      Wire.BytesAreDigits(body[..4], n, big);
    }
  }

  lemma RunReads(bytes: seq<byte>, body: seq<byte>, m: nat, big: bool)
    requires m <= |body|
    ensures RunRead(bytes, body[..m], big) <==> TakeArray(body, big) == Ok((bytes, body[m..]))
  {
    hide Wire.Is4, TakeWord;
    WordRead(body, |bytes|, big);
    if |body| >= 4 {
      TakesWord(body, big);
      var len := TakeWord(body, big).value.0;
      Only4(4 + |bytes|, Pad4(|bytes|), m - 4 - |bytes|);
      if m >= 4 {
        assert body[..m][..4] == body[..4];
      }
      if len == |bytes| && m == 4 + len + Pad4(len) {
        assert body[..m][4..4 + len] == body[4..][..len];
        assert body[4..][len + Pad4(len)..] == body[m..];
      }
      if TakeArray(body, big) == Ok((bytes, body[m..])) {
        assert |body[4..][len + Pad4(len)..]| == |body[m..]|;
        assert body[..m][4..4 + len] == body[4..][..len];
      }
    }
  }

  lemma TakesWord(body: seq<byte>, big: bool)
    requires |body| >= 4
    ensures TakeWord(body, big).Ok? && TakeWord(body, big).value.1 == body[4..]
  {
  }

  lemma WordArgReads(ty: ArgType, arg: Arg, body: seq<byte>, fds: seq<Fd>, m: nat, big: bool)
    requires ty != TFd && !ty.TStr? && ty != TArray && m <= |body|
    ensures ArgRead(ty, arg, body[..m], big) <==> TakeArg(ty, body, fds, big) == Ok((arg, body[m..], fds))
  {
    hide Wire.Is4, FromBytes;
    if |body| >= 4 {
      var v := FromBytes(body[..4], big);
      Wire.BytesAreDigits(body[..m], v, big);
      Pow256Values();
      if m == 4 {
        if arg.Int? || arg.Fixed? {
          Signs(v, if arg.Int? then arg.i else arg.f);
        }
        forall n: int
          ensures Wire.Is4(body[..4], n, big) <==> n == v
        {
          Wire.BytesAreDigits(body[..4], n, big);
        }
      } else {
        NotFour(body[..m], big);
        assert |body[m..]| != |body[4..]|;
      }
    } else {
      NotFour(body[..m], big);
    }
  }

  lemma NotFour(b: seq<byte>, big: bool)
    requires |b| != 4
    ensures forall n :: !Wire.Is4(b, n, big)
  {
  }

  lemma Signs(v: u32, n: i32)
    ensures Signed32(v) == n <==> v == if n < 0 then n + 0x1_0000_0000 else n
  {
  }

  lemma ArgReads(ty: ArgType, arg: Arg, body: seq<byte>, fds: seq<Fd>, m: nat, big: bool)
    requires m <= |body| && (ty == TFd ==> fds != [])
    ensures ArgRead(ty, arg, body[..m], big) && (arg.FdArg? ==> fds != [] && arg.fd == fds[0]) <==>
            TakeArg(ty, body, fds, big) == Ok((arg, body[m..], if ty == TFd then fds[1..] else fds))
  {
    hide Wire.Is4, TakeWord, TakeArray, RunRead;
    if ty == TFd {
      assert body[m..] == body <==> m == 0 by {
        assert |body[m..]| == |body| - m;
      }
    } else if ty == TArray {
      RunReads(if arg.Array? then arg.a else [], body, m, big);
    } else if ty.TStr? {
      StringReads(ty, arg, body, fds, m, big);
    } else {
      WordArgReads(ty, arg, body, fds, m, big);
    }
  }

  lemma StringReads(ty: ArgType, arg: Arg, body: seq<byte>, fds: seq<Fd>, m: nat, big: bool)
    requires ty.TStr? && m <= |body|
    ensures ArgRead(ty, arg, body[..m], big) <==> TakeArg(ty, body, fds, big) == Ok((arg, body[m..], fds))
  {
    hide Wire.Is4, TakeWord, TakeArray, RunRead;
    if arg == Str(None) {
      RunReads([], body, m, big);
      NoRun(body[..m], big);
    } else if arg.Str? {
      RunReads(arg.s.value + [0], body, m, big);
      var r := TakeArray(body, big);
      if r.Ok? && r.value.0 != [] {
        var bytes := r.value.0;
        assert bytes[|bytes| - 1] == 0 ==> bytes == bytes[..|bytes| - 1] + [0];
        assert (arg.s.value + [0])[..|arg.s.value|] == arg.s.value;
      }
    }
  }

  lemma NoRun(b: seq<byte>, big: bool)
    ensures RunRead([], b, big) <==> Wire.Is4(b, 0, big)
  {
    if |b| == 4 {
      assert b[..4] == b && b[4..4] == [];
    }
  }

  function FdTypes(sig: seq<ArgType>): nat {
    if sig == [] then 0 else FdTypes(sig[..|sig| - 1]) + if sig[|sig| - 1] == TFd then 1 else 0
  }

  lemma {:induction false} FdTypesExactly(sig: seq<ArgType>)
    ensures FdTypes(sig) == FdCount(sig)
    decreases |sig|
  {
    if sig != [] {
      FdTypesExactly(sig[1..]);
      FdTypesFirst(sig);
    }
  }

  lemma {:induction false} FdTypesFirst(sig: seq<ArgType>)
    requires sig != []
    ensures FdTypes(sig) == (if sig[0] == TFd then 1 else 0) + FdTypes(sig[1..])
    decreases |sig|
  {
    if |sig| > 1 {
      var n := |sig| - 1;
      FdTypesFirst(sig[..n]);
      assert sig[..n][1..] == sig[1..][..n - 1] && sig[1..][n - 1] == sig[n];
    }
  }

  lemma ArgSize(ty: ArgType, arg: Arg, b: seq<byte>, big: bool)
    ensures ArgRead(ty, arg, b, big) ==> (arg.FdArg? <==> ty == TFd)
  {
  }

  lemma {:induction false} ArgsRead1(sig: seq<ArgType>, args: seq<Arg>, body: seq<byte>, fds: seq<Fd>, left: seq<Fd>, big: bool)
    requires FdCount(sig) <= |fds|
    ensures ArgsRead(sig, args, body, fds, left, big) <==> TakeArgs(sig, body, fds, big) == Ok((args, left))
    decreases |sig|
  {
    hide TakeArg, ArgRead;
    if sig != [] {
      if ArgsRead(sig, args, body, fds, left, big) {
        ReadIsTaken(sig, args, body, fds, left, big);
      }
      if TakeArgs(sig, body, fds, big) == Ok((args, left)) {
        TakenIsRead(sig, args, body, fds, left, big);
      }
    }
  }

  lemma {:induction false} ReadIsTaken(sig: seq<ArgType>, args: seq<Arg>, body: seq<byte>, fds: seq<Fd>, left: seq<Fd>, big: bool)
    requires sig != [] && FdCount(sig) <= |fds| && ArgsRead(sig, args, body, fds, left, big)
    ensures TakeArgs(sig, body, fds, big) == Ok((args, left))
    decreases |sig|, 0
  {
    hide TakeArg, ArgRead;
    var next := if args[0].FdArg? then fds[1..] else fds;
    var m: nat :| m <= |body| && ArgRead(sig[0], args[0], body[..m], big)
                  && (args[0].FdArg? ==> fds != [] && args[0].fd == fds[0])
                  && ArgsRead(sig[1..], args[1..], body[m..], next, left, big);
    ArgSize(sig[0], args[0], body[..m], big);
    ArgReads(sig[0], args[0], body, fds, m, big);
    ArgsRead1(sig[1..], args[1..], body[m..], next, left, big);
    assert args == [args[0]] + args[1..];
  }

  lemma {:induction false} TakenIsRead(sig: seq<ArgType>, args: seq<Arg>, body: seq<byte>, fds: seq<Fd>, left: seq<Fd>, big: bool)
    requires sig != [] && FdCount(sig) <= |fds| && TakeArgs(sig, body, fds, big) == Ok((args, left))
    ensures ArgsRead(sig, args, body, fds, left, big)
    decreases |sig|, 0
  {
    hide TakeArg, ArgRead;
    var (arg, rest, next) := TakeArg(sig[0], body, fds, big).value;
    Takes(sig[0], body, fds, big);
    var m := |body| - |rest|;
    assert args[0] == arg && args[1..] == TakeArgs(sig[1..], rest, next, big).value.0;
    ArgReads(sig[0], arg, body, fds, m, big);
    ArgSize(sig[0], arg, body[..m], big);
    ArgsRead1(sig[1..], args[1..], rest, next, left, big);
  }

  /** An argument is taken from the front. */
  lemma Takes(ty: ArgType, body: seq<byte>, fds: seq<Fd>, big: bool)
    requires (ty == TFd ==> fds != []) && TakeArg(ty, body, fds, big).Ok?
    ensures var (arg, rest, next) := TakeArg(ty, body, fds, big).value;
            |rest| <= |body| && rest == body[|body| - |rest|..] && next == if ty == TFd then fds[1..] else fds
  {
    hide FromBytes;
    if ty.TStr? || ty == TArray {
      var r := TakeArray(body, big);
      var len := TakeWord(body, big).value.0;
      assert r.value.1 == body[4..][len + Pad4(len)..] == body[4 + len + Pad4(len)..];
    }
  }

  /** Parsing once the words of the header are known. */
  function ParseRest(buf: seq<byte>, fds: seq<Fd>, signatures: Signatures, big: bool, sender: u32, size: nat, op: u16)
    : Result<Parsed, WireError>
  {
    if size < 8 || size % 4 != 0 then Err(MalformedHeader)
    else if |buf| < size then Ok(Incomplete)
    else if signatures(sender, op) == None then Err(UnknownRequest)
    else if FdCount(signatures(sender, op).value) > |fds| then Err(MissingDescriptors)
    else
      match TakeArgs(signatures(sender, op).value, buf[8..size], fds, big)
      case Err(e) => Err(e)
      case Ok((args, left)) => Ok(Complete(Message(sender, op, args), size, left))
  }

  lemma ParseFrom(buf: seq<byte>, fds: seq<Fd>, signatures: Signatures, big: bool, sender: u32, size: nat, op: u16)
    requires |buf| >= 8 && Wire.Is4(buf[..4], sender, big) && Wire.Is4(buf[4..8], size * 0x1_0000 + op, big)
    ensures Parse(buf, fds, signatures, big) == ParseRest(buf, fds, signatures, big, sender, size, op)
  {
    hide Wire.Is4, TakeArgs, FdCount, TakeWord;
    HeaderReads(buf, big);
    WordRead(buf, sender, big);
    assert buf[4..][..4] == buf[4..8];
    WordRead(buf[4..], size * 0x1_0000 + op, big);
    Halves(size * 0x1_0000 + op, size, op);
  }

  lemma HasHeader(buf: seq<byte>, big: bool) returns (sender: u32, size: nat, op: u16)
    requires |buf| >= 8
    ensures Wire.Is4(buf[..4], sender, big) && Wire.Is4(buf[4..8], size * 0x1_0000 + op, big)
  {
    hide Wire.Is4, FromBytes;
    Pow256Values();
    sender := FromBytes(buf[..4], big);
    var word := FromBytes(buf[4..8], big);
    size, op := word / 0x1_0000, word % 0x1_0000;
    Wire.BytesAreDigits(buf[..4], sender, big);
    Wire.BytesAreDigits(buf[4..8], word, big);
  }

  lemma OneHeader(buf: seq<byte>, big: bool, sender: u32, size: nat, op: u16, sender1: u32, size1: nat, op1: u16)
    requires |buf| >= 8
    requires Wire.Is4(buf[..4], sender, big) && Wire.Is4(buf[4..8], size * 0x1_0000 + op, big)
    requires Wire.Is4(buf[..4], sender1, big) && Wire.Is4(buf[4..8], size1 * 0x1_0000 + op1, big)
    ensures sender == sender1 && size == size1 && op == op1
  {
    Halves(size * 0x1_0000 + op, size1, op1);
    Halves(size * 0x1_0000 + op, size, op);
  }

  /** A buffer holds a message exactly when its first bytes tell its size and it
      is all there, its sender has such a request, the descriptors that takes
      are there, and its arguments are of its types. */
  lemma ParsesExactly(
    buf: seq<byte>, fds: seq<Fd>, signatures: Signatures, big: bool, msg: Message, size: nat, left: seq<Fd>)
    ensures Parse(buf, fds, signatures, big) == Ok(Complete(msg, size, left)) <==>
            && 8 <= size <= |buf| && size % 4 == 0
            && Wire.Is4(buf[..4], msg.sender, big) && Wire.Is4(buf[4..8], size * 0x1_0000 + msg.opcode, big)
            && signatures(msg.sender, msg.opcode).Some?
            && FdTypes(signatures(msg.sender, msg.opcode).value) <= |fds|
            && ArgsRead(signatures(msg.sender, msg.opcode).value, msg.args, buf[8..size], fds, left, big)
  {
    hide Wire.Is4, TakeArgs, ArgsRead, FdCount, FdTypes, TakeWord, Parse;
    if |buf| < 8 {
      NoHeader(buf, fds, signatures, big);
    } else {
      var sender, n, op := HasHeader(buf, big);
      ParseFrom(buf, fds, signatures, big, sender, n, op);
      if Wire.Is4(buf[..4], msg.sender, big) && Wire.Is4(buf[4..8], size * 0x1_0000 + msg.opcode, big) {
        OneHeader(buf, big, sender, n, op, msg.sender, size, msg.opcode);
      }
      var sig := signatures(sender, op);
      if sig.Some? && 8 <= n <= |buf| {
        FdTypesExactly(sig.value);
        if FdCount(sig.value) <= |fds| {
          ArgsRead1(sig.value, msg.args, buf[8..n], fds, left, big);
        }
      }
    }
  }

  /** There is none yet exactly when not all of its header or of its size has
      come. */
  lemma WaitsExactly(buf: seq<byte>, fds: seq<Fd>, signatures: Signatures, big: bool, size: nat, op: u16)
    requires |buf| >= 8 ==> Wire.Is4(buf[4..8], size * 0x1_0000 + op, big)
    ensures Parse(buf, fds, signatures, big) == Ok(Incomplete) <==> |buf| < 8 || (8 <= size && size % 4 == 0 && |buf| < size)
  {
    hide Wire.Is4, TakeArgs, FdCount, TakeWord, Parse;
    if |buf| < 8 {
      NoHeader(buf, fds, signatures, big);
    } else {
      var sender, n, op1 := HasHeader(buf, big);
      OneHeader(buf, big, sender, n, op1, sender, size, op);
      ParseFrom(buf, fds, signatures, big, sender, size, op);
    }
  }

  lemma NoHeader(buf: seq<byte>, fds: seq<Fd>, signatures: Signatures, big: bool)
    requires |buf| < 8
    ensures Parse(buf, fds, signatures, big) == Ok(Incomplete)
  {
  }

  lemma HeaderReads(buf: seq<byte>, big: bool)
    requires |buf| >= 8
    ensures TakeWord(buf, big).Ok? && TakeWord(buf, big).value.1 == buf[4..] && TakeWord(buf[4..], big).Ok?
  {
  }

  lemma Halves(word: nat, size: nat, op: u16)
    ensures word / 0x1_0000 == size && word % 0x1_0000 == op <==> word == size * 0x1_0000 + op
  {
  }
}
