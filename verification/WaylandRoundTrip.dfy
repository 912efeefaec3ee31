/** When parsing undoes writing, and what an incomplete message gives. */
module WaylandRoundTrip {
  import opened Wrappers
  import opened Bytes
  import opened WaylandWire

  ghost predicate Fits(arg: Arg, ty: ArgType) {
    match arg
    case Int(_) => ty == TInt
    case Uint(_) => ty == TUint
    case Fixed(_) => ty == TFixed
    case Object(_) => ty == TObject
    case NewId(_) => ty == TNewId
    case Str(s) => ty.TStr? && (s == None ==> ty.nullable) && (s.Some? ==> 0 !in s.value)
    case Array(_) => ty == TArray
    case FdArg(_) => ty == TFd
  }

  ghost predicate AllFit(args: seq<Arg>, sig: seq<ArgType>) {
    |args| == |sig| && forall i | 0 <= i < |args| :: Fits(args[i], sig[i])
  }

  /** The argument is followed by padding. */
  predicate IsPadded(arg: Arg) {
    arg.Array? || (arg.Str? && arg.s.Some?)
  }

  predicate AnyPadded(args: seq<Arg>) {
    exists i | 0 <= i < |args| :: IsPadded(args[i])
  }

  lemma WordRead(n: nat, rest: seq<byte>, big: bool)
    requires n < 0x1_0000_0000
    ensures TakeWord(ToBytes(n, 4, big) + rest, big) == Ok((n, rest))
  {
    Pow256Values();
    IntegerRoundTrip(n, 4, big);
    var body := ToBytes(n, 4, big) + rest;
    assert body[..4] == ToBytes(n, 4, big) && body[4..] == rest;
  }

  lemma ArrayRead(bytes: seq<byte>, at: nat, rest: seq<byte>, big: bool)
    requires at % 4 == 0 && |bytes| < 0x1_0000_0000
    ensures TakeArray(ArrayBytes(bytes, at, big) + rest, big) == Ok((bytes, rest))
  {
    hide ToBytes;
    var pad := Zeros(Pad4(at + 4 + |bytes|));
    assert Pad4(at + 4 + |bytes|) == Pad4(|bytes|);
    var body := ArrayBytes(bytes, at, big) + rest;
    assert body == ToBytes(|bytes|, 4, big) + (bytes + pad + rest);
    WordRead(|bytes|, bytes + pad + rest, big);
    var after := bytes + pad + rest;
    assert after[..|bytes|] == bytes && after[|bytes| + |pad|..] == rest;
  }

  lemma ArgRead(arg: Arg, ty: ArgType, at: nat, rest: seq<byte>, fds: seq<Fd>, big: bool)
    requires Fits(arg, ty) && (Aligned(at) || !IsPadded(arg))
    requires |ArgBytes(arg, at, big)| < 0x1_0000_0000
    requires ty == TFd ==> fds != [] && fds[0] == arg.fd
    ensures TakeArg(ty, ArgBytes(arg, at, big) + rest, fds, big)
            == Ok((arg, rest, if ty == TFd then fds[1..] else fds))
  {
    hide ToBytes, TakeWord, TakeArray;
    match arg {
      case FdArg(_) => assert [] + rest == rest;
      case Array(a) => ArrayRead(a, at, rest, big);
      case Str(Some(s)) =>
        ArrayRead(s + [0], at, rest, big);
        assert (s + [0])[..|s|] == s;
      case Str(None) => EmptyArrayRead(rest, big);
      case Int(v) => WordRead(Unsigned32(v), rest, big);
      case Fixed(v) => WordRead(Unsigned32(v), rest, big);
      case Uint(v) => WordRead(v, rest, big);
      case Object(v) => WordRead(v, rest, big);
      case NewId(v) => WordRead(v, rest, big);
    }
  }

  lemma EmptyArrayRead(rest: seq<byte>, big: bool)
    ensures TakeArray(Word(0, big) + rest, big) == Ok(([], rest))
  {
    WordRead(0, rest, big);
    assert rest[..0] == [] && rest[0..] == rest;
  }

  predicate Aligned(n: nat) {
    n % 4 == 0
  }

  lemma AlignedSum(a: nat, b: nat)
    requires Aligned(a) && Aligned(b)
    ensures Aligned(a + b)
  {
  }

  lemma ArgLength(arg: Arg, at: nat, big: bool)
    ensures IsPadded(arg) ==> Aligned(at + |ArgBytes(arg, at, big)|)
    ensures !IsPadded(arg) ==> Aligned(|ArgBytes(arg, at, big)|)
    ensures Aligned(at) ==> Aligned(at + |ArgBytes(arg, at, big)|)
  {
    hide ToBytes;
  }

  /** Padding aligns the whole buffer; everything else keeps its alignment. */
  lemma {:induction false} ArgsLength(args: seq<Arg>, at: nat, big: bool)
    ensures Aligned(at) || AnyPadded(args) ==> Aligned(at + |ArgsBytes(args, at, big)|)
    ensures !AnyPadded(args) ==> Aligned(|ArgsBytes(args, at, big)|)
    decreases |args|
  {
    hide ArgBytes, IsPadded;
    if args != [] {
      hide Aligned;
      var first := ArgBytes(args[0], at, big);
      ArgLength(args[0], at, big);
      ArgsLength(args[1..], at + |first|, big);
      if AnyPadded(args) && !IsPadded(args[0]) {
        var i :| 0 <= i < |args| && IsPadded(args[i]);
        assert IsPadded(args[1..][i - 1]);
      }
      if !AnyPadded(args) {
        assert !IsPadded(args[0]);
        assert forall i | 0 <= i < |args[1..]| :: args[1..][i] == args[i + 1];
        AlignedSum(|first|, |ArgsBytes(args[1..], at + |first|, big)|);
      }
    }
  }

  lemma FitTail(args: seq<Arg>, sig: seq<ArgType>)
    requires AllFit(args, sig) && args != []
    ensures Fits(args[0], sig[0]) && AllFit(args[1..], sig[1..])
    ensures args[0].FdArg? <==> sig[0] == TFd
    ensures !AnyPadded(args) ==> !IsPadded(args[0]) && !AnyPadded(args[1..])
  {
    assert Fits(args[0], sig[0]);
    if !AnyPadded(args) {
      assert !IsPadded(args[0]);
      assert forall i | 0 <= i < |args[1..]| :: args[1..][i] == args[i + 1];
    }
  }

  lemma {:induction false} ArgsRead(args: seq<Arg>, sig: seq<ArgType>, at: nat, fds: seq<Fd>, big: bool)
    requires AllFit(args, sig) && (Aligned(at) || !AnyPadded(args))
    requires |ArgsBytes(args, at, big)| < 0x1_0000_0000
    ensures FdCount(sig) == |FdsOf(args)|
    ensures TakeArgs(sig, ArgsBytes(args, at, big), FdsOf(args) + fds, big) == Ok((args, fds))
    decreases |args|
  {
    hide ArgBytes, TakeArg, IsPadded, AnyPadded, Fits, Aligned;
    if args == [] {
      assert FdsOf(args) + fds == fds;
    } else {
      hide AllFit;
      FitTail(args, sig);
      var first := ArgBytes(args[0], at, big);
      var rest := ArgsBytes(args[1..], at + |first|, big);
      ArgLength(args[0], at, big);
      FirstFds(args, fds);
      ArgRead(args[0], sig[0], at, rest, FdsOf(args) + fds, big);
      ArgsRead(args[1..], sig[1..], at + |first|, fds, big);
      OneMoreTaken(args, sig, first + rest, FdsOf(args) + fds, rest, FdsOf(args[1..]) + fds, fds, big);
    }
  }

  lemma FirstFds(args: seq<Arg>, fds: seq<Fd>)
    requires args != []
    ensures FdsOf(args) + fds == if args[0].FdArg? then [args[0].fd] + (FdsOf(args[1..]) + fds) else FdsOf(args[1..]) + fds
    ensures |FdsOf(args)| == |FdsOf(args[1..])| + if args[0].FdArg? then 1 else 0
  {
    var more := FdsOf(args[1..]);
    if args[0].FdArg? {
      assert FdsOf(args) == [args[0].fd] + more;
      assert [args[0].fd] + more + fds == [args[0].fd] + (more + fds);
    } else {
      assert FdsOf(args) == [] + more == more;
    }
  }

  lemma OneMoreTaken(args: seq<Arg>, sig: seq<ArgType>, body: seq<byte>, all: seq<Fd>, rest: seq<byte>, left: seq<Fd>,
                     fds: seq<Fd>, big: bool)
    requires args != [] && sig != [] && FdCount(sig) <= |all| && FdCount(sig[1..]) <= |left|
    requires TakeArg(sig[0], body, all, big) == Ok((args[0], rest, left))
    requires TakeArgs(sig[1..], rest, left, big) == Ok((args[1..], fds))
    ensures TakeArgs(sig, body, all, big) == Ok((args, fds))
  {
    hide TakeArg;
    assert args == [args[0]] + args[1..];
  }

  lemma HeaderRead(msg: Message, at: nat, rest: seq<byte>, big: bool)
    requires SizeAt(msg, at, big) <= MAX_SIZE
    ensures var size := SizeAt(msg, at, big);
            var buf := MessageBytes(msg, at, big) + rest;
            && TakeWord(buf, big) == Ok((msg.sender, buf[4..]))
            && TakeWord(buf[4..], big) == Ok((size * 0x1_0000 + msg.opcode, buf[HEADER..]))
            && buf[HEADER..size] == ArgsBytes(msg.args, at + HEADER, big)
            && buf[size..] == rest
  {
    hide ToBytes, ArgsBytes, TakeWord;
    var size := SizeAt(msg, at, big);
    var args := ArgsBytes(msg.args, at + HEADER, big);
    var first, second := ToBytes(msg.sender, 4, big), ToBytes(size * 0x1_0000 + msg.opcode, 4, big);
    var buf := MessageBytes(msg, at, big) + rest;
    assert buf == first + (second + (args + rest));
    assert buf[4..] == second + (args + rest);
    assert buf[HEADER..] == args + rest;
    WordRead(msg.sender, second + (args + rest), big);
    WordRead(size * 0x1_0000 + msg.opcode, args + rest, big);
  }

  /** A message matching its signature parses back from what was written for
      it, leaving the bytes and descriptors after it, exactly when it was
      written where the buffer was aligned or it has no padding of its own:
      padding aligns the whole buffer, not the message. */
  lemma WriteThenParse(msg: Message, at: nat, rest: seq<byte>, fds: seq<Fd>, signatures: Signatures, big: bool)
    requires SizeAt(msg, at, big) <= MAX_SIZE
    requires signatures(msg.sender, msg.opcode).Some?
    requires AllFit(msg.args, signatures(msg.sender, msg.opcode).value)
    ensures at % 4 == 0 || !AnyPadded(msg.args) <==>
            Parse(MessageBytes(msg, at, big) + rest, FdsOf(msg.args) + fds, signatures, big)
            == Ok(Complete(msg, SizeAt(msg, at, big), fds))
    ensures !(at % 4 == 0 || !AnyPadded(msg.args)) ==>
              Parse(MessageBytes(msg, at, big) + rest, FdsOf(msg.args) + fds, signatures, big) == Err(MalformedHeader)
  {
    hide MessageBytes, ArgsBytes, TakeWord, TakeArgs, AnyPadded, AllFit, FdsOf, FdCount;
    HeaderRead(msg, at, rest, big);
    ArgsLength(msg.args, at + HEADER, big);
    if at % 4 == 0 || !AnyPadded(msg.args) {
      ArgsRead(msg.args, signatures(msg.sender, msg.opcode).value, at + HEADER, fds, big);
    }
  }

  /** Less than a whole message yields none and takes no descriptor. */
  lemma PrefixIsIncomplete(msg: Message, at: nat, k: nat, fds: seq<Fd>, signatures: Signatures, big: bool)
    requires SizeAt(msg, at, big) <= MAX_SIZE && k < SizeAt(msg, at, big)
    requires at % 4 == 0 || !AnyPadded(msg.args)
    ensures Parse(MessageBytes(msg, at, big)[..k], fds, signatures, big) == Ok(Incomplete)
  {
    hide MessageBytes, ArgsBytes, TakeArgs, AnyPadded, TakeWord;
    HeaderRead(msg, at, [], big);
    ArgsLength(msg.args, at + HEADER, big);
    var bytes := MessageBytes(msg, at, big);
    assert bytes + [] == bytes;
    if k >= HEADER {
      var buf := bytes[..k];
      assert buf[4..] == bytes[4..][..k - 4];
      SameWord(bytes, k, big);
      SameWord(bytes[4..], k - 4, big);
    }
  }

  lemma SameWord(bytes: seq<byte>, k: nat, big: bool)
    requires 4 <= k <= |bytes|
    ensures TakeWord(bytes[..k], big).Ok? && TakeWord(bytes, big).Ok?
    ensures TakeWord(bytes[..k], big).value == (TakeWord(bytes, big).value.0, bytes[..k][4..])
  {
    assert bytes[..k][..4] == bytes[..4];
  }
}
