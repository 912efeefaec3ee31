/** The wire format of D-Bus values said outright: characters, widths and
    boundaries as the D-Bus Specification gives them, and which bytes stand for
    a value. */
module WireFormat {
  import opened Wrappers
  import opened Bytes
  import opened Signatures
  import opened Values

  /** The bytes of a text in ASCII. */
  function Ascii(s: string): Text {
    seq(|s|, i requires 0 <= i < |s| => s[i] as int % 256)
  }

  /** The type of a value, spelled. */
  function Spelled(v: Value): Text
    decreases v
  {
    match v
    case Byte(_) => Ascii("y")
    case Bool(_) => Ascii("b")
    case I16(_) => Ascii("n")
    case U16(_) => Ascii("q")
    case I32(_) => Ascii("i")
    case U32(_) => Ascii("u")
    case I64(_) => Ascii("x")
    case U64(_) => Ascii("t")
    case Double(_) => Ascii("d")
    case Str(_) => Ascii("s")
    case Path(_) => Ascii("o")
    case Sig(_) => Ascii("g")
    case Fd(_) => Ascii("h")
    case Array(elem, _) => Ascii("a") + elem
    case Dict(key, val, _) => Ascii("a{") + key + val + Ascii("}")
    case Struct(fields) => Ascii("(") + SpelledAll(fields) + Ascii(")")
    case Variant(_) => Ascii("v")
  }

  function SpelledAll(vs: seq<Value>): Text
    decreases vs
  {
    if vs == [] then [] else Spelled(vs[0]) + SpelledAll(vs[1..])
  }

  /** The boundary a value starts at, and one of a type. */
  function Boundary(v: Value): nat {
    match v
    case Byte(_) => 1
    case Sig(_) => 1
    case Variant(_) => 1
    case I16(_) => 2
    case U16(_) => 2
    case I64(_) => 8
    case U64(_) => 8
    case Double(_) => 8
    case Struct(_) => 8
    case _ => 4
  }

  function BoundaryOf(elem: Text): nat {
    if elem == [] then 4
    else if elem[0] == 'y' as int || elem[0] == 'g' as int || elem[0] == 'v' as int then 1
    else if elem[0] == 'n' as int || elem[0] == 'q' as int then 2
    else if elem[0] == 'x' as int || elem[0] == 't' as int || elem[0] == 'd' as int then 8
    else if elem[0] == '(' as int || elem[0] == '{' as int then 8
    else 4
  }

  /** The byte of `b` with weight 256 to the `i`. */
  function Digit(b: seq<byte>, i: nat, big: bool): byte
    requires i < |b|
  {
    if big then b[|b| - 1 - i] else b[i]
  }

  predicate Is2(b: seq<byte>, n: int, big: bool) {
    |b| == 2 && n == Digit(b, 0, big) + 0x100 * Digit(b, 1, big)
  }

  predicate Is4(b: seq<byte>, n: int, big: bool) {
    |b| == 4 && n == Digit(b, 0, big) + 0x100 * Digit(b, 1, big) + 0x1_0000 * Digit(b, 2, big) + 0x100_0000 * Digit(b, 3, big)
  }

  predicate Is8(b: seq<byte>, n: int, big: bool) {
    && |b| == 8
    && n == Digit(b, 0, big) + 0x100 * Digit(b, 1, big) + 0x1_0000 * Digit(b, 2, big) + 0x100_0000 * Digit(b, 3, big)
         + 0x1_0000_0000 * Digit(b, 4, big) + 0x100_0000_0000 * Digit(b, 5, big)
         + 0x1_0000_0000_0000 * Digit(b, 6, big) + 0x100_0000_0000_0000 * Digit(b, 7, big)
  }

  /** `s`, at `pos`, starts with the `k` bytes up to the next multiple of `n`,
      which are zero when they are `clear`. */
  ghost predicate Gap(s: seq<byte>, pos: nat, n: nat, k: nat, clear: bool)
    requires n > 0
  {
    && k < n && k <= |s| && (pos + k) % n == 0
    && (clear ==> forall i | 0 <= i < k :: s[i] == 0)
  }

  /** `s` is `v` written at the offset `pos`: what is skipped, up to its
      boundary, and its content. */
  ghost predicate Marshals(v: Value, s: seq<byte>, pos: nat, big: bool, clear: bool)
    decreases v, 1
  {
    exists k: nat :: Gap(s, pos, Boundary(v), k, clear) && Content(v, s[k..], pos + k, big, clear)
  }

  ghost predicate Content(v: Value, b: seq<byte>, pos: nat, big: bool, clear: bool)
    decreases v, 0
  {
    match v
    case Byte(y) => b == [y]
    case Bool(x) => Is4(b, if x then 1 else 0, big)
    case I16(n) => Is2(b, if n < 0 then n + 0x1_0000 else n, big)
    case U16(n) => Is2(b, n, big)
    case I32(n) => Is4(b, if n < 0 then n + 0x1_0000_0000 else n, big)
    case U32(n) => Is4(b, n, big)
    case I64(n) => Is8(b, if n < 0 then n + 0x1_0000_0000_0000_0000 else n, big)
    case U64(n) => Is8(b, n, big)
    case Double(bits) => Is8(b, bits, big)
    case Str(t) => IsText(b, t, big)
    case Path(t) => IsText(b, t, big)
    case Sig(t) => b == [|t| % 256] + t + [0]
    case Fd(n) => Is4(b, n, big)
    case Array(elem, items) =>
      exists k: nat :: IsHeader(b, pos, BoundaryOf(elem), k, big, clear) && MarshalsAll(items, b[4 + k..], pos + 4 + k, big, clear)
    case Dict(_, _, entries) =>
      exists k: nat :: IsHeader(b, pos, 8, k, big, clear) && MarshalsEntries(entries, b[4 + k..], pos + 4 + k, big, clear)
    case Struct(fields) => MarshalsAll(fields, b, pos, big, clear)
    case Variant(inner) =>
      var t := Spelled(inner);
      && |b| >= |t| + 2 && b[..|t| + 2] == [|t| % 256] + t + [0]
      && Marshals(inner, b[|t| + 2..], pos + |t| + 2, big, clear)
  }

  predicate IsText(b: seq<byte>, t: Text, big: bool) {
    |b| == |t| + 5 && Is4(b[..4], |t| % 0x1_0000_0000, big) && b[4..] == t + [0]
  }

  /** An array starts with the length of its elements, which follow at their
      boundary. */
  ghost predicate IsHeader(b: seq<byte>, pos: nat, n: nat, k: nat, big: bool, clear: bool)
    requires n > 0
  {
    |b| >= 4 + k && Gap(b[4..], pos + 4, n, k, clear) && Is4(b[..4], (|b| - 4 - k) % 0x1_0000_0000, big)
  }

  ghost predicate MarshalsAll(vs: seq<Value>, b: seq<byte>, pos: nat, big: bool, clear: bool)
    decreases vs, 0
  {
    if vs == [] then b == []
    else
      exists m: nat :: m <= |b| && Marshals(vs[0], b[..m], pos, big, clear) && MarshalsAll(vs[1..], b[m..], pos + m, big, clear)
  }

  ghost predicate MarshalsEntries(es: seq<(Value, Value)>, b: seq<byte>, pos: nat, big: bool, clear: bool)
    decreases es, 0
  {
    if es == [] then b == []
    else
      exists m: nat :: m <= |b| && MarshalsEntry(es[0], b[..m], pos, big, clear)
                       && MarshalsEntries(es[1..], b[m..], pos + m, big, clear)
  }

  ghost predicate MarshalsEntry(e: (Value, Value), b: seq<byte>, pos: nat, big: bool, clear: bool)
    decreases e, 0
  {
    exists k: nat, m: nat ::
      && Gap(b, pos, 8, k, clear) && k <= m <= |b|
      && Marshals(e.0, b[k..m], pos + k, big, clear)
      && Marshals(e.1, b[m..], pos + m, big, clear)
  }

  // Types and numbers.

  lemma {:induction false} SpelledIsSignature(v: Value)
    ensures Spelled(v) == Signature(v)
    decreases v
  {
    hide Ascii;
    Letters();
    if v.Struct? {
      AllSpelled(v.fields);
    } else if v.Dict? {
      assert [ARRAY, OPEN_ENTRY] + v.key + v.val + [CLOSE_ENTRY] == [ARRAY] + EntryType(v.key, v.val);
    }
  }

  lemma Letters()
    ensures Ascii("y") == [BYTE] && Ascii("b") == [BOOL] && Ascii("n") == [INT16] && Ascii("q") == [UINT16]
    ensures Ascii("i") == [INT32] && Ascii("u") == [UINT32] && Ascii("x") == [INT64] && Ascii("t") == [UINT64]
    ensures Ascii("d") == [DOUBLE] && Ascii("s") == [STRING] && Ascii("o") == [PATH] && Ascii("g") == [SIGNATURE]
    ensures Ascii("h") == [FD] && Ascii("v") == [VARIANT] && Ascii("a") == [ARRAY]
    ensures Ascii("(") == [OPEN_STRUCT] && Ascii(")") == [CLOSE_STRUCT]
    ensures Ascii("a{") == [ARRAY, OPEN_ENTRY] && Ascii("}") == [CLOSE_ENTRY]
  {
  }

  lemma {:induction false} AllSpelled(vs: seq<Value>)
    ensures SpelledAll(vs) == Concat(SignaturesOf(vs))
    decreases vs
  {
    if vs != [] {
      SpelledIsSignature(vs[0]);
      AllSpelled(vs[1..]);
      assert SignaturesOf(vs)[1..] == SignaturesOf(vs[1..]);
    }
  }

  lemma BoundaryIsAlignment(v: Value)
    ensures Boundary(v) == Alignment(Signature(v))
  {
  }

  lemma BoundaryOfIsAlignment(elem: Text)
    ensures BoundaryOf(elem) == Alignment(elem)
  {
  }

  lemma OnlyPadding(pos: nat, n: nat, k: nat)
    requires IsAlignment(n) && k < n
    ensures (pos + k) % n == 0 <==> k == PadLen(pos, n)
  {
    if n == 2 {
      OnlyPadding2(pos, k);
    } else if n == 4 {
      OnlyPadding4(pos, k);
    } else if n == 8 {
      OnlyPadding8(pos, k);
    }
  }

  lemma OnlyPadding2(pos: nat, k: nat)
    requires k < 2
    ensures (pos + k) % 2 == 0 <==> k == (2 - pos % 2) % 2
  {
  }

  lemma OnlyPadding4(pos: nat, k: nat)
    requires k < 4
    ensures (pos + k) % 4 == 0 <==> k == (4 - pos % 4) % 4
  {
  }

  lemma OnlyPadding8(pos: nat, k: nat)
    requires k < 8
    ensures (pos + k) % 8 == 0 <==> k == (8 - pos % 8) % 8
  {
  }

  lemma FromTwo(b: seq<byte>)
    requires |b| == 2
    ensures Is2(b, FromLittleEndian(b), false)
  {
    assert b[1..][0] == b[1] && b[1..][1..] == [];
  }

  lemma FromFour(b: seq<byte>)
    requires |b| == 4
    ensures Is4(b, FromLittleEndian(b), false)
  {
    FromTwo(b[2..]);
    assert b[1..][1..] == b[2..];
  }

  lemma LowByte(b: seq<byte>, i: nat)
    requires i < |b|
    ensures FromLittleEndian(b[i..]) == b[i] as int + 256 * FromLittleEndian(b[i + 1..])
  {
    assert b[i..][1..] == b[i + 1..];
  }

  lemma FromEight(b: seq<byte>)
    requires |b| == 8
    ensures Is8(b, FromLittleEndian(b), false)
  {
    FromFour(b[4..]);
    LowByte(b, 0);
    LowByte(b, 1);
    LowByte(b, 2);
    LowByte(b, 3);
    assert b[0..] == b;
  }

  lemma Backwards(b: seq<byte>, n: int)
    ensures Is2(b, n, true) <==> Is2(Reverse(b), n, false)
    ensures Is4(b, n, true) <==> Is4(Reverse(b), n, false)
    ensures Is8(b, n, true) <==> Is8(Reverse(b), n, false)
  {
  }

  lemma BytesAreDigits(b: seq<byte>, n: int, big: bool)
    ensures Is2(b, n, big) <==> |b| == 2 && n == FromBytes(b, big)
    ensures Is4(b, n, big) <==> |b| == 4 && n == FromBytes(b, big)
    ensures Is8(b, n, big) <==> |b| == 8 && n == FromBytes(b, big)
  {
    var d := if big then Reverse(b) else b;
    if big {
      Backwards(b, n);
    }
    if |b| == 2 {
      FromTwo(d);
    } else if |b| == 4 {
      FromFour(d);
    } else if |b| == 8 {
      FromEight(d);
    }
  }

  lemma {:induction false} LittleEndianOnce(b: seq<byte>)
    ensures LittleEndian(FromLittleEndian(b), |b|) == b
  {
    if b != [] {
      LittleEndianOnce(b[1..]);
      assert FromLittleEndian(b) % 256 == b[0] && FromLittleEndian(b) / 256 == FromLittleEndian(b[1..]);
    }
  }

  /** The bytes of a number are the only ones that are read as it. */
  lemma OnlyBytes(b: seq<byte>, n: nat, big: bool)
    requires n < Pow256(|b|)
    ensures b == ToBytes(n, |b|, big) <==> FromBytes(b, big) == n
  {
    IntegerRoundTrip(n, |b|, big);
    LittleEndianOnce(if big then Reverse(b) else b);
    ReverseTwice(b);
  }

  // Writing.

  /** What is written for a value is the one thing that stands for it with
      zeros for padding, at every offset and in either byte order. */
  lemma {:induction false} MarshalsExactly(v: Value, s: seq<byte>, pos: nat, big: bool)
    ensures Marshals(v, s, pos, big, true) <==> s == Encode(v, pos, big)
    decreases v, 1
  {
    hide PadLen, Payload, Content, Alignment, Signature, Boundary;
    BoundaryIsAlignment(v);
    var k := PadLen(pos, Boundary(v));
    GapIsPadding(s, pos, Boundary(v));
    if |s| >= k {
      ContentExactly(v, s[k..], pos + k, big);
      Splits(s, Zeros(k), Payload(v, pos + k, big));
    }
  }

  lemma GapIsPadding(s: seq<byte>, pos: nat, n: nat)
    requires IsAlignment(n)
    ensures forall k: nat, clear ::
              Gap(s, pos, n, k, clear) <==> k == PadLen(pos, n) && k <= |s| && (clear ==> s[..k] == Zeros(k))
  {
    hide PadLen;
    forall k: nat, clear
      ensures Gap(s, pos, n, k, clear) <==> k == PadLen(pos, n) && k <= |s| && (clear ==> s[..k] == Zeros(k))
    {
      if k < n {
        OnlyPadding(pos, n, k);
      }
    }
  }

  lemma {:induction false} ContentExactly(v: Value, b: seq<byte>, pos: nat, big: bool)
    ensures Content(v, b, pos, big, true) <==> b == Payload(v, pos, big)
    decreases v, 0
  {
    hide ToBytes, Encode, EncodeAll, EncodeEntries, Marshals, MarshalsAll, MarshalsEntries, Alignment, PadLen;
    match v {
      case Str(t) => TextExactly(b, t, big);
      case Path(t) => TextExactly(b, t, big);
      case Sig(_) =>
      case Variant(inner) => VariantExactly(inner, b, pos, big);
      case Struct(fields) => AllExactly(fields, b, pos, big);
      case Array(elem, items) => ArrayExactly(elem, items, b, pos, big);
      case Dict(key, val, entries) => DictExactly(key, val, entries, b, pos, big);
      case _ => NumberExactly(v, b, pos, big);
    }
  }

  lemma NumberExactly(v: Value, b: seq<byte>, pos: nat, big: bool)
    requires NumberValue(v)
    ensures Content(v, b, pos, big, true) <==> b == Payload(v, pos, big)
  {
    hide ToBytes, Is2, Is4, Is8;
    Pow256Values();
    var n := NumberBits(v);
    assert Payload(v, pos, big) == ToBytes(n, Alignment(Signature(v)), big);
    BytesAreDigits(b, n, big);
    if |b| == Alignment(Signature(v)) {
      OnlyBytes(b, n, big);
    }
    if v.Byte? {
      OneByte(v.y, big);
    }
  }

  lemma OneByte(y: byte, big: bool)
    ensures ToBytes(y, 1, big) == [y]
  {
    assert LittleEndian(y, 1) == [y] + LittleEndian(0, 0);
  }

  lemma WordExactly(b: seq<byte>, n: nat, big: bool)
    ensures Is4(b, n % 0x1_0000_0000, big) <==> b == Word(n, big)
  {
    hide ToBytes, Is4;
    Pow256Values();
    BytesAreDigits(b, n % 0x1_0000_0000, big);
    if |b| == 4 {
      OnlyBytes(b, n % 0x1_0000_0000, big);
    }
  }

  lemma TextExactly(b: seq<byte>, t: Text, big: bool)
    ensures IsText(b, t, big) <==> b == Word(|t|, big) + t + [0]
  {
    hide Word, Is4;
    if |b| >= 4 {
      WordExactly(b[..4], |t|, big);
      Splits(b, Word(|t|, big), t + [0]);
    }
    assert Word(|t|, big) + t + [0] == Word(|t|, big) + (t + [0]);
  }

  lemma Splits(b: seq<byte>, a: seq<byte>, c: seq<byte>)
    requires |b| >= |a|
    ensures b == a + c <==> b[..|a|] == a && b[|a|..] == c
  {
    assert b == b[..|a|] + b[|a|..];
    assert (a + c)[..|a|] == a && (a + c)[|a|..] == c;
  }

  lemma {:induction false} VariantExactly(inner: Value, b: seq<byte>, pos: nat, big: bool)
    ensures Content(Variant(inner), b, pos, big, true) <==> b == Payload(Variant(inner), pos, big)
    decreases inner, 2
  {
    hide Marshals, Encode, Signature, Spelled;
    SpelledIsSignature(inner);
    var t := Spelled(inner);
    if |b| >= |t| + 2 {
      MarshalsExactly(inner, b[|t| + 2..], pos + |t| + 2, big);
      Splits(b, SignatureBytes(t), Encode(inner, pos + |t| + 2, big));
    }
  }

  lemma {:induction false} AllExactly(vs: seq<Value>, b: seq<byte>, pos: nat, big: bool)
    ensures MarshalsAll(vs, b, pos, big, true) <==> b == EncodeAll(vs, pos, big)
    decreases vs, 0
  {
    hide Marshals, Encode;
    if vs != [] {
      var first := Encode(vs[0], pos, big);
      forall m: nat | m <= |b|
        ensures Marshals(vs[0], b[..m], pos, big, true) <==> b[..m] == first
      {
        MarshalsExactly(vs[0], b[..m], pos, big);
      }
      if |b| >= |first| {
        AllExactly(vs[1..], b[|first|..], pos + |first|, big);
        Splits(b, first, EncodeAll(vs[1..], pos + |first|, big));
      }
    }
  }

  lemma {:induction false} ArrayExactly(elem: Text, items: seq<Value>, b: seq<byte>, pos: nat, big: bool)
    ensures Content(Array(elem, items), b, pos, big, true) <==> b == Payload(Array(elem, items), pos, big)
    decreases items, 1
  {
    hide MarshalsAll, EncodeAll, BoundaryOf, Alignment, IsHeader, ArrayHeader, ArrayStart;
    BoundaryOfIsAlignment(elem);
    var start := ArrayStart(pos, elem);
    StartsThere(b, pos, BoundaryOf(elem), elem, big);
    HeaderExactly(b, pos, BoundaryOf(elem), elem, EncodeAll(items, start, big), big);
    if |b| >= start - pos {
      AllExactly(items, b[start - pos..], start, big);
    }
  }

  /** The elements of an array start where the writer puts them. */
  lemma StartsThere(b: seq<byte>, pos: nat, n: nat, elem: Text, big: bool)
    requires n == Alignment(elem)
    ensures forall k: nat, clear :: IsHeader(b, pos, n, k, big, clear) ==> pos + 4 + k == ArrayStart(pos, elem) && 4 + k <= |b|
  {
    hide Is4, Alignment, PadLen;
    if |b| >= 4 {
      GapIsPadding(b[4..], pos + 4, n);
    }
  }

  lemma HeaderExactly(b: seq<byte>, pos: nat, n: nat, elem: Text, body: seq<byte>, big: bool)
    requires n == Alignment(elem)
    ensures var k := ArrayStart(pos, elem) - pos - 4;
            b == ArrayHeader(pos, elem, |body|, big) + body <==> IsHeader(b, pos, n, k, big, true) && b[4 + k..] == body
  {
    hide Word, Is4, Alignment, PadLen;
    var k := PadLen(pos + 4, n);
    if |b| >= 4 + k {
      GapIsPadding(b[4..], pos + 4, n);
      WordExactly(b[..4], |body|, big);
      ThreeParts(b, Word(|body|, big), Zeros(k), body);
    }
  }

  lemma ThreeParts(b: seq<byte>, w: seq<byte>, z: seq<byte>, body: seq<byte>)
    requires |b| >= |w| + |z|
    ensures b == w + z + body <==> b[..|w|] == w && b[|w|..][..|z|] == z && b[|w| + |z|..] == body
  {
    Splits(b, w + z, body);
    var front := b[..|w| + |z|];
    Splits(front, w, z);
    assert front[..|w|] == b[..|w|] && front[|w|..] == b[|w|..][..|z|];
  }

  lemma {:induction false} DictExactly(
    key: Text, val: Text, entries: seq<(Value, Value)>, b: seq<byte>, pos: nat, big: bool)
    ensures Content(Dict(key, val, entries), b, pos, big, true) <==> b == Payload(Dict(key, val, entries), pos, big)
    decreases entries, 1
  {
    hide MarshalsEntries, EncodeEntries, Alignment, IsHeader, ArrayHeader, ArrayStart;
    var elem := EntryType(key, val);
    var start := ArrayStart(pos, elem);
    BoundaryOfEntry(key, val);
    StartsThere(b, pos, 8, elem, big);
    HeaderExactly(b, pos, 8, elem, EncodeEntries(entries, start, big), big);
    if |b| >= start - pos {
      EntriesExactly(entries, b[start - pos..], start, big);
    }
  }

  lemma BoundaryOfEntry(key: Text, val: Text)
    ensures Alignment(EntryType(key, val)) == 8
  {
  }

  lemma {:induction false} EntriesExactly(es: seq<(Value, Value)>, b: seq<byte>, pos: nat, big: bool)
    ensures MarshalsEntries(es, b, pos, big, true) <==> b == EncodeEntries(es, pos, big)
    decreases es, 0
  {
    hide MarshalsEntry, EncodeEntry;
    if es != [] {
      var first := EncodeEntry(es[0], pos, big);
      forall m: nat | m <= |b|
        ensures MarshalsEntry(es[0], b[..m], pos, big, true) <==> b[..m] == first
      {
        EntryExactly(es[0], b[..m], pos, big);
      }
      if |b| >= |first| {
        EntriesExactly(es[1..], b[|first|..], pos + |first|, big);
        Splits(b, first, EncodeEntries(es[1..], pos + |first|, big));
      }
    }
  }

  lemma {:induction false} EntryExactly(e: (Value, Value), b: seq<byte>, pos: nat, big: bool)
    ensures MarshalsEntry(e, b, pos, big, true) <==> b == EncodeEntry(e, pos, big)
    decreases e, 0
  {
    hide Marshals, Encode, Gap, PadLen;
    var k := PadLen(pos, 8);
    GapIsPadding(b, pos, 8);
    var key := Encode(e.0, pos + k, big);
    var val := Encode(e.1, pos + k + |key|, big);
    forall m: nat | k <= m <= |b|
      ensures Marshals(e.0, b[k..m], pos + k, big, true) <==> b[k..m] == key
      ensures m == k + |key| ==> (Marshals(e.1, b[m..], pos + m, big, true) <==> b[m..] == val)
    {
      MarshalsExactly(e.0, b[k..m], pos + k, big);
      MarshalsExactly(e.1, b[m..], pos + m, big);
    }
    if |b| >= k + |key| {
      PartsOfEntry(b, Zeros(k), key, val);
    }
  }

  lemma PartsOfEntry(b: seq<byte>, z: seq<byte>, key: seq<byte>, val: seq<byte>)
    requires |b| >= |z| + |key|
    ensures b == z + key + val <==> b[..|z|] == z && b[|z|..|z| + |key|] == key && b[|z| + |key|..] == val
  {
    ThreeParts(b, z, key, val);
    assert b[|z|..|z| + |key|] == b[|z|..][..|key|];
  }
}
