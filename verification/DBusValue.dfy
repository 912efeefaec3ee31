/** D-Bus values and their wire encoding, as functions of the buffer offset.
    `big` selects the byte order: the writer always writes little-endian, and
    the reader accepts both. */
module Values {
  import opened Wrappers
  import opened Bytes
  import opened Signatures

  /** A decoded value. Strings are their UTF-8 bytes and doubles their 64
      bits. Containers keep their element signatures. */
  datatype Value =
    | Byte(y: byte)
    | Bool(b: bool)
    | I16(n: i16)
    | U16(q: u16)
    | I32(i: i32)
    | U32(u: u32)
    | I64(x: i64)
    | U64(t: u64)
    | Double(bits: u64)
    | Str(s: Text)
    | Path(p: Text)
    | Sig(g: Text)
    | Fd(h: u32)
    | Array(elem: Text, items: seq<Value>)
    | Dict(key: Text, val: Text, entries: seq<(Value, Value)>)
    | Struct(fields: seq<Value>)
    | Variant(inner: Value)

  function EntryType(key: Text, val: Text): Text {
    [OPEN_ENTRY] + key + val + [CLOSE_ENTRY]
  }

  /** The value's single complete type. */
  function Signature(v: Value): (s: Text)
    ensures |s| >= 1
    decreases v
  {
    match v
    case Byte(_) => [BYTE]
    case Bool(_) => [BOOL]
    case I16(_) => [INT16]
    case U16(_) => [UINT16]
    case I32(_) => [INT32]
    case U32(_) => [UINT32]
    case I64(_) => [INT64]
    case U64(_) => [UINT64]
    case Double(_) => [DOUBLE]
    case Str(_) => [STRING]
    case Path(_) => [PATH]
    case Sig(_) => [SIGNATURE]
    case Fd(_) => [FD]
    case Array(elem, _) => [ARRAY] + elem
    case Dict(key, val, _) => [ARRAY] + EntryType(key, val)
    case Struct(fields) => [OPEN_STRUCT] + Concat(SignaturesOf(fields)) + [CLOSE_STRUCT]
    case Variant(_) => [VARIANT]
  }

  function SignaturesOf(vs: seq<Value>): (types: seq<Text>)
    ensures |types| == |vs|
    ensures forall i | 0 <= i < |vs| :: types[i] == Signature(vs[i])
    decreases vs
  {
    if vs == [] then [] else [Signature(vs[0])] + SignaturesOf(vs[1..])
  }

  /** How a value of a type is aligned. The empty signature, on which the
      program panics, is no type. */
  function Alignment(sig: Text): (n: nat)
    ensures IsAlignment(n)
  {
    if sig == [] then 4
    else if sig[0] == BYTE || sig[0] == SIGNATURE || sig[0] == VARIANT then 1
    else if sig[0] == INT16 || sig[0] == UINT16 then 2
    else if sig[0] == INT64 || sig[0] == UINT64 || sig[0] == DOUBLE || sig[0] == OPEN_STRUCT || sig[0] == OPEN_ENTRY
    then 8
    else 4
  }

  predicate IsAlignment(n: nat) {
    n == 1 || n == 2 || n == 4 || n == 8
  }

  /** The padding bytes before a value aligned to `n`. */
  function PadLen(pos: nat, n: nat): (k: nat)
    requires IsAlignment(n)
    ensures k < n
  {
    (n - pos % n) % n
  }

  /** Padding ends at a multiple of the alignment, and is the shortest that does. */
  lemma PadLenAligns(pos: nat, n: nat)
    requires IsAlignment(n)
    ensures (pos + PadLen(pos, n)) % n == 0
    ensures pos % n == 0 <==> PadLen(pos, n) == 0
  {
    if n == 2 {
      Aligns2(pos);
    } else if n == 4 {
      Aligns4(pos);
    } else if n == 8 {
      Aligns8(pos);
    }
  }

  lemma Aligns2(pos: nat)
    ensures (pos + (2 - pos % 2) % 2) % 2 == 0 && (pos % 2 == 0 <==> (2 - pos % 2) % 2 == 0)
  {
  }

  lemma Aligns4(pos: nat)
    ensures (pos + (4 - pos % 4) % 4) % 4 == 0 && (pos % 4 == 0 <==> (4 - pos % 4) % 4 == 0)
  {
  }

  lemma Aligns8(pos: nat)
    ensures (pos + (8 - pos % 8) % 8) % 8 == 0 && (pos % 8 == 0 <==> (8 - pos % 8) % 8 == 0)
  {
  }

  /** The types stored as one integer as wide as their alignment. */
  predicate IsNumber(c: byte) {
    IsBasic(c) && c != STRING && c != PATH && c != SIGNATURE && c != VARIANT
  }

  predicate NumberValue(v: Value) {
    v.Byte? || v.Bool? || v.I16? || v.U16? || v.I32? || v.U32? || v.I64? || v.U64? || v.Double? || v.Fd?
  }

  /** The bits stored for a number, as an unsigned integer. */
  function NumberBits(v: Value): (n: nat)
    requires NumberValue(v)
    ensures n < Pow256(Alignment(Signature(v)))
  {
    Pow256Values();
    match v
    case Byte(y) => y
    case Bool(b) => if b then 1 else 0
    case I16(n) => Unsigned(n, 2)
    case U16(q) => q
    case I32(i) => Unsigned(i, 4)
    case U32(u) => u
    case I64(x) => Unsigned(x, 8)
    case U64(t) => t
    case Double(bits) => bits
    case Fd(h) => h
  }

  /** The value of type `c` stored as the bits `n`. */
  function NumberFromBits(c: byte, n: nat): (r: Result<Value, DecodeError>)
    requires IsNumber(c) && n < Pow256(Alignment([c]))
    ensures r.Ok? ==> NumberValue(r.value) && Signature(r.value) == [c]
  {
    Pow256Values();
    if c == BYTE then Ok(Byte(n))
    else if c == BOOL then (if n == 0 then Ok(Bool(false)) else if n == 1 then Ok(Bool(true)) else Err(BadBoolean(n)))
    else if c == INT16 then Ok(I16(Signed(n, 2)))
    else if c == UINT16 then Ok(U16(n))
    else if c == INT32 then Ok(I32(Signed(n, 4)))
    else if c == UINT32 then Ok(U32(n))
    else if c == INT64 then Ok(I64(Signed(n, 8)))
    else if c == UINT64 then Ok(U64(n))
    else if c == DOUBLE then Ok(Double(n))
    else Ok(Fd(n))
  }

  lemma NumberRoundTrip(v: Value)
    requires NumberValue(v)
    ensures IsNumber(Signature(v)[0]) && Signature(v) == [Signature(v)[0]]
    ensures NumberFromBits(Signature(v)[0], NumberBits(v)) == Ok(v)
  {
    Pow256Values();
  }

  /** What the writer appends for `v` to a buffer of `pos` bytes. */
  function Encode(v: Value, pos: nat, big: bool): seq<byte>
    decreases v, 1
  {
    var pad := PadLen(pos, Alignment(Signature(v)));
    Zeros(pad) + Payload(v, pos + pad, big)
  }

  /** A signature in the body: its length is kept in one byte. */
  function SignatureBytes(s: Text): (r: seq<byte>)
    ensures |r| == |s| + 2
  {
    [|s| % 256] + s + [0]
  }

  /** The offset of the first element of an array whose length starts at `pos`. */
  function ArrayStart(pos: nat, elem: Text): (at: nat)
    ensures at >= pos + 4
  {
    pos + 4 + PadLen(pos + 4, Alignment(elem))
  }

  function ArrayHeader(pos: nat, elem: Text, length: nat, big: bool): (s: seq<byte>)
    ensures |s| == ArrayStart(pos, elem) - pos
  {
    Word(length, big) + Zeros(PadLen(pos + 4, Alignment(elem)))
  }

  /** The bytes of `v` from its own alignment on. */
  function Payload(v: Value, pos: nat, big: bool): seq<byte>
    decreases v, 0
  {
    match v
    case Str(s) => Word(|s|, big) + s + [0]
    case Path(s) => Word(|s|, big) + s + [0]
    case Sig(s) => SignatureBytes(s)
    case Variant(inner) =>
      SignatureBytes(Signature(inner)) + Encode(inner, pos + |Signature(inner)| + 2, big)
    case Struct(fields) => EncodeAll(fields, pos, big)
    case Array(elem, items) =>
      var body := EncodeAll(items, ArrayStart(pos, elem), big);
      ArrayHeader(pos, elem, |body|, big) + body
    case Dict(key, val, entries) =>
      var body := EncodeEntries(entries, ArrayStart(pos, EntryType(key, val)), big);
      ArrayHeader(pos, EntryType(key, val), |body|, big) + body
    case _ => ToBytes(NumberBits(v), Alignment(Signature(v)), big)
  }

  function EncodeAll(vs: seq<Value>, pos: nat, big: bool): seq<byte>
    decreases vs, 0
  {
    if vs == [] then [] else
      var first := Encode(vs[0], pos, big);
      first + EncodeAll(vs[1..], pos + |first|, big)
  }

  function EncodeEntries(entries: seq<(Value, Value)>, pos: nat, big: bool): seq<byte>
    decreases entries, 0
  {
    if entries == [] then [] else
      var first := EncodeEntry(entries[0], pos, big);
      first + EncodeEntries(entries[1..], pos + |first|, big)
  }

  function EncodeEntry(entry: (Value, Value), pos: nat, big: bool): seq<byte>
    decreases entry, 0
  {
    var pad := PadLen(pos, 8);
    var key := Encode(entry.0, pos + pad, big);
    Zeros(pad) + key + Encode(entry.1, pos + pad + |key|, big)
  }

  /** The bytes of the character `s` starts with, or 0 when that is
      ill-formed (table 3-7 of the Unicode standard). */
  function CharWidth(s: Text): (n: nat)
    requires s != []
    ensures n <= |s|
  {
    var c := s[0];
    if c < 0x80 then 1
    else if c < 0xC2 then 0
    else if c <= 0xDF then (if |s| >= 2 && Tail(s[1]) then 2 else 0)
    else if c <= 0xEF then
      var low := if c == 0xE0 then 0xA0 else 0x80;
      var high := if c == 0xED then 0x9F else 0xBF;
      if |s| >= 3 && low <= s[1] <= high && Tail(s[2]) then 3 else 0
    else if c <= 0xF4 then
      var low := if c == 0xF0 then 0x90 else 0x80;
      var high := if c == 0xF4 then 0x8F else 0xBF;
      if |s| >= 4 && low <= s[1] <= high && Tail(s[2]) && Tail(s[3]) then 4 else 0
    else 0
  }

  /** `s` is well-formed UTF-8. */
  predicate ValidUtf8(s: Text) {
    s == [] || (CharWidth(s) > 0 && ValidUtf8(s[CharWidth(s)..]))
  }

  predicate Tail(b: byte) {
    0x80 <= b <= 0xBF
  }

  lemma {:induction false} AsciiIsUtf8(s: Text)
    requires forall i | 0 <= i < |s| :: s[i] < 0x80
    ensures ValidUtf8(s)
  {
    if s != [] {
      AsciiIsUtf8(s[1..]);
    }
  }

  /** The offset of the next value aligned to `n`. */
  function AlignPos(buf: seq<byte>, pos: nat, n: nat): (r: Result<nat, DecodeError>)
    requires IsAlignment(n)
    ensures r.Ok? ==> r.value == pos + PadLen(pos, n) <= |buf|
  {
    var pad := PadLen(pos, n);
    if pos + pad > |buf| then Err(TruncatedPadding) else Ok(pos + pad)
  }

  function Take(buf: seq<byte>, pos: nat, n: nat): (r: Result<(seq<byte>, nat), DecodeError>)
    ensures r.Ok? ==> r.value.1 == pos + n <= |buf| && |r.value.0| == n
  {
    if pos + n > |buf| then Err(TruncatedValue) else Ok((buf[pos..pos + n], pos + n))
  }

  function ReadInt(buf: seq<byte>, pos: nat, k: nat, big: bool): (r: Result<(nat, nat), DecodeError>)
    ensures r.Ok? ==> r.value.0 < Pow256(k) && r.value.1 == pos + k <= |buf|
  {
    var (s, p) :- Take(buf, pos, k);
    Ok((FromBytes(s, big), p))
  }

  function ReadText(buf: seq<byte>, pos: nat, n: nat): (r: Result<(Text, nat), DecodeError>)
    ensures r.Ok? ==> r.value.1 == pos + n + 1 <= |buf| && |r.value.0| == n && ValidUtf8(r.value.0)
  {
    var (s, p) :- Take(buf, pos, n);
    var (nul, q) :- Take(buf, p, 1);
    if nul != [0] then Err(NotNulTerminated)
    else if !ValidUtf8(s) then Err(InvalidUtf8)
    else Ok((s, q))
  }

  /** Reads a value of the complete type `sig` at `pos`, with the offset
      after it. */
  function ReadValue(buf: seq<byte>, pos: nat, big: bool, sig: Text, depth: nat)
    : (r: Result<(Value, nat), DecodeError>)
    requires Complete(sig, 0)
    ensures r.Ok? ==> pos < r.value.1 <= |buf|
    decreases Budget(depth), 2, 0
  {
    if depth > MAX_DEPTH then Err(ValueTooDeep) else
      var at :- AlignPos(buf, pos, Alignment(sig));
      if IsNumber(sig[0]) then ReadNumber(buf, at, big, sig[0])
      else if sig[0] == STRING || sig[0] == PATH || sig[0] == SIGNATURE then ReadString(buf, at, big, sig[0])
      else if sig[0] == VARIANT then ReadVariant(buf, at, big, depth)
      else if sig[0] == OPEN_STRUCT then ReadStruct(buf, at, big, sig, depth)
      else if sig[0] == ARRAY then ReadArray(buf, at, big, sig, depth)
      else Err(CannotReadType(sig[0]))
  }

  function ReadNumber(buf: seq<byte>, pos: nat, big: bool, c: byte): (r: Result<(Value, nat), DecodeError>)
    requires IsNumber(c)
    ensures r.Ok? ==> pos < r.value.1 <= |buf|
  {
    var (n, p) :- ReadInt(buf, pos, Alignment([c]), big);
    var v :- NumberFromBits(c, n);
    Ok((v, p))
  }

  function ReadString(buf: seq<byte>, pos: nat, big: bool, c: byte): (r: Result<(Value, nat), DecodeError>)
    requires c == STRING || c == PATH || c == SIGNATURE
    ensures r.Ok? ==> pos < r.value.1 <= |buf|
  {
    var (n, p) :- ReadInt(buf, pos, if c == SIGNATURE then 1 else 4, big);
    var (s, q) :- ReadText(buf, p, n);
    Ok((if c == STRING then Str(s) else if c == PATH then Path(s) else Sig(s), q))
  }

  function ReadVariant(buf: seq<byte>, pos: nat, big: bool, depth: nat): (r: Result<(Value, nat), DecodeError>)
    requires depth <= MAX_DEPTH
    ensures r.Ok? ==> pos < r.value.1 <= |buf|
    decreases Budget(depth), 0, 0
  {
    hide TypeLen, ReadInt, ReadText, SplitSignature, Complete;
    var (n, p) :- ReadInt(buf, pos, 1, big);
    var (sig, q) :- ReadText(buf, p, n);
    var types :- SplitSignature(sig);
    if |types| != 1 then Err(NotOneCompleteType) else
      OneType(sig);
      var (v, e) :- ReadValue(buf, q, big, sig, depth + 1);
      Ok((Variant(v), e))
  }

  /** A signature of one type is that type. */
  lemma OneType(sig: Text)
    requires SplitSignature(sig).Ok? && |SplitSignature(sig).value| == 1
    ensures Complete(sig, 0)
  {
    hide TypeLen;
    var types := SplitSignature(sig).value;
    assert types[1..] == [];
    assert Concat(types) == types[0];
  }

  function ReadStruct(buf: seq<byte>, pos: nat, big: bool, sig: Text, depth: nat)
    : (r: Result<(Value, nat), DecodeError>)
    requires Complete(sig, 0) && sig[0] == OPEN_STRUCT && depth <= MAX_DEPTH
    ensures r.Ok? ==> pos < r.value.1 <= |buf|
    decreases Budget(depth), 0, 0
  {
    var types :- SplitSignature(Inner(sig));
    var (fields, p) :- ReadFields(buf, pos, big, types, depth + 1);
    Ok((Struct(fields), p))
  }

  function ReadFields(buf: seq<byte>, pos: nat, big: bool, types: seq<Text>, depth: nat)
    : (r: Result<(seq<Value>, nat), DecodeError>)
    requires forall t :: t in types ==> Complete(t, 0)
    ensures r.Ok? ==> pos <= r.value.1
    ensures r.Ok? && types != [] ==> pos < r.value.1 <= |buf|
    decreases Budget(depth), 3, |types|
  {
    if types == [] then Ok(([], pos)) else
      var (v, p) :- ReadValue(buf, pos, big, types[0], depth);
      var (vs, q) :- ReadFields(buf, p, big, types[1..], depth);
      Ok(([v] + vs, q))
  }

  function ReadArray(buf: seq<byte>, pos: nat, big: bool, sig: Text, depth: nat)
    : (r: Result<(Value, nat), DecodeError>)
    requires Complete(sig, 0) && sig[0] == ARRAY && depth <= MAX_DEPTH
    ensures r.Ok? ==> pos < r.value.1 <= |buf|
    decreases Budget(depth), 0, 2
  {
    ElementComplete(sig);
    var (length, p) :- ReadInt(buf, pos, 4, big);
    var start :- AlignPos(buf, p, Alignment(sig[1..]));
    if start + length > |buf| then Err(ArrayOverrunsBuffer) else
      var v :- ReadElements(buf, start, start + length, big, sig[1..], depth);
      Ok((v, start + length))
  }

  /** The array of elements of type `elem` stored from `start` to `end`. */
  function ReadElements(buf: seq<byte>, start: nat, end: nat, big: bool, elem: Text, depth: nat)
    : (r: Result<Value, DecodeError>)
    requires Complete(elem, 0) && Complete(elem, 1) && depth <= MAX_DEPTH
    decreases Budget(depth), 0, 1
  {
    if elem[0] == OPEN_ENTRY then ReadDict(buf, start, end, big, elem, depth) else
      var items :- ReadItems(buf, start, end, big, elem, depth + 1);
      Ok(Array(elem, items))
  }

  function ReadDict(buf: seq<byte>, start: nat, end: nat, big: bool, elem: Text, depth: nat)
    : (r: Result<Value, DecodeError>)
    requires Complete(elem, 1) && elem[0] == OPEN_ENTRY && depth <= MAX_DEPTH
    decreases Budget(depth), 0, 0
  {
    EntryParts(elem);
    var k :- TypeLen(Inner(elem), depth);
    EntryHalves(elem, depth);
    var entries :- ReadEntries(buf, start, end, big, Inner(elem)[..k], Inner(elem)[k..], depth + 1);
    Ok(Dict(Inner(elem)[..k], Inner(elem)[k..], entries))
  }

  function ReadItems(buf: seq<byte>, pos: nat, end: nat, big: bool, elem: Text, depth: nat)
    : (r: Result<seq<Value>, DecodeError>)
    requires Complete(elem, 0)
    decreases Budget(depth), 3, end - pos
  {
    if pos > end then Err(ElementOverrunsArray)
    else if pos == end then Ok([])
    else
      var (v, p) :- ReadValue(buf, pos, big, elem, depth);
      var vs :- ReadItems(buf, p, end, big, elem, depth);
      Ok([v] + vs)
  }

  function ReadEntries(buf: seq<byte>, pos: nat, end: nat, big: bool, key: Text, val: Text, depth: nat)
    : (r: Result<seq<(Value, Value)>, DecodeError>)
    requires Complete(key, 0) && Complete(val, 0)
    decreases Budget(depth), 3, end - pos
  {
    if pos > end then Err(ElementOverrunsArray)
    else if pos == end then Ok([])
    else
      var at :- AlignPos(buf, pos, 8);
      var (k, p) :- ReadValue(buf, at, big, key, depth);
      var (v, q) :- ReadValue(buf, p, big, val, depth);
      var rest :- ReadEntries(buf, q, end, big, key, val, depth);
      Ok([(k, v)] + rest)
  }
}
