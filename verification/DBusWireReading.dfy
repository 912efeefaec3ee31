/** What the reader makes of bytes is exactly the value they stand for, with
    any bytes where padding is. */
module WireReading {
  import opened Wrappers
  import opened Bytes
  import opened Signatures
  import opened Values
  import opened CodecRoundTrip
  import opened CodecSoundness
  import opened WireFormat

  lemma Slice<T>(s: seq<T>, a: nat, b: nat, i: nat)
    requires a + i <= b <= |s|
    ensures s[a..b][..i] == s[a..a + i] && s[a..b][i..] == s[a + i..b]
  {
  }

  lemma Middle<T>(s: seq<T>, a: nat, b: nat, i: nat, j: nat)
    requires a + i <= a + j <= b <= |s|
    ensures s[a..b][i..j] == s[a + i..a + j]
  {
    Slice(s, a, b, j);
    Slice(s, a, a + j, i);
    assert s[a..b][i..j] == s[a..b][..j][i..];
  }

  // What stands for a value is read as it.

  lemma {:induction false} MarshalledIsRead(v: Value, buf: seq<byte>, pos: nat, end: nat, big: bool, depth: nat)
    requires WellFormed(v, depth) && pos <= end <= |buf| < LIMIT
    requires Marshals(v, buf[pos..end], pos, big, false)
    ensures ReadValue(buf, pos, big, Signature(v), depth) == Ok((v, end))
    decreases v, 2
  {
    hide WellFormed, TypeLen, ReadNumber, ReadString, ReadVariant, ReadStruct, ReadArray, PadLen, Content;
    hide Boundary, Signature, Gap;
    WellFormedTop(v, depth);
    BoundaryIsAlignment(v);
    GapIsPadding(buf[pos..end], pos, Boundary(v));
    var at := pos + PadLen(pos, Alignment(Signature(v)));
    Slice(buf, pos, end, at - pos);
    ContentIsRead(v, buf, at, end, big, depth);
  }

  /** The content of a value, read by its type. */
  function ReadContent(buf: seq<byte>, at: nat, big: bool, sig: Text, depth: nat): Result<(Value, nat), DecodeError>
    requires Complete(sig, 0) && depth <= MAX_DEPTH
  {
    if IsNumber(sig[0]) then ReadNumber(buf, at, big, sig[0])
    else if sig[0] == STRING || sig[0] == PATH || sig[0] == SIGNATURE then ReadString(buf, at, big, sig[0])
    else if sig[0] == VARIANT then ReadVariant(buf, at, big, depth)
    else if sig[0] == OPEN_STRUCT then ReadStruct(buf, at, big, sig, depth)
    else if sig[0] == ARRAY then ReadArray(buf, at, big, sig, depth)
    else Err(CannotReadType(sig[0]))
  }

  lemma {:induction false} ContentIsRead(v: Value, buf: seq<byte>, at: nat, end: nat, big: bool, depth: nat)
    requires WellFormed(v, depth) && depth <= MAX_DEPTH && Complete(Signature(v), 0) && at <= end <= |buf| < LIMIT
    requires Content(v, buf[at..end], at, big, false)
    ensures ReadContent(buf, at, big, Signature(v), depth) == Ok((v, end))
    decreases v, 1
  {
    hide WellFormed, TypeLen, ReadNumber, ReadString, ReadVariant, ReadStruct, ReadArray, Content;
    if NumberValue(v) {
      NumberIsRead(v, buf, at, end, big);
    } else if v.Str? || v.Path? || v.Sig? {
      StringIsRead(v, buf, at, end, big, depth);
    } else if v.Variant? {
      VariantIsRead(v, buf, at, end, big, depth);
    } else if v.Struct? {
      StructIsRead(v, buf, at, end, big, depth);
    } else if v.Array? {
      ArrayIsRead(v, buf, at, end, big, depth);
    } else {
      DictIsRead(v, buf, at, end, big, depth);
    }
  }

  lemma NumberContent(v: Value, b: seq<byte>, pos: nat, big: bool, clear: bool)
    requires NumberValue(v)
    ensures Content(v, b, pos, big, clear) <==> |b| == Alignment(Signature(v)) && FromBytes(b, big) == NumberBits(v)
  {
    hide Is2, Is4, Is8, FromBytes;
    Pow256Values();
    BytesAreDigits(b, NumberBits(v), big);
    if v.Byte? && |b| == 1 {
      OneByteRead(b, big);
    }
  }

  lemma OneByteRead(b: seq<byte>, big: bool)
    requires |b| == 1
    ensures FromBytes(b, big) == b[0]
  {
    assert Reverse(b) == b;
  }

  lemma NumberIsRead(v: Value, buf: seq<byte>, at: nat, end: nat, big: bool)
    requires NumberValue(v) && at <= end <= |buf| && Content(v, buf[at..end], at, big, false)
    ensures IsNumber(Signature(v)[0]) && ReadNumber(buf, at, big, Signature(v)[0]) == Ok((v, end))
  {
    hide NumberBits, NumberFromBits, FromBytes, Content;
    NumberRoundTrip(v);
    NumberContent(v, buf[at..end], at, big, false);
  }

  lemma StringIsRead(v: Value, buf: seq<byte>, at: nat, end: nat, big: bool, depth: nat)
    requires v.Str? || v.Path? || v.Sig?
    requires WellFormed(v, depth) && at <= end <= |buf| < LIMIT && Content(v, buf[at..end], at, big, false)
    ensures ReadString(buf, at, big, Signature(v)[0]) == Ok((v, end))
  {
    hide ValidUtf8, TypeLen, ReadText, ReadInt, IsText;
    if v.Sig? {
      SignatureRead(buf, at, end, v.g, big);
    } else {
      TextRead(buf, at, end, if v.Str? then v.s else v.p, big);
    }
  }

  lemma SignatureRead(buf: seq<byte>, at: nat, end: nat, t: Text, big: bool)
    requires at <= end <= |buf| && |t| < 256 && ValidUtf8(t) && buf[at..end] == [|t| % 256] + t + [0]
    ensures ReadInt(buf, at, 1, big) == Ok((|t|, at + 1)) && ReadText(buf, at + 1, |t|) == Ok((t, end))
  {
    hide ReadInt, ReadText, ValidUtf8, SignatureBytes;
    assert end == at + |t| + 2;
    assert At(buf, at, SignatureBytes(t)) by { SignatureBytesParts(t); }
    SignatureAt(buf, at, t, big);
  }

  lemma TextRead(buf: seq<byte>, at: nat, end: nat, t: Text, big: bool)
    requires at <= end <= |buf| < LIMIT && ValidUtf8(t) && IsText(buf[at..end], t, big)
    ensures ReadInt(buf, at, 4, big) == Ok((|t|, at + 4)) && ReadText(buf, at + 4, |t|) == Ok((t, end))
  {
    hide ReadText, ValidUtf8, FromBytes, Is4;
    LengthRead(buf, at, end, |t|, big);
    Slice(buf, at, end, 4);
    assert At(buf, at + 4, t + [0]);
    TextAt(buf, at + 4, t);
  }

  lemma LengthRead(buf: seq<byte>, at: nat, end: nat, n: nat, big: bool)
    requires at + 4 <= end <= |buf| && n < LIMIT && Is4(buf[at..end][..4], n % 0x1_0000_0000, big)
    ensures ReadInt(buf, at, 4, big) == Ok((n, at + 4))
  {
    hide FromBytes, Is4;
    Slice(buf, at, end, 4);
    BytesAreDigits(buf[at..end][..4], n, big);
  }

  lemma {:induction false} VariantIsRead(v: Value, buf: seq<byte>, at: nat, end: nat, big: bool, depth: nat)
    requires v.Variant? && WellFormed(v, depth) && depth <= MAX_DEPTH && at <= end <= |buf| < LIMIT
    requires Content(v, buf[at..end], at, big, false)
    ensures ReadVariant(buf, at, big, depth) == Ok((v, end))
    decreases v, 0
  {
    hide ValidUtf8, TypeLen, SplitSignature, ReadText, ReadInt, ReadValue, Marshals, Spelled, Signature, Complete;
    var inner := v.inner;
    var t := Signature(inner);
    SpelledIsSignature(inner);
    VariantParts(v, depth);
    var q := at + |t| + 2;
    Slice(buf, at, end, |t| + 2);
    CompleteIsUtf8(t, 0);
    SignatureRead(buf, at, q, t, big);
    SplitOne(t);
    MarshalledIsRead(inner, buf, q, end, big, depth + 1);
  }

  lemma VariantParts(v: Value, depth: nat)
    requires v.Variant? && WellFormed(v, depth)
    ensures Complete(Signature(v.inner), 0) && |Signature(v.inner)| < 256 && WellFormed(v.inner, depth + 1)
  {
    WellFormedTop(v.inner, depth + 1);
  }

  lemma {:induction false} StructIsRead(v: Value, buf: seq<byte>, at: nat, end: nat, big: bool, depth: nat)
    requires v.Struct? && WellFormed(v, depth) && depth <= MAX_DEPTH && Complete(Signature(v), 0) && at <= end <= |buf| < LIMIT
    requires Content(v, buf[at..end], at, big, false)
    ensures ReadStruct(buf, at, big, Signature(v), depth) == Ok((v, end))
    decreases v, 0
  {
    hide TypeLen, SplitSignature, ReadFields, MarshalsAll;
    var types := SignaturesOf(v.fields);
    assert Inner(Signature(v)) == Concat(types);
    TypesComplete(v.fields, depth + 1);
    SplitConcat(types);
    FieldsAreRead(v.fields, buf, at, end, big, depth + 1);
  }

  lemma {:induction false} FieldsAreRead(vs: seq<Value>, buf: seq<byte>, pos: nat, end: nat, big: bool, depth: nat)
    requires (forall v | v in vs :: WellFormed(v, depth)) && pos <= end <= |buf| < LIMIT
    requires MarshalsAll(vs, buf[pos..end], pos, big, false)
    requires forall t | t in SignaturesOf(vs) :: Complete(t, 0)
    ensures ReadFields(buf, pos, big, SignaturesOf(vs), depth) == Ok((vs, end))
    decreases vs, 0
  {
    hide TypeLen, ReadValue, WellFormed, Signature, ReadFields, Marshals;
    if vs == [] {
      NoFields(buf, pos, big, depth);
    } else {
      var b := buf[pos..end];
      var m: nat :| m <= |b| && Marshals(vs[0], b[..m], pos, big, false) && MarshalsAll(vs[1..], b[m..], pos + m, big, false);
      Slice(buf, pos, end, m);
      MarshalledIsRead(vs[0], buf, pos, pos + m, big, depth);
      assert SignaturesOf(vs)[0] == Signature(vs[0]) && SignaturesOf(vs)[1..] == SignaturesOf(vs[1..]);
      FieldsAreRead(vs[1..], buf, pos + m, end, big, depth);
      FirstField(vs, buf, pos, pos + m, end, big, SignaturesOf(vs), depth);
    }
  }

  /** The length of an array is read, and its elements' offset. */
  lemma HeaderRead(buf: seq<byte>, at: nat, end: nat, n: nat, elem: Text, k: nat, big: bool)
    requires at <= end <= |buf| < LIMIT && n == Alignment(elem) && IsHeader(buf[at..end], at, n, k, big, false)
    ensures 4 + k <= end - at && ReadInt(buf, at, 4, big) == Ok((end - at - 4 - k, at + 4))
    ensures AlignPos(buf, at + 4, Alignment(elem)) == Ok(at + 4 + k)
    ensures buf[at..end][4 + k..] == buf[at + 4 + k..end]
  {
    hide PadLen, Alignment, Is4, ReadInt;
    var b := buf[at..end];
    GapIsPadding(b[4..], at + 4, n);
    LengthRead(buf, at, end, |b| - 4 - k, big);
  }

  lemma ArrayHas(elem: Text, items: seq<Value>, b: seq<byte>, pos: nat, big: bool) returns (k: nat)
    requires Content(Array(elem, items), b, pos, big, false)
    ensures 4 + k <= |b| && BoundaryOf(elem) > 0 && IsHeader(b, pos, BoundaryOf(elem), k, big, false)
    ensures MarshalsAll(items, b[4 + k..], pos + 4 + k, big, false)
  {
    hide MarshalsAll, Is4, Gap;
    k :| IsHeader(b, pos, BoundaryOf(elem), k, big, false) && MarshalsAll(items, b[4 + k..], pos + 4 + k, big, false);
  }

  lemma DictHas(key: Text, val: Text, entries: seq<(Value, Value)>, b: seq<byte>, pos: nat, big: bool) returns (k: nat)
    requires Content(Dict(key, val, entries), b, pos, big, false)
    ensures 4 + k <= |b| && IsHeader(b, pos, 8, k, big, false)
    ensures MarshalsEntries(entries, b[4 + k..], pos + 4 + k, big, false)
  {
    hide MarshalsEntries, Is4, Gap;
    k :| IsHeader(b, pos, 8, k, big, false) && MarshalsEntries(entries, b[4 + k..], pos + 4 + k, big, false);
  }

  lemma {:induction false} ArrayIsRead(v: Value, buf: seq<byte>, at: nat, end: nat, big: bool, depth: nat)
    requires v.Array? && WellFormed(v, depth) && depth <= MAX_DEPTH && Complete(Signature(v), 0) && at <= end <= |buf| < LIMIT
    requires Content(v, buf[at..end], at, big, false)
    ensures ReadArray(buf, at, big, Signature(v), depth) == Ok((v, end))
    decreases v, 0
  {
    hide TypeLen, ReadItems, ReadDict, MarshalsAll, IsHeader, ReadInt, AlignPos, BoundaryOf, Alignment;
    var b := buf[at..end];
    var k := ArrayHas(v.elem, v.items, b, at, big);
    assert Signature(v)[1..] == v.elem;
    ElementComplete(Signature(v));
    BoundaryOfIsAlignment(v.elem);
    HeaderRead(buf, at, end, BoundaryOf(v.elem), v.elem, k, big);
    ItemsAreRead(v.items, buf, at + 4 + k, end, big, v.elem, depth + 1);
  }

  lemma {:induction false} ItemsAreRead(vs: seq<Value>, buf: seq<byte>, pos: nat, end: nat, big: bool, elem: Text, depth: nat)
    requires Complete(elem, 0) && pos <= end <= |buf| < LIMIT
    requires forall v | v in vs :: Signature(v) == elem && WellFormed(v, depth)
    requires MarshalsAll(vs, buf[pos..end], pos, big, false)
    ensures ReadItems(buf, pos, end, big, elem, depth) == Ok(vs)
    decreases vs, 0
  {
    hide TypeLen, ReadValue, WellFormed, Signature, Marshals;
    if vs != [] {
      var b := buf[pos..end];
      var m: nat :| m <= |b| && Marshals(vs[0], b[..m], pos, big, false) && MarshalsAll(vs[1..], b[m..], pos + m, big, false);
      Slice(buf, pos, end, m);
      MarshalledIsRead(vs[0], buf, pos, pos + m, big, depth);
      assert vs == [vs[0]] + vs[1..];
      ItemsAreRead(vs[1..], buf, pos + m, end, big, elem, depth);
    }
  }

  lemma {:induction false} DictIsRead(v: Value, buf: seq<byte>, at: nat, end: nat, big: bool, depth: nat)
    requires v.Dict? && WellFormed(v, depth) && depth <= MAX_DEPTH && Complete(Signature(v), 0) && at <= end <= |buf| < LIMIT
    requires Content(v, buf[at..end], at, big, false)
    ensures ReadArray(buf, at, big, Signature(v), depth) == Ok((v, end))
    decreases v, 0
  {
    hide TypeLen, ReadItems, ReadEntries, MarshalsEntries, IsHeader, ReadInt, AlignPos, Alignment;
    var elem := EntryType(v.key, v.val);
    var b := buf[at..end];
    var k := DictHas(v.key, v.val, v.entries, b, at, big);
    assert Signature(v)[1..] == elem;
    ElementComplete(Signature(v));
    BoundaryOfEntry(v.key, v.val);
    HeaderRead(buf, at, end, 8, elem, k, big);
    DictHalves(v.key, v.val, depth);
    EntriesAreRead(v.entries, buf, at + 4 + k, end, big, v.key, v.val, depth + 1);
    assert ReadDict(buf, at + 4 + k, end, big, elem, depth) == Ok(v);
    assert ReadElements(buf, at + 4 + k, end, big, elem, depth) == Ok(v);
  }

  lemma {:induction false} EntriesAreRead(
    es: seq<(Value, Value)>, buf: seq<byte>, pos: nat, end: nat, big: bool, key: Text, val: Text, depth: nat)
    requires Complete(key, 0) && Complete(val, 0) && pos <= end <= |buf| < LIMIT
    requires forall e | e in es :: EntryFits(e, key, val) && WellFormed(e.0, depth) && WellFormed(e.1, depth)
    requires MarshalsEntries(es, buf[pos..end], pos, big, false)
    ensures ReadEntries(buf, pos, end, big, key, val, depth) == Ok(es)
    decreases es, 0
  {
    hide TypeLen, ReadValue, WellFormed, Signature, MarshalsEntry, ReadEntries;
    if es == [] {
      NoEntries(buf, pos, big, key, val, depth);
    } else {
      var b := buf[pos..end];
      var m: nat :| m <= |b| && MarshalsEntry(es[0], b[..m], pos, big, false)
                    && MarshalsEntries(es[1..], b[m..], pos + m, big, false);
      Slice(buf, pos, end, m);
      var at, mid := EntryIsRead(es[0], buf, pos, pos + m, big, depth);
      EntriesAreRead(es[1..], buf, pos + m, end, big, key, val, depth);
      FirstEntry(es, buf, pos, end, big, key, val, depth, at, mid, pos + m);
    }
  }

  lemma {:induction false} EntryIsRead(e: (Value, Value), buf: seq<byte>, pos: nat, end: nat, big: bool, depth: nat)
    returns (at: nat, mid: nat)
    requires WellFormed(e.0, depth) && WellFormed(e.1, depth) && pos <= end <= |buf| < LIMIT
    requires Complete(Signature(e.0), 0) && Complete(Signature(e.1), 0)
    requires MarshalsEntry(e, buf[pos..end], pos, big, false)
    ensures AlignPos(buf, pos, 8) == Ok(at)
    ensures ReadValue(buf, at, big, Signature(e.0), depth) == Ok((e.0, mid))
    ensures ReadValue(buf, mid, big, Signature(e.1), depth) == Ok((e.1, end))
    ensures pos < end
    decreases e, 0
  {
    hide TypeLen, ReadValue, WellFormed, Marshals, PadLen, Gap, Complete;
    var b := buf[pos..end];
    var k: nat, m: nat :| Gap(b, pos, 8, k, false) && k <= m <= |b| && Marshals(e.0, b[k..m], pos + k, big, false)
                          && Marshals(e.1, b[m..], pos + m, big, false);
    GapIsPadding(b, pos, 8);
    Middle(buf, pos, end, k, m);
    Slice(buf, pos, end, m);
    at, mid := pos + k, pos + m;
    MarshalledIsRead(e.0, buf, at, mid, big, depth);
    MarshalledIsRead(e.1, buf, mid, end, big, depth);
  }

  // What is read stands for the value.

  /** `buf` from `pos` to `end` stands for `v`. */
  ghost predicate Holds(buf: seq<byte>, pos: nat, end: nat, v: Value, big: bool) {
    pos <= end <= |buf| && Marshals(v, buf[pos..end], pos, big, false)
  }

  ghost predicate HoldsContent(buf: seq<byte>, pos: nat, end: nat, v: Value, big: bool) {
    pos <= end <= |buf| && Content(v, buf[pos..end], pos, big, false)
  }

  lemma {:induction false} ReadIsMarshalled(buf: seq<byte>, pos: nat, big: bool, sig: Text, depth: nat)
    requires Complete(sig, 0) && |buf| < LIMIT && ReadValue(buf, pos, big, sig, depth).Ok?
    ensures var (v, end) := ReadValue(buf, pos, big, sig, depth).value;
            Holds(buf, pos, end, v, big)
    decreases Budget(depth), 2, 0
  {
    hide TypeLen, Sound, PadLen, Signature, Alignment, HoldsContent, Holds;
    hide ReadNumber, ReadString, ReadVariant, ReadStruct, ReadArray;
    var at := pos + PadLen(pos, Alignment(sig));
    var (v, end) := ReadValue(buf, pos, big, sig, depth).value;
    ContentIsHeld(buf, at, big, sig, depth);
    TypeRead(buf, pos, big, sig, depth);
    AfterGap(buf, pos, at, end, v, big);
  }

  lemma TypeRead(buf: seq<byte>, pos: nat, big: bool, sig: Text, depth: nat)
    requires Complete(sig, 0) && ReadValue(buf, pos, big, sig, depth).Ok?
    ensures Signature(ReadValue(buf, pos, big, sig, depth).value.0) == sig
  {
    hide TypeLen, ReadValue, Encode, WellFormed;
    ReadIsSound(buf, pos, big, sig, depth);
  }

  lemma AfterGap(buf: seq<byte>, pos: nat, at: nat, end: nat, v: Value, big: bool)
    requires at == pos + PadLen(pos, Alignment(Signature(v))) && HoldsContent(buf, at, end, v, big)
    ensures Holds(buf, pos, end, v, big)
  {
    hide Content, Boundary, PadLen, Signature, Gap;
    BoundaryIsAlignment(v);
    GapIsPadding(buf[pos..end], pos, Boundary(v));
    Slice(buf, pos, end, at - pos);
  }

  lemma {:induction false} ContentIsHeld(buf: seq<byte>, at: nat, big: bool, sig: Text, depth: nat)
    requires Complete(sig, 0) && at <= |buf| < LIMIT && depth <= MAX_DEPTH && ReadContent(buf, at, big, sig, depth).Ok?
    ensures var (v, end) := ReadContent(buf, at, big, sig, depth).value;
            HoldsContent(buf, at, end, v, big)
    decreases Budget(depth), 1, 0
  {
    hide TypeLen, ReadNumber, ReadString, ReadVariant, ReadStruct, ReadArray, HoldsContent;
    if IsNumber(sig[0]) {
      NumberIsHeld(buf, at, big, sig[0]);
    } else if sig[0] == STRING || sig[0] == PATH || sig[0] == SIGNATURE {
      StringIsHeld(buf, at, big, sig[0]);
    } else if sig[0] == VARIANT {
      VariantIsHeld(buf, at, big, depth);
    } else if sig[0] == OPEN_STRUCT {
      StructIsHeld(buf, at, big, sig, depth);
    } else if sig[0] == ARRAY {
      ArrayIsHeld(buf, at, big, sig, depth);
    }
  }

  lemma NumberIsHeld(buf: seq<byte>, at: nat, big: bool, c: byte)
    requires IsNumber(c) && ReadNumber(buf, at, big, c).Ok?
    ensures var (v, end) := ReadNumber(buf, at, big, c).value;
            HoldsContent(buf, at, end, v, big)
  {
    hide FromBytes, Content, NumberBits, NumberFromBits;
    var (n, end) := ReadInt(buf, at, Alignment([c]), big).value;
    BitsRead(c, n);
    NumberContent(NumberFromBits(c, n).value, buf[at..end], at, big, false);
  }

  lemma BitsRead(c: byte, n: nat)
    requires IsNumber(c) && n < Pow256(Alignment([c])) && NumberFromBits(c, n).Ok?
    ensures NumberBits(NumberFromBits(c, n).value) == n
  {
    Pow256Values();
  }

  lemma StringIsHeld(buf: seq<byte>, at: nat, big: bool, c: byte)
    requires c == STRING || c == PATH || c == SIGNATURE
    requires ReadString(buf, at, big, c).Ok? && |buf| < LIMIT
    ensures var (v, end) := ReadString(buf, at, big, c).value;
            HoldsContent(buf, at, end, v, big)
  {
    hide ReadInt, ReadText, IsText;
    var (n, p) := ReadInt(buf, at, if c == SIGNATURE then 1 else 4, big).value;
    var (t, end) := ReadText(buf, p, n).value;
    if c == SIGNATURE {
      SignatureIsHeld(buf, at, n, t, end, big);
    } else {
      TextIsHeld(buf, at, n, t, end, big);
    }
  }

  lemma SignatureIsHeld(buf: seq<byte>, at: nat, n: nat, t: Text, end: nat, big: bool)
    requires ReadInt(buf, at, 1, big) == Ok((n, at + 1)) && ReadText(buf, at + 1, n) == Ok((t, end))
    ensures at <= end <= |buf| && |t| == n < 256 && buf[at..end] == [n] + t + [0]
  {
    hide ValidUtf8, FromBytes;
    OneByteRead(buf[at..at + 1], big);
  }

  lemma TextIsHeld(buf: seq<byte>, at: nat, n: nat, t: Text, end: nat, big: bool)
    requires ReadInt(buf, at, 4, big) == Ok((n, at + 4)) && ReadText(buf, at + 4, n) == Ok((t, end)) && |buf| < LIMIT
    ensures at <= end <= |buf| && IsText(buf[at..end], t, big)
  {
    hide ValidUtf8, FromBytes, Is4;
    var b := buf[at..end];
    Slice(buf, at, end, 4);
    assert buf[at + 4..end] == t + [0];
    Slice(buf, at, end, 4);
    BytesAreDigits(b[..4], n, big);
  }

  lemma {:induction false} VariantIsHeld(buf: seq<byte>, at: nat, big: bool, depth: nat)
    requires depth <= MAX_DEPTH && |buf| < LIMIT && ReadVariant(buf, at, big, depth).Ok?
    ensures var (v, end) := ReadVariant(buf, at, big, depth).value;
            HoldsContent(buf, at, end, v, big)
    decreases Budget(depth), 0, 0
  {
    hide TypeLen, ReadValue, SplitSignature, Complete, Marshals, Spelled, Signature, ReadInt, ReadText;
    var (n, p) := ReadInt(buf, at, 1, big).value;
    var (t, q) := ReadText(buf, p, n).value;
    OneType(t);
    var (v, end) := ReadValue(buf, q, big, t, depth + 1).value;
    ReadIsMarshalled(buf, q, big, t, depth + 1);
    ReadIsSound(buf, q, big, t, depth + 1);
    SpelledIsSignature(v);
    SignatureIsHeld(buf, at, n, t, q, big);
    Slice(buf, at, end, |t| + 2);
  }

  lemma {:induction false} StructIsHeld(buf: seq<byte>, at: nat, big: bool, sig: Text, depth: nat)
    requires Complete(sig, 0) && sig[0] == OPEN_STRUCT && depth <= MAX_DEPTH && |buf| < LIMIT
    requires ReadStruct(buf, at, big, sig, depth).Ok? && at <= |buf|
    ensures var (v, end) := ReadStruct(buf, at, big, sig, depth).value;
            HoldsContent(buf, at, end, v, big)
    decreases Budget(depth), 0, 0
  {
    hide TypeLen, ReadFields, SplitSignature, MarshalsAll;
    StructParts(sig);
    FieldsAreHeld(buf, at, big, SplitSignature(Inner(sig)).value, depth + 1);
  }

  lemma {:induction false} FieldsAreHeld(buf: seq<byte>, pos: nat, big: bool, types: seq<Text>, depth: nat)
    requires (forall t :: t in types ==> Complete(t, 0)) && |buf| < LIMIT && pos <= |buf|
    requires ReadFields(buf, pos, big, types, depth).Ok?
    ensures var (vs, end) := ReadFields(buf, pos, big, types, depth).value;
            pos <= end <= |buf| && MarshalsAll(vs, buf[pos..end], pos, big, false)
    decreases Budget(depth), 3, |types|
  {
    hide TypeLen, ReadValue, Marshals;
    if types != [] {
      var (v, p) := ReadValue(buf, pos, big, types[0], depth).value;
      var (vs, end) := ReadFields(buf, p, big, types[1..], depth).value;
      ReadIsMarshalled(buf, pos, big, types[0], depth);
      FieldsAreHeld(buf, p, big, types[1..], depth);
      FirstHeld(v, vs, buf, pos, p, end, big);
    }
  }

  lemma FirstHeld(v: Value, vs: seq<Value>, buf: seq<byte>, pos: nat, mid: nat, end: nat, big: bool)
    requires pos <= mid <= end <= |buf| && Marshals(v, buf[pos..mid], pos, big, false)
    requires MarshalsAll(vs, buf[mid..end], mid, big, false)
    ensures MarshalsAll([v] + vs, buf[pos..end], pos, big, false)
  {
    hide Marshals;
    var b, m := buf[pos..end], mid - pos;
    Slice(buf, pos, end, m);
    assert ([v] + vs)[1..] == vs && ([v] + vs)[0] == v;
  }

  lemma {:induction false} ArrayIsHeld(buf: seq<byte>, at: nat, big: bool, sig: Text, depth: nat)
    requires Complete(sig, 0) && sig[0] == ARRAY && depth <= MAX_DEPTH && |buf| < LIMIT
    requires ReadArray(buf, at, big, sig, depth).Ok?
    ensures var (v, end) := ReadArray(buf, at, big, sig, depth).value;
            HoldsContent(buf, at, end, v, big)
    decreases Budget(depth), 0, 2
  {
    hide TypeLen, ReadItems, ReadDict, Alignment, BoundaryOf, MarshalsAll, MarshalsEntries, Is4, PadLen, FromBytes;
    ElementComplete(sig);
    var elem := sig[1..];
    var (length, p) := ReadInt(buf, at, 4, big).value;
    var start := AlignPos(buf, p, Alignment(elem)).value;
    var end := start + length;
    HeaderIsHeld(buf, at, start, end, elem, big);
    if elem[0] == OPEN_ENTRY {
      DictIsHeld(buf, at, start, end, big, elem, depth);
    } else {
      ItemsAreHeld(buf, start, end, big, elem, depth + 1);
      BoundaryOfIsAlignment(elem);
      Slice(buf, at, end, start - at);
    }
  }

  lemma HeaderIsHeld(buf: seq<byte>, at: nat, start: nat, end: nat, elem: Text, big: bool)
    requires AlignPos(buf, at + 4, Alignment(elem)) == Ok(start) && start <= end <= |buf| < LIMIT
    requires ReadInt(buf, at, 4, big) == Ok((end - start, at + 4))
    ensures IsHeader(buf[at..end], at, Alignment(elem), start - at - 4, big, false)
  {
    hide Alignment, PadLen, Is4, FromBytes;
    var b := buf[at..end];
    GapIsPadding(b[4..], at + 4, Alignment(elem));
    Slice(buf, at, end, 4);
    BytesAreDigits(b[..4], end - start, big);
  }

  lemma {:induction false} ItemsAreHeld(buf: seq<byte>, pos: nat, end: nat, big: bool, elem: Text, depth: nat)
    requires Complete(elem, 0) && pos <= end <= |buf| < LIMIT
    requires ReadItems(buf, pos, end, big, elem, depth).Ok?
    ensures MarshalsAll(ReadItems(buf, pos, end, big, elem, depth).value, buf[pos..end], pos, big, false)
    decreases Budget(depth), 3, end - pos
  {
    hide TypeLen, ReadValue, Marshals;
    if pos < end {
      var (v, p) := ReadValue(buf, pos, big, elem, depth).value;
      var vs := ReadItems(buf, p, end, big, elem, depth).value;
      ReadIsMarshalled(buf, pos, big, elem, depth);
      ItemsAreHeld(buf, p, end, big, elem, depth);
      FirstHeld(v, vs, buf, pos, p, end, big);
    }
  }

  lemma {:induction false} DictIsHeld(buf: seq<byte>, at: nat, start: nat, end: nat, big: bool, elem: Text, depth: nat)
    requires Complete(elem, 1) && elem[0] == OPEN_ENTRY && depth <= MAX_DEPTH && |buf| < LIMIT
    requires at + 4 <= start <= end <= |buf| && ReadDict(buf, start, end, big, elem, depth).Ok?
    requires IsHeader(buf[at..end], at, Alignment(elem), start - at - 4, big, false)
    ensures HoldsContent(buf, at, end, ReadDict(buf, start, end, big, elem, depth).value, big)
    decreases Budget(depth), 0, 0
  {
    hide TypeLen, ReadEntries, MarshalsEntries, IsHeader;
    EntryParts(elem);
    var k := TypeLen(Inner(elem), depth).value;
    EntryHalves(elem, depth);
    EntriesAreHeld(buf, start, end, big, Inner(elem)[..k], Inner(elem)[k..], depth + 1);
    Slice(buf, at, end, start - at);
  }

  lemma {:induction false} EntriesAreHeld(
    buf: seq<byte>, pos: nat, end: nat, big: bool, key: Text, val: Text, depth: nat)
    requires Complete(key, 0) && Complete(val, 0) && pos <= end <= |buf| < LIMIT
    requires ReadEntries(buf, pos, end, big, key, val, depth).Ok?
    ensures MarshalsEntries(ReadEntries(buf, pos, end, big, key, val, depth).value, buf[pos..end], pos, big, false)
    decreases Budget(depth), 3, end - pos
  {
    hide TypeLen, ReadValue, Marshals, PadLen, MarshalsEntry;
    if pos < end {
      var at := AlignPos(buf, pos, 8).value;
      var (k, p) := ReadValue(buf, at, big, key, depth).value;
      var (v, q) := ReadValue(buf, p, big, val, depth).value;
      var es := ReadEntries(buf, q, end, big, key, val, depth).value;
      ReadIsMarshalled(buf, at, big, key, depth);
      ReadIsMarshalled(buf, p, big, val, depth);
      EntriesAreHeld(buf, q, end, big, key, val, depth);
      EntryIsHeld(k, v, buf, pos, at, p, q, big);
      var b, m := buf[pos..end], q - pos;
      Slice(buf, pos, end, m);
      assert ([(k, v)] + es)[1..] == es && ([(k, v)] + es)[0] == (k, v);
    }
  }

  lemma EntryIsHeld(k: Value, v: Value, buf: seq<byte>, pos: nat, at: nat, mid: nat, end: nat, big: bool)
    requires AlignPos(buf, pos, 8) == Ok(at) && Holds(buf, at, mid, k, big) && Holds(buf, mid, end, v, big)
    ensures MarshalsEntry((k, v), buf[pos..end], pos, big, false)
  {
    hide Marshals, PadLen;
    var b := buf[pos..end];
    GapIsPadding(b, pos, 8);
    Middle(buf, pos, end, at - pos, mid - pos);
    Slice(buf, pos, end, mid - pos);
  }

  /** A type is read at an offset as a value that ends there if and only if the
      value is well formed, of that type, and the bytes between stand for it. */
  lemma ReadsExactly(buf: seq<byte>, pos: nat, big: bool, sig: Text, depth: nat, v: Value, end: nat)
    requires Complete(sig, 0) && |buf| < LIMIT
    ensures ReadValue(buf, pos, big, sig, depth) == Ok((v, end)) <==>
            pos <= end <= |buf| && Spelled(v) == sig && WellFormed(v, depth) && Marshals(v, buf[pos..end], pos, big, false)
  {
    hide ReadValue, WellFormed, Marshals, TypeLen, Spelled, Signature;
    SpelledIsSignature(v);
    if ReadValue(buf, pos, big, sig, depth) == Ok((v, end)) {
      ReadIsMarshalled(buf, pos, big, sig, depth);
      ReadIsSound(buf, pos, big, sig, depth);
    } else if pos <= end <= |buf| && Spelled(v) == sig && WellFormed(v, depth) && Marshals(v, buf[pos..end], pos, big, false) {
      MarshalledIsRead(v, buf, pos, end, big, depth);
    }
  }
}
