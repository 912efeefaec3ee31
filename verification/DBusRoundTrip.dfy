/** Decoding undoes encoding, at any offset and in either byte order, for
    exactly the values a decoder can produce. */
module CodecRoundTrip {
  import opened Wrappers
  import opened Bytes
  import opened Signatures
  import opened Values

  const LIMIT: nat := 0x1_0000_0000

  /** `v` is well formed at nesting depth `depth`: every type it names is
      complete, elements have the types their container declares, strings are
      UTF-8, embedded signatures fit in a byte of length, and it nests within
      the limit. */
  ghost predicate WellFormed(v: Value, depth: nat)
    decreases v
  {
    && depth <= MAX_DEPTH
    && Complete(Signature(v), 0)
    && match v
       case Str(s) => ValidUtf8(s)
       case Path(s) => ValidUtf8(s)
       case Sig(s) => ValidUtf8(s) && |s| < 256
       case Variant(inner) => |Signature(inner)| < 256 && WellFormed(inner, depth + 1)
       case Struct(fields) => forall f | f in fields :: WellFormed(f, depth + 1)
       case Array(elem, items) =>
         && elem != [] && elem[0] != OPEN_ENTRY
         && (forall i | i in items :: Signature(i) == elem && WellFormed(i, depth + 1))
       case Dict(key, val, entries) =>
         && Complete(key, depth)
         && (forall e | e in entries :: EntryFits(e, key, val) && WellFormed(e.0, depth + 1) && WellFormed(e.1, depth + 1))
       case _ => true
  }

  ghost predicate EntryFits(e: (Value, Value), key: Text, val: Text) {
    Signature(e.0) == key && Signature(e.1) == val
  }

  /** `buf` holds `s` at `pos`. */
  ghost predicate At(buf: seq<byte>, pos: nat, s: seq<byte>) {
    pos + |s| <= |buf| && buf[pos..pos + |s|] == s
  }

  lemma AtSplit(buf: seq<byte>, pos: nat, a: seq<byte>, b: seq<byte>)
    requires At(buf, pos, a + b)
    ensures At(buf, pos, a) && At(buf, pos + |a|, b)
  {
    var s := buf[pos..pos + |a + b|];
    assert s[..|a|] == a && s[|a|..] == b;
  }

  lemma TakeAt(buf: seq<byte>, pos: nat, s: seq<byte>)
    requires At(buf, pos, s)
    ensures Take(buf, pos, |s|) == Ok((s, pos + |s|))
  {
  }

  lemma AlignAt(buf: seq<byte>, pos: nat, n: nat)
    requires IsAlignment(n) && At(buf, pos, Zeros(PadLen(pos, n)))
    ensures AlignPos(buf, pos, n) == Ok(pos + PadLen(pos, n))
  {
  }

  lemma IntAt(buf: seq<byte>, pos: nat, n: nat, k: nat, big: bool)
    requires n < Pow256(k) && At(buf, pos, ToBytes(n, k, big))
    ensures ReadInt(buf, pos, k, big) == Ok((n, pos + k))
  {
    hide At, Take, ToBytes, FromBytes;
    TakeAt(buf, pos, ToBytes(n, k, big));
    IntegerRoundTrip(n, k, big);
  }

  lemma LengthAt(buf: seq<byte>, pos: nat, n: nat, big: bool)
    requires n < LIMIT && At(buf, pos, Word(n, big))
    ensures ReadInt(buf, pos, 4, big) == Ok((n, pos + 4))
  {
    hide At, ToBytes, ReadInt;
    Pow256Values();
    IntAt(buf, pos, n, 4, big);
  }

  lemma ByteAt(buf: seq<byte>, pos: nat, n: byte, big: bool)
    requires At(buf, pos, [n])
    ensures ReadInt(buf, pos, 1, big) == Ok((n, pos + 1))
  {
    hide At;
    Pow256Values();
    assert LittleEndian(n, 1) == [n];
    assert ToBytes(n, 1, big) == [n];
    IntAt(buf, pos, n, 1, big);
  }

  lemma TextAt(buf: seq<byte>, pos: nat, s: Text)
    requires ValidUtf8(s) && At(buf, pos, s + [0])
    ensures ReadText(buf, pos, |s|) == Ok((s, pos + |s| + 1))
  {
    hide At, ValidUtf8, Take;
    AtSplit(buf, pos, s, [0]);
    TakeAt(buf, pos, s);
    TakeAt(buf, pos + |s|, [0]);
  }

  lemma SignatureBytesParts(s: Text)
    requires |s| < 256
    ensures SignatureBytes(s) == [|s|] + (s + [0])
  {
  }

  lemma SignatureAt(buf: seq<byte>, pos: nat, s: Text, big: bool)
    requires ValidUtf8(s) && |s| < 256 && At(buf, pos, SignatureBytes(s))
    ensures ReadInt(buf, pos, 1, big) == Ok((|s|, pos + 1))
    ensures ReadText(buf, pos + 1, |s|) == Ok((s, pos + |s| + 2))
  {
    hide At, ValidUtf8, ReadText, ReadInt, SignatureBytes;
    SignatureBytesParts(s);
    AtSplit(buf, pos, [|s|], s + [0]);
    ByteAt(buf, pos, |s|, big);
    TextAt(buf, pos + 1, s);
  }

  /** Signature characters are ASCII. */
  lemma {:induction false} TypeIsAscii(s: Text, depth: nat)
    requires TypeLen(s, depth).Ok?
    ensures forall i | 0 <= i < TypeLen(s, depth).value :: s[i] < 0x80
    decreases Budget(depth), 1, 0
  {
    if s[0] == ARRAY {
      TypeIsAscii(s[1..], depth + 1);
      assert forall i | 1 <= i < TypeLen(s, depth).value :: s[i] == s[1..][i - 1];
    } else if s[0] == OPEN_STRUCT {
      FieldsAreAscii(s[1..], depth + 1);
      assert forall i | 1 <= i < TypeLen(s, depth).value :: s[i] == s[1..][i - 1];
    } else if s[0] == OPEN_ENTRY {
      EntryIsAscii(s, depth);
    }
  }

  lemma {:induction false} EntryIsAscii(s: Text, depth: nat)
    requires s != [] && depth <= MAX_DEPTH && EntryLen(s, depth).Ok? && s[0] == OPEN_ENTRY
    ensures forall i | 0 <= i < EntryLen(s, depth).value :: s[i] < 0x80
    decreases Budget(depth), 0, 0
  {
    hide TypeLen;
    var k := TypeLen(s[1..], depth + 1).value;
    var v := TypeLen(s[1 + k..], depth + 1).value;
    TypeIsAscii(s[1..], depth + 1);
    TypeIsAscii(s[1 + k..], depth + 1);
    assert forall i | 1 <= i < 1 + k :: s[i] == s[1..][i - 1];
    assert forall i | 1 + k <= i < 1 + k + v :: s[i] == s[1 + k..][i - 1 - k];
  }

  lemma {:induction false} FieldsAreAscii(s: Text, depth: nat)
    requires FieldsLen(s, depth).Ok?
    ensures forall i | 0 <= i < FieldsLen(s, depth).value + 1 :: s[i] < 0x80
    decreases Budget(depth), 2, |s|
  {
    if s[0] != CLOSE_STRUCT {
      var n := TypeLen(s, depth).value;
      TypeIsAscii(s, depth);
      FieldsAreAscii(s[n..], depth);
      assert forall i | n <= i < FieldsLen(s, depth).value + 1 :: s[i] == s[n..][i - n];
    }
  }

  lemma CompleteIsUtf8(s: Text, depth: nat)
    requires Complete(s, depth)
    ensures ValidUtf8(s)
  {
    TypeIsAscii(s, depth);
    AsciiIsUtf8(s);
  }

  /** A single type splits into itself. */
  lemma SplitOne(t: Text)
    requires Complete(t, 0)
    ensures SplitSignature(t) == Ok([t])
  {
    hide *;
    SplitConcat([t]);
    ConcatOne(t);
  }

  lemma ConcatOne(t: Text)
    ensures Concat([t]) == t
  {
    assert [t][1..] == [];
  }

  /** A value written at `pos` is read back, wherever `pos` is and whatever
      surrounds it. */
  lemma {:induction false} ValueRoundTrip(v: Value, buf: seq<byte>, pos: nat, big: bool, depth: nat)
    requires WellFormed(v, depth)
    requires At(buf, pos, Encode(v, pos, big)) && |Encode(v, pos, big)| < LIMIT
    ensures ReadValue(buf, pos, big, Signature(v), depth) == Ok((v, pos + |Encode(v, pos, big)|))
    decreases v, 1
  {
    hide At, WellFormed, TypeLen, ReadNumber, ReadString, ReadVariant, ReadStruct, ReadArray, PadLen, Payload;
    WellFormedTop(v, depth);
    var n := Alignment(Signature(v));
    var at := pos + PadLen(pos, n);
    AtSplit(buf, pos, Zeros(PadLen(pos, n)), Payload(v, at, big));
    AlignAt(buf, pos, n);
    if NumberValue(v) {
      NumberAt(v, buf, at, big);
    } else if v.Str? || v.Path? || v.Sig? {
      StringRoundTrip(v, buf, at, big, depth);
    } else if v.Variant? {
      VariantRoundTrip(v, buf, at, big, depth);
    } else if v.Struct? {
      StructRoundTrip(v, buf, at, big, depth);
    } else if v.Array? {
      ArrayRoundTrip(v, buf, at, big, depth);
    } else {
      DictRoundTrip(v, buf, at, big, depth);
    }
  }

  lemma WellFormedTop(v: Value, depth: nat)
    requires WellFormed(v, depth)
    ensures depth <= MAX_DEPTH && Complete(Signature(v), 0)
  {
  }

  lemma NumberAt(v: Value, buf: seq<byte>, pos: nat, big: bool)
    requires NumberValue(v)
    requires At(buf, pos, Payload(v, pos, big))
    ensures IsNumber(Signature(v)[0])
    ensures ReadNumber(buf, pos, big, Signature(v)[0]) == Ok((v, pos + |Payload(v, pos, big)|))
  {
    hide At, NumberBits, NumberFromBits;
    NumberRoundTrip(v);
    assert Payload(v, pos, big) == ToBytes(NumberBits(v), Alignment(Signature(v)), big);
    IntAt(buf, pos, NumberBits(v), Alignment(Signature(v)), big);
  }

  lemma {:induction false} StringRoundTrip(v: Value, buf: seq<byte>, pos: nat, big: bool, depth: nat)
    requires v.Str? || v.Path? || v.Sig?
    requires WellFormed(v, depth)
    requires At(buf, pos, Payload(v, pos, big)) && |Payload(v, pos, big)| < LIMIT
    ensures ReadString(buf, pos, big, Signature(v)[0]) == Ok((v, pos + |Payload(v, pos, big)|))
  {
    hide At, ValidUtf8, TypeLen, ReadText;
    if v.Sig? {
      SignatureAt(buf, pos, v.g, big);
    } else {
      var s := if v.Str? then v.s else v.p;
      assert Payload(v, pos, big) == Word(|s|, big) + (s + [0]);
      AtSplit(buf, pos, Word(|s|, big), s + [0]);
      LengthAt(buf, pos, |s|, big);
      TextAt(buf, pos + 4, s);
    }
  }

  lemma {:induction false} VariantRoundTrip(v: Value, buf: seq<byte>, pos: nat, big: bool, depth: nat)
    requires v.Variant? && WellFormed(v, depth)
    requires At(buf, pos, Payload(v, pos, big)) && |Payload(v, pos, big)| < LIMIT
    ensures ReadVariant(buf, pos, big, depth) == Ok((v, pos + |Payload(v, pos, big)|))
    decreases v, 0
  {
    hide At, ValidUtf8, TypeLen, SplitSignature, ReadText, ReadValue, Encode;
    var sig := Signature(v.inner);
    var at := pos + |sig| + 2;
    AtSplit(buf, pos, SignatureBytes(sig), Encode(v.inner, at, big));
    CompleteIsUtf8(sig, 0);
    SignatureAt(buf, pos, sig, big);
    SplitOne(sig);
    ValueRoundTrip(v.inner, buf, at, big, depth + 1);
  }

  lemma {:induction false} StructRoundTrip(v: Value, buf: seq<byte>, pos: nat, big: bool, depth: nat)
    requires v.Struct? && WellFormed(v, depth)
    requires At(buf, pos, Payload(v, pos, big)) && |Payload(v, pos, big)| < LIMIT
    ensures ReadStruct(buf, pos, big, Signature(v), depth) == Ok((v, pos + |Payload(v, pos, big)|))
    decreases v, 0
  {
    hide At, TypeLen, SplitSignature, ReadFields;
    var types := SignaturesOf(v.fields);
    assert Inner(Signature(v)) == Concat(types);
    TypesComplete(v.fields, depth + 1);
    SplitConcat(types);
    FieldsRoundTrip(v.fields, buf, pos, big, depth + 1);
  }

  lemma TypesComplete(vs: seq<Value>, depth: nat)
    requires forall v | v in vs :: WellFormed(v, depth)
    ensures forall t | t in SignaturesOf(vs) :: Complete(t, 0)
  {
    hide TypeLen;
    forall t | t in SignaturesOf(vs)
      ensures Complete(t, 0)
    {
      var i :| 0 <= i < |vs| && t == SignaturesOf(vs)[i];
      assert WellFormed(vs[i], depth);
    }
  }

  lemma {:induction false} FieldsRoundTrip(vs: seq<Value>, buf: seq<byte>, pos: nat, big: bool, depth: nat)
    requires forall v | v in vs :: WellFormed(v, depth)
    requires At(buf, pos, EncodeAll(vs, pos, big)) && |EncodeAll(vs, pos, big)| < LIMIT
    requires forall t | t in SignaturesOf(vs) :: Complete(t, 0)
    ensures ReadFields(buf, pos, big, SignaturesOf(vs), depth) == Ok((vs, pos + |EncodeAll(vs, pos, big)|))
    decreases vs, 0
  {
    hide At, TypeLen, ReadValue, Encode, WellFormed, Signature, ReadFields;
    if vs == [] {
      NoFields(buf, pos, big, depth);
    } else {
      var first := Encode(vs[0], pos, big);
      AtSplit(buf, pos, first, EncodeAll(vs[1..], pos + |first|, big));
      ValueRoundTrip(vs[0], buf, pos, big, depth);
      assert SignaturesOf(vs)[0] == Signature(vs[0]) && SignaturesOf(vs)[1..] == SignaturesOf(vs[1..]);
      FieldsRoundTrip(vs[1..], buf, pos + |first|, big, depth);
      FirstField(vs, buf, pos, pos + |first|, pos + |EncodeAll(vs, pos, big)|, big, SignaturesOf(vs), depth);
    }
  }

  lemma NoFields(buf: seq<byte>, pos: nat, big: bool, depth: nat)
    ensures ReadFields(buf, pos, big, [], depth) == Ok(([], pos))
  {
  }

  /** A field read, and those after it. */
  lemma FirstField(
    vs: seq<Value>, buf: seq<byte>, pos: nat, next: nat, end: nat, big: bool, types: seq<Text>, depth: nat)
    requires vs != [] && types != [] && forall t | t in types :: Complete(t, 0)
    requires ReadValue(buf, pos, big, types[0], depth) == Ok((vs[0], next))
    requires ReadFields(buf, next, big, types[1..], depth) == Ok((vs[1..], end))
    ensures ReadFields(buf, pos, big, types, depth) == Ok((vs, end))
  {
    hide ReadValue, TypeLen;
    assert vs == [vs[0]] + vs[1..];
  }

  lemma {:induction false} ArrayRoundTrip(v: Value, buf: seq<byte>, pos: nat, big: bool, depth: nat)
    requires v.Array? && WellFormed(v, depth)
    requires At(buf, pos, Payload(v, pos, big)) && |Payload(v, pos, big)| < LIMIT
    ensures ReadArray(buf, pos, big, Signature(v), depth) == Ok((v, pos + |Payload(v, pos, big)|))
    decreases v, 0
  {
    hide At, TypeLen, ReadItems, ReadDict, EncodeAll, ArrayStart, ArrayHeader;
    var start := ArrayStart(pos, v.elem);
    var body := EncodeAll(v.items, start, big);
    assert Signature(v)[1..] == v.elem;
    ElementComplete(Signature(v));
    HeaderAt(buf, pos, v.elem, body, big);
    ItemsRoundTrip(v.items, buf, start, big, v.elem, depth + 1);
  }

  /** The length of an array and the padding before its elements. */
  lemma HeaderAt(buf: seq<byte>, pos: nat, elem: Text, body: seq<byte>, big: bool)
    requires |body| < LIMIT && At(buf, pos, ArrayHeader(pos, elem, |body|, big) + body)
    ensures ReadInt(buf, pos, 4, big) == Ok((|body|, pos + 4))
    ensures AlignPos(buf, pos + 4, Alignment(elem)) == Ok(ArrayStart(pos, elem))
    ensures At(buf, ArrayStart(pos, elem), body) && ArrayStart(pos, elem) + |body| <= |buf|
  {
    hide PadLen;
    AtSplit(buf, pos, ArrayHeader(pos, elem, |body|, big), body);
    AtSplit(buf, pos, Word(|body|, big), Zeros(PadLen(pos + 4, Alignment(elem))));
    LengthAt(buf, pos, |body|, big);
    AlignAt(buf, pos + 4, Alignment(elem));
  }

  lemma {:induction false} ItemsRoundTrip(vs: seq<Value>, buf: seq<byte>, pos: nat, big: bool, elem: Text, depth: nat)
    requires Complete(elem, 0)
    requires forall v | v in vs :: Signature(v) == elem && WellFormed(v, depth)
    requires At(buf, pos, EncodeAll(vs, pos, big)) && |EncodeAll(vs, pos, big)| < LIMIT
    ensures ReadItems(buf, pos, pos + |EncodeAll(vs, pos, big)|, big, elem, depth) == Ok(vs)
    decreases vs, 0
  {
    hide At, TypeLen, ReadValue, Encode;
    if vs != [] {
      var first := Encode(vs[0], pos, big);
      AtSplit(buf, pos, first, EncodeAll(vs[1..], pos + |first|, big));
      ValueRoundTrip(vs[0], buf, pos, big, depth);
      assert vs == [vs[0]] + vs[1..];
      ItemsRoundTrip(vs[1..], buf, pos + |first|, big, elem, depth);
    }
  }

  lemma {:induction false} DictRoundTrip(v: Value, buf: seq<byte>, pos: nat, big: bool, depth: nat)
    requires v.Dict? && WellFormed(v, depth)
    requires At(buf, pos, Payload(v, pos, big)) && |Payload(v, pos, big)| < LIMIT
    ensures ReadArray(buf, pos, big, Signature(v), depth) == Ok((v, pos + |Payload(v, pos, big)|))
    decreases v, 0
  {
    hide At, TypeLen, ReadItems, ReadEntries, EncodeEntries, ArrayStart, ArrayHeader;
    var elem := EntryType(v.key, v.val);
    var start := ArrayStart(pos, elem);
    var body := EncodeEntries(v.entries, start, big);
    assert Signature(v)[1..] == elem;
    ElementComplete(Signature(v));
    HeaderAt(buf, pos, elem, body, big);
    DictHalves(v.key, v.val, depth);
    EntriesRoundTrip(v.entries, buf, start, big, v.key, v.val, depth + 1);
    assert ReadDict(buf, start, start + |body|, big, elem, depth) == Ok(v);
    assert ReadElements(buf, start, start + |body|, big, elem, depth) == Ok(v);
  }

  lemma DictHalves(key: Text, val: Text, depth: nat)
    requires Complete(EntryType(key, val), 1) && Complete(key, depth)
    ensures TypeLen(Inner(EntryType(key, val)), depth) == Ok(|key|)
    ensures Inner(EntryType(key, val))[..|key|] == key && Inner(EntryType(key, val))[|key|..] == val
    ensures Complete(key, 0) && Complete(val, 0)
  {
    hide TypeLen;
    var elem := EntryType(key, val);
    assert Inner(elem) == key + val;
    assert Agree(key, Inner(elem), |key|);
    TypeLenPrefix(key, Inner(elem), depth);
    EntryHalves(elem, depth);
  }

  lemma {:induction false} EntriesRoundTrip(
    es: seq<(Value, Value)>, buf: seq<byte>, pos: nat, big: bool, key: Text, val: Text, depth: nat)
    requires Complete(key, 0) && Complete(val, 0)
    requires forall e | e in es :: EntryFits(e, key, val) && WellFormed(e.0, depth) && WellFormed(e.1, depth)
    requires At(buf, pos, EncodeEntries(es, pos, big)) && |EncodeEntries(es, pos, big)| < LIMIT
    ensures ReadEntries(buf, pos, pos + |EncodeEntries(es, pos, big)|, big, key, val, depth) == Ok(es)
    decreases es, 0
  {
    hide At, TypeLen, ReadValue, EncodeEntry, WellFormed, PadLen, Signature, AlignPos, ReadEntries;
    if es == [] {
      NoEntries(buf, pos, big, key, val, depth);
    } else {
      var first := EncodeEntry(es[0], pos, big);
      AtSplit(buf, pos, first, EncodeEntries(es[1..], pos + |first|, big));
      EntryRoundTrip(es[0], buf, pos, big, depth);
      EntriesRoundTrip(es[1..], buf, pos + |first|, big, key, val, depth);
      FirstEntry(es, buf, pos, pos + |EncodeEntries(es, pos, big)|, big, key, val, depth,
                 pos + PadLen(pos, 8), pos + PadLen(pos, 8) + |Encode(es[0].0, pos + PadLen(pos, 8), big)|, pos + |first|);
    }
  }

  lemma NoEntries(buf: seq<byte>, pos: nat, big: bool, key: Text, val: Text, depth: nat)
    requires Complete(key, 0) && Complete(val, 0)
    ensures ReadEntries(buf, pos, pos, big, key, val, depth) == Ok([])
  {
  }

  /** An entry read, and those after it. */
  lemma FirstEntry(es: seq<(Value, Value)>, buf: seq<byte>, pos: nat, end: nat, big: bool, key: Text, val: Text,
                   depth: nat, at: nat, mid: nat, next: nat)
    requires Complete(key, 0) && Complete(val, 0) && es != [] && pos < end
    requires AlignPos(buf, pos, 8) == Ok(at)
    requires ReadValue(buf, at, big, key, depth) == Ok((es[0].0, mid))
    requires ReadValue(buf, mid, big, val, depth) == Ok((es[0].1, next))
    requires ReadEntries(buf, next, end, big, key, val, depth) == Ok(es[1..])
    ensures ReadEntries(buf, pos, end, big, key, val, depth) == Ok(es)
  {
    hide ReadValue, AlignPos;
    assert es == [(es[0].0, es[0].1)] + es[1..];
  }

  lemma {:induction false} EntryRoundTrip(e: (Value, Value), buf: seq<byte>, pos: nat, big: bool, depth: nat)
    requires WellFormed(e.0, depth) && WellFormed(e.1, depth)
    requires At(buf, pos, EncodeEntry(e, pos, big)) && |EncodeEntry(e, pos, big)| < LIMIT
    ensures var at := pos + PadLen(pos, 8);
            var mid := at + |Encode(e.0, at, big)|;
            && AlignPos(buf, pos, 8) == Ok(at)
            && ReadValue(buf, at, big, Signature(e.0), depth) == Ok((e.0, mid))
            && ReadValue(buf, mid, big, Signature(e.1), depth) == Ok((e.1, pos + |EncodeEntry(e, pos, big)|))
    decreases e, 0
  {
    hide At, TypeLen, ReadValue, Encode, PadLen;
    var at := pos + PadLen(pos, 8);
    var key := Encode(e.0, at, big);
    var val := Encode(e.1, at + |key|, big);
    AtSplit(buf, pos, Zeros(PadLen(pos, 8)) + key, val);
    AtSplit(buf, pos, Zeros(PadLen(pos, 8)), key);
    AlignAt(buf, pos, 8);
    ValueRoundTrip(e.0, buf, at, big, depth);
    ValueRoundTrip(e.1, buf, at + |key|, big, depth);
  }
}
