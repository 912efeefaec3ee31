/** Whatever decodes is well formed, has exactly the type it was read as, and
    occupies exactly the bytes its encoding takes at the same offset. */
module CodecSoundness {
  import opened Wrappers
  import opened Bytes
  import opened Signatures
  import opened Values
  import opened CodecRoundTrip

  /** The result of reading type `sig` from `pos` up to `end` at `depth`. */
  ghost predicate Sound(v: Value, sig: Text, pos: nat, end: nat, depth: nat) {
    && Signature(v) == sig
    && WellFormed(v, depth)
    && (forall big :: end == pos + |Encode(v, pos, big)|)
  }

  ghost predicate SoundPayload(v: Value, sig: Text, pos: nat, end: nat, depth: nat) {
    && Signature(v) == sig
    && WellFormed(v, depth)
    && (forall big :: end == pos + |Payload(v, pos, big)|)
  }

  lemma {:induction false} ReadIsSound(buf: seq<byte>, pos: nat, big: bool, sig: Text, depth: nat)
    requires Complete(sig, 0)
    requires ReadValue(buf, pos, big, sig, depth).Ok?
    ensures var (v, end) := ReadValue(buf, pos, big, sig, depth).value;
            Sound(v, sig, pos, end, depth)
    decreases Budget(depth), 2, 0
  {
    hide TypeLen, WellFormed, Payload, Signature, PadLen, ReadNumber, ReadString, ReadVariant, ReadStruct, ReadArray;
    var at := pos + PadLen(pos, Alignment(sig));
    var (v, end) := ReadValue(buf, pos, big, sig, depth).value;
    if IsNumber(sig[0]) {
      NumberIsSound(buf, at, big, sig, depth);
    } else if sig[0] == STRING || sig[0] == PATH || sig[0] == SIGNATURE {
      StringIsSound(buf, at, big, sig, depth);
    } else if sig[0] == VARIANT {
      VariantIsSound(buf, at, big, sig, depth);
    } else if sig[0] == OPEN_STRUCT {
      StructIsSound(buf, at, big, sig, depth);
    } else {
      ArrayIsSound(buf, at, big, sig, depth);
    }
    AddPadding(v, sig, pos, end, depth);
  }

  lemma AddPadding(v: Value, sig: Text, pos: nat, end: nat, depth: nat)
    requires SoundPayload(v, sig, pos + PadLen(pos, Alignment(sig)), end, depth)
    ensures Sound(v, sig, pos, end, depth)
  {
    hide WellFormed, Payload, Signature, PadLen;
    forall big
      ensures end == pos + |Encode(v, pos, big)|
    {
      var at := pos + PadLen(pos, Alignment(sig));
      assert end == at + |Payload(v, at, big)|;
    }
  }

  /** A one-character type is only that character. */
  lemma BasicType(sig: Text)
    requires Complete(sig, 0) && IsBasic(sig[0])
    ensures sig == [sig[0]]
  {
    hide ArrayLen, StructLen, EntryLen;
  }

  lemma NumberIsSound(buf: seq<byte>, pos: nat, big: bool, sig: Text, depth: nat)
    requires Complete(sig, 0) && IsNumber(sig[0]) && depth <= MAX_DEPTH
    requires ReadNumber(buf, pos, big, sig[0]).Ok?
    ensures var (v, end) := ReadNumber(buf, pos, big, sig[0]).value;
            SoundPayload(v, sig, pos, end, depth)
  {
    hide TypeLen, NumberFromBits, NumberBits, ToBytes;
    BasicType(sig);
  }

  lemma StringIsSound(buf: seq<byte>, pos: nat, big: bool, sig: Text, depth: nat)
    requires Complete(sig, 0) && depth <= MAX_DEPTH
    requires sig[0] == STRING || sig[0] == PATH || sig[0] == SIGNATURE
    requires ReadString(buf, pos, big, sig[0]).Ok?
    ensures var (v, end) := ReadString(buf, pos, big, sig[0]).value;
            SoundPayload(v, sig, pos, end, depth)
  {
    hide TypeLen, ReadText, ValidUtf8;
    BasicType(sig);
    Pow256Values();
  }

  lemma {:induction false} VariantIsSound(buf: seq<byte>, pos: nat, big: bool, sig: Text, depth: nat)
    requires Complete(sig, 0) && sig[0] == VARIANT && depth <= MAX_DEPTH
    requires ReadVariant(buf, pos, big, depth).Ok?
    ensures var (v, end) := ReadVariant(buf, pos, big, depth).value;
            SoundPayload(v, sig, pos, end, depth)
    decreases Budget(depth), 0, 0
  {
    hide TypeLen, ReadText, ReadValue, SplitSignature, Encode, ValidUtf8;
    BasicType(sig);
    Pow256Values();
    var (n, p) := ReadInt(buf, pos, 1, big).value;
    var (inner, q) := ReadText(buf, p, n).value;
    OneType(inner);
    ReadIsSound(buf, q, big, inner, depth + 1);
    var (v, end) := ReadValue(buf, q, big, inner, depth + 1).value;
    forall e
      ensures end == pos + |Payload(Variant(v), pos, e)|
    {
      assert end == q + |Encode(v, q, e)|;
    }
  }

  lemma {:induction false} StructIsSound(buf: seq<byte>, pos: nat, big: bool, sig: Text, depth: nat)
    requires Complete(sig, 0) && sig[0] == OPEN_STRUCT && depth <= MAX_DEPTH
    requires ReadStruct(buf, pos, big, sig, depth).Ok?
    ensures var (v, end) := ReadStruct(buf, pos, big, sig, depth).value;
            SoundPayload(v, sig, pos, end, depth)
    decreases Budget(depth), 0, 0
  {
    hide TypeLen, ReadFields, SplitSignature, EncodeAll;
    StructEnds(sig);
    var types := SplitSignature(Inner(sig)).value;
    FieldsAreSound(buf, pos, big, types, depth + 1);
    var (fields, end) := ReadFields(buf, pos, big, types, depth + 1).value;
    assert Signature(Struct(fields)) == sig;
    assert WellFormed(Struct(fields), depth);
    forall e
      ensures end == pos + |Payload(Struct(fields), pos, e)|
    {
      assert end == pos + |EncodeAll(fields, pos, e)|;
    }
  }

  lemma StructEnds(sig: Text)
    requires Complete(sig, 0) && sig[0] == OPEN_STRUCT
    ensures |sig| >= 3 && sig == [OPEN_STRUCT] + Inner(sig) + [CLOSE_STRUCT]
  {
    hide StructLen;
    assert TypeLen(sig, 0) == StructLen(sig, 0);
  }

  lemma {:induction false} FieldsAreSound(buf: seq<byte>, pos: nat, big: bool, types: seq<Text>, depth: nat)
    requires forall t :: t in types ==> Complete(t, 0)
    requires ReadFields(buf, pos, big, types, depth).Ok?
    ensures var (vs, end) := ReadFields(buf, pos, big, types, depth).value;
            && SignaturesOf(vs) == types
            && (forall v | v in vs :: WellFormed(v, depth))
            && (forall e :: end == pos + |EncodeAll(vs, pos, e)|)
    decreases Budget(depth), 3, |types|
  {
    hide TypeLen, ReadValue, Encode, WellFormed;
    if types != [] {
      var (v, p) := ReadValue(buf, pos, big, types[0], depth).value;
      var (vs, q) := ReadFields(buf, p, big, types[1..], depth).value;
      ReadIsSound(buf, pos, big, types[0], depth);
      FieldsAreSound(buf, p, big, types[1..], depth);
      assert SignaturesOf([v] + vs) == types by {
        assert ([v] + vs)[1..] == vs;
      }
      forall e ensures q == pos + |EncodeAll([v] + vs, pos, e)| {
        assert ([v] + vs)[1..] == vs;
        assert p == pos + |Encode(v, pos, e)|;
      }
    }
  }

  lemma {:induction false} ArrayIsSound(buf: seq<byte>, pos: nat, big: bool, sig: Text, depth: nat)
    requires Complete(sig, 0) && sig[0] == ARRAY && depth <= MAX_DEPTH
    requires ReadArray(buf, pos, big, sig, depth).Ok?
    ensures var (v, end) := ReadArray(buf, pos, big, sig, depth).value;
            SoundPayload(v, sig, pos, end, depth)
    decreases Budget(depth), 0, 2
  {
    hide TypeLen, ReadElements, WellFormed, Payload, Signature, ArrayStart, PadLen;
    ElementComplete(sig);
    var (length, p) := ReadInt(buf, pos, 4, big).value;
    var elem := sig[1..];
    var start := AlignPos(buf, p, Alignment(elem)).value;
    StartOfArray(pos, elem);
    assert sig == [ARRAY] + elem;
    ElementsAreSound(buf, pos, start, start + length, big, elem, depth);
  }

  lemma StartOfArray(pos: nat, elem: Text)
    ensures ArrayStart(pos, elem) == pos + 4 + PadLen(pos + 4, Alignment(elem))
  {
  }

  lemma {:induction false} ElementsAreSound(
    buf: seq<byte>, pos: nat, start: nat, end: nat, big: bool, elem: Text, depth: nat)
    requires Complete(elem, 0) && Complete(elem, 1) && Complete([ARRAY] + elem, 0) && depth <= MAX_DEPTH
    requires start == ArrayStart(pos, elem) && start <= end
    requires ReadElements(buf, start, end, big, elem, depth).Ok?
    ensures SoundPayload(ReadElements(buf, start, end, big, elem, depth).value, [ARRAY] + elem, pos, end, depth)
    decreases Budget(depth), 0, 1
  {
    hide TypeLen, ReadDict, ReadItems, WellFormed, SoundPayload, ArrayStart;
    if elem[0] == OPEN_ENTRY {
      DictIsSound(buf, pos, start, end, big, elem, depth);
    } else {
      ItemsAreSound(buf, start, end, big, elem, depth + 1);
      ArraySound(ReadItems(buf, start, end, big, elem, depth + 1).value, elem, pos, start, end, depth);
    }
  }

  lemma ArraySound(items: seq<Value>, elem: Text, pos: nat, start: nat, end: nat, depth: nat)
    requires Complete([ARRAY] + elem, 0) && depth <= MAX_DEPTH && elem != [] && elem[0] != OPEN_ENTRY
    requires start == ArrayStart(pos, elem)
    requires forall v | v in items :: Signature(v) == elem && WellFormed(v, depth + 1)
    requires forall e :: end == start + |EncodeAll(items, start, e)|
    ensures SoundPayload(Array(elem, items), [ARRAY] + elem, pos, end, depth)
  {
    hide TypeLen, EncodeAll, ArrayStart;
    var v := Array(elem, items);
    forall e
      ensures end == pos + |Payload(v, pos, e)|
    {
      assert end == start + |EncodeAll(items, start, e)|;
    }
  }

  lemma {:induction false} ItemsAreSound(buf: seq<byte>, pos: nat, end: nat, big: bool, elem: Text, depth: nat)
    requires Complete(elem, 0)
    requires ReadItems(buf, pos, end, big, elem, depth).Ok?
    ensures var vs := ReadItems(buf, pos, end, big, elem, depth).value;
            && (forall v | v in vs :: Signature(v) == elem && WellFormed(v, depth))
            && (forall e :: end == pos + |EncodeAll(vs, pos, e)|)
    decreases Budget(depth), 3, end - pos
  {
    hide TypeLen, ReadValue, Encode, WellFormed, Signature;
    if pos < end {
      var (v, p) := ReadValue(buf, pos, big, elem, depth).value;
      var vs := ReadItems(buf, p, end, big, elem, depth).value;
      ReadIsSound(buf, pos, big, elem, depth);
      ItemsAreSound(buf, p, end, big, elem, depth);
      forall e ensures end == pos + |EncodeAll([v] + vs, pos, e)| {
        assert ([v] + vs)[1..] == vs;
        assert p == pos + |Encode(v, pos, e)|;
      }
    }
  }

  lemma {:induction false} DictIsSound(
    buf: seq<byte>, pos: nat, start: nat, end: nat, big: bool, elem: Text, depth: nat)
    requires Complete(elem, 1) && elem[0] == OPEN_ENTRY && Complete([ARRAY] + elem, 0) && depth <= MAX_DEPTH
    requires start == ArrayStart(pos, elem) && start <= end
    requires ReadDict(buf, start, end, big, elem, depth).Ok?
    ensures SoundPayload(ReadDict(buf, start, end, big, elem, depth).value, [ARRAY] + elem, pos, end, depth)
    decreases Budget(depth), 0, 0
  {
    hide TypeLen, ReadEntries, EncodeEntries, ArrayStart;
    EntryParts(elem);
    var k := TypeLen(Inner(elem), depth).value;
    EntryHalves(elem, depth);
    var key, val := Inner(elem)[..k], Inner(elem)[k..];
    assert elem == EntryType(key, val);
    EntriesAreSound(buf, start, end, big, key, val, depth + 1);
    var v := ReadDict(buf, start, end, big, elem, depth).value;
    assert Signature(v) == [ARRAY] + elem;
    assert WellFormed(v, depth);
    forall e
      ensures end == pos + |Payload(v, pos, e)|
    {
      assert end == start + |EncodeEntries(v.entries, start, e)|;
    }
  }

  lemma {:induction false} EntriesAreSound(
    buf: seq<byte>, pos: nat, end: nat, big: bool, key: Text, val: Text, depth: nat)
    requires Complete(key, 0) && Complete(val, 0)
    requires ReadEntries(buf, pos, end, big, key, val, depth).Ok?
    ensures var es := ReadEntries(buf, pos, end, big, key, val, depth).value;
            && (forall e | e in es :: EntryFits(e, key, val) && WellFormed(e.0, depth) && WellFormed(e.1, depth))
            && (forall o :: end == pos + |EncodeEntries(es, pos, o)|)
    decreases Budget(depth), 3, end - pos
  {
    hide TypeLen, ReadValue, Encode, WellFormed, Signature, PadLen, EncodeEntries;
    if pos == end {
      NoEntriesBytes(pos);
    } else {
      var at := AlignPos(buf, pos, 8).value;
      var (k, p) := ReadValue(buf, at, big, key, depth).value;
      var (v, q) := ReadValue(buf, p, big, val, depth).value;
      var es := ReadEntries(buf, q, end, big, key, val, depth).value;
      ReadIsSound(buf, at, big, key, depth);
      ReadIsSound(buf, p, big, val, depth);
      EntriesAreSound(buf, q, end, big, key, val, depth);
      assert forall e | e in [(k, v)] + es :: e == (k, v) || e in es;
      forall o
        ensures end == pos + |EncodeEntries([(k, v)] + es, pos, o)|
      {
        FirstEntryBytes(k, v, es, pos, o);
      }
    }
  }

  lemma NoEntriesBytes(pos: nat)
    ensures forall o :: EncodeEntries([], pos, o) == []
  {
  }

  lemma FirstEntryBytes(k: Value, v: Value, es: seq<(Value, Value)>, pos: nat, o: bool)
    ensures var at := pos + PadLen(pos, 8);
            var p := at + |Encode(k, at, o)|;
            var q := p + |Encode(v, p, o)|;
            pos + |EncodeEntries([(k, v)] + es, pos, o)| == q + |EncodeEntries(es, q, o)|
  {
    hide Encode, PadLen;
    var all := [(k, v)] + es;
    assert all[0] == (k, v) && all[1..] == es;
  }
}
