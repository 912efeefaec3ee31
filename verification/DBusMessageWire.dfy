/** Messages byte by byte: what is written for one, and what is made of
    bytes, said with the numbers of the D-Bus Specification. */
module MessageWire {
  import opened Wrappers
  import opened Bytes
  import opened Signatures
  import opened Values
  import opened CodecRoundTrip
  import opened CodecSoundness
  import opened Bodies
  import opened Messages
  import opened MessageTheorems
  import opened WireFormat
  import opened WireReading

  function PathOf(v: Value): Option<Text> {
    if v.Path? then Some(v.p) else None
  }

  function StrOf(v: Value): Option<Text> {
    if v.Str? then Some(v.s) else None
  }

  function SigOf(v: Value): Option<Text> {
    if v.Sig? then Some(v.g) else None
  }

  function U32Of(v: Value): Option<u32> {
    if v.U32? then Some(v.u) else None
  }

  /** What the last header field with a code, and a value of the type it should
      have, says. */
  function Told<T>(fields: seq<Value>, code: byte, get: Value -> Option<T>): Option<T> {
    if fields == [] then None
    else
      var f := fields[|fields| - 1];
      if f.Struct? && |f.fields| == 2 && f.fields[0] == Byte(code) && f.fields[1].Variant? && get(f.fields[1].inner).Some?
      then get(f.fields[1].inner)
      else Told(fields[..|fields| - 1], code, get)
  }

  /** The parts of a message that its header fields tell. */
  ghost predicate Describe(fields: seq<Value>, m: Message) {
    && m.path == Told(fields, 1, PathOf)
    && m.iface == Told(fields, 2, StrOf)
    && m.member == Told(fields, 3, StrOf)
    && m.errorName == Told(fields, 4, StrOf)
    && m.replySerial == Told(fields, 5, U32Of)
    && m.destination == Told(fields, 6, StrOf)
    && m.sender == Told(fields, 7, StrOf)
    && m.signature == Told(fields, 8, SigOf).GetOr([])
    && m.unixFds == Told(fields, 9, U32Of).GetOr(0)
  }

  /** A header field of the type `(yv)`. */
  predicate Pair(f: Value) {
    f.Struct? && |f.fields| == 2 && f.fields[0].Byte? && f.fields[1].Variant?
  }

  lemma OfPair(f: Value, depth: nat)
    requires Signature(f) == FIELD_TYPE && WellFormed(f, depth)
    ensures Pair(f)
  {
    hide TypeLen, SplitSignature;
    FirstLetter(f);
    var types := SignaturesOf(f.fields);
    assert Signature(f)[1..|Signature(f)| - 1] == Concat(types);
    assert FIELD_TYPE[1..3] == [BYTE, VARIANT];
    TypesComplete(f.fields, depth + 1);
    SplitConcat(types);
    SplitPair();
    FirstLetter(f.fields[0]);
    FirstLetter(f.fields[1]);
  }

  lemma FirstLetter(v: Value)
    ensures Signature(v)[0] == OPEN_STRUCT ==> v.Struct?
    ensures Signature(v)[0] == BYTE ==> v.Byte?
    ensures Signature(v)[0] == VARIANT ==> v.Variant?
  {
    hide EntryType, Concat, SignaturesOf;
  }

  lemma SplitPair()
    ensures SplitSignature([BYTE, VARIANT]) == Ok([[BYTE], [VARIANT]])
  {
    hide SplitSignature;
    var types := [[BYTE], [VARIANT]];
    SplitConcat(types);
    ConcatOne([VARIANT]);
    assert types[1..] == [[VARIANT]];
    assert Concat(types) == [BYTE] + Concat([[VARIANT]]) == [BYTE, VARIANT];
  }

  // Taking in header fields.

  lemma {:induction false} TakenLast(m: Message, fields: seq<Value>, f: Value)
    ensures TakeFields(m, fields + [f]) == TakeField(TakeFields(m, fields), f)
    decreases |fields|
  {
    hide TakeField;
    if fields == [] {
      assert [f][1..] == [];
      assert [] + [f] == [f];
    } else {
      assert (fields + [f])[1..] == fields[1..] + [f];
      TakenLast(TakeField(m, fields[0]), fields[1..], f);
    }
  }

  lemma {:induction false} TakenIsTold(kind: byte, flags: byte, serial: u32, fields: seq<Value>)
    requires forall f | f in fields :: Pair(f)
    ensures var m := TakeFields(Blank(kind, flags, serial), fields);
            Describe(fields, m) && m.kind == kind && m.flags == flags && m.serial == serial && m.body == []
    decreases |fields|
  {
    hide TakeFields, Describe;
    if fields == [] {
      NoneTaken(kind, flags, serial);
    } else {
      var n := |fields| - 1;
      TakenIsTold(kind, flags, serial, fields[..n]);
      assert fields == fields[..n] + [fields[n]];
      TakenLast(Blank(kind, flags, serial), fields[..n], fields[n]);
      assert fields[n] in fields && Pair(fields[n]);
      assert fields[n].fields == [fields[n].fields[0], fields[n].fields[1]];
      OneMoreTold(TakeFields(Blank(kind, flags, serial), fields[..n]), fields, fields[n].fields[0].y, fields[n].fields[1].inner);
    }
  }

  lemma NoneTaken(kind: byte, flags: byte, serial: u32)
    ensures TakeFields(Blank(kind, flags, serial), []) == Blank(kind, flags, serial)
    ensures Describe([], Blank(kind, flags, serial))
  {
  }

  lemma OneMoreTold(m: Message, fields: seq<Value>, code: byte, v: Value)
    requires fields != [] && fields[|fields| - 1] == Struct([Byte(code), Variant(v)])
    requires Describe(fields[..|fields| - 1], m)
    ensures var t := TakeField(m, fields[|fields| - 1]);
            Describe(fields, t) && t.kind == m.kind && t.flags == m.flags && t.serial == m.serial && t.body == m.body
  {
    hide Told;
    ToldNext(fields, code, v, 1, PathOf);
    ToldNext(fields, code, v, 2, StrOf);
    ToldNext(fields, code, v, 3, StrOf);
    ToldNext(fields, code, v, 4, StrOf);
    ToldNext(fields, code, v, 5, U32Of);
    ToldNext(fields, code, v, 6, StrOf);
    ToldNext(fields, code, v, 7, StrOf);
    ToldNext(fields, code, v, 8, SigOf);
    ToldNext(fields, code, v, 9, U32Of);
    assert TakeField(m, fields[|fields| - 1]) == TakeCoded(m, code, v);
  }

  lemma ToldNext<T>(fields: seq<Value>, c: byte, v: Value, code: byte, get: Value -> Option<T>)
    requires fields != [] && fields[|fields| - 1] == Struct([Byte(c), Variant(v)])
    ensures Told(fields, code, get) == if c == code && get(v).Some? then get(v) else Told(fields[..|fields| - 1], code, get)
  {
  }

  // Writing.

  /** The bytes before the header fields. */
  ghost predicate Starts(s: seq<byte>, m: Message, serial: u32) {
    && |s| >= 16 && s[0] == 'l' as int && s[1] == m.kind && s[2] == m.flags && s[3] == 1
    && Is4(s[4..8], |m.body| % 0x1_0000_0000, false) && Is4(s[8..12], serial, false)
  }

  function CodeOf(f: Value): int {
    if Pair(f) then f.fields[0].y else 0
  }

  /** Header fields that say just what there is to say, in the order of their
      codes. */
  ghost predicate Says(fields: seq<Value>, m: Message) {
    && (forall f | f in fields :: Pair(f))
    && (forall i, j | 0 <= i < j < |fields| :: CodeOf(fields[i]) < CodeOf(fields[j]))
    && forall code: byte, v :: Struct([Byte(code), Variant(v)]) in fields <==>
         || (code == 1 && m.path.Some? && v == Path(m.path.value))
         || (code == 2 && m.iface.Some? && v == Str(m.iface.value))
         || (code == 3 && m.member.Some? && v == Str(m.member.value))
         || (code == 4 && m.errorName.Some? && v == Str(m.errorName.value))
         || (code == 5 && m.replySerial.Some? && v == U32(m.replySerial.value))
         || (code == 6 && m.destination.Some? && v == Str(m.destination.value))
         || (code == 8 && m.signature != [] && v == Sig(m.signature))
         || (code == 9 && m.unixFds > 0 && v == U32(m.unixFds))
  }

  /** A message is written as its prefix, its header fields, zeros up to a
      multiple of 8, and its body. */
  ghost predicate Written(s: seq<byte>, m: Message, serial: u32) {
    exists fields, end: nat, start: nat ::
      && Starts(s, m, serial) && Says(fields, m)
      && 12 <= end <= start <= |s| && Marshals(Array(Ascii("a(yv)")[1..], fields), s[12..end], 12, false, true)
      && Gap(s[end..], end, 8, start - end, true)
      && s[start..] == m.body
  }

  lemma OneField(present: bool, code: byte, v: Value)
    ensures forall f :: f in FieldIf(present, code, v) <==> present && f == Struct([Byte(code), Variant(v)])
    ensures |FieldIf(present, code, v)| <= 1
  {
  }

  /** Header fields in the order of their codes, from `low` on. */
  ghost predicate Ordered(fields: seq<Value>, low: int) {
    && (forall f | f in fields :: Pair(f) && CodeOf(f) >= low)
    && (forall i, j | 0 <= i < j < |fields| :: CodeOf(fields[i]) < CodeOf(fields[j]))
  }

  lemma OneBefore(present: bool, code: byte, v: Value, rest: seq<Value>)
    requires Ordered(rest, code as int + 1)
    ensures Ordered(FieldIf(present, code, v) + rest, code)
    ensures forall f :: f in FieldIf(present, code, v) + rest <==> (present && f == Struct([Byte(code), Variant(v)])) || f in rest
  {
    OneField(present, code, v);
    if present {
      assert FieldIf(present, code, v) == [Field(code, v)];
    }
  }

  /** The fields with the codes from 5 on. */
  function LaterFields(m: Message): seq<Value> {
    FieldIf(m.replySerial.Some?, FIELD_REPLY_SERIAL, U32(m.replySerial.GetOr(0)))
    + (FieldIf(m.destination.Some?, FIELD_DESTINATION, Str(m.destination.GetOr([])))
       + (FieldIf(m.signature != [], FIELD_SIGNATURE, Sig(m.signature))
          + FieldIf(m.unixFds > 0, FIELD_UNIX_FDS, U32(m.unixFds))))
  }

  lemma LaterSay(m: Message)
    ensures Ordered(LaterFields(m), 5)
    ensures forall code: byte, v :: Struct([Byte(code), Variant(v)]) in LaterFields(m) <==>
              || (code == 5 && m.replySerial.Some? && v == U32(m.replySerial.value))
              || (code == 6 && m.destination.Some? && v == Str(m.destination.value))
              || (code == 8 && m.signature != [] && v == Sig(m.signature))
              || (code == 9 && m.unixFds > 0 && v == U32(m.unixFds))
  {
    hide FieldIf, Ordered;
    NoneOrdered();
    var r8 := FieldIf(m.unixFds > 0, 9, U32(m.unixFds));
    assert r8 + [] == r8;
    OneBefore(m.unixFds > 0, 9, U32(m.unixFds), []);
    var r7 := FieldIf(m.signature != [], 8, Sig(m.signature)) + r8;
    OneBefore(m.signature != [], 8, Sig(m.signature), r8);
    Higher(r7, 8, 7);
    var r6 := FieldIf(m.destination.Some?, 6, Str(m.destination.GetOr([]))) + r7;
    OneBefore(m.destination.Some?, 6, Str(m.destination.GetOr([])), r7);
    OneBefore(m.replySerial.Some?, 5, U32(m.replySerial.GetOr(0)), r6);
  }

  lemma NoneOrdered()
    ensures Ordered([], 10)
  {
  }

  lemma FieldsSay(m: Message)
    ensures Says(FieldsOf(m), m) && Ordered(FieldsOf(m), 1)
  {
    hide FieldIf, Ordered, LaterFields;
    LaterSay(m);
    var r4 := FieldIf(m.errorName.Some?, 4, Str(m.errorName.GetOr([]))) + LaterFields(m);
    OneBefore(m.errorName.Some?, 4, Str(m.errorName.GetOr([])), LaterFields(m));
    var r3 := FieldIf(m.member.Some?, 3, Str(m.member.GetOr([]))) + r4;
    OneBefore(m.member.Some?, 3, Str(m.member.GetOr([])), r4);
    var r2 := FieldIf(m.iface.Some?, 2, Str(m.iface.GetOr([]))) + r3;
    OneBefore(m.iface.Some?, 2, Str(m.iface.GetOr([])), r3);
    OneBefore(m.path.Some?, 1, Path(m.path.GetOr([])), r2);
    SplitFields(m);
    InOrder(FieldsOf(m), 1);
  }

  lemma SplitFields(m: Message)
    ensures FieldsOf(m) ==
            FieldIf(m.path.Some?, 1, Path(m.path.GetOr([])))
            + (FieldIf(m.iface.Some?, 2, Str(m.iface.GetOr([])))
               + (FieldIf(m.member.Some?, 3, Str(m.member.GetOr([])))
                  + (FieldIf(m.errorName.Some?, 4, Str(m.errorName.GetOr([]))) + LaterFields(m))))
  {
    hide FieldIf;
  }

  lemma Higher(fields: seq<Value>, high: int, low: int)
    requires Ordered(fields, high) && low <= high
    ensures Ordered(fields, low)
  {
  }

  lemma InOrder(fields: seq<Value>, low: int)
    requires Ordered(fields, low)
    ensures forall f | f in fields :: Pair(f)
    ensures forall i, j | 0 <= i < j < |fields| :: CodeOf(fields[i]) < CodeOf(fields[j])
  {
  }

  lemma AllButFirst(a: seq<Value>, low: int)
    requires Ordered(a, low) && a != []
    ensures Ordered(a[1..], low) && forall f :: f in a[1..] <==> f in a && f != a[0]
  {
    forall f
      ensures f in a[1..] <==> f in a && f != a[0]
    {
      assert a == [a[0]] + a[1..];
      if f in a[1..] {
        var k :| 0 <= k < |a| - 1 && a[1..][k] == f;
        assert CodeOf(a[0]) < CodeOf(a[k + 1]);
      }
    }
  }

  /** Header fields that say the same are the same. */
  lemma {:induction false} SayOnce(a: seq<Value>, b: seq<Value>, low: int)
    requires Ordered(a, low) && Ordered(b, low) && forall f :: f in a <==> f in b
    ensures a == b
    decreases |a|
  {
    assert b != [] ==> b[0] in b;
    if a != [] {
      assert a[0] in b && b[0] in a;
      assert a[0] == b[0];
      AllButFirst(a, low);
      AllButFirst(b, low);
      SayOnce(a[1..], b[1..], low);
      assert a == [a[0]] + a[1..] && b == [b[0]] + b[1..];
    }
  }

  lemma SaysOrdered(fields: seq<Value>, m: Message)
    requires Says(fields, m)
    ensures Ordered(fields, 1) && forall f :: f in fields <==> f in FieldsOf(m)
  {
    hide FieldsOf, Ordered;
    FieldsSay(m);
    assert Ordered(fields, 1) by { AllCoded(fields, m); }
    forall f
      ensures f in fields <==> f in FieldsOf(m)
    {
      if f in fields || f in FieldsOf(m) {
        assert f == Struct([Byte(f.fields[0].y), Variant(f.fields[1].inner)]) by {
          assert Pair(f) && f.fields == [f.fields[0], f.fields[1]];
        }
      }
    }
  }

  lemma AllCoded(fields: seq<Value>, m: Message)
    requires Says(fields, m)
    ensures Ordered(fields, 1)
  {
    forall f | f in fields
      ensures Pair(f) && CodeOf(f) >= 1
    {
      assert Pair(f) && f.fields == [f.fields[0], f.fields[1]];
      assert f == Struct([Byte(f.fields[0].y), Variant(f.fields[1].inner)]);
    }
  }

  /** Bytes are what is written for a message with a serial if and only if they
      are laid out so. */
  lemma WrittenExactly(s: seq<byte>, m: Message, serial: u32)
    ensures Written(s, m, serial) <==> s == EncodeMessage(m, serial)
  {
    hide Says, FieldsOf, Starts, EncodeMessage, Marshals, Gap, Encode;
    if Written(s, m, serial) {
      WrittenIsEncoded(s, m, serial);
    }
    if s == EncodeMessage(m, serial) {
      EncodedIsWritten(m, serial);
    }
  }

  lemma FieldTypeSpelled()
    ensures Ascii("a(yv)")[1..] == FIELD_TYPE
  {
  }

  lemma WrittenIsEncoded(s: seq<byte>, m: Message, serial: u32)
    requires Written(s, m, serial)
    ensures s == EncodeMessage(m, serial)
  {
    hide Says, FieldsOf, Marshals, Gap, Encode, PadLen, Is4, Word, ToBytes, Ordered;
    var fields, end: nat, start: nat :|
      && Starts(s, m, serial) && Says(fields, m)
      && 12 <= end <= start <= |s| && Marshals(Array(Ascii("a(yv)")[1..], fields), s[12..end], 12, false, true)
      && Gap(s[end..], end, 8, start - end, true)
      && s[start..] == m.body;
    FieldTypeSpelled();
    SaysOrdered(fields, m);
    FieldsSay(m);
    SayOnce(fields, FieldsOf(m), 1);
    MarshalsExactly(Array(FIELD_TYPE, fields), s[12..end], 12, false);
    GapIsPadding(s[end..], end, 8);
    StartIsPrefix(s, m, serial);
    assert s[end..][..start - end] == s[end..start];
    assert s == s[..12] + s[12..end] + s[end..start] + s[start..];
  }

  lemma StartIsPrefix(s: seq<byte>, m: Message, serial: u32)
    requires |s| >= 16
    ensures Starts(s, m, serial) <==>
            s[..12] == [LITTLE, m.kind, m.flags, VERSION] + Word(|m.body|, false) + ToBytes(serial, 4, false)
  {
    hide Is4, ToBytes;
    WordExactly(s[4..8], |m.body|, false);
    WordExactly(s[8..12], serial, false);
    var p := [LITTLE, m.kind, m.flags, VERSION];
    assert s[..12] == s[..4] + s[4..8] + s[8..12];
    assert s[..4] == [s[0], s[1], s[2], s[3]];
    ThreeParts(s[..12], p, Word(|m.body|, false), ToBytes(serial, 4, false));
    assert s[..12][..4] == s[..4] && s[..12][4..][..4] == s[4..8] && s[..12][8..] == s[8..12];
  }

  lemma EncodedIsWritten(m: Message, serial: u32)
    ensures Written(EncodeMessage(m, serial), m, serial)
  {
    hide Says, FieldsOf, Marshals, Gap, Encode, PadLen, Is4, Word, ToBytes, Starts;
    var fields := FieldsOf(m);
    var bytes := Encode(Array(FIELD_TYPE, fields), 12, false);
    var prefix := [LITTLE, m.kind, m.flags, VERSION] + Word(|m.body|, false) + ToBytes(serial, 4, false);
    var s := EncodeMessage(m, serial);
    var end := 12 + |bytes|;
    var start := end + PadLen(end, 8);
    assert s == prefix + bytes + Zeros(PadLen(end, 8)) + m.body;
    assert s[..12] == prefix && s[12..end] == bytes && s[start..] == m.body;
    assert s[end..][..start - end] == Zeros(start - end);
    FieldTypeSpelled();
    FieldsSay(m);
    FieldsEncoding(m);
    StartIsPrefix(s, m, serial);
    MarshalsExactly(Array(FIELD_TYPE, fields), bytes, 12, false);
    GapIsPadding(s[end..], end, 8);
  }

  // Reading.

  /** The bytes of a message whose header is `m`'s, in the byte order `big`:
      the prefix with both lengths, header fields of which the last with a code
      counts, any bytes up to a multiple of 8, and the body. */
  ghost predicate HeaderOf(buf: seq<byte>, m: Message, big: bool) {
    && 16 <= |buf| <= 134217728
    && buf[0] == (if big then 'B' else 'l') as int && buf[1] == m.kind && buf[2] == m.flags && buf[3] == 1
    && Is4(buf[8..12], m.serial, big)
    && exists fields, end: nat, start: nat :: Divides(buf, fields, end, start, big) && Describe(fields, m) && m.body == buf[start..]
  }

  /** `buf` has its header fields up to `end` and its body from `start` on. */
  ghost predicate Divides(buf: seq<byte>, fields: seq<Value>, end: nat, start: nat, big: bool)
    requires |buf| >= 16
  {
    && 16 <= end <= start <= |buf|
    && Is4(buf[12..16], end - 16, big) && Is4(buf[4..8], |buf| - start, big)
    && WellFormed(Array(Ascii("a(yv)")[1..], fields), 0)
    && Marshals(Array(Ascii("a(yv)")[1..], fields), buf[12..end], 12, big, false)
    && Gap(buf[end..], end, 8, start - end, false)
  }

  lemma PrefixIs4(buf: seq<byte>, at: nat, n: int, big: bool)
    requires at + 4 <= |buf|
    ensures Is4(buf[at..at + 4], n, big) <==> n == PrefixU32(buf, at, big)
  {
    hide Is4, FromBytes;
    BytesAreDigits(buf[at..at + 4], n, big);
  }

  lemma ParsesExactly(buf: seq<byte>, m: Message, big: bool)
    ensures ParseHeader(buf) == Ok((m, big)) <==> HeaderOf(buf, m, big)
  {
    hide ParseHeader, HeaderOf;
    if ParseHeader(buf) == Ok((m, big)) {
      ParsedIsHeader(buf, m, big);
    }
    if HeaderOf(buf, m, big) {
      HeaderIsParsed(buf, m, big);
    }
  }

  lemma ParsedIsHeader(buf: seq<byte>, m: Message, big: bool)
    requires ParseHeader(buf) == Ok((m, big))
    ensures HeaderOf(buf, m, big)
  {
    hide ReadValue, TypeLen, PrefixU32, Pad8, TakeFields, WellFormed, Marshals, Is4, FrameLen, Describe, PadLen, Ascii;
    FieldsTypeComplete();
    FrameCoversHeader(buf, big);
    var (all, end) := ReadValue(buf, 12, big, FIELDS_TYPE, 0).value;
    FieldsAreAnArray(buf, big);
    FieldTypeSpelled();
    FieldsSpelled();
    ReadsExactly(buf, 12, big, FIELDS_TYPE, 0, all, end);
    ArrayOfFields(all);
    var start := Pad8(end);
    Pad8IsPadding(end);
    GapIsPadding(buf[end..], end, 8);
    PrefixIs4(buf, 4, |buf| - start, big);
    var serial := PrefixU32(buf, 8, big);
    PrefixIs4(buf, 8, serial, big);
    PrefixIs4(buf, 12, end - 16, big);
    TakenIsTold(buf[1], buf[2], serial, all.items);
    var taken := TakeFields(Blank(buf[1], buf[2], serial), all.items);
    assert m == taken.(body := buf[start..]);
    SameWithBody(all.items, taken, buf[start..]);
    assert Divides(buf, all.items, end, start, big);
  }

  lemma SameWithBody(fields: seq<Value>, m: Message, body: seq<byte>)
    ensures Describe(fields, m) <==> Describe(fields, m.(body := body))
  {
  }

  lemma FieldsSpelled()
    ensures Ascii("a(yv)") == FIELDS_TYPE
  {
  }

  lemma ArrayOfFields(v: Value)
    requires v.Array? && Spelled(v) == FIELDS_TYPE && WellFormed(v, 0)
    ensures v == Array(FIELD_TYPE, v.items) && forall f | f in v.items :: Pair(f)
  {
    hide TypeLen, Concat;
    SpelledIsSignature(v);
    assert Signature(v)[1..] == v.elem;
    forall f | f in v.items
      ensures Pair(f)
    {
      OfPair(f, 1);
    }
  }

  lemma HeaderIsParsed(buf: seq<byte>, m: Message, big: bool)
    requires HeaderOf(buf, m, big)
    ensures ParseHeader(buf) == Ok((m, big))
  {
    hide ReadValue, TypeLen, PrefixU32, Pad8, TakeFields, WellFormed, Marshals, Is4, Describe, PadLen, Ascii, Gap;
    var fields, end: nat, start: nat :|
      Divides(buf, fields, end, start, big) && Describe(fields, m) && m.body == buf[start..];
    FieldsTypeComplete();
    FieldTypeSpelled();
    FieldsSpelled();
    Pad8IsPadding(end);
    GapIsPadding(buf[end..], end, 8);
    PrefixIs4(buf, 4, |buf| - start, big);
    PrefixIs4(buf, 8, m.serial, big);
    PrefixIs4(buf, 12, end - 16, big);
    PrefixKeepsU32(buf, 4, big);
    PrefixKeepsU32(buf, 12, big);
    var all := Array(FIELD_TYPE, fields);
    ArraySpelled(fields);
    ReadsExactly(buf, 12, big, FIELDS_TYPE, 0, all, end);
    ArrayOfFields(all);
    TakenIsTold(buf[1], buf[2], m.serial, fields);
    var taken := TakeFields(Blank(buf[1], buf[2], m.serial), fields);
    SameWithBody(fields, taken, m.body);
    DescribedOnce(fields, m, taken.(body := m.body));
  }

  lemma ArraySpelled(fields: seq<Value>)
    ensures Spelled(Array(FIELD_TYPE, fields)) == FIELDS_TYPE
  {
    Letters();
  }

  lemma DescribedOnce(fields: seq<Value>, a: Message, b: Message)
    requires Describe(fields, a) && Describe(fields, b)
    requires a.kind == b.kind && a.flags == b.flags && a.serial == b.serial && a.body == b.body
    ensures a == b
  {
  }

  // Bodies.

  /** A body decodes as some values if and only if they are well formed, of its
      signature, and its bytes stand for them. */
  lemma DecodesExactly(sig: Text, body: seq<byte>, big: bool, values: seq<Value>)
    requires |body| < LIMIT
    ensures DecodeBody(sig, body, big) == Ok(values) <==>
            SpelledAll(values) == sig && AllWellFormed(values) && MarshalsAll(values, body, 0, big, false)
  {
    hide WellFormed, TypeLen, SplitSignature, ReadFields, MarshalsAll, Concat, SignaturesOf, Spelled;
    AllSpelled(values);
    assert body[0..|body|] == body;
    if DecodeBody(sig, body, big) == Ok(values) {
      var types := SplitSignature(sig).value;
      FieldsAreSound(body, 0, big, types, 0);
      FieldsAreHeld(body, 0, big, types, 0);
    }
    if SpelledAll(values) == sig && AllWellFormed(values) && MarshalsAll(values, body, 0, big, false) {
      TypesComplete(values, 0);
      SplitConcat(SignaturesOf(values));
      FieldsAreRead(values, body, 0, |body|, big, 0);
    }
  }

  /** A body is encoded as the spelling of its values and the one text of bytes
      that stands for them with zeros for padding. */
  lemma EncodesExactly(values: seq<Value>, sig: Text, body: seq<byte>)
    ensures EncodeBody(values) == (sig, body) <==> sig == SpelledAll(values) && MarshalsAll(values, body, 0, false, true)
  {
    hide Concat, SignaturesOf, Spelled, EncodeAll, MarshalsAll;
    AllSpelled(values);
    AllExactly(values, body, 0, false);
  }
}
