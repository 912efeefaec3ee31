/** What encoding and parsing messages guarantee together. */
module MessageTheorems {
  import opened Wrappers
  import opened Bytes
  import opened Signatures
  import opened Values
  import opened CodecRoundTrip
  import opened Bodies
  import opened Messages

  /** A header that can be written: its strings are UTF-8, as the program's
      strings always are, and its signature fits in a header field. */
  ghost predicate HeaderOk(m: Message) {
    && TextOk(m.path) && TextOk(m.iface) && TextOk(m.member) && TextOk(m.errorName) && TextOk(m.destination)
    && ValidUtf8(m.signature) && |m.signature| < 256
  }

  ghost predicate TextOk(s: Option<Text>) {
    s.Some? ==> ValidUtf8(s.value)
  }

  /** What a receiver sees of `m` sent with `serial`. */
  function Received(m: Message, serial: u32): Message {
    m.(serial := serial, sender := None)
  }

  /** Taking in a header field written only when it is `present`. */
  lemma TakeIf(m: Message, present: bool, code: byte, v: Value, rest: seq<Value>)
    ensures TakeFields(m, FieldIf(present, code, v) + rest)
            == TakeFields(if present then TakeCoded(m, code, v) else m, rest)
  {
    var fields := FieldIf(present, code, v) + rest;
    if present {
      assert fields[0] == Field(code, v) && fields[1..] == rest;
    } else {
      assert fields == rest;
    }
  }

  lemma TakeLast(m: Message, present: bool, code: byte, v: Value)
    ensures TakeFields(m, FieldIf(present, code, v)) == if present then TakeCoded(m, code, v) else m
  {
    TakeIf(m, present, code, v, []);
    assert FieldIf(present, code, v) + [] == FieldIf(present, code, v);
  }

  /** The header fields written for a message describe all of it but its
      prefix, its sender and its body. */
  lemma FieldsDescribe(m: Message, serial: u32)
    ensures TakeFields(Blank(m.kind, m.flags, serial), FieldsOf(m)) == Received(m, serial).(body := [])
  {
    hide TakeFields, FieldIf;
    var m0 := Blank(m.kind, m.flags, serial);
    var m1 := m0.(path := m.path);
    var m2 := m1.(iface := m.iface);
    var m3 := m2.(member := m.member);
    var m4 := m3.(errorName := m.errorName);
    var m5 := m4.(replySerial := m.replySerial);
    var m6 := m5.(destination := m.destination);
    var m7 := m6.(signature := m.signature);
    var r8 := FieldIf(m.unixFds > 0, FIELD_UNIX_FDS, U32(m.unixFds));
    var r7 := FieldIf(m.signature != [], FIELD_SIGNATURE, Sig(m.signature)) + r8;
    var r6 := FieldIf(m.destination.Some?, FIELD_DESTINATION, Str(m.destination.GetOr([]))) + r7;
    var r5 := FieldIf(m.replySerial.Some?, FIELD_REPLY_SERIAL, U32(m.replySerial.GetOr(0))) + r6;
    var r4 := FieldIf(m.errorName.Some?, FIELD_ERROR_NAME, Str(m.errorName.GetOr([]))) + r5;
    var r3 := FieldIf(m.member.Some?, FIELD_MEMBER, Str(m.member.GetOr([]))) + r4;
    var r2 := FieldIf(m.iface.Some?, FIELD_INTERFACE, Str(m.iface.GetOr([]))) + r3;
    TakeIf(m0, m.path.Some?, FIELD_PATH, Path(m.path.GetOr([])), r2);
    TakeIf(m1, m.iface.Some?, FIELD_INTERFACE, Str(m.iface.GetOr([])), r3);
    TakeIf(m2, m.member.Some?, FIELD_MEMBER, Str(m.member.GetOr([])), r4);
    TakeIf(m3, m.errorName.Some?, FIELD_ERROR_NAME, Str(m.errorName.GetOr([])), r5);
    TakeIf(m4, m.replySerial.Some?, FIELD_REPLY_SERIAL, U32(m.replySerial.GetOr(0)), r6);
    TakeIf(m5, m.destination.Some?, FIELD_DESTINATION, Str(m.destination.GetOr([])), r7);
    TakeIf(m6, m.signature != [], FIELD_SIGNATURE, Sig(m.signature), r8);
    TakeLast(m7, m.unixFds > 0, FIELD_UNIX_FDS, U32(m.unixFds));
  }

  lemma FieldWellFormed(code: byte, v: Value)
    requires v.Path? || v.Str? || v.U32? || v.Sig?
    requires v.Path? ==> ValidUtf8(v.p)
    requires v.Str? ==> ValidUtf8(v.s)
    requires v.Sig? ==> ValidUtf8(v.g) && |v.g| < 256
    ensures Signature(Field(code, v)) == FIELD_TYPE && WellFormed(Field(code, v), 1)
  {
    hide ArrayLen, StructLen, EntryLen;
    FieldsTypeComplete();
    var f := Field(code, v);
    assert SignaturesOf(f.fields)[0] == [BYTE] && SignaturesOf(f.fields)[1] == [VARIANT];
    assert SignaturesOf(f.fields) == [[BYTE], [VARIANT]];
    assert [[BYTE], [VARIANT]][1..] == [[VARIANT]];
    assert Concat([[VARIANT]]) == [VARIANT] + Concat([]);
    assert Concat([[BYTE], [VARIANT]]) == [BYTE, VARIANT];
    assert Signature(f) == FIELD_TYPE;
    assert WellFormed(v, 3);
    assert WellFormed(Variant(v), 2) && WellFormed(Byte(code), 2);
  }

  ghost predicate FieldFits(f: Value) {
    Signature(f) == FIELD_TYPE && WellFormed(f, 1)
  }

  lemma FieldIfFits(present: bool, code: byte, v: Value)
    requires v.Path? || v.Str? || v.U32? || v.Sig?
    requires v.Path? ==> ValidUtf8(v.p)
    requires v.Str? ==> ValidUtf8(v.s)
    requires v.Sig? ==> ValidUtf8(v.g) && |v.g| < 256
    ensures forall f | f in FieldIf(present, code, v) :: FieldFits(f)
  {
    hide TypeLen, ValidUtf8, WellFormed, Signature;
    FieldWellFormed(code, v);
  }

  lemma FieldsFit(m: Message)
    requires HeaderOk(m)
    ensures forall f | f in FieldsOf(m) :: FieldFits(f)
  {
    hide FieldIf, FieldFits;
    assert ValidUtf8([]);
    FieldIfFits(m.path.Some?, FIELD_PATH, Path(m.path.GetOr([])));
    FieldIfFits(m.iface.Some?, FIELD_INTERFACE, Str(m.iface.GetOr([])));
    FieldIfFits(m.member.Some?, FIELD_MEMBER, Str(m.member.GetOr([])));
    FieldIfFits(m.errorName.Some?, FIELD_ERROR_NAME, Str(m.errorName.GetOr([])));
    FieldIfFits(m.replySerial.Some?, FIELD_REPLY_SERIAL, U32(m.replySerial.GetOr(0)));
    FieldIfFits(m.destination.Some?, FIELD_DESTINATION, Str(m.destination.GetOr([])));
    FieldIfFits(m.signature != [], FIELD_SIGNATURE, Sig(m.signature));
    FieldIfFits(m.unixFds > 0, FIELD_UNIX_FDS, U32(m.unixFds));
  }

  lemma FieldsWellFormed(m: Message)
    requires HeaderOk(m)
    ensures WellFormed(Array(FIELD_TYPE, FieldsOf(m)), 0)
  {
    hide TypeLen, FieldsOf, HeaderOk;
    FieldsTypeComplete();
    FieldsFit(m);
    forall f | f in FieldsOf(m)
      ensures Signature(f) == FIELD_TYPE && WellFormed(f, 1)
    {
      assert FieldFits(f);
    }
  }

  /** The bytes of the header fields, without their length. */
  function FieldBytes(m: Message): seq<byte> {
    EncodeAll(FieldsOf(m), PREFIX, false)
  }

  lemma FieldsEncoding(m: Message)
    ensures Encode(Array(FIELD_TYPE, FieldsOf(m)), 12, false) == Word(|FieldBytes(m)|, false) + FieldBytes(m)
  {
    hide EncodeAll, Word, FieldsOf;
    var v := Array(FIELD_TYPE, FieldsOf(m));
    assert Signature(v) == FIELDS_TYPE;
    assert PadLen(12, Alignment(FIELDS_TYPE)) == 0 && Zeros(0) == [];
    assert ArrayStart(12, FIELD_TYPE) == PREFIX;
    assert ArrayHeader(12, FIELD_TYPE, |FieldBytes(m)|, false) == Word(|FieldBytes(m)|, false) + [];
    assert Encode(v, 12, false) == [] + Payload(v, 12, false);
  }

  /** An encoded message is its prefix with both lengths, its header fields,
      padding, and its body. */
  lemma Layout(m: Message, serial: u32)
    ensures var n := |FieldBytes(m)|;
            EncodeMessage(m, serial) ==
            [LITTLE, m.kind, m.flags, VERSION] + Word(|m.body|, false) + ToBytes(serial, 4, false)
            + Word(n, false) + FieldBytes(m) + Zeros(PadLen(PREFIX + n, 8)) + m.body
  {
    hide EncodeAll, Word, ToBytes, FieldsOf, Encode, PadLen;
    FieldsEncoding(m);
  }

  lemma LayoutLength(m: Message, serial: u32)
    ensures |EncodeMessage(m, serial)| == Pad8(PREFIX + |FieldBytes(m)|) + |m.body|
    ensures EncodeMessage(m, serial)[Pad8(PREFIX + |FieldBytes(m)|)..] == m.body
    ensures |EncodeMessage(m, serial)| >= PREFIX + |FieldBytes(m)|
  {
    hide EncodeMessage, FieldBytes, Word, ToBytes, PadLen;
    Layout(m, serial);
    Pad8IsPadding(PREFIX + |FieldBytes(m)|);
  }

  lemma LayoutPrefix(m: Message, serial: u32)
    requires |EncodeMessage(m, serial)| <= MAX_MESSAGE
    ensures |EncodeMessage(m, serial)| >= PREFIX
    ensures EncodeMessage(m, serial)[..4] == [LITTLE, m.kind, m.flags, VERSION]
    ensures PrefixU32(EncodeMessage(m, serial), 4, false) == |m.body|
    ensures PrefixU32(EncodeMessage(m, serial), 8, false) == serial
    ensures PrefixU32(EncodeMessage(m, serial), 12, false) == |FieldBytes(m)|
  {
    hide EncodeMessage, FieldBytes, Word, ToBytes, PadLen, Pad8, PrefixU32;
    Layout(m, serial);
    LayoutLength(m, serial);
    var bytes := EncodeMessage(m, serial);
    LengthU32At(bytes, 4, |m.body|);
    U32At(bytes, 8, serial);
    LengthU32At(bytes, 12, |FieldBytes(m)|);
  }

  lemma LayoutFields(m: Message, serial: u32)
    ensures At(EncodeMessage(m, serial), 12, Encode(Array(FIELD_TYPE, FieldsOf(m)), 12, false))
  {
    hide EncodeMessage, FieldBytes, Word, ToBytes, PadLen, Encode;
    Layout(m, serial);
    FieldsEncoding(m);
  }

  lemma U32At(buf: seq<byte>, at: nat, n: u32)
    requires At(buf, at, ToBytes(n, 4, false))
    ensures PrefixU32(buf, at, false) == n
  {
    Pow256Values();
    IntegerRoundTrip(n, 4, false);
  }

  lemma LengthU32At(buf: seq<byte>, at: nat, n: nat)
    requires n < LIMIT && At(buf, at, Word(n, false))
    ensures PrefixU32(buf, at, false) == n
  {
    hide ToBytes;
    U32At(buf, at, n);
  }

  lemma PrefixKeepsU32(buf: seq<byte>, at: nat, big: bool)
    requires at + 4 <= PREFIX <= |buf|
    ensures PrefixU32(buf[..PREFIX], at, big) == PrefixU32(buf, at, big)
  {
    assert buf[..PREFIX][at..at + 4] == buf[at..at + 4];
  }

  /** The first 16 bytes of an encoded message tell its whole length. */
  lemma EncodedFrameLen(m: Message, serial: u32)
    requires |EncodeMessage(m, serial)| <= MAX_MESSAGE
    ensures |EncodeMessage(m, serial)| >= PREFIX
    ensures FrameLen(EncodeMessage(m, serial)[..PREFIX]) == Ok(|EncodeMessage(m, serial)|)
  {
    hide EncodeMessage, FieldBytes, Pad8, PrefixU32;
    LayoutLength(m, serial);
    LayoutPrefix(m, serial);
    var bytes := EncodeMessage(m, serial);
    assert bytes[0] == bytes[..4][0];
    PrefixKeepsU32(bytes, 4, false);
    PrefixKeepsU32(bytes, 12, false);
  }

  /** The header of an encoded message gives everything of it back but its
      sender. */
  lemma EncodedHeader(m: Message, serial: u32)
    requires HeaderOk(m) && |EncodeMessage(m, serial)| <= MAX_MESSAGE
    ensures ParseHeader(EncodeMessage(m, serial)) == Ok((Received(m, serial), false))
  {
    hide EncodeMessage, EncodeAll, Encode, ReadValue, FrameLen, TypeLen, WellFormed, FieldsOf, HeaderOk, Pad8,
         PrefixU32, At, TakeFields;
    LayoutLength(m, serial);
    LayoutPrefix(m, serial);
    LayoutFields(m, serial);
    EncodedFrameLen(m, serial);
    var bytes := EncodeMessage(m, serial);
    var fields := Array(FIELD_TYPE, FieldsOf(m));
    assert forall i | 0 <= i < 4 :: bytes[i] == bytes[..4][i];
    FieldsTypeComplete();
    FieldsWellFormed(m);
    FrameCoversHeader(bytes, false);
    FieldsEncoding(m);
    assert Signature(fields) == FIELDS_TYPE;
    ValueRoundTrip(fields, bytes, 12, false, 0);
    FieldsDescribe(m, serial);
  }

  /** Parsing an encoded message gives it back, with its serial set, its
      sender absent and its body byte for byte, exactly when its body matches
      its signature. */
  lemma MessageRoundTrip(m: Message, serial: u32)
    requires HeaderOk(m) && |EncodeMessage(m, serial)| <= MAX_MESSAGE
    ensures DecodeBody(m.signature, m.body, false).Ok? <==> Parse(EncodeMessage(m, serial)) == Ok(Received(m, serial))
  {
    hide ParseHeader, EncodeMessage, DecodeBody, EncodeBody, HeaderOk, FrameLen;
    EncodedHeader(m, serial);
  }

  /** Every message that parses, whichever its byte order, has arguments of
      exactly its signature; a big-endian body has been replaced by a
      little-endian one of the same length with the same arguments. */
  lemma ParsedArgumentsDecode(buf: seq<byte>)
    requires Parse(buf).Ok?
    ensures ParseHeader(buf).Ok?
    ensures var m := Parse(buf).value;
            var (header, big) := ParseHeader(buf).value;
            var args := DecodeBody(header.signature, header.body, big);
            && args.Ok?
            && DecodeBody(m.signature, m.body, false) == args
            && Concat(SignaturesOf(args.value)) == m.signature
            && |m.body| == |header.body|
            && m == header.(body := m.body)
            && (!big ==> m == header)
  {
    hide DecodeBody, EncodeBody;
    var (header, big) := ParseHeader(buf).value;
    BodyIsShort(buf);
    ReencodedBodyDecodes(header.signature, header.body, big);
    BodySignature(DecodeBody(header.signature, header.body, big).value);
  }

  lemma BodySignature(values: seq<Value>)
    ensures EncodeBody(values).0 == Concat(SignaturesOf(values))
  {
  }

  lemma BodyIsShort(buf: seq<byte>)
    requires ParseHeader(buf).Ok?
    ensures |ParseHeader(buf).value.0.body| <= MAX_MESSAGE
  {
    hide ReadValue, TypeLen, TakeFields, FrameLen, PrefixU32, Pad8;
    FrameCoversHeader(buf, BigEndian(buf[0]).value);
  }
}
