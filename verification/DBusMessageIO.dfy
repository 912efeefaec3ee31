/** Encoding and parsing messages with the writer and the reader. */
module MessageIO {
  import opened Wrappers
  import opened Bytes
  import opened Signatures
  import opened Values
  import opened CodecRoundTrip
  import opened Bodies
  import opened Writers
  import opened Readers
  import opened Messages

  method EncodeWith(m: Message, serial: u32) returns (bytes: seq<byte>)
    ensures bytes == EncodeMessage(m, serial)
  {
    hide FieldIf, EncodeMessage;
    ghost var all := FieldsOf(m);
    ghost var r8 := FieldIf(m.unixFds > 0, FIELD_UNIX_FDS, U32(m.unixFds));
    ghost var r7 := FieldIf(m.signature != [], FIELD_SIGNATURE, Sig(m.signature)) + r8;
    ghost var r6 := FieldIf(m.destination.Some?, FIELD_DESTINATION, Str(m.destination.GetOr([]))) + r7;
    ghost var r5 := FieldIf(m.replySerial.Some?, FIELD_REPLY_SERIAL, U32(m.replySerial.GetOr(0))) + r6;
    ghost var r4 := FieldIf(m.errorName.Some?, FIELD_ERROR_NAME, Str(m.errorName.GetOr([]))) + r5;
    ghost var r3 := FieldIf(m.member.Some?, FIELD_MEMBER, Str(m.member.GetOr([]))) + r4;
    ghost var r2 := FieldIf(m.iface.Some?, FIELD_INTERFACE, Str(m.iface.GetOr([]))) + r3;
    var fields := PushIf([], m.path.Some?, FIELD_PATH, Path(m.path.GetOr([])), r2);
    fields := PushIf(fields, m.iface.Some?, FIELD_INTERFACE, Str(m.iface.GetOr([])), r3);
    fields := PushIf(fields, m.member.Some?, FIELD_MEMBER, Str(m.member.GetOr([])), r4);
    fields := PushIf(fields, m.errorName.Some?, FIELD_ERROR_NAME, Str(m.errorName.GetOr([])), r5);
    fields := PushIf(fields, m.replySerial.Some?, FIELD_REPLY_SERIAL, U32(m.replySerial.GetOr(0)), r6);
    fields := PushIf(fields, m.destination.Some?, FIELD_DESTINATION, Str(m.destination.GetOr([])), r7);
    fields := PushIf(fields, m.signature != [], FIELD_SIGNATURE, Sig(m.signature), r8);
    fields := PushIf(fields, m.unixFds > 0, FIELD_UNIX_FDS, U32(m.unixFds), []);
    assert [] + all == all && r8 + [] == r8 && fields + [] == fields;
    bytes := EncodeFields(m, serial, fields);
  }

  /** Pushes a field that is present; `rest` are the fields still to come. */
  method PushIf(fields: seq<Value>, present: bool, code: byte, v: Value, ghost rest: seq<Value>)
    returns (out: seq<Value>)
    ensures out == fields + FieldIf(present, code, v)
    ensures out + rest == fields + (FieldIf(present, code, v) + rest)
  {
    out := if present then fields + [Field(code, v)] else fields;
  }

  method EncodeFields(m: Message, serial: u32, fields: seq<Value>) returns (bytes: seq<byte>)
    requires fields == FieldsOf(m)
    ensures bytes == EncodeMessage(m, serial)
  {
    hide PadLen, Encode, ToBytes, FieldsOf;
    var w := new Writer();
    w.buf := [LITTLE, m.kind, m.flags, VERSION];
    PadLenAligns(4, 4);
    w.PutU32(|m.body| % 0x1_0000_0000);
    PadLenAligns(8, 4);
    w.PutU32(serial);
    FieldsNameElements(m);
    w.Write(Array(FIELD_TYPE, fields));
    w.Align(8);
    w.buf := w.buf + m.body;
    bytes := w.buf;
  }

  lemma FieldIfNamesElements(present: bool, code: byte, v: Value)
    requires v.Path? || v.Str? || v.U32? || v.Sig?
    ensures forall f | f in FieldIf(present, code, v) :: NamesElements(f)
  {
    assert NamesElements(v);
    assert NamesElements(Variant(v)) && NamesElements(Byte(code));
    assert NamesElements(Field(code, v));
  }

  lemma FieldsNameElements(m: Message)
    ensures NamesElements(Array(FIELD_TYPE, FieldsOf(m)))
  {
    hide FieldIf;
    FieldIfNamesElements(m.path.Some?, FIELD_PATH, Path(m.path.GetOr([])));
    FieldIfNamesElements(m.iface.Some?, FIELD_INTERFACE, Str(m.iface.GetOr([])));
    FieldIfNamesElements(m.member.Some?, FIELD_MEMBER, Str(m.member.GetOr([])));
    FieldIfNamesElements(m.errorName.Some?, FIELD_ERROR_NAME, Str(m.errorName.GetOr([])));
    FieldIfNamesElements(m.replySerial.Some?, FIELD_REPLY_SERIAL, U32(m.replySerial.GetOr(0)));
    FieldIfNamesElements(m.destination.Some?, FIELD_DESTINATION, Str(m.destination.GetOr([])));
    FieldIfNamesElements(m.signature != [], FIELD_SIGNATURE, Sig(m.signature));
    FieldIfNamesElements(m.unixFds > 0, FIELD_UNIX_FDS, U32(m.unixFds));
    forall f | f in FieldsOf(m)
      ensures NamesElements(f)
    {
      hide NamesElements;
    }
  }

  /** Parses the header of one complete message, taking in one field after
      another. */
  method ParseHeaderOf(buf: seq<byte>) returns (r: Result<(Message, bool), DecodeError>)
    ensures r == ParseHeader(buf)
  {
    hide TypeLen, ReadValue, FrameLen, PrefixU32, Pad8, TakeField;
    if |buf| < PREFIX {
      return Err(ShortHeader);
    }
    var total :- FrameLen(buf[..PREFIX]);
    if |buf| != total {
      return Err(LengthMismatch);
    }
    if buf[3] != VERSION {
      return Err(UnsupportedVersion);
    }
    var big :- BigEndian(buf[0]);
    FieldsTypeComplete();
    FrameCoversHeader(buf, big);
    var m := Blank(buf[1], buf[2], PrefixU32(buf, 8, big));
    var reader := new Reader(buf, 12, big);
    var v :- reader.Read(FIELDS_TYPE);
    FieldsAreAnArray(buf, big);
    var fields := v.items;
    ghost var all := TakeFields(m, fields);
    assert fields[0..] == fields;
    for i := 0 to |fields|
      invariant TakeFields(m, fields[i..]) == all
    {
      assert fields[i..][0] == fields[i] && fields[i..][1..] == fields[i + 1..];
      m := TakeField(m, fields[i]);
    }
    var end := PREFIX + PrefixU32(buf, 12, big);
    if reader.pos != end {
      return Err(HeaderFieldsMismatch);
    }
    m := m.(body := buf[Pad8(end)..]);
    return Ok((m, big));
  }

  /** Parses one complete message, replacing a big-endian body. */
  method ParseOf(buf: seq<byte>) returns (r: Result<Message, DecodeError>)
    ensures r == Parse(buf)
  {
    hide ParseHeader, DecodeBody, EncodeBody;
    var header :- ParseHeaderOf(buf);
    var (m, big) := header;
    var args :- Decode(m.signature, m.body, big);
    if big {
      m := m.(body := EncodeBody(args).1);
    }
    return Ok(m);
  }
}
