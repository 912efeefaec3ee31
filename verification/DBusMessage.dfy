/** D-Bus messages: the fixed prefix, the header fields and the body. */
module Messages {
  import opened Wrappers
  import opened Bytes
  import opened Signatures
  import opened Values
  import opened CodecRoundTrip
  import opened CodecSoundness
  import opened Bodies
  import opened Writers
  import opened Readers

  const METHOD_CALL: byte := 1
  const METHOD_RETURN: byte := 2
  const ERROR: byte := 3
  const SIGNAL: byte := 4

  const FIELD_PATH: byte := 1
  const FIELD_INTERFACE: byte := 2
  const FIELD_MEMBER: byte := 3
  const FIELD_ERROR_NAME: byte := 4
  const FIELD_REPLY_SERIAL: byte := 5
  const FIELD_DESTINATION: byte := 6
  const FIELD_SENDER: byte := 7
  const FIELD_SIGNATURE: byte := 8
  const FIELD_UNIX_FDS: byte := 9

  /** The first byte of a little-endian and of a big-endian message. */
  const LITTLE: byte := 108 // 'l'
  const BIG: byte := 66 // 'B'

  const VERSION: byte := 1
  const PREFIX: nat := 16
  const MAX_MESSAGE: nat := 134217728

  /** The type of one header field, `(yv)`, and of all of them. */
  const FIELD_TYPE: Text := [OPEN_STRUCT, BYTE, VARIANT, CLOSE_STRUCT]
  const FIELDS_TYPE: Text := [ARRAY] + FIELD_TYPE

  datatype Message = Message(
    kind: byte,
    flags: byte,
    serial: u32,
    path: Option<Text>,
    iface: Option<Text>,
    member: Option<Text>,
    errorName: Option<Text>,
    replySerial: Option<u32>,
    destination: Option<Text>,
    sender: Option<Text>,
    signature: Text,
    unixFds: u32,
    body: seq<byte>
  )

  /** A message with only the parts the fixed prefix gives. */
  function Blank(kind: byte, flags: byte, serial: u32): Message {
    Message(kind, flags, serial, None, None, None, None, None, None, None, [], 0, [])
  }

  function Pad8(n: nat): nat {
    (n + 7) / 8 * 8
  }

  lemma Pad8IsPadding(n: nat)
    ensures Pad8(n) == n + PadLen(n, 8)
  {
    assert n == 8 * (n / 8) + n % 8;
  }

  function BigEndian(first: byte): Result<bool, DecodeError> {
    if first == LITTLE then Ok(false) else if first == BIG then Ok(true) else Err(UnknownByteOrder)
  }

  function PrefixU32(buf: seq<byte>, at: nat, big: bool): (n: u32)
    requires at + 4 <= |buf|
  {
    Pow256Values();
    FromBytes(buf[at..at + 4], big)
  }

  /** The length of a whole message, from its first 16 bytes. */
  function FrameLen(prefix: seq<byte>): (r: Result<nat, DecodeError>)
    requires |prefix| == PREFIX
    ensures r.Ok? ==> PREFIX <= r.value <= MAX_MESSAGE
  {
    var big :- BigEndian(prefix[0]);
    var total := Pad8(PREFIX + PrefixU32(prefix, 12, big)) + PrefixU32(prefix, 4, big);
    if total > MAX_MESSAGE then Err(MessageTooLarge) else Ok(total)
  }

  /** `m` with one decoded header field taken in; an unknown field or one of
      the wrong type changes nothing. */
  function TakeField(m: Message, f: Value): Message {
    if !f.Struct? || |f.fields| < 2 then m else
      var v, code := f.fields[|f.fields| - 1], f.fields[|f.fields| - 2];
      if !v.Variant? || !code.Byte? then m
      else TakeCoded(m, code.y, v.inner)
  }

  function TakeCoded(m: Message, code: byte, v: Value): Message {
    if code == FIELD_PATH && v.Path? then m.(path := Some(v.p))
    else if code == FIELD_INTERFACE && v.Str? then m.(iface := Some(v.s))
    else if code == FIELD_MEMBER && v.Str? then m.(member := Some(v.s))
    else if code == FIELD_ERROR_NAME && v.Str? then m.(errorName := Some(v.s))
    else if code == FIELD_REPLY_SERIAL && v.U32? then m.(replySerial := Some(v.u))
    else if code == FIELD_DESTINATION && v.Str? then m.(destination := Some(v.s))
    else if code == FIELD_SENDER && v.Str? then m.(sender := Some(v.s))
    else if code == FIELD_SIGNATURE && v.Sig? then m.(signature := v.g)
    else if code == FIELD_UNIX_FDS && v.U32? then m.(unixFds := v.u)
    else m
  }

  function TakeFields(m: Message, fields: seq<Value>): Message
    decreases |fields|
  {
    if fields == [] then m else TakeFields(TakeField(m, fields[0]), fields[1..])
  }

  lemma FieldsTypeComplete()
    ensures Complete(FIELD_TYPE, 0) && Complete(FIELDS_TYPE, 0)
  {
    assert [VARIANT, CLOSE_STRUCT][1..] == [CLOSE_STRUCT];
    forall depth: nat | depth <= 1
      ensures Complete(FIELD_TYPE, depth)
    {
      var inner := FIELD_TYPE[1..];
      assert inner == [BYTE, VARIANT, CLOSE_STRUCT];
      assert inner[1..] == [VARIANT, CLOSE_STRUCT];
      assert FieldsLen([CLOSE_STRUCT], depth + 1) == Ok(0);
      assert FieldsLen([VARIANT, CLOSE_STRUCT], depth + 1) == Ok(1);
      assert FieldsLen(inner, depth + 1) == Ok(2);
      assert StructLen(FIELD_TYPE, depth) == Ok(4);
    }
    assert FIELDS_TYPE[1..] == FIELD_TYPE;
    assert Complete(FIELD_TYPE, 1);
    assert ArrayLen(FIELDS_TYPE, 0) == Ok(5);
  }

  /** Reading the header fields always gives an array. */
  lemma FieldsAreAnArray(buf: seq<byte>, big: bool)
    requires Complete(FIELDS_TYPE, 0) && ReadValue(buf, 12, big, FIELDS_TYPE, 0).Ok?
    ensures ReadValue(buf, 12, big, FIELDS_TYPE, 0).value.0.Array?
  {
    hide TypeLen, WellFormed, ReadValue, Encode;
    ReadIsSound(buf, 12, big, FIELDS_TYPE, 0);
    var v := ReadValue(buf, 12, big, FIELDS_TYPE, 0).value.0;
    assert Signature(v)[0] == ARRAY && Signature(v)[1] == OPEN_STRUCT;
  }

  lemma FrameCoversHeader(buf: seq<byte>, big: bool)
    requires |buf| >= PREFIX && BigEndian(buf[0]) == Ok(big) && FrameLen(buf[..PREFIX]) == Ok(|buf|)
    ensures |buf| == Pad8(PREFIX + PrefixU32(buf, 12, big)) + PrefixU32(buf, 4, big)
  {
    assert buf[..PREFIX][12..16] == buf[12..16];
    assert buf[..PREFIX][4..8] == buf[4..8];
  }

  /** Parses the header of one complete message, leaving the body in its own
      byte order; also whether that is big-endian. */
  function ParseHeader(buf: seq<byte>): (r: Result<(Message, bool), DecodeError>) {
    if |buf| < PREFIX then Err(ShortHeader) else
      var total :- FrameLen(buf[..PREFIX]);
      if |buf| != total then Err(LengthMismatch)
      else if buf[3] != VERSION then Err(UnsupportedVersion)
      else
        var big :- BigEndian(buf[0]);
        FieldsTypeComplete();
        FrameCoversHeader(buf, big);
        var (fields, pos) :- ReadValue(buf, 12, big, FIELDS_TYPE, 0);
        FieldsAreAnArray(buf, big);
        var m := TakeFields(Blank(buf[1], buf[2], PrefixU32(buf, 8, big)), fields.items);
        var end := PREFIX + PrefixU32(buf, 12, big);
        if pos != end then Err(HeaderFieldsMismatch) else Ok((m.(body := buf[Pad8(end)..]), big))
  }

  /** Parses one complete message whose body decodes, in little-endian form. */
  function Parse(buf: seq<byte>): Result<Message, DecodeError> {
    var (m, big) :- ParseHeader(buf);
    var args :- DecodeBody(m.signature, m.body, big);
    Ok(if big then m.(body := EncodeBody(args).1) else m)
  }

  function Field(code: byte, v: Value): Value {
    Struct([Byte(code), Variant(v)])
  }

  /** A header field written only when it is `present`. */
  function FieldIf(present: bool, code: byte, v: Value): seq<Value> {
    if present then [Field(code, v)] else []
  }

  /** The header fields written for `m`: never the sender. */
  function FieldsOf(m: Message): seq<Value> {
    FieldIf(m.path.Some?, FIELD_PATH, Path(m.path.GetOr([])))
    + (FieldIf(m.iface.Some?, FIELD_INTERFACE, Str(m.iface.GetOr([])))
       + (FieldIf(m.member.Some?, FIELD_MEMBER, Str(m.member.GetOr([])))
          + (FieldIf(m.errorName.Some?, FIELD_ERROR_NAME, Str(m.errorName.GetOr([])))
             + (FieldIf(m.replySerial.Some?, FIELD_REPLY_SERIAL, U32(m.replySerial.GetOr(0)))
                + (FieldIf(m.destination.Some?, FIELD_DESTINATION, Str(m.destination.GetOr([])))
                   + (FieldIf(m.signature != [], FIELD_SIGNATURE, Sig(m.signature))
                      + FieldIf(m.unixFds > 0, FIELD_UNIX_FDS, U32(m.unixFds))))))))
  }

  function EncodeHeader(m: Message, serial: u32): seq<byte> {
    [LITTLE, m.kind, m.flags, VERSION] + Word(|m.body|, false) + ToBytes(serial, 4, false)
    + Encode(Array(FIELD_TYPE, FieldsOf(m)), 12, false)
  }

  /** `m` encoded with `serial`. */
  function EncodeMessage(m: Message, serial: u32): seq<byte> {
    var header := EncodeHeader(m, serial);
    header + Zeros(PadLen(|header|, 8)) + m.body
  }
}
