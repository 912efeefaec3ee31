/** Message bodies: lists of values with a signature. */
module Bodies {
  import opened Wrappers
  import opened Bytes
  import opened Signatures
  import opened Values
  import opened CodecRoundTrip
  import opened CodecSoundness

  function DecodeBody(sig: Text, body: seq<byte>, big: bool): Result<seq<Value>, DecodeError> {
    var types :- SplitSignature(sig);
    var (values, pos) :- ReadFields(body, 0, big, types, 0);
    if pos != |body| then Err(TrailingBytes) else Ok(values)
  }

  function EncodeBody(values: seq<Value>): (Text, seq<byte>) {
    (Concat(SignaturesOf(values)), EncodeAll(values, 0, false))
  }

  ghost predicate AllWellFormed(values: seq<Value>) {
    forall v | v in values :: WellFormed(v, 0)
  }

  /** Decoding an encoded body gives the values back, in either byte order. */
  lemma BodyRoundTrip(values: seq<Value>, big: bool)
    requires AllWellFormed(values)
    requires |EncodeAll(values, 0, big)| < LIMIT
    ensures DecodeBody(EncodeBody(values).0, EncodeAll(values, 0, big), big) == Ok(values)
  {
    hide WellFormed, TypeLen, SplitSignature, ReadFields, EncodeAll;
    var body := EncodeAll(values, 0, big);
    TypesComplete(values, 0);
    SplitConcat(SignaturesOf(values));
    assert body[0..0 + |body|] == body;
    FieldsRoundTrip(values, body, 0, big, 0);
  }

  /** A body that decodes holds values of exactly its signature, which encode
      to as many bytes. */
  lemma DecodedBodyIsExact(sig: Text, body: seq<byte>, big: bool)
    requires DecodeBody(sig, body, big).Ok?
    ensures var values := DecodeBody(sig, body, big).value;
            && AllWellFormed(values)
            && EncodeBody(values).0 == sig
            && |EncodeBody(values).1| == |body|
  {
    hide WellFormed, TypeLen, SplitSignature, ReadFields, EncodeAll;
    var types := SplitSignature(sig).value;
    FieldsAreSound(body, 0, big, types, 0);
    var (values, pos) := ReadFields(body, 0, big, types, 0).value;
    assert pos == 0 + |EncodeAll(values, 0, false)|;
  }

  /** Encoding what was decoded, in whichever order, gives a little-endian
      body of the same length and signature that decodes to the same values. */
  lemma ReencodedBodyDecodes(sig: Text, body: seq<byte>, big: bool)
    requires DecodeBody(sig, body, big).Ok? && |body| < LIMIT
    ensures var values := DecodeBody(sig, body, big).value;
            && EncodeBody(values).0 == sig
            && |EncodeBody(values).1| == |body|
            && DecodeBody(sig, EncodeBody(values).1, false) == Ok(values)
  {
    hide AllWellFormed, DecodeBody, EncodeAll;
    DecodedBodyIsExact(sig, body, big);
    BodyRoundTrip(DecodeBody(sig, body, big).value, false);
  }

  /** The values that survive encoding and decoding are exactly the well-formed
      ones, for encodings whose lengths fit their 32-bit prefixes. */
  lemma RoundTripsExactly(values: seq<Value>)
    requires |EncodeBody(values).1| < LIMIT
    ensures DecodeBody(EncodeBody(values).0, EncodeBody(values).1, false) == Ok(values) <==> AllWellFormed(values)
  {
    hide AllWellFormed, DecodeBody;
    var (sig, body) := EncodeBody(values);
    if AllWellFormed(values) {
      BodyRoundTrip(values, false);
    }
    if DecodeBody(sig, body, false) == Ok(values) {
      DecodedBodyIsExact(sig, body, false);
    }
  }
}
