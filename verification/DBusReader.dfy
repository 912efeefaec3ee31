/** The reader: a position in a buffer whose offset 0 is 8-byte aligned, moved
    past each value as it is read. */
module Readers {
  import opened Wrappers
  import opened Bytes
  import opened Signatures
  import opened Values
  import opened Bodies

  /** What a read answers, without the offset it stops at. */
  function Answer<T>(r: Result<(T, nat), DecodeError>): Result<T, DecodeError> {
    match r
    case Ok((v, _)) => Ok(v)
    case Err(e) => Err(e)
  }

  /** `first`, followed by what the rest of a list reads as. */
  function Prepend<T>(first: seq<T>, rest: Result<seq<T>, DecodeError>): Result<seq<T>, DecodeError> {
    match rest
    case Ok(s) => Ok(first + s)
    case Err(e) => Err(e)
  }

  function PrependAt<T>(first: seq<T>, rest: Result<(seq<T>, nat), DecodeError>): Result<(seq<T>, nat), DecodeError> {
    match rest
    case Ok((s, p)) => Ok((first + s, p))
    case Err(e) => Err(e)
  }

  lemma PrependNothing<T>(r: Result<seq<T>, DecodeError>)
    ensures Prepend([], r) == r
  {
    if r.Ok? {
      assert [] + r.value == r.value;
    }
  }

  lemma PrependOne<T>(first: seq<T>, x: T, r: Result<seq<T>, DecodeError>)
    ensures Prepend(first + [x], r) == Prepend(first, Prepend([x], r))
  {
    if r.Ok? {
      assert first + [x] + r.value == first + ([x] + r.value);
    }
  }

  lemma PrependAtNothing<T>(r: Result<(seq<T>, nat), DecodeError>)
    ensures PrependAt([], r) == r
  {
    if r.Ok? {
      assert [] + r.value.0 == r.value.0;
    }
  }

  lemma PrependAtOne<T>(first: seq<T>, x: T, r: Result<(seq<T>, nat), DecodeError>)
    ensures PrependAt(first + [x], r) == PrependAt(first, PrependAt([x], r))
  {
    if r.Ok? {
      assert first + [x] + r.value.0 == first + ([x] + r.value.0);
    }
  }

  /** Finds the end of the complete type `sig` starts with. */
  method CompleteTypeLen(sig: Text, depth: nat) returns (r: Result<nat, DecodeError>)
    ensures r == TypeLen(sig, depth)
    decreases Budget(depth), 0
  {
    hide ArrayLen, StructLen, FieldsLen;
    if depth > MAX_DEPTH {
      return Err(SignatureTooDeep);
    }
    if sig == [] {
      return Err(TruncatedSignature);
    }
    if IsBasic(sig[0]) {
      return Ok(1);
    }
    hide TypeLen;
    TypeLenCases(sig, depth);
    if sig[0] == ARRAY {
      var n :- CompleteTypeLen(sig[1..], depth + 1);
      return Ok(1 + n);
    } else if sig[0] == OPEN_STRUCT {
      var i :- FieldsEnd(sig, depth + 1);
      if i == 1 {
        return Err(EmptyStruct);
      }
      return Ok(i + 1);
    } else if sig[0] == OPEN_ENTRY {
      var k :- CompleteTypeLen(sig[1..], depth + 1);
      var v :- CompleteTypeLen(sig[1 + k..], depth + 1);
      if |sig| <= 1 + k + v || sig[1 + k + v] != CLOSE_ENTRY {
        return Err(BadDictEntry);
      }
      return Ok(k + v + 2);
    } else {
      return Err(BadSignatureCharacter(sig[0]));
    }
  }

  /** Finds the `)` that ends the fields of the struct type `sig` starts with. */
  method FieldsEnd(sig: Text, depth: nat) returns (r: Result<nat, DecodeError>)
    requires sig != []
    ensures r == Advance(1, FieldsLen(sig[1..], depth))
    decreases Budget(depth), 1
  {
    hide TypeLen, FieldsLen;
    var i := 1;
    while i >= |sig| || sig[i] != CLOSE_STRUCT
      invariant 1 <= i <= |sig|
      invariant FieldsLen(sig[1..], depth) == Advance(i - 1, FieldsLen(sig[i..], depth))
      decreases |sig| - i
    {
      FieldsLenCases(sig[i..], depth);
      if i >= |sig| {
        return Err(UnterminatedStruct);
      }
      var n :- CompleteTypeLen(sig[i..], depth);
      assert sig[i..][n..] == sig[i + n..];
      i := i + n;
    }
    FieldsLenCases(sig[i..], depth);
    return Ok(i);
  }

  /** A length `n` further than `r`. */
  function Advance(n: nat, r: Result<nat, DecodeError>): Result<nat, DecodeError> {
    match r
    case Ok(m) => Ok(n + m)
    case Err(e) => Err(e)
  }

  /** The three ways a type that is not basic is read. */
  lemma TypeLenCases(sig: Text, depth: nat)
    requires sig != [] && depth <= MAX_DEPTH && !IsBasic(sig[0])
    ensures sig[0] == ARRAY ==> TypeLen(sig, depth) == Advance(1, TypeLen(sig[1..], depth + 1))
    ensures sig[0] == OPEN_STRUCT ==>
              TypeLen(sig, depth) ==
              if FieldsLen(sig[1..], depth + 1) == Ok(0) then Err(EmptyStruct)
              else Advance(2, FieldsLen(sig[1..], depth + 1))
    ensures sig[0] == OPEN_ENTRY ==> TypeLen(sig, depth) == EntryLen(sig, depth)
    ensures sig[0] != ARRAY && sig[0] != OPEN_STRUCT && sig[0] != OPEN_ENTRY ==>
              TypeLen(sig, depth) == Err(BadSignatureCharacter(sig[0]))
  {
    hide FieldsLen;
  }

  lemma FieldsLenCases(sig: Text, depth: nat)
    ensures sig == [] ==> FieldsLen(sig, depth) == Err(UnterminatedStruct)
    ensures sig != [] && sig[0] == CLOSE_STRUCT ==> FieldsLen(sig, depth) == Ok(0)
    ensures sig != [] && sig[0] != CLOSE_STRUCT && TypeLen(sig, depth).Err? ==>
              FieldsLen(sig, depth) == Err(TypeLen(sig, depth).error)
    ensures sig != [] && sig[0] != CLOSE_STRUCT && TypeLen(sig, depth).Ok? ==>
              var n := TypeLen(sig, depth).value;
              FieldsLen(sig, depth) == Advance(n, FieldsLen(sig[n..], depth))
  {
    hide TypeLen;
  }

  /** Splits a signature into its complete types. */
  method Split(sig: Text) returns (r: Result<seq<Text>, DecodeError>)
    ensures r == SplitSignature(sig)
  {
    hide TypeLen;
    var out: seq<Text> := [];
    var rest := sig;
    PrependNothing(SplitSignature(sig));
    while rest != []
      invariant SplitSignature(sig) == Prepend(out, SplitSignature(rest))
      decreases |rest|
    {
      var n :- CompleteTypeLen(rest, 0);
      PrependOne(out, rest[..n], SplitSignature(rest[n..]));
      out := out + [rest[..n]];
      rest := rest[n..];
    }
    assert out + [] == out;
    return Ok(out);
  }

  class Reader {
    const buf: seq<byte>
    const big: bool
    var pos: nat

    constructor (buf: seq<byte>, pos: nat, big: bool)
      ensures this.buf == buf && this.pos == pos && this.big == big
    {
      this.buf := buf;
      this.pos := pos;
      this.big := big;
    }

    method Align(n: nat) returns (r: Result<nat, DecodeError>)
      requires IsAlignment(n)
      modifies this
      ensures r == AlignPos(buf, old(pos), n)
      ensures r.Ok? ==> pos == r.value
    {
      var pad := PadLen(pos, n);
      if pos + pad > |buf| {
        return Err(TruncatedPadding);
      }
      pos := pos + pad;
      return Ok(pos);
    }

    method TakeBytes(n: nat) returns (r: Result<seq<byte>, DecodeError>)
      modifies this
      ensures r == Answer(Take(buf, old(pos), n))
      ensures r.Ok? ==> pos == old(pos) + n <= |buf| && |r.value| == n
    {
      if pos + n > |buf| {
        return Err(TruncatedValue);
      }
      var s := buf[pos..pos + n];
      pos := pos + n;
      return Ok(s);
    }

    /** An unsigned integer of `k` bytes. */
    method Int(k: nat) returns (r: Result<nat, DecodeError>)
      modifies this
      ensures r == Answer(ReadInt(buf, old(pos), k, big))
      ensures r.Ok? ==> pos == old(pos) + k <= |buf| && r.value < Pow256(k)
    {
      var s :- TakeBytes(k);
      return Ok(FromBytes(s, big));
    }

    method Text(n: nat) returns (r: Result<Text, DecodeError>)
      modifies this
      ensures r == Answer(ReadText(buf, old(pos), n))
      ensures r.Ok? ==> pos == old(pos) + n + 1 <= |buf| && |r.value| == n
    {
      hide ValidUtf8;
      var s :- TakeBytes(n);
      var nul :- TakeBytes(1);
      if nul != [0] {
        return Err(NotNulTerminated);
      }
      if !ValidUtf8(s) {
        return Err(InvalidUtf8);
      }
      return Ok(s);
    }

    /** Reads one value of the complete type `sig`. */
    method Read(sig: Text) returns (r: Result<Value, DecodeError>)
      requires Complete(sig, 0)
      modifies this
      ensures r == Answer(ReadValue(buf, old(pos), big, sig, 0))
      ensures r.Ok? ==> pos == ReadValue(buf, old(pos), big, sig, 0).value.1
    {
      r := ReadDepth(sig, 0);
    }

    method ReadDepth(sig: Text, depth: nat) returns (r: Result<Value, DecodeError>)
      requires Complete(sig, 0)
      modifies this
      ensures r == Answer(ReadValue(buf, old(pos), big, sig, depth))
      ensures r.Ok? ==> pos == ReadValue(buf, old(pos), big, sig, depth).value.1
      decreases Budget(depth), 2, 0
    {
      hide TypeLen, PadLen, ReadNumber, ReadString, ReadVariant, ReadStruct, ReadArray;
      if depth > MAX_DEPTH {
        return Err(ValueTooDeep);
      }
      var _ :- Align(Alignment(sig));
      if IsNumber(sig[0]) {
        r := Number(sig[0]);
      } else if sig[0] == STRING || sig[0] == PATH || sig[0] == SIGNATURE {
        r := String(sig[0]);
      } else if sig[0] == VARIANT {
        r := VariantAt(depth);
      } else if sig[0] == OPEN_STRUCT {
        r := StructAt(sig, depth);
      } else if sig[0] == ARRAY {
        r := ArrayAt(sig, depth);
      } else {
        r := Err(CannotReadType(sig[0]));
      }
    }

    method Number(c: byte) returns (r: Result<Value, DecodeError>)
      requires IsNumber(c)
      modifies this
      ensures r == Answer(ReadNumber(buf, old(pos), big, c))
      ensures r.Ok? ==> pos == ReadNumber(buf, old(pos), big, c).value.1
    {
      hide NumberFromBits;
      var n :- Int(Alignment([c]));
      var v :- NumberFromBits(c, n);
      return Ok(v);
    }

    method String(c: byte) returns (r: Result<Value, DecodeError>)
      requires c == STRING || c == PATH || c == SIGNATURE
      modifies this
      ensures r == Answer(ReadString(buf, old(pos), big, c))
      ensures r.Ok? ==> pos == ReadString(buf, old(pos), big, c).value.1
    {
      hide ReadText;
      var n :- Int(if c == SIGNATURE then 1 else 4);
      var s :- Text(n);
      return Ok(if c == STRING then Str(s) else if c == PATH then Path(s) else Sig(s));
    }

    method VariantAt(depth: nat) returns (r: Result<Value, DecodeError>)
      requires depth <= MAX_DEPTH
      modifies this
      ensures r == Answer(ReadVariant(buf, old(pos), big, depth))
      ensures r.Ok? ==> pos == ReadVariant(buf, old(pos), big, depth).value.1
      decreases Budget(depth), 0, 0
    {
      hide TypeLen, ReadText, ReadValue, SplitSignature;
      var n :- Int(1);
      var inner :- Text(n);
      var types :- Split(inner);
      if |types| != 1 {
        return Err(NotOneCompleteType);
      }
      OneType(inner);
      var v :- ReadDepth(inner, depth + 1);
      return Ok(Variant(v));
    }

    method StructAt(sig: Text, depth: nat) returns (r: Result<Value, DecodeError>)
      requires Complete(sig, 0) && sig[0] == OPEN_STRUCT && depth <= MAX_DEPTH
      modifies this
      ensures r == Answer(ReadStruct(buf, old(pos), big, sig, depth))
      ensures r.Ok? ==> pos == ReadStruct(buf, old(pos), big, sig, depth).value.1
      decreases Budget(depth), 0, 0
    {
      hide TypeLen, SplitSignature, ReadFields;
      StructParts(sig);
      var types :- Split(Inner(sig));
      var fields :- Fields(types, depth + 1);
      return Ok(Struct(fields));
    }

    method Fields(types: seq<Text>, depth: nat) returns (r: Result<seq<Value>, DecodeError>)
      requires forall t :: t in types ==> Complete(t, 0)
      modifies this
      ensures r == Answer(ReadFields(buf, old(pos), big, types, depth))
      ensures r.Ok? ==> pos == ReadFields(buf, old(pos), big, types, depth).value.1
      decreases Budget(depth), 3, |types|
    {
      hide TypeLen, ReadValue;
      var fields: seq<Value> := [];
      assert types[0..] == types;
      PrependAtNothing(ReadFields(buf, pos, big, types, depth));
      for i := 0 to |types|
        invariant PrependAt(fields, ReadFields(buf, pos, big, types[i..], depth))
                  == ReadFields(buf, old(pos), big, types, depth)
      {
        assert types[i..][0] == types[i] && types[i..][1..] == types[i + 1..];
        var v :- ReadDepth(types[i], depth);
        PrependAtOne(fields, v, ReadFields(buf, pos, big, types[i + 1..], depth));
        fields := fields + [v];
      }
      assert fields + [] == fields;
      return Ok(fields);
    }

    method ArrayAt(sig: Text, depth: nat) returns (r: Result<Value, DecodeError>)
      requires Complete(sig, 0) && sig[0] == ARRAY && depth <= MAX_DEPTH
      modifies this
      ensures r == Answer(ReadArray(buf, old(pos), big, sig, depth))
      ensures r.Ok? ==> pos == ReadArray(buf, old(pos), big, sig, depth).value.1
      decreases Budget(depth), 0, 2
    {
      hide TypeLen, PadLen, ReadDict, ReadItems;
      ElementComplete(sig);
      var length :- Int(4);
      var elem := sig[1..];
      var _ :- Align(Alignment(elem));
      var end := pos + length;
      if end > |buf| {
        return Err(ArrayOverrunsBuffer);
      }
      if elem[0] == OPEN_ENTRY {
        var v :- DictAt(end, elem, depth);
        return Ok(v);
      }
      var items :- Items(end, elem, depth + 1);
      return Ok(Array(elem, items));
    }

    method Items(end: nat, elem: Text, depth: nat) returns (r: Result<seq<Value>, DecodeError>)
      requires Complete(elem, 0)
      modifies this
      ensures r == ReadItems(buf, old(pos), end, big, elem, depth)
      ensures r.Ok? ==> pos == end
      decreases Budget(depth), 3, 0
    {
      hide TypeLen, ReadValue;
      var items: seq<Value> := [];
      PrependNothing(ReadItems(buf, pos, end, big, elem, depth));
      while pos < end
        invariant ReadItems(buf, old(pos), end, big, elem, depth)
                  == Prepend(items, ReadItems(buf, pos, end, big, elem, depth))
        decreases end - pos
      {
        var v :- ReadDepth(elem, depth);
        PrependOne(items, v, ReadItems(buf, pos, end, big, elem, depth));
        items := items + [v];
      }
      if pos != end {
        return Err(ElementOverrunsArray);
      }
      assert items + [] == items;
      return Ok(items);
    }

    method DictAt(end: nat, elem: Text, depth: nat) returns (r: Result<Value, DecodeError>)
      requires Complete(elem, 1) && elem[0] == OPEN_ENTRY && depth <= MAX_DEPTH
      modifies this
      ensures r == ReadDict(buf, old(pos), end, big, elem, depth)
      ensures r.Ok? ==> pos == end
      decreases Budget(depth), 0, 1
    {
      hide TypeLen, ReadEntries;
      EntryParts(elem);
      var inner := Inner(elem);
      var k :- CompleteTypeLen(inner, depth);
      EntryHalves(elem, depth);
      var entries :- Entries(end, inner[..k], inner[k..], depth + 1);
      return Ok(Dict(inner[..k], inner[k..], entries));
    }

    method Entries(end: nat, key: Text, val: Text, depth: nat) returns (r: Result<seq<(Value, Value)>, DecodeError>)
      requires Complete(key, 0) && Complete(val, 0)
      modifies this
      ensures r == ReadEntries(buf, old(pos), end, big, key, val, depth)
      ensures r.Ok? ==> pos == end
      decreases Budget(depth), 3, 0
    {
      hide TypeLen, ReadValue, PadLen;
      var entries: seq<(Value, Value)> := [];
      PrependNothing(ReadEntries(buf, pos, end, big, key, val, depth));
      while pos < end
        invariant ReadEntries(buf, old(pos), end, big, key, val, depth)
                  == Prepend(entries, ReadEntries(buf, pos, end, big, key, val, depth))
        decreases end - pos
      {
        var _ :- Align(8);
        var k :- ReadDepth(key, depth);
        var v :- ReadDepth(val, depth);
        PrependOne(entries, (k, v), ReadEntries(buf, pos, end, big, key, val, depth));
        entries := entries + [(k, v)];
      }
      if pos != end {
        return Err(ElementOverrunsArray);
      }
      assert entries + [] == entries;
      return Ok(entries);
    }
  }

  /** Decodes a message body. */
  method Decode(sig: Text, body: seq<byte>, big: bool) returns (r: Result<seq<Value>, DecodeError>)
    ensures r == DecodeBody(sig, body, big)
  {
    hide TypeLen, ReadFields, SplitSignature;
    var reader := new Reader(body, 0, big);
    var types :- Split(sig);
    var out :- reader.Fields(types, 0);
    if reader.pos != |body| {
      return Err(TrailingBytes);
    }
    return Ok(out);
  }
}
