/** The writer: it appends to a buffer whose offset 0 is 8-byte aligned, and
    fills in the length of an array once its elements are written. */
module Writers {
  import opened Wrappers
  import opened Bytes
  import opened Signatures
  import opened Values

  /** Every array in `v` names an element type. The program panics on one
      that does not. */
  predicate NamesElements(v: Value)
    decreases v
  {
    match v
    case Array(elem, items) => elem != [] && forall i | i in items :: NamesElements(i)
    case Dict(_, _, entries) => forall e | e in entries :: NamesElements(e.0) && NamesElements(e.1)
    case Struct(fields) => forall f | f in fields :: NamesElements(f)
    case Variant(inner) => NamesElements(inner)
    case _ => true
  }

  class Writer {
    var buf: seq<byte>

    constructor ()
      ensures buf == []
    {
      buf := [];
    }

    method Align(n: nat)
      requires IsAlignment(n)
      modifies this
      ensures buf == old(buf) + Zeros(PadLen(|old(buf)|, n))
    {
      ghost var pad := PadLen(|buf|, n);
      PadLenAligns(|buf|, n);
      ghost var k := 0;
      while |buf| % n != 0
        invariant k <= pad && buf == old(buf) + Zeros(k)
        decreases pad - k
      {
        NoEarlierMultiple(|old(buf)|, n, k);
        buf := buf + [0];
        k := k + 1;
      }
      NoEarlierMultiple(|old(buf)|, n, k);
    }

    method PutU32(v: u32)
      modifies this
      ensures buf == old(buf) + Zeros(PadLen(|old(buf)|, 4)) + ToBytes(v, 4, false)
    {
      Align(4);
      buf := buf + ToBytes(v, 4, false);
    }

    method PutString(s: Text)
      modifies this
      ensures buf == old(buf) + Zeros(PadLen(|old(buf)|, 4)) + Word(|s|, false) + s + [0]
    {
      PutU32(|s| % 0x1_0000_0000);
      buf := buf + s;
      buf := buf + [0];
    }

    method PutSignature(s: Text)
      modifies this
      ensures buf == old(buf) + SignatureBytes(s)
    {
      buf := buf + [|s| % 256];
      buf := buf + s;
      buf := buf + [0];
    }

    /** Appends `v`: exactly its encoding at the offset the buffer has reached. */
    method Write(v: Value)
      requires NamesElements(v)
      modifies this
      ensures buf == old(buf) + Encode(v, |old(buf)|, false)
      decreases v, 1
    {
      hide PadLen, Payload, NamesElements, Alignment, Signature;
      Align(Alignment(Signature(v)));
      PadLenAligns(|old(buf)|, Alignment(Signature(v)));
      WritePayload(v);
    }

    /** Appends `v` to a buffer already aligned for it. */
    method WritePayload(v: Value)
      requires NamesElements(v)
      requires |buf| % Alignment(Signature(v)) == 0
      modifies this
      ensures buf == old(buf) + Payload(v, |old(buf)|, false)
      decreases v, 0
    {
      hide PadLen, Encode, EncodeAll, EncodeEntries, ToBytes;
      PadLenAligns(|buf|, 4);
      match v {
        case Str(s) => PutString(s);
        case Path(s) => PutString(s);
        case Sig(s) => PutSignature(s);
        case Variant(inner) =>
          PutSignature(Signature(inner));
          Write(inner);
        case Struct(fields) => WriteAll(fields);
        case Array(elem, items) => WriteArray(elem, items);
        case Dict(key, val, entries) => WriteDict(key, val, entries);
        case _ => WriteNumber(v);
      }
    }

    method WriteNumber(v: Value)
      requires NumberValue(v)
      requires |buf| % Alignment(Signature(v)) == 0
      modifies this
      ensures buf == old(buf) + ToBytes(NumberBits(v), Alignment(Signature(v)), false)
    {
      hide PadLen, ToBytes;
      PadLenAligns(|buf|, 4);
      Pow256Values();
      match v {
        case Byte(y) =>
          ByteIsItself(y);
          buf := buf + [y];
        case Bool(b) => PutU32(if b then 1 else 0);
        case I16(n) => buf := buf + ToBytes(Unsigned(n, 2), 2, false);
        case U16(n) => buf := buf + ToBytes(n, 2, false);
        case I32(n) => PutU32(Unsigned(n, 4));
        case U32(n) => PutU32(n);
        case Fd(n) => PutU32(n);
        case I64(n) => buf := buf + ToBytes(Unsigned(n, 8), 8, false);
        case U64(n) => buf := buf + ToBytes(n, 8, false);
        case Double(n) => buf := buf + ToBytes(n, 8, false);
      }
    }

    method WriteAll(vs: seq<Value>)
      requires forall v | v in vs :: NamesElements(v)
      modifies this
      ensures buf == old(buf) + EncodeAll(vs, |old(buf)|, false)
      decreases vs, 0
    {
      hide Encode, NamesElements;
      ghost var whole := buf + EncodeAll(vs, |buf|, false);
      for i := 0 to |vs|
        invariant buf + EncodeAll(vs[i..], |buf|, false) == whole
      {
        assert vs[i..][0] == vs[i] && vs[i..][1..] == vs[i + 1..];
        Write(vs[i]);
      }
    }

    /** Writes the elements after a placeholder for their length, then fills
        that in. */
    method WriteArray(elem: Text, items: seq<Value>)
      requires elem != [] && (forall i | i in items :: NamesElements(i))
      requires |buf| % 4 == 0
      modifies this
      ensures buf == old(buf) + Payload(Array(elem, items), |old(buf)|, false)
      decreases items, 1
    {
      hide PadLen, EncodeAll;
      PadLenAligns(|buf|, 4);
      PutU32(0);
      var lengthAt := |buf| - 4;
      Align(Alignment(elem));
      var start := |buf|;
      ghost var header := buf;
      WriteAll(items);
      var length := (|buf| - start) % 0x1_0000_0000;
      buf := buf[..lengthAt] + ToBytes(length, 4, false) + buf[lengthAt + 4..];
      ghost var body := EncodeAll(items, start, false);
      FillIn(old(buf), Zeros(PadLen(|old(buf)| + 4, Alignment(elem))), body, ToBytes(0, 4, false), Word(|body|, false));
    }

    method WriteDict(key: Text, val: Text, entries: seq<(Value, Value)>)
      requires forall e | e in entries :: NamesElements(e.0) && NamesElements(e.1)
      requires |buf| % 4 == 0
      modifies this
      ensures buf == old(buf) + Payload(Dict(key, val, entries), |old(buf)|, false)
      decreases entries, 1
    {
      hide PadLen, EncodeEntries;
      PadLenAligns(|buf|, 4);
      PutU32(0);
      var lengthAt := |buf| - 4;
      Align(8);
      var start := |buf|;
      WriteEntries(entries);
      var length := (|buf| - start) % 0x1_0000_0000;
      buf := buf[..lengthAt] + ToBytes(length, 4, false) + buf[lengthAt + 4..];
      ghost var body := EncodeEntries(entries, start, false);
      FillIn(old(buf), Zeros(PadLen(|old(buf)| + 4, 8)), body, ToBytes(0, 4, false), Word(|body|, false));
    }

    method WriteEntries(entries: seq<(Value, Value)>)
      requires forall e | e in entries :: NamesElements(e.0) && NamesElements(e.1)
      modifies this
      ensures buf == old(buf) + EncodeEntries(entries, |old(buf)|, false)
      decreases entries, 0
    {
      hide EncodeEntry, NamesElements;
      ghost var whole := buf + EncodeEntries(entries, |buf|, false);
      for i := 0 to |entries|
        invariant buf + EncodeEntries(entries[i..], |buf|, false) == whole
      {
        assert entries[i..][0] == entries[i] && entries[i..][1..] == entries[i + 1..];
        WriteEntry(entries[i]);
      }
    }

    method WriteEntry(entry: (Value, Value))
      requires NamesElements(entry.0) && NamesElements(entry.1)
      modifies this
      ensures buf == old(buf) + EncodeEntry(entry, |old(buf)|, false)
      decreases entry, 0
    {
      hide PadLen, Encode, NamesElements;
      Align(8);
      Write(entry.0);
      Write(entry.1);
    }
  }

  /** Filling in a length leaves everything around it as it was. */
  lemma FillIn(before: seq<byte>, pad: seq<byte>, body: seq<byte>, zero: seq<byte>, length: seq<byte>)
    requires |zero| == 4 && |length| == 4
    ensures var buf := before + zero + pad + body;
            buf[..|before|] + length + buf[|before| + 4..] == before + ((length + pad) + body)
  {
  }

  lemma ByteIsItself(y: byte)
    ensures ToBytes(y, 1, false) == [y]
  {
    assert LittleEndian(y, 1) == [y] + LittleEndian(0, 0);
  }

  /** Padding one byte at a time stops at the first multiple of `n`. */
  lemma NoEarlierMultiple(pos: nat, n: nat, k: nat)
    requires IsAlignment(n) && k <= PadLen(pos, n)
    ensures (pos + k) % n == 0 <==> k == PadLen(pos, n)
  {
    PadLenAligns(pos, n);
    if k < PadLen(pos, n) {
      PadLenRest(pos, n);
      NoWrap(pos, n, k);
    }
  }

  lemma PadLenRest(pos: nat, n: nat)
    requires IsAlignment(n) && PadLen(pos, n) > 0
    ensures 0 < pos % n && PadLen(pos, n) == n - pos % n
  {
  }

  lemma NoWrap(pos: nat, n: nat, k: nat)
    requires (n == 1 || n == 2 || n == 4 || n == 8) && pos % n + k < n
    ensures (pos + k) % n == pos % n + k
  {
    if n == 2 {
      NoWrap2(pos, k);
    } else if n == 4 {
      NoWrap4(pos, k);
    } else if n == 8 {
      NoWrap8(pos, k);
    }
  }

  lemma NoWrap2(pos: nat, k: nat)
    requires pos % 2 + k < 2
    ensures (pos + k) % 2 == pos % 2 + k
  {
  }

  lemma NoWrap4(pos: nat, k: nat)
    requires pos % 4 + k < 4
    ensures (pos + k) % 4 == pos % 4 + k
  {
  }

  lemma NoWrap8(pos: nat, k: nat)
    requires pos % 8 + k < 8
    ensures (pos + k) % 8 == pos % 8 + k
  {
  }
}
