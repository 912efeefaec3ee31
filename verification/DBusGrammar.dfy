/** The types and texts that are accepted, by what they are made of. */
module Grammar {
  import opened Wrappers
  import opened Bytes
  import opened Signatures
  import opened Values
  import opened WireFormat

  datatype Type =
    | Basic(c: char)
    | ArrayOf(elem: Type)
    | StructOf(fields: seq<Type>)
    | EntryOf(key: Type, val: Type)

  const BASIC: string := "ybnqiuxtdsoghv"

  /** A type's characters. */
  function Spell(t: Type): Text {
    match t
    case Basic(c) => Ascii([c])
    case ArrayOf(elem) => Ascii("a") + Spell(elem)
    case StructOf(fields) => Ascii("(") + SpellAll(fields) + Ascii(")")
    case EntryOf(key, val) => Ascii("{") + Spell(key) + Spell(val) + Ascii("}")
  }

  function SpellAll(ts: seq<Type>): Text {
    if ts == [] then [] else Spell(ts[0]) + SpellAll(ts[1..])
  }

  /** A type that starts at some depth nests no deeper than 64, and has no
      struct without fields. */
  predicate Nests(t: Type, depth: nat)
    decreases t
  {
    && depth <= 64
    && match t
       case Basic(c) => c in BASIC
       case ArrayOf(elem) => Nests(elem, depth + 1)
       case StructOf(fields) => fields != [] && forall f | f in fields :: Nests(f, depth + 1)
       case EntryOf(key, val) => Nests(key, depth + 1) && Nests(val, depth + 1)
  }

  lemma BasicLetters(c: char)
    ensures c in BASIC ==> IsBasic(Ascii([c])[0]) && |Ascii([c])| == 1
  {
    if c in BASIC {
      assert c == 'y' || c == 'b' || c == 'n' || c == 'q' || c == 'i' || c == 'u' || c == 'x' || c == 't' || c == 'd'
             || c == 's' || c == 'o' || c == 'g' || c == 'h' || c == 'v';
    }
  }

  lemma BasicCharacter(b: byte) returns (c: char)
    requires IsBasic(b)
    ensures c in BASIC && Ascii([c]) == [b]
  {
    c := b as char;
    assert c == 'y' || c == 'b' || c == 'n' || c == 'q' || c == 'i' || c == 'u' || c == 'x' || c == 't' || c == 'd'
           || c == 's' || c == 'o' || c == 'g' || c == 'h' || c == 'v';
    assert BASIC[0] == 'y' && BASIC[1] == 'b' && BASIC[2] == 'n' && BASIC[3] == 'q' && BASIC[4] == 'i' && BASIC[5] == 'u'
           && BASIC[6] == 'x' && BASIC[7] == 't' && BASIC[8] == 'd' && BASIC[9] == 's' && BASIC[10] == 'o'
           && BASIC[11] == 'g' && BASIC[12] == 'h' && BASIC[13] == 'v';
  }

  lemma Brackets()
    ensures Ascii("{") == [OPEN_ENTRY]
  {
  }

  // What is spelled is recognised.

  lemma {:induction false} SpellIsType(t: Type, depth: nat, rest: Text)
    requires Nests(t, depth)
    ensures TypeLen(Spell(t) + rest, depth) == Ok(|Spell(t)|) && Spell(t) != []
    ensures Spell(t)[0] != CLOSE_STRUCT
    decreases t, 1
  {
    hide ArrayLen, StructLen, EntryLen, Ascii;
    Letters();
    Brackets();
    match t {
      case Basic(c) => BasicLetters(c);
      case ArrayOf(elem) => ArrayIsType(elem, depth, rest);
      case StructOf(fields) => StructIsType(fields, depth, rest);
      case EntryOf(key, val) => EntryIsType(key, val, depth, rest);
    }
  }

  lemma {:induction false} ArrayIsType(elem: Type, depth: nat, rest: Text)
    requires Nests(elem, depth + 1) && depth <= 64
    ensures ArrayLen(Spell(ArrayOf(elem)) + rest, depth) == Ok(|Spell(ArrayOf(elem))|)
    decreases elem, 2
  {
    hide TypeLen, Ascii;
    Letters();
    SpellIsType(elem, depth + 1, rest);
    assert (Spell(ArrayOf(elem)) + rest)[1..] == Spell(elem) + rest;
  }

  lemma {:induction false} StructIsType(fields: seq<Type>, depth: nat, rest: Text)
    requires fields != [] && (forall f | f in fields :: Nests(f, depth + 1)) && depth <= 64
    ensures StructLen(Spell(StructOf(fields)) + rest, depth) == Ok(|Spell(StructOf(fields))|)
    decreases fields, 2
  {
    hide TypeLen, Ascii, FieldsLen;
    Letters();
    FieldsAreTypes(fields, depth + 1, rest);
    assert (Spell(StructOf(fields)) + rest)[1..] == SpellAll(fields) + [CLOSE_STRUCT] + rest;
  }

  lemma Rejoin(a: Text, b: Text, rest: Text)
    ensures a + b + [CLOSE_STRUCT] + rest == a + (b + [CLOSE_STRUCT] + rest)
    ensures (a + (b + [CLOSE_STRUCT] + rest))[|a|..] == b + [CLOSE_STRUCT] + rest
  {
  }

  lemma NoFieldsLeft(depth: nat, rest: Text)
    ensures FieldsLen([CLOSE_STRUCT] + rest, depth) == Ok(0)
  {
  }

  lemma OneMoreField(s: Text, n: nat, m: nat, depth: nat)
    requires s != [] && s[0] != CLOSE_STRUCT && TypeLen(s, depth) == Ok(n) && FieldsLen(s[n..], depth) == Ok(m)
    ensures FieldsLen(s, depth) == Ok(n + m)
  {
    hide TypeLen;
  }

  lemma {:induction false} FieldsAreTypes(ts: seq<Type>, depth: nat, rest: Text)
    requires forall t | t in ts :: Nests(t, depth)
    ensures FieldsLen(SpellAll(ts) + [CLOSE_STRUCT] + rest, depth) == Ok(|SpellAll(ts)|)
    ensures ts != [] ==> SpellAll(ts) != []
    decreases ts, 1
  {
    hide TypeLen, Spell, FieldsLen;
    NoFieldsLeft(depth, rest);
    if ts == [] {
      assert [] + [CLOSE_STRUCT] + rest == [CLOSE_STRUCT] + rest;
    } else {
      var after := SpellAll(ts[1..]) + [CLOSE_STRUCT] + rest;
      SpellIsType(ts[0], depth, after);
      FieldsAreTypes(ts[1..], depth, rest);
      Rejoin(Spell(ts[0]), SpellAll(ts[1..]), rest);
      OneMoreField(Spell(ts[0]) + after, |Spell(ts[0])|, |SpellAll(ts[1..])|, depth);
    }
  }

  lemma EntryText(k: Text, v: Text, rest: Text)
    ensures var s := [OPEN_ENTRY] + k + v + [CLOSE_ENTRY] + rest;
            var end := [CLOSE_ENTRY] + rest;
            && s[1..] == k + (v + end) && s[1 + |k|..] == v + end
            && |s| > 1 + |k| + |v| && s[1 + |k| + |v|] == CLOSE_ENTRY
  {
  }

  lemma {:induction false} EntryIsType(key: Type, val: Type, depth: nat, rest: Text)
    requires Nests(key, depth + 1) && Nests(val, depth + 1) && depth <= 64
    ensures EntryLen(Spell(EntryOf(key, val)) + rest, depth) == Ok(|Spell(EntryOf(key, val))|)
    decreases EntryOf(key, val), 0
  {
    hide TypeLen, Ascii, Nests;
    Letters();
    Brackets();
    var end := [CLOSE_ENTRY] + rest;
    var s := Spell(EntryOf(key, val)) + rest;
    var k := |Spell(key)|;
    SpellIsType(key, depth + 1, Spell(val) + end);
    SpellIsType(val, depth + 1, end);
    EntryText(Spell(key), Spell(val), rest);
  }

  // What is recognised is spelled.

  lemma {:induction false} TypeIsSpelled(s: Text, depth: nat) returns (t: Type)
    requires TypeLen(s, depth).Ok?
    ensures Nests(t, depth) && Spell(t) == s[..TypeLen(s, depth).value]
    decreases Budget(depth), 1, 0
  {
    hide ArrayLen, StructLen, EntryLen, Ascii;
    Letters();
    if IsBasic(s[0]) {
      var c := BasicCharacter(s[0]);
      t := Basic(c);
      assert s[..1] == [s[0]];
    } else if s[0] == ARRAY {
      t := ArrayIsSpelled(s, depth);
    } else if s[0] == OPEN_STRUCT {
      t := StructIsSpelled(s, depth);
    } else {
      t := EntryIsSpelled(s, depth);
    }
  }

  lemma {:induction false} ArrayIsSpelled(s: Text, depth: nat) returns (t: Type)
    requires s != [] && s[0] == ARRAY && depth <= MAX_DEPTH && ArrayLen(s, depth).Ok?
    ensures Nests(t, depth) && Spell(t) == s[..ArrayLen(s, depth).value]
    decreases Budget(depth), 0, 0
  {
    hide TypeLen, Ascii;
    Letters();
    var elem := TypeIsSpelled(s[1..], depth + 1);
    t := ArrayOf(elem);
    assert [s[0]] + s[1..][..|Spell(elem)|] == s[..1 + |Spell(elem)|];
  }

  lemma {:induction false} StructIsSpelled(s: Text, depth: nat) returns (t: Type)
    requires s != [] && s[0] == OPEN_STRUCT && depth <= MAX_DEPTH && StructLen(s, depth).Ok?
    ensures Nests(t, depth) && Spell(t) == s[..StructLen(s, depth).value]
    decreases Budget(depth), 0, 0
  {
    hide TypeLen, FieldsLen, Ascii;
    Letters();
    var fields := FieldsAreSpelled(s[1..], depth + 1);
    t := StructOf(fields);
    var n := |SpellAll(fields)|;
    assert [s[0]] + s[1..][..n] + [s[1..][n]] == s[..n + 2];
  }

  lemma {:induction false} FieldsAreSpelled(s: Text, depth: nat) returns (ts: seq<Type>)
    requires FieldsLen(s, depth).Ok?
    ensures (forall t | t in ts :: Nests(t, depth)) && SpellAll(ts) == s[..FieldsLen(s, depth).value]
    decreases Budget(depth), 2, |s|
  {
    hide TypeLen, Spell;
    if s[0] == CLOSE_STRUCT {
      ts := [];
    } else {
      var n := TypeLen(s, depth).value;
      var t := TypeIsSpelled(s, depth);
      var rest := FieldsAreSpelled(s[n..], depth);
      ts := [t] + rest;
      assert ts[1..] == rest;
      assert s[..n] + s[n..][..|SpellAll(rest)|] == s[..n + |SpellAll(rest)|];
    }
  }

  lemma EntryPieces(s: Text, k: nat, v: nat)
    requires |s| >= k + v + 2
    ensures [s[0]] + s[1..][..k] + s[1 + k..][..v] + [s[1 + k + v]] == s[..k + v + 2]
  {
  }

  lemma {:induction false} EntryIsSpelled(s: Text, depth: nat) returns (t: Type)
    requires s != [] && s[0] == OPEN_ENTRY && depth <= MAX_DEPTH && EntryLen(s, depth).Ok?
    ensures Nests(t, depth) && Spell(t) == s[..EntryLen(s, depth).value]
    decreases Budget(depth), 0, 0
  {
    hide TypeLen, Ascii;
    Letters();
    Brackets();
    var key := TypeIsSpelled(s[1..], depth + 1);
    var k := |Spell(key)|;
    var val := TypeIsSpelled(s[1 + k..], depth + 1);
    var v := |Spell(val)|;
    t := EntryOf(key, val);
    EntryPieces(s, k, v);
    assert Spell(t) == [OPEN_ENTRY] + Spell(key) + Spell(val) + [CLOSE_ENTRY];
  }

  /** A text is one complete type from a depth on if and only if it is the
      spelling of a type that nests from there. */
  lemma CompleteExactly(s: Text, depth: nat)
    ensures Complete(s, depth) <==> exists t :: Nests(t, depth) && Spell(t) == s
  {
    hide TypeLen, Spell, Nests;
    if Complete(s, depth) {
      var t := TypeIsSpelled(s, depth);
      assert s[..|s|] == s;
    }
    if t :| Nests(t, depth) && Spell(t) == s {
      SpellIsType(t, depth, []);
      assert s + [] == s;
    }
  }

  /** A signature is accepted if and only if it spells a list of types. */
  lemma SplitsExactly(s: Text)
    ensures SplitSignature(s).Ok? <==> exists ts :: (forall t | t in ts :: Nests(t, 0)) && SpellAll(ts) == s
  {
    hide TypeLen, Nests, Spell;
    if SplitSignature(s).Ok? {
      var ts := SpelledTypes(SplitSignature(s).value);
    }
    if ts :| (forall t | t in ts :: Nests(t, 0)) && SpellAll(ts) == s {
      var types := TypesOf(ts);
      SplitConcat(types);
    }
  }

  lemma {:induction false} SpelledTypes(types: seq<Text>) returns (ts: seq<Type>)
    requires forall s | s in types :: Complete(s, 0)
    ensures (forall t | t in ts :: Nests(t, 0)) && SpellAll(ts) == Concat(types)
  {
    hide TypeLen, Nests, Spell;
    ts := [];
    if types != [] {
      assert types[0] in types && Complete(types[0], 0);
      var t := TypeIsSpelled(types[0], 0);
      assert types[0][..|types[0]|] == types[0];
      var rest := SpelledTypes(types[1..]);
      ts := [t] + rest;
      assert ts[1..] == rest;
    }
  }

  lemma {:induction false} TypesOf(ts: seq<Type>) returns (types: seq<Text>)
    requires forall t | t in ts :: Nests(t, 0)
    ensures (forall s | s in types :: Complete(s, 0)) && Concat(types) == SpellAll(ts)
  {
    hide TypeLen, Nests, Spell;
    types := [];
    if ts != [] {
      SpellIsType(ts[0], 0, []);
      assert Spell(ts[0]) + [] == Spell(ts[0]);
      var rest := TypesOf(ts[1..]);
      types := [Spell(ts[0])] + rest;
      assert types[1..] == rest;
    }
  }

  // UTF-8.

  /** A Unicode scalar value. */
  predicate Scalar(c: int) {
    0 <= c < 0xD800 || 0xE000 <= c < 0x11_0000
  }

  /** A character in UTF-8: six bits of it in each byte after the first. */
  function CharBytes(c: int): Text
    requires Scalar(c)
  {
    if c < 0x80 then [c]
    else if c < 0x800 then [0xC0 + c / 64, 0x80 + c % 64]
    else if c < 0x1_0000 then [0xE0 + c / 4096, 0x80 + c / 64 % 64, 0x80 + c % 64]
    else [0xF0 + c / 262144, 0x80 + c / 4096 % 64, 0x80 + c / 64 % 64, 0x80 + c % 64]
  }

  function Utf8(cs: seq<int>): Text
    requires forall c | c in cs :: Scalar(c)
  {
    if cs == [] then [] else CharBytes(cs[0]) + Utf8(cs[1..])
  }

  lemma CharIsWide(c: int, rest: Text)
    requires Scalar(c)
    ensures CharWidth(CharBytes(c) + rest) == |CharBytes(c)| > 0
  {
  }

  lemma Sixes(a: nat, b: nat)
    requires b < 64
    ensures (64 * a + b) / 64 == a && (64 * a + b) % 64 == b
  {
  }

  lemma TwelveBits(c: nat)
    ensures c / 4096 == c / 64 / 64
  {
  }

  lemma EighteenBits(c: nat)
    ensures c / 262144 == c / 4096 / 64
  {
  }

  lemma TwoBytes(a: nat, b: nat)
    requires 2 <= a < 32 && b < 64
    ensures var c := 64 * a + b; Scalar(c) && CharBytes(c) == [0xC0 + a, 0x80 + b]
  {
    Sixes(a, b);
  }

  lemma ThreeBytes(a: nat, b: nat, d: nat)
    requires a < 16 && b < 64 && d < 64 && (a == 0 ==> b >= 32) && (a == 13 ==> b < 32)
    ensures var c := 64 * (64 * a + b) + d; Scalar(c) && CharBytes(c) == [0xE0 + a, 0x80 + b, 0x80 + d]
  {
    Sixes(64 * a + b, d);
    Sixes(a, b);
    TwelveBits(64 * (64 * a + b) + d);
  }

  lemma FourBytes(a: nat, b: nat, d: nat, e: nat)
    requires a < 5 && b < 64 && d < 64 && e < 64 && (a == 0 ==> b >= 16) && (a == 4 ==> b < 16)
    ensures var c := 64 * (64 * (64 * a + b) + d) + e; Scalar(c) && CharBytes(c) == [0xF0 + a, 0x80 + b, 0x80 + d, 0x80 + e]
  {
    var c := 64 * (64 * (64 * a + b) + d) + e;
    Sixes(64 * (64 * a + b) + d, e);
    Sixes(64 * a + b, d);
    Sixes(a, b);
    TwelveBits(c);
    EighteenBits(c);
  }

  lemma WideIsChar(s: Text) returns (c: int)
    requires s != [] && CharWidth(s) > 0
    ensures Scalar(c) && CharBytes(c) == s[..CharWidth(s)]
  {
    hide CharBytes, Scalar;
    var n := CharWidth(s);
    if n == 1 {
      c := s[0];
      OneByte(c);
    } else {
      var a, b: nat := s[0], s[1] - 0x80;
      if n == 2 {
        c := 64 * (a - 0xC0) + b;
        TwoBytes(a - 0xC0, b);
      } else if n == 3 {
        var d: nat := s[2] - 0x80;
        c := 64 * (64 * (a - 0xE0) + b) + d;
        ThreeBytes(a - 0xE0, b, d);
      } else {
        var d: nat, e: nat := s[2] - 0x80, s[3] - 0x80;
        c := 64 * (64 * (64 * (a - 0xF0) + b) + d) + e;
        FourBytes(a - 0xF0, b, d, e);
      }
    }
  }

  lemma OneByte(c: byte)
    requires c < 0x80
    ensures Scalar(c) && CharBytes(c) == [c]
  {
  }

  /** A text is well formed if and only if it is Unicode scalar values in
      UTF-8. */
  lemma {:induction false} Utf8Exactly(s: Text)
    ensures ValidUtf8(s) <==> exists cs :: (forall c | c in cs :: Scalar(c)) && Utf8(cs) == s
    decreases |s|
  {
    hide CharWidth, CharBytes, Scalar;
    if ValidUtf8(s) {
      var cs := Characters(s);
    }
    if cs :| (forall c | c in cs :: Scalar(c)) && Utf8(cs) == s {
      CharactersAreValid(cs);
    }
  }

  lemma {:induction false} Characters(s: Text) returns (cs: seq<int>)
    requires ValidUtf8(s)
    ensures (forall c | c in cs :: Scalar(c)) && Utf8(cs) == s
    decreases |s|
  {
    hide CharWidth, CharBytes, Scalar;
    cs := [];
    if s != [] {
      var c := WideIsChar(s);
      var rest := Characters(s[CharWidth(s)..]);
      cs := [c] + rest;
      assert cs[1..] == rest;
    }
  }

  lemma {:induction false} CharactersAreValid(cs: seq<int>)
    requires forall c | c in cs :: Scalar(c)
    ensures ValidUtf8(Utf8(cs))
  {
    hide CharWidth, CharBytes, Scalar;
    if cs != [] {
      var s, n := Utf8(cs), |CharBytes(cs[0])|;
      CharIsWide(cs[0], Utf8(cs[1..]));
      CharactersAreValid(cs[1..]);
      assert s[n..] == Utf8(cs[1..]);
    }
  }
}
