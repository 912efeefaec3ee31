/** D-Bus type signatures: the grammar of single complete types. */
module Signatures {
  import opened Wrappers
  import opened Bytes

  datatype DecodeError =
    | SignatureTooDeep
    | UnterminatedStruct
    | EmptyStruct
    | BadDictEntry
    | BadSignatureCharacter(c: byte)
    | TruncatedSignature
    | TruncatedPadding
    | TruncatedValue
    | NotNulTerminated
    | InvalidUtf8
    | ValueTooDeep
    | BadBoolean(n: u32)
    | NotOneCompleteType
    | ArrayOverrunsBuffer
    | ElementOverrunsArray
    | CannotReadType(t: byte)
    | TrailingBytes
    | UnknownByteOrder
    | MessageTooLarge
    | ShortHeader
    | LengthMismatch
    | UnsupportedVersion
    | HeaderFieldsMismatch

  type Text = seq<byte>

  const MAX_DEPTH: nat := 64

  const BYTE: byte := 121 // 'y'
  const BOOL: byte := 98 // 'b'
  const INT16: byte := 110 // 'n'
  const UINT16: byte := 113 // 'q'
  const INT32: byte := 105 // 'i'
  const UINT32: byte := 117 // 'u'
  const INT64: byte := 120 // 'x'
  const UINT64: byte := 116 // 't'
  const DOUBLE: byte := 100 // 'd'
  const STRING: byte := 115 // 's'
  const PATH: byte := 111 // 'o'
  const SIGNATURE: byte := 103 // 'g'
  const FD: byte := 104 // 'h'
  const VARIANT: byte := 118 // 'v'
  const ARRAY: byte := 97 // 'a'
  const OPEN_STRUCT: byte := 40 // '('
  const CLOSE_STRUCT: byte := 41 // ')'
  const OPEN_ENTRY: byte := 123 // '{'
  const CLOSE_ENTRY: byte := 125 // '}'

  /** The types written as one character. */
  predicate IsBasic(c: byte) {
    c == BYTE || c == BOOL || c == INT16 || c == UINT16 || c == INT32 || c == UINT32 || c == INT64
    || c == UINT64 || c == DOUBLE || c == STRING || c == PATH || c == SIGNATURE || c == FD || c == VARIANT
  }

  /** How much deeper a signature or value may still nest. */
  function Budget(depth: nat): nat {
    if depth > MAX_DEPTH then 0 else MAX_DEPTH + 1 - depth
  }

  /** The length of the complete type `sig` starts with. */
  function TypeLen(sig: Text, depth: nat): (r: Result<nat, DecodeError>)
    ensures r.Ok? ==> 1 <= r.value <= |sig|
    decreases Budget(depth), 1, 0
  {
    if depth > MAX_DEPTH then Err(SignatureTooDeep)
    else if sig == [] then Err(TruncatedSignature)
    else if IsBasic(sig[0]) then Ok(1)
    else if sig[0] == ARRAY then ArrayLen(sig, depth)
    else if sig[0] == OPEN_STRUCT then StructLen(sig, depth)
    else if sig[0] == OPEN_ENTRY then EntryLen(sig, depth)
    else Err(BadSignatureCharacter(sig[0]))
  }

  function ArrayLen(sig: Text, depth: nat): (r: Result<nat, DecodeError>)
    requires sig != [] && depth <= MAX_DEPTH
    ensures r.Ok? ==> 2 <= r.value <= |sig|
    decreases Budget(depth), 0, 0
  {
    var n :- TypeLen(sig[1..], depth + 1);
    Ok(1 + n)
  }

  function StructLen(sig: Text, depth: nat): (r: Result<nat, DecodeError>)
    requires sig != [] && depth <= MAX_DEPTH
    ensures r.Ok? ==> 3 <= r.value <= |sig| && sig[r.value - 1] == CLOSE_STRUCT
    decreases Budget(depth), 0, 0
  {
    var n :- FieldsLen(sig[1..], depth + 1);
    if n == 0 then Err(EmptyStruct) else Ok(n + 2)
  }

  function EntryLen(sig: Text, depth: nat): (r: Result<nat, DecodeError>)
    requires sig != [] && depth <= MAX_DEPTH
    ensures r.Ok? ==> 4 <= r.value <= |sig| && sig[r.value - 1] == CLOSE_ENTRY
    decreases Budget(depth), 0, 0
  {
    var k :- TypeLen(sig[1..], depth + 1);
    var v :- TypeLen(sig[1 + k..], depth + 1);
    if |sig| <= 1 + k + v || sig[1 + k + v] != CLOSE_ENTRY then Err(BadDictEntry) else Ok(k + v + 2)
  }

  /** The length of the complete types before the `)` that ends them. */
  function FieldsLen(sig: Text, depth: nat): (r: Result<nat, DecodeError>)
    ensures r.Ok? ==> r.value < |sig| && sig[r.value] == CLOSE_STRUCT
    decreases Budget(depth), 2, |sig|
  {
    if sig == [] then Err(UnterminatedStruct)
    else if sig[0] == CLOSE_STRUCT then Ok(0)
    else
      var n :- TypeLen(sig, depth);
      var rest :- FieldsLen(sig[n..], depth);
      Ok(n + rest)
  }

  /** `sig` is one complete type that nests within the limit from `depth`. */
  predicate Complete(sig: Text, depth: nat) {
    TypeLen(sig, depth) == Ok(|sig|)
  }

  function Concat(parts: seq<Text>): Text {
    if parts == [] then [] else parts[0] + Concat(parts[1..])
  }

  /** The complete types `sig` is made of. */
  function SplitSignature(sig: Text): (r: Result<seq<Text>, DecodeError>)
    ensures r.Ok? ==> Concat(r.value) == sig
    ensures r.Ok? ==> forall t :: t in r.value ==> Complete(t, 0)
    decreases |sig|
  {
    if sig == [] then Ok([])
    else
      var n :- TypeLen(sig, 0);
      var rest :- SplitSignature(sig[n..]);
      CompletePrefix(sig, 0);
      Ok([sig[..n]] + rest)
  }

  /** `s` and `t` start with the same `n` characters. */
  predicate Agree(s: Text, t: Text, n: nat) {
    n <= |s| && n <= |t| && s[..n] == t[..n]
  }

  lemma AgreeAt(s: Text, t: Text, n: nat, i: nat)
    requires Agree(s, t, n) && i < n
    ensures s[i] == t[i]
  {
    assert s[i] == s[..n][i] == t[..n][i];
  }

  lemma AgreeDrop(s: Text, t: Text, n: nat, k: nat, m: nat)
    requires Agree(s, t, n) && k + m <= n
    ensures Agree(s[k..], t[k..], m)
  {
    assert s[k..][..m] == s[..n][k..k + m] == t[..n][k..k + m] == t[k..][..m];
  }

  /** A complete type is recognised by its own characters alone. */
  lemma {:induction false} TypeLenPrefix(s: Text, t: Text, depth: nat)
    requires TypeLen(s, depth).Ok?
    requires Agree(s, t, TypeLen(s, depth).value)
    ensures TypeLen(t, depth) == TypeLen(s, depth)
    decreases Budget(depth), 1, 0
  {
    hide ArrayLen, StructLen, EntryLen;
    AgreeAt(s, t, TypeLen(s, depth).value, 0);
    if s[0] == ARRAY {
      ArrayLenPrefix(s, t, depth);
    } else if s[0] == OPEN_STRUCT {
      StructLenPrefix(s, t, depth);
    } else if s[0] == OPEN_ENTRY {
      EntryLenPrefix(s, t, depth);
    }
  }

  lemma {:induction false} ArrayLenPrefix(s: Text, t: Text, depth: nat)
    requires s != [] && depth <= MAX_DEPTH && ArrayLen(s, depth).Ok?
    requires Agree(s, t, ArrayLen(s, depth).value)
    ensures ArrayLen(t, depth) == ArrayLen(s, depth)
    decreases Budget(depth), 0, 0
  {
    hide TypeLen;
    var n := ArrayLen(s, depth).value;
    AgreeDrop(s, t, n, 1, n - 1);
    TypeLenPrefix(s[1..], t[1..], depth + 1);
  }

  lemma {:induction false} StructLenPrefix(s: Text, t: Text, depth: nat)
    requires s != [] && depth <= MAX_DEPTH && StructLen(s, depth).Ok?
    requires Agree(s, t, StructLen(s, depth).value)
    ensures StructLen(t, depth) == StructLen(s, depth)
    decreases Budget(depth), 0, 0
  {
    hide TypeLen, FieldsLen;
    var n := StructLen(s, depth).value;
    AgreeDrop(s, t, n, 1, n - 1);
    FieldsLenPrefix(s[1..], t[1..], depth + 1);
  }

  lemma {:induction false} EntryLenPrefix(s: Text, t: Text, depth: nat)
    requires s != [] && depth <= MAX_DEPTH && EntryLen(s, depth).Ok?
    requires Agree(s, t, EntryLen(s, depth).value)
    ensures EntryLen(t, depth) == EntryLen(s, depth)
    decreases Budget(depth), 0, 0
  {
    hide TypeLen;
    var n := EntryLen(s, depth).value;
    var k := TypeLen(s[1..], depth + 1).value;
    var v := TypeLen(s[1 + k..], depth + 1).value;
    AgreeAt(s, t, n, 1 + k + v);
    AgreeDrop(s, t, n, 1, k);
    TypeLenPrefix(s[1..], t[1..], depth + 1);
    AgreeDrop(s, t, n, 1 + k, v);
    TypeLenPrefix(s[1 + k..], t[1 + k..], depth + 1);
  }

  lemma {:induction false} FieldsLenPrefix(s: Text, t: Text, depth: nat)
    requires FieldsLen(s, depth).Ok?
    requires Agree(s, t, FieldsLen(s, depth).value + 1)
    ensures FieldsLen(t, depth) == FieldsLen(s, depth)
    decreases Budget(depth), 2, |s|
  {
    hide TypeLen;
    var m := FieldsLen(s, depth).value + 1;
    AgreeAt(s, t, m, 0);
    if s[0] != CLOSE_STRUCT {
      var n := TypeLen(s, depth).value;
      AgreeDrop(s, t, m, 0, n);
      TypeLenPrefix(s, t, depth);
      AgreeDrop(s, t, m, n, m - n);
      FieldsLenPrefix(s[n..], t[n..], depth);
    }
  }

  /** A type accepted at some depth is accepted at every lesser one. */
  lemma {:induction false} TypeLenShallower(s: Text, deep: nat, depth: nat)
    requires depth <= deep && TypeLen(s, deep).Ok?
    ensures TypeLen(s, depth) == TypeLen(s, deep)
    decreases Budget(depth), 1, 0
  {
    hide ArrayLen, StructLen, EntryLen;
    if s[0] == ARRAY {
      ArrayLenShallower(s, deep, depth);
    } else if s[0] == OPEN_STRUCT {
      StructLenShallower(s, deep, depth);
    } else if s[0] == OPEN_ENTRY {
      EntryLenShallower(s, deep, depth);
    }
  }

  lemma {:induction false} ArrayLenShallower(s: Text, deep: nat, depth: nat)
    requires depth <= deep <= MAX_DEPTH && s != [] && ArrayLen(s, deep).Ok?
    ensures ArrayLen(s, depth) == ArrayLen(s, deep)
    decreases Budget(depth), 0, 0
  {
    hide TypeLen;
    TypeLenShallower(s[1..], deep + 1, depth + 1);
  }

  lemma {:induction false} StructLenShallower(s: Text, deep: nat, depth: nat)
    requires depth <= deep <= MAX_DEPTH && s != [] && StructLen(s, deep).Ok?
    ensures StructLen(s, depth) == StructLen(s, deep)
    decreases Budget(depth), 0, 0
  {
    hide TypeLen, FieldsLen;
    FieldsLenShallower(s[1..], deep + 1, depth + 1);
  }

  lemma {:induction false} EntryLenShallower(s: Text, deep: nat, depth: nat)
    requires depth <= deep <= MAX_DEPTH && s != [] && EntryLen(s, deep).Ok?
    ensures EntryLen(s, depth) == EntryLen(s, deep)
    decreases Budget(depth), 0, 0
  {
    hide TypeLen;
    TypeLenShallower(s[1..], deep + 1, depth + 1);
    TypeLenShallower(s[1 + TypeLen(s[1..], deep + 1).value..], deep + 1, depth + 1);
  }

  lemma {:induction false} FieldsLenShallower(s: Text, deep: nat, depth: nat)
    requires depth <= deep && FieldsLen(s, deep).Ok?
    ensures FieldsLen(s, depth) == FieldsLen(s, deep)
    decreases Budget(depth), 2, |s|
  {
    hide TypeLen;
    if s[0] != CLOSE_STRUCT {
      TypeLenShallower(s, deep, depth);
      FieldsLenShallower(s[TypeLen(s, deep).value..], deep, depth);
    }
  }

  /** Splitting is the only way to read a concatenation of complete types. */
  lemma {:induction false} SplitConcat(types: seq<Text>)
    requires forall t :: t in types ==> Complete(t, 0)
    ensures SplitSignature(Concat(types)) == Ok(types)
  {
    hide TypeLen;
    if types != [] {
      var sig := Concat(types);
      var n := |types[0]|;
      assert types[0] in types;
      assert Complete(types[0], 0);
      assert sig[..n] == types[0] && sig[n..] == Concat(types[1..]);
      assert Agree(types[0], sig, n);
      TypeLenPrefix(types[0], sig, 0);
      SplitConcat(types[1..]);
      assert types == [types[0]] + types[1..];
    }
  }

  lemma ConcatAppend(a: seq<Text>, b: seq<Text>)
    ensures Concat(a + b) == Concat(a) + Concat(b)
  {
    if a == [] {
      assert a + b == b;
    } else {
      assert (a + b)[0] == a[0] && (a + b)[1..] == a[1..] + b;
      ConcatAppend(a[1..], b);
    }
  }

  /** The element of a complete array type is complete. */
  lemma ElementComplete(sig: Text)
    requires Complete(sig, 0) && sig[0] == ARRAY
    ensures sig[1..] != [] && Complete(sig[1..], 1) && Complete(sig[1..], 0)
  {
    hide TypeLen;
    ElementLen(sig, 0);
    TypeLenShallower(sig[1..], 1, 0);
  }

  lemma ElementLen(sig: Text, depth: nat)
    requires TypeLen(sig, depth).Ok? && sig[0] == ARRAY
    ensures TypeLen(sig[1..], depth + 1) == Ok(TypeLen(sig, depth).value - 1)
  {
    assert TypeLen(sig, depth) == ArrayLen(sig, depth);
  }

  /** A complete type and its beginning are told apart from what follows. */
  lemma CompletePrefix(s: Text, depth: nat)
    requires TypeLen(s, depth).Ok?
    ensures Complete(s[..TypeLen(s, depth).value], depth)
  {
    var n := TypeLen(s, depth).value;
    assert Agree(s, s[..n], n);
    TypeLenPrefix(s, s[..n], depth);
  }

  /** The length of a type does not depend on the depth it is read at. */
  lemma TypeLenAgree(s: Text, a: nat, b: nat)
    requires TypeLen(s, a).Ok? && TypeLen(s, b).Ok?
    ensures TypeLen(s, a) == TypeLen(s, b)
  {
    if a <= b {
      TypeLenShallower(s, b, a);
    } else {
      TypeLenShallower(s, a, b);
    }
  }

  /** What a type holds between its first and its last character. */
  function Inner(sig: Text): Text
    requires |sig| >= 2
  {
    sig[1..|sig| - 1]
  }

  lemma AgreeInner(sig: Text, i: nat, n: nat)
    requires |sig| >= 2 && i + n <= |sig| - 2
    ensures Agree(sig[1 + i..], Inner(sig)[i..], n)
  {
    var inner := Inner(sig);
    assert forall j | 0 <= j < n :: sig[1 + i..][j] == sig[1 + i + j] == inner[i + j] == inner[i..][j];
  }

  lemma TypeLenIsEntryLen(s: Text, depth: nat)
    requires TypeLen(s, depth).Ok? && s[0] == OPEN_ENTRY
    ensures depth <= MAX_DEPTH && EntryLen(s, depth) == TypeLen(s, depth)
  {
    hide EntryLen;
  }

  /** A complete dictionary entry type holds a key type and a value type. */
  lemma EntryParts(elem: Text)
    requires Complete(elem, 1) && elem[0] == OPEN_ENTRY
    ensures |elem| >= 4 && elem[|elem| - 1] == CLOSE_ENTRY
    ensures TypeLen(Inner(elem), 2).Ok? && Complete(Inner(elem)[TypeLen(Inner(elem), 2).value..], 2)
  {
    hide TypeLen;
    TypeLenIsEntryLen(elem, 1);
    var k := TypeLen(elem[1..], 2).value;
    var v := TypeLen(elem[1 + k..], 2).value;
    AgreeInner(elem, 0, k);
    assert Inner(elem)[0..] == Inner(elem);
    TypeLenPrefix(elem[1..], Inner(elem), 2);
    AgreeInner(elem, k, v);
    TypeLenPrefix(elem[1 + k..], Inner(elem)[k..], 2);
  }

  lemma JoinEntry(elem: Text, k: nat)
    requires |elem| >= 2 && elem[0] == OPEN_ENTRY && elem[|elem| - 1] == CLOSE_ENTRY && k <= |Inner(elem)|
    ensures elem == [OPEN_ENTRY] + Inner(elem)[..k] + Inner(elem)[k..] + [CLOSE_ENTRY]
  {
  }

  /** Reading the key type of a dictionary entry from some depth, when that
      succeeds at all, finds the two halves of the entry. */
  lemma EntryHalves(elem: Text, depth: nat)
    requires Complete(elem, 1) && |elem| >= 2 && elem[0] == OPEN_ENTRY
    requires TypeLen(Inner(elem), depth).Ok?
    ensures var k := TypeLen(Inner(elem), depth).value;
            && elem == [OPEN_ENTRY] + Inner(elem)[..k] + Inner(elem)[k..] + [CLOSE_ENTRY]
            && Complete(Inner(elem)[..k], depth)
            && Complete(Inner(elem)[..k], 0)
            && Complete(Inner(elem)[k..], 0)
  {
    hide TypeLen;
    EntryParts(elem);
    var inner := Inner(elem);
    TypeLenAgree(inner, depth, 2);
    var k := TypeLen(inner, depth).value;
    JoinEntry(elem, k);
    CompletePrefix(inner, depth);
    TypeLenShallower(inner[..k], depth, 0);
    TypeLenShallower(inner[k..], 2, 0);
  }

  /** What a complete struct type holds between its parentheses. */
  lemma StructParts(sig: Text)
    requires Complete(sig, 0) && sig[0] == OPEN_STRUCT
    ensures |sig| >= 3
  {
  }
}
