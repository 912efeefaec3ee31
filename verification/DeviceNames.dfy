/** Names of device nodes and of the links to them in `/dev`. */
module DeviceNames {

  /** A device's major and minor number. */
  type Key = (nat, nat)

  predicate Digit(c: char) { '0' <= c <= '9' }

  function DigitOf(d: nat): (c: char)
    requires d < 10
    ensures Digit(c)
  {
    ['0', '1', '2', '3', '4', '5', '6', '7', '8', '9'][d]
  }

  function Decimal(n: nat): (s: string)
    ensures |s| > 0 && (|s| == 1 <==> n < 10)
    ensures forall i | 0 <= i < |s| :: Digit(s[i])
  {
    if n < 10 then [DigitOf(n)] else Decimal(n / 10) + [DigitOf(n % 10)]
  }

  lemma DigitsDiffer(d: nat, e: nat)
    requires d < 10 && e < 10 && DigitOf(d) == DigitOf(e)
    ensures d == e
  {
  }

  lemma {:induction false} DecimalsDiffer(m: nat, n: nat)
    requires Decimal(m) == Decimal(n)
    ensures m == n
  {
    hide DigitOf;
    if m < 10 {
      DigitsDiffer(m, n);
    } else {
      var s, t := Decimal(m / 10), Decimal(n / 10);
      assert (s + [DigitOf(m % 10)])[..|s|] == s && (t + [DigitOf(n % 10)])[..|t|] == t;
      assert (s + [DigitOf(m % 10)])[|s|] == (t + [DigitOf(n % 10)])[|t|];
      DigitsDiffer(m % 10, n % 10);
      DecimalsDiffer(m / 10, n / 10);
    }
  }

  /** Its name below `/dev/.psbox`. */
  function Hidden(key: Key): string {
    "c" + Decimal(key.0) + "-" + Decimal(key.1)
  }

  /** No two devices have one name. */
  lemma HiddenDiffer(a: Key, b: Key)
    requires Hidden(a) == Hidden(b)
    ensures a == b
  {
    hide Decimal, Digit;
    var s, t := Decimal(a.0), Decimal(b.0);
    assert Hidden(a)[1..] == s + "-" + Decimal(a.1) && Hidden(b)[1..] == t + "-" + Decimal(b.1);
    SplitAt(s, Decimal(a.1), t, Decimal(b.1));
    DecimalsDiffer(a.0, b.0);
    DecimalsDiffer(a.1, b.1);
  }

  lemma SplitAt(s: string, u: string, t: string, v: string)
    requires s + "-" + u == t + "-" + v
    requires (forall i | 0 <= i < |s| :: Digit(s[i])) && (forall i | 0 <= i < |t| :: Digit(t[i]))
    ensures s == t && u == v
  {
    UpToDash(s, u);
    UpToDash(t, v);
    assert (s + "-" + u)[|s| + 1..] == u && (t + "-" + v)[|t| + 1..] == v;
  }

  function Digits(s: string): string {
    if s == "" || !Digit(s[0]) then "" else [s[0]] + Digits(s[1..])
  }

  lemma {:induction false} UpToDash(s: string, u: string)
    requires forall i | 0 <= i < |s| :: Digit(s[i])
    ensures Digits(s + "-" + u) == s
  {
    if s != "" {
      UpToDash(s[1..], u);
      assert (s + "-" + u)[1..] == s[1..] + "-" + u;
    } else {
      assert ("" + "-" + u)[0] == '-';
    }
  }

  function Slashes(name: string): nat {
    if name == "" then 0 else Slashes(name[1..]) + if name[0] == '/' then 1 else 0
  }

  function Ups(depth: nat): string {
    if depth == 0 then "" else "../" + Ups(depth - 1)
  }

  /** Where the link `/dev/<name>` points: from its directory up to `/dev`
      and down to the node. */
  function LinkTarget(name: string, hidden: string): string {
    Ups(Slashes(name)) + ".psbox/" + hidden
  }

  /** Links of one name to different nodes differ. */
  lemma TargetsDiffer(name: string, a: Key, b: Key)
    requires LinkTarget(name, Hidden(a)) == LinkTarget(name, Hidden(b))
    ensures a == b
  {
    hide Hidden, Ups, Slashes;
    var up := Ups(Slashes(name)) + ".psbox/";
    assert (up + Hidden(a))[|up|..] == Hidden(a) && (up + Hidden(b))[|up|..] == Hidden(b);
    HiddenDiffer(a, b);
  }

  // Where a link leads.

  /** The components of a path, separated by slashes. */
  function Components(s: string): (r: seq<string>)
    ensures r != []
  {
    if s == "" then [""]
    else
      var rest := Components(s[1..]);
      if s[0] == '/' then [""] + rest else [[s[0]] + rest[0]] + rest[1..]
  }

  /** Where a walk from a directory ends up, one component after another. */
  function Walk(dir: seq<string>, steps: seq<string>): seq<string>
    decreases |steps|
  {
    if steps == [] then dir
    else if steps[0] == ".." then Walk(if dir == [] then [] else dir[..|dir| - 1], steps[1..])
    else if steps[0] == "." || steps[0] == "" then Walk(dir, steps[1..])
    else Walk(dir + [steps[0]], steps[1..])
  }

  /** The directory the link `/dev/<name>` is in. */
  function Directory(name: string): seq<string> {
    var steps := Components(name);
    Walk(["dev"], steps[..|steps| - 1])
  }

  /** A name of non-empty components, none of them `.` or `..`. */
  ghost predicate Plain(name: string) {
    forall c | c in Components(name) :: c != "" && c != "." && c != ".."
  }

  /** Followed from its own directory, the link leads to the node of `key`. */
  ghost predicate Reaches(name: string, target: string, key: Key) {
    exists node ::
      Numbered(node, key) && (Plain(name) ==> Walk(Directory(name), Components(target)) == ["dev", ".psbox", node])
  }

  /** The number that decimal digits stand for. */
  function Number(s: string): int
    requires forall c | c in s :: c in "0123456789"
  {
    if s == "" then 0 else 10 * Number(s[..|s| - 1]) + (s[|s| - 1] as int - '0' as int)
  }

  /** `c`, the major number, a dash and the minor one, without needless zeros. */
  ghost predicate Numbered(node: string, key: Key) {
    exists major, minor :: node == "c" + major + "-" + minor && Numeral(major, key.0) && Numeral(minor, key.1)
  }

  ghost predicate Numeral(s: string, n: nat) {
    s != "" && (forall c | c in s :: c in "0123456789") && (s[0] == '0' ==> |s| == 1) && Number(s) == n
  }

  lemma DigitIs(d: nat)
    requires d < 10
    ensures DigitOf(d) in "0123456789" && DigitOf(d) as int - '0' as int == d && (DigitOf(d) == '0' <==> d == 0)
  {
    assert "0123456789"[d] == DigitOf(d);
  }

  lemma {:induction false} DecimalIsNumeral(n: nat)
    ensures Numeral(Decimal(n), n)
  {
    hide DigitOf;
    if n < 10 {
      DigitIs(n);
      assert [DigitOf(n)][..0] == "";
      assert Number([DigitOf(n)]) == n;
    } else {
      var s, d := Decimal(n / 10), DigitOf(n % 10);
      DigitIs(n % 10);
      DecimalIsNumeral(n / 10);
      assert (s + [d])[..|s|] == s;
      NotZero(s, n / 10);
    }
  }

  lemma NotZero(s: string, n: nat)
    requires Numeral(s, n) && n > 0
    ensures s[0] != '0'
  {
    if |s| == 1 {
      assert s[..|s| - 1] == "";
      assert Number(s) == s[0] as int - '0' as int;
    }
  }

  lemma HiddenNumbered(key: Key)
    ensures Numbered(Hidden(key), key)
  {
    hide Decimal, Numeral;
    DecimalIsNumeral(key.0);
    DecimalIsNumeral(key.1);
  }

  lemma {:induction false} OneComponent(s: string)
    requires '/' !in s
    ensures Components(s) == [s]
  {
    if s != "" {
      assert s[0] in s;
      assert forall c | c in s[1..] :: c in s;
      OneComponent(s[1..]);
      assert [s[0]] + s[1..] == s;
    }
  }

  lemma {:induction false} FirstComponent(a: string, b: string)
    requires '/' !in a
    ensures Components(a + "/" + b) == [a] + Components(b)
  {
    var s := a + "/" + b;
    if a == "" {
      assert s == "/" + b && s[1..] == b;
    } else {
      assert a[0] in a && forall c | c in a[1..] :: c in a;
      FirstComponent(a[1..], b);
      assert s[1..] == a[1..] + "/" + b;
      assert [a[0]] + a[1..] == a;
    }
  }

  lemma {:induction false} SlashesAreComponents(name: string)
    ensures |Components(name)| == Slashes(name) + 1
  {
    if name != "" {
      SlashesAreComponents(name[1..]);
    }
  }

  lemma NoSlash(key: Key)
    ensures '/' !in Hidden(key) && Hidden(key) != "" && Hidden(key)[0] == 'c'
  {
    hide Decimal;
    var s, t := Decimal(key.0), Decimal(key.1);
    assert forall c | c in s :: Digit(c);
    assert forall c | c in t :: Digit(c);
  }

  /** Going up as often as there are slashes in a name comes out in `/dev`. */
  lemma {:induction false} UpAndDown(dir: seq<string>, n: nat, rest: string)
    requires n <= |dir|
    ensures Walk(dir, Components(Ups(n) + rest)) == Walk(dir[..|dir| - n], Components(rest))
  {
    if n == 0 {
      assert "" + rest == rest && dir[..|dir|] == dir;
    } else {
      var more := Ups(n - 1) + rest;
      assert Ups(n) + rest == ".." + "/" + more;
      FirstComponent("..", more);
      assert ([".."] + Components(more))[1..] == Components(more);
      var up := dir[..|dir| - 1];
      UpAndDown(up, n - 1, rest);
      assert up[..|up| - (n - 1)] == dir[..|dir| - n];
    }
  }

  lemma {:induction false} PlainWalk(dir: seq<string>, steps: seq<string>)
    requires forall c | c in steps :: c != "" && c != "." && c != ".."
    ensures Walk(dir, steps) == dir + steps
    decreases |steps|
  {
    if steps != [] {
      assert steps[0] in steps && forall c | c in steps[1..] :: c in steps;
      PlainWalk(dir + [steps[0]], steps[1..]);
      assert dir + [steps[0]] + steps[1..] == dir + steps;
    }
  }

  lemma DownToNode(key: Key)
    ensures Walk(["dev"], Components(".psbox/" + Hidden(key))) == ["dev", ".psbox", Hidden(key)]
  {
    hide Hidden;
    NoSlash(key);
    assert ".psbox/" + Hidden(key) == ".psbox" + "/" + Hidden(key);
    FirstComponent(".psbox", Hidden(key));
    OneComponent(Hidden(key));
    PlainWalk(["dev"], [".psbox", Hidden(key)]);
    assert ["dev"] + [".psbox", Hidden(key)] == ["dev", ".psbox", Hidden(key)];
  }

  /** A link made for a device leads to its node, however deep its name is. */
  lemma LinkReaches(name: string, key: Key)
    ensures Reaches(name, LinkTarget(name, Hidden(key)), key)
  {
    hide Hidden, Components, Walk, Numbered;
    HiddenNumbered(key);
    var node := ".psbox/" + Hidden(key);
    if Plain(name) {
      var steps := Components(name);
      var last := |steps| - 1;
      SlashesAreComponents(name);
      assert forall c | c in steps[..last] :: c in steps;
      PlainWalk(["dev"], steps[..last]);
      assert Directory(name) == ["dev"] + steps[..last];
      assert LinkTarget(name, Hidden(key)) == Ups(Slashes(name)) + node;
      UpAndDown(Directory(name), Slashes(name), node);
      assert Directory(name)[..1] == ["dev"];
      DownToNode(key);
    }
  }
}
