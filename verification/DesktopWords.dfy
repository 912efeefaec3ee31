/** What `Exec` values are made of, and what a rewritten one runs, said
    outright. */
module DesktopWords {
  import opened Wrappers
  import opened ExecQuoting
  import opened DesktopEntries

  // Values and the words in them.

  /** A piece of a word: a plain character, or a quoted run of characters, each
      as it is or after a backslash. */
  datatype Piece = Bare(c: char) | Quotes(run: seq<Within>)

  datatype Within = AsIs(c: char) | Slashed(c: char)

  function WrittenIn(w: Within): string {
    match w case AsIs(c) => [c] case Slashed(c) => ['\\', c]
  }

  /** What it stands for: only four characters lose their backslash. */
  function ReadIn(w: Within): string {
    match w
    case AsIs(c) => [c]
    case Slashed(c) => if c in "\"`$\\" then [c] else ['\\', c]
  }

  predicate FineIn(w: Within) {
    w.AsIs? ==> w.c != '\"' && w.c != '\\'
  }

  function WrittenRun(run: seq<Within>): string {
    if run == [] then "" else WrittenIn(run[0]) + WrittenRun(run[1..])
  }

  function ReadRun(run: seq<Within>): string {
    if run == [] then "" else ReadIn(run[0]) + ReadRun(run[1..])
  }

  /** `value` is spelled by `items`: words of pieces, and blanks between them. */
  datatype Item = Blank(c: char) | Part(piece: Piece)

  function Written(items: seq<Item>): string {
    if items == [] then ""
    else
      (match items[0]
       case Blank(c) => [c]
       case Part(Bare(c)) => [c]
       case Part(Quotes(run)) => "\"" + WrittenRun(run) + "\"") + Written(items[1..])
  }

  predicate Fine(items: seq<Item>) {
    forall i | 0 <= i < |items| ::
      match items[i]
      case Blank(c) => c == ' ' || c == '\t'
      case Part(Bare(c)) => c != ' ' && c != '\t' && c != '\"'
      case Part(Quotes(run)) => forall j | 0 <= j < |run| :: FineIn(run[j])
  }

  /** The words: what stands between blanks, put together. */
  function Words(items: seq<Item>, cur: string, have: bool): Args {
    if items == [] then (if have then [cur] else [])
    else
      match items[0]
      case Blank(_) => (if have then [cur] else []) + Words(items[1..], "", false)
      case Part(Bare(c)) => Words(items[1..], cur + [c], true)
      case Part(Quotes(run)) => Words(items[1..], cur + ReadRun(run), true)
  }

  lemma {:induction false} RunIsRead(run: seq<Within>, rest: string, cur: string)
    requires forall j | 0 <= j < |run| :: FineIn(run[j])
    ensures Quoted(WrittenRun(run) + ['\"'] + rest, cur) == Outside(rest, cur + ReadRun(run), true)
    decreases |run|
  {
    var value := WrittenRun(run) + ['\"'] + rest;
    if run == [] {
      assert value[0] == '\"' && value[1..] == rest && cur + "" == cur;
    } else {
      var tail := WrittenRun(run[1..]) + ['\"'] + rest;
      var w := run[0];
      assert FineIn(w);
      RunIsRead(run[1..], rest, cur + ReadIn(w));
      assert cur + ReadIn(w) + ReadRun(run[1..]) == cur + ReadRun(run);
      if w.AsIs? {
        assert value[0] == w.c && value[1..] == tail;
      } else {
        assert value[0] == '\\' && value[1] == w.c && value[2..] == tail;
        FourEscape(w.c);
      }
    }
  }

  lemma FourEscape(c: char)
    ensures Escapable(c) <==> c in "\"`$\\"
  {
  }

  lemma {:induction false} ItemsAreRead(items: seq<Item>, cur: string, have: bool)
    requires Fine(items) && (!have ==> cur == "")
    ensures Outside(Written(items), cur, have) == Ok(Words(items, cur, have))
    decreases |items|
  {
    hide WrittenRun, ReadRun, FineIn, Quoted;
    if items != [] {
      var rest := Written(items[1..]);
      var value := Written(items);
      assert forall i | 0 <= i < |items[1..]| :: items[1..][i] == items[i + 1];
      match items[0] {
        case Blank(c) =>
          assert value[0] == c && value[1..] == rest;
          ItemsAreRead(items[1..], "", false);
          assert [] + Words(items[1..], "", false) == Words(items[1..], "", false);
        case Part(Bare(c)) =>
          assert value[0] == c && value[1..] == rest;
          ItemsAreRead(items[1..], cur + [c], true);
        case Part(Quotes(run)) =>
          assert value[0] == '\"' && value[1..] == WrittenRun(run) + ['\"'] + rest;
          RunIsRead(run, rest, cur);
          ItemsAreRead(items[1..], cur + ReadRun(run), true);
      }
    }
  }

  lemma OneRead(value: string, cur: string, n: nat, w: Within)
    requires value != "" && value[0] != '\"' && Quoted(value, cur).Ok?
    requires n == (if value[0] == '\\' then 2 else 1)
    requires w == if value[0] == '\\' && |value| > 1 then Slashed(value[1]) else AsIs(value[0])
    ensures n <= |value| && WrittenIn(w) == value[..n] && FineIn(w)
    ensures Quoted(value, cur) == Quoted(value[n..], cur + ReadIn(w))
  {
    FourEscape(w.c);
  }

  lemma OneMoreWritten(value: string, n: nat, w: Within, more: seq<Within>, rest: string, cur: string)
    requires n <= |value| && WrittenIn(w) == value[..n] && value[n..] == WrittenRun(more) + ['\"'] + rest
    ensures value == WrittenRun([w] + more) + ['\"'] + rest
    ensures cur + ReadIn(w) + ReadRun(more) == cur + ReadRun([w] + more)
  {
    hide WrittenIn, ReadIn;
    assert ([w] + more)[1..] == more;
    assert value == value[..n] + value[n..];
  }

  lemma {:induction false} RunIsWritten(value: string, cur: string) returns (run: seq<Within>, rest: string)
    requires Quoted(value, cur).Ok?
    ensures (forall j | 0 <= j < |run| :: FineIn(run[j])) && value == WrittenRun(run) + ['\"'] + rest
    ensures |rest| < |value| && Quoted(value, cur) == Outside(rest, cur + ReadRun(run), true)
    decreases |value|
  {
    if value[0] == '\"' {
      run, rest := [], value[1..];
      assert value == "" + ['\"'] + rest && cur + "" == cur;
    } else {
      var n := if value[0] == '\\' then 2 else 1;
      var w := if n == 2 then Slashed(value[1]) else AsIs(value[0]);
      OneRead(value, cur, n, w);
      hide Quoted, Outside, ReadIn, WrittenIn;
      var more: seq<Within>;
      more, rest := RunIsWritten(value[n..], cur + ReadIn(w));
      run := [w] + more;
      OneMoreWritten(value, n, w, more, rest, cur);
    }
  }

  lemma {:induction false} ValueIsWritten(value: string, cur: string, have: bool) returns (items: seq<Item>)
    requires Outside(value, cur, have).Ok? && (!have ==> cur == "")
    ensures Fine(items) && Written(items) == value
    decreases |value|
  {
    if value == "" {
      items := [];
    } else {
      var item, more;
      if value[0] == '\"' {
        var run, rest := RunIsWritten(value[1..], cur);
        item := Part(Quotes(run));
        more := ValueIsWritten(rest, cur + ReadRun(run), true);
        assert value == "\"" + value[1..] && value[1..] == WrittenRun(run) + "\"" + rest;
        assert value == "\"" + WrittenRun(run) + "\"" + rest;
      } else {
        item := if IsBlank(value[0]) then Blank(value[0]) else Part(Bare(value[0]));
        if IsBlank(value[0]) {
          more := ValueIsWritten(value[1..], "", false);
        } else {
          more := ValueIsWritten(value[1..], cur + [value[0]], true);
        }
        assert value == [value[0]] + value[1..];
      }
      items := [item] + more;
      assert items[1..] == more;
    }
  }

  /** A value splits into some words if and only if it is written of pieces and
      blanks that give those words. */
  lemma SplitsExactly(value: string, args: Args)
    ensures SplitExec(value) == Ok(args) <==>
            exists items :: Fine(items) && Written(items) == value && Words(items, "", false) == args
  {
    hide Fine, Written, Words, Outside;
    if SplitExec(value) == Ok(args) {
      var items := ValueIsWritten(value, "", false);
      ItemsAreRead(items, "", false);
    }
    if items :| Fine(items) && Written(items) == value && Words(items, "", false) == args {
      ItemsAreRead(items, "", false);
    }
  }

  // Joining.

  /** Characters that have to be quoted. */
  const RESERVED: string := " \t\n\"'\\><~|&;$*?#()`"

  function EachEscaped(arg: string): string {
    if arg == "" then ""
    else (if arg[0] in "\"`$\\" then "\\" else "") + [arg[0]] + EachEscaped(arg[1..])
  }

  /** `word` is `arg` as the Desktop Entry Specification wants it written. */
  ghost predicate WrittenAs(arg: string, word: string) {
    if arg == "" || exists c | c in arg :: c in RESERVED then word == "\"" + EachEscaped(arg) + "\""
    else word == arg
  }

  function Spaced(words: Args): string {
    if words == [] then ""
    else if |words| == 1 then words[0]
    else Spaced(words[..|words| - 1]) + " " + words[|words| - 1]
  }

  lemma ReservedExactly(c: char)
    ensures Reserved(c) <==> c in RESERVED
  {
  }

  lemma {:induction false} EscapeExactly(arg: string)
    ensures Escape(arg) == EachEscaped(arg)
  {
    if arg != "" {
      FourEscape(arg[0]);
      EscapeExactly(arg[1..]);
    }
  }

  lemma QuoteExactly(arg: string)
    ensures WrittenAs(arg, Quote(arg))
  {
    hide Reserved;
    EscapeExactly(arg);
    forall i | 0 <= i < |arg|
      ensures Reserved(arg[i]) <==> arg[i] in RESERVED
    {
      ReservedExactly(arg[i]);
    }
    assert arg != "" && (exists c | c in arg :: c in RESERVED) ==> exists i :: 0 <= i < |arg| && arg[i] in RESERVED;
  }

  lemma {:induction false} SpacedFirst(first: string, words: Args)
    requires words != []
    ensures Spaced([first] + words) == first + " " + Spaced(words)
    decreases |words|
  {
    var all := [first] + words;
    if |words| == 1 {
      assert all[..1] == [first];
    } else {
      var n := |words| - 1;
      SpacedFirst(first, words[..n]);
      assert all[..|all| - 1] == [first] + words[..n];
      Regrouped(first, Spaced(words[..n]), words[n]);
    }
  }

  lemma Regrouped(a: string, b: string, c: string)
    ensures a + " " + b + " " + c == a + " " + (b + " " + c)
  {
  }

  /** A joined value is the arguments, each written as it has to be, with one
      space between them. */
  lemma {:induction false} JoinsExactly(args: Args) returns (words: Args)
    ensures |words| == |args| && (forall i | 0 <= i < |args| :: WrittenAs(args[i], words[i])) && JoinExec(args) == Spaced(words)
    decreases |args|
  {
    hide WrittenAs, Quote;
    words := [];
    if args != [] {
      QuoteExactly(args[0]);
      var rest := JoinsExactly(args[1..]);
      words := [Quote(args[0])] + rest;
      if |args| > 1 {
        SpacedFirst(Quote(args[0]), rest);
        assert [' '] + JoinExec(args[1..]) == " " + Spaced(rest);
      }
    }
  }

  // Rewriting.

  /** The words of `args` but those to remove, which field codes never are. */
  function Filtered(args: Args, remove: Args): Args {
    if args == [] then []
    else
      var last := args[|args| - 1];
      Filtered(args[..|args| - 1], remove)
      + if last in remove && !(|last| == 2 && last[0] == '%' && (last[1] as int) < 128) then [] else [last]
  }

  lemma {:induction false} KeptLast(args: Args, last: string, remove: Args)
    ensures Kept(args + [last], remove) == Kept(args, remove) + Kept([last], remove)
    decreases |args|
  {
    hide Keeps;
    if args == [] {
      assert [] + [last] == [last];
    } else {
      assert (args + [last])[1..] == args[1..] + [last];
      KeptLast(args[1..], last, remove);
      ThreeArgs(if Keeps(args[0], remove) then [args[0]] else [], Kept(args[1..], remove), Kept([last], remove));
    }
  }

  lemma ThreeArgs(a: Args, b: Args, c: Args)
    ensures a + (b + c) == a + b + c
  {
  }

  lemma {:induction false} KeptExactly(args: Args, remove: Args)
    ensures Kept(args, remove) == Filtered(args, remove)
    decreases |args|
  {
    if args != [] {
      var n := |args| - 1;
      KeptExactly(args[..n], remove);
      KeptLast(args[..n], args[n], remove);
      assert args == args[..n] + [args[n]];
      assert [args[n]][1..] == [];
    }
  }

  /** What an `Exec` of `args` runs through psbox: the same command line when
      it begins with `env` or a path, and else the sandbox's own command with
      the arguments. */
  function Through(t: Target, args: Args, remove: Args): Args
    requires args != []
  {
    if args[0] == "env" || '/' in args[0]
    then [t.psbox, "run", t.sandbox, "--app", t.app, "--exec", "--"] + Filtered(args, remove)
    else [t.psbox, "run", t.sandbox, "--app", t.app, "--"] + Filtered(args[1..], remove)
  }

  /** An `Exec` has no launch when it cannot be split or is empty; else it runs
      through psbox what it should. */
  lemma LaunchesExactly(exec: string, t: Target, remove: Args)
    ensures var launch, args := LaunchFor(exec, remove), SplitExec(exec);
            && (launch.Ok? <==> args.Ok? && args.value != [])
            && (args == Ok([]) ==> launch == Err(EmptyExec)) && (args.Err? ==> launch == Err(args.error))
            && (launch.Ok? ==> Wrapped(t, launch.value) == Through(t, args.value, remove))
  {
    hide SplitExec, Kept, Filtered;
    var args := SplitExec(exec);
    if args.Ok? && args.value != [] {
      KeptExactly(args.value, remove);
      KeptExactly(args.value[1..], remove);
    }
  }

  /** In a rewritten entry whose main and action sections have names of their
      own, an `Exec` that ran some words runs them through psbox, and every
      other value is as it was. */
  lemma RewritesTo(sections: seq<Section>, t: Target, remove: Args, n: string, k: string)
    requires Distinct(ExecSections(sections)) && RewriteAll(sections, ExecSections(sections), t, remove).Ok?
    ensures var before, after := Get(sections, n, k), Get(RewriteAll(sections, ExecSections(sections), t, remove).value, n, k);
            if k == "Exec" && before.Some? && (n == "Desktop Entry" || exists name :: n == "Desktop Action " + name) then
              exists args :: args != [] && SplitExec(before.value) == Ok(args)
                             && after.Some? && SplitExec(after.value) == Ok(Through(t, args, remove))
            else after == before
  {
    hide SplitExec, LaunchFor, Wrapped, Get, Through, RewriteAll, Distinct;
    RewriteKeepsArguments(sections, ExecSections(sections), t, remove, n, k);
    ExecNames(n);
    var before := Get(sections, n, k);
    if before.Some? {
      LaunchesExactly(before.value, t, remove);
      FoundSection(sections, n, k);
    }
  }

  lemma ExecNames(n: string)
    ensures IsExecSection(n) <==> n == "Desktop Entry" || exists name :: n == "Desktop Action " + name
  {
    if ACTION_PREFIX <= n {
      assert n == "Desktop Action " + n[|ACTION_PREFIX|..];
    }
  }

  lemma {:induction false} FoundSection(sections: seq<Section>, n: string, k: string)
    ensures Get(sections, n, k).Some? ==> (n in ExecSections(sections) <==> IsExecSection(n))
    ensures n in ExecSections(sections) ==> IsExecSection(n)
  {
    if sections != [] {
      FoundSection(sections[1..], n, k);
    }
  }

  // Setting a value.

  predicate Sets(l: Line, key: string) {
    l.Key? && l.key == key
  }

  function WithoutKey(lines: seq<Line>, key: string): seq<Line> {
    if lines == [] then []
    else
      var n := |lines| - 1;
      WithoutKey(lines[..n], key) + if Sets(lines[n], key) then [] else [lines[n]]
  }

  lemma {:induction false} WithoutFirst(lines: seq<Line>, key: string)
    requires lines != []
    ensures WithoutKey(lines, key) == (if Sets(lines[0], key) then [] else [lines[0]]) + WithoutKey(lines[1..], key)
    decreases |lines|
  {
    if |lines| > 1 {
      var n := |lines| - 1;
      WithoutFirst(lines[..n], key);
      assert lines[..n][1..] == lines[1..][..n - 1] && lines[1..][n - 1] == lines[n];
    } else {
      assert lines[..0] == [] && lines[1..] == [];
    }
  }

  lemma {:induction false} DroppedExactly(lines: seq<Line>, key: string, value: string)
    ensures ReplaceLines(lines, key, value, true) == WithoutKey(lines, key)
    decreases |lines|
  {
    if lines != [] {
      DroppedExactly(lines[1..], key, value);
      WithoutFirst(lines, key);
    }
  }

  /** The first line of the key is at `i`. */
  predicate FirstAt(lines: seq<Line>, key: string, i: nat) {
    i < |lines| && Sets(lines[i], key) && forall j | 0 <= j < i :: !Sets(lines[j], key)
  }

  lemma {:induction false} ReplacedExactly(lines: seq<Line>, key: string, value: string, i: nat)
    requires FirstAt(lines, key, i)
    ensures ReplaceLines(lines, key, value, false) == lines[..i] + [Key(key, value)] + WithoutKey(lines[i + 1..], key)
    ensures GetLine(lines, key).Some?
    decreases |lines|
  {
    hide WithoutKey;
    if i == 0 {
      DroppedExactly(lines[1..], key, value);
      assert lines[..0] == [];
    } else {
      assert forall j | 0 <= j < i - 1 :: lines[1..][j] == lines[j + 1];
      ReplacedExactly(lines[1..], key, value, i - 1);
      assert lines[1..][i..] == lines[i + 1..] && lines[..i] == [lines[0]] + lines[1..][..i - 1];
      ThreeLines([lines[0]], lines[1..][..i - 1], [Key(key, value)] + WithoutKey(lines[i + 1..], key));
      ThreeLines(lines[..i], [Key(key, value)], WithoutKey(lines[i + 1..], key));
      ThreeLines(lines[1..][..i - 1], [Key(key, value)], WithoutKey(lines[i + 1..], key));
    }
  }

  lemma ThreeLines(a: seq<Line>, b: seq<Line>, c: seq<Line>)
    ensures a + b + c == a + (b + c)
  {
  }

  lemma {:induction false} NoneFound(lines: seq<Line>, key: string)
    requires forall j | 0 <= j < |lines| :: !Sets(lines[j], key)
    ensures GetLine(lines, key).None?
  {
    if lines != [] {
      assert forall j | 0 <= j < |lines| - 1 :: lines[1..][j] == lines[j + 1];
      NoneFound(lines[1..], key);
    }
  }

  /** Setting a key replaces its first line where it is and drops its others;
      a new one goes just after the last key, before what follows it. Every
      other line stays. */
  lemma SetsExactly(lines: seq<Line>, key: string, value: string)
    ensures forall i: nat | FirstAt(lines, key, i) ::
              SetLines(lines, key, value) == lines[..i] + [Key(key, value)] + WithoutKey(lines[i + 1..], key)
    ensures (forall j | 0 <= j < |lines| :: !Sets(lines[j], key)) ==>
              exists i: nat :: i <= |lines| && SetLines(lines, key, value) == lines[..i] + [Key(key, value)] + lines[i..]
                               && (i > 0 ==> lines[i - 1].Key?) && forall j | i <= j < |lines| :: lines[j].Other?
  {
    hide ReplaceLines, GetLine, KeysEnd;
    forall i: nat | FirstAt(lines, key, i)
      ensures SetLines(lines, key, value) == lines[..i] + [Key(key, value)] + WithoutKey(lines[i + 1..], key)
    {
      ReplacedExactly(lines, key, value, i);
    }
    if forall j | 0 <= j < |lines| :: !Sets(lines[j], key) {
      NoneFound(lines, key);
      var i := KeysEnd(lines);
      assert SetLines(lines, key, value) == lines[..i] + [Key(key, value)] + lines[i..];
    }
  }
}
