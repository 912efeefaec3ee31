/** The `Exec` key of desktop entries: splitting a value into arguments,
    joining arguments into a value, and choosing what to launch. */
module ExecQuoting {
  import opened Wrappers

  datatype ExecError = UnterminatedEscape | UnterminatedQuote | EmptyExec

  type Args = seq<string>

  /** The characters a backslash escapes inside quotes. */
  predicate Escapable(c: char) {
    c == '\"' || c == '`' || c == '$' || c == '\\'
  }

  predicate IsBlank(c: char) {
    c == ' ' || c == '\t'
  }

  function Push(arg: string, rest: Result<Args, ExecError>): Result<Args, ExecError> {
    match rest
    case Ok(args) => Ok([arg] + args)
    case Err(e) => Err(e)
  }

  /** The arguments of `value` when `cur` has been read of the current one,
      which has started when `have`. */
  function Outside(value: string, cur: string, have: bool): Result<Args, ExecError>
    decreases |value|
  {
    if value == [] then Ok(if have then [cur] else [])
    else if value[0] == '\"' then Quoted(value[1..], cur)
    else if IsBlank(value[0]) then
      if have then Push(cur, Outside(value[1..], "", false)) else Outside(value[1..], cur, false)
    else Outside(value[1..], cur + [value[0]], true)
  }

  /** As `Outside`, between quotes. */
  function Quoted(value: string, cur: string): Result<Args, ExecError>
    decreases |value|
  {
    if value == [] then Err(UnterminatedQuote)
    else if value[0] == '\"' then Outside(value[1..], cur, true)
    else if value[0] == '\\' then
      if |value| == 1 then Err(UnterminatedEscape)
      else Quoted(value[2..], cur + (if Escapable(value[1]) then [value[1]] else ['\\', value[1]]))
    else Quoted(value[1..], cur + [value[0]])
  }

  function SplitExec(value: string): Result<Args, ExecError> {
    Outside(value, "", false)
  }

  predicate Reserved(c: char) {
    c == ' ' || c == '\t' || c == '\n' || c == '\"' || c == '\'' || c == '\\' || c == '>' || c == '<' || c == '~'
    || c == '|' || c == '&' || c == ';' || c == '$' || c == '*' || c == '?' || c == '#' || c == '(' || c == ')'
    || c == '`'
  }

  predicate NeedsQuoting(arg: string) {
    arg == [] || exists i | 0 <= i < |arg| :: Reserved(arg[i])
  }

  function Escape(arg: string): string {
    if arg == [] then []
    else (if Escapable(arg[0]) then ['\\', arg[0]] else [arg[0]]) + Escape(arg[1..])
  }

  function Quote(arg: string): string {
    if NeedsQuoting(arg) then ['\"'] + Escape(arg) + ['\"'] else arg
  }

  function JoinExec(args: Args): string {
    if args == [] then []
    else if |args| == 1 then Quote(args[0])
    else Quote(args[0]) + [' '] + JoinExec(args[1..])
  }

  lemma {:induction false} PlainIsRead(arg: string, rest: string, cur: string, have: bool)
    requires forall i | 0 <= i < |arg| :: !Reserved(arg[i])
    ensures Outside(arg + rest, cur, have) == Outside(rest, cur + arg, have || arg != [])
    decreases |arg|
  {
    if arg == [] {
      assert arg + rest == rest && cur + arg == cur;
    } else {
      var value := arg + rest;
      assert value[0] == arg[0] && value[1..] == arg[1..] + rest;
      assert !Reserved(arg[0]);
      PlainIsRead(arg[1..], rest, cur + [arg[0]], true);
      assert cur + [arg[0]] + arg[1..] == cur + arg;
    }
  }

  lemma {:induction false} EscapedIsRead(arg: string, rest: string, cur: string)
    ensures Quoted(Escape(arg) + ['\"'] + rest, cur) == Outside(rest, cur + arg, true)
    decreases |arg|
  {
    var value := Escape(arg) + ['\"'] + rest;
    if arg == [] {
      assert value[0] == '\"' && value[1..] == rest && cur + arg == cur;
    } else {
      var tail := Escape(arg[1..]) + ['\"'] + rest;
      EscapedIsRead(arg[1..], rest, cur + [arg[0]]);
      assert cur + [arg[0]] + arg[1..] == cur + arg;
      if Escapable(arg[0]) {
        assert value[0] == '\\' && value[1] == arg[0] && value[2..] == tail;
      } else {
        assert value[0] == arg[0] && value[1..] == tail;
      }
    }
  }

  lemma QuoteIsRead(arg: string, rest: string)
    ensures Outside(Quote(arg) + rest, "", false) == Outside(rest, arg, true)
  {
    hide Outside, Quoted, Escape, Reserved, Quote;
    assert "" + arg == arg;
    if NeedsQuoting(arg) {
      QuotedShape(arg, rest);
      OpenQuote(Escape(arg) + ['\"'] + rest);
      EscapedIsRead(arg, rest, "");
    } else {
      assert Quote(arg) == arg by {
        PlainShape(arg);
      }
      PlainIsRead(arg, rest, "", false);
    }
  }

  lemma QuotedShape(arg: string, rest: string)
    requires NeedsQuoting(arg)
    ensures Quote(arg) + rest == ['\"'] + (Escape(arg) + ['\"'] + rest)
  {
    hide Escape, NeedsQuoting;
  }

  lemma PlainShape(arg: string)
    requires !NeedsQuoting(arg)
    ensures Quote(arg) == arg
  {
    hide NeedsQuoting;
  }

  lemma OpenQuote(rest: string)
    ensures Outside(['\"'] + rest, "", false) == Quoted(rest, "")
  {
    hide Quoted;
    assert (['\"'] + rest)[1..] == rest;
  }

  /** Splitting undoes joining, for every list of arguments. */
  lemma {:induction false} SplitUndoesJoin(args: Args)
    ensures SplitExec(JoinExec(args)) == Ok(args)
    decreases |args|
  {
    if args == [] {
    } else if |args| == 1 {
      QuoteIsRead(args[0], "");
      assert Quote(args[0]) + "" == Quote(args[0]);
      assert args == [args[0]];
    } else {
      var rest := JoinExec(args[1..]);
      assert JoinExec(args) == Quote(args[0]) + ([' '] + rest);
      QuoteIsRead(args[0], [' '] + rest);
      assert ([' '] + rest)[1..] == rest;
      SplitUndoesJoin(args[1..]);
      assert args == [args[0]] + args[1..];
    }
  }

  /** Splits an `Exec` value, character by character. */
  method SplitExecOf(value: string) returns (r: Result<Args, ExecError>)
    ensures r == SplitExec(value)
  {
    var args: Args := [];
    var cur := "";
    var have := false;
    var i := 0;
    assert value[0..] == value;
    PushAllNothing(SplitExec(value));
    while i < |value|
      invariant 0 <= i <= |value|
      invariant SplitExec(value) == PushAll(args, Outside(value[i..], cur, have))
      decreases |value| - i
    {
      var c := value[i];
      i := i + 1;
      assert value[i - 1..][1..] == value[i..];
      if c == '\"' {
        have := true;
        var closed := false;
        ghost var start := i;
        while !closed
          invariant start <= i <= |value| && have
          invariant SplitExec(value)
                    == PushAll(args, if closed then Outside(value[i..], cur, true) else Quoted(value[i..], cur))
          decreases !closed, |value| - i
        {
          if i == |value| {
            return Err(UnterminatedQuote);
          }
          var q := value[i];
          i := i + 1;
          assert value[i - 1..][1..] == value[i..];
          if q == '\"' {
            closed := true;
          } else if q == '\\' {
            if i == |value| {
              return Err(UnterminatedEscape);
            }
            var e := value[i];
            i := i + 1;
            assert value[i - 2..][2..] == value[i..];
            if Escapable(e) {
              cur := cur + [e];
            } else {
              cur := cur + ['\\', e];
            }
          } else {
            cur := cur + [q];
          }
        }
      } else if IsBlank(c) {
        if have {
          PushAllOne(args, cur, Outside(value[i..], "", false));
          args := args + [cur];
          cur := "";
          have := false;
        }
      } else {
        cur := cur + [c];
        have := true;
      }
    }
    if have {
      args := args + [cur];
    } else {
      assert args + [] == args;
    }
    return Ok(args);
  }

  function PushAll(args: Args, rest: Result<Args, ExecError>): Result<Args, ExecError> {
    match rest
    case Ok(more) => Ok(args + more)
    case Err(e) => Err(e)
  }

  lemma PushAllNothing(rest: Result<Args, ExecError>)
    ensures PushAll([], rest) == rest
  {
    if rest.Ok? {
      assert [] + rest.value == rest.value;
    }
  }

  lemma PushAllOne(args: Args, arg: string, rest: Result<Args, ExecError>)
    ensures PushAll(args + [arg], rest) == PushAll(args, Push(arg, rest))
  {
    if rest.Ok? {
      assert args + [arg] + rest.value == args + ([arg] + rest.value);
    }
  }

  /** A field code such as `%u`: a percent sign and one more byte. */
  predicate IsFieldCode(arg: string) {
    |arg| == 2 && arg[0] == '%' && arg[1] as int < 0x80
  }

  predicate Keeps(arg: string, remove: Args) {
    IsFieldCode(arg) || arg !in remove
  }

  function Kept(args: Args, remove: Args): Args {
    if args == [] then []
    else (if Keeps(args[0], remove) then [args[0]] else []) + Kept(args[1..], remove)
  }

  /** What an `Exec` value runs inside the sandbox: a program's arguments, or
      an exact command line. */
  datatype Launch = Command(args: Args) | Exact(args: Args)

  function LaunchFor(exec: string, remove: Args): Result<Launch, ExecError> {
    match SplitExec(exec)
    case Err(e) => Err(e)
    case Ok(args) =>
      if args == [] then Err(EmptyExec)
      else if args[0] == "env" || '/' in args[0] then Ok(Exact(Kept(args, remove)))
      else Ok(Command(Kept(args[1..], remove)))
  }

  /** How an entry starts its sandbox app. */
  datatype Target = Target(psbox: string, sandbox: string, app: string)

  function TargetCommand(t: Target): Args {
    [t.psbox, "run", t.sandbox, "--app", t.app]
  }

  function Marker(launch: Launch): Args {
    match launch
    case Command(_) => ["--"]
    case Exact(_) => ["--exec", "--"]
  }

  /** The command line that runs `launch` through psbox. */
  function Wrapped(t: Target, launch: Launch): Args {
    TargetCommand(t) + Marker(launch) + launch.args
  }
}
