/** Desktop entries edited in place, and the rewrite that makes every `Exec`
    launch through psbox. */
module DesktopEntries {
  import opened Wrappers
  import opened ExecQuoting

  datatype Line = Other(text: string) | Key(key: string, value: string)

  datatype Section = Section(name: string, lines: seq<Line>)

  const MAIN := "Desktop Entry"
  const ACTION_PREFIX := "Desktop Action "
  const EXEC := "Exec"

  function GetLine(lines: seq<Line>, key: string): Option<string> {
    if lines == [] then None
    else if lines[0].Key? && lines[0].key == key then Some(lines[0].value)
    else GetLine(lines[1..], key)
  }

  /** The first section of a name, or one past the last. */
  function Find(sections: seq<Section>, name: string): (i: nat)
    ensures i <= |sections|
    ensures i < |sections| ==> sections[i].name == name
    ensures forall j | 0 <= j < i :: sections[j].name != name
  {
    if sections == [] || sections[0].name == name then 0 else 1 + Find(sections[1..], name)
  }

  function Get(sections: seq<Section>, name: string, key: string): Option<string> {
    var i := Find(sections, name);
    if i == |sections| then None else GetLine(sections[i].lines, key)
  }

  /** `lines` with the first value of `key` replaced and the others gone. */
  function ReplaceLines(lines: seq<Line>, key: string, value: string, done: bool): seq<Line> {
    if lines == [] then []
    else if lines[0].Key? && lines[0].key == key then
      (if done then [] else [Key(key, value)]) + ReplaceLines(lines[1..], key, value, true)
    else [lines[0]] + ReplaceLines(lines[1..], key, value, done)
  }

  /** Where the lines that are not keys begin at the end. */
  function KeysEnd(lines: seq<Line>): (i: nat)
    ensures i <= |lines|
    ensures i > 0 ==> lines[i - 1].Key?
    ensures forall j | i <= j < |lines| :: lines[j].Other?
  {
    if lines == [] then 0
    else if lines[|lines| - 1].Key? then |lines|
    else KeysEnd(lines[..|lines| - 1])
  }

  function SetLines(lines: seq<Line>, key: string, value: string): seq<Line> {
    if GetLine(lines, key).Some? then ReplaceLines(lines, key, value, false)
    else
      var at := KeysEnd(lines);
      lines[..at] + [Key(key, value)] + lines[at..]
  }

  function SetIn(sections: seq<Section>, name: string, key: string, value: string): (r: seq<Section>)
    ensures |r| == |sections|
    ensures forall j | 0 <= j < |r| :: r[j].name == sections[j].name
  {
    var i := Find(sections, name);
    if i == |sections| then sections
    else sections[i := sections[i].(lines := SetLines(sections[i].lines, key, value))]
  }

  lemma {:induction false} GetAfterReplace(lines: seq<Line>, key: string, value: string, done: bool, k: string)
    ensures k != key ==> GetLine(ReplaceLines(lines, key, value, done), k) == GetLine(lines, k)
    ensures k == key ==> GetLine(ReplaceLines(lines, key, value, done), k)
                         == if done || GetLine(lines, key) == None then None else Some(value)
    decreases |lines|
  {
    if lines != [] {
      var rest := ReplaceLines(lines[1..], key, value, done || (lines[0].Key? && lines[0].key == key));
      GetAfterReplace(lines[1..], key, value, done || (lines[0].Key? && lines[0].key == key), k);
      assert ([lines[0]] + rest)[1..] == rest;
      assert ([Key(key, value)] + rest)[1..] == rest;
      assert [] + rest == rest;
    }
  }

  lemma {:induction false} GetAppend(a: seq<Line>, b: seq<Line>, k: string)
    ensures GetLine(a + b, k) == if GetLine(a, k).Some? then GetLine(a, k) else GetLine(b, k)
    decreases |a|
  {
    if a == [] {
      assert a + b == b;
    } else {
      assert (a + b)[0] == a[0] && (a + b)[1..] == a[1..] + b;
      GetAppend(a[1..], b, k);
    }
  }

  lemma GetAfterSetLines(lines: seq<Line>, key: string, value: string, k: string)
    ensures GetLine(SetLines(lines, key, value), k) == if k == key then Some(value) else GetLine(lines, k)
  {
    if GetLine(lines, key).Some? {
      GetAfterReplace(lines, key, value, false, k);
    } else {
      var at := KeysEnd(lines);
      var line := [Key(key, value)];
      GetAppend(lines[..at], line + lines[at..], k);
      GetAppend(line, lines[at..], k);
      assert line[1..] == [];
      GetAppend(lines[..at], lines[at..], k);
      assert lines[..at] + lines[at..] == lines;
      assert lines[..at] + line + lines[at..] == lines[..at] + (line + lines[at..]);
    }
  }

  /** Setting a key of a section changes that value and no other. */
  lemma GetAfterSet(sections: seq<Section>, name: string, key: string, value: string, n: string, k: string)
    requires Find(sections, name) < |sections|
    ensures Get(SetIn(sections, name, key, value), n, k)
            == if n == name && k == key then Some(value) else Get(sections, n, k)
  {
    var after := SetIn(sections, name, key, value);
    var i := Find(sections, n);
    SameFind(sections, after, n);
    if i < |sections| && i == Find(sections, name) {
      GetAfterSetLines(sections[i].lines, key, value, k);
    }
  }

  lemma SameFind(a: seq<Section>, b: seq<Section>, name: string)
    requires |a| == |b| && forall j | 0 <= j < |a| :: a[j].name == b[j].name
    ensures Find(a, name) == Find(b, name)
  {
  }

  predicate IsExecSection(name: string) {
    name == MAIN || ACTION_PREFIX <= name
  }

  function ExecSections(sections: seq<Section>): seq<string> {
    if sections == [] then []
    else (if IsExecSection(sections[0].name) then [sections[0].name] else []) + ExecSections(sections[1..])
  }

  /** The sections after rewriting the `Exec` of each section in `names`, or
      the first failure. */
  function RewriteAll(sections: seq<Section>, names: seq<string>, t: Target, remove: Args): Result<seq<Section>, ExecError>
    decreases |names|
  {
    if names == [] then Ok(sections) else
      var exec := Get(sections, names[0], EXEC);
      if exec == None then RewriteAll(sections, names[1..], t, remove) else
        match LaunchFor(exec.value, remove)
        case Err(e) => Err(e)
        case Ok(launch) =>
          RewriteAll(SetIn(sections, names[0], EXEC, JoinExec(Wrapped(t, launch))), names[1..], t, remove)
  }

  /** The `Exec` of a section cannot be rewritten. */
  predicate LaunchesNone(sections: seq<Section>, name: string, remove: Args) {
    Get(sections, name, EXEC).Some? && LaunchFor(Get(sections, name, EXEC).value, remove).Err?
  }

  /** `now` is what the sections are once those before `names[i]` are
      rewritten, and that one cannot be. */
  ghost predicate StopsAt(sections: seq<Section>, names: seq<string>, i: nat, t: Target, remove: Args, now: seq<Section>)
    requires i < |names|
  {
    RewriteAll(sections, names[..i], t, remove) == Ok(now) && LaunchesNone(now, names[i], remove)
  }

  lemma {:induction false} RewriteOneMore(sections: seq<Section>, names: seq<string>, n: string, t: Target, remove: Args)
    ensures RewriteAll(sections, names + [n], t, remove) ==
            match RewriteAll(sections, names, t, remove)
            case Ok(next) => RewriteAll(next, [n], t, remove)
            case Err(e) => Err(e)
    decreases |names|
  {
    hide JoinExec, LaunchFor, Wrapped, Get, SetIn;
    if names == [] {
      assert [] + [n] == [n];
    } else {
      assert (names + [n])[0] == names[0] && (names + [n])[1..] == names[1..] + [n];
      var exec := Get(sections, names[0], EXEC);
      if exec == None {
        RewriteOneMore(sections, names[1..], n, t, remove);
      } else if LaunchFor(exec.value, remove).Ok? {
        var wrapped := JoinExec(Wrapped(t, LaunchFor(exec.value, remove).value));
        RewriteOneMore(SetIn(sections, names[0], EXEC, wrapped), names[1..], n, t, remove);
      }
    }
  }

  /** What the rewrite promises of the value of a key. */
  ghost predicate RewrittenValue(before: Option<string>, after: Option<string>, t: Target, remove: Args) {
    if before == None then after == None
    else
      && LaunchFor(before.value, remove).Ok?
      && after.Some?
      && SplitExec(after.value) == Ok(Wrapped(t, LaunchFor(before.value, remove).value))
  }

  ghost predicate Distinct(names: seq<string>) {
    forall i, j | 0 <= i < j < |names| :: names[i] != names[j]
  }

  /** When no two sections to rewrite share a name, each rewritten `Exec`
      splits into the psbox command, its marker, and the kept arguments of
      the original in order. Every other value is as it was. */
  lemma {:induction false} RewriteKeepsArguments(
    sections: seq<Section>, names: seq<string>, t: Target, remove: Args, n: string, k: string)
    requires Distinct(names)
    requires RewriteAll(sections, names, t, remove).Ok?
    ensures var after := RewriteAll(sections, names, t, remove).value;
            if n in names && k == EXEC
            then RewrittenValue(Get(sections, n, k), Get(after, n, k), t, remove)
            else Get(after, n, k) == Get(sections, n, k)
    decreases |names|
  {
    hide SplitExec, JoinExec, LaunchFor, Wrapped;
    if names != [] {
      var name, rest := names[0], names[1..];
      assert Distinct(rest);
      assert name !in rest;
      assert n in names <==> n == name || n in rest;
      var exec := Get(sections, name, EXEC);
      if exec == None {
        RewriteKeepsArguments(sections, rest, t, remove, n, k);
      } else {
        var launch := LaunchFor(exec.value, remove).value;
        var wrapped := JoinExec(Wrapped(t, launch));
        var next := SetIn(sections, name, EXEC, wrapped);
        GetAfterSet(sections, name, EXEC, wrapped, n, k);
        SplitUndoesJoin(Wrapped(t, launch));
        RewriteKeepsArguments(next, rest, t, remove, n, k);
      }
    }
  }

  /** Rewriting fails exactly when some `Exec` cannot be split or is empty. */
  lemma {:induction false} RewriteFails(sections: seq<Section>, names: seq<string>, t: Target, remove: Args)
    requires Distinct(names)
    ensures RewriteAll(sections, names, t, remove).Err? <==>
            exists n | n in names :: Get(sections, n, EXEC).Some? && LaunchFor(Get(sections, n, EXEC).value, remove).Err?
    decreases |names|
  {
    hide SplitExec, JoinExec, LaunchFor, Wrapped, Get;
    if names != [] {
      var name, rest := names[0], names[1..];
      assert names == [name] + rest;
      assert Distinct(rest);
      assert name !in rest;
      var exec := Get(sections, name, EXEC);
      if exec == None {
        RewriteFails(sections, rest, t, remove);
      } else if LaunchFor(exec.value, remove).Ok? {
        var wrapped := JoinExec(Wrapped(t, LaunchFor(exec.value, remove).value));
        var next := SetIn(sections, name, EXEC, wrapped);
        FoundWhenGot(sections, name);
        forall n | n in rest
          ensures Get(next, n, EXEC) == Get(sections, n, EXEC)
        {
          GetAfterSet(sections, name, EXEC, wrapped, n, EXEC);
        }
        RewriteFails(next, rest, t, remove);
      }
    }
  }

  lemma FoundWhenGot(sections: seq<Section>, name: string)
    requires Get(sections, name, EXEC).Some?
    ensures Find(sections, name) < |sections|
  {
  }

  /** Two sections of one name are rewritten twice, the first time over: the
      promise needs their names to be distinct. */
  lemma SharedNamesAreRewrittenTwice()
    ensures var sections := [Section(MAIN, [Key(EXEC, "a")]), Section(MAIN, [])];
            var t := Target("/p", "s", "x");
            && ExecSections(sections) == [MAIN, MAIN]
            && (var r := RewriteAll(sections, ExecSections(sections), t, []);
                r.Ok? && !RewrittenValue(Get(sections, MAIN, EXEC), Get(r.value, MAIN, EXEC), t, []))
  {
    hide JoinExec;
    var sections := [Section(MAIN, [Key(EXEC, "a")]), Section(MAIN, [])];
    var t := Target("/p", "s", "x");
    assert ExecSections(sections[1..]) == [MAIN];
    var first := Wrapped(t, Command([]));
    assert "a"[1..] == [] && "" + ['a'] == "a";
    assert Outside("a", "", false) == Outside([], "a", true);
    assert ["a"][1..] == [];
    assert LaunchFor("a", []) == Ok(Command([]));
    var next := SetIn(sections, MAIN, EXEC, JoinExec(first));
    GetAfterSet(sections, MAIN, EXEC, JoinExec(first), MAIN, EXEC);
    SplitUndoesJoin(first);
    KeptAll(first);
    assert '/' in first[0];
    var second := Wrapped(t, Exact(first));
    var last := SetIn(next, MAIN, EXEC, JoinExec(second));
    GetAfterSet(next, MAIN, EXEC, JoinExec(second), MAIN, EXEC);
    SplitUndoesJoin(second);
    assert [MAIN, MAIN][1..] == [MAIN] && [MAIN][1..] == [];
    assert RewriteAll(next, [MAIN], t, []) == Ok(last);
    assert RewriteAll(sections, [MAIN, MAIN], t, []) == Ok(last);
    assert |second| > |first|;
  }

  lemma {:induction false} KeptAll(args: Args)
    ensures Kept(args, []) == args
    decreases |args|
  {
    if args != [] {
      KeptAll(args[1..]);
      assert args == [args[0]] + args[1..];
    }
  }

  /** A desktop entry. */
  class Entry {
    var sections: seq<Section>

    constructor (sections: seq<Section>)
      ensures this.sections == sections
    {
      this.sections := sections;
    }

    /** The index of the first section of a name. */
    method IndexOf(name: string) returns (i: nat)
      ensures i == Find(sections, name)
    {
      i := 0;
      while i < |sections| && sections[i].name != name
        invariant i <= |sections|
        invariant forall j | 0 <= j < i :: sections[j].name != name
      {
        i := i + 1;
      }
      if i < |sections| {
        assert Find(sections, name) >= i;
      }
    }

    method Value(name: string, key: string) returns (v: Option<string>)
      ensures v == Get(sections, name, key)
    {
      var i := IndexOf(name);
      if i == |sections| {
        return None;
      }
      var lines := sections[i].lines;
      assert lines[0..] == lines;
      for j := 0 to |lines|
        invariant GetLine(lines[j..], key) == GetLine(lines, key)
      {
        assert lines[j..][1..] == lines[j + 1..];
        if lines[j].Key? && lines[j].key == key {
          return Some(lines[j].value);
        }
      }
      return None;
    }

    /** Sets `key` in the first section called `name`: its first value is
        replaced and the others go, or a line is added after the last key. */
    method Set(name: string, key: string, value: string)
      modifies this
      ensures sections == SetIn(old(sections), name, key, value)
    {
      hide KeysEnd, ReplaceLines, GetLine;
      var i := IndexOf(name);
      if i == |sections| {
        return;
      }
      var lines, done := Retain(sections[i].lines, key, value);
      if !done {
        lines := InsertAfterKeys(lines, Key(key, value));
      }
      sections := sections[i := sections[i].(lines := lines)];
    }

    /** Rewrites every `Exec` to launch through psbox, stopping at one that
        cannot be split. */
    method Rewrite(t: Target, remove: Args) returns (r: Result<(), ExecError>)
      modifies this
      ensures var names := ExecSections(old(sections));
              if r.Ok? then RewriteAll(old(sections), names, t, remove) == Ok(sections)
              else
                && RewriteAll(old(sections), names, t, remove) == Err(r.error)
                && exists i | 0 <= i < |names| :: StopsAt(old(sections), names, i, t, remove, sections)
    {
      hide SplitExec, JoinExec, LaunchFor, Wrapped, Get, SetIn;
      var names := ExecSections(sections);
      assert names[0..] == names && names[..0] == [];
      for i := 0 to |names|
        invariant RewriteAll(sections, names[i..], t, remove) == RewriteAll(old(sections), names, t, remove)
        invariant RewriteAll(old(sections), names[..i], t, remove) == Ok(sections)
      {
        assert names[i..][0] == names[i] && names[i..][1..] == names[i + 1..];
        assert names[..i + 1] == names[..i] + [names[i]] && [names[i]][1..] == [];
        RewriteOneMore(old(sections), names[..i], names[i], t, remove);
        assert LaunchesNone(sections, names[i], remove) ==> StopsAt(old(sections), names, i, t, remove, sections);
        var exec := Value(names[i], EXEC);
        if exec.Some? {
          var launch :- LaunchFor(exec.value, remove);
          Set(names[i], EXEC, JoinExec(Wrapped(t, launch)));
        }
      }
      return Ok(());
    }
  }

  /** Replaces the first value of `key` in place and drops the others. */
  method Retain(lines: seq<Line>, key: string, value: string) returns (kept: seq<Line>, done: bool)
    ensures done <==> GetLine(lines, key).Some?
    ensures kept == if done then ReplaceLines(lines, key, value, false) else lines
  {
    hide GetLine, ReplaceLines;
    kept := [];
    done := false;
    ghost var all := ReplaceLines(lines, key, value, false);
    NothingKept(key, value);
    assert lines[0..] == lines && lines[..0] == [] && [] + all == all;
    for j := 0 to |lines|
      invariant kept + ReplaceLines(lines[j..], key, value, done) == all
      invariant done <==> GetLine(lines[..j], key).Some?
      invariant !done ==> kept == lines[..j]
    {
      OneMoreLine(lines, j, key, value, kept, done);
      if lines[j].Key? && lines[j].key == key {
        if !done {
          kept := kept + [Key(key, value)];
          done := true;
        }
      } else {
        kept := kept + [lines[j]];
      }
    }
    assert lines[..|lines|] == lines && lines[|lines|..] == [] && kept + [] == kept;
  }

  lemma NothingKept(key: string, value: string)
    ensures GetLine([], key).None? && forall done :: ReplaceLines([], key, value, done) == []
  {
  }

  lemma OneMoreLine(lines: seq<Line>, j: nat, key: string, value: string, kept: seq<Line>, done: bool)
    requires j < |lines|
    ensures lines[..j + 1] == lines[..j] + [lines[j]]
    ensures GetLine(lines[..j + 1], key).Some? <==>
            GetLine(lines[..j], key).Some? || (lines[j].Key? && lines[j].key == key)
    ensures kept + ReplaceLines(lines[j..], key, value, done) ==
            if lines[j].Key? && lines[j].key == key
            then kept + (if done then [] else [Key(key, value)]) + ReplaceLines(lines[j + 1..], key, value, true)
            else kept + [lines[j]] + ReplaceLines(lines[j + 1..], key, value, done)
  {
    GetAppend(lines[..j], [lines[j]], key);
    assert lines[..j + 1] == lines[..j] + [lines[j]];
    assert lines[j..][0] == lines[j] && lines[j..][1..] == lines[j + 1..];
  }

  method InsertAfterKeys(lines: seq<Line>, line: Line) returns (r: seq<Line>)
    ensures r == lines[..KeysEnd(lines)] + [line] + lines[KeysEnd(lines)..]
  {
    var at := |lines|;
    while at > 0 && !lines[at - 1].Key?
      invariant 0 <= at <= |lines|
      invariant KeysEnd(lines) == KeysEnd(lines[..at])
    {
      assert lines[..at][..at - 1] == lines[..at - 1];
      at := at - 1;
    }
    r := lines[..at] + [line] + lines[at..];
  }
}
