/** When rewriting an entry keeps its promise, for entries whose sections may
    share names. */
module DesktopRewrites {
  import opened Wrappers
  import opened ExecQuoting
  import opened DesktopEntries

  function Times(names: seq<string>, n: string): nat {
    if names == [] then 0 else (if names[0] == n then 1 else 0) + Times(names[1..], n)
  }

  /** None of the words psbox adds is one of those to remove. */
  ghost predicate KeepsOwn(t: Target, remove: Args) {
    forall w | w in TargetCommand(t) + ["--exec", "--"] :: Keeps(w, remove)
  }

  ghost predicate AllKeep(args: Args, remove: Args) {
    forall a | a in args :: Keeps(a, remove)
  }

  lemma {:induction false} KeptKeeps(args: Args, remove: Args)
    ensures AllKeep(Kept(args, remove), remove)
    ensures AllKeep(args, remove) ==> Kept(args, remove) == args
  {
    hide Keeps;
    if args != [] {
      KeptKeeps(args[1..], remove);
      assert args == [args[0]] + args[1..];
    }
  }

  lemma WrappedKeeps(t: Target, launch: Launch, remove: Args)
    requires KeepsOwn(t, remove) && AllKeep(launch.args, remove)
    ensures AllKeep(Wrapped(t, launch), remove) && |Wrapped(t, launch)| >= |launch.args| + 6
  {
    hide Keeps;
    assert "--exec" in TargetCommand(t) + ["--exec", "--"] && "--" in TargetCommand(t) + ["--exec", "--"];
    assert forall w | w in TargetCommand(t) :: w in TargetCommand(t) + ["--exec", "--"];
    assert forall w | w in Marker(launch) :: w == "--exec" || w == "--";
  }

  /** What a launch keeps is kept, and all of an `Exec` whose words are all
      kept but perhaps its first. */
  lemma LaunchKeeps(exec: string, remove: Args)
    requires LaunchFor(exec, remove).Ok?
    ensures AllKeep(LaunchFor(exec, remove).value.args, remove)
    ensures SplitExec(exec).Ok?
    ensures AllKeep(SplitExec(exec).value, remove) ==>
              |LaunchFor(exec, remove).value.args| >= |SplitExec(exec).value| - 1
  {
    hide SplitExec, Keeps, Kept;
    var args := SplitExec(exec).value;
    KeptKeeps(args, remove);
    KeptKeeps(args[1..], remove);
    assert forall a | a in args[1..] :: a in args;
  }

  /** Rewriting an `Exec` again makes it longer. */
  lemma {:induction false} RewriteGrows(
    sections: seq<Section>, names: seq<string>, t: Target, remove: Args, n: string, args: Args)
    requires KeepsOwn(t, remove) && RewriteAll(sections, names, t, remove).Ok?
    requires Get(sections, n, EXEC).Some? && SplitExec(Get(sections, n, EXEC).value) == Ok(args) && AllKeep(args, remove)
    ensures var v := Get(RewriteAll(sections, names, t, remove).value, n, EXEC);
            && v.Some? && SplitExec(v.value).Ok?
            && (n !in names ==> v == Get(sections, n, EXEC))
            && (n in names ==> |SplitExec(v.value).value| > |args|)
    decreases |names|
  {
    hide SplitExec, JoinExec, LaunchFor, Wrapped, Get, SetIn, Keeps, KeepsOwn, AllKeep, TargetCommand;
    if names != [] {
      var name, rest := names[0], names[1..];
      assert n in names <==> n == name || n in rest;
      var exec := Get(sections, name, EXEC);
      if exec == None {
        RewriteGrows(sections, rest, t, remove, n, args);
      } else {
        var launch := LaunchFor(exec.value, remove).value;
        var wrapped := Wrapped(t, launch);
        var next := SetIn(sections, name, EXEC, JoinExec(wrapped));
        FoundWhenGot(sections, name);
        GetAfterSet(sections, name, EXEC, JoinExec(wrapped), n, EXEC);
        if n == name {
          LaunchKeeps(exec.value, remove);
          WrappedKeeps(t, launch, remove);
          SplitUndoesJoin(wrapped);
          RewriteGrows(next, rest, t, remove, n, wrapped);
        } else {
          RewriteGrows(next, rest, t, remove, n, args);
        }
      }
    }
  }

  lemma {:induction false} NoneStays(sections: seq<Section>, names: seq<string>, t: Target, remove: Args, n: string)
    requires RewriteAll(sections, names, t, remove).Ok? && Get(sections, n, EXEC).None?
    ensures Get(RewriteAll(sections, names, t, remove).value, n, EXEC).None?
    decreases |names|
  {
    hide JoinExec, LaunchFor, Wrapped, Get, SetIn;
    if names != [] {
      var name, rest := names[0], names[1..];
      var exec := Get(sections, name, EXEC);
      if exec == None {
        NoneStays(sections, rest, t, remove, n);
      } else {
        var wrapped := JoinExec(Wrapped(t, LaunchFor(exec.value, remove).value));
        FoundWhenGot(sections, name);
        GetAfterSet(sections, name, EXEC, wrapped, n, EXEC);
        NoneStays(SetIn(sections, name, EXEC, wrapped), rest, t, remove, n);
      }
    }
  }

  lemma {:induction false} TimesIn(names: seq<string>, n: string)
    ensures Times(names, n) > 0 <==> n in names
  {
    if names != [] {
      TimesIn(names[1..], n);
      assert names == [names[0]] + names[1..];
    }
  }

  /** The `Exec` of a section keeps the promise if and only if it has none or
      no other section to rewrite shares its name. */
  lemma {:induction false} RewritesExactly(
    sections: seq<Section>, names: seq<string>, t: Target, remove: Args, n: string)
    requires KeepsOwn(t, remove) && RewriteAll(sections, names, t, remove).Ok? && n in names
    ensures RewrittenValue(
              Get(sections, n, EXEC), Get(RewriteAll(sections, names, t, remove).value, n, EXEC), t, remove)
            <==> Get(sections, n, EXEC).None? || Times(names, n) == 1
    decreases |names|
  {
    hide SplitExec, JoinExec, LaunchFor, Wrapped, Get, SetIn, Keeps, KeepsOwn, AllKeep, TargetCommand;
    var name, rest := names[0], names[1..];
    assert n in names <==> n == name || n in rest;
    TimesIn(rest, n);
    var exec := Get(sections, name, EXEC);
    if exec == None {
      if n == name {
        NoneStays(sections, names, t, remove, n);
      } else {
        RewritesExactly(sections, rest, t, remove, n);
      }
    } else {
      var launch := LaunchFor(exec.value, remove).value;
      var wrapped := Wrapped(t, launch);
      var next := SetIn(sections, name, EXEC, JoinExec(wrapped));
      FoundWhenGot(sections, name);
      GetAfterSet(sections, name, EXEC, JoinExec(wrapped), n, EXEC);
      if n == name {
        LaunchKeeps(exec.value, remove);
        WrappedKeeps(t, launch, remove);
        SplitUndoesJoin(wrapped);
        RewriteGrows(next, rest, t, remove, n, wrapped);
      } else {
        RewritesExactly(next, rest, t, remove, n);
      }
    }
  }
}
