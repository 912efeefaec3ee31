/** How a running sandbox gets from one plan to another. */
module PlanDiff {
  import opened Wrappers
  import opened Mounts
  import opened Reload

  datatype DbusMode = Portal | Host
  datatype XwaylandMode = Builtin | Satellite
  datatype XwaylandScale = Native | RoundUp | Unscaled
  datatype Network = HostNetwork | Isolated | Loopback

  /** The parts of a plan that are compared. */
  datatype Plan = Plan(
    hostHomeDir: Option<Path>,
    home: Path,
    mounts: seq<Mount>,
    dbus: Option<DbusMode>,
    dbusTalk: seq<string>,
    xwayland: Option<XwaylandMode>,
    xwaylandScale: XwaylandScale,
    openUrls: seq<string>,
    network: Network,
    allow32bit: bool)

  /** A reason to restart. */
  datatype Reason =
    | Home | Dbus | DbusTalk | Xwayland | Scale | NetworkMode | ThirtyTwoBit | Links | HomeCache
    | MountAt(dst: Path)

  datatype Change = Change(restart: seq<Reason>, detach: seq<Mount>, attach: seq<Mount>)

  const X11_DIR: Path := ["tmp", ".X11-unix"]
  const PSBOX_DIR: Path := ["run", "psbox"]
  const PSBOX_BIN: Path := ["run", "psbox", "bin"]
  const RESOLV_CONF: Path := ["etc", "resolv.conf"]
  const RESOLVE_DIR: Path := ["run", "systemd", "resolve"]

  /** Mounts that can be attached and detached in a running sandbox. */
  predicate LiveMount(m: Mount) {
    (m.Bind? || m.Tmpfs?) && m.dst != X11_DIR
  }

  predicate CacheTmpfs(p: Plan) {
    Tmpfs(p.home + [".cache"], 0x1C0) in p.mounts
  }

  /** Where the mounts of `a` are that `b` lacks. */
  function Missing(a: seq<Mount>, b: seq<Mount>): (ds: seq<Path>)
    ensures forall d :: d in ds <==> exists m | m in a :: m !in b && m.dst == d
  {
    if a == [] then []
    else if a[0] in b then Missing(a[1..], b)
    else [a[0].dst] + Missing(a[1..], b)
  }

  function Changed(was: seq<Mount>, now: seq<Mount>): seq<Path> {
    Missing(was, now) + Missing(now, was)
  }

  predicate Beneath(m: Mount, changed: seq<Path>) {
    exists d | d in changed :: m.dst != d && StartsWith(m.dst, d)
  }

  /** The mounts to detach or attach. */
  function Moved(was: seq<Mount>, now: seq<Mount>): set<Mount> {
    set m | m in was + now && (m !in was || m !in now || Beneath(m, Changed(was, now)))
  }

  /** Whether two plans differ in a way that takes a restart. */
  ghost predicate Needs(was: Plan, now: Plan, r: Reason) {
    match r
    case Home => was.hostHomeDir != now.hostHomeDir || was.home != now.home
    case Dbus => was.dbus != now.dbus
    case DbusTalk => was.dbusTalk != now.dbusTalk
    case Xwayland => was.xwayland != now.xwayland
    case Scale => was.xwaylandScale != now.xwaylandScale && was.xwayland == now.xwayland
    case NetworkMode => was.network != now.network
    case ThirtyTwoBit => was.allow32bit != now.allow32bit
    case Links => was.openUrls != now.openUrls && was.dbus == now.dbus
    case HomeCache => was.hostHomeDir == now.hostHomeDir && was.home == now.home && CacheTmpfs(was) != CacheTmpfs(now)
    case MountAt(dst) => exists m | m in Moved(was.mounts, now.mounts) :: !LiveMount(m) && m.dst == dst
  }

  predicate Within(d: Path, dir: Path) {
    d != dir && StartsWith(d, dir)
  }

  /** A mount that another reason already stands for. */
  ghost predicate Reported(was: Plan, now: Plan, d: Path) {
    || (Needs(was, now, Xwayland) && (d == X11_DIR || Within(d, PSBOX_BIN)))
    || ((Needs(was, now, Links) || Needs(was, now, Dbus)) && Within(d, PSBOX_DIR))
    || (Needs(was, now, NetworkMode) && (d == RESOLV_CONF || d == RESOLVE_DIR))
    || (Needs(was, now, Home) && StartsWith(d, now.home))
  }

  /** Reasons but those for mounts at `drop`. */
  function Retain(rs: seq<Reason>, drop: Path -> bool): (left: seq<Reason>)
    ensures forall r :: r in left <==> r in rs && !(r.MountAt? && drop(r.dst))
  {
    if rs == [] then []
    else if rs[0].MountAt? && drop(rs[0].dst) then Retain(rs[1..], drop)
    else [rs[0]] + Retain(rs[1..], drop)
  }

  function Reversed(s: seq<Mount>): seq<Mount> {
    if s == [] then [] else [s[|s| - 1]] + Reversed(s[..|s| - 1])
  }

  /** Compares two plans: the reasons to restart, or else what to detach and
      attach. */
  method Diff(was: Plan, now: Plan) returns (c: Change)
    ensures c.restart == [] <==> forall r :: !Needs(was, now, r)
    ensures forall r :: r in c.restart <==> Needs(was, now, r) && !(r.MountAt? && Reported(was, now, r.dst))
    ensures forall i, j | 0 <= i < j < |c.restart| :: c.restart[i] != c.restart[j]
    ensures c.restart == [] ==>
              && c.detach == Backwards(was.mounts, Moved(was.mounts, now.mounts))
              && c.attach == In(now.mounts, Moved(was.mounts, now.mounts))
    ensures c.restart != [] ==> c.detach == [] && c.attach == []
  {
    hide *;
    ghost var moved := Moved(was.mounts, now.mounts);
    var changed := Changed(was.mounts, now.mounts);
    OfMoved(was.mounts, now.mounts);
    OfReversed(was.mounts, Lives(moved));
    var restart := SettingReasons(was, now);
    var detach, first := Divide(Reversed(was.mounts), now.mounts, changed, moved);
    var attach, second := Divide(now.mounts, was.mounts, changed, moved);
    restart := restart + first + second;
    AllReasons(was, now, first, second);
    assert forall r :: r in restart <==> Needs(was, now, r);
    assert (forall r :: !Needs(was, now, r)) ==> Lives(moved) == moved by { AllLive(was, now); }
    restart := Report(was, now, restart);
    c := Change(restart, detach, attach);
    if restart != [] {
      assert restart[0] in restart;
      c := Change(restart, [], []);
    } else {
      assert forall r :: r !in restart;
    }
  }

  function When(rs: seq<Reason>, differ: bool, r: Reason): (more: seq<Reason>)
    ensures forall x :: x in more <==> x in rs || (differ && x == r)
  {
    if differ then rs + [r] else rs
  }

  /** Reasons other than mounts. */
  method SettingReasons(was: Plan, now: Plan) returns (restart: seq<Reason>)
    ensures forall r :: r in restart <==> Needs(was, now, r) && !r.MountAt?
  {
    hide CacheTmpfs, Needs, When;
    restart := [];
    restart := When(restart, was.hostHomeDir != now.hostHomeDir || was.home != now.home, Home);
    restart := When(restart, was.dbus != now.dbus, Dbus);
    restart := When(restart, was.dbusTalk != now.dbusTalk, DbusTalk);
    restart := When(restart, was.xwayland != now.xwayland, Xwayland);
    restart := When(restart, was.xwaylandScale != now.xwaylandScale && was.xwayland == now.xwayland, Scale);
    restart := When(restart, was.network != now.network, NetworkMode);
    restart := When(restart, was.allow32bit != now.allow32bit, ThirtyTwoBit);
    restart := When(restart, was.openUrls != now.openUrls && was.dbus == now.dbus, Links);
    assert Home !in restart <==> was.hostHomeDir == now.hostHomeDir && was.home == now.home;
    restart := When(restart, Home !in restart && CacheTmpfs(was) != CacheTmpfs(now), HomeCache);
    SettingNeeds(was, now);
  }

  lemma SettingNeeds(was: Plan, now: Plan)
    ensures forall r :: Needs(was, now, r) && !r.MountAt? <==>
              || (r == Home && (was.hostHomeDir != now.hostHomeDir || was.home != now.home))
              || (r == Dbus && was.dbus != now.dbus)
              || (r == DbusTalk && was.dbusTalk != now.dbusTalk)
              || (r == Xwayland && was.xwayland != now.xwayland)
              || (r == Scale && was.xwaylandScale != now.xwaylandScale && was.xwayland == now.xwayland)
              || (r == NetworkMode && was.network != now.network)
              || (r == ThirtyTwoBit && was.allow32bit != now.allow32bit)
              || (r == Links && was.openUrls != now.openUrls && was.dbus == now.dbus)
              || (r == HomeCache && was.hostHomeDir == now.hostHomeDir && was.home == now.home
                  && CacheTmpfs(was) != CacheTmpfs(now))
  {
    hide CacheTmpfs, Moved;
  }

  function Lives(moved: set<Mount>): set<Mount> {
    set m | m in moved && LiveMount(m)
  }

  /** Of the mounts of one plan that are to move, those that can, and the
      others as reasons. */
  method Divide(order: seq<Mount>, other: seq<Mount>, changed: seq<Path>, ghost moved: set<Mount>)
    returns (live: seq<Mount>, restart: seq<Reason>)
    requires forall m | m in order :: m in moved <==> m !in other || Beneath(m, changed)
    ensures live == In(order, Lives(moved))
    ensures forall r :: r in restart <==> exists m | m in order && m in moved :: !LiveMount(m) && r == MountAt(m.dst)
  {
    hide Beneath, LiveMount, Lives;
    live, restart := [], [];
    for i := 0 to |order|
      invariant live == In(order[..i], Lives(moved))
      invariant forall r :: r in restart <==> StandsFor(r, order[..i], moved)
    {
      var m := order[i];
      InNext(order, i, moved);
      if m !in other || Beneath(m, changed) {
        if LiveMount(m) {
          live := live + [m];
        } else {
          restart := restart + [MountAt(m.dst)];
        }
      }
    }
    assert order[..|order|] == order;
  }

  ghost predicate StandsFor(r: Reason, ms: seq<Mount>, moved: set<Mount>) {
    exists m | m in ms && m in moved :: !LiveMount(m) && r == MountAt(m.dst)
  }

  lemma InNext(order: seq<Mount>, i: nat, moved: set<Mount>)
    requires i < |order|
    ensures In(order[..i + 1], Lives(moved)) ==
            In(order[..i], Lives(moved)) + if order[i] in moved && LiveMount(order[i]) then [order[i]] else []
    ensures forall r :: StandsFor(r, order[..i + 1], moved) <==>
              StandsFor(r, order[..i], moved) || (order[i] in moved && !LiveMount(order[i]) && r == MountAt(order[i].dst))
  {
    hide LiveMount;
    assert order[..i + 1] == order[..i] + [order[i]];
    assert order[..i + 1][..i] == order[..i];
    forall r
      ensures StandsFor(r, order[..i + 1], moved) <==>
              StandsFor(r, order[..i], moved) || (order[i] in moved && !LiveMount(order[i]) && r == MountAt(order[i].dst))
    {
      assert forall x :: x in order[..i + 1] <==> x in order[..i] || x == order[i];
    }
  }

  /** Reports each reason once, and mounts only where no other reason stands
      for them. */
  method Report(was: Plan, now: Plan, all: seq<Reason>) returns (restart: seq<Reason>)
    requires forall r :: r in all <==> Needs(was, now, r)
    ensures forall r :: r in restart <==> Needs(was, now, r) && !(r.MountAt? && Reported(was, now, r.dst))
    ensures restart == [] <==> forall r :: !Needs(was, now, r)
    ensures forall i, j | 0 <= i < j < |restart| :: restart[i] != restart[j]
  {
    hide *;
    restart := Unreported(was, now, all);
    restart := Once(restart);
    if restart == [] {
      assert forall r :: r !in restart;
      forall r
        ensures !Needs(was, now, r)
      {
        StandsBehind(was, now, r);
      }
    } else {
      assert restart[0] in restart;
    }
  }

  /** A mount left unreported has another reason standing for it, which is
      no mount. */
  lemma StandsBehind(was: Plan, now: Plan, r: Reason)
    requires forall r :: Needs(was, now, r) ==> r.MountAt? && Reported(was, now, r.dst)
    ensures !Needs(was, now, r)
  {
    hide Needs, Within, StartsWith;
  }

  method Unreported(was: Plan, now: Plan, all: seq<Reason>) returns (restart: seq<Reason>)
    requires forall r :: r in all <==> Needs(was, now, r)
    ensures forall r :: r in restart <==> Needs(was, now, r) && !(r.MountAt? && Reported(was, now, r.dst))
  {
    hide Needs, Within, StartsWith, Retain;
    restart := all;
    if Xwayland in restart {
      restart := Retain(restart, d => d == X11_DIR || Within(d, PSBOX_BIN));
    }
    if Links in restart || Dbus in restart {
      restart := Retain(restart, d => Within(d, PSBOX_DIR));
    }
    if NetworkMode in restart {
      restart := Retain(restart, d => d == RESOLV_CONF || d == RESOLVE_DIR);
    }
    if Home in restart {
      restart := Retain(restart, d => StartsWith(d, now.home));
    }
  }

  /** Every reason once. */
  method Once(rs: seq<Reason>) returns (once: seq<Reason>)
    ensures forall r :: r in once <==> r in rs
    ensures forall i, j | 0 <= i < j < |once| :: once[i] != once[j]
  {
    var seen: set<Reason> := {};
    once := [];
    for i := 0 to |rs|
      invariant forall r :: r in seen <==> r in rs[..i]
      invariant forall r :: r in once <==> r in seen
      invariant forall i, j | 0 <= i < j < |once| :: once[i] != once[j]
    {
      assert rs[..i + 1] == rs[..i] + [rs[i]];
      if rs[i] !in seen {
        once := once + [rs[i]];
        seen := seen + {rs[i]};
      }
    }
    assert rs[..|rs|] == rs;
  }

  lemma OfMoved(was: seq<Mount>, now: seq<Mount>)
    ensures forall m | m in was :: m in Moved(was, now) <==> m !in now || Beneath(m, Changed(was, now))
    ensures forall m | m in now :: m in Moved(was, now) <==> m !in was || Beneath(m, Changed(was, now))
    ensures forall m | m in Moved(was, now) :: m in was || m in now
  {
    hide Beneath;
  }

  lemma {:induction false} OfReversed(s: seq<Mount>, of: set<Mount>)
    ensures In(Reversed(s), of) == Backwards(s, of)
    ensures forall m :: m in Reversed(s) <==> m in s
  {
    if s != [] {
      var n := |s| - 1;
      OfReversed(s[..n], of);
      hide Backwards, Reversed, In;
      InOver([s[n]], Reversed(s[..n]), of);
      OneIn(s[n], of);
      LastFirst(s, of);
      assert s == s[..n] + [s[n]];
    }
  }

  lemma OneIn(m: Mount, of: set<Mount>)
    ensures In([m], of) == if m in of then [m] else []
  {
    assert [m][..0] == [];
  }

  lemma LastFirst(s: seq<Mount>, of: set<Mount>)
    requires s != []
    ensures Reversed(s) == [s[|s| - 1]] + Reversed(s[..|s| - 1])
    ensures Backwards(s, of) == (if s[|s| - 1] in of then [s[|s| - 1]] else []) + Backwards(s[..|s| - 1], of)
  {
  }

  lemma {:induction false} InOver(a: seq<Mount>, b: seq<Mount>, of: set<Mount>)
    ensures In(a + b, of) == In(a, of) + In(b, of)
  {
    if b == [] {
      assert a + b == a;
    } else {
      hide In;
      var n := |b| - 1;
      InOver(a, b[..n], of);
      assert b == b[..n] + [b[n]] && a + b == a + b[..n] + [b[n]];
      InLast(b[..n], b[n], of);
      InLast(a + b[..n], b[n], of);
    }
  }

  lemma InLast(s: seq<Mount>, l: Mount, of: set<Mount>)
    ensures In(s + [l], of) == In(s, of) + if l in of then [l] else []
  {
    assert (s + [l])[..|s|] == s;
  }

  lemma AllReasons(was: Plan, now: Plan, first: seq<Reason>, second: seq<Reason>)
    requires var moved := Moved(was.mounts, now.mounts);
             && (forall r :: r in first <==>
                   exists m | m in Reversed(was.mounts) && m in moved :: !LiveMount(m) && r == MountAt(m.dst))
             && (forall r :: r in second <==>
                   exists m | m in now.mounts && m in moved :: !LiveMount(m) && r == MountAt(m.dst))
    ensures forall r :: r in first + second <==> r.MountAt? && Needs(was, now, r)
  {
    hide LiveMount, Moved;
    OfMoved(was.mounts, now.mounts);
    OfReversed(was.mounts, {});
  }

  lemma AllLive(was: Plan, now: Plan)
    ensures (forall r :: !Needs(was, now, r)) ==> Lives(Moved(was.mounts, now.mounts)) == Moved(was.mounts, now.mounts)
  {
    hide LiveMount, Moved;
    var moved := Moved(was.mounts, now.mounts);
    if forall r :: !Needs(was, now, r) {
      forall m | m in moved
        ensures LiveMount(m)
      {
        assert !Needs(was, now, MountAt(m.dst));
      }
    }
  }
}
