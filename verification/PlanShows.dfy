/** What a built plan shows to the sandbox, and what changes of it need a
    restart, said with the paths and settings themselves. */
module PlanShows {
  import opened Wrappers
  import opened Mounts
  import opened Reload
  import opened PlanDiff
  import opened ReloadPlans
  import opened ReloadRuns
  import opened PlanBuild

  // What moves, and what needs a restart.

  /** `d` is the place of a mount that one list has and the other lacks. */
  ghost predicate ChangedAt(was: seq<Mount>, now: seq<Mount>, d: Path) {
    exists k: Mount :: (k in was) != (k in now) && k.dst == d
  }

  /** A mount moves when only one list has it, or it is beneath such a one. */
  ghost predicate Moves(was: seq<Mount>, now: seq<Mount>, m: Mount) {
    && (m in was || m in now)
    && ((m in was) != (m in now) || exists d, rest :: rest != [] && m.dst == d + rest && ChangedAt(was, now, d))
  }

  lemma MovesExactly(was: seq<Mount>, now: seq<Mount>, m: Mount)
    ensures m in Moved(was, now) <==> Moves(was, now, m)
  {
    hide Moved, StartsWith;
    OfMoved(was, now);
    if Beneath(m, Changed(was, now)) {
      var d :| d in Changed(was, now) && m.dst != d && StartsWith(m.dst, d);
      StartsWithExactly(m.dst, d);
      ChangedExactly(was, now, d);
      var rest :| m.dst == d + rest;
      assert d + [] == d;
    }
    if d, rest :| rest != [] && m.dst == d + rest && ChangedAt(was, now, d) {
      StartsWithExactly(m.dst, d);
      ChangedExactly(was, now, d);
      assert |m.dst| > |d|;
    }
  }

  lemma ChangedExactly(was: seq<Mount>, now: seq<Mount>, d: Path)
    ensures d in Changed(was, now) <==> ChangedAt(was, now, d)
  {
  }

  /** The `/home/.cache` of a plan is a temporary one. */
  ghost predicate TemporaryCache(p: Plan) {
    Tmpfs(p.home + [".cache"], 448) in p.mounts
  }

  /** Not a bind or a temporary file system that can be changed while the
      sandbox runs. */
  ghost predicate Fixed(m: Mount) {
    || m.Overlay? || m.Symlink? || m.Dir? || m.Proc? || m.Dev? || m.File?
    || m.dst == ["tmp", ".X11-unix"]
  }

  /** A change of plan needs a restart if and only if one of the settings that
      cannot change differs, or a mount that moves is fixed. */
  lemma RestartsExactly(was: Plan, now: Plan)
    ensures (exists r :: Needs(was, now, r)) <==>
              || was.hostHomeDir != now.hostHomeDir || was.home != now.home
              || was.dbus != now.dbus || was.dbusTalk != now.dbusTalk
              || was.xwayland != now.xwayland || was.xwaylandScale != now.xwaylandScale
              || was.network != now.network || was.allow32bit != now.allow32bit || was.openUrls != now.openUrls
              || TemporaryCache(was) != TemporaryCache(now)
              || exists m :: Moves(was.mounts, now.mounts, m) && Fixed(m)
  {
    hide Moved, Moves;
    assert CacheTmpfs(was) == TemporaryCache(was) && CacheTmpfs(now) == TemporaryCache(now);
    forall m
      ensures m in Moved(was.mounts, now.mounts) <==> Moves(was.mounts, now.mounts, m)
      ensures LiveMount(m) <==> !Fixed(m)
    {
      MovesExactly(was.mounts, now.mounts, m);
    }
    assert Needs(was, now, Home) <==> was.hostHomeDir != now.hostHomeDir || was.home != now.home;
    assert Needs(was, now, Dbus) <==> was.dbus != now.dbus;
    assert Needs(was, now, DbusTalk) <==> was.dbusTalk != now.dbusTalk;
    assert Needs(was, now, Xwayland) <==> was.xwayland != now.xwayland;
    assert was.xwayland != now.xwayland || was.xwaylandScale != now.xwaylandScale ==>
             Needs(was, now, Scale) || Needs(was, now, Xwayland);
    assert Needs(was, now, NetworkMode) <==> was.network != now.network;
    assert Needs(was, now, ThirtyTwoBit) <==> was.allow32bit != now.allow32bit;
    assert was.openUrls != now.openUrls || was.dbus != now.dbus ==> Needs(was, now, Links) || Needs(was, now, Dbus);
    assert TemporaryCache(was) != TemporaryCache(now) ==> Needs(was, now, HomeCache) || Needs(was, now, Home);
    if m :| Moves(was.mounts, now.mounts, m) && Fixed(m) {
      assert Needs(was, now, MountAt(m.dst));
    }
  }

  /** A mount is not told of when another reason stands for it: what a mode of
      Xwayland or the network, links and buses, or the home puts there. */
  lemma ReportsExactly(was: Plan, now: Plan, d: Path)
    ensures Reported(was, now, d) <==>
              || (was.xwayland != now.xwayland
                  && (d == ["tmp", ".X11-unix"] || exists rest :: rest != [] && d == ["run", "psbox", "bin"] + rest))
              || ((was.dbus != now.dbus || was.openUrls != now.openUrls)
                  && exists rest :: rest != [] && d == ["run", "psbox"] + rest)
              || (was.network != now.network && (d == ["etc", "resolv.conf"] || d == ["run", "systemd", "resolve"]))
              || ((was.hostHomeDir != now.hostHomeDir || was.home != now.home) && exists rest :: d == now.home + rest)
  {
    hide StartsWith;
    WithinExactly(d, PSBOX_BIN);
    WithinExactly(d, PSBOX_DIR);
    StartsWithExactly(d, now.home);
  }

  lemma WithinExactly(d: Path, dir: Path)
    ensures Within(d, dir) <==> exists rest :: rest != [] && d == dir + rest
  {
    hide StartsWith;
    StartsWithExactly(d, dir);
    assert dir + [] == dir;
    if rest :| rest != [] && d == dir + rest {
      assert |d| > |dir|;
    }
  }

  /** The moved mounts are attached in the order of their plan. */
  lemma {:induction false} InOrder(s: seq<Mount>, of: set<Mount>)
    ensures forall i, j | 0 <= i < j < |In(s, of)| :: Before(s, In(s, of)[i], In(s, of)[j])
  {
    if s != [] {
      var n := |s| - 1;
      var before := In(s[..n], of);
      InOrder(s[..n], of);
      MoreInOrder(s, before, of);
    }
  }

  lemma MoreInOrder(s: seq<Mount>, before: seq<Mount>, of: set<Mount>)
    requires s != [] && before == In(s[..|s| - 1], of)
    requires forall i, j | 0 <= i < j < |before| :: Before(s[..|s| - 1], before[i], before[j])
    ensures forall i, j | 0 <= i < j < |In(s, of)| :: Before(s, In(s, of)[i], In(s, of)[j])
  {
    var n := |s| - 1;
    var all := In(s, of);
    assert all == before + if s[n] in of then [s[n]] else [];
    forall i, j | 0 <= i < j < |all|
      ensures Before(s, all[i], all[j])
    {
      assert all[i] == before[i] && before[i] in s[..n];
    }
  }

  /** And they are detached last first. */
  lemma {:induction false} OutBackwards(s: seq<Mount>, of: set<Mount>)
    ensures |Backwards(s, of)| == |In(s, of)|
    ensures forall i | 0 <= i < |In(s, of)| :: Backwards(s, of)[i] == In(s, of)[|In(s, of)| - 1 - i]
  {
    if s != [] {
      OutBackwards(s[..|s| - 1], of);
    }
  }

  // Shares.

  /** The mount a share asks for: a writable or read-only bind or an overlay of
      its source, or an empty directory. */
  ghost predicate SharedAs(m: Share, shown: Mount) {
    match m.mode
    case ReadOnly =>
      if m.source.Some? then shown == Bind(m.source.value, m.destination, true, m.optional) else shown == Tmpfs(m.destination, 493)
    case ReadWrite =>
      if m.source.Some? then shown == Bind(m.source.value, m.destination, false, m.optional) else shown == Tmpfs(m.destination, 493)
    case OverlayMode =>
      if m.source.Some? then shown == Overlay(m.source.value, m.destination, m.optional) else shown == Tmpfs(m.destination, 493)
    case Empty => shown == Tmpfs(m.destination, 493)
  }

  /** Not `/`, and not in `/proc` or `/dev`. */
  ghost predicate Allowed(d: Path) {
    d != [] && d[0] != "proc" && d[0] != "dev"
  }

  lemma AllowedExactly(d: Path)
    ensures Mountable(d) <==> Allowed(d)
  {
    if d != [] {
      assert d[..1] == [d[0]];
    }
  }

  lemma {:induction false} SharesAsked(shares: seq<Share>, m: Mount)
    ensures m in ShareMounts(shares) <==> exists k :: 0 <= k < |shares| && Allowed(shares[k].destination) && SharedAs(shares[k], m)
  {
    hide SharedAs, Allowed, Mountable;
    if shares != [] {
      var n := |shares| - 1;
      SharesAsked(shares[..n], m);
      AllowedExactly(shares[n].destination);
      AskedFor(shares[n], m);
      if k :| 0 <= k < n && Allowed(shares[..n][k].destination) && SharedAs(shares[..n][k], m) {
        assert shares[k] == shares[..n][k];
      }
      if k :| 0 <= k < |shares| && Allowed(shares[k].destination) && SharedAs(shares[k], m) {
        assert k < n ==> shares[..n][k] == shares[k];
      }
    }
  }

  lemma AskedFor(m: Share, shown: Mount)
    ensures SharedAs(m, shown) <==> shown == ShareMount(m)
  {
  }

  /** Every mount of a layered list shows at its own place. */
  lemma ShowsItself(s: seq<Mount>, m: Mount)
    requires Layered(s) && m in s
    ensures Visible(s, m.dst) == Some(m)
  {
    hide Before, StartsWith, Distinct, Visible;
    LayeredOnce(s);
    ItsOwn(m);
    forall x | x in s && StartsWith(m.dst, x.dst) && x != m
      ensures |x.dst| < |m.dst|
    {
      OneFirst(s, m, x);
      if |x.dst| >= |m.dst| {
        SameDepth(m.dst, x.dst, s, x, m);
      }
    }
    DeepestShows(s, m.dst, m);
  }

  lemma SameDepth(d: Path, e: Path, s: seq<Mount>, x: Mount, m: Mount)
    requires StartsWith(d, e) && |e| >= |d| && Layered(s) && x in s && m in s && x.dst == e && m.dst == d
    ensures !Before(s, m, x) && !Before(s, x, m)
  {
    hide Before;
    assert d == e;
  }

  /** In a layered built plan a share shows at its place as its config asks: the
      source, writable or not, or over which writes go elsewhere, or nothing. */
  lemma SharesShow(host: HostEnv, spec: Spec, k: nat)
    requires Checked(spec) && Layered(OwnMounts(host, spec)) && Placed(host, spec)
    requires k < |spec.shares| && Allowed(spec.shares[k].destination)
    ensures exists shown :: SharedAs(spec.shares[k], shown)
              && Visible(BuiltMounts(host, spec), spec.shares[k].destination) == Some(shown)
  {
    hide Layered, Placed, Checked, OwnMounts, X11Mounts, ByDepth, ShareMounts, Visible, Allowed;
    BuiltIsLayered(host, spec);
    var m := ShareMount(spec.shares[k]);
    AskedFor(spec.shares[k], m);
    SharesAsked(spec.shares, m);
    CheckedSort(spec);
    assert m in BuiltMounts(host, spec);
    ShowsItself(BuiltMounts(host, spec), m);
  }

  lemma CheckedSort(spec: Spec)
    requires Checked(spec)
    ensures forall m :: m in ByDepth(ShareMounts(spec.shares)) <==> m in ShareMounts(spec.shares)
  {
    hide Layered, Distinct, ByDepth;
    SharesAreLayered(ShareMounts(spec.shares));
  }

  // psbox's own mounts.

  ghost predicate OfBase(m: Mount) {
    || m == Bind(["usr"], ["usr"], true, false) || m == Bind(["etc"], ["etc"], true, false)
    || m == Bind(["opt"], ["opt"], true, true) || m == Bind(["sys"], ["sys"], true, false)
    || m == Symlink("usr/bin", ["bin"]) || m == Symlink("usr/bin", ["sbin"])
    || m == Symlink("usr/lib", ["lib"]) || m == Symlink("usr/lib", ["lib64"])
    || m == Proc(["proc"]) || m == Dev(["dev"]) || m == Tmpfs(["tmp"], 1023) || m == Dir(["var"])
    || m == Tmpfs(["var", "tmp"], 1023)
    || m == Bind(["var", "cache", "fontconfig"], ["var", "cache", "fontconfig"], true, true)
    || m == Bind(["run", "udev"], ["run", "udev"], true, true)
  }

  ghost predicate OfSettings(host: HostEnv, spec: Spec, m: Mount) {
    || (spec.network == HostNetwork && m == Bind(["run", "systemd", "resolve"], ["run", "systemd", "resolve"], true, true))
    || (spec.network == Isolated && m == File(["etc", "resolv.conf"], "nameserver 169.254.1.1\n"))
    || m == Tmpfs(host.runtimeDir, 448)
    || (spec.display && host.waylandSocket.Some?
        && exists dir, name :: host.waylandSocket.value == dir + [name]
                               && m == Bind(dir + [name], host.runtimeDir + [name], true, true))
    || (spec.audio && m == Bind(host.runtimeDir + ["pipewire-0"], host.runtimeDir + ["pipewire-0"], true, true))
    || (spec.audio && m == Bind(host.runtimeDir + ["pulse", "native"], host.runtimeDir + ["pulse", "native"], true, true))
    || (spec.home == Some(HomeTemporary) && m == Tmpfs(host.home, 448))
    || (spec.home.Some? && spec.home.value.HomePath? && m == Bind(spec.home.value.path, host.home, false, false))
    || (spec.home.Some? && spec.home.value.HomePath? && spec.home.value.temporaryCache
        && m == Tmpfs(host.home + [".cache"], 448))
  }

  ghost predicate OfBuses(host: HostEnv, spec: Spec, m: Mount) {
    var handles := spec.dbus.Some? && spec.schemes != [];
    var builtin := spec.display && host.waylandSocket.Some? && spec.xwayland.Some? && spec.xwayland.value.0 == Builtin;
    || (spec.dbus == Some(Host) && host.sessionBus.Some?
        && (m == Bind(host.sessionBus.value, host.runtimeDir + ["bus"], true, false)
            || m == Bind(["run", "dbus"], ["run", "dbus"], true, true)
            || m == Bind(["var", "lib", "dbus"], ["var", "lib", "dbus"], true, true)))
    || ((handles || builtin) && m == Bind(host.exe, ["run", "psbox", "bin", "psbox"], true, false))
    || (handles && m == File(["run", "psbox", "config", "mimeapps.list"], spec.links.1))
    || (handles && m == File(["run", "psbox", "share", "applications", "psbox-open-uri.desktop"], spec.links.0))
  }

  lemma BaseExactly(host: HostEnv, m: Mount)
    ensures m in BASE || m in RuntimeMounts(host) <==> OfBase(m) || m == Tmpfs(host.runtimeDir, 448)
  {
  }

  lemma WaylandExactly(host: HostEnv, spec: Spec, m: Mount)
    ensures m in WaylandMounts(host, spec) <==>
            spec.display && host.waylandSocket.Some?
            && exists dir, name :: host.waylandSocket.value == dir + [name]
                                   && m == Bind(dir + [name], host.runtimeDir + [name], true, true)
  {
    if host.waylandSocket.Some? && host.waylandSocket.value != [] {
      var sock := host.waylandSocket.value;
      var n := |sock| - 1;
      assert sock == sock[..n] + [sock[n]];
    }
  }

  lemma SettingsExactly(host: HostEnv, spec: Spec, m: Mount)
    ensures m in NetworkMounts(spec.network) || m == Tmpfs(host.runtimeDir, 448) || m in WaylandMounts(host, spec)
            || m in AudioMounts(host, spec) || m in HomeMounts(host, spec)
            <==> OfSettings(host, spec, m)
  {
    hide WaylandMounts;
    WaylandExactly(host, spec, m);
  }

  lemma BusesExactly(host: HostEnv, spec: Spec, m: Mount)
    ensures m in BusMounts(host, spec) || m in HandlerMounts(host, spec) <==> OfBuses(host, spec, m)
  {
    assert PSBOX_BIN + ["psbox"] == ["run", "psbox", "bin", "psbox"];
    assert PSBOX_DIR + ["config", "mimeapps.list"] == ["run", "psbox", "config", "mimeapps.list"];
    var entry := PSBOX_DIR + ["share", "applications", "psbox-open-uri.desktop"];
    assert entry == ["run", "psbox", "share", "applications", "psbox-open-uri.desktop"];
  }

  lemma OwnExactly(host: HostEnv, spec: Spec, m: Mount)
    ensures m in OwnMounts(host, spec) <==> OfBase(m) || OfSettings(host, spec, m) || OfBuses(host, spec, m)
  {
    hide BASE, NetworkMounts, RuntimeMounts, WaylandMounts, AudioMounts, HomeMounts, BusMounts, HandlerMounts;
    hide OfBase, OfBuses;
    BaseExactly(host, m);
    SettingsExactly(host, spec, m);
    BusesExactly(host, spec, m);
  }

  /** A layered built plan shows, at the place of each, exactly psbox's own
      mounts, the shares as they are asked for, and the X11 socket directory
      when X11 is there. */
  lemma BuiltShowsExactly(host: HostEnv, spec: Spec, m: Mount)
    requires Checked(spec) && Layered(OwnMounts(host, spec)) && Placed(host, spec)
    ensures m in BuiltMounts(host, spec) <==>
              || OfBase(m) || OfSettings(host, spec, m) || OfBuses(host, spec, m)
              || (exists k :: 0 <= k < |spec.shares| && Allowed(spec.shares[k].destination) && SharedAs(spec.shares[k], m))
              || (spec.display && host.waylandSocket.Some? && spec.xwayland.Some? && m == Tmpfs(["tmp", ".X11-unix"], 1023))
    ensures m in BuiltMounts(host, spec) ==> Visible(BuiltMounts(host, spec), m.dst) == Some(m)
  {
    hide Layered, Placed, Checked, OwnMounts, ByDepth, ShareMounts, Visible, Allowed, SharedAs, OfBase, OfSettings, OfBuses;
    BuiltIsLayered(host, spec);
    OwnExactly(host, spec, m);
    SharesAsked(spec.shares, m);
    CheckedSort(spec);
    if m in BuiltMounts(host, spec) {
      ShowsItself(BuiltMounts(host, spec), m);
    }
  }

  /** Which settings of two specs on one host need a restart when they differ:
      names to talk to only behind the portal, links only with a bus, and the
      scale only with a display and psbox's own Xwayland. */
  lemma SettingsRestart(host: HostEnv, was: Spec, now: Spec)
    ensures var a, b := Build(host, was), Build(host, now);
            var x := (s: Spec) => if s.display && host.waylandSocket.Some? && s.xwayland.Some?
                                  then Some(s.xwayland.value.0) else None;
            && (Needs(a, b, Dbus) <==> was.dbus != now.dbus)
            && (was.dbus == now.dbus ==>
                  && (Needs(a, b, DbusTalk) <==> was.dbus == Some(Portal) && was.dbusTalk != now.dbusTalk)
                  && (Needs(a, b, Links) <==> was.dbus.Some? && was.schemes != now.schemes))
            && (Needs(a, b, Xwayland) <==> x(was) != x(now))
            && (x(was) == x(now) ==>
                  (Needs(a, b, Scale) <==> x(was) == Some(Builtin) && was.xwayland.value.1 != now.xwayland.value.1))
            && (Needs(a, b, NetworkMode) <==> was.network != now.network)
            && (Needs(a, b, ThirtyTwoBit) <==> was.allow32bit != now.allow32bit)
            && (Needs(a, b, Home) <==>
                  var home := (s: Spec) => if s.home.Some? && s.home.value.HomePath? then Some(s.home.value.path) else None;
                  home(was) != home(now))
  {
    hide BuiltMounts;
  }
}
