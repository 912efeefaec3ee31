/** The mounts of a plan as they are built: psbox's own, then the shares,
    then the X11 socket directory. */
module PlanBuild {
  import opened Wrappers
  import opened Mounts
  import opened Reload
  import opened PlanDiff
  import opened ReloadPlans
  import opened ReloadRuns

  datatype MountMode = ReadWrite | ReadOnly | OverlayMode | Empty

  /** A mount the config asks for. */
  datatype Share = Share(source: Option<Path>, destination: Path, mode: MountMode, optional: bool)

  datatype HomeSpec = HomePath(path: Path, temporaryCache: bool) | HomeTemporary

  /** `links`: the desktop entry and the `mimeapps.list` of the link handler,
      when links go to the host. */
  datatype Spec = Spec(
    network: Network, display: bool, xwayland: Option<(XwaylandMode, XwaylandScale)>, audio: bool,
    home: Option<HomeSpec>, dbus: Option<DbusMode>, dbusTalk: seq<string>, schemes: seq<string>,
    links: (string, string), allow32bit: bool, shares: seq<Share>)

  datatype HostEnv = HostEnv(
    home: Path, runtimeDir: Path, waylandSocket: Option<Path>, exe: Path, sessionBus: Option<Path>)

  const CACHE_MODE: nat := 0x1C0 // 0700
  const STICKY: nat := 0x3FF // 1777
  const EMPTY_MODE: nat := 0x1ED // 0755

  function Shared(p: Path, optional: bool): Mount {
    Bind(p, p, true, optional)
  }

  const BASE: seq<Mount> := [
    Shared(["usr"], false),
    Shared(["etc"], false),
    Shared(["opt"], true),
    Shared(["sys"], false),
    Symlink("usr/bin", ["bin"]),
    Symlink("usr/bin", ["sbin"]),
    Symlink("usr/lib", ["lib"]),
    Symlink("usr/lib", ["lib64"]),
    Proc(["proc"]),
    Dev(["dev"]),
    Tmpfs(["tmp"], STICKY),
    Dir(["var"]),
    Tmpfs(["var", "tmp"], STICKY),
    Shared(["var", "cache", "fontconfig"], true)]

  function NetworkMounts(network: Network): seq<Mount> {
    match network
    case HostNetwork => [Shared(RESOLVE_DIR, true)]
    case Isolated => [File(RESOLV_CONF, "nameserver 169.254.1.1\n")]
    case Loopback => []
  }

  function RuntimeMounts(host: HostEnv): seq<Mount> {
    [Shared(["run", "udev"], true), Tmpfs(host.runtimeDir, CACHE_MODE)]
  }

  /** The socket of the host's compositor, under its own name. */
  function WaylandMounts(host: HostEnv, spec: Spec): seq<Mount> {
    if !spec.display || host.waylandSocket.None? || host.waylandSocket.value == [] then []
    else
      var sock := host.waylandSocket.value;
      [Bind(sock, host.runtimeDir + [sock[|sock| - 1]], true, true)]
  }

  function AudioMounts(host: HostEnv, spec: Spec): seq<Mount> {
    if spec.audio then [PipeWire(host), Pulse(host)] else []
  }

  function PipeWire(host: HostEnv): Mount {
    Shared(host.runtimeDir + ["pipewire-0"], true)
  }

  function Pulse(host: HostEnv): Mount {
    Shared(host.runtimeDir + ["pulse", "native"], true)
  }

  function HomeMounts(host: HostEnv, spec: Spec): seq<Mount> {
    match spec.home
    case None => []
    case Some(HomeTemporary) => [Tmpfs(host.home, CACHE_MODE)]
    case Some(HomePath(path, temporaryCache)) =>
      [Bind(path, host.home, false, false)]
      + if temporaryCache then [Tmpfs(host.home + [".cache"], CACHE_MODE)] else []
  }

  function BusMounts(host: HostEnv, spec: Spec): seq<Mount> {
    if spec.dbus != Some(Host) || host.sessionBus.None? then []
    else
      [Bind(host.sessionBus.value, host.runtimeDir + ["bus"], true, false),
       Shared(["run", "dbus"], true),
       Shared(["var", "lib", "dbus"], true)]
  }

  predicate Handles(spec: Spec) {
    spec.dbus.Some? && spec.schemes != []
  }

  function XwaylandOf(host: HostEnv, spec: Spec): Option<XwaylandMode> {
    if spec.display && host.waylandSocket.Some? && spec.xwayland.Some? then Some(spec.xwayland.value.0) else None
  }

  function HandlerMounts(host: HostEnv, spec: Spec): seq<Mount> {
    (if Handles(spec) || XwaylandOf(host, spec) == Some(Builtin)
     then [Bind(host.exe, PSBOX_BIN + ["psbox"], true, false)] else [])
    + if Handles(spec)
      then [File(PSBOX_DIR + ["config", "mimeapps.list"], spec.links.1),
            File(PSBOX_DIR + ["share", "applications", "psbox-open-uri.desktop"], spec.links.0)]
      else []
  }

  function OwnMounts(host: HostEnv, spec: Spec): seq<Mount> {
    BASE + NetworkMounts(spec.network) + RuntimeMounts(host) + WaylandMounts(host, spec) + AudioMounts(host, spec)
    + HomeMounts(host, spec) + BusMounts(host, spec) + HandlerMounts(host, spec)
  }

  /** psbox sets up `/`, `/proc` and `/dev` itself. */
  predicate Mountable(d: Path) {
    d != [] && !StartsWith(d, ["proc"]) && !StartsWith(d, ["dev"])
  }

  function ShareMount(m: Share): Mount {
    if m.mode == Empty || m.source.None? then Tmpfs(m.destination, EMPTY_MODE)
    else if m.mode == OverlayMode then Overlay(m.source.value, m.destination, m.optional)
    else Bind(m.source.value, m.destination, m.mode == ReadOnly, m.optional)
  }

  function ShareMounts(shares: seq<Share>): seq<Mount> {
    if shares == [] then []
    else
      var n := |shares| - 1;
      ShareMounts(shares[..n]) + if Mountable(shares[n].destination) then [ShareMount(shares[n])] else []
  }

  function X11Mounts(host: HostEnv, spec: Spec): seq<Mount> {
    if XwaylandOf(host, spec).Some? then [Tmpfs(X11_DIR, STICKY)] else []
  }

  function BuiltMounts(host: HostEnv, spec: Spec): seq<Mount> {
    OwnMounts(host, spec) + ByDepth(ShareMounts(spec.shares)) + X11Mounts(host, spec)
  }

  /** The plan of a spec, in the parts that are compared. */
  function Build(host: HostEnv, spec: Spec): Plan {
    Plan(
      if spec.home.Some? && spec.home.value.HomePath? then Some(spec.home.value.path) else None,
      host.home,
      BuiltMounts(host, spec),
      spec.dbus,
      if spec.dbus == Some(Portal) then spec.dbusTalk else [],
      XwaylandOf(host, spec),
      if XwaylandOf(host, spec) == Some(Builtin) then spec.xwayland.value.1 else Native,
      if spec.dbus.None? then [] else spec.schemes,
      spec.network,
      spec.allow32bit)
  }

  /** Puts the mounts of a plan in their order. */
  method BuildMounts(host: HostEnv, spec: Spec) returns (mounts: seq<Mount>)
    ensures mounts == BuiltMounts(host, spec)
  {
    hide Mountable, ShareMount, ByDepth, NetworkMounts, RuntimeMounts, WaylandMounts, AudioMounts, HomeMounts;
    hide BusMounts, HandlerMounts, X11Mounts;
    mounts := BASE + NetworkMounts(spec.network);
    mounts := mounts + RuntimeMounts(host);
    mounts := mounts + WaylandMounts(host, spec);
    mounts := mounts + AudioMounts(host, spec);
    mounts := mounts + HomeMounts(host, spec);
    mounts := mounts + BusMounts(host, spec);
    mounts := mounts + HandlerMounts(host, spec);
    var shares: seq<Mount> := [];
    for i := 0 to |spec.shares|
      invariant shares == ShareMounts(spec.shares[..i])
    {
      assert spec.shares[..i + 1][..i] == spec.shares[..i];
      if Mountable(spec.shares[i].destination) {
        shares := shares + [ShareMount(spec.shares[i])];
      }
    }
    assert spec.shares[..|spec.shares|] == spec.shares;
    mounts := mounts + ByDepth(shares);
    mounts := mounts + X11Mounts(host, spec);
  }

  // When no mount is at or above an earlier one.

  lemma LayeredOnce(s: seq<Mount>)
    requires Layered(s)
    ensures Distinct(s)
  {
    hide Before, StartsWith;
    forall i, j | 0 <= i < j < |s|
      ensures s[i] != s[j]
    {
      BothBefore(s, i, j);
      ItsOwn(s[i]);
    }
  }

  lemma {:induction false} BothBefore(s: seq<Mount>, i: nat, j: nat)
    requires i < j < |s|
    ensures Before(s, s[i], s[j])
    decreases |s|
  {
    var n := |s| - 1;
    if j < n {
      BothBefore(s[..n], i, j);
    } else {
      assert s[..n][i] == s[i];
    }
  }

  /** One list over another is layered if and only if both are and nothing of
      the second is at or above anything of the first. */
  lemma {:induction false} LayeredOver(a: seq<Mount>, b: seq<Mount>)
    ensures Layered(a + b) <==>
            Layered(a) && Layered(b) && forall k, m | k in a && m in b :: !StartsWith(k.dst, m.dst)
  {
    hide Layered, Before, StartsWith;
    if b == [] {
      assert a + b == a;
      NoneLayered();
    } else {
      var n := |b| - 1;
      var before, l := b[..n], b[n];
      assert b == before + [l] && a + b == a + before + [l];
      LayeredOver(a, before);
      LayeredLast(a + before, l);
      LayeredLast(before, l);
    }
  }

  lemma NoneLayered()
    ensures Layered([])
  {
  }

  lemma LayeredLast(s: seq<Mount>, l: Mount)
    ensures Layered(s + [l]) <==> Layered(s) && forall k | k in s :: !StartsWith(k.dst, l.dst)
  {
    hide StartsWith, Before;
    AllBefore(s + [l], s, l);
    forall a, k | Before(s, a, k)
      ensures a in s && k in s
    {
      OnlyListed(s, a, k);
    }
    if Layered(s + [l]) {
      forall k | k in s
        ensures !StartsWith(k.dst, l.dst)
      {
        assert Before(s + [l], k, l);
      }
    }
  }

  /** Shares have destinations of their own, none at or above one of psbox's
      mounts, and nothing is at or beneath the X11 socket directory when that
      is mounted. */
  ghost predicate Placed(host: HostEnv, spec: Spec) {
    var own, shares := OwnMounts(host, spec), ShareMounts(spec.shares);
    && (forall o, s | o in own && s in shares :: !StartsWith(o.dst, s.dst))
    && (XwaylandOf(host, spec).Some? ==> forall m | m in own || m in shares :: !StartsWith(m.dst, X11_DIR))
  }

  /** The config has no two mounts at one destination. */
  ghost predicate Checked(spec: Spec) {
    forall i, j | 0 <= i < j < |ShareMounts(spec.shares)| ::
      ShareMounts(spec.shares)[i].dst != ShareMounts(spec.shares)[j].dst
  }

  /** In a built plan no mount is at or above an earlier one if and only if
      that is so of psbox's own mounts and the shares are placed clear of
      them. */
  lemma BuiltIsLayered(host: HostEnv, spec: Spec)
    requires Checked(spec)
    ensures Layered(BuiltMounts(host, spec)) <==> Layered(OwnMounts(host, spec)) && Placed(host, spec)
  {
    hide OwnMounts, ShareMounts, ByDepth, Layered, StartsWith, Distinct, XwaylandOf;
    var own, shares := OwnMounts(host, spec), ShareMounts(spec.shares);
    SharesAreLayered(shares);
    LayeredOver(own, ByDepth(shares));
    if XwaylandOf(host, spec).Some? {
      LayeredLast(own + ByDepth(shares), Tmpfs(X11_DIR, STICKY));
      assert BuiltMounts(host, spec) == own + ByDepth(shares) + [Tmpfs(X11_DIR, STICKY)];
    } else {
      assert BuiltMounts(host, spec) == own + ByDepth(shares) + [] == own + ByDepth(shares);
    }
  }

  /** Between plans built so, the script never goes wrong. */
  lemma BuiltPlansReload(host: HostEnv, was: Spec, now: Spec)
    requires Checked(was) && Layered(OwnMounts(host, was)) && Placed(host, was)
    requires Checked(now) && Layered(OwnMounts(host, now)) && Placed(host, now)
    ensures var before, after := BuiltMounts(host, was), BuiltMounts(host, now);
            var moved := Moved(before, after);
            var left := DetachAll(before, Backwards(before, moved));
            left.Some? && forall p :: Visible(left.value + In(after, moved), p) == Visible(after, p)
  {
    hide Layered, Distinct, Moved, DetachAll, Visible, Placed, Checked, BuiltMounts, OwnMounts;
    BuiltIsLayered(host, was);
    BuiltIsLayered(host, now);
    LayeredOnce(BuiltMounts(host, was));
    LayeredOnce(BuiltMounts(host, now));
    LayeredPlansReload(BuiltMounts(host, was), BuiltMounts(host, now));
  }

  // Where a reload goes wrong: the sound sockets of `audio`, which are mounts
  // of psbox's own, and shares at or above their places.

  /** A sandbox with the audio class or without, and shares. */
  function Sandbox(audio: bool, shares: seq<Share>): Spec {
    Spec(Loopback, false, None, audio, None, None, [], [], ("", ""), false, shares)
  }

  function Others(host: HostEnv): seq<Mount> {
    BASE + RuntimeMounts(host)
  }

  lemma OwnOfSandbox(host: HostEnv, audio: bool, shares: seq<Share>)
    ensures OwnMounts(host, Sandbox(audio, shares)) ==
            Others(host) + if audio then [PipeWire(host), Pulse(host)] else []
    ensures BuiltMounts(host, Sandbox(audio, shares)) ==
            Others(host) + (if audio then [PipeWire(host), Pulse(host)] else []) + ByDepth(ShareMounts(shares))
  {
    hide ByDepth, ShareMounts, RuntimeMounts, PipeWire, Pulse;
    var spec := Sandbox(audio, shares);
    assert BASE + [] == BASE;
    assert Others(host) + [] == Others(host);
    var own := OwnMounts(host, spec);
    assert own == Others(host) + AudioMounts(host, spec);
    assert own + ByDepth(ShareMounts(shares)) + [] == own + ByDepth(ShareMounts(shares));
  }

  /** The host's runtime directory is where it is by default. */
  predicate DefaultRuntime(host: HostEnv) {
    |host.runtimeDir| == 3 && host.runtimeDir[0] == "run" && host.runtimeDir[1] == "user"
  }

  lemma OthersAreShallow(host: HostEnv)
    requires DefaultRuntime(host)
    ensures forall m | m in Others(host) :: |m.dst| <= 3
  {
    assert forall m | m in BASE :: |m.dst| <= 3;
  }

  /** `p` and `q` come after mounts that are less deep, and `q` is deeper than
      `p` and not beneath it. */
  predicate Deep(a: seq<Mount>, p: Mount, q: Mount) {
    && (forall m | m in a :: |m.dst| < |p.dst|)
    && |p.dst| < |q.dst| && !StartsWith(q.dst, p.dst)
    && LiveMount(p) && LiveMount(q) && p.Bind? && q.Bind?
  }

  lemma SocketsAreDeep(host: HostEnv)
    requires DefaultRuntime(host)
    ensures Deep(Others(host), PipeWire(host), Pulse(host))
  {
    hide Others;
    OthersAreShallow(host);
    assert PipeWire(host).dst[3] != Pulse(host).dst[3];
  }

  /** Without `p` and `q`, of which a later mount `s` is over `p`, only those
      two are to go. */
  lemma TwoGo(a: seq<Mount>, p: Mount, q: Mount, s: Mount)
    requires Deep(a, p, q) && s.dst == p.dst && s != p
    ensures Moved(a + [p, q] + [s], a + [s]) == {p, q}
  {
    hide LiveMount;
    var was, now := a + [p, q] + [s], a + [s];
    OfMoved(was, now);
    forall m | m in a || m == s
      ensures !Beneath(m, Changed(was, now))
    {
      forall d | d in Changed(was, now)
        ensures d == p.dst || d == q.dst
      {
        assert forall x | x in now :: x in was;
        assert forall x | x in was && x !in now :: x == p || x == q;
      }
    }
    assert p in was && q in was && p !in now && q !in now;
  }

  lemma LaterGoes(a: seq<Mount>, p: Mount, q: Mount, s: Mount)
    requires Deep(a, p, q) && s.dst == p.dst && s != p
    ensures Backwards(a + [p, q] + [s], {p, q}) == [q, p]
    ensures DetachAll(a + [p, q] + [s], [q, p]) == Some(a + [p])
    ensures In(a + [s], {p, q}) == []
  {
    hide LiveMount, Backwards, In, DetachAll, Detach;
    GoBackwards(a, p, q, s);
    assert a + [p, q] + [s] == a + [p] + [q] + [s];
    DetachOne(a + [p], q, [s]);
    DetachFirst(a + [p] + [q] + [s], q, [p]);
    ItsOwn(p);
    DetachLast(a + [p], s, p.dst);
    DetachFirst(a + [p] + [s], p, []);
    DetachNone(a + [p]);
    assert [q] + [p] == [q, p] && [p] + [] == [p];
  }

  lemma DetachNone(s: seq<Mount>)
    ensures DetachAll(s, []) == Some(s)
  {
  }

  lemma GoBackwards(a: seq<Mount>, p: Mount, q: Mount, s: Mount)
    requires p !in a && q !in a && s != p && s != q
    ensures Backwards(a + [p, q] + [s], {p, q}) == [q, p]
    ensures In(a + [s], {p, q}) == []
  {
    hide Backwards, In;
    NoneIn(a, {p, q});
    BackwardsLast(a, p, {p, q});
    BackwardsLast(a + [p], q, {p, q});
    BackwardsLast(a + [p] + [q], s, {p, q});
    assert a + [p, q] + [s] == a + [p] + [q] + [s];
    NoneIn(a + [s], {p, q});
    assert [q] + [p] == [q, p] && [p] + [] == [p] && [] + [q, p] == [q, p];
  }

  lemma {:induction false} NoneIn(a: seq<Mount>, of: set<Mount>)
    requires forall m | m in a :: m !in of
    ensures In(a, of) == [] && Backwards(a, of) == []
  {
    if a != [] {
      NoneIn(a[..|a| - 1], of);
    }
  }

  lemma BackwardsLast(s: seq<Mount>, l: Mount, of: set<Mount>)
    ensures Backwards(s + [l], of) == (if l in of then [l] else []) + Backwards(s, of)
  {
    assert (s + [l])[..|s|] == s;
  }

  /** Turning the audio class off in a sandbox that shares something else at
      the place of its PipeWire socket needs no restart, and detaches the
      share instead: the socket that should be gone shows. */
  lemma SamePlaceGoesWrong(host: HostEnv, src: Path)
    requires DefaultRuntime(host)
    ensures var shares := [Share(Some(src), host.runtimeDir + ["pipewire-0"], ReadOnly, false)];
            var was, now := Build(host, Sandbox(true, shares)), Build(host, Sandbox(false, shares));
            var moved := Moved(was.mounts, now.mounts);
            var left := DetachAll(was.mounts, Backwards(was.mounts, moved));
            var socket := host.runtimeDir + ["pipewire-0"];
            && (forall why :: !Needs(was, now, why))
            && left.Some?
            && Visible(left.value + In(now.mounts, moved), socket) == Some(PipeWire(host))
            && Visible(now.mounts, socket) == Some(Bind(src, socket, true, false))
  {
    hide *;
    var p, q := PipeWire(host), Pulse(host);
    var share := Share(Some(src), host.runtimeDir + ["pipewire-0"], ReadOnly, false);
    var s := Bind(src, host.runtimeDir + ["pipewire-0"], true, false);
    var others := Others(host);
    Destinations(host);
    OneShare(host, share);
    BindOf(src, host.runtimeDir + ["pipewire-0"], false);
    SandboxMounts(host, true, [share]);
    SandboxMounts(host, false, [share]);
    SocketsAreDeep(host);
    TwoGo(others, p, q, s);
    LaterGoes(others, p, q, s);
    OnlySockets(host, Sandbox(true, [share]), Sandbox(false, [share]));
    ItsOwn(p);
    LastShows(others, p, p.dst);
    LastShows(others, s, p.dst);
    NothingAdded(others + [p]);
  }

  lemma NothingAdded(s: seq<Mount>)
    ensures s + [] == s
  {
  }

  lemma LastShows(s: seq<Mount>, l: Mount, p: Path)
    ensures StartsWith(p, l.dst) ==> Visible(s + [l], p) == Some(l)
    ensures !StartsWith(p, l.dst) ==> Visible(s + [l], p) == Visible(s, p)
  {
    assert (s + [l])[..|s|] == s;
  }

  lemma Destinations(host: HostEnv)
    requires DefaultRuntime(host)
    ensures PipeWire(host).dst == host.runtimeDir + ["pipewire-0"]
    ensures forall src :: PipeWire(host) != Bind(src, PipeWire(host).dst, true, false)
    ensures |host.runtimeDir| == 3 && PipeWire(host).dst[..3] == host.runtimeDir
  {
  }

  lemma BindOf(src: Path, d: Path, optional: bool)
    ensures ShareMount(Share(Some(src), d, ReadOnly, optional)) == Bind(src, d, true, optional)
  {
  }

  /** The mounts of a sandbox's plan. */
  lemma SandboxMounts(host: HostEnv, audio: bool, shares: seq<Share>)
    ensures Build(host, Sandbox(audio, shares)).mounts == BuiltMounts(host, Sandbox(audio, shares))
    ensures Build(host, Sandbox(audio, shares)).mounts ==
            if audio then Others(host) + [PipeWire(host), Pulse(host)] + ByDepth(ShareMounts(shares))
            else Others(host) + ByDepth(ShareMounts(shares))
    ensures Sandbox(audio, shares) == Sandbox(!audio, shares).(audio := audio)
  {
    hide ByDepth, ShareMounts, OwnMounts, Others;
    OwnOfSandbox(host, audio, shares);
    NothingAdded(Others(host));
  }

  lemma OneShare(host: HostEnv, share: Share)
    requires DefaultRuntime(host) && |share.destination| >= 3 && share.destination[..3] == host.runtimeDir
    ensures ByDepth(ShareMounts([share])) == [ShareMount(share)]
  {
    assert share.destination[0] == share.destination[..3][0];
    assert [share][..0] == [];
    assert ShareMounts([share]) == [] + [ShareMount(share)];
    assert [ShareMount(share)][..0] == [];
  }

  /** Nothing needs a restart when only the sound sockets move. */
  lemma OnlySockets(host: HostEnv, was: Spec, now: Spec)
    requires was == now.(audio := was.audio, shares := was.shares)
    requires Moved(BuiltMounts(host, was), BuiltMounts(host, now)) <= {PipeWire(host), Pulse(host)}
    requires DefaultRuntime(host)
    ensures forall why :: !Needs(Build(host, was), Build(host, now), why)
  {
    hide Moved, LiveMount, BuiltMounts, Others;
    SocketsAreDeep(host);
    var before, after := Build(host, was), Build(host, now);
    var cache := Tmpfs(host.home + [".cache"], CACHE_MODE);
    assert cache in before.mounts <==> cache in after.mounts by {
      OfMoved(before.mounts, after.mounts);
    }
  }

  /** Shares of the two sockets, and of an empty runtime directory. */
  function EmptyRuntime(host: HostEnv): Share {
    Share(None, host.runtimeDir, Empty, false)
  }

  function SocketShares(host: HostEnv): seq<Share> {
    [EmptyRuntime(host), Share(Some(PipeWire(host).dst), PipeWire(host).dst, ReadOnly, true),
     Share(Some(Pulse(host).dst), Pulse(host).dst, ReadOnly, true)]
  }

  lemma SocketSharesSorted(host: HostEnv)
    requires DefaultRuntime(host)
    ensures ByDepth(ShareMounts(SocketShares(host))) == [ShareMount(EmptyRuntime(host)), PipeWire(host), Pulse(host)]
  {
    var t, p, q := ShareMount(EmptyRuntime(host)), PipeWire(host), Pulse(host);
    var shares := SocketShares(host);
    assert p.dst[0] == "run" && q.dst[0] == "run" && t.dst[0] == "run";
    assert shares[..2][..1] == [shares[0]] && shares[..2][1] == shares[1] && [shares[0]][..0] == [];
    assert ShareMounts([shares[0]]) == [] + [t];
    assert ShareMounts(shares[..2]) == [t] + [p];
    assert ShareMounts(shares) == [t] + [p] + [q];
    assert [t, p, q][..2] == [t, p] && [t, p][..1] == [t] && [t][..0] == [];
    assert ByDepth([t]) == [t];
    assert ByDepth([t, p]) == [t, p];
  }

  /** A sandbox with the audio class and an empty share over its runtime
      directory, which hides the sound sockets, goes to one without the class
      that shares the sockets in that directory: the mounts are the same ones,
      so nothing is detached or attached, and the sockets stay hidden. */
  lemma OrderGoesUnnoticed(host: HostEnv)
    requires DefaultRuntime(host)
    ensures var was, now := Build(host, Sandbox(true, [EmptyRuntime(host)])), Build(host, Sandbox(false, SocketShares(host)));
            var socket := PipeWire(host).dst;
            && (forall why :: !Needs(was, now, why))
            && Moved(was.mounts, now.mounts) == {}
            && Visible(was.mounts, socket) == Some(Tmpfs(host.runtimeDir, EMPTY_MODE))
            && Visible(now.mounts, socket) == Some(PipeWire(host))
  {
    hide *;
    var t, p, q := Tmpfs(host.runtimeDir, EMPTY_MODE), PipeWire(host), Pulse(host);
    var a := Others(host);
    EmptyShare(host);
    OneShare(host, EmptyRuntime(host));
    SocketSharesSorted(host);
    SandboxMounts(host, true, [EmptyRuntime(host)]);
    SandboxMounts(host, false, SocketShares(host));
    SameMounts(a, p, q, t);
    AlikeSandboxes([EmptyRuntime(host)], SocketShares(host));
    OnlySockets(host, Sandbox(true, [EmptyRuntime(host)]), Sandbox(false, SocketShares(host)));
    OnTheWay(host);
    LastShows(a + [p, q], t, p.dst);
    LastShows(a + [t] + [p], q, p.dst);
    LastShows(a + [t], p, p.dst);
    OneByOne(a, t, p, q);
  }

  lemma OneByOne(a: seq<Mount>, t: Mount, p: Mount, q: Mount)
    ensures a + [t, p, q] == a + [t] + [p] + [q]
  {
  }

  lemma AlikeSandboxes(shares: seq<Share>, others: seq<Share>)
    ensures Sandbox(true, shares) == Sandbox(false, others).(audio := true, shares := shares)
    ensures Sandbox(true, shares).audio && Sandbox(true, shares).shares == shares
  {
  }

  lemma EmptyShare(host: HostEnv)
    requires DefaultRuntime(host)
    ensures |host.runtimeDir| == 3 && EmptyRuntime(host).destination == host.runtimeDir
    ensures host.runtimeDir[..3] == host.runtimeDir
    ensures ShareMount(EmptyRuntime(host)) == Tmpfs(host.runtimeDir, EMPTY_MODE)
  {
  }

  lemma OnTheWay(host: HostEnv)
    requires DefaultRuntime(host)
    ensures StartsWith(PipeWire(host).dst, host.runtimeDir) && StartsWith(PipeWire(host).dst, PipeWire(host).dst)
    ensures !StartsWith(PipeWire(host).dst, Pulse(host).dst)
  {
  }

  lemma SameMounts(a: seq<Mount>, p: Mount, q: Mount, t: Mount)
    ensures Moved(a + [p, q] + [t], a + [t, p, q]) == {}
  {
    var was, now := a + [p, q] + [t], a + [t, p, q];
    OfMoved(was, now);
    assert forall m :: m in was <==> m in now;
    assert Changed(was, now) == [] by {
      assert forall d :: d !in Missing(was, now) && d !in Missing(now, was);
      SomePath(Missing(was, now));
      SomePath(Missing(now, was));
    }
  }

  lemma SomePath(ds: seq<Path>)
    ensures ds == [] || exists d :: d in ds
  {
    if ds != [] {
      assert ds[0] in ds;
    }
  }
}
