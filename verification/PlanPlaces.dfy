/** When no mount of psbox's own is at or above an earlier one. */
module PlanPlaces {
  import opened Wrappers
  import opened Mounts
  import opened PlanDiff
  import opened Reload
  import opened ReloadPlans
  import opened PlanBuild

  /** No mount of `b` is at or above one of `a`. */
  ghost predicate Clear(a: seq<Mount>, b: seq<Mount>) {
    forall k, m | k in a && m in b :: !StartsWith(k.dst, m.dst)
  }

  /** psbox's own mounts before the home, and after it. */
  function Earlier(host: HostEnv, spec: Spec): seq<Mount> {
    BASE + NetworkMounts(spec.network) + RuntimeMounts(host) + WaylandMounts(host, spec) + AudioMounts(host, spec)
  }

  function Later(host: HostEnv, spec: Spec): seq<Mount> {
    BusMounts(host, spec) + HandlerMounts(host, spec)
  }

  /** The home is not at or above an earlier place, nor at or beneath a
      later one. */
  ghost predicate HomeClear(host: HostEnv, spec: Spec) {
    spec.home.Some? ==>
      && (forall m | m in Earlier(host, spec) :: !StartsWith(m.dst, host.home))
      && (forall m | m in Later(host, spec) :: !StartsWith(host.home, m.dst))
  }

  /** The compositor's socket does not have the name of one mounted after it. */
  predicate SocketClear(host: HostEnv, spec: Spec) {
    spec.display && host.waylandSocket.Some? && host.waylandSocket.value != [] ==>
      var name := host.waylandSocket.value[|host.waylandSocket.value| - 1];
      && (spec.audio ==> name != "pipewire-0")
      && (spec.dbus == Some(Host) && host.sessionBus.Some? ==> name != "bus")
  }

  /** psbox's own mounts are layered if and only if the home and the
      compositor's socket keep clear of the others. */
  lemma OwnAreLayered(host: HostEnv, spec: Spec)
    requires DefaultRuntime(host)
    ensures Layered(OwnMounts(host, spec)) <==> HomeClear(host, spec) && SocketClear(host, spec)
  {
    hide *;
    var earlier, home, later := Earlier(host, spec), HomeMounts(host, spec), Later(host, spec);
    InThree(host, spec);
    LayeredJoin(earlier, home);
    LayeredJoin(earlier + home, later);
    ClearJoin(earlier, home, later);
    EarlierAreLayered(host, spec);
    LaterAreLayered(host, spec);
    LaterKeepClear(host, spec);
    SocketsKeepClear(host, spec);
    HomeIsLayered(host, spec);
    HomeKeepsClear(host, spec);
  }

  lemma InThree(host: HostEnv, spec: Spec)
    ensures OwnMounts(host, spec) == Earlier(host, spec) + HomeMounts(host, spec) + Later(host, spec)
  {
    hide BASE, NetworkMounts, RuntimeMounts, WaylandMounts, AudioMounts, HomeMounts, BusMounts, HandlerMounts;
  }

  lemma LayeredJoin(a: seq<Mount>, b: seq<Mount>)
    ensures Layered(a + b) <==> Layered(a) && Layered(b) && Clear(a, b)
  {
    hide Layered, StartsWith;
    LayeredOver(a, b);
  }

  lemma ClearJoin(a: seq<Mount>, b: seq<Mount>, c: seq<Mount>)
    ensures Clear(a + b, c) <==> Clear(a, c) && Clear(b, c)
    ensures Clear(c, a + b) <==> Clear(c, a) && Clear(c, b)
  {
    hide StartsWith;
    assert forall m :: m in a + b <==> m in a || m in b;
  }

  // Where the mounts are.

  /** `d` and `k` differ at `i`, or `d` is too short. */
  lemma Apart(d: Path, k: Path, i: nat)
    requires i < |k| && (i < |d| ==> d[i] != k[i])
    ensures !StartsWith(d, k)
  {
    assert |k| <= |d| ==> d[..|k|][i] == d[i];
  }

  predicate NetworkPlace(d: Path) {
    |d| >= 2 && (d[0] == "etc" || (d[0] == "run" && d[1] == "systemd"))
  }

  predicate RuntimePlace(host: HostEnv, d: Path) {
    d == ["run", "udev"] || d == host.runtimeDir
  }

  predicate SocketPlace(host: HostEnv, d: Path) {
    |d| >= 4 && d[..3] == host.runtimeDir
  }

  predicate BusPlace(d: Path) {
    d == ["run", "dbus"] || d == ["var", "lib", "dbus"]
  }

  predicate HandlerPlace(d: Path) {
    |d| >= 4 && d[0] == "run" && d[1] == "psbox"
  }

  predicate BasePlace(d: Path) {
    && d != [] && d[0] != "run" && d[0] != ""
    && (|d| >= 2 ==> d[0] != "etc" && d[1] != "lib")
  }

  lemma BaseMount(m: Mount)
    requires m in BASE
    ensures BasePlace(m.dst)
  {
  }

  lemma NetworkMount(spec: Spec, m: Mount)
    requires m in NetworkMounts(spec.network)
    ensures NetworkPlace(m.dst)
  {
  }

  lemma RuntimeMount(host: HostEnv, m: Mount)
    requires DefaultRuntime(host) && m in RuntimeMounts(host)
    ensures RuntimePlace(host, m.dst)
  {
  }

  lemma WaylandMount(host: HostEnv, spec: Spec, m: Mount)
    requires DefaultRuntime(host) && m in WaylandMounts(host, spec)
    ensures SocketPlace(host, m.dst)
  {
  }

  lemma AudioMount(host: HostEnv, spec: Spec, m: Mount)
    requires DefaultRuntime(host) && m in AudioMounts(host, spec)
    ensures SocketPlace(host, m.dst)
  {
  }

  lemma BusMount(host: HostEnv, spec: Spec, m: Mount)
    requires DefaultRuntime(host) && m in BusMounts(host, spec)
    ensures SocketPlace(host, m.dst) || BusPlace(m.dst)
  {
  }

  lemma HandlerMount(host: HostEnv, spec: Spec, m: Mount)
    requires m in HandlerMounts(host, spec)
    ensures HandlerPlace(m.dst)
  {
  }

  /** What is not among the first mounts is not at or above one of them. */
  lemma OffBase(host: HostEnv, d: Path, k: Path)
    requires DefaultRuntime(host) && BasePlace(d)
    requires NetworkPlace(k) || RuntimePlace(host, k) || SocketPlace(host, k) || BusPlace(k) || HandlerPlace(k)
    ensures !StartsWith(d, k)
  {
    hide StartsWith;
    if k[0] == "run" {
      Apart(d, k, 0);
    } else if d[0] == k[0] {
      Apart(d, k, 1);
    } else {
      Apart(d, k, 0);
    }
  }

  lemma OffNetwork(host: HostEnv, d: Path, k: Path)
    requires DefaultRuntime(host) && NetworkPlace(d)
    requires RuntimePlace(host, k) || SocketPlace(host, k) || BusPlace(k) || HandlerPlace(k)
    ensures !StartsWith(d, k)
  {
    hide StartsWith;
    if d[0] == "run" && k[0] == "run" {
      InUser(host, k);
      Apart(d, k, 1);
    } else {
      InUser(host, k);
      Apart(d, k, 0);
    }
  }

  lemma InUser(host: HostEnv, k: Path)
    requires DefaultRuntime(host)
    ensures SocketPlace(host, k) ==> k[0] == "run" && k[1] == "user"
  {
    if SocketPlace(host, k) {
      assert k[0] == k[..3][0] && k[1] == k[..3][1];
    }
  }

  lemma OffRuntime(host: HostEnv, d: Path, k: Path)
    requires DefaultRuntime(host) && RuntimePlace(host, d)
    requires SocketPlace(host, k) || BusPlace(k) || HandlerPlace(k)
    ensures !StartsWith(d, k)
  {
    hide StartsWith;
    InUser(host, k);
    if SocketPlace(host, k) {
      Apart(d, k, if d == host.runtimeDir then 3 else 1);
    } else if k[0] == "run" {
      Apart(d, k, 1);
    } else {
      Apart(d, k, 0);
    }
  }

  lemma OffSockets(host: HostEnv, d: Path, k: Path)
    requires DefaultRuntime(host) && SocketPlace(host, d)
    requires BusPlace(k) || HandlerPlace(k)
    ensures !StartsWith(d, k)
  {
    hide StartsWith;
    InUser(host, d);
    Apart(d, k, if k[0] == "run" then 1 else 0);
  }

  lemma OffBus(d: Path, k: Path)
    requires BusPlace(d) && HandlerPlace(k)
    ensures !StartsWith(d, k)
  {
    hide StartsWith;
    Apart(d, k, if d[0] == "run" then 1 else 0);
  }

  // Each part of the list is layered.

  lemma {:induction false} FreeIsLayered(s: seq<Mount>)
    requires forall i, j | 0 <= i < j < |s| :: !StartsWith(s[i].dst, s[j].dst)
    ensures Layered(s)
  {
    hide Layered, StartsWith;
    if s == [] {
      NoneLayered();
    } else {
      var n := |s| - 1;
      FreeIsLayered(s[..n]);
      assert s == s[..n] + [s[n]];
      LayeredLast(s[..n], s[n]);
    }
  }

  const HEADS: seq<string> := ["usr", "etc", "opt", "sys", "bin", "sbin", "lib", "lib64", "proc", "dev", "tmp", "var"]

  /** A number for a name, from its length and first characters. */
  function Code(s: string): int {
    if |s| < 3 then 0 else |s| + 8 * (s[0] as int + 128 * (s[1] as int + 128 * s[2] as int))
  }

  lemma HeadsDiffer(i: nat, j: nat)
    requires i < j < |HEADS|
    ensures HEADS[i] != HEADS[j]
  {
    assert Code(HEADS[i]) != Code(HEADS[j]);
  }

  lemma HeadOf(i: nat)
    requires i < |HEADS|
    ensures |HEADS| == 12 && |BASE| == 14 && BASE[i].dst == [HEADS[i]]
  {
  }

  lemma Deeper(i: nat, j: nat)
    requires i < j < |BASE| && j >= |HEADS|
    ensures |BASE[i].dst| < |BASE[j].dst|
  {
  }

  lemma BaseIsLayered()
    ensures Layered(BASE)
  {
    hide BASE, HEADS, Layered, StartsWith;
    forall i, j | 0 <= i < j < |BASE|
      ensures !StartsWith(BASE[i].dst, BASE[j].dst)
    {
      if j < |HEADS| {
        HeadsDiffer(i, j);
        HeadOf(i);
        HeadOf(j);
        Apart(BASE[i].dst, BASE[j].dst, 0);
      } else {
        Deeper(i, j);
        Apart(BASE[i].dst, BASE[j].dst, |BASE[i].dst|);
      }
    }
    FreeIsLayered(BASE);
  }

  lemma NetworkIsLayered(spec: Spec)
    ensures Layered(NetworkMounts(spec.network))
  {
    hide Layered;
    FreeIsLayered(NetworkMounts(spec.network));
  }

  lemma RuntimeIsLayered(host: HostEnv)
    requires DefaultRuntime(host)
    ensures Layered(RuntimeMounts(host))
  {
    hide Layered, StartsWith;
    var s := RuntimeMounts(host);
    Apart(s[0].dst, s[1].dst, 1);
    FreeIsLayered(s);
  }

  lemma WaylandIsLayered(host: HostEnv, spec: Spec)
    ensures Layered(WaylandMounts(host, spec))
  {
    hide Layered;
    FreeIsLayered(WaylandMounts(host, spec));
  }

  lemma AudioIsLayered(host: HostEnv, spec: Spec)
    ensures Layered(AudioMounts(host, spec))
  {
    hide Layered, StartsWith;
    Apart(PipeWire(host).dst, Pulse(host).dst, |host.runtimeDir|);
    FreeIsLayered(AudioMounts(host, spec));
  }

  lemma HomeIsLayered(host: HostEnv, spec: Spec)
    ensures Layered(HomeMounts(host, spec))
  {
    hide Layered, StartsWith;
    Apart(host.home, host.home + [".cache"], |host.home|);
    FreeIsLayered(HomeMounts(host, spec));
  }

  lemma BusIsLayered(host: HostEnv, spec: Spec)
    requires DefaultRuntime(host)
    ensures Layered(BusMounts(host, spec))
  {
    hide Layered, StartsWith;
    var bus := host.runtimeDir + ["bus"];
    Apart(bus, ["run", "dbus"], 1);
    Apart(bus, ["var", "lib", "dbus"], 0);
    Apart(["run", "dbus"], ["var", "lib", "dbus"], 0);
    FreeIsLayered(BusMounts(host, spec));
  }

  lemma HandlerIsLayered(host: HostEnv, spec: Spec)
    ensures Layered(HandlerMounts(host, spec))
  {
    hide Layered, StartsWith, Handles, XwaylandOf;
    var bin, config := PSBOX_BIN + ["psbox"], PSBOX_DIR + ["config", "mimeapps.list"];
    var entry := PSBOX_DIR + ["share", "applications", "psbox-open-uri.desktop"];
    Apart(bin, config, 2);
    Apart(bin, entry, 2);
    Apart(config, entry, 2);
    FreeIsLayered(HandlerMounts(host, spec));
  }

  // No later part is at or above an earlier one.

  lemma EarlierAreLayered(host: HostEnv, spec: Spec)
    requires DefaultRuntime(host)
    ensures Layered(Earlier(host, spec)) <==> Clear(WaylandMounts(host, spec), AudioMounts(host, spec))
  {
    hide *;
    var n, r, w, a := NetworkMounts(spec.network), RuntimeMounts(host), WaylandMounts(host, spec), AudioMounts(host, spec);
    InFive(host, spec);
    BaseIsLayered();
    NetworkIsLayered(spec);
    RuntimeIsLayered(host);
    WaylandIsLayered(host, spec);
    AudioIsLayered(host, spec);
    LayeredJoin(BASE, n);
    LayeredJoin(BASE + n, r);
    LayeredJoin(BASE + n + r, w);
    LayeredJoin(BASE + n + r + w, a);
    ClearOfFront(host, spec);
    ClearJoin(BASE + n + r, w, a);
  }

  lemma InFive(host: HostEnv, spec: Spec)
    ensures Earlier(host, spec) ==
            BASE + NetworkMounts(spec.network) + RuntimeMounts(host) + WaylandMounts(host, spec) + AudioMounts(host, spec)
  {
    hide BASE, NetworkMounts, RuntimeMounts, WaylandMounts, AudioMounts;
  }

  /** The first three parts keep clear of what comes after them. */
  lemma ClearOfFront(host: HostEnv, spec: Spec)
    requires DefaultRuntime(host)
    ensures Clear(BASE, NetworkMounts(spec.network)) && Clear(BASE + NetworkMounts(spec.network), RuntimeMounts(host))
    ensures var front := BASE + NetworkMounts(spec.network) + RuntimeMounts(host);
            && Clear(front, WaylandMounts(host, spec)) && Clear(front, AudioMounts(host, spec))
            && Clear(front, Later(host, spec))
  {
    hide BASE, NetworkMounts, RuntimeMounts, WaylandMounts, AudioMounts, BusMounts, HandlerMounts, DefaultRuntime;
    hide StartsWith, BasePlace, NetworkPlace, RuntimePlace, SocketPlace, BusPlace, HandlerPlace;
    var n, r := NetworkMounts(spec.network), RuntimeMounts(host);
    var w, a, later := WaylandMounts(host, spec), AudioMounts(host, spec), Later(host, spec);
    forall k, m | k in BASE && (m in n || m in r || m in w || m in a || m in later)
      ensures !StartsWith(k.dst, m.dst)
    {
      BaseMount(k);
      PlaceOf(host, spec, m);
      OffBase(host, k.dst, m.dst);
    }
    forall k, m | k in n && (m in r || m in w || m in a || m in later)
      ensures !StartsWith(k.dst, m.dst)
    {
      NetworkMount(spec, k);
      PlaceOf(host, spec, m);
      OffNetwork(host, k.dst, m.dst);
    }
    forall k, m | k in r && (m in w || m in a || m in later)
      ensures !StartsWith(k.dst, m.dst)
    {
      RuntimeMount(host, k);
      PlaceOf(host, spec, m);
      OffRuntime(host, k.dst, m.dst);
    }
  }

  lemma PlaceOf(host: HostEnv, spec: Spec, m: Mount)
    requires DefaultRuntime(host)
    ensures m in NetworkMounts(spec.network) ==> NetworkPlace(m.dst)
    ensures m in RuntimeMounts(host) ==> RuntimePlace(host, m.dst)
    ensures m in WaylandMounts(host, spec) || m in AudioMounts(host, spec) ==> SocketPlace(host, m.dst)
    ensures m in Later(host, spec) ==> SocketPlace(host, m.dst) || BusPlace(m.dst) || HandlerPlace(m.dst)
  {
    hide BASE, NetworkMounts, RuntimeMounts, WaylandMounts, AudioMounts, BusMounts, HandlerMounts, DefaultRuntime;
    hide NetworkPlace, RuntimePlace, SocketPlace, BusPlace, HandlerPlace;
    if m in NetworkMounts(spec.network) {
      NetworkMount(spec, m);
    }
    if m in RuntimeMounts(host) {
      RuntimeMount(host, m);
    }
    if m in WaylandMounts(host, spec) {
      WaylandMount(host, spec, m);
    }
    if m in AudioMounts(host, spec) {
      AudioMount(host, spec, m);
    }
    if m in BusMounts(host, spec) {
      BusMount(host, spec, m);
    } else if m in HandlerMounts(host, spec) {
      HandlerMount(host, spec, m);
    }
  }

  lemma LaterAreLayered(host: HostEnv, spec: Spec)
    requires DefaultRuntime(host)
    ensures Layered(Later(host, spec))
  {
    hide BASE, BusMounts, HandlerMounts, DefaultRuntime, Layered;
    hide StartsWith, SocketPlace, BusPlace, HandlerPlace;
    var b, h := BusMounts(host, spec), HandlerMounts(host, spec);
    BusIsLayered(host, spec);
    HandlerIsLayered(host, spec);
    LayeredJoin(b, h);
    forall k, m | k in b && m in h
      ensures !StartsWith(k.dst, m.dst)
    {
      BusMount(host, spec, k);
      HandlerMount(host, spec, m);
      if SocketPlace(host, k.dst) {
        OffSockets(host, k.dst, m.dst);
      } else {
        OffBus(k.dst, m.dst);
      }
    }
  }

  lemma LaterKeepClear(host: HostEnv, spec: Spec)
    requires DefaultRuntime(host)
    ensures Clear(Earlier(host, spec), Later(host, spec)) <==> Clear(WaylandMounts(host, spec), BusMounts(host, spec))
  {
    hide *;
    var n, r, w, a := NetworkMounts(spec.network), RuntimeMounts(host), WaylandMounts(host, spec), AudioMounts(host, spec);
    var front, b, h, later := BASE + n + r, BusMounts(host, spec), HandlerMounts(host, spec), Later(host, spec);
    InFive(host, spec);
    InTwo(host, spec);
    ClearOfFront(host, spec);
    ClearJoin(front, w, later);
    ClearJoin(front + w, a, later);
    ClearJoin(b, h, w);
    SocketsOffLater(host, spec);
  }

  lemma InTwo(host: HostEnv, spec: Spec)
    ensures Later(host, spec) == BusMounts(host, spec) + HandlerMounts(host, spec)
  {
  }

  lemma SocketsOffLater(host: HostEnv, spec: Spec)
    requires DefaultRuntime(host)
    ensures Clear(WaylandMounts(host, spec), HandlerMounts(host, spec))
    ensures Clear(AudioMounts(host, spec), Later(host, spec))
  {
    hide WaylandMounts, AudioMounts, BusMounts, HandlerMounts, DefaultRuntime;
    hide StartsWith, SocketPlace, BusPlace, HandlerPlace;
    forall k, m | (k in WaylandMounts(host, spec) || k in AudioMounts(host, spec)) && m in HandlerMounts(host, spec)
      ensures !StartsWith(k.dst, m.dst)
    {
      PlaceOf(host, spec, k);
      HandlerMount(host, spec, m);
      OffSockets(host, k.dst, m.dst);
    }
    forall k, m | k in AudioMounts(host, spec) && m in BusMounts(host, spec)
      ensures !StartsWith(k.dst, m.dst)
    {
      AudioMount(host, spec, k);
      BusMount(host, spec, m);
      if BusPlace(m.dst) {
        OffSockets(host, k.dst, m.dst);
      } else {
        AudioOffBus(host, spec, k, m);
      }
    }
  }

  lemma AudioOffBus(host: HostEnv, spec: Spec, k: Mount, m: Mount)
    requires DefaultRuntime(host) && k in AudioMounts(host, spec) && m in BusMounts(host, spec)
    requires SocketPlace(host, m.dst)
    ensures !StartsWith(k.dst, m.dst)
  {
    hide StartsWith;
    assert m.dst == host.runtimeDir + ["bus"] by {
      InUser(host, m.dst);
    }
    Apart(k.dst, m.dst, 3);
  }

  /** Two sockets right in the runtime directory keep clear of each other
      when their names differ. */
  lemma NamesDiffer(dir: Path, a: string, rest: Path)
    requires rest != []
    ensures StartsWith(dir + [a], dir + rest) <==> rest == [a]
  {
    if |rest| == 1 {
      assert (dir + [a])[..|dir| + 1] == dir + [a];
      assert (dir + [a])[|dir|] == a && (dir + rest)[|dir|] == rest[0];
    }
  }

  lemma SocketsKeepClear(host: HostEnv, spec: Spec)
    requires DefaultRuntime(host)
    ensures SocketClear(host, spec) <==>
            && Clear(WaylandMounts(host, spec), AudioMounts(host, spec))
            && Clear(WaylandMounts(host, spec), BusMounts(host, spec))
  {
    hide StartsWith;
    if WaylandMounts(host, spec) != [] {
      var sock := host.waylandSocket.value;
      var name := sock[|sock| - 1];
      var w := WaylandMounts(host, spec)[0];
      NamesDiffer(host.runtimeDir, name, ["pipewire-0"]);
      NamesDiffer(host.runtimeDir, name, ["pulse", "native"]);
      NamesDiffer(host.runtimeDir, name, ["bus"]);
      Apart(w.dst, ["run", "dbus"], 1);
      Apart(w.dst, ["var", "lib", "dbus"], 0);
      assert spec.audio ==> AudioMounts(host, spec)[0] in AudioMounts(host, spec);
      assert BusMounts(host, spec) != [] ==> BusMounts(host, spec)[0] in BusMounts(host, spec);
    }
  }

  lemma HomeKeepsClear(host: HostEnv, spec: Spec)
    ensures HomeClear(host, spec) <==>
            && Clear(Earlier(host, spec), HomeMounts(host, spec))
            && Clear(HomeMounts(host, spec), Later(host, spec))
  {
    hide Earlier, Later, StartsWith;
    if spec.home.Some? {
      var home, cache := HomeMounts(host, spec)[0], host.home + [".cache"];
      assert home in HomeMounts(host, spec) && home.dst == host.home;
      forall d | StartsWith(d, cache)
        ensures StartsWith(d, host.home)
      {
        IsAtItself(host.home, [".cache"]);
        StartsWithTransitive(d, cache, host.home);
      }
      forall m | m in Later(host, spec) && StartsWith(cache, m.dst)
        ensures StartsWith(host.home, m.dst)
      {
        NoCache(host, spec, m);
        AboveLast(host.home, ".cache", m.dst);
      }
    }
  }

  lemma IsAtItself(d: Path, rest: Path)
    ensures StartsWith(d + rest, d)
  {
  }

  lemma AboveLast(d: Path, name: string, k: Path)
    requires StartsWith(d + [name], k) && (k == [] || k[|k| - 1] != name)
    ensures StartsWith(d, k)
  {
    assert (d + [name])[..|d| + 1] == d + [name];
    assert |k| <= |d|;
    assert (d + [name])[..|k|] == d[..|k|];
  }

  lemma NoCache(host: HostEnv, spec: Spec, m: Mount)
    requires m in Later(host, spec)
    ensures m.dst == [] || m.dst[|m.dst| - 1] != ".cache"
  {
    assert ".cache"[0] == '.';
  }

  /** A home that is not in `/run`, nor at or above a mount every sandbox has
      or `/etc/resolv.conf`, nor in `/var/lib/dbus`. */
  ghost predicate OrdinaryHome(home: Path) {
    && home != [] && home[0] != "run"
    && (forall m | m in BASE :: !StartsWith(m.dst, home))
    && !StartsWith(RESOLV_CONF, home) && !StartsWith(home, ["var", "lib", "dbus"])
  }

  lemma OrdinaryIsClear(host: HostEnv, spec: Spec)
    requires DefaultRuntime(host) && OrdinaryHome(host.home)
    ensures HomeClear(host, spec)
  {
    hide BASE, NetworkMounts, RuntimeMounts, WaylandMounts, AudioMounts, BusMounts, HandlerMounts, StartsWith;
    forall m | m in Earlier(host, spec)
      ensures !StartsWith(m.dst, host.home)
    {
      if m !in BASE {
        PlaceOf(host, spec, m);
        OutsideRun(host, spec, m);
      }
    }
    forall m | m in Later(host, spec)
      ensures !StartsWith(host.home, m.dst)
    {
      PlaceOf(host, spec, m);
      OutsideRun(host, spec, m);
    }
  }

  lemma OutsideRun(host: HostEnv, spec: Spec, m: Mount)
    requires DefaultRuntime(host) && OrdinaryHome(host.home)
    requires m in NetworkMounts(spec.network) || RuntimePlace(host, m.dst) || SocketPlace(host, m.dst)
             || BusPlace(m.dst) || HandlerPlace(m.dst)
    ensures m.dst != RESOLV_CONF && m.dst != ["var", "lib", "dbus"] ==>
              !StartsWith(m.dst, host.home) && !StartsWith(host.home, m.dst)
  {
    hide BASE, StartsWith;
    InUser(host, m.dst);
    if m.dst != RESOLV_CONF && m.dst != ["var", "lib", "dbus"] {
      assert m.dst[0] == "run";
      Apart(m.dst, host.home, 0);
      Apart(host.home, m.dst, 0);
    }
  }

  /** So between plans of specs the config accepts, whose home is ordinary,
      with shares placed clear of psbox's own mounts and a compositor's socket
      of a name of its own, the script never goes wrong. */
  lemma OrdinaryPlansReload(host: HostEnv, was: Spec, now: Spec)
    requires DefaultRuntime(host) && OrdinaryHome(host.home)
    requires Checked(was) && Placed(host, was) && SocketClear(host, was)
    requires Checked(now) && Placed(host, now) && SocketClear(host, now)
    ensures var before, after := BuiltMounts(host, was), BuiltMounts(host, now);
            var moved := Moved(before, after);
            var left := DetachAll(before, Backwards(before, moved));
            left.Some? && forall p :: Visible(left.value + In(after, moved), p) == Visible(after, p)
  {
    hide *;
    OrdinaryIsClear(host, was);
    OrdinaryIsClear(host, now);
    OwnAreLayered(host, was);
    OwnAreLayered(host, now);
    BuiltPlansReload(host, was, now);
  }
}
