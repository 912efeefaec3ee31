/** A running sandbox's supervisor: device nodes it publishes into `/dev`, and
    reloads of its plan, with what of them failed. */
module Supervisor {
  import opened Wrappers
  import opened Mounts
  import opened DeviceNames
  import opened PlanDiff
  import Reload
  import ReloadPlans
  import ReloadRuns

  datatype Device = Device(key: Key, devname: string, links: seq<string>)

  /** `complete`: all links were put in place. */
  datatype Published = Published(names: seq<string>, hidden: string, classes: seq<string>, complete: bool)

  /** Why the sandbox needs a restart: a part of the plan, or a device that
      could not be removed. */
  datatype Why = PlanNeeds(reason: Reason) | Removing(name: string, key: Key)

  /** What the kernel does of a reconciliation: whether the node attaches,
      how many links are made before one fails, and whether a first and a
      second detaching succeed. */
  datatype Luck = Luck(attaches: bool, links: nat, detaches: bool, undoes: bool)

  datatype Failed = AttachFailed | LinkFailed(name: string) | DetachFailed | NotPrepared

  function Without(whys: seq<Why>, why: Why): (left: seq<Why>)
    ensures forall w :: w in left <==> w in whys && w != why
  {
    if whys == [] then []
    else if whys[0] == why then Without(whys[1..], why)
    else [whys[0]] + Without(whys[1..], why)
  }

  /** A link to `key`'s node, under one of its names. */
  predicate LeadsTo(n: string, target: string, key: Key, names: seq<string>) {
    n in names && target == LinkTarget(n, Hidden(key))
  }

  /** What tells that `key` could not be removed. */
  function Leftover(devices: map<Key, Published>, key: Key): set<Why> {
    if key in devices && devices[key].names != [] then {Removing(devices[key].names[0], key)} else {}
  }

  predicate First(names: seq<string>, n: string) {
    names != [] && names[0] == n
  }

  // What holds between any two steps.

  /** A node is attached exactly when there is a record of it. */
  ghost predicate NodesRecorded(devices: map<Key, Published>, attached: set<string>) {
    && (forall k | k in devices :: devices[k].hidden == Hidden(k) && devices[k].names != [])
    && (forall k: Key :: Hidden(k) in attached <==> k in devices)
  }

  ghost predicate LinkOwned(devices: map<Key, Published>, name: string, target: string) {
    exists k | k in devices :: name in devices[k].names && Points(name, target, k)
  }

  /** The link is psbox's own to `key`'s node, and leads there. */
  ghost predicate Points(name: string, target: string, key: Key) {
    target == LinkTarget(name, Hidden(key)) && Reaches(name, target, key)
  }

  /** Every link leads to a node that has a record. */
  ghost predicate LinksLead(devices: map<Key, Published>, links: map<string, string>) {
    forall n | n in links :: LinkOwned(devices, n, links[n])
  }

  /** The devices left half published are the ones `unapplied` tells of. */
  ghost predicate LeftoversTold(devices: map<Key, Published>, unapplied: seq<Why>) {
    forall k: Key, n: string :: Removing(n, k) in unapplied <==> k in devices && !devices[k].complete && First(devices[k].names, n)
  }

  ghost predicate Pending(unapplied: seq<Why>, pending: seq<Why>) {
    forall w | w in unapplied :: w in pending
  }

  /** Told of every leftover but perhaps `key`. */
  ghost predicate ToldBut(devices: map<Key, Published>, unapplied: seq<Why>, key: Key) {
    && (forall k: Key, n: string | k != key ::
          Removing(n, k) in unapplied <==> k in devices && !devices[k].complete && First(devices[k].names, n))
    && (forall n: string :: Removing(n, key) in unapplied ==> key in devices && First(devices[key].names, n))
  }

  class Sandbox {
    var plan: Plan
    var mounts: seq<Mount>
    var devices: map<Key, Published>
    /** The nodes attached below `/dev/.psbox`, and the links in `/dev`. */
    var attached: set<string>
    var links: map<string, string>
    var unapplied: seq<Why>
    var pending: seq<Why>
    /** Every plan so far was layered and all of it was applied, but for
        optional mounts without a source. */
    ghost var intact: bool

    ghost predicate Valid()
      reads this
    {
      && NodesRecorded(devices, attached)
      && LinksLead(devices, links)
      && LeftoversTold(devices, unapplied)
      && Pending(unapplied, pending)
      && (intact ==> Has(mounts, plan.mounts))
    }

    /** `missing`: mounts without a source. */
    constructor (plan: Plan, missing: set<Mount>)
      ensures Valid() && this.plan == plan && mounts == Out(plan.mounts, Unsourced(missing))
      ensures forall m :: m in mounts <==> m in plan.mounts && !(m in missing && (OptionalBind(m) || OptionalOverlay(m)))
      ensures devices == map[] && links == map[] && unapplied == [] && pending == []
      ensures intact <==> LayeredPlan(plan.mounts)
    {
      hide LayeredPlan, Has;
      this.plan, mounts := plan, Out(plan.mounts, Unsourced(missing));
      devices, attached, links, unapplied, pending := map[], {}, map[], [], [];
      intact := LayeredPlan(plan.mounts);
      if LayeredPlan(plan.mounts) {
        HasAtStart(plan.mounts, missing);
      }
    }

    method UnlinkIfOurs(name: string, target: string)
      modifies this`links
      ensures links == if name in old(links) && old(links)[name] == target then old(links) - {name} else old(links)
    {
      if name in links && links[name] == target {
        links := links - {name};
      }
    }

    /** Puts the link in place, replacing another, or fails. */
    method PublishLink(name: string, target: string, works: bool) returns (r: Result<(), Failed>)
      modifies this`links
      ensures r.Ok? <==> works
      ensures links == if works then old(links)[name := target] else old(links)
    {
      if !works {
        return Err(LinkFailed(name));
      }
      links := links[name := target];
      return Ok(());
    }

    /** Takes out the links to `key`'s node. */
    method Unlink(key: Key, p: Published)
      requires p.hidden == Hidden(key)
      modifies this`links
      ensures forall n :: n in links <==> n in old(links) && !LeadsTo(n, old(links)[n], key, p.names)
      ensures forall n | n in links :: links[n] == old(links)[n]
    {
      hide LinkTarget, Hidden;
      for i := 0 to |p.names|
        invariant forall n :: n in links <==>
                    n in old(links) && !(n in p.names[..i] && old(links)[n] == LinkTarget(n, Hidden(key)))
        invariant forall n | n in links :: links[n] == old(links)[n]
      {
        assert p.names[..i + 1] == p.names[..i] + [p.names[i]];
        UnlinkIfOurs(p.names[i], LinkTarget(p.names[i], p.hidden));
      }
      assert p.names[..|p.names|] == p.names;
    }

    /** Removes a published, or partly published, device. Its record stays
        until the node is detached. */
    method Unpublish(key: Key, detaches: bool) returns (r: Result<(), Failed>)
      requires NodesRecorded(devices, attached) && LinksLead(devices, links)
      requires ToldBut(devices, unapplied, key) && Pending(unapplied, pending)
      modifies this`devices, this`attached, this`links, this`unapplied, this`pending
      ensures NodesRecorded(devices, attached) && LinksLead(devices, links)
      ensures LeftoversTold(devices, unapplied) && Pending(unapplied, pending)
      ensures r.Ok? <==> detaches || key !in old(devices)
      ensures r.Ok? ==> devices == old(devices) - {key}
      ensures r.Err? ==> devices == old(devices)[key := old(devices)[key].(complete := false)]
      ensures forall n :: n in links <==>
                n in old(links) && !(key in old(devices) && LeadsTo(n, old(links)[n], key, old(devices)[key].names))
      ensures forall n | n in links :: links[n] == old(links)[n]
      ensures forall w | w !in Leftover(old(devices), key) ::
                (w in unapplied <==> w in old(unapplied)) && (w in pending <==> w in old(pending))
    {
      hide Hidden, LinkTarget, NodesRecorded, LinksLead, LeftoversTold, ToldBut, Pending, LeadsTo;
      if key !in devices {
        NothingTold(devices, unapplied, key);
        return Ok(());
      }
      Recorded(devices, attached, key);
      var p := devices[key].(complete := false);
      devices := devices[key := p];
      Unlink(key, p);
      LinksLeave(old(devices), old(links), links, key);
      var reason := Removing(p.names[0], key);
      if !detaches {
        if reason !in unapplied {
          unapplied := unapplied + [reason];
          pending := pending + [reason];
        }
        LeadMore(devices, links, key, old(devices));
        StillTold(old(devices), devices, old(unapplied), unapplied, key);
        StillRecorded(old(devices), attached, key, p);
        BothTold(old(unapplied), old(pending), unapplied, pending, reason);
        return Err(DetachFailed);
      }
      attached := attached - {p.hidden};
      devices := devices - {key};
      unapplied := Without(unapplied, reason);
      pending := Without(pending, reason);
      assert devices == old(devices) - {key};
      NodeGone(old(devices), old(attached), key);
      GoneTold(old(devices), old(unapplied), unapplied, key);
      BothTold(old(unapplied), old(pending), unapplied, pending, reason);
      return Ok(());
    }

    /** Publishes a device that has no record: its node, recorded as soon as
        it is attached, and then a link for each of its names. */
    method Publish(dev: Device, classes: seq<string>, luck: Luck) returns (r: Result<(), Failed>)
      requires Valid() && dev.key !in devices
      modifies this`devices, this`attached, this`links, this`unapplied, this`pending
      ensures Valid()
      ensures r.Ok? <==> luck.attaches && luck.links > |dev.links|
      ensures r.Ok? ==>
                && devices == old(devices)[dev.key := Published([dev.devname] + dev.links, Hidden(dev.key), classes, true)]
                && forall n | n == dev.devname || n in dev.links ::
                     n in links && links[n] == LinkTarget(n, Hidden(dev.key)) && Reaches(n, links[n], dev.key)
      ensures r.Err? ==> devices - {dev.key} == old(devices)
      ensures forall n | n != dev.devname && n !in dev.links ::
                (n in links <==> n in old(links)) && (n in links ==> links[n] == old(links)[n])
      ensures r.Err? && dev.key in devices ==> !devices[dev.key].complete
      ensures r.Err? ==> (dev.key in devices <==> luck.attaches && !luck.undoes)
    {
      hide Hidden, LinkTarget, Reaches, NodesRecorded, LinksLead, LeftoversTold, Pending, Has, ToldBut;
      if !luck.attaches {
        NotThere(devices, dev.key);
        return Err(AttachFailed);
      }
      var p := Published(Names(dev), Hidden(dev.key), classes, false);
      attached := attached + {p.hidden};
      devices := devices[dev.key := p];
      NodeAdded(old(devices), old(attached), dev.key, p);
      LeadToo(old(devices), links, dev.key, p);
      var linked := LinkAll(dev.key, p, luck.links);
      if linked.Err? {
        ToldOfOthers(old(devices), unapplied, dev.key, p);
        var _ := Unpublish(dev.key, luck.undoes);
        assert devices - {dev.key} == old(devices);
        return linked;
      }
      Completed(old(devices), devices, attached, links, unapplied, dev.key);
      forall n | n in Names(dev)
        ensures Reaches(n, links[n], dev.key)
      {
        LinkReaches(n, dev.key);
      }
      devices := devices[dev.key := p.(complete := true)];
      return Ok(());
    }

    /** Links every name to the node, up to the first that fails. */
    method LinkAll(key: Key, p: Published, works: nat) returns (r: Result<(), Failed>)
      requires key in devices && devices[key] == p && p.hidden == Hidden(key) && LinksLead(devices, links)
      modifies this`links
      ensures LinksLead(devices, links)
      ensures r.Ok? <==> works >= |p.names|
      ensures r.Ok? ==> forall n | n in p.names :: n in links && links[n] == LinkTarget(n, Hidden(key))
      ensures forall n | n !in p.names :: (n in links <==> n in old(links)) && (n in links ==> links[n] == old(links)[n])
    {
      hide Hidden, LinkTarget, LinksLead;
      for i := 0 to |p.names|
        invariant i <= works && LinksLead(devices, links)
        invariant forall n | n in p.names[..i] :: n in links && links[n] == LinkTarget(n, p.hidden)
        invariant forall n | n !in p.names :: (n in links <==> n in old(links)) && (n in links ==> links[n] == old(links)[n])
      {
        OneMoreLead(devices, links, key, p.names[i]);
        assert p.names[..i + 1] == p.names[..i] + [p.names[i]];
        var _ :- PublishLink(p.names[i], LinkTarget(p.names[i], p.hidden), i != works);
      }
      assert p.names[..|p.names|] == p.names;
      return Ok(());
    }

    /** Makes `/dev` match the host for one device: published when it is there
        and of some class the plan has. */
    method Reconcile(key: Key, dev: Option<Device>, classes: seq<string>, luck: Luck) returns (r: Result<(), Failed>)
      requires Valid() && (dev.Some? ==> dev.value.key == key) && (dev.None? ==> classes == [])
      modifies this`devices, this`attached, this`links, this`unapplied, this`pending
      ensures Valid() && devices - {key} == old(devices) - {key}
      ensures r.Ok? ==> (key in devices <==> classes != []) && (key in devices ==> devices[key].complete)
      ensures r.Ok? && classes != [] ==>
                devices[key] == if key in old(devices) && old(devices)[key].complete then old(devices)[key]
                                else Published([dev.value.devname] + dev.value.links, Hidden(key), classes, true)
      ensures r.Err? && key in devices ==> !devices[key].complete
      ensures luck.attaches && luck.detaches && (dev.Some? ==> luck.links > |dev.value.links|) ==> r.Ok?
    {
      hide Hidden, LinkTarget, NodesRecorded, LinksLead, LeftoversTold, Pending, Has, ToldBut;
      if key in devices && !devices[key].complete {
        ToldOfAll(devices, unapplied, key);
        var _ :- Unpublish(key, luck.detaches);
      }
      if classes != [] && key !in devices {
        NotThere(devices, key);
        r := Publish(dev.value, classes, luck);
      } else if classes == [] && key in devices {
        ToldOfAll(devices, unapplied, key);
        r := Unpublish(key, luck.detaches);
      } else {
        r := Ok(());
      }
    }

    /** Applies a new plan: live when that can be done, and else as reasons to
        restart. `ready`: every mount could be prepared, those in `missing`
        but for their source; `detaches` and `attaches`: what the kernel
        does. */
    method Apply(now: Plan, ready: bool, missing: set<Mount>, detaches: seq<bool>, attaches: seq<bool>)
      returns (r: Result<(), Failed>)
      requires Valid()
      modifies this`plan, this`mounts, this`unapplied, this`pending, this`intact
      ensures Valid()
      ensures Stays(old(plan), now) ==>
                && plan == old(plan) && mounts == old(mounts) && unapplied == old(unapplied) && r.Ok?
                && (exists why :: PlanNeeds(why) in pending && Needs(old(plan), now, why))
                && |pending| >= |unapplied| && pending[|pending| - |unapplied|..] == unapplied
                && forall w :: w in pending[..|pending| - |unapplied|] <==>
                     w.PlanNeeds? && Needs(old(plan), now, w.reason)
                     && !(w.reason.MountAt? && Reported(old(plan), now, w.reason.dst))
      ensures !Stays(old(plan), now) && !ready ==>
                && plan == old(plan) && mounts == old(mounts) && unapplied == old(unapplied) && pending == old(pending)
                && r == Err(NotPrepared)
      ensures !Stays(old(plan), now) && ready ==>
                && plan == now && pending == unapplied && r.Ok?
                && unapplied == old(unapplied) + Failures(old(mounts), old(plan), now, missing, detaches, attaches)
                && (unapplied == old(unapplied) ==> Some(mounts) == Applied(old(mounts), old(plan), now, missing))
      ensures old(intact) && ready && !Stays(old(plan), now) && Works(detaches) && Works(attaches) && LayeredPlan(now.mounts) ==>
                && intact && unapplied == old(unapplied)
                && (forall m :: m in mounts <==> Stands(old(mounts), old(plan), now, missing, m))
                && forall p :: Visible(mounts, p) == Visible(Out(now.mounts, ReloadRuns.Absent(mounts, now.mounts)), p)
    {
      hide NodesRecorded, LinksLead, LeftoversTold, Pending, Has, Needs, LayeredPlan, Out, Moved, LiveMount;
      hide Visible, Stays, Works, Applied, Reasons, Failures, Stands, Reported;
      var change := Diff(plan, now);
      StaysOrNot(plan, now, change);
      if change.restart != [] {
        pending := Reasons(change.restart) + unapplied;
        AllPending(plan, now, change.restart, unapplied);
        ReasonsAre(change.restart, unapplied);
        return Ok(());
      }
      if !ready {
        return Err(NotPrepared);
      }
      AllLive(plan, now);
      var failed := Move(now, change, missing, detaches, attaches);
      intact := intact && failed == [] && LayeredPlan(now.mounts);
      plan := now;
      MoreTold(devices, unapplied, failed);
      unapplied := unapplied + failed;
      pending := unapplied;
      AllOfThem(unapplied);
      if intact {
        ShowsPlan(mounts, now.mounts);
      }
      return Ok(());
    }

    /** Detaches and attaches what a change of plan takes, and gives what of
        that failed. */
    method Move(now: Plan, change: Change, missing: set<Mount>, detaches: seq<bool>, attaches: seq<bool>)
      returns (failed: seq<Why>)
      requires change.detach == Backwards(plan.mounts, Moved(plan.mounts, now.mounts))
      requires change.attach == In(now.mounts, Moved(plan.mounts, now.mounts))
      modifies this`mounts
      ensures failed == Failures(old(mounts), plan, now, missing, detaches, attaches)
      ensures forall w | w in failed :: w.PlanNeeds?
      ensures failed == [] ==> Some(mounts) == Applied(old(mounts), plan, now, missing)
      ensures Has(old(mounts), plan.mounts) && LayeredPlan(now.mounts)
              && (forall m | m in Moved(plan.mounts, now.mounts) :: LiveMount(m)) ==>
                && (failed == [] ==> Has(mounts, now.mounts))
                && (failed == [] ==> forall m :: m in mounts <==> Stands(old(mounts), plan, now, missing, m))
                && (Works(detaches) && Works(attaches) ==> failed == [])
    {
      hide Has, LayeredPlan, Moved, Works, AfterDetach, Undetached, Unattached, StackAt, Attached, Stands, LiveMount;
      ghost var before := mounts;
      var undetached := DetachMounts(change.detach, detaches);
      var unattached := AttachMounts(change.attach, missing, attaches);
      if Has(before, plan.mounts) && LayeredPlan(now.mounts)
         && forall m | m in Moved(plan.mounts, now.mounts) :: LiveMount(m) {
        StillHas(before, plan, now, missing);
      }
      failed := undetached + unattached;
      UndetachedArePlan(before, change.detach, detaches, |change.detach|);
      UnattachedArePlan(change.attach, missing, attaches, |change.attach|);
    }

    /** Detaches each mount; one that was never attached, for want of its
        source, need not be. */
    method DetachMounts(ms: seq<Mount>, works: seq<bool>) returns (failed: seq<Why>)
      modifies this`mounts
      ensures mounts == StackAt(old(mounts), ms, works, |ms|)
      ensures failed == Undetached(old(mounts), ms, works, |ms|)
      ensures failed == [] ==> AfterDetach(old(mounts), ms) == Some(mounts)
      ensures Works(works) && AfterDetach(old(mounts), ms).Some? ==> failed == []
    {
      hide Detach, Optional;
      failed := [];
      assert ms[0..] == ms;
      for i := 0 to |ms|
        invariant mounts == StackAt(old(mounts), ms, works, i)
        invariant failed == Undetached(old(mounts), ms, works, i)
        invariant failed == [] ==> AfterDetach(mounts, ms[i..]) == AfterDetach(old(mounts), ms)
        invariant Works(works) && AfterDetach(old(mounts), ms).Some? ==> failed == []
      {
        assert ms[i..][0] == ms[i] && ms[i..][1..] == ms[i + 1..];
        var left := if Goes(works, i) then Detach(mounts, ms[i].dst) else None;
        if left.Some? {
          mounts := left.value;
        } else if !(Optional(ms[i]) && Goes(works, i)) {
          failed := failed + [Told(ms[i])];
        }
      }
    }

    /** Attaches each mount but optional ones without a source. */
    method AttachMounts(ms: seq<Mount>, missing: set<Mount>, works: seq<bool>) returns (failed: seq<Why>)
      modifies this`mounts
      ensures mounts == old(mounts) + Attached(ms, missing, works, |ms|)
      ensures failed == Unattached(ms, missing, works, |ms|)
      ensures failed == [] ==> mounts == old(mounts) + Out(ms, Skipped(missing))
      ensures Works(works) ==> failed == []
    {
      hide Optional, Out, Skipped;
      NoneOut(ms, Skipped(missing));
      assert old(mounts) + [] == old(mounts);
      failed := [];
      for i := 0 to |ms|
        invariant mounts == old(mounts) + Attached(ms, missing, works, i)
        invariant failed == Unattached(ms, missing, works, i)
        invariant failed == [] ==> Attached(ms, missing, works, i) == Out(ms[..i], Skipped(missing))
        invariant Works(works) ==> failed == []
      {
        OutNext(ms, i, missing);
        Regroup(old(mounts), Attached(ms, missing, works, i), ms[i]);
        if ms[i] in missing && Optional(ms[i]) {
          continue;
        }
        if Goes(works, i) {
          mounts := mounts + [ms[i]];
        } else {
          failed := failed + [Told(ms[i])];
        }
      }
      assert ms[..|ms|] == ms;
    }
  }

  /** What the kernel does of the `i`th detaching or attaching. */
  predicate Goes(works: seq<bool>, i: nat) {
    i >= |works| || works[i]
  }

  function Told(m: Mount): Why {
    PlanNeeds(MountAt(m.dst))
  }

  /** The mounts once the first `i` of `ms` were to be detached. */
  function StackAt(s: seq<Mount>, ms: seq<Mount>, works: seq<bool>, i: nat): seq<Mount>
    requires i <= |ms|
  {
    if i == 0 then s
    else
      var t := StackAt(s, ms, works, i - 1);
      if Goes(works, i - 1) then Detach(t, ms[i - 1].dst).GetOr(t) else t
  }

  /** The `i`th of `ms` fails to be detached: the kernel refuses, or nothing
      is mounted there that should be. */
  predicate DetachFails(s: seq<Mount>, ms: seq<Mount>, works: seq<bool>, i: nat)
    requires i < |ms|
  {
    !Goes(works, i) || (Detach(StackAt(s, ms, works, i), ms[i].dst).None? && !Optional(ms[i]))
  }

  /** What tells of those of the first `n` that fail. */
  function Undetached(s: seq<Mount>, ms: seq<Mount>, works: seq<bool>, n: nat): seq<Why>
    requires n <= |ms|
  {
    if n == 0 then []
    else Undetached(s, ms, works, n - 1) + if DetachFails(s, ms, works, n - 1) then [Told(ms[n - 1])] else []
  }

  /** What is attached of the first `i` of `ms`. */
  function Attached(ms: seq<Mount>, missing: set<Mount>, works: seq<bool>, i: nat): seq<Mount>
    requires i <= |ms|
  {
    if i == 0 then []
    else
      Attached(ms, missing, works, i - 1)
      + if (ms[i - 1] in missing && Optional(ms[i - 1])) || !Goes(works, i - 1) then [] else [ms[i - 1]]
  }

  /** What tells of those of the first `n` that could not be. */
  function Unattached(ms: seq<Mount>, missing: set<Mount>, works: seq<bool>, n: nat): seq<Why>
    requires n <= |ms|
  {
    if n == 0 then []
    else
      Unattached(ms, missing, works, n - 1)
      + if (ms[n - 1] in missing && Optional(ms[n - 1])) || Goes(works, n - 1) then [] else [Told(ms[n - 1])]
  }

  lemma NoneOut(ms: seq<Mount>, of: set<Mount>)
    ensures Out(ms[..0], of) == []
  {
  }

  lemma Regroup(s: seq<Mount>, t: seq<Mount>, m: Mount)
    ensures s + (t + [m]) == s + t + [m] && t + [] == t
  {
  }

  /** What tells of a change of plan: the mounts that could not be detached,
      and those that could not be attached, in order. */
  function Failures(s: seq<Mount>, was: Plan, now: Plan, missing: set<Mount>, detaches: seq<bool>, attaches: seq<bool>): seq<Why> {
    var moved := Moved(was.mounts, now.mounts);
    var detach, attach := Backwards(was.mounts, moved), In(now.mounts, moved);
    Undetached(s, detach, detaches, |detach|) + Unattached(attach, missing, attaches, |attach|)
  }

  lemma {:induction false} UndetachedArePlan(s: seq<Mount>, ms: seq<Mount>, works: seq<bool>, n: nat)
    requires n <= |ms|
    ensures forall w | w in Undetached(s, ms, works, n) :: w.PlanNeeds?
  {
    hide DetachFails;
    if n > 0 {
      UndetachedArePlan(s, ms, works, n - 1);
    }
  }

  lemma {:induction false} UnattachedArePlan(ms: seq<Mount>, missing: set<Mount>, works: seq<bool>, n: nat)
    requires n <= |ms|
    ensures forall w | w in Unattached(ms, missing, works, n) :: w.PlanNeeds?
  {
    hide Optional, Goes;
    if n > 0 {
      UnattachedArePlan(ms, missing, works, n - 1);
    }
  }

  predicate Optional(m: Mount) {
    m.Bind? && m.optional
  }

  function Skipped(missing: set<Mount>): set<Mount> {
    set m | m in missing && Optional(m)
  }

  ghost predicate LayeredPlan(mounts: seq<Mount>) {
    Mounts.Distinct(mounts) && ReloadPlans.Layered(mounts)
  }

  predicate Works(works: seq<bool>) {
    forall i | 0 <= i < |works| :: works[i]
  }

  ghost predicate Stays(was: Plan, now: Plan) {
    exists why :: Needs(was, now, why)
  }

  function Reasons(restart: seq<Reason>): (whys: seq<Why>)
    ensures |whys| == |restart| && forall i | 0 <= i < |restart| :: whys[i] == PlanNeeds(restart[i])
  {
    seq(|restart|, i requires 0 <= i < |restart| => PlanNeeds(restart[i]))
  }

  /** Detaches each in turn, but for optional binds that are not attached. */
  function AfterDetach(s: seq<Mount>, ms: seq<Mount>): Option<seq<Mount>>
    decreases |ms|
  {
    if ms == [] then Some(s)
    else
      match Detach(s, ms[0].dst)
      case Some(left) => AfterDetach(left, ms[1..])
      case None => if Optional(ms[0]) then AfterDetach(s, ms[1..]) else None
  }

  /** The mounts a sandbox has once a change of plan is wholly applied. */
  function Applied(s: seq<Mount>, was: Plan, now: Plan, missing: set<Mount>): Option<seq<Mount>> {
    var moved := Moved(was.mounts, now.mounts);
    match AfterDetach(s, Backwards(was.mounts, moved))
    case Some(left) => Some(left + Out(In(now.mounts, moved), Skipped(missing)))
    case None => None
  }

  lemma StaysOrNot(was: Plan, now: Plan, c: Change)
    requires c.restart == [] <==> forall r :: !Needs(was, now, r)
    ensures c.restart != [] <==> Stays(was, now)
  {
    hide Needs;
  }

  lemma AllPending(was: Plan, now: Plan, restart: seq<Reason>, unapplied: seq<Why>)
    requires restart != [] && forall r | r in restart :: Needs(was, now, r)
    ensures Pending(unapplied, Reasons(restart) + unapplied)
    ensures exists why :: PlanNeeds(why) in Reasons(restart) + unapplied && Needs(was, now, why)
  {
    hide Needs;
    assert restart[0] in restart && Reasons(restart)[0] in Reasons(restart) + unapplied;
  }

  lemma ReasonsAre(restart: seq<Reason>, unapplied: seq<Why>)
    ensures var pending := Reasons(restart) + unapplied;
            && pending[|pending| - |unapplied|..] == unapplied
            && forall w :: w in pending[..|pending| - |unapplied|] <==> w.PlanNeeds? && w.reason in restart
  {
    var pending := Reasons(restart) + unapplied;
    assert pending[..|pending| - |unapplied|] == Reasons(restart);
    forall r | r in restart
      ensures PlanNeeds(r) in Reasons(restart)
    {
      var i :| 0 <= i < |restart| && restart[i] == r;
      assert Reasons(restart)[i] == PlanNeeds(r);
    }
  }

  lemma AllOfThem(unapplied: seq<Why>)
    ensures Pending(unapplied, unapplied)
  {
  }

  lemma MoreTold(devices: map<Key, Published>, unapplied: seq<Why>, failed: seq<Why>)
    requires LeftoversTold(devices, unapplied) && forall w | w in failed :: w.PlanNeeds?
    ensures LeftoversTold(devices, unapplied + failed)
  {
  }

  lemma OutNext(ms: seq<Mount>, i: nat, missing: set<Mount>)
    requires i < |ms|
    ensures Out(ms[..i + 1], Skipped(missing)) ==
            if ms[i] in missing && Optional(ms[i]) then Out(ms[..i], Skipped(missing))
            else Out(ms[..i], Skipped(missing)) + [ms[i]]
  {
    assert ms[..i + 1][..i] == ms[..i];
    assert Out(ms[..i], Skipped(missing)) + [] == Out(ms[..i], Skipped(missing));
  }

  /** What the script leaves of a sandbox's mounts: those of the new plan, but
      optional ones without a source, and among the ones it does not move
      those that were there. */
  predicate Stands(s: seq<Mount>, was: Plan, now: Plan, missing: set<Mount>, m: Mount) {
    m in now.mounts && if m in Moved(was.mounts, now.mounts) then m !in Skipped(missing) else m in s
  }

  /** A mount that a sandbox can start without, for want of a source. */
  predicate MayLack(m: Mount) {
    (m.Bind? || m.Overlay?) && m.optional
  }

  function Unsourced(missing: set<Mount>): set<Mount> {
    set m | m in missing && MayLack(m)
  }

  /** The sandbox has its plan's mounts, none over an earlier one, but perhaps
      optional ones. */
  ghost predicate Has(mounts: seq<Mount>, plan: seq<Mount>) {
    ReloadRuns.Follows(mounts, plan) && forall m | m in plan && m !in mounts :: MayLack(m)
  }

  lemma HasAtStart(plan: seq<Mount>, missing: set<Mount>)
    requires LayeredPlan(plan)
    ensures Has(Out(plan, Unsourced(missing)), plan)
  {
    hide Mounts.Distinct, ReloadPlans.Layered;
    ReloadRuns.OutLayered(plan, Unsourced(missing));
  }

  lemma ShowsPlan(s: seq<Mount>, plan: seq<Mount>)
    requires Has(s, plan)
    ensures forall p :: Visible(s, p) == Visible(Out(plan, ReloadRuns.Absent(s, plan)), p)
  {
    hide ReloadRuns.Tracks, ReloadRuns.Follows, Visible;
    ReloadRuns.FollowsTracks(s, plan);
    forall p
      ensures Visible(s, p) == Visible(Out(plan, ReloadRuns.Absent(s, plan)), p)
    {
      ReloadRuns.TracksShows(s, Out(plan, ReloadRuns.Absent(s, plan)), p);
    }
  }

  /** Between layered plans every detach of a mount that is there succeeds,
      and every other is skipped. */
  lemma StillHas(s: seq<Mount>, was: Plan, now: Plan, missing: set<Mount>)
    requires Has(s, was.mounts) && LayeredPlan(now.mounts)
    requires forall m | m in Moved(was.mounts, now.mounts) :: LiveMount(m)
    ensures var moved := Moved(was.mounts, now.mounts);
            var result := Out(s, moved) + Out(In(now.mounts, moved), Skipped(missing));
            && AfterDetach(s, Backwards(was.mounts, moved)) == Some(Out(s, moved))
            && Has(result, now.mounts)
            && forall m :: m in result <==> Stands(s, was, now, missing, m)
  {
    hide ReloadRuns.Follows, Mounts.Distinct, ReloadPlans.Layered, Moved, AfterDetach, DetachAll, Backwards;
    var moved, absent := Moved(was.mounts, now.mounts), ReloadRuns.Absent(s, was.mounts);
    ReloadRuns.ReloadFollows(s, was.mounts, now.mounts, Skipped(missing));
    NoneAt(s, was.mounts);
    SkipsAbsent(s, was.mounts, moved, absent);
    OfMoved(was.mounts, now.mounts);
  }

  /** Nothing is at the place of a mount that the sandbox lacks. */
  lemma NoneAt(s: seq<Mount>, plan: seq<Mount>)
    requires ReloadRuns.Follows(s, plan)
    ensures forall m, k | m in ReloadRuns.Absent(s, plan) && k in s :: k.dst != m.dst
  {
    hide Mounts.Distinct, Before;
    forall m, k | m in ReloadRuns.Absent(s, plan) && k in s
      ensures k.dst != m.dst
    {
      Reload.OneFirst(plan, m, k);
      Reload.ItsOwn(m);
      Reload.ItsOwn(k);
    }
  }

  lemma {:induction false} SkipsAbsent(s: seq<Mount>, ms: seq<Mount>, moved: set<Mount>, absent: set<Mount>)
    requires forall m, k | m in absent && k in s :: k.dst != m.dst
    requires forall m | m in ms && m in moved && m in absent :: Optional(m)
    requires DetachAll(s, Backwards(Out(ms, absent), moved)).Some?
    ensures AfterDetach(s, Backwards(ms, moved)) == DetachAll(s, Backwards(Out(ms, absent), moved))
    decreases |ms|
  {
    if ms != [] {
      hide Detach, Optional;
      var before, l := ms[..|ms| - 1], ms[|ms| - 1];
      var rest := Out(before, absent);
      assert rest + [] == rest && (rest + [l])[..|rest|] == rest;
      assert [] + Backwards(rest, moved) == Backwards(rest, moved);
      assert [] + Backwards(before, moved) == Backwards(before, moved);
      assert ([l] + Backwards(rest, moved))[1..] == Backwards(rest, moved);
      assert ([l] + Backwards(before, moved))[1..] == Backwards(before, moved);
      if l !in moved {
        SkipsAbsent(s, before, moved, absent);
      } else if l in absent {
        NoneThere(s, l.dst);
        SkipsAbsent(s, before, moved, absent);
      } else {
        OnlyLess(s, l.dst);
        SkipsAbsent(Detach(s, l.dst).value, before, moved, absent);
      }
    }
  }

  lemma NoneThere(s: seq<Mount>, p: Path)
    requires forall k | k in s :: k.dst != p
    ensures Detach(s, p).None?
  {
  }

  lemma OnlyLess(s: seq<Mount>, p: Path)
    ensures var left := Detach(s, p); left.Some? ==> forall k | k in left.value :: k in s
  {
  }

  function Names(dev: Device): seq<string> {
    [dev.devname] + dev.links
  }

  lemma NotThere(devices: map<Key, Published>, key: Key)
    requires key !in devices
    ensures devices - {key} == devices
  {
  }

  lemma NodeAdded(devices: map<Key, Published>, attached: set<string>, key: Key, p: Published)
    requires NodesRecorded(devices, attached) && p.hidden == Hidden(key) && p.names != []
    ensures NodesRecorded(devices[key := p], attached + {Hidden(key)})
  {
    hide Hidden;
    forall k: Key
      ensures Hidden(k) in attached + {Hidden(key)} <==> k in devices[key := p]
    {
      if Hidden(k) == Hidden(key) {
        HiddenDiffer(k, key);
      }
    }
  }

  lemma LeadToo(devices: map<Key, Published>, links: map<string, string>, key: Key, p: Published)
    requires LinksLead(devices, links) && key !in devices
    ensures LinksLead(devices[key := p], links)
  {
    hide LinkTarget, Hidden, Reaches;
    forall n | n in links
      ensures LinkOwned(devices[key := p], n, links[n])
    {
      var k :| k in devices && n in devices[k].names && Points(n, links[n], k);
      assert n in devices[key := p][k].names;
    }
  }

  lemma OneMoreLead(devices: map<Key, Published>, links: map<string, string>, key: Key, name: string)
    requires LinksLead(devices, links) && key in devices && name in devices[key].names
    ensures LinksLead(devices, links[name := LinkTarget(name, Hidden(key))])
  {
    hide LinkTarget, Hidden, Reaches;
    LinkReaches(name, key);
  }

  lemma ToldOfOthers(devices: map<Key, Published>, unapplied: seq<Why>, key: Key, p: Published)
    requires LeftoversTold(devices, unapplied) && key !in devices
    ensures ToldBut(devices[key := p], unapplied, key)
  {
  }

  lemma ToldOfAll(devices: map<Key, Published>, unapplied: seq<Why>, key: Key)
    requires LeftoversTold(devices, unapplied)
    ensures ToldBut(devices, unapplied, key)
  {
  }

  lemma Completed(was: map<Key, Published>, devices: map<Key, Published>, attached: set<string>,
                  links: map<string, string>, unapplied: seq<Why>, key: Key)
    requires NodesRecorded(devices, attached) && LinksLead(devices, links) && LeftoversTold(was, unapplied)
    requires key !in was && key in devices && devices == was[key := devices[key]]
    ensures var done := devices[key := devices[key].(complete := true)];
            NodesRecorded(done, attached) && LinksLead(done, links) && LeftoversTold(done, unapplied)
  {
    hide Hidden, LinkTarget, Reaches;
    var done := devices[key := devices[key].(complete := true)];
    forall n | n in links
      ensures LinkOwned(done, n, links[n])
    {
      var k :| k in devices && n in devices[k].names && Points(n, links[n], k);
      assert n in done[k].names;
    }
  }

  lemma NothingTold(devices: map<Key, Published>, unapplied: seq<Why>, key: Key)
    requires ToldBut(devices, unapplied, key) && key !in devices
    ensures LeftoversTold(devices, unapplied)
  {
  }

  lemma Recorded(devices: map<Key, Published>, attached: set<string>, key: Key)
    requires NodesRecorded(devices, attached) && key in devices
    ensures devices[key].hidden == Hidden(key) && devices[key].names != []
  {
  }

  /** What becomes of one reason in `unapplied` becomes of it in `pending`. */
  lemma BothTold(before: seq<Why>, pendingBefore: seq<Why>, unapplied: seq<Why>, pending: seq<Why>, reason: Why)
    requires Pending(before, pendingBefore)
    requires forall w | w != reason :: (w in unapplied <==> w in before) && (w in pending <==> w in pendingBefore)
    requires reason in unapplied ==> reason in pending || (reason in before && pending == pendingBefore)
    ensures Pending(unapplied, pending)
  {
  }

  lemma StillRecorded(devices: map<Key, Published>, attached: set<string>, key: Key, p: Published)
    requires NodesRecorded(devices, attached) && key in devices
    requires p.hidden == devices[key].hidden && p.names == devices[key].names
    ensures NodesRecorded(devices[key := p], attached)
  {
    hide Hidden;
  }

  /** The links left once those to `key` are gone lead to others. */
  lemma LinksLeave(devices: map<Key, Published>, was: map<string, string>, links: map<string, string>, key: Key)
    requires LinksLead(devices, was) && key in devices
    requires forall n :: n in links <==> n in was && !LeadsTo(n, was[n], key, devices[key].names)
    requires forall n | n in links :: links[n] == was[n]
    ensures LinksLead(devices - {key}, links)
  {
    hide LinkTarget, Hidden, Reaches;
    forall n | n in links
      ensures LinkOwned(devices - {key}, n, links[n])
    {
      var k :| k in devices && n in devices[k].names && Points(n, was[n], k);
      assert k in devices - {key};
    }
  }

  lemma LeadMore(devices: map<Key, Published>, links: map<string, string>, key: Key, was: map<Key, Published>)
    requires LinksLead(was - {key}, links) && devices - {key} == was - {key}
    ensures LinksLead(devices, links)
  {
    hide LinkTarget, Hidden, Reaches;
    forall n | n in links
      ensures LinkOwned(devices, n, links[n])
    {
      var k :| k in devices - {key} && n in (devices - {key})[k].names && Points(n, links[n], k);
      assert n in devices[k].names;
    }
  }

  lemma NodeGone(devices: map<Key, Published>, attached: set<string>, key: Key)
    requires NodesRecorded(devices, attached) && key in devices
    ensures NodesRecorded(devices - {key}, attached - {Hidden(key)})
  {
    hide Hidden;
    forall k: Key
      ensures Hidden(k) in attached - {Hidden(key)} <==> k in devices - {key}
    {
      if Hidden(k) == Hidden(key) {
        HiddenDiffer(k, key);
      }
    }
  }

  lemma StillTold(was: map<Key, Published>, devices: map<Key, Published>, before: seq<Why>, unapplied: seq<Why>, key: Key)
    requires key in was && was[key].names != [] && ToldBut(was, before, key)
    requires devices == was[key := was[key].(complete := false)]
    requires forall w :: w in unapplied <==> w in before || w == Removing(was[key].names[0], key)
    ensures LeftoversTold(devices, unapplied)
  {
  }

  lemma GoneTold(was: map<Key, Published>, before: seq<Why>, unapplied: seq<Why>, key: Key)
    requires key in was && was[key].names != [] && ToldBut(was, before, key)
    requires forall w :: w in unapplied <==> w in before && w != Removing(was[key].names[0], key)
    ensures LeftoversTold(was - {key}, unapplied)
  {
  }

  // What is told of, and what is not.

  /** An overlay that may lack its source. */
  predicate OptionalOverlay(m: Mount) {
    match m
    case Overlay(_, _, optional) => optional
    case _ => false
  }

  /** A bind that may lack its source. */
  predicate OptionalBind(m: Mount) {
    match m
    case Bind(_, _, _, optional) => optional
    case _ => false
  }

  /** The kernel refuses the `i`th detach, or nothing is mounted just there,
      save for a bind that may lack its source. */
  ghost predicate NotDetached(s: seq<Mount>, ms: seq<Mount>, works: seq<bool>, i: nat) {
    && i < |ms|
    && ((i < |works| && !works[i])
        || (!OptionalBind(ms[i])
            && forall k: nat :: LastAt(StackAt(s, ms, works, i), ms[i].dst, k) ==>
                 StackAt(s, ms, works, i)[k].dst != ms[i].dst))
  }

  lemma FailsExactly(s: seq<Mount>, ms: seq<Mount>, works: seq<bool>, i: nat)
    requires i < |ms|
    ensures DetachFails(s, ms, works, i) <==> NotDetached(s, ms, works, i)
  {
    hide StackAt, Detach, LastAt;
    DetachExactly(StackAt(s, ms, works, i), ms[i].dst);
  }

  /** Exactly the detaches that fail so are told of, by their places. */
  lemma {:induction false} DetachesTold(s: seq<Mount>, ms: seq<Mount>, works: seq<bool>, n: nat, w: Why)
    requires n <= |ms|
    ensures w in Undetached(s, ms, works, n) <==>
            exists i | 0 <= i < n :: w == PlanNeeds(MountAt(ms[i].dst)) && NotDetached(s, ms, works, i)
  {
    hide NotDetached, DetachFails;
    if n > 0 {
      DetachesTold(s, ms, works, n - 1, w);
      FailsExactly(s, ms, works, n - 1);
    }
  }

  /** An attach is told of exactly when the kernel refuses one it is asked
      for: a bind that may lack its source, and does, is not. */
  lemma {:induction false} AttachesTold(ms: seq<Mount>, missing: set<Mount>, works: seq<bool>, n: nat, w: Why)
    requires n <= |ms|
    ensures w in Unattached(ms, missing, works, n) <==>
            exists i | 0 <= i < n ::
              && w == PlanNeeds(MountAt(ms[i].dst)) && i < |works| && !works[i]
              && !(ms[i] in missing && OptionalBind(ms[i]))
    ensures forall m :: m in Attached(ms, missing, works, n) <==>
              exists i | 0 <= i < n ::
                ms[i] == m && (i >= |works| || works[i]) && !(m in missing && OptionalBind(m))
  {
    if n > 0 {
      AttachesTold(ms, missing, works, n - 1, w);
    }
  }
}
