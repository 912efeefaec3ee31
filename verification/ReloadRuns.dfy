/** One reload after another: the mounts a sandbox has need not be in its
    plan's order. */
module ReloadRuns {
  import opened Wrappers
  import opened Mounts
  import opened Reload
  import opened PlanDiff
  import opened ReloadPlans

  /** The sandbox has the mounts of its plan, none over an earlier one. */
  ghost predicate Tracks(stack: seq<Mount>, plan: seq<Mount>) {
    && Distinct(stack) && Distinct(plan) && Layered(stack) && Layered(plan)
    && (forall m :: m in stack <==> m in plan)
  }

  /** In a layered list the deepest mount on the way shows. */
  lemma DeepestShows(s: seq<Mount>, p: Path, m: Mount)
    requires Distinct(s) && Layered(s)
    ensures Visible(s, p) == Some(m) <==>
            m in s && StartsWith(p, m.dst) && forall x | x in s && StartsWith(p, x.dst) && x != m :: |x.dst| < |m.dst|
  {
    hide Visible, Distinct, Before, StartsWith;
    LastOf(s, p, m);
    forall x | m in s && StartsWith(p, m.dst) && x in s && StartsWith(p, x.dst) && x != m
      ensures Before(s, m, x) <==> |m.dst| <= |x.dst|
    {
      OneFirst(s, m, x);
      if |m.dst| <= |x.dst| {
        Nested(p, m.dst, x.dst);
      } else {
        Nested(p, x.dst, m.dst);
      }
      if Before(s, m, x) {
        NoLonger(m.dst, x.dst);
      }
    }
    if Before(s, m, m) {
      NotItself(s, m, m);
    }
  }

  lemma NoLonger(d: Path, e: Path)
    ensures |d| == |e| && StartsWith(d, e) ==> StartsWith(e, d)
  {
  }

  /** A sandbox that tracks its plan shows what the plan attached afresh
      would. */
  lemma TracksShows(stack: seq<Mount>, plan: seq<Mount>, p: Path)
    requires Tracks(stack, plan)
    ensures Visible(stack, p) == Visible(plan, p)
  {
    hide Visible, Distinct, Layered, StartsWith;
    var a, b := Visible(stack, p), Visible(plan, p);
    if a.Some? {
      DeepestShows(stack, p, a.value);
      DeepestShows(plan, p, a.value);
    }
    if b.Some? {
      DeepestShows(stack, p, b.value);
      DeepestShows(plan, p, b.value);
    }
  }

  /** The mounts of `moved` in `s` go, whatever order the stack has them
      in. */
  lemma {:induction false} DetachesInPlanOrder(stack: seq<Mount>, s: seq<Mount>, plan: seq<Mount>, moved: set<Mount>, gone: set<Mount>)
    requires Tracks(stack, plan) && TakesBeneath(plan, moved)
    requires s <= plan && gone <= moved
    requires forall m | m in plan && m in moved :: m in s <==> m !in gone
    ensures DetachAll(Out(stack, gone), Backwards(s, moved)) == Some(Out(stack, moved))
  {
    hide *;
    if s == [] {
      NoneLeft(stack, plan, moved, gone);
    } else {
      var n := |s| - 1;
      var before, l := s[..n], s[n];
      assert s == before + [l];
      Snoc(before, l, [], moved);
      PlanDistinct(stack, plan);
      InPlan(before, l, plan);
      if l in moved {
        DetachesLast(stack, before, l, plan, moved, gone);
        DetachFirst(Out(stack, gone), l, Backwards(before, moved));
        DetachesInPlanOrder(stack, before, plan, moved, gone + {l});
      } else {
        DetachesInPlanOrder(stack, before, plan, moved, gone);
      }
    }
  }

  lemma PlanDistinct(stack: seq<Mount>, plan: seq<Mount>)
    requires Tracks(stack, plan)
    ensures Distinct(plan)
  {
  }

  lemma NoneLeft(stack: seq<Mount>, plan: seq<Mount>, moved: set<Mount>, gone: set<Mount>)
    requires Tracks(stack, plan) && gone <= moved && forall m | m in plan && m in moved :: m in gone
    ensures DetachAll(Out(stack, gone), Backwards([], moved)) == Some(Out(stack, moved))
  {
    hide Layered, Distinct;
    SameOut(stack, moved, gone);
  }

  lemma {:induction false} SameOut(s: seq<Mount>, moved: set<Mount>, gone: set<Mount>)
    requires forall m | m in s :: m in moved <==> m in gone
    ensures Out(s, moved) == Out(s, gone)
  {
    if s != [] {
      SameOut(s[..|s| - 1], moved, gone);
    }
  }

  lemma InPlan(before: seq<Mount>, l: Mount, plan: seq<Mount>)
    requires before + [l] <= plan && Distinct(plan)
    ensures before <= plan && l in plan && l !in before
    ensures forall m | m in before :: m in plan && Before(plan, m, l)
    ensures forall m :: m in before + [l] <==> m in before || m == l
  {
    var n := |before|;
    assert plan[..n] == before && plan[n] == l;
    assert forall i | 0 <= i < n :: plan[i] == before[i];
    forall m | m in before
      ensures Before(plan, m, l)
    {
      assert plan == before + [l] + plan[n + 1..];
      BeforeIn(before, l, plan[n + 1..], m);
    }
  }

  lemma {:induction false} BeforeIn(a: seq<Mount>, l: Mount, b: seq<Mount>, m: Mount)
    requires m in a
    ensures Before(a + [l] + b, m, l)
  {
    var all := a + [l] + b;
    if b == [] {
      assert all[..|all| - 1] == a;
    } else {
      assert all[..|all| - 1] == a + [l] + b[..|b| - 1];
      BeforeIn(a, l, b[..|b| - 1], m);
    }
  }

  lemma DetachesLast(stack: seq<Mount>, before: seq<Mount>, l: Mount, plan: seq<Mount>, moved: set<Mount>, gone: set<Mount>)
    requires Tracks(stack, plan) && TakesBeneath(plan, moved)
    requires before + [l] <= plan && gone <= moved && l in moved && l in plan && l !in before
    requires forall m | m in plan && m in moved :: m in before + [l] <==> m !in gone
    requires forall m | m in before :: m in plan && Before(plan, m, l)
    ensures Detach(Out(stack, gone), l.dst) == Some(Out(stack, gone + {l}))
    ensures forall m | m in plan && m in moved :: m in before <==> m !in gone + {l}
  {
    hide Before, StartsWith, Distinct;
    var left := Out(stack, gone);
    assert l in before + [l];
    OutLayered(stack, gone);
    forall k | k in left && k != l
      ensures !StartsWith(k.dst, l.dst)
    {
      if StartsWith(k.dst, l.dst) {
        if k.dst == l.dst {
          OneFirst(stack, k, l);
          ItsOwn(l);
          assert false;
        } else {
          assert false;
        }
      }
    }
    DetachesMount(left, l);
    OutOnce(stack, gone, l);
  }

  lemma {:induction false} OutLayered(s: seq<Mount>, of: set<Mount>)
    requires Distinct(s) && Layered(s)
    ensures Distinct(Out(s, of)) && Layered(Out(s, of))
    ensures forall a, b :: Before(Out(s, of), a, b) ==> Before(s, a, b) && a in s && b in s
  {
    hide Layered, Distinct;
    OutOrder(s, of);
    assert Layered(Out(s, of)) by {
      OrderLayered(s, Out(s, of));
    }
  }

  lemma OrderLayered(s: seq<Mount>, t: seq<Mount>)
    requires Layered(s) && forall a, b :: Before(t, a, b) ==> Before(s, a, b) && a in s && b in s
    ensures Layered(t)
  {
    hide Before, StartsWith;
  }

  lemma {:induction false} OutOrder(s: seq<Mount>, of: set<Mount>)
    requires Distinct(s)
    ensures Distinct(Out(s, of))
    ensures forall a, b :: Before(Out(s, of), a, b) ==> Before(s, a, b) && a in s && b in s
  {
    hide Distinct, Before;
    if s == [] {
      NothingBefore();
    } else {
      var n := |s| - 1;
      var before, l := s[..n], s[n];
      assert s == before + [l];
      DistinctLast(before, l);
      OutOrder(before, of);
      AllBefore(s, before, l);
      DistinctLast(Out(before, of), l);
      AllBefore(Out(before, of) + [l], Out(before, of), l);
      assert Out(before, of) + [] == Out(before, of);
    }
  }

  lemma NothingBefore()
    ensures Distinct([]) && forall a, b :: !Before([], a, b)
  {
  }

  /** Detaching at a mount of a layered list with nothing beneath it. */
  lemma DetachesMount(s: seq<Mount>, l: Mount)
    requires l in s && Distinct(s) && Layered(s)
    requires forall k | k in s && k != l :: !StartsWith(k.dst, l.dst)
    ensures Detach(s, l.dst) == Some(Out(s, {l}))
  {
    var i :| 0 <= i < |s| && s[i] == l;
    var a, b := s[..i], s[i + 1..];
    assert s == a + [l] + b;
    Splits(a, l, b);
    forall k | k in b
      ensures !StartsWith(l.dst, k.dst) && !StartsWith(k.dst, l.dst)
    {
      assert k in s;
    }
    DetachOne(a, l, b);
  }

  lemma OutLast(s: seq<Mount>, m: Mount, of: set<Mount>)
    ensures Out(s + [m], of) == if m in of then Out(s, of) else Out(s, of) + [m]
  {
    assert (s + [m])[..|s|] == s;
    assert Out(s, of) + [] == Out(s, of);
  }

  lemma {:induction false} Splits(a: seq<Mount>, l: Mount, b: seq<Mount>)
    requires Distinct(a + [l] + b)
    ensures Out(a + [l] + b, {l}) == a + b
    ensures forall k | k in b :: Before(a + [l] + b, l, k) && k != l
  {
    hide *;
    if b == [] {
      assert a + [l] + b == a + [l] && a + b == a;
      DistinctLast(a, l);
      OutNone(a, l);
      OutLast(a, l, {l});
    } else {
      var n := |b| - 1;
      var before := a + [l] + b[..n];
      assert b == b[..n] + [b[n]];
      assert a + [l] + b == before + [b[n]] && a + b == a + b[..n] + [b[n]];
      DistinctLast(before, b[n]);
      Splits(a, l, b[..n]);
      AllBefore(before + [b[n]], before, b[n]);
      OutLast(before, b[n], {l});
      assert l in before;
    }
  }

  lemma {:induction false} OutNone(a: seq<Mount>, l: Mount)
    requires l !in a
    ensures Out(a, {l}) == a
  {
    if a != [] {
      hide *;
      assert a == a[..|a| - 1] + [a[|a| - 1]];
      OutLast(a[..|a| - 1], a[|a| - 1], {l});
      OutNone(a[..|a| - 1], l);
    }
  }

  lemma {:induction false} OutOnce(s: seq<Mount>, gone: set<Mount>, l: Mount)
    ensures Out(Out(s, gone), {l}) == Out(s, gone + {l})
  {
    if s != [] {
      var n := |s| - 1;
      OutOnce(s[..n], gone, l);
      var rest := Out(s[..n], gone);
      if s[n] !in gone {
        assert (rest + [s[n]])[..|rest|] == rest;
      } else {
        assert rest + [] == rest;
      }
    }
  }

  /** The sandbox has no other mounts than its plan's, none over an earlier
      one, but may lack some. */
  ghost predicate Follows(stack: seq<Mount>, plan: seq<Mount>) {
    && Distinct(stack) && Distinct(plan) && Layered(stack) && Layered(plan)
    && (forall m | m in stack :: m in plan)
  }

  function Absent(stack: seq<Mount>, plan: seq<Mount>): set<Mount> {
    set m | m in plan && m !in stack
  }

  /** It tracks what its plan is without those it lacks. */
  lemma FollowsTracks(stack: seq<Mount>, plan: seq<Mount>)
    requires Follows(stack, plan)
    ensures Tracks(stack, Out(plan, Absent(stack, plan)))
  {
    hide Distinct, Layered;
    OutLayered(plan, Absent(stack, plan));
  }

  /** A reload between layered plans, of which the sandbox may lack mounts:
      every detach of one that it has succeeds, and afterwards it has those
      of the new plan but the ones that are skipped, and the ones left in
      place that it lacked before. */
  lemma ReloadFollows(stack: seq<Mount>, was: seq<Mount>, now: seq<Mount>, skipped: set<Mount>)
    requires Follows(stack, was) && Distinct(now) && Layered(now)
    ensures var moved := Moved(was, now);
            var result := Out(stack, moved) + Out(In(now, moved), skipped);
            && DetachAll(stack, Backwards(Out(was, Absent(stack, was)), moved)) == Some(Out(stack, moved))
            && Follows(result, now)
            && forall m :: m in result <==> m in now && if m in moved then m !in skipped else m in stack
  {
    hide Moved, Distinct, Layered, DetachAll;
    var moved := Moved(was, now);
    var present := Out(was, Absent(stack, was));
    MovedMoves(was, now);
    FollowsTracks(stack, was);
    AllOut(stack);
    assert TakesBeneath(present, moved);
    DetachesInPlanOrder(stack, present, present, moved, {});
    OutLayered(stack, moved);
    InLayered(now, moved);
    OutLayered(In(now, moved), skipped);
    OfMoved(was, now);
    BothLayered(Out(stack, moved), Out(In(now, moved), skipped), stack, now, moved);
  }

  /** A reload between plans that are layered: every detach succeeds and the
      sandbox tracks the new plan. */
  lemma ReloadTracks(stack: seq<Mount>, was: seq<Mount>, now: seq<Mount>)
    requires Tracks(stack, was) && Distinct(now) && Layered(now)
    ensures var moved := Moved(was, now);
            var left := DetachAll(stack, Backwards(was, moved));
            left.Some? && Tracks(left.value + In(now, moved), now)
  {
    hide Moved, Distinct, Layered, DetachAll;
    assert Absent(stack, was) == {};
    AllOut(was);
    AllOut(In(now, Moved(was, now)));
    ReloadFollows(stack, was, now, {});
    OfMoved(was, now);
  }

  lemma InLayered(s: seq<Mount>, of: set<Mount>)
    requires Distinct(s) && Layered(s)
    ensures Distinct(In(s, of)) && Layered(In(s, of))
  {
    hide Layered, Distinct, Before;
    var others := set m | m in s && m !in of;
    InIsOut(s, of, others);
    OutLayered(s, others);
  }

  lemma {:induction false} InIsOut(s: seq<Mount>, of: set<Mount>, others: set<Mount>)
    requires forall m | m in s :: m in others <==> m !in of
    ensures In(s, of) == Out(s, others)
  {
    if s != [] {
      InIsOut(s[..|s| - 1], of, others);
    }
  }

  /** Kept mounts and moved ones over them. */
  lemma BothLayered(kept: seq<Mount>, added: seq<Mount>, stack: seq<Mount>, now: seq<Mount>, moved: set<Mount>)
    requires Distinct(kept) && Layered(kept) && Distinct(added) && Layered(added)
    requires Distinct(now) && Layered(now) && TakesBeneath(now, moved)
    requires forall k | k in kept :: k in now && k !in moved
    requires forall a | a in added :: a in now && a in moved
    ensures Distinct(kept + added) && Layered(kept + added)
  {
    hide StartsWith, Before;
    forall k, a | k in kept && a in added
      ensures !StartsWith(k.dst, a.dst) && k != a
    {
      if StartsWith(k.dst, a.dst) && k.dst == a.dst {
        OneFirst(now, k, a);
        ItsOwn(a);
        assert false;
      }
    }
    Stacked(kept, added);
  }

  lemma {:induction false} Stacked(a: seq<Mount>, b: seq<Mount>)
    requires Distinct(a) && Layered(a) && Distinct(b) && Layered(b)
    requires forall k, m | k in a && m in b :: !StartsWith(k.dst, m.dst) && k != m
    ensures Distinct(a + b) && Layered(a + b)
  {
    hide Distinct, Before, StartsWith;
    if b == [] {
      assert a + b == a;
    } else {
      var n := |b| - 1;
      var before, l := b[..n], b[n];
      assert b == before + [l] && a + b == a + before + [l];
      DistinctLast(before, l);
      AllBefore(b, before, l);
      Stacked(a, before);
      DistinctLast(a + before, l);
      AllBefore(a + b, a + before, l);
      LayeredBefore(a + before, l);
    }
  }

  lemma LayeredBefore(s: seq<Mount>, l: Mount)
    requires Layered(s) && forall k | k in s :: !StartsWith(k.dst, l.dst)
    ensures Layered(s + [l])
  {
    hide StartsWith, Before;
    AllBefore(s + [l], s, l);
    forall a, k | Before(s, a, k)
      ensures a in s && k in s
    {
      OnlyListed(s, a, k);
    }
  }

  /** Over any run of reloads between layered plans, the sandbox always shows
      what its plan attached afresh would. */
  lemma {:induction false} ReloadsTrack(plans: seq<seq<Mount>>, stacks: seq<seq<Mount>>, k: nat, p: Path)
    requires forall i | 0 <= i < |plans| :: Distinct(plans[i]) && Layered(plans[i])
    requires |stacks| == |plans| > k && stacks[0] == plans[0]
    requires forall i | 0 <= i < |plans| - 1 ::
               var moved := Moved(plans[i], plans[i + 1]);
               var left := DetachAll(stacks[i], Backwards(plans[i], moved));
               left.Some? ==> stacks[i + 1] == left.value + In(plans[i + 1], moved)
    ensures Tracks(stacks[k], plans[k]) && Visible(stacks[k], p) == Visible(plans[k], p)
  {
    hide Distinct, Layered, DetachAll, Moved, Visible;
    if k > 0 {
      ReloadsTrack(plans, stacks, k - 1, p);
      ReloadTracks(stacks[k - 1], plans[k - 1], plans[k]);
    }
    TracksShows(stacks[k], plans[k], p);
  }
}
