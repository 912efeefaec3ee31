/** What the script that a comparison of two plans gives does to a running
    sandbox. */
module ReloadPlans {
  import opened Wrappers
  import opened Mounts
  import opened Reload
  import opened PlanDiff

  lemma MovedMoves(was: seq<Mount>, now: seq<Mount>)
    ensures Moves(was, now, Moved(was, now))
  {
    hide Changed;
    OfMoved(was, now);
    var moved := Moved(was, now);
    forall d, m | d in moved && (m in was || m in now) && m.dst != d.dst && StartsWith(m.dst, d.dst)
      ensures m in moved
    {
      TakenAlong(was, now, d, m);
    }
  }

  /** Mounts beneath one that moves move. */
  lemma TakenAlong(was: seq<Mount>, now: seq<Mount>, d: Mount, m: Mount)
    requires d in Moved(was, now) && (m in was || m in now) && m.dst != d.dst && StartsWith(m.dst, d.dst)
    ensures m in Moved(was, now)
  {
    hide Changed, StartsWith;
    OfMoved(was, now);
    var changed := Changed(was, now);
    if d !in was || d !in now {
      IsChanged(was, now, d);
      assert Beneath(m, changed);
    } else {
      var e :| e in changed && d.dst != e && StartsWith(d.dst, e);
      StartsWithTransitive(m.dst, d.dst, e);
      NotBack(m.dst, d.dst, e);
      assert Beneath(m, changed);
    }
  }

  lemma IsChanged(was: seq<Mount>, now: seq<Mount>, d: Mount)
    requires d in Moved(was, now) && (d !in was || d !in now)
    ensures d.dst in Changed(was, now)
  {
  }

  lemma NotBack(m: Path, d: Path, e: Path)
    requires StartsWith(m, d) && StartsWith(d, e) && d != e
    ensures m != e
  {
  }

  /** No mount left in place is over one that moves. */
  ghost predicate NoneCovered(s: seq<Mount>, moved: set<Mount>) {
    forall m | m in s && m in moved :: !Covered(s, moved, m)
  }

  /** Running the script of `Diff` on the mounts of the old plan: every
      detach takes what it should exactly when no mount left in place is over
      one that moves, and then every path shows what it would under the new
      plan attached afresh exactly when the moved mounts show there and the
      nested ones left in place keep their order. */
  lemma ScriptShowsTheSame(was: seq<Mount>, now: seq<Mount>)
    requires Distinct(was) && Distinct(now)
    ensures var moved := Moved(was, now);
            var left := DetachAll(was, Backwards(was, moved));
            && (left == Some(Out(was, moved)) <==> NoneCovered(was, moved))
            && (NoneCovered(was, moved) ==>
                  ((forall p :: Visible(left.value + In(now, moved), p) == Visible(now, p)) <==>
                     MovedShow(now, moved) && KeepsOrder(was, now, moved)))
  {
    hide Distinct, DetachAll, Visible, Moved, MovedShow, KeepsOrder, TakesBeneath;
    MovedMoves(was, now);
    DetachesExactly(was, Moved(was, now));
    ShowsTheSame(was, now, Moved(was, now));
  }

  /** No mount is at or above an earlier one. */
  ghost predicate Layered(s: seq<Mount>) {
    forall a, k | a in s && k in s && Before(s, a, k) :: !StartsWith(a.dst, k.dst)
  }

  /** Between layered plans the script never goes wrong. */
  lemma LayeredPlansReload(was: seq<Mount>, now: seq<Mount>)
    requires Distinct(was) && Distinct(now) && Layered(was) && Layered(now)
    ensures var moved := Moved(was, now);
            var left := DetachAll(was, Backwards(was, moved));
            left.Some? && forall p :: Visible(left.value + In(now, moved), p) == Visible(now, p)
  {
    hide Distinct, DetachAll, Visible, Moved, Before, TakesBeneath, StartsWith, ShowsOver, MovedOver, KeptOver;
    var moved := Moved(was, now);
    MovedMoves(was, now);
    ScriptShowsTheSame(was, now);
    assert NoneCovered(was, moved);
    assert MovedShow(now, moved);
    assert forall m | m !in moved :: m in was <==> m in now;
    assert KeepsOrder(was, now, moved);
  }

  // Shares in a plan.

  /** `m` put in after those that are no deeper. */
  function Place(s: seq<Mount>, m: Mount): seq<Mount> {
    if s == [] || |s[|s| - 1].dst| <= |m.dst| then s + [m] else Place(s[..|s| - 1], m) + [s[|s| - 1]]
  }

  /** Parents before children: a stable sort by how deep a mount is. */
  function ByDepth(s: seq<Mount>): seq<Mount> {
    if s == [] then [] else Place(ByDepth(s[..|s| - 1]), s[|s| - 1])
  }

  ghost predicate Rises(s: seq<Mount>) {
    forall a, k | Before(s, a, k) :: |a.dst| <= |k.dst|
  }

  lemma BeforeLast(s: seq<Mount>, l: Mount, a: Mount, k: Mount)
    ensures Before(s + [l], a, k) <==> Before(s, a, k) || (a in s && k == l)
  {
    assert (s + [l])[..|s|] == s;
  }

  lemma {:induction false} PlaceRises(s: seq<Mount>, m: Mount)
    requires Rises(s) && m !in s
    ensures Rises(Place(s, m))
    ensures forall x :: x in Place(s, m) <==> x in s || x == m
    ensures Distinct(s) ==> Distinct(Place(s, m))
  {
    hide Before, Distinct;
    if s == [] {
      assert [] + [m] == [m];
      BeforeOne(m);
      DistinctLast([], m);
    } else {
      var n := |s| - 1;
      var before, l := s[..n], s[n];
      assert s == before + [l];
      AllBefore(s, before, l);
      if |l.dst| <= |m.dst| {
        AllBefore(s + [m], s, m);
        assert forall a | a in before :: Before(s, a, l);
        DistinctLast(s, m);
      } else {
        PlaceRises(before, m);
        AllBefore(Place(before, m) + [l], Place(before, m), l);
        DistinctLast(before, l);
        DistinctLast(Place(before, m), l);
      }
    }
  }

  lemma BeforeOne(m: Mount)
    ensures forall a, k :: !Before([m], a, k)
  {
    assert [m][..0] == [];
  }

  lemma AllBefore(s: seq<Mount>, before: seq<Mount>, l: Mount)
    requires s == before + [l]
    ensures forall a, k :: Before(s, a, k) <==> Before(before, a, k) || (a in before && k == l)
  {
    forall a, k
      ensures Before(s, a, k) <==> Before(before, a, k) || (a in before && k == l)
    {
      BeforeLast(before, l, a, k);
    }
  }

  /** Shares with destinations of their own, once sorted, are layered, and
      none is lost. */
  lemma {:induction false} SharesAreLayered(s: seq<Mount>)
    requires forall i, j | 0 <= i < j < |s| :: s[i].dst != s[j].dst
    ensures Layered(ByDepth(s)) && Distinct(ByDepth(s))
    ensures forall m :: m in ByDepth(s) <==> m in s
  {
    hide Before, StartsWith, Distinct;
    SortRises(s);
    var sorted := ByDepth(s);
    forall a, k | a in sorted && k in sorted && Before(sorted, a, k)
      ensures !StartsWith(a.dst, k.dst)
    {
      NotItself(sorted, a, k);
      if StartsWith(a.dst, k.dst) {
        SameDepth(a.dst, k.dst);
      }
    }
  }

  lemma SameDepth(d: Path, e: Path)
    requires |d| <= |e| && StartsWith(d, e)
    ensures d == e
  {
  }

  lemma {:induction false} SortRises(s: seq<Mount>)
    requires forall i, j | 0 <= i < j < |s| :: s[i].dst != s[j].dst
    ensures Rises(ByDepth(s)) && Distinct(ByDepth(s))
    ensures forall m :: m in ByDepth(s) <==> m in s
  {
    hide Rises, Distinct, Place;
    if s == [] {
      NoneRise();
    } else {
      var n := |s| - 1;
      SortRises(s[..n]);
      assert s == s[..n] + [s[n]];
      PlaceRises(ByDepth(s[..n]), s[n]);
    }
  }

  lemma NoneRise()
    ensures Rises([]) && Distinct([])
  {
  }
}
