/** Moving a running sandbox's mounts from those of one plan to those of
    another: the moved ones are detached, last first, and attached again in
    the new plan's order. */
module Reload {
  import opened Wrappers
  import opened Mounts

  /** What sits beneath a moved mount is moved too. */
  ghost predicate TakesBeneath(s: seq<Mount>, moved: set<Mount>) {
    forall d, m | d in moved && m in s && m.dst != d.dst && StartsWith(m.dst, d.dst) :: m in moved
  }

  /** A mount left in place comes after `m`, at or above it. */
  ghost predicate Covered(s: seq<Mount>, moved: set<Mount>, m: Mount) {
    exists k | k in s && k !in moved :: Before(s, m, k) && StartsWith(m.dst, k.dst)
  }

  // Detaching.

  /** Detaching the moved mounts succeeds and leaves exactly the others if
      and only if no moved one is covered by one left in place. */
  lemma DetachesExactly(s: seq<Mount>, moved: set<Mount>)
    requires Distinct(s) && TakesBeneath(s, moved)
    ensures DetachAll(s, Backwards(s, moved)) == Some(Out(s, moved)) <==>
            forall m | m in s && m in moved :: !Covered(s, moved, m)
  {
    hide Before, DetachAll, Backwards, Out;
    assert s + [] == s && Out(s, moved) + [] == Out(s, moved);
    if forall m | m in s && m in moved :: !Covered(s, moved, m) {
      Leaves(s, [], moved);
    } else {
      Misses(s, [], moved);
    }
  }

  /** `t` stays, and nothing of it is at, above or beneath a moved mount. */
  ghost predicate Apart(s: seq<Mount>, t: seq<Mount>, moved: set<Mount>) {
    && (forall k | k in t :: k !in moved)
    && (forall m, k | m in s && m in moved && k in t :: !StartsWith(m.dst, k.dst) && !StartsWith(k.dst, m.dst))
  }

  lemma {:induction false} Leaves(s: seq<Mount>, t: seq<Mount>, moved: set<Mount>)
    requires Distinct(s) && TakesBeneath(s, moved) && Apart(s, t, moved)
    requires forall m | m in s && m in moved :: !Covered(s, moved, m)
    ensures DetachAll(s + t, Backwards(s, moved)) == Some(Out(s, moved) + t)
  {
    if s == [] {
      assert s + t == t && Out(s, moved) + t == t;
    } else {
      hide *;
      var n := |s| - 1;
      var before, l := s[..n], s[n];
      assert s == before + [l];
      Shorter(before, l, moved);
      Snoc(before, l, t, moved);
      StillApart(before, l, t, moved);
      if l in moved {
        DetachOne(before, l, t);
        DetachFirst(s + t, l, Backwards(before, moved));
        Leaves(before, t, moved);
      } else {
        Leaves(before, [l] + t, moved);
      }
    }
  }

  lemma StillApart(before: seq<Mount>, l: Mount, t: seq<Mount>, moved: set<Mount>)
    requires TakesBeneath(before + [l], moved) && Apart(before + [l], t, moved)
    ensures Apart(before, t, moved)
    ensures l in moved ==> forall k | k in t :: !StartsWith(l.dst, k.dst) && !StartsWith(k.dst, l.dst)
    ensures l !in moved && (forall m | m in before && m in moved :: !Covered(before + [l], moved, m)) ==>
              Apart(before, [l] + t, moved)
  {
    hide StartsWith, Covered;
    assert forall m | m in before :: m in before + [l];
    assert l in before + [l];
    if l !in moved && forall m | m in before && m in moved :: !Covered(before + [l], moved, m) {
      forall m | m in before && m in moved
        ensures !StartsWith(m.dst, l.dst) && !StartsWith(l.dst, m.dst)
      {
        CoveredBy(before, l, moved, m);
      }
    }
  }

  /** What holds of all but the last. */
  lemma Shorter(before: seq<Mount>, l: Mount, moved: set<Mount>)
    requires Distinct(before + [l]) && TakesBeneath(before + [l], moved)
    ensures Distinct(before) && TakesBeneath(before, moved) && l !in before
    ensures forall m :: Covered(before, moved, m) ==> Covered(before + [l], moved, m)
    ensures l in moved ==> forall m | m in before + [l] && Covered(before + [l], moved, m) :: m in before && Covered(before, moved, m)
  {
    var s := before + [l];
    assert s[..|before|] == before && s[|before|] == l;
    DistinctLast(before, l);
    forall k
      ensures !Before(s, l, k)
    {
      if Before(before, l, k) {
        OnlyListed(before, l, k);
      }
    }
    assert forall m, k :: Before(s, m, k) <==> Before(before, m, k) || (m in before && k == l);
  }

  lemma DistinctLast(s: seq<Mount>, l: Mount)
    ensures Distinct(s + [l]) <==> Distinct(s) && l !in s
  {
    var all := s + [l];
    assert forall i | 0 <= i < |s| :: all[i] == s[i];
    assert all[|s|] == l;
  }

  /** The lists of a plan and of it without its last mount. */
  lemma Snoc(before: seq<Mount>, l: Mount, t: seq<Mount>, moved: set<Mount>)
    ensures Backwards(before + [l], moved) == if l in moved then [l] + Backwards(before, moved) else Backwards(before, moved)
    ensures Out(before + [l], moved) + t == if l in moved then Out(before, moved) + t else Out(before, moved) + ([l] + t)
    ensures before + [l] + t == before + ([l] + t)
  {
    hide In;
    assert (before + [l])[..|before|] == before && (before + [l])[|before|] == l;
    Regroup(before, l, t);
    Regroup(Out(before, moved), l, t);
    assert Out(before, moved) + [] == Out(before, moved);
    assert [] + Backwards(before, moved) == Backwards(before, moved);
  }

  lemma Regroup(s: seq<Mount>, l: Mount, t: seq<Mount>)
    ensures s + [l] + t == s + ([l] + t)
  {
  }

  lemma DetachFirst(s: seq<Mount>, m: Mount, rest: seq<Mount>)
    ensures DetachAll(s, [m] + rest) == var r := Detach(s, m.dst); if r.None? then None else DetachAll(r.value, rest)
  {
    assert ([m] + rest)[1..] == rest;
  }

  lemma CoveredBy(before: seq<Mount>, l: Mount, moved: set<Mount>, m: Mount)
    requires m in before && m in moved && l !in moved
    requires TakesBeneath(before + [l], moved) && !Covered(before + [l], moved, m)
    ensures !StartsWith(m.dst, l.dst) && !StartsWith(l.dst, m.dst)
  {
    var s := before + [l];
    assert s[..|before|] == before && s[|before|] == l;
    assert Before(s, m, l);
  }

  lemma {:induction false} Misses(s: seq<Mount>, t: seq<Mount>, moved: set<Mount>)
    requires Distinct(s + t) && TakesBeneath(s + t, moved) && Apart(s, t, moved)
    requires exists m | m in s && m in moved :: Covered(s, moved, m)
    ensures DetachAll(s + t, Backwards(s, moved)) != Some(Out(s, moved) + t)
  {
    if s != [] {
      hide *;
      var n := |s| - 1;
      var before, l := s[..n], s[n];
      assert s == before + [l];
      DistinctParts(s, t);
      StillBeneath(before, l, t, moved);
      Shorter(before, l, moved);
      Snoc(before, l, t, moved);
      if l in moved {
        StillApart(before, l, t, moved);
        DetachOne(before, l, t);
        DetachFirst(s + t, l, Backwards(before, moved));
        DistinctWithout(before, l, t);
        Misses(before, t, moved);
      } else if m :| m in before && m in moved && StartsWith(m.dst, l.dst) {
        StaysApart(s, t, l, moved);
        Blocked(before, [l] + t, moved, m, l);
      } else {
        CoveredBefore(before, l, moved);
        ApartFrom(before, l, t, moved);
        Misses(before, [l] + t, moved);
      }
    }
  }

  lemma ApartFrom(before: seq<Mount>, l: Mount, t: seq<Mount>, moved: set<Mount>)
    requires TakesBeneath(before + [l], moved) && Apart(before + [l], t, moved) && l !in moved
    requires forall m | m in before && m in moved :: !StartsWith(m.dst, l.dst)
    ensures Apart(before, [l] + t, moved)
  {
    hide StartsWith;
    assert forall m | m in before :: m in before + [l];
    assert l in before + [l];
  }

  lemma StillBeneath(before: seq<Mount>, l: Mount, t: seq<Mount>, moved: set<Mount>)
    requires TakesBeneath(before + [l] + t, moved)
    ensures TakesBeneath(before + [l], moved) && TakesBeneath(before + t, moved)
  {
    assert forall m | m in before + [l] || m in before + t :: m in before + [l] + t;
  }

  lemma StaysApart(s: seq<Mount>, t: seq<Mount>, l: Mount, moved: set<Mount>)
    requires Apart(s, t, moved) && l !in moved
    ensures forall k | k in [l] + t :: k !in moved
  {
  }

  lemma CoveredBefore(before: seq<Mount>, l: Mount, moved: set<Mount>)
    requires l !in before && l !in moved
    requires forall m | m in before && m in moved :: !StartsWith(m.dst, l.dst)
    requires exists m | m in before + [l] && m in moved :: Covered(before + [l], moved, m)
    ensures exists m | m in before && m in moved :: Covered(before, moved, m)
  {
    var s := before + [l];
    assert s[..|before|] == before && s[|before|] == l;
    var m :| m in s && m in moved && Covered(s, moved, m);
    assert Covered(before, moved, m);
  }

  lemma DistinctParts(s: seq<Mount>, t: seq<Mount>)
    requires Distinct(s + t)
    ensures Distinct(s)
  {
    assert forall i | 0 <= i < |s| :: s[i] == (s + t)[i];
  }

  lemma DistinctWithout(s: seq<Mount>, l: Mount, t: seq<Mount>)
    requires Distinct(s + [l] + t)
    ensures Distinct(s + t)
  {
    var all, left := s + [l] + t, s + t;
    assert forall i | 0 <= i < |s| :: left[i] == all[i];
    assert forall i | |s| <= i < |left| :: left[i] == all[i + 1];
  }

  /** A moved mount with one left in place over it: detaching it fails, or
      takes one that should stay. */
  lemma {:induction false} Blocked(s: seq<Mount>, t: seq<Mount>, moved: set<Mount>, m: Mount, k: Mount)
    requires Distinct(s + t) && TakesBeneath(s + t, moved) && (forall k | k in t :: k !in moved)
    requires m in s && m in moved && k in t && StartsWith(m.dst, k.dst)
    ensures DetachAll(s + t, Backwards(s, moved)) != Some(Out(s, moved) + t)
  {
    hide *;
    var n := |s| - 1;
    var before, l := s[..n], s[n];
    assert s == before + [l];
    Snoc(before, l, t, moved);
    if l !in moved {
      Blocked(before, [l] + t, moved, m, k);
    } else {
      DetachFirst(s + t, l, Backwards(before, moved));
      if x :| x in t && StartsWith(l.dst, x.dst) {
        DetachLoses(s, t, l.dst, x);
        var r := Detach(s + t, l.dst);
        if r.Some? {
          var j :| j in t && j !in r.value;
          OnlyLeaves(r.value, Backwards(before, moved));
          assert j in Out(before, moved) + t;
        }
      } else {
        NotBeneath(before, l, t, moved);
        DetachOne(before, l, t);
        DistinctWithout(before, l, t);
        Blocked(before, t, moved, m, k);
      }
    }
  }

  lemma NotBeneath(before: seq<Mount>, l: Mount, t: seq<Mount>, moved: set<Mount>)
    requires TakesBeneath(before + [l] + t, moved) && l in moved && forall k | k in t :: k !in moved
    requires forall k | k in t :: !StartsWith(l.dst, k.dst)
    ensures forall k | k in t :: !StartsWith(k.dst, l.dst)
    ensures TakesBeneath(before + t, moved)
  {
    assert forall k | k in t && k.dst == l.dst :: StartsWith(l.dst, k.dst);
    assert forall k | k in t :: k in before + [l] + t;
  }

  lemma {:induction false} DetachLoses(s: seq<Mount>, t: seq<Mount>, p: Path, x: Mount)
    requires Distinct(s + t) && x in t && StartsWith(p, x.dst)
    ensures var r := Detach(s + t, p); r.Some? ==> exists j :: j in t && j !in r.value
  {
    hide Distinct, StartsWith;
    var n := |t| - 1;
    var before, l := t[..n], t[n];
    assert t == before + [l] && s + t == s + before + [l];
    DistinctLast(s + before, l);
    DetachLast(s + before, l, p);
    if !StartsWith(p, l.dst) {
      DetachLoses(s, before, p, x);
      var r := Detach(s + before, p);
      if r.Some? {
        var j :| j in before && j !in r.value;
        assert j in s + before && j in t && j !in r.value + [l];
      }
    } else {
      assert l in t && l !in s + before;
    }
  }

  lemma DetachLast(s: seq<Mount>, l: Mount, p: Path)
    ensures Detach(s + [l], p) ==
            if StartsWith(p, l.dst) then (if l.dst == p then Some(s) else None)
            else if Detach(s, p).None? then None
            else if StartsWith(l.dst, p) then Detach(s, p) else Some(Detach(s, p).value + [l])
  {
    assert (s + [l])[..|s|] == s;
  }

  lemma {:induction false} OnlyLeaves(s: seq<Mount>, ms: seq<Mount>)
    ensures var r := DetachAll(s, ms); r.Some? ==> forall m | m in r.value :: m in s
    decreases |ms|
  {
    hide Detach;
    if ms != [] {
      var r := Detach(s, ms[0].dst);
      if r.Some? {
        OneLeaves(s, ms[0].dst);
        OnlyLeaves(r.value, ms[1..]);
      }
    }
  }

  lemma {:induction false} OneLeaves(s: seq<Mount>, p: Path)
    ensures var r := Detach(s, p); r.Some? ==> forall m | m in r.value :: m in s
  {
    if s != [] && !StartsWith(p, s[|s| - 1].dst) {
      OneLeaves(s[..|s| - 1], p);
    }
  }

  // What shows afterwards.

  /** Moved mounts are those that only one plan has, and all beneath them. */
  ghost predicate Moves(was: seq<Mount>, now: seq<Mount>, moved: set<Mount>) {
    && TakesBeneath(was, moved) && TakesBeneath(now, moved)
    && (forall m | m in was :: m in now || m in moved)
    && (forall m | m in now :: m in was || m in moved)
  }

  function Deeper(j: Mount, k: Mount): Path {
    if |j.dst| <= |k.dst| then k.dst else j.dst
  }

  predicate Nests(j: Mount, k: Mount) {
    StartsWith(Deeper(j, k), j.dst) && StartsWith(Deeper(j, k), k.dst)
  }

  /** Some moved mount of the new plan is on the way to `q`. */
  ghost predicate MovedOver(now: seq<Mount>, moved: set<Mount>, q: Path) {
    exists a | a in now && a in moved :: StartsWith(q, a.dst)
  }

  /** A mount left in place comes after `j`, on the way to `q`. */
  ghost predicate KeptOver(s: seq<Mount>, moved: set<Mount>, j: Mount, q: Path) {
    exists x | x in s && x !in moved :: Before(s, j, x) && StartsWith(q, x.dst)
  }

  /** A moved mount that one left in place comes after, at or above it, has
      another moved one over both. */
  ghost predicate MovedShow(now: seq<Mount>, moved: set<Mount>) {
    forall a, k | a in now && a in moved && k in now && k !in moved && Before(now, a, k) && StartsWith(a.dst, k.dst) ::
      ShowsOver(now, moved, a, k)
  }

  ghost predicate ShowsOver(now: seq<Mount>, moved: set<Mount>, a: Mount, k: Mount) {
    exists x | x in now && x in moved :: Before(now, k, x) && StartsWith(a.dst, x.dst)
  }

  /** Nested mounts left in place keep their order, or neither shows at the
      deeper one's place before or after. */
  ghost predicate KeepsOrder(was: seq<Mount>, now: seq<Mount>, moved: set<Mount>) {
    forall j, k | j in now && j !in moved && k in was && k !in moved
                  && Before(was, j, k) && Before(now, k, j) && Nests(j, k) ::
      var q := Deeper(j, k);
      MovedOver(now, moved, q) || KeptOver(was, moved, k, q) || KeptOver(now, moved, j, q)
  }

  /** What the sandbox then has: the mounts left in place, and over them the
      moved ones of the new plan. */
  function Reloaded(was: seq<Mount>, now: seq<Mount>, moved: set<Mount>): seq<Mount> {
    Out(was, moved) + In(now, moved)
  }

  /** Every path shows what it would had the new plan's mounts been attached
      afresh, if and only if the moved mounts show and those left in place
      keep their order. */
  lemma ShowsTheSame(was: seq<Mount>, now: seq<Mount>, moved: set<Mount>)
    requires Distinct(was) && Distinct(now) && Moves(was, now, moved)
    ensures (forall p :: Visible(Reloaded(was, now, moved), p) == Visible(now, p)) <==>
            MovedShow(now, moved) && KeepsOrder(was, now, moved)
  {
    hide *;
    if MovedShow(now, moved) && KeepsOrder(was, now, moved) {
      forall p
        ensures Visible(Reloaded(was, now, moved), p) == Visible(now, p)
      {
        SameAt(was, now, moved, p);
      }
    } else if !MovedShow(now, moved) {
      var p := Hidden(was, now, moved);
    } else {
      var p := Reordered(was, now, moved);
    }
  }

  lemma LastOf(s: seq<Mount>, p: Path, m: Mount)
    requires Distinct(s)
    ensures Visible(s, p) == Some(m) <==> LastOut(s, {}, p, m)
  {
    hide Visible, LastOut;
    AllOut(s);
    VisibleOut(s, {}, p, m);
  }

  lemma AllOut(s: seq<Mount>)
    ensures Out(s, {}) == s
  {
  }

  lemma {:induction false} OneFirst(s: seq<Mount>, a: Mount, b: Mount)
    requires a in s && b in s && a != b
    ensures Before(s, a, b) || Before(s, b, a)
  {
    var n := |s| - 1;
    assert s == s[..n] + [s[n]];
    if a in s[..n] && b in s[..n] {
      OneFirst(s[..n], a, b);
    }
  }

  /** What shows at `p` after the reload. */
  lemma ShownAfter(was: seq<Mount>, now: seq<Mount>, moved: set<Mount>, p: Path)
    ensures var v := Visible(Reloaded(was, now, moved), p);
            && (MovedOver(now, moved, p) ==> v.Some? && v.value in moved)
            && (!MovedOver(now, moved, p) ==> v == Visible(Out(was, moved), p))
  {
    hide Visible;
    VisibleOver(Out(was, moved), In(now, moved), p);
    VisibleNone(In(now, moved), p);
  }

  lemma {:induction false} MovedOnTop(now: seq<Mount>, moved: set<Mount>, p: Path)
    requires Visible(now, p).Some? && Visible(now, p).value in moved
    ensures Visible(In(now, moved), p) == Visible(now, p)
  {
    var n := |now| - 1;
    var rest := In(now[..n], moved);
    if StartsWith(p, now[n].dst) {
      assert (rest + [now[n]])[|rest|] == now[n];
    } else {
      MovedOnTop(now[..n], moved, p);
      VisibleOver(rest, if now[n] in moved then [now[n]] else [], p);
      assert [now[n]][..0] == [];
    }
  }

  lemma SameAt(was: seq<Mount>, now: seq<Mount>, moved: set<Mount>, p: Path)
    requires Distinct(was) && Distinct(now) && Moves(was, now, moved)
    requires MovedShow(now, moved) && KeepsOrder(was, now, moved)
    ensures Visible(Reloaded(was, now, moved), p) == Visible(now, p)
  {
    hide Visible, Distinct, Before, StartsWith, TakesBeneath, MovedShow, KeepsOrder, MovedOver, LastOut;
    VisibleNone(now, p);
    ShownAfter(was, now, moved, p);
    var v := Visible(now, p);
    if v.None? {
      NothingOver(was, now, moved, p);
    } else if v.value in moved {
      MovedOnTop(now, moved, p);
      VisibleOver(Out(was, moved), In(now, moved), p);
    } else {
      LastOf(now, p, v.value);
      NoMovedOver(now, moved, p, v.value) by {
        assert TakesBeneath(now, moved);
      }
      KeptOnTop(was, now, moved, p, v.value);
    }
  }

  lemma NothingOver(was: seq<Mount>, now: seq<Mount>, moved: set<Mount>, p: Path)
    requires Moves(was, now, moved) && forall m | m in now :: !StartsWith(p, m.dst)
    ensures !MovedOver(now, moved, p) && Visible(Out(was, moved), p).None?
  {
    hide StartsWith, Visible;
    VisibleNone(Out(was, moved), p);
  }

  /** A mount left in place that shows has no moved one on its way. */
  lemma NoMovedOver(now: seq<Mount>, moved: set<Mount>, p: Path, k: Mount)
    requires Distinct(now) && TakesBeneath(now, moved) && MovedShow(now, moved)
    requires LastOut(now, {}, p, k) && k !in moved
    ensures !MovedOver(now, moved, p)
  {
    hide Before, Distinct, StartsWith;
    if a :| a in now && a in moved && StartsWith(p, a.dst) {
      OneFirst(now, a, k);
      if |k.dst| <= |a.dst| {
        Nested(p, k.dst, a.dst);
        assert ShowsOver(now, moved, a, k);
        var x :| x in now && x in moved && Before(now, k, x) && StartsWith(a.dst, x.dst);
        StartsWithTransitive(p, a.dst, x.dst);
        assert false;
      } else {
        Nested(p, a.dst, k.dst);
        assert false;
      }
    }
  }

  lemma KeptOnTop(was: seq<Mount>, now: seq<Mount>, moved: set<Mount>, p: Path, k: Mount)
    requires Distinct(was) && Distinct(now) && Moves(was, now, moved) && KeepsOrder(was, now, moved)
    requires LastOut(now, {}, p, k) && k !in moved && !MovedOver(now, moved, p)
    ensures Visible(Out(was, moved), p) == Some(k)
  {
    hide Before, Distinct, StartsWith, TakesBeneath, Visible;
    VisibleNone(Out(was, moved), p);
    var w := Visible(Out(was, moved), p).value;
    VisibleOut(was, moved, p, w);
    if w != k {
      OneFirst(was, k, w);
      OneFirst(now, k, w);
      NestedMounts(p, k, w);
      var q := Deeper(k, w);
      if a :| a in now && a in moved && StartsWith(q, a.dst) {
        StartsWithTransitive(p, q, a.dst);
        assert false;
      } else if x :| x in was && x !in moved && Before(was, w, x) && StartsWith(q, x.dst) {
        StartsWithTransitive(p, q, x.dst);
        assert false;
      } else if x :| x in now && x !in moved && Before(now, k, x) && StartsWith(q, x.dst) {
        StartsWithTransitive(p, q, x.dst);
        assert false;
      }
      assert false;
    }
  }

  lemma NestedMounts(p: Path, j: Mount, k: Mount)
    requires StartsWith(p, j.dst) && StartsWith(p, k.dst)
    ensures Nests(j, k) && StartsWith(p, Deeper(j, k))
  {
    if |j.dst| <= |k.dst| {
      Nested(p, j.dst, k.dst);
    } else {
      Nested(p, k.dst, j.dst);
    }
  }

  /** A moved mount attached over one that the new plan has over it. */
  lemma Hidden(was: seq<Mount>, now: seq<Mount>, moved: set<Mount>) returns (p: Path)
    requires Distinct(now) && !MovedShow(now, moved)
    ensures Visible(Reloaded(was, now, moved), p) != Visible(now, p)
  {
    hide Visible, Distinct, Before, StartsWith, Reloaded;
    var a, k :| a in now && a in moved && k in now && k !in moved && Before(now, a, k) && StartsWith(a.dst, k.dst)
                && !ShowsOver(now, moved, a, k);
    p := a.dst;
    ItsOwn(a);
    ShownAfter(was, now, moved, p);
    VisibleNone(now, p);
    var m := Visible(now, p).value;
    LastOf(now, p, m);
    if m in moved {
      OneFirst(now, k, m);
    }
  }

  lemma ItsOwn(m: Mount)
    ensures StartsWith(m.dst, m.dst)
  {
  }

  lemma Reordered(was: seq<Mount>, now: seq<Mount>, moved: set<Mount>) returns (p: Path)
    requires Distinct(was) && Distinct(now) && Moves(was, now, moved) && !KeepsOrder(was, now, moved)
    ensures Visible(Reloaded(was, now, moved), p) != Visible(now, p)
  {
    hide Visible, Distinct, Before, StartsWith, TakesBeneath, Reloaded;
    var j, k :| j in now && j !in moved && k in was && k !in moved
                && Before(was, j, k) && Before(now, k, j) && Nests(j, k)
                && !MovedOver(now, moved, Deeper(j, k))
                && !KeptOver(was, moved, k, Deeper(j, k)) && !KeptOver(now, moved, j, Deeper(j, k));
    p := Deeper(j, k);
    ShownAfter(was, now, moved, p);
    assert LastOut(was, moved, p, k);
    VisibleOut(was, moved, p, k);
    assert LastOut(now, {}, p, j);
    LastOf(now, p, j);
    NotItself(was, j, k);
  }

  lemma NotItself(s: seq<Mount>, a: Mount, b: Mount)
    requires Distinct(s) && Before(s, a, b)
    ensures a != b
  {
    if Before(s[..|s| - 1], a, b) {
      NotItself(s[..|s| - 1], a, b);
    }
  }
}
