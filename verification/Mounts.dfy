/** Mounts in a sandbox root, and what a path shows through them. */
module Mounts {
  import opened Wrappers

  /** The components of an absolute path. */
  type Path = seq<string>

  predicate StartsWith(p: Path, d: Path) {
    |d| <= |p| && p[..|d|] == d
  }

  lemma StartsWithTransitive(p: Path, q: Path, r: Path)
    requires StartsWith(p, q) && StartsWith(q, r)
    ensures StartsWith(p, r)
  {
    assert p[..|q|][..|r|] == p[..|r|];
  }

  /** Of two places on the way to one path, one is on the way to the
      other. */
  lemma Nested(p: Path, d: Path, e: Path)
    requires StartsWith(p, d) && StartsWith(p, e) && |d| <= |e|
    ensures StartsWith(e, d)
  {
    assert p[..|e|][..|d|] == p[..|d|];
  }

  datatype Mount =
    | Bind(src: Path, dst: Path, ro: bool, optional: bool)
    | Tmpfs(dst: Path, mode: nat)
    | Overlay(lower: Path, dst: Path, optional: bool)
    | Symlink(target: string, dst: Path)
    | Dir(dst: Path)
    | Proc(dst: Path)
    | Dev(dst: Path)
    | File(dst: Path, content: string)

  /** The mount that shows at `p`, of mounts in the order they were
      attached: the last one on the way to it. */
  function Visible(s: seq<Mount>, p: Path): Option<Mount> {
    if s == [] then None
    else if StartsWith(p, s[|s| - 1].dst) then Some(s[|s| - 1])
    else Visible(s[..|s| - 1], p)
  }

  /** What is left when the mount that shows at `p` is detached, with
      whatever was attached on it; nothing is when none is mounted there. */
  function Detach(s: seq<Mount>, p: Path): Option<seq<Mount>> {
    if s == [] then None
    else
      var before, m := s[..|s| - 1], s[|s| - 1];
      if StartsWith(p, m.dst) then (if m.dst == p then Some(before) else None)
      else
        match Detach(before, p)
        case None => None
        case Some(left) => Some(if StartsWith(m.dst, p) then left else left + [m])
  }

  /** Detaches at each path in turn; nothing when one cannot be. */
  function DetachAll(s: seq<Mount>, ms: seq<Mount>): Option<seq<Mount>>
    decreases |ms|
  {
    if ms == [] then Some(s)
    else
      match Detach(s, ms[0].dst)
      case None => None
      case Some(left) => DetachAll(left, ms[1..])
  }

  ghost predicate Distinct(s: seq<Mount>) {
    forall i, j | 0 <= i < j < |s| :: s[i] != s[j]
  }

  /** `a` comes before `b` in `s`. */
  ghost predicate Before(s: seq<Mount>, a: Mount, b: Mount) {
    s != [] && (Before(s[..|s| - 1], a, b) || (a in s[..|s| - 1] && b == s[|s| - 1]))
  }

  /** The mounts of `s` in `of`, and the others. */
  function In(s: seq<Mount>, of: set<Mount>): (r: seq<Mount>)
    ensures forall m :: m in r <==> m in s && m in of
  {
    if s == [] then []
    else In(s[..|s| - 1], of) + if s[|s| - 1] in of then [s[|s| - 1]] else []
  }

  function Out(s: seq<Mount>, of: set<Mount>): (r: seq<Mount>)
    ensures forall m :: m in r <==> m in s && m !in of
  {
    if s == [] then []
    else Out(s[..|s| - 1], of) + if s[|s| - 1] in of then [] else [s[|s| - 1]]
  }

  /** The mounts of `s` in `of`, last first. */
  function Backwards(s: seq<Mount>, of: set<Mount>): seq<Mount> {
    if s == [] then []
    else (if s[|s| - 1] in of then [s[|s| - 1]] else []) + Backwards(s[..|s| - 1], of)
  }

  lemma {:induction false} VisibleOver(a: seq<Mount>, b: seq<Mount>, p: Path)
    ensures Visible(a + b, p) == if Visible(b, p).Some? then Visible(b, p) else Visible(a, p)
  {
    if b == [] {
      assert a + b == a;
    } else {
      VisibleOver(a, b[..|b| - 1], p);
      assert (a + b)[..|a + b| - 1] == a + b[..|b| - 1];
    }
  }

  /** `m` is on the way to `p`, and no mount of `s` after it is, but for
      those in `of`. */
  ghost predicate LastOut(s: seq<Mount>, of: set<Mount>, p: Path, m: Mount) {
    && m in s && m !in of && StartsWith(p, m.dst)
    && forall x | x in s && x !in of && StartsWith(p, x.dst) :: !Before(s, m, x)
  }

  lemma {:induction false} VisibleOut(s: seq<Mount>, of: set<Mount>, p: Path, m: Mount)
    requires Distinct(s)
    ensures Visible(Out(s, of), p) == Some(m) <==> LastOut(s, of, p, m)
  {
    if s != [] {
      var n := |s| - 1;
      VisibleOut(s[..n], of, p, m);
      assert s == s[..n] + [s[n]] && s[n] !in s[..n];
      LastNext(s[..n], s[n], of, p, m);
      VisibleOver(Out(s[..n], of), [s[n]], p);
      assert Out(s[..n], of) + [] == Out(s[..n], of);
    }
  }

  lemma LastNext(s: seq<Mount>, l: Mount, of: set<Mount>, p: Path, m: Mount)
    requires l !in s
    ensures LastOut(s + [l], of, p, m) <==>
            if l !in of && StartsWith(p, l.dst) then m == l else LastOut(s, of, p, m)
  {
    hide StartsWith;
    assert (s + [l])[..|s|] == s;
    forall x
      ensures Before(s + [l], m, x) <==> Before(s, m, x) || (m in s && x == l)
      ensures Before(s, m, x) ==> m in s && x in s
    {
      if Before(s, m, x) {
        OnlyListed(s, m, x);
      }
    }
    assert m in s && l !in of && StartsWith(p, l.dst) ==> Before(s + [l], m, l);
  }

  lemma {:induction false} OnlyListed(s: seq<Mount>, a: Mount, b: Mount)
    requires Before(s, a, b)
    ensures a in s && b in s
  {
    if Before(s[..|s| - 1], a, b) {
      OnlyListed(s[..|s| - 1], a, b);
    }
  }

  lemma VisibleNone(s: seq<Mount>, p: Path)
    ensures Visible(s, p).None? <==> forall m | m in s :: !StartsWith(p, m.dst)
    ensures Visible(s, p).Some? ==> Visible(s, p).value in s && StartsWith(p, Visible(s, p).value.dst)
  {
    if s != [] {
      VisibleNone(s[..|s| - 1], p);
    }
  }

  /** Detaching at the destination of a mount that shows there, with
      nothing on it, takes just that one. */
  lemma {:induction false} DetachOne(s: seq<Mount>, m: Mount, t: seq<Mount>)
    requires forall k | k in t :: !StartsWith(m.dst, k.dst) && !StartsWith(k.dst, m.dst)
    ensures Detach(s + [m] + t, m.dst) == Some(s + t)
  {
    var all := s + [m] + t;
    if t == [] {
      assert all[..|all| - 1] == s && s + t == s;
    } else {
      var n := |t| - 1;
      DetachOne(s, m, t[..n]);
      assert all[..|all| - 1] == s + [m] + t[..n];
      assert s + t == s + t[..n] + [t[n]];
    }
  }

  // What the definitions say.

  lemma StartsWithExactly(p: Path, d: Path)
    ensures StartsWith(p, d) <==> exists rest :: p == d + rest
  {
    if StartsWith(p, d) {
      assert p == d + p[|d|..];
    }
  }

  /** The mount at `i` is the last on the way to `p`. */
  ghost predicate LastAt(s: seq<Mount>, p: Path, i: nat)
    ensures LastAt(s, p, i) ==> i < |s|
  {
    && i < |s| && (exists rest :: p == s[i].dst + rest)
    && forall j, rest | i < j < |s| :: p != s[j].dst + rest
  }

  /** At a path shows the last mount on the way to it, and none only when
      there is none. */
  lemma {:induction false} VisibleExactly(s: seq<Mount>, p: Path)
    ensures forall m :: Visible(s, p) == Some(m) <==> exists i: nat :: LastAt(s, p, i) && s[i] == m
    ensures Visible(s, p) == None <==> forall m, rest | m in s :: p != m.dst + rest
    decreases |s|
  {
    if s != [] {
      var n := |s| - 1;
      StartsWithExactly(p, s[n].dst);
      VisibleExactly(s[..n], p);
      LastOfMore(s, p);
      assert s == s[..n] + [s[n]];
    }
  }

  lemma LastOfMore(s: seq<Mount>, p: Path)
    requires s != []
    ensures var n := |s| - 1;
            if exists rest :: p == s[n].dst + rest then forall i: nat :: LastAt(s, p, i) <==> i == n
            else forall i: nat :: LastAt(s, p, i) <==> LastAt(s[..n], p, i)
  {
    var n := |s| - 1;
    assert forall i | 0 <= i < n :: s[..n][i] == s[i];
    if !exists rest :: p == s[n].dst + rest {
      forall i: nat | LastAt(s[..n], p, i)
        ensures LastAt(s, p, i)
      {
        forall j, rest | i < j < |s|
          ensures p != s[j].dst + rest
        {
          assert j < n ==> s[..n][j] == s[j];
        }
      }
    }
  }

  /** Those of `s` that are not beneath `p`, in order. */
  function NotBeneath(s: seq<Mount>, p: Path): seq<Mount> {
    if s == [] then []
    else if |s[0].dst| >= |p| && s[0].dst[..|p|] == p then NotBeneath(s[1..], p)
    else [s[0]] + NotBeneath(s[1..], p)
  }

  lemma {:induction false} DetachesAt(s: seq<Mount>, p: Path, i: nat)
    requires LastAt(s, p, i) && s[i].dst == p
    ensures Detach(s, p) == Some(s[..i] + NotBeneath(s[i + 1..], p))
    decreases |s|
  {
    hide LastAt;
    var n := |s| - 1;
    var before, l := s[..n], s[n];
    InLength(s, p, i);
    StartsWithExactly(p, l.dst);
    LastOfMore(s, p);
    if i == n {
      assert s[n + 1..] == [] && s[..n] + [] == s[..n];
    } else {
      DetachesAt(before, p, i);
      assert s[..i] == before[..i] && s[i + 1..] == before[i + 1..] + [l];
      NotBeneathLast(before[i + 1..], l, p);
      assert s[..i] + (NotBeneath(before[i + 1..], p) + [l]) == s[..i] + NotBeneath(before[i + 1..], p) + [l];
      assert NotBeneath(before[i + 1..], p) + [] == NotBeneath(before[i + 1..], p);
    }
  }

  lemma InLength(s: seq<Mount>, p: Path, i: nat)
    requires LastAt(s, p, i)
    ensures i < |s| && exists rest :: p == s[i].dst + rest
    ensures i < |s| - 1 ==> !StartsWith(p, s[|s| - 1].dst)
  {
    StartsWithExactly(p, s[|s| - 1].dst);
  }

  lemma {:induction false} DetachedShows(s: seq<Mount>, p: Path)
    requires Detach(s, p).Some?
    ensures Visible(s, p).Some? && Visible(s, p).value.dst == p
  {
    if !StartsWith(p, s[|s| - 1].dst) {
      DetachedShows(s[..|s| - 1], p);
    }
  }

  /** Detaching at a path takes the mount that shows there, when it is mounted
      just there, and all that was attached after it beneath that path, and
      leaves everything else in order; otherwise it fails. */
  lemma DetachExactly(s: seq<Mount>, p: Path)
    ensures forall i: nat | LastAt(s, p, i) && s[i].dst == p ::
              Detach(s, p) == Some(s[..i] + NotBeneath(s[i + 1..], p))
    ensures Detach(s, p).Some? ==> exists i: nat :: LastAt(s, p, i) && s[i].dst == p
  {
    hide Detach, NotBeneath, LastAt, Visible;
    forall i: nat | LastAt(s, p, i) && s[i].dst == p
      ensures Detach(s, p) == Some(s[..i] + NotBeneath(s[i + 1..], p))
    {
      DetachesAt(s, p, i);
    }
    if Detach(s, p).Some? {
      DetachedShows(s, p);
      VisibleExactly(s, p);
    }
  }

  lemma {:induction false} NotBeneathLast(s: seq<Mount>, l: Mount, p: Path)
    ensures NotBeneath(s + [l], p) == NotBeneath(s, p) + if StartsWith(l.dst, p) then [] else [l]
  {
    if s == [] {
      assert [] + [l] == [l] && [l][1..] == [];
    } else {
      assert (s + [l])[1..] == s[1..] + [l];
      NotBeneathLast(s[1..], l, p);
    }
  }
}
