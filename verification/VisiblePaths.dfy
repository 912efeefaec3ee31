/** Host paths as the sandbox sees them through its writable binds. */
module VisiblePaths {
  import opened Wrappers
  import opened Mounts

  /** A mount as listed: its source when it is a writable bind, and its
      destination. */
  datatype Listed = Listed(src: Option<Path>, dst: Path)

  function Containing(ms: seq<Listed>, p: Path): (c: seq<nat>)
    ensures forall i: nat :: i in c <==> i < |ms| && StartsWith(p, ms[i].dst)
    ensures forall i: nat | i in c :: i <= c[|c| - 1]
  {
    if ms == [] then []
    else
      var n := |ms| - 1;
      var before := Containing(ms[..n], p);
      assert forall i: nat | i < n :: ms[..n][i] == ms[i];
      if StartsWith(p, ms[n].dst) then before + [n] else before
  }

  /** The mount that is what the sandbox sees at `p`, when that is certain:
      the last listed that contains it, if it alone is the deepest. */
  function Top(ms: seq<Listed>, p: Path): (i: Option<nat>)
    ensures i.Some? ==> i.value < |ms|
  {
    var c := Containing(ms, p);
    if c == [] then None
    else
      var last := c[|c| - 1];
      assert last in c;
      if forall k: nat | k in c :: |ms[k].dst| <= |ms[last].dst| && (|ms[k].dst| == |ms[last].dst| ==> k == last)
      then Some(last) else None
  }

  /** Where the bind at `i` shows the host path. */
  function Mapped(m: Listed, host: Path): Option<Path> {
    if m.src.Some? && StartsWith(host, m.src.value) then Some(m.dst + host[|m.src.value|..]) else None
  }

  /** The bind at `i` counts for the host path. */
  predicate Counts(ms: seq<Listed>, host: Path, i: nat) {
    i < |ms| && Mapped(ms[i], host).Some? && Top(ms, Mapped(ms[i], host).value) == Some(i)
  }

  /** Among the first `n` mounts, the bind that counts with the deepest
      source, the later of two. */
  function Best(ms: seq<Listed>, host: Path, n: nat): (b: Option<nat>)
    requires n <= |ms|
    ensures b.Some? ==> b.value < n && Counts(ms, host, b.value)
    ensures forall i | 0 <= i < n && Counts(ms, host, i) ::
              b.Some? && |ms[i].src.value| <= |ms[b.value].src.value|
              && (i > b.value ==> |ms[i].src.value| < |ms[b.value].src.value|)
  {
    if n == 0 then None
    else
      var before := Best(ms, host, n - 1);
      if !Counts(ms, host, n - 1) then before
      else if before.Some? && |ms[before.value].src.value| > |ms[n - 1].src.value| then before
      else Some(n - 1)
  }

  function VisibleThrough(ms: seq<Listed>, host: Path): Option<Path> {
    match Best(ms, host, |ms|)
    case Some(i) => Mapped(ms[i], host)
    case None => None
  }

  // What the kernel shows.

  predicate Above(d: Path, e: Path) {
    d != e && StartsWith(e, d)
  }

  /** When each mount was attached: one listed after a mount above it was
      attached after it. */
  ghost predicate Attached(ms: seq<Listed>, at: seq<nat>) {
    && |at| == |ms|
    && (forall i, j | 0 <= i < j < |ms| :: at[i] != at[j])
    && (forall i, j | 0 <= i < j < |ms| && Above(ms[i].dst, ms[j].dst) :: at[i] < at[j])
  }

  /** `i` is the last attached on the way to `p`. */
  ghost predicate Shows(ms: seq<Listed>, at: seq<nat>, p: Path, i: nat)
    requires |at| == |ms|
  {
    && i < |ms| && StartsWith(p, ms[i].dst)
    && forall j | 0 <= j < |ms| && j != i && StartsWith(p, ms[j].dst) :: at[j] < at[i]
  }

  /** `Top` answers exactly when the answer is the same under every attach
      order the list allows. */
  lemma TopIsExact(ms: seq<Listed>, p: Path, i: nat)
    ensures Top(ms, p) == Some(i) <==> forall at | Attached(ms, at) :: Shows(ms, at, p, i)
  {
    hide Top;
    if Top(ms, p) == Some(i) {
      forall at | Attached(ms, at)
        ensures Shows(ms, at, p, i)
      {
        TopShows(ms, at, p, i);
      }
    } else {
      var at := AnotherOrder(ms, p, i);
    }
  }

  lemma TopShows(ms: seq<Listed>, at: seq<nat>, p: Path, i: nat)
    requires Top(ms, p) == Some(i) && Attached(ms, at)
    ensures Shows(ms, at, p, i)
  {
    hide StartsWith;
    var c := Containing(ms, p);
    assert c[|c| - 1] in c;
    forall j | 0 <= j < |ms| && j != i && StartsWith(p, ms[j].dst)
      ensures at[j] < at[i]
    {
      assert j in c;
      Nested(p, ms[j].dst, ms[i].dst);
    }
  }

  /** The list's own order, but with `j` and what is beneath it attached
      after everything else. */
  function Late(ms: seq<Listed>, j: nat): (at: seq<nat>)
    requires j < |ms|
    ensures |at| == |ms|
    ensures forall k | 0 <= k < |ms| ::
              at[k] == if k == j || (k > j && Above(ms[j].dst, ms[k].dst)) then k + |ms| else k
  {
    seq(|ms|, k requires 0 <= k < |ms| => if k == j || (k > j && Above(ms[j].dst, ms[k].dst)) then k + |ms| else k)
  }

  lemma LateIsAttached(ms: seq<Listed>, j: nat)
    requires j < |ms|
    ensures Attached(ms, Late(ms, j))
  {
    hide StartsWith, Late;
    var at := Late(ms, j);
    forall a, b | 0 <= a < b < |ms| && Above(ms[a].dst, ms[b].dst)
      ensures at[a] < at[b]
    {
      if a > j && Above(ms[j].dst, ms[a].dst) {
        AboveAll(ms[j].dst, ms[a].dst, ms[b].dst);
      }
    }
  }

  lemma AboveAll(d: Path, e: Path, f: Path)
    requires Above(d, e) && Above(e, f)
    ensures Above(d, f)
  {
    StartsWithTransitive(f, e, d);
  }

  /** When `Top` does not answer `i`, some order shows another mount. */
  lemma AnotherOrder(ms: seq<Listed>, p: Path, i: nat) returns (at: seq<nat>)
    requires Top(ms, p) != Some(i)
    ensures Attached(ms, at) && !Shows(ms, at, p, i)
  {
    hide StartsWith, Late, Attached;
    var c := Containing(ms, p);
    if i !in c {
      at := InOrder(ms);
    } else {
      var last := c[|c| - 1];
      assert last in c;
      var j := last;
      if i == last {
        j :| j in c && !(|ms[j].dst| <= |ms[last].dst| && (|ms[j].dst| == |ms[last].dst| ==> j == last));
      }
      at := Late(ms, j);
      LateIsAttached(ms, j);
      if j < i {
        NotAbove(ms[j].dst, ms[i].dst);
      }
    }
  }

  lemma NotAbove(d: Path, e: Path)
    requires |d| >= |e|
    ensures !Above(d, e)
  {
  }

  lemma InOrder(ms: seq<Listed>) returns (at: seq<nat>)
    ensures Attached(ms, at)
  {
    at := seq(|ms|, k => k);
  }

  /** A writable bind from a directory of the host path's shows that path at
      `p`, by the same steps down. */
  ghost predicate Leads(m: Listed, host: Path, p: Path) {
    m.src.Some? && exists rest :: host == m.src.value + rest && p == m.dst + rest
  }

  lemma MappedExactly(m: Listed, host: Path, p: Path)
    ensures Mapped(m, host) == Some(p) <==> Leads(m, host, p)
  {
    if Mapped(m, host) == Some(p) {
      assert host == m.src.value + host[|m.src.value|..];
    }
    if Leads(m, host, p) {
      var rest :| host == m.src.value + rest && p == m.dst + rest;
      assert host[|m.src.value|..] == rest;
    }
  }

  /** It is what the sandbox sees there under every attach order the list
      allows. */
  ghost predicate Certain(ms: seq<Listed>, p: Path, i: nat) {
    forall at | Attached(ms, at) :: Shows(ms, at, p, i)
  }

  lemma CountsExactly(ms: seq<Listed>, host: Path, i: nat)
    requires i < |ms|
    ensures Counts(ms, host, i) <==> exists p :: Leads(ms[i], host, p) && Certain(ms, p, i)
  {
    hide Top, Shows, Mapped, Leads, Attached;
    if Mapped(ms[i], host).Some? {
      var p := Mapped(ms[i], host).value;
      MappedExactly(ms[i], host, p);
      TopIsExact(ms, p, i);
    }
    if p :| Leads(ms[i], host, p) && Certain(ms, p, i) {
      MappedExactly(ms[i], host, p);
    }
  }

  /** A path is answered exactly when some writable bind of the host path is
      what the sandbox sees there under every attach order the list allows,
      and then it is such a path, of the deepest source, or the last of
      those. */
  lemma AnswersExactly(ms: seq<Listed>, host: Path)
    ensures match VisibleThrough(ms, host)
            case None => forall i, p | 0 <= i < |ms| && Leads(ms[i], host, p) :: !Certain(ms, p, i)
            case Some(p) =>
              exists i | 0 <= i < |ms| ::
                && Leads(ms[i], host, p) && Certain(ms, p, i)
                && forall j, q | 0 <= j < |ms| && Leads(ms[j], host, q) && Certain(ms, q, j) ::
                     |ms[j].src.value| <= |ms[i].src.value| && (|ms[j].src.value| == |ms[i].src.value| ==> j <= i)
  {
    hide Mapped, Best, Counts, Leads, Certain;
    var best := Best(ms, host, |ms|);
    forall j, q | 0 <= j < |ms| && Leads(ms[j], host, q) && Certain(ms, q, j)
      ensures Counts(ms, host, j)
    {
      CountsExactly(ms, host, j);
    }
    if best.Some? {
      var i := best.value;
      CountsExactly(ms, host, i);
      var p :| Leads(ms[i], host, p) && Certain(ms, p, i);
      MappedExactly(ms[i], host, p);
      assert VisibleThrough(ms, host) == Some(p);
    }
  }

  /** The mapped path is the host path's, relative to source and
      destination. */
  lemma MappedShowsHost(m: Listed, host: Path)
    requires Mapped(m, host).Some?
    ensures var p := Mapped(m, host).value;
            StartsWith(p, m.dst) && m.src.value + p[|m.dst|..] == host
  {
  }
}
