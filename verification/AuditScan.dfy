/** The ring of audit directories: the soft pass and the hard search, as functions of what the system answers. */
module AuditScan {
  import opened Ring
  import opened AuditTrail

  datatype Space = Soft | Hard | Full | StayFull

  datatype Dir = Dir(name: string, space: Space)

  /** What a file system says about its blocks. */
  datatype Stat = Failed | Blocks(avail: nat, total: nat)

  const AVAIL_MIN := 50

  /** The free blocks that the soft limit asks for. */
  function Floor(stat: Stat, minfree: nat): nat {
    if stat.Failed? then 0 else minfree * (stat.total / 100)
  }

  function SpaceOf(stat: Stat, minfree: nat): Space {
    if stat.Failed? || stat.avail < AVAIL_MIN then Full
    else if stat.avail < Floor(stat, minfree) then Hard
    else Soft
  }

  /** A directory after its space was tested. */
  function Probed(d: Dir, stat: Stat, minfree: nat): Dir {
    d.(space := if d.space == StayFull then Full else SpaceOf(stat, minfree))
  }

  /** How an attempt to open a log ends. */
  datatype Opening = Refused | Opens(date: Date, written: bool)

  predicate Succeeds(o: Opening) {
    o.Opens? && o.written
  }

  /** What the system answers while the directories are looked at, for each of them. */
  datatype World = World(stat: nat -> Stat, soft: nat -> Opening, hard: nat -> Opening)

  // ----- the soft pass ------------------------------------------------------------------------------

  /** Directory `i` is under its soft limit, and a log can be opened in it. */
  predicate Usable(dirs: seq<Dir>, w: World, minfree: nat, i: nat)
    requires i < |dirs|
  {
    Probed(dirs[i], w.stat(i), minfree).space == Soft && Succeeds(w.soft(i))
  }

  /** A directory the pass went by. */
  function PassedBy(d: Dir, stat: Stat, minfree: nat): Dir {
    var p := Probed(d, stat, minfree);
    if p.space == Soft then p.(space := Full) else p
  }

  /** The directories after the pass went by `e` of them, from `s` on. */
  function AfterPass(dirs: seq<Dir>, w: World, minfree: nat, s: nat, e: nat): (r: seq<Dir>)
    requires s < |dirs|
    ensures |r| == |dirs|
  {
    seq(|dirs|, i requires 0 <= i < |dirs| =>
      if Steps(s, i, |dirs|) < e then PassedBy(dirs[i], w.stat(i), minfree) else dirs[i])
  }

  predicate AnyHard(dirs: seq<Dir>) {
    exists i :: 0 <= i < |dirs| && dirs[i].space == Hard
  }

  /** One more directory passed by. */
  lemma {:induction false} PassStep(dirs: seq<Dir>, w: World, minfree: nat, s: nat, e: nat)
    requires s < |dirs| && e < |dirs|
    ensures var i := Around(s, e, |dirs|);
            && AfterPass(dirs, w, minfree, s, e)[i] == dirs[i]
            && AfterPass(dirs, w, minfree, s, e + 1)
            == AfterPass(dirs, w, minfree, s, e)[i := PassedBy(dirs[i], w.stat(i), minfree)]
  {
    var i, n := Around(s, e, |dirs|), |dirs|;
    assert Steps(s, i, n) == e;
    var a, b := AfterPass(dirs, w, minfree, s, e), AfterPass(dirs, w, minfree, s, e + 1);
    forall k | 0 <= k < n ensures b[k] == a[i := PassedBy(dirs[i], w.stat(i), minfree)][k] {
      assert Wrap(s, Steps(s, k, n), n) == k;
    }
  }

  /** Among the first `e` directories from `s` on, none is usable. */
  predicate NoneUsable(dirs: seq<Dir>, w: World, minfree: nat, s: nat, e: nat)
    requires s < |dirs| && e <= |dirs|
  {
    forall k :: 0 <= k < e ==> !Usable(dirs, w, minfree, Wrap(s, k, |dirs|))
  }

  /** How many directories from `s` on come before the first usable one; all of them if there is none. */
  function FirstUsable(dirs: seq<Dir>, w: World, minfree: nat, s: nat, e: nat): (u: nat)
    requires s < |dirs| && e <= |dirs|
    ensures e <= u <= |dirs| && (u < |dirs| ==> Usable(dirs, w, minfree, Wrap(s, u, |dirs|)))
    ensures forall k :: e <= k < u ==> !Usable(dirs, w, minfree, Wrap(s, k, |dirs|))
    decreases |dirs| - e
  {
    if e == |dirs| || Usable(dirs, w, minfree, Wrap(s, e, |dirs|)) then e
    else FirstUsable(dirs, w, minfree, s, e + 1)
  }

  /** The first usable directory is determined by what comes before it. */
  lemma {:induction false} FirstUsableIs(dirs: seq<Dir>, w: World, minfree: nat, s: nat, u: nat)
    requires s < |dirs| && u <= |dirs| && NoneUsable(dirs, w, minfree, s, u)
    requires u < |dirs| ==> Usable(dirs, w, minfree, Wrap(s, u, |dirs|))
    ensures FirstUsable(dirs, w, minfree, s, 0) == u
  {
    var v := FirstUsable(dirs, w, minfree, s, 0);
    assert v < |dirs| ==> Usable(dirs, w, minfree, Wrap(s, v, |dirs|));
  }

  /** Some directory among the first `e` passed by has only hard space. */
  predicate SawHard(dirs: seq<Dir>, w: World, minfree: nat, s: nat, e: nat)
    requires s < |dirs| && e <= |dirs|
  {
    exists k :: 0 <= k < e && AfterPass(dirs, w, minfree, s, e)[Wrap(s, k, |dirs|)].space == Hard
  }

  /** After a whole pass, what was seen is what there is. */
  lemma {:induction false} SawAll(dirs: seq<Dir>, w: World, minfree: nat, s: nat)
    requires s < |dirs|
    ensures SawHard(dirs, w, minfree, s, |dirs|) <==> AnyHard(AfterPass(dirs, w, minfree, s, |dirs|))
  {
    var r := AfterPass(dirs, w, minfree, s, |dirs|);
    if i :| 0 <= i < |dirs| && r[i].space == Hard {
      assert Wrap(s, Steps(s, i, |dirs|), |dirs|) == i;
    }
  }

  lemma {:induction false} SawMore(dirs: seq<Dir>, w: World, minfree: nat, s: nat, e: nat)
    requires s < |dirs| && e < |dirs|
    ensures var i := Around(s, e, |dirs|);
            SawHard(dirs, w, minfree, s, e + 1) <==>
            SawHard(dirs, w, minfree, s, e) || Probed(dirs[i], w.stat(i), minfree).space == Hard
  {
    var n := |dirs|;
    var a, b := AfterPass(dirs, w, minfree, s, e), AfterPass(dirs, w, minfree, s, e + 1);
    PassStep(dirs, w, minfree, s, e);
    forall k | 0 <= k < e ensures a[Wrap(s, k, n)] == b[Wrap(s, k, n)] {}
    assert b[Wrap(s, e, n)] == PassedBy(dirs[Wrap(s, e, n)], w.stat(Wrap(s, e, n)), minfree);
  }

  // ----- the hard search ----------------------------------------------------------------------------

  function HardCount(dirs: seq<Dir>): nat {
    if dirs == [] then 0 else HardCount(dirs[..|dirs| - 1]) + if dirs[|dirs| - 1].space == Hard then 1 else 0
  }

  function MarkFull(dirs: seq<Dir>, i: nat): (r: seq<Dir>)
    requires i < |dirs|
    ensures |r| == |dirs|
  {
    dirs[i := dirs[i].(space := Full)]
  }

  lemma {:induction false} HardDrops(dirs: seq<Dir>, i: nat)
    requires i < |dirs| && dirs[i].space == Hard
    ensures HardCount(MarkFull(dirs, i)) == HardCount(dirs) - 1
  {
    var n := |dirs| - 1;
    if i == n {
      assert MarkFull(dirs, i)[..n] == dirs[..n];
    } else {
      HardDrops(dirs[..n], i);
      assert MarkFull(dirs, i)[..n] == MarkFull(dirs[..n], i);
    }
  }

  /** How the search ends: at `at`, with a new log or the one already open, or without any. */
  datatype Hunt = Hunt(dirs: seq<Dir>, at: nat, found: Finding)
  datatype Finding = Nothing | Reused | Fresh

  /** A failed attempt goes on two places; from the last one that is past the start. */
  function Skip(e: nat, n: nat): (r: nat)
    requires e < n
    ensures r <= n
  {
    if e + 2 <= n then e + 2 else 1
  }

  /** The search for hard space, `e` steps from its start `s`. */
  function Search(dirs: seq<Dir>, w: World, s: nat, e: nat, reuse: bool): (r: Hunt)
    requires s < |dirs| && e <= |dirs|
    ensures |r.dirs| == |dirs| && r.at < |dirs|
    ensures r.found == Fresh ==> Succeeds(w.hard(r.at))
    ensures r.found == Reused ==> reuse
    decreases HardCount(dirs), |dirs| - e
  {
    if e == |dirs| then Hunt(dirs, s, Nothing)
    else
      var i := Wrap(s, e, |dirs|);
      if dirs[i].space != Hard then Search(dirs, w, s, e + 1, reuse)
      else if e == 0 && reuse then Hunt(dirs, i, Reused)
      else if Succeeds(w.hard(i)) then Hunt(dirs, i, Fresh)
      else
        HardDrops(dirs, i);
        Search(MarkFull(dirs, i), w, s, Skip(e, |dirs|), reuse)
  }

  function Before(i: nat, n: nat): (j: nat)
    requires i < n
    ensures j < n
  {
    if i == 0 then n - 1 else i - 1
  }

  /** From `was` to `now` only failed attempts changed anything: the directory is then marked full. */
  ghost predicate OnlyFailures(was: seq<Dir>, now: seq<Dir>, w: World) {
    && |was| == |now|
    && forall i :: 0 <= i < |was| ==>
         now[i] == was[i] || (was[i].space == Hard && !Succeeds(w.hard(i)) && now[i] == was[i].(space := Full))
  }

  /** Of the first `e` directories, one with hard space left follows one where an attempt failed. */
  ghost predicate Followers(was: seq<Dir>, now: seq<Dir>, s: nat, e: nat)
    requires |was| == |now| && s < |was| && e <= |was|
  {
    forall k :: 0 <= k < e && now[Wrap(s, k, |was|)].space == Hard ==>
      Gone(was, now, Before(Wrap(s, k, |was|), |was|))
  }

  predicate Gone(was: seq<Dir>, now: seq<Dir>, i: nat)
    requires i < |was| == |now|
  {
    was[i].space == Hard && now[i].space == Full
  }

  lemma {:induction false} SearchLaws(was: seq<Dir>, dirs: seq<Dir>, w: World, s: nat, e: nat, reuse: bool)
    requires s < |dirs| && e <= |dirs| && OnlyFailures(was, dirs, w) && Followers(was, dirs, s, e)
    ensures var r := Search(dirs, w, s, e, reuse);
            && OnlyFailures(was, r.dirs, w)
            && (r.found == Nothing ==> r.at == s && Followers(was, r.dirs, s, |was|))
            && (r.found == Fresh ==> was[r.at].space == Hard && Succeeds(w.hard(r.at)))
            && (r.found == Reused ==> was[r.at].space == Hard && r.at == s && reuse)
    decreases HardCount(dirs), |dirs| - e
  {
    var n := |dirs|;
    if e < n {
      var i := Wrap(s, e, n);
      if dirs[i].space != Hard {
        SearchLaws(was, dirs, w, s, e + 1, reuse);
      } else if !(e == 0 && reuse) && !Succeeds(w.hard(i)) {
        HardDrops(dirs, i);
        SkipFollows(was, dirs, s, e);
        SearchLaws(was, MarkFull(dirs, i), w, s, Skip(e, n), reuse);
      }
    }
  }

  lemma {:induction false} SkipFollows(was: seq<Dir>, dirs: seq<Dir>, s: nat, e: nat)
    requires |was| == |dirs| && s < |dirs| && e < |dirs| && Followers(was, dirs, s, e)
    requires was[Wrap(s, e, |was|)].space == Hard
    ensures Followers(was, MarkFull(dirs, Wrap(s, e, |dirs|)), s, Skip(e, |dirs|))
  {
    var n, i := |dirs|, Wrap(s, e, |dirs|);
    var now := MarkFull(dirs, i);
    forall k | 0 <= k < Skip(e, n) && now[Wrap(s, k, n)].space == Hard
      ensures Gone(was, now, Before(Wrap(s, k, n), n))
    {
      assert now[i].space == Full;
      if k < e {
        assert Gone(was, dirs, Before(Wrap(s, k, n), n));
      } else {
        assert Before(Wrap(s, k, n), n) == i;
      }
    }
  }

  /** A search that ends without a log passed over a directory with hard space only after a failed attempt in the
      directory before it. So a directory that can be opened is found unless it follows one that cannot. */
  lemma {:induction false} SearchMissesOnly(dirs: seq<Dir>, w: World, s: nat, reuse: bool, i: nat)
    requires s < |dirs| && i < |dirs| && dirs[i].space == Hard && Succeeds(w.hard(i))
    requires dirs[Before(i, |dirs|)].space == Hard ==> Succeeds(w.hard(Before(i, |dirs|)))
    ensures Search(dirs, w, s, 0, reuse).found != Nothing
  {
    var n, r := |dirs|, Search(dirs, w, s, 0, reuse);
    SearchLaws(dirs, dirs, w, s, 0, reuse);
    assert Wrap(s, Steps(s, i, n), n) == i;
    assert r.dirs[i] == dirs[i];
  }

  /** Two directories with hard space; the first refuses, so the second is never looked at. */
  lemma {:induction false} SearchMisses(dirs: seq<Dir>, w: World)
    requires |dirs| == 2 && dirs[0].space == Hard && dirs[1].space == Hard
    requires !Succeeds(w.hard(0)) && Succeeds(w.hard(1))
    ensures Search(dirs, w, 0, 0, false).found == Nothing
  {
    HardDrops(dirs, 0);
    assert Search(MarkFull(dirs, 0), w, 0, 2, false).found == Nothing;
  }
}
