/** Exactly when the search for hard space ends without a log. */
module AuditSearch {
  import opened Ring
  import opened AuditScan

  function Place(dirs: seq<Dir>, s: nat, e: nat): Dir
    requires s < |dirs| && e < |dirs|
  {
    dirs[Wrap(s, e, |dirs|)]
  }

  /** The directory `e` places from `s` has hard space, and a log can be opened in it. */
  predicate CanOpen(dirs: seq<Dir>, w: World, s: nat, e: nat)
    requires s < |dirs| && e < |dirs|
  {
    Place(dirs, s, e).space == Hard && Succeeds(w.hard(Wrap(s, e, |dirs|)))
  }

  /** The directory `e` places from `s` has hard space, but no log can be opened in it. */
  predicate Refuses(dirs: seq<Dir>, w: World, s: nat, e: nat)
    requires s < |dirs| && e < |dirs|
  {
    Place(dirs, s, e).space == Hard && !Succeeds(w.hard(Wrap(s, e, |dirs|)))
  }

  /** How many directories in a row refuse, right before place `e`. */
  function Refusals(dirs: seq<Dir>, w: World, s: nat, e: nat): nat
    requires s < |dirs| && e <= |dirs|
  {
    if e > 0 && Refuses(dirs, w, s, e - 1) then Refusals(dirs, w, s, e - 1) + 1 else 0
  }

  /** Place `e` is passed over: an attempt was made right before it, and failed. */
  predicate Skipped(dirs: seq<Dir>, w: World, s: nat, e: nat)
    requires s < |dirs| && e <= |dirs|
    decreases e, 0
  {
    e > 0 && Tried(dirs, w, s, e - 1)
  }

  /** An attempt is made at place `e`, and fails. */
  predicate Tried(dirs: seq<Dir>, w: World, s: nat, e: nat)
    requires s < |dirs| && e < |dirs|
    decreases e, 1
  {
    Refuses(dirs, w, s, e) && !Skipped(dirs, w, s, e)
  }

  lemma {:induction false} SkippedIs(dirs: seq<Dir>, w: World, s: nat, e: nat)
    requires s < |dirs| && e <= |dirs|
    ensures Skipped(dirs, w, s, e) <==> Refusals(dirs, w, s, e) % 2 == 1
  {
    if e > 0 {
      SkippedIs(dirs, w, s, e - 1);
    }
  }

  /** The places below `e` that can be opened are passed over. */
  ghost predicate Missed(dirs: seq<Dir>, w: World, s: nat, e: nat)
    requires s < |dirs| && e <= |dirs|
  {
    forall k :: 0 <= k < e && CanOpen(dirs, w, s, k) ==> Skipped(dirs, w, s, k)
  }

  ghost predicate NoneOpen(dirs: seq<Dir>, w: World, s: nat, e: nat)
    requires s < |dirs|
  {
    forall k :: e <= k < |dirs| ==> !CanOpen(dirs, w, s, k)
  }

  // ----- the first turn around the ring -------------------------------------------------------------

  /** Place `k` after the search came to `e`: full when an attempt failed there. */
  function Left(was: seq<Dir>, w: World, s: nat, e: nat, k: nat): Dir
    requires s < |was| && k < |was|
  {
    if k < e && Tried(was, w, s, k) then Place(was, s, k).(space := Full) else Place(was, s, k)
  }

  ghost predicate LeftBy(was: seq<Dir>, now: seq<Dir>, w: World, s: nat, e: nat)
    requires s < |was| == |now|
  {
    forall k {:trigger Place(now, s, k)} :: 0 <= k < |was| ==> Place(now, s, k) == Left(was, w, s, e, k)
  }

  /** A failed attempt goes by its own place and the next. */
  lemma {:induction false} LeftOn(was: seq<Dir>, now: seq<Dir>, w: World, s: nat, e: nat, f: nat)
    requires s < |was| == |now| && e < f <= |was| && f <= e + 2
    requires LeftBy(was, now, w, s, e) && Tried(was, w, s, e)
    ensures LeftBy(was, MarkFull(now, Wrap(s, e, |was|)), w, s, f)
  {
    var n, r := |was|, MarkFull(now, Wrap(s, e, |was|));
    assert Place(now, s, e) == Place(was, s, e);
    assert e + 1 < n ==> Skipped(was, w, s, e + 1) && !Tried(was, w, s, e + 1);
    forall k | 0 <= k < n ensures Place(r, s, k) == Left(was, w, s, f, k) {
      assert Place(now, s, k) == Left(was, w, s, e, k);
      assert Wrap(s, k, n) == Wrap(s, e, n) <==> k == e;
    }
  }

  lemma {:induction false} LeftSame(was: seq<Dir>, now: seq<Dir>, w: World, s: nat, e: nat)
    requires s < |was| == |now| && e < |was| && LeftBy(was, now, w, s, e) && Place(was, s, e).space != Hard
    ensures LeftBy(was, now, w, s, e + 1)
  {
    forall k | 0 <= k < |was| ensures Place(now, s, k) == Left(was, w, s, e + 1, k) {
      assert Place(now, s, k) == Left(was, w, s, e, k);
    }
  }

  /** The search from place `e` of the first turn. */
  lemma {:induction false} FirstTurn(was: seq<Dir>, now: seq<Dir>, w: World, s: nat, e: nat, reuse: bool)
    requires s < |was| == |now| && e <= |was| && (e == 0 && reuse ==> was[s].space != Hard)
    requires LeftBy(was, now, w, s, e) && Missed(was, w, s, e) && !Skipped(was, w, s, e)
    ensures var n := |was|;
            Search(now, w, s, e, reuse).found == Nothing <==>
            Missed(was, w, s, n) && (Skipped(was, w, s, n) ==> NoneOpen(was, w, s, 0))
    decreases |was| - e
  {
    var n := |was|;
    if e < n {
      var i := Wrap(s, e, n);
      assert Place(now, s, e) == Place(was, s, e);
      if was[i].space != Hard {
        LeftSame(was, now, w, s, e);
        FirstTurn(was, now, w, s, e + 1, reuse);
      } else if !Succeeds(w.hard(i)) {
        HardDrops(now, i);
        if e + 2 <= n {
          LeftOn(was, now, w, s, e, e + 2);
          assert Tried(was, w, s, e) && Skipped(was, w, s, e + 1);
          assert e + 1 < n ==> !Tried(was, w, s, e + 1);
          FirstTurn(was, MarkFull(now, i), w, s, e + 2, reuse);
        } else {
          LeftOn(was, now, w, s, e, n);
          LastRefuses(was, MarkFull(now, i), w, s, reuse);
        }
      } else {
        assert CanOpen(was, w, s, e);
      }
    }
  }

  // ----- the second ---------------------------------------------------------------------------------

  /** From place `e` on, a directory with hard space is followed by one without. */
  ghost predicate Sparse(dirs: seq<Dir>, s: nat, e: nat)
    requires s < |dirs|
  {
    forall k :: e <= k < |dirs| && Place(dirs, s, k).space == Hard ==>
      k + 1 < |dirs| && Place(dirs, s, k + 1).space != Hard
  }

  /** What hard space is left after the first turn was passed over. */
  lemma {:induction false} HardIsSkipped(was: seq<Dir>, now: seq<Dir>, w: World, s: nat, k: nat)
    requires s < |was| == |now| && LeftBy(was, now, w, s, |was|) && Missed(was, w, s, |was|)
    requires k < |was| && Place(now, s, k).space == Hard
    ensures Skipped(was, w, s, k) && !Tried(was, w, s, k)
  {
    assert Place(now, s, k) == Left(was, w, s, |was|, k);
    assert CanOpen(was, w, s, k) || Refuses(was, w, s, k);
  }

  /** The search goes on past the start when the last attempt of the first turn fails. */
  lemma {:induction false} LastRefuses(was: seq<Dir>, now: seq<Dir>, w: World, s: nat, reuse: bool)
    requires s < |was| == |now| && LeftBy(was, now, w, s, |was|)
    requires Missed(was, w, s, |was|) && Skipped(was, w, s, |was|)
    ensures Search(now, w, s, 1, reuse).found == Nothing <==> NoneOpen(was, w, s, 0)
  {
    var n := |was|;
    forall k | 0 <= k < n ensures CanOpen(now, w, s, k) <==> CanOpen(was, w, s, k) {
      assert Place(now, s, k) == Left(was, w, s, n, k);
    }
    forall k | 1 <= k < n && Place(now, s, k).space == Hard
      ensures k + 1 < n && Place(now, s, k + 1).space != Hard
    {
      HardIsSkipped(was, now, w, s, k);
      if k + 1 < n && Place(now, s, k + 1).space == Hard {
        HardIsSkipped(was, now, w, s, k + 1);
      }
    }
    assert !Skipped(was, w, s, 0);
    SecondTurn(now, w, s, 1, reuse);
  }

  /** A turn in which a failed attempt passes over nothing. */
  lemma {:induction false} SecondTurn(dirs: seq<Dir>, w: World, s: nat, e: nat, reuse: bool)
    requires s < |dirs| && 0 < e <= |dirs| && Sparse(dirs, s, e)
    ensures Search(dirs, w, s, e, reuse).found == Nothing <==> NoneOpen(dirs, w, s, e)
    decreases |dirs| - e
  {
    var n := |dirs|;
    if e < n {
      var i := Wrap(s, e, n);
      if dirs[i].space != Hard {
        SecondTurn(dirs, w, s, e + 1, reuse);
      } else if !Succeeds(w.hard(i)) {
        var r := MarkFull(dirs, i);
        HardDrops(dirs, i);
        assert Place(dirs, s, e).space == Hard;
        forall k | e < k < n ensures Place(r, s, k) == Place(dirs, s, k) {}
        SecondTurn(r, w, s, e + 2, reuse);
        forall k | e + 2 <= k < n ensures CanOpen(r, w, s, k) <==> CanOpen(dirs, w, s, k) {}
        assert !CanOpen(dirs, w, s, e) && !CanOpen(dirs, w, s, e + 1);
      } else {
        assert CanOpen(dirs, w, s, e);
      }
    }
  }

  /** The search ends without a log exactly when the open log cannot be reused, each directory that could be opened
      comes after an odd row of refusals, and, should the ring end in an odd row, there is none that could be opened. */
  lemma {:induction false} FindsNothingExactly(dirs: seq<Dir>, w: World, s: nat, reuse: bool)
    requires s < |dirs|
    ensures var n := |dirs|;
            Search(dirs, w, s, 0, reuse).found == Nothing <==>
            && !(reuse && dirs[s].space == Hard)
            && (forall k :: 0 <= k < n && CanOpen(dirs, w, s, k) ==>
                  Refusals(dirs, w, s, k) % 2 == 1 && Refusals(dirs, w, s, n) % 2 == 0)
  {
    var n := |dirs|;
    if !(reuse && dirs[s].space == Hard) {
      FirstTurn(dirs, dirs, w, s, 0, reuse);
      SkippedIs(dirs, w, s, n);
      forall k | 0 <= k < n ensures Skipped(dirs, w, s, k) <==> Refusals(dirs, w, s, k) % 2 == 1 {
        SkippedIs(dirs, w, s, k);
      }
    }
  }
}
