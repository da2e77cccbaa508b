/** Exactly when the search does not end: it comes to a starred reference to an empty text before any match. */
module RegexEnding {
  import opened RegexSyntax
  import opened RegexSemantics
  import opened RegexGreedy

  /** Repeating the first pieces `ks` times leads to a starred reference to an empty text. */
  predicate Stuck(ps: seq<Piece>, ks: seq<nat>, s: seq<byte>, i: nat, caps: Caps)
    requires i < |s|
  {
    && ps != []
    && if Repeats(ps[0]) then
         if Unit(ps[0], s, caps) == 0 then ks == []
         else
           && ks != [] && Fits(ps[0], s, i, caps, ks[0])
           && (FitsInside(ps[0], s, i, caps, ks[0]);
               Stuck(ps[1..], ks[1..], s, i + ks[0] * Unit(ps[0], s, caps), caps))
       else
         var r := Once(ps[0], s, i, caps);
         r.Match? && Stuck(ps[1..], ks, s, r.end, r.caps)
  }

  /** Where they first differ, `a` has the greater count. */
  predicate LexAhead(a: seq<nat>, b: seq<nat>) {
    a != [] && b != [] && (a[0] > b[0] || (a[0] == b[0] && LexAhead(a[1..], b[1..])))
  }

  /** The counts `ks` get stuck, and no match has greater ones. */
  ghost predicate Unbeaten(ps: seq<Piece>, ks: seq<nat>, s: seq<byte>, i: nat, caps: Caps)
    requires i < |s|
  {
    Stuck(ps, ks, s, i, caps) && forall ks' :: Run(ps, ks', s, i, caps).Match? ==> !LexAhead(ks', ks)
  }

  ghost predicate NoneStuck(ps: seq<Piece>, s: seq<byte>, i: nat, caps: Caps)
    requires i < |s|
  {
    forall ks :: !Stuck(ps, ks, s, i, caps)
  }

  /** What the search yields, in terms of the counts that match and those that get stuck. */
  ghost predicate Explains(ps: seq<Piece>, s: seq<byte>, i: nat, caps: Caps, ks: seq<nat>)
    requires i < |s|
  {
    match Greedy(ps, s, i, caps)
    case Loops => Unbeaten(ps, ks, s, i, caps)
    case NoMatch => NoneStuck(ps, s, i, caps)
    case Match(_, _) =>
      Run(ps, ks, s, i, caps).Match? && forall ks' :: Stuck(ps, ks', s, i, caps) ==> LexAhead(ks, ks')
  }

  /** Counts that get stuck after a repeated first piece. */
  lemma {:induction false} StuckRepeat(ps: seq<Piece>, ks: seq<nat>, s: seq<byte>, i: nat, caps: Caps)
    requires i < |s| && ps != [] && Repeats(ps[0]) && Unit(ps[0], s, caps) > 0 && Stuck(ps, ks, s, i, caps)
    ensures ks != [] && Fewest(ps[0]) <= ks[0] <= Most(ps[0], s, i, caps)
    ensures i + ks[0] * Unit(ps[0], s, caps) < |s|
    ensures Stuck(ps[1..], ks[1..], s, i + ks[0] * Unit(ps[0], s, caps), caps)
  {
    FitsRange(ps[0], s, i, caps, ks[0]);
  }

  /** The search after `k` repetitions of the first piece explains those that begin with `k`. */
  lemma {:induction false} CountStuck(ps: seq<Piece>, s: seq<byte>, i: nat, caps: Caps, k: nat, tail: seq<nat>)
    requires i < |s| && ps != [] && Repeats(ps[0]) && Unit(ps[0], s, caps) > 0
    requires Fewest(ps[0]) <= k <= Most(ps[0], s, i, caps) && i + k * Unit(ps[0], s, caps) < |s|
    requires Unbeaten(ps[1..], tail, s, i + k * Unit(ps[0], s, caps), caps)
    ensures Stuck(ps, [k] + tail, s, i, caps)
    ensures forall ks :: Run(ps, ks, s, i, caps).Match? && ks[0] <= k ==> !LexAhead(ks, [k] + tail)
  {
    FitsRange(ps[0], s, i, caps, k);
    assert ([k] + tail)[1..] == tail;
    forall ks | Run(ps, ks, s, i, caps).Match? ensures ks != [] && (ks[0] <= k ==> !LexAhead(ks, [k] + tail)) {
      RunRepeat(ps, ks, s, i, caps);
    }
  }

  /** A match that begins with `k` is ahead of what gets stuck with no more, when it is so for the rest. */
  lemma {:induction false} CountAhead(ps: seq<Piece>, s: seq<byte>, i: nat, caps: Caps, k: nat, tail: seq<nat>)
    requires i < |s| && ps != [] && Repeats(ps[0]) && Unit(ps[0], s, caps) > 0
    requires Fewest(ps[0]) <= k <= Most(ps[0], s, i, caps) && i + k * Unit(ps[0], s, caps) < |s|
    requires var at := i + k * Unit(ps[0], s, caps);
             Run(ps[1..], tail, s, at, caps).Match?
             && forall ks :: Stuck(ps[1..], ks, s, at, caps) ==> LexAhead(tail, ks)
    ensures Run(ps, [k] + tail, s, i, caps).Match?
    ensures forall ks :: Stuck(ps, ks, s, i, caps) && ks[0] <= k ==> LexAhead([k] + tail, ks)
  {
    FitsRange(ps[0], s, i, caps, k);
    assert ([k] + tail)[1..] == tail;
    forall ks | Stuck(ps, ks, s, i, caps) ensures ks != [] && (ks[0] <= k ==> LexAhead([k] + tail, ks)) {
      StuckRepeat(ps, ks, s, i, caps);
    }
  }

  /** Nothing gets stuck with `k` repetitions when nothing does after them. */
  lemma {:induction false} CountPasses(ps: seq<Piece>, s: seq<byte>, i: nat, caps: Caps, k: nat)
    requires i < |s| && ps != [] && Repeats(ps[0]) && Unit(ps[0], s, caps) > 0
    requires i + k * Unit(ps[0], s, caps) < |s| && NoneStuck(ps[1..], s, i + k * Unit(ps[0], s, caps), caps)
    ensures forall ks :: Stuck(ps, ks, s, i, caps) ==> ks[0] != k
  {
    forall ks | Stuck(ps, ks, s, i, caps) ensures ks != [] && ks[0] != k {
      StuckRepeat(ps, ks, s, i, caps);
    }
  }

  /** As `Explains`, for a first piece repeated at most `k` times. */
  ghost predicate ExplainsUpTo(ps: seq<Piece>, s: seq<byte>, i: nat, caps: Caps, k: int, ks: seq<nat>)
    requires i < |s| && ps != [] && Repeats(ps[0]) && Unit(ps[0], s, caps) > 0 && k <= Most(ps[0], s, i, caps)
  {
    match GiveBack(ps, s, i, caps, k)
    case Loops =>
      Stuck(ps, ks, s, i, caps)
      && forall ks' :: Run(ps, ks', s, i, caps).Match? && ks'[0] <= k ==> !LexAhead(ks', ks)
    case NoMatch => forall ks' :: Stuck(ps, ks', s, i, caps) ==> ks'[0] > k
    case Match(_, _) =>
      Run(ps, ks, s, i, caps).Match?
      && forall ks' :: Stuck(ps, ks', s, i, caps) && ks'[0] <= k ==> LexAhead(ks, ks')
  }

  /** The counts that explain what the search yields. */
  lemma {:induction false} Explain(ps: seq<Piece>, s: seq<byte>, i: nat, caps: Caps) returns (ks: seq<nat>)
    requires i < |s|
    ensures Explains(ps, s, i, caps, ks)
    decreases |ps|, 0
  {
    ks := [];
    if ps == [] {
      return;
    }
    if Repeats(ps[0]) {
      if Unit(ps[0], s, caps) > 0 {
        ks := ExplainUpTo(ps, s, i, caps, Most(ps[0], s, i, caps));
        ExplainedAll(ps, s, i, caps, ks);
      } else {
        NothingAhead(ps, s, i, caps);
      }
      return;
    }
    var r := Once(ps[0], s, i, caps);
    if r.Match? {
      ks := Explain(ps[1..], s, r.end, r.caps);
    }
  }

  lemma {:induction false} NothingAhead(ps: seq<Piece>, s: seq<byte>, i: nat, caps: Caps)
    requires i < |s| && ps != [] && Repeats(ps[0]) && Unit(ps[0], s, caps) == 0
    ensures Unbeaten(ps, [], s, i, caps)
  {}

  /** All counts of the first piece are at most the most that fit. */
  lemma {:induction false} ExplainedAll(ps: seq<Piece>, s: seq<byte>, i: nat, caps: Caps, ks: seq<nat>)
    requires i < |s| && ps != [] && Repeats(ps[0]) && Unit(ps[0], s, caps) > 0
    requires ExplainsUpTo(ps, s, i, caps, Most(ps[0], s, i, caps), ks)
    ensures Explains(ps, s, i, caps, ks)
  {
    forall ks' | Run(ps, ks', s, i, caps).Match? ensures ks' != [] && ks'[0] <= Most(ps[0], s, i, caps) {
      RunRepeat(ps, ks', s, i, caps);
    }
    forall ks' | Stuck(ps, ks', s, i, caps) ensures ks' != [] && ks'[0] <= Most(ps[0], s, i, caps) {
      StuckRepeat(ps, ks', s, i, caps);
    }
  }

  lemma {:induction false} ExplainUpTo(ps: seq<Piece>, s: seq<byte>, i: nat, caps: Caps, k: int) returns (ks: seq<nat>)
    requires i < |s| && ps != [] && Repeats(ps[0]) && Unit(ps[0], s, caps) > 0 && k <= Most(ps[0], s, i, caps)
    ensures ExplainsUpTo(ps, s, i, caps, k, ks)
    decreases |ps| - 1, 1, k
  {
    hide Greedy;
    ks := [];
    if k < Fewest(ps[0]) {
      forall ks' | Stuck(ps, ks', s, i, caps) ensures ks' != [] && ks'[0] > k {
        StuckRepeat(ps, ks', s, i, caps);
      }
      return;
    }
    FitsRange(ps[0], s, i, caps, k);
    var at := i + k * Unit(ps[0], s, caps);
    GiveBackAt(ps, s, i, caps, k, at);
    var tail := Explain(ps[1..], s, at, caps);
    match Greedy(ps[1..], s, at, caps)
    case Loops =>
      ks := [k] + tail;
      CountStuck(ps, s, i, caps, k, tail);
    case Match(_, _) =>
      ks := [k] + tail;
      CountAhead(ps, s, i, caps, k, tail);
    case NoMatch =>
      ks := ExplainUpTo(ps, s, i, caps, k - 1);
      var none := GreedyGreatest(ps[1..], s, at, caps);
      CountPasses(ps, s, i, caps, k);
      CountFails(ps, s, i, caps, k);
      OneLess(ps, s, i, caps, k, ks);
  }

  lemma {:induction false} OneLess(ps: seq<Piece>, s: seq<byte>, i: nat, caps: Caps, k: nat, ks: seq<nat>)
    requires i < |s| && ps != [] && Repeats(ps[0]) && Unit(ps[0], s, caps) > 0
    requires Fewest(ps[0]) <= k <= Most(ps[0], s, i, caps)
    requires GiveBack(ps, s, i, caps, k) == GiveBack(ps, s, i, caps, k - 1)
    requires ExplainsUpTo(ps, s, i, caps, k - 1, ks)
    requires forall ks' :: Stuck(ps, ks', s, i, caps) ==> ks' != [] && ks'[0] != k
    requires forall ks' :: Run(ps, ks', s, i, caps).Match? ==> ks' != [] && ks'[0] != k
    ensures ExplainsUpTo(ps, s, i, caps, k, ks)
  {}

  /** The search does not end if and only if some counts get stuck and no match has greater ones. */
  lemma {:induction false} LoopsExactly(ps: seq<Piece>, s: seq<byte>, i: nat, caps: Caps)
    requires i < |s|
    ensures Greedy(ps, s, i, caps).Loops? <==> exists ks :: Unbeaten(ps, ks, s, i, caps)
  {
    var ks := Explain(ps, s, i, caps);
    if Greedy(ps, s, i, caps).Match? {
      forall ks' | Stuck(ps, ks', s, i, caps) ensures !Unbeaten(ps, ks', s, i, caps) {
        assert Run(ps, ks, s, i, caps).Match? && LexAhead(ks, ks');
      }
    }
  }

  /** The search gets stuck at place `k`, and no place from `i` on before it has a match. */
  ghost predicate StuckAt(ps: seq<Piece>, s: seq<byte>, i: nat, k: nat) {
    && i <= k < |s| && (exists ks :: Unbeaten(ps, ks, s, k, NO_CAPS))
    && forall j :: i <= j < k ==> NoRun(ps, s, j, NO_CAPS)
  }

  /** The scan does not end if and only if it gets stuck at some place. */
  lemma {:induction false} HangsExactly(ps: seq<Piece>, s: seq<byte>, i: nat)
    requires i < |s|
    ensures ScanFrom(ps, s, i).Hangs? <==> exists k: nat :: StuckAt(ps, s, i, k)
    decreases |s| - i
  {
    LoopsExactly(ps, s, i, NO_CAPS);
    var ks := GreedyGreatest(ps, s, i, NO_CAPS);
    if i + 1 < |s| {
      HangsExactly(ps, s, i + 1);
    }
    if ScanFrom(ps, s, i).Hangs? {
      if Greedy(ps, s, i, NO_CAPS).Loops? {
        assert StuckAt(ps, s, i, i);
      } else {
        var k: nat :| StuckAt(ps, s, i + 1, k);
        assert StuckAt(ps, s, i, k);
      }
    }
    if k: nat :| StuckAt(ps, s, i, k) {
      if k > i {
        assert NoRun(ps, s, i, NO_CAPS) && StuckAt(ps, s, i + 1, k);
      }
    }
  }
}
