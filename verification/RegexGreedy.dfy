/** The greedy search finds a match exactly when there is one, and the lexicographically greatest one. */
module RegexGreedy {
  import opened RegexSyntax
  import opened RegexSemantics

  /** Lexicographic order on repetition counts. */
  predicate LexLe(a: seq<nat>, b: seq<nat>) {
    if a == [] || b == [] then a == [] && b == []
    else a[0] < b[0] || (a[0] == b[0] && LexLe(a[1..], b[1..]))
  }

  ghost predicate NoRun(ps: seq<Piece>, s: seq<byte>, i: nat, caps: Caps)
    requires i < |s|
  {
    forall ks :: !Run(ps, ks, s, i, caps).Match?
  }

  /** `r` is the result of counts `ks`, and no greater counts match. */
  ghost predicate Greatest(ps: seq<Piece>, s: seq<byte>, i: nat, caps: Caps, ks: seq<nat>, r: Outcome)
    requires i < |s|
  {
    && r.Match? && Run(ps, ks, s, i, caps) == r
    && forall ks' :: Run(ps, ks', s, i, caps).Match? ==> LexLe(ks', ks)
  }

  /** The counts behind the greedy result. */
  lemma {:induction false} GreedyGreatest(ps: seq<Piece>, s: seq<byte>, i: nat, caps: Caps) returns (ks: seq<nat>)
    requires i < |s|
    ensures Greedy(ps, s, i, caps).Match? ==> Greatest(ps, s, i, caps, ks, Greedy(ps, s, i, caps))
    ensures Greedy(ps, s, i, caps).NoMatch? ==> NoRun(ps, s, i, caps)
    decreases |ps|, 0
  {
    ks := [];
    if ps == [] {
      return;
    }
    var p, rest := ps[0], ps[1..];
    if Repeats(p) {
      if Unit(p, s, caps) > 0 {
        ks := GiveBackGreatest(ps, s, i, caps, Most(p, s, i, caps));
      }
      return;
    }
    var r := Once(p, s, i, caps);
    if r.Match? {
      ks := GreedyGreatest(rest, s, r.end, r.caps);
    }
  }

  /** A match with a repeated first piece: its count is allowed, and the rest matches after it. */
  lemma {:induction false} RunRepeat(ps: seq<Piece>, ks: seq<nat>, s: seq<byte>, i: nat, caps: Caps)
    requires i < |s| && ps != [] && Repeats(ps[0]) && Unit(ps[0], s, caps) > 0
    requires Run(ps, ks, s, i, caps).Match?
    ensures ks != [] && Fewest(ps[0]) <= ks[0] <= Most(ps[0], s, i, caps)
    ensures i + ks[0] * Unit(ps[0], s, caps) < |s|
    ensures Run(ps[1..], ks[1..], s, i + ks[0] * Unit(ps[0], s, caps), caps) == Run(ps, ks, s, i, caps)
  {
    FitsRange(ps[0], s, i, caps, ks[0]);
  }

  /** No match repeats the first piece `k` times when the rest does not match after that. */
  lemma {:induction false} CountFails(ps: seq<Piece>, s: seq<byte>, i: nat, caps: Caps, k: nat)
    requires i < |s| && ps != [] && Repeats(ps[0]) && Unit(ps[0], s, caps) > 0
    requires i + k * Unit(ps[0], s, caps) < |s| && NoRun(ps[1..], s, i + k * Unit(ps[0], s, caps), caps)
    ensures forall ks :: Run(ps, ks, s, i, caps).Match? ==> ks[0] != k
  {
    forall ks | Run(ps, ks, s, i, caps).Match? ensures ks != [] && ks[0] != k {
      RunRepeat(ps, ks, s, i, caps);
    }
  }

  /** Counts that start with `k` are greatest among those that start with no more, when the others are for the rest. */
  lemma {:induction false} CountSucceeds(ps: seq<Piece>, s: seq<byte>, i: nat, caps: Caps, k: nat, tail: seq<nat>,
                                         r: Outcome)
    requires i < |s| && ps != [] && Repeats(ps[0]) && Unit(ps[0], s, caps) > 0
    requires Fewest(ps[0]) <= k <= Most(ps[0], s, i, caps)
    requires i + k * Unit(ps[0], s, caps) < |s|
    requires Greatest(ps[1..], s, i + k * Unit(ps[0], s, caps), caps, tail, r)
    ensures Run(ps, [k] + tail, s, i, caps) == r
    ensures forall ks :: Run(ps, ks, s, i, caps).Match? && ks[0] <= k ==> LexLe(ks, [k] + tail)
  {
    FitsRange(ps[0], s, i, caps, k);
    assert ([k] + tail)[1..] == tail;
    forall ks | Run(ps, ks, s, i, caps).Match? ensures ks != [] && (ks[0] <= k ==> LexLe(ks, [k] + tail)) {
      RunRepeat(ps, ks, s, i, caps);
    }
  }

  /** As above, for a repeated first piece whose count is at most `k`. */
  lemma {:induction false} GiveBackGreatest(ps: seq<Piece>, s: seq<byte>, i: nat, caps: Caps, k: int)
    returns (ks: seq<nat>)
    requires i < |s| && ps != [] && Repeats(ps[0]) && Unit(ps[0], s, caps) > 0
    requires k <= Most(ps[0], s, i, caps)
    ensures GiveBack(ps, s, i, caps, k).Match? ==>
              && Run(ps, ks, s, i, caps) == GiveBack(ps, s, i, caps, k)
              && forall ks' :: Run(ps, ks', s, i, caps).Match? && ks'[0] <= k ==> LexLe(ks', ks)
    ensures GiveBack(ps, s, i, caps, k).NoMatch? ==>
              forall ks' :: Run(ps, ks', s, i, caps).Match? ==> ks'[0] > k
    decreases |ps| - 1, 1, k
  {
    ks := [];
    if k < Fewest(ps[0]) {
      forall ks' | Run(ps, ks', s, i, caps).Match? ensures ks' != [] && ks'[0] > k {
        RunRepeat(ps, ks', s, i, caps);
      }
      return;
    }
    FitsRange(ps[0], s, i, caps, k);
    var at := i + k * Unit(ps[0], s, caps);
    var tail := GreedyGreatest(ps[1..], s, at, caps);
    var r := Greedy(ps[1..], s, at, caps);
    if r.NoMatch? {
      ks := GiveBackGreatest(ps, s, i, caps, k - 1);
      CountFails(ps, s, i, caps, k);
    } else if r.Match? {
      ks := [k] + tail;
      CountSucceeds(ps, s, i, caps, k, tail, r);
    }
  }

  /** The search succeeds exactly when some repetition counts match, and its result is one of theirs. */
  lemma {:induction false} GreedyDecidesMatching(ps: seq<Piece>, s: seq<byte>, i: nat, caps: Caps)
    requires i < |s| && !Greedy(ps, s, i, caps).Loops?
    ensures Greedy(ps, s, i, caps).Match? <==> exists j, caps' :: Matches(ps, s, i, caps, j, caps')
    ensures Greedy(ps, s, i, caps).Match? ==>
              Matches(ps, s, i, caps, Greedy(ps, s, i, caps).end, Greedy(ps, s, i, caps).caps)
  {
    var ks := GreedyGreatest(ps, s, i, caps);
    var r := Greedy(ps, s, i, caps);
    if r.Match? {
      assert Run(ps, ks, s, i, caps) == Match(r.end, r.caps);
      assert Matches(ps, s, i, caps, r.end, r.caps);
    }
  }

  /** Greatest counts are unique, and so is the match they give. */
  lemma {:induction false} GreatestUnique(ps: seq<Piece>, s: seq<byte>, i: nat, caps: Caps, a: seq<nat>, b: seq<nat>,
                                          r: Outcome, q: Outcome)
    requires i < |s| && Greatest(ps, s, i, caps, a, r) && Greatest(ps, s, i, caps, b, q)
    ensures a == b && r == q
  {
    LexAntisymmetric(a, b);
  }

  lemma {:induction false} LexAntisymmetric(a: seq<nat>, b: seq<nat>)
    requires LexLe(a, b) && LexLe(b, a)
    ensures a == b
  {
    if a != [] {
      LexAntisymmetric(a[1..], b[1..]);
      assert a == [a[0]] + a[1..] && b == [b[0]] + b[1..];
    }
  }

  /** A scan stops at the leftmost place with a match, with the greatest counts there, or there is none. */
  lemma {:induction false} ScanFindsLeftmost(ps: seq<Piece>, s: seq<byte>, i: nat)
    requires i < |s| && !ScanFrom(ps, s, i).Hangs?
    ensures match ScanFrom(ps, s, i)
            case NotFound => forall k :: i <= k < |s| ==> NoRun(ps, s, k, NO_CAPS)
            case FoundAt(start, r) =>
              && i <= start < |s|
              && (exists ks :: Greatest(ps, s, start, NO_CAPS, ks, r))
              && forall k :: i <= k < start ==> NoRun(ps, s, k, NO_CAPS)
    decreases |s| - i
  {
    var ks := GreedyGreatest(ps, s, i, NO_CAPS);
    if Greedy(ps, s, i, NO_CAPS).NoMatch? && i + 1 < |s| {
      ScanFindsLeftmost(ps, s, i + 1);
    }
  }
}
