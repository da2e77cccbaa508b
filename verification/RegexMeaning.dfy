/** Patterns as trees with a declarative meaning, and what the flat code of a tree does. */
module RegexMeaning {
  import opened RegexSyntax
  import opened RegexSemantics

  datatype Regex =
    | Empty
    | Leaf(p: Piece)
    | Concat(left: Regex, right: Regex)
    | Group(n: byte, body: Regex)

  function Flatten(r: Regex): seq<Piece> {
    match r
    case Empty => []
    case Leaf(p) => [p]
    case Concat(a, b) => Flatten(a) + Flatten(b)
    case Group(n, body) => [Start(n)] + Flatten(body) + [End(n)]
  }

  /** Expression `r` matches the subject from `i` to `j`, extending the captures `c` to `d`. */
  ghost predicate Denotes(r: Regex, s: seq<byte>, i: nat, c: Caps, j: nat, d: Caps)
    requires i < |s|
    decreases r
  {
    match r
    case Empty => j == i && d == c
    case Leaf(p) =>
      if Repeats(p) then d == c && exists k: nat :: Fits(p, s, i, c, k) && j == i + k * Unit(p, s, c)
      else Once(p, s, i, c) == Match(j, d)
    case Concat(a, b) => exists m: nat, e :: m < |s| && Denotes(a, s, i, c, m, e) && Denotes(b, s, m, e, j, d)
    case Group(n, body) =>
      exists e :: Denotes(body, s, i, c.(starts := c.starts[n := i]), j, e) && d == e.(ends := e.ends[n := j])
  }

  // ----- running a concatenation -------------------------------------------------

  lemma {:induction false} RunEnds(ps: seq<Piece>, ks: seq<nat>, s: seq<byte>, i: nat, c: Caps)
    requires i < |s|
    ensures Run(ps, ks, s, i, c).Match? ==> Run(ps, ks, s, i, c).end < |s|
    decreases |ps|
  {
    if ps != [] {
      if Repeats(ps[0]) {
        if ks != [] && Fits(ps[0], s, i, c, ks[0]) {
          FitsInside(ps[0], s, i, c, ks[0]);
          RunEnds(ps[1..], ks[1..], s, i + ks[0] * Unit(ps[0], s, c), c);
        }
      } else {
        var r := Once(ps[0], s, i, c);
        if r.Match? {
          RunEnds(ps[1..], ks, s, r.end, r.caps);
        }
      }
    }
  }

  /** After a match of `ps`, matching `ps + qs` goes on as `qs`. */
  lemma {:induction false} RunJoin(ps: seq<Piece>, qs: seq<Piece>, k1: seq<nat>, k2: seq<nat>,
                                   s: seq<byte>, i: nat, c: Caps)
    requires i < |s| && Run(ps, k1, s, i, c).Match? && Run(ps, k1, s, i, c).end < |s|
    ensures Run(ps + qs, k1 + k2, s, i, c) == Run(qs, k2, s, Run(ps, k1, s, i, c).end, Run(ps, k1, s, i, c).caps)
    decreases |ps|
  {
    hide Fits, Unit, Once;
    if ps == [] {
      assert ps + qs == qs && k1 + k2 == k2;
    } else {
      assert (ps + qs)[0] == ps[0] && (ps + qs)[1..] == ps[1..] + qs;
      if Repeats(ps[0]) {
        assert (k1 + k2)[0] == k1[0] && (k1 + k2)[1..] == k1[1..] + k2;
        FitsInside(ps[0], s, i, c, k1[0]);
        RunJoin(ps[1..], qs, k1[1..], k2, s, i + k1[0] * Unit(ps[0], s, c), c);
      } else {
        var r := Once(ps[0], s, i, c);
        RunJoin(ps[1..], qs, k1, k2, s, r.end, r.caps);
      }
    }
  }

  lemma {:induction false} RunCons(ps: seq<Piece>, k: nat, tail: seq<nat>, s: seq<byte>, i: nat, c: Caps)
    requires i < |s| && ps != [] && Repeats(ps[0]) && Fits(ps[0], s, i, c, k) && i + k * Unit(ps[0], s, c) < |s|
    ensures Run(ps, [k] + tail, s, i, c) == Run(ps[1..], tail, s, i + k * Unit(ps[0], s, c), c)
  {
    assert ([k] + tail)[1..] == tail;
  }

  /** A match of `ps + qs` splits into one of `ps` and one of `qs`. */
  lemma {:induction false} RunSplit(ps: seq<Piece>, qs: seq<Piece>, ks: seq<nat>, s: seq<byte>, i: nat, c: Caps)
    returns (k1: seq<nat>, k2: seq<nat>)
    requires i < |s| && Run(ps + qs, ks, s, i, c).Match?
    ensures ks == k1 + k2 && Run(ps, k1, s, i, c).Match?
    decreases |ps|
  {
    hide Fits, Unit, Once;
    if ps == [] {
      k1, k2 := [], ks;
    } else {
      assert (ps + qs)[0] == ps[0] && (ps + qs)[1..] == ps[1..] + qs;
      if Repeats(ps[0]) {
        FitsInside(ps[0], s, i, c, ks[0]);
        var at := i + ks[0] * Unit(ps[0], s, c);
        var tail;
        tail, k2 := RunSplit(ps[1..], qs, ks[1..], s, at, c);
        k1 := [ks[0]] + tail;
        RunCons(ps, ks[0], tail, s, i, c);
        assert ks == [ks[0]] + ks[1..] == k1 + k2;
      } else {
        var r := Once(ps[0], s, i, c);
        k1, k2 := RunSplit(ps[1..], qs, ks, s, r.end, r.caps);
      }
    }
  }

  /** A concatenation matches through some place in between. */
  lemma {:induction false} MatchesConcat(ps: seq<Piece>, qs: seq<Piece>, s: seq<byte>, i: nat, c: Caps, j: nat, d: Caps)
    requires i < |s|
    ensures Matches(ps + qs, s, i, c, j, d) <==>
            exists m: nat, e :: m < |s| && Matches(ps, s, i, c, m, e) && Matches(qs, s, m, e, j, d)
  {
    if Matches(ps + qs, s, i, c, j, d) {
      var ks :| Run(ps + qs, ks, s, i, c) == Match(j, d);
      var k1, k2 := RunSplit(ps, qs, ks, s, i, c);
      var r := Run(ps, k1, s, i, c);
      RunEnds(ps, k1, s, i, c);
      RunJoin(ps, qs, k1, k2, s, i, c);
      assert r == Match(r.end, r.caps);
      assert Matches(ps, s, i, c, r.end, r.caps) && Matches(qs, s, r.end, r.caps, j, d);
    }
    if exists m: nat, e :: m < |s| && Matches(ps, s, i, c, m, e) && Matches(qs, s, m, e, j, d) {
      var m: nat, e :| m < |s| && Matches(ps, s, i, c, m, e) && Matches(qs, s, m, e, j, d);
      var k1 :| Run(ps, k1, s, i, c) == Match(m, e);
      var k2 :| Run(qs, k2, s, m, e) == Match(j, d);
      RunJoin(ps, qs, k1, k2, s, i, c);
    }
  }

  // ----- the tree and its flat form ------------------------------------------------

  lemma {:induction false} MatchesOne(p: Piece, s: seq<byte>, i: nat, c: Caps, j: nat, d: Caps)
    requires i < |s|
    ensures Matches([p], s, i, c, j, d) <==> Denotes(Leaf(p), s, i, c, j, d)
  {
    if Repeats(p) {
      MatchesRepeat(p, s, i, c, j, d);
    } else {
      var ps, r := [p], Once(p, s, i, c);
      assert ps[1..] == [];
      if Matches(ps, s, i, c, j, d) {
        var ks :| Run(ps, ks, s, i, c) == Match(j, d);
        assert Run(ps[1..], ks, s, r.end, r.caps) == Match(j, d);
      }
      if r == Match(j, d) {
        assert Run(ps, [], s, i, c) == Match(j, d);
      }
    }
  }

  lemma {:induction false} MatchesRepeat(p: Piece, s: seq<byte>, i: nat, c: Caps, j: nat, d: Caps)
    requires i < |s| && Repeats(p)
    ensures Matches([p], s, i, c, j, d) <==>
            d == c && exists k: nat :: Fits(p, s, i, c, k) && j == i + k * Unit(p, s, c)
  {
    var ps := [p];
    assert ps[1..] == [];
    if Matches(ps, s, i, c, j, d) {
      var ks :| Run(ps, ks, s, i, c) == Match(j, d);
      FitsInside(p, s, i, c, ks[0]);
      assert Run(ps[1..], ks[1..], s, i + ks[0] * Unit(p, s, c), c) == Match(j, d);
    }
    if d == c && exists k: nat :: Fits(p, s, i, c, k) && j == i + k * Unit(p, s, c) {
      var k: nat :| Fits(p, s, i, c, k) && j == i + k * Unit(p, s, c);
      assert [k][1..] == [];
      assert Run(ps, [k], s, i, c) == Match(j, d);
    }
  }

  /** The flat form of a tree matches exactly what the tree denotes. */
  lemma {:induction false} FlattenKeepsMeaning(r: Regex, s: seq<byte>, i: nat, c: Caps, j: nat, d: Caps)
    requires i < |s|
    ensures Matches(Flatten(r), s, i, c, j, d) <==> Denotes(r, s, i, c, j, d)
    decreases r
  {
    match r
    case Empty =>
      if j == i && d == c {
        assert Run([], [], s, i, c) == Match(j, d);
      }
    case Leaf(p) => MatchesOne(p, s, i, c, j, d);
    case Concat(a, b) =>
      MatchesConcat(Flatten(a), Flatten(b), s, i, c, j, d);
      forall m: nat, e | m < |s|
        ensures Matches(Flatten(a), s, i, c, m, e) <==> Denotes(a, s, i, c, m, e)
        ensures Matches(Flatten(b), s, m, e, j, d) <==> Denotes(b, s, m, e, j, d)
      {
        FlattenKeepsMeaning(a, s, i, c, m, e);
        FlattenKeepsMeaning(b, s, m, e, j, d);
      }
    case Group(n, body) => GroupKeepsMeaning(n, body, s, i, c, j, d);
  }

  /** Passing the start of a group only notes the place. */
  lemma {:induction false} MatchesStart(n: byte, qs: seq<Piece>, s: seq<byte>, i: nat, c: Caps, j: nat, d: Caps)
    requires i < |s|
    ensures Matches([Start(n)] + qs, s, i, c, j, d) <==> Matches(qs, s, i, c.(starts := c.starts[n := i]), j, d)
  {
    assert ([Start(n)] + qs)[1..] == qs;
    var begun := c.(starts := c.starts[n := i]);
    forall ks ensures Run([Start(n)] + qs, ks, s, i, c) == Run(qs, ks, s, i, begun) {}
  }

  /** Passing the end of a group only notes the place. */
  lemma {:induction false} MatchesEnd(ps: seq<Piece>, n: byte, s: seq<byte>, i: nat, c: Caps, j: nat, d: Caps)
    requires i < |s|
    ensures Matches(ps + [End(n)], s, i, c, j, d) <==>
            exists e :: Matches(ps, s, i, c, j, e) && d == e.(ends := e.ends[n := j])
  {
    MatchesConcat(ps, [End(n)], s, i, c, j, d);
    forall m: nat, e | m < |s|
      ensures Matches([End(n)], s, m, e, j, d) <==> j == m && d == e.(ends := e.ends[n := m])
    {
      MatchesOne(End(n), s, m, e, j, d);
    }
    if exists e :: Matches(ps, s, i, c, j, e) && d == e.(ends := e.ends[n := j]) {
      var e :| Matches(ps, s, i, c, j, e) && d == e.(ends := e.ends[n := j]);
      var ks :| Run(ps, ks, s, i, c) == Match(j, e);
      RunEnds(ps, ks, s, i, c);
    }
  }

  lemma {:induction false} GroupKeepsMeaning(n: byte, body: Regex, s: seq<byte>, i: nat, c: Caps, j: nat, d: Caps)
    requires i < |s|
    ensures Matches(Flatten(Group(n, body)), s, i, c, j, d) <==> Denotes(Group(n, body), s, i, c, j, d)
    decreases Group(n, body), 0
  {
    var inner := Flatten(body);
    var begun := c.(starts := c.starts[n := i]);
    assert Flatten(Group(n, body)) == [Start(n)] + (inner + [End(n)]);
    MatchesStart(n, inner + [End(n)], s, i, c, j, d);
    MatchesEnd(inner, n, s, i, begun, j, d);
    forall e ensures Matches(inner, s, i, begun, j, e) <==> Denotes(body, s, i, begun, j, e) {
      FlattenKeepsMeaning(body, s, i, begun, j, e);
    }
  }
}
