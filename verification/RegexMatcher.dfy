/** The matcher: interprets compiled code over a NUL-terminated subject. */
module RegexMatcher {
  import opened RegexSyntax
  import opened RegexSemantics

  // ----- code of pieces ----------------------------------------------------------

  function PieceOp(p: Piece): byte {
    match p
    case Single(a) => AtomOp(a)
    case Many(a) => OrStar(AtomOp(a))
    case Between(a, _, _) => OrRnge(AtomOp(a))
    case AtEnd => CDOL
    case Start(_) => CBRA
    case End(_) => CKET
    case Ref(_) => CBACK
    case Refs(_) => OrStar(CBACK)
  }

  function PieceArgs(p: Piece): seq<byte> {
    match p
    case Single(a) => AtomArgs(a)
    case Many(a) => AtomArgs(a)
    case Between(a, lo, hi) => AtomArgs(a) + [lo, hi]
    case AtEnd => []
    case Start(n) => [n]
    case End(n) => [n]
    case Ref(n) => [n]
    case Refs(n) => [n]
  }

  function EncodePieces(ps: seq<Piece>): seq<byte> {
    if ps == [] then [] else [PieceOp(ps[0])] + PieceArgs(ps[0]) + EncodePieces(ps[1..])
  }

  /** The code at `ep` is that of `ps`, with the end mark after it. */
  ghost predicate CodeAt(code: seq<byte>, ep: nat, ps: seq<Piece>) {
    ep <= |code| && code[ep..] == EncodePieces(ps) + [CCEOF]
  }

  /** The code at `ep` starts with the operation code and the arguments of `ps[0]`, then comes the rest. */
  lemma {:induction false} CodeSplit(code: seq<byte>, ep: nat, ps: seq<Piece>)
    requires CodeAt(code, ep, ps)
    ensures ep < |code|
    ensures ps == [] ==> code[ep] == CCEOF
    ensures ps != [] ==>
              && code[ep] == PieceOp(ps[0])
              && ep + 1 + |PieceArgs(ps[0])| <= |code|
              && code[ep + 1..ep + 1 + |PieceArgs(ps[0])|] == PieceArgs(ps[0])
              && CodeAt(code, ep + 1 + |PieceArgs(ps[0])|, ps[1..])
  {
    hide PieceOp, PieceArgs;
    var here := code[ep..];
    if ps != [] {
      var args, rest := PieceArgs(ps[0]), EncodePieces(ps[1..]) + [CCEOF];
      assert here == [PieceOp(ps[0])] + (args + rest);
      assert code[ep + 1..] == here[1..] == args + rest;
      assert code[ep + 1..ep + 1 + |args|] == here[1..][..|args|];
      assert code[ep + 1 + |args|..] == here[1..][|args|..];
    } else {
      assert here == [CCEOF];
    }
  }

  lemma {:induction false} AtomOps(a: Atom)
    ensures IsAtomOp(AtomOp(a)) && |AtomArgs(a)| == Width(AtomOp(a))
  {}

  /** Setting the star bit of an operation code is what starring its piece means. */
  lemma {:induction false} StarOp(base: Item)
    requires Meaning(Star(base)).Some?
    ensures var p, q := Meaning(base).value, Meaning(Star(base)).value;
            PieceOp(q) == OrStar(PieceOp(p)) && PieceArgs(q) == PieceArgs(p)
  {
    var p := Meaning(base).value;
    if !p.Ref? && !p.Refs? {
      AtomOps(p.a);
    }
  }

  lemma {:induction false} RngeOp(base: Item, lo: byte, hi: byte)
    requires Meaning(Rnge(base, lo, hi)).Some?
    ensures var p, q := Meaning(base).value, Meaning(Rnge(base, lo, hi)).value;
            PieceOp(q) == OrRnge(PieceOp(p)) && PieceArgs(q) == PieceArgs(p) + [lo, hi]
  {
    AtomOps(Meaning(base).value.a);
  }

  /** The code an item compiles to is that of the piece it stands for. */
  lemma {:induction false} EncodeMeaning(it: Item)
    requires Meaning(it).Some?
    ensures Encode(it) == [PieceOp(Meaning(it).value)] + PieceArgs(Meaning(it).value)
  {
    match it
    case Star(base) =>
      EncodeMeaning(base);
      StarOp(base);
    case Rnge(base, lo, hi) =>
      EncodeMeaning(base);
      RngeOp(base, lo, hi);
      var p := Meaning(base).value;
      assert Encode(base)[0 := OrRnge(PieceOp(p))] == [OrRnge(PieceOp(p))] + PieceArgs(p);
    case _ =>
  }

  lemma {:induction false} EncodePiecesAppend(ps: seq<Piece>, p: Piece)
    ensures EncodePieces(ps + [p]) == EncodePieces(ps) + ([PieceOp(p)] + PieceArgs(p))
  {
    if ps == [] {
      assert ps + [p] == [p];
    } else {
      var head, rest, last := [PieceOp(ps[0])] + PieceArgs(ps[0]), EncodePieces(ps[1..]), [PieceOp(p)] + PieceArgs(p);
      EncodePiecesAppend(ps[1..], p);
      assert (ps + [p])[0] == ps[0] && (ps + [p])[1..] == ps[1..] + [p];
      assert head + (rest + last) == (head + rest) + last;
    }
  }

  lemma {:induction false} EncodeMeanings(items: seq<Item>)
    requires AllMeaningful(items)
    ensures EncodeAll(items) == EncodePieces(Meanings(items))
  {
    if items != [] {
      var front, it := items[..|items| - 1], items[|items| - 1];
      EncodeMeanings(front);
      EncodeMeaning(it);
      EncodePiecesAppend(Meanings(front), Meaning(it).value);
      MeaningsLast(items);
    }
  }

  /** An operation code tells what kind of piece it belongs to. */
  lemma {:induction false} OpKinds(p: Piece)
    ensures PieceOp(p) != CCEOF
    ensures PieceOp(p) == CDOL <==> p.AtEnd?
    ensures PieceOp(p) == CBRA <==> p.Start?
    ensures PieceOp(p) == CKET <==> p.End?
    ensures PieceOp(p) == CBACK <==> p.Ref?
    ensures PieceOp(p) == OrStar(CBACK) <==> p.Refs?
    ensures Repeats(p) <==> PieceOp(p) % 2 == 1
    ensures p.Single? ==> PieceOp(p) % 4 == 0 && PieceOp(p) == AtomOp(p.a)
    ensures p.Many? ==> PieceOp(p) % 4 == 1 && PieceOp(p) - 1 == AtomOp(p.a)
    ensures p.Between? ==> PieceOp(p) % 4 == 3 && PieceOp(p) - 3 == AtomOp(p.a)
  {
    if p.Single? || p.Many? || p.Between? {
      AtomOps(p.a);
    }
  }

  // ----- testing one character ---------------------------------------------------

  predicate IsAtomOp(op: byte) {
    op == CCHR || op == CDOT || op == CCL || op == CXCL || op == NCCL
  }

  function Width(op: byte): nat
    requires IsAtomOp(op)
  {
    if op == CCHR then 1 else if op == CDOT then 0 else if op == CXCL then 32 else 16
  }

  /** The test the matcher makes on one character, for the operation whose arguments are at `ep`. */
  predicate Hit(code: seq<byte>, op: byte, ep: nat, c: byte)
    requires IsAtomOp(op) && ep + Width(op) <= |code|
  {
    if op == CCHR then code[ep] == c
    else if op == CDOT then c != 0
    else if op == CXCL then IsThere(code[ep..ep + 32], c)
    else if op == CCL then c < 128 && IsThere(code[ep..ep + 16], c)
    else !(c < 128 && IsThere(code[ep..ep + 16], c))
  }

  ghost predicate ArgsAt(code: seq<byte>, ep: nat, a: Atom) {
    ep + |AtomArgs(a)| <= |code| && code[ep..ep + |AtomArgs(a)|] == AtomArgs(a)
  }

  /** The bounds of an interval follow the arguments of its atom. */
  lemma {:induction false} BetweenArgs(code: seq<byte>, ep: nat, p: Piece)
    requires p.Between? && ep + |PieceArgs(p)| <= |code| && code[ep..ep + |PieceArgs(p)|] == PieceArgs(p)
    ensures ArgsAt(code, ep, p.a) && |PieceArgs(p)| == |AtomArgs(p.a)| + 2
    ensures IsAtomOp(AtomOp(p.a)) && |AtomArgs(p.a)| == Width(AtomOp(p.a))
    ensures code[ep + |AtomArgs(p.a)|] == p.lo && code[ep + |AtomArgs(p.a)| + 1] == p.hi
  {
    var args := code[ep..ep + |PieceArgs(p)|];
    var k := |AtomArgs(p.a)|;
    assert args[..k] == AtomArgs(p.a) && args[k] == p.lo && args[k + 1] == p.hi;
    assert code[ep..ep + k] == args[..k];
    AtomOps(p.a);
  }

  /** The code of a starred atom: its map or character, then the rest. */
  lemma {:induction false} StarCode(code: seq<byte>, ep: nat, ps: seq<Piece>)
    requires ep > 0 && CodeAt(code, ep - 1, ps) && ps != [] && ps[0].Many?
    ensures ep <= |code| && code[ep - 1] - 1 == AtomOp(ps[0].a) && IsAtomOp(AtomOp(ps[0].a))
    ensures ArgsAt(code, ep, ps[0].a) && CodeAt(code, ep + Width(AtomOp(ps[0].a)), ps[1..])
  {
    CodeSplit(code, ep - 1, ps);
    OpKinds(ps[0]);
    AtomOps(ps[0].a);
  }

  /** The code of an atom with an interval: its map or character, the bounds, then the rest. */
  lemma {:induction false} RngeCode(code: seq<byte>, ep: nat, ps: seq<Piece>)
    requires ep > 0 && CodeAt(code, ep - 1, ps) && ps != [] && ps[0].Between?
    ensures ep <= |code| && code[ep - 1] - 3 == AtomOp(ps[0].a) && IsAtomOp(AtomOp(ps[0].a))
    ensures ArgsAt(code, ep, ps[0].a)
    ensures var at := ep + Width(AtomOp(ps[0].a));
            at + 1 < |code| && code[at] == ps[0].lo && code[at + 1] == ps[0].hi && CodeAt(code, at + 2, ps[1..])
  {
    CodeSplit(code, ep - 1, ps);
    OpKinds(ps[0]);
    BetweenArgs(code, ep, ps[0]);
  }

  predicate NamesGroup(p: Piece) {
    p.Start? || p.End? || p.Ref? || p.Refs?
  }

  /** The code of an operation on a group: its number, then the rest. */
  lemma {:induction false} GroupCode(code: seq<byte>, ep: nat, ps: seq<Piece>)
    requires ep > 0 && CodeAt(code, ep - 1, ps) && ps != [] && NamesGroup(ps[0])
    ensures ep < |code| && code[ep - 1] == PieceOp(ps[0]) && code[ep] == ps[0].n && CodeAt(code, ep + 1, ps[1..])
  {
    hide EncodePieces, AtomArgs;
    CodeSplit(code, ep - 1, ps);
    assert code[ep] == code[ep..ep + 1][0];
  }

  /** A group closed on the way here lies before this place. */
  lemma {:induction false} CapturedText(s: seq<byte>, caps: Caps, n: byte, i: nat)
    requires CapsOk(caps, i) && i < |s| && n in caps.ends
    ensures caps.starts[n] <= caps.ends[n] <= i
    ensures Captured(s, caps, n) == s[caps.starts[n]..caps.ends[n]]
  {}

  /** Both sizes of bit map, complemented or not, decode to the set the class denotes. */
  lemma {:induction false} HitIsAccepts(code: seq<byte>, ep: nat, a: Atom, c: byte)
    requires ArgsAt(code, ep, a) && Proper(a)
    ensures IsAtomOp(AtomOp(a)) && |AtomArgs(a)| == Width(AtomOp(a))
    ensures Hit(code, AtomOp(a), ep, c) <==> Accepts(a, c)
  {}

  /** Skips the characters the operation at `ep` accepts, and the one after them. */
  method ScanStar(s: seq<byte>, code: seq<byte>, op: byte, ep: nat, lp: nat, ghost a: Atom) returns (after: nat)
    requires Subject(s) && lp < |s|
    requires ArgsAt(code, ep, a) && Proper(a) && op == AtomOp(a)
    ensures after == lp + Span(a, s, lp) + 1
  {
    after := lp;
    var c := s[after];
    after := after + 1;
    HitIsAccepts(code, ep, a, c);
    while Hit(code, op, ep, c)
      invariant lp < after <= |s| && c == s[after - 1]
      invariant Hit(code, op, ep, c) <==> Accepts(a, c)
      invariant AcceptsAll(a, s, lp, after - 1 - lp)
      decreases |s| - after
    {
      c := s[after];
      after := after + 1;
      HitIsAccepts(code, ep, a, c);
    }
    SpanIs(a, s, lp, after - 1 - lp);
  }

  lemma {:induction false} SpanIs(a: Atom, s: seq<byte>, i: nat, k: nat)
    requires AcceptsAll(a, s, i, k) && !Accepts(a, s[i + k])
    ensures Span(a, s, i) == k
  {
    SpanLongest(a, s, i, k);
    SpanLongest(a, s, i, k + 1);
  }

  /** The comparison `strncmp(bbeg, lp, ct) == 0`: it stops at a difference and at a NUL. */
  method Ecmp(s: seq<byte>, bbeg: nat, lp: nat, ct: nat) returns (eq: bool)
    requires Subject(s) && lp < |s| && bbeg + ct < |s|
    ensures eq <==> TextAt(s, lp, s[bbeg..bbeg + ct])
  {
    ghost var w := s[bbeg..bbeg + ct];
    var k := 0;
    while k < ct
      invariant 0 <= k <= ct && lp + k < |s|
      invariant s[lp..lp + k] == w[..k]
    {
      assert w[..k + 1] == w[..k] + [w[k]] && w[k] == s[bbeg + k];
      assert s[lp..lp + k + 1] == s[lp..lp + k] + [s[lp + k]];
      if s[bbeg + k] != s[lp + k] {
        assert lp + ct < |s| ==> s[lp..lp + ct][k] != w[k];
        return false;
      }
      k := k + 1;
    }
    assert w[..ct] == w;
    return true;
  }
}
