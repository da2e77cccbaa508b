/** The globals of the matcher and the procedures that use them. */
module RegexAdvance {
  import opened RegexSyntax
  import opened RegexSemantics
  import opened RegexMatcher

  /** `now` holds all captures of `caps`. */
  ghost predicate Extends(now: Caps, caps: Caps) {
    && (forall n :: n in caps.starts ==> n in now.starts && now.starts[n] == caps.starts[n])
    && (forall n :: n in caps.ends ==> n in now.ends && now.ends[n] == caps.ends[n])
  }

  /** How an attempt to match ends: with success or failure, or not within the turns allowed to each loop that steps
      over copies of a group's text. */
  datatype Attempt = Ran(ok: bool) | OutOfTurns

  class Matcher {
    const braslist: array<int>
    const braelist: array<int>
    var loc1: int
    var loc2: int
    var low: int
    var size: int

    ghost predicate Valid() {
      braslist.Length == NBRA && braelist.Length == NBRA && braslist != braelist
    }

    constructor ()
      ensures Valid() && fresh(braslist) && fresh(braelist)
    {
      braslist := new int[NBRA];
      braelist := new int[NBRA];
      loc1, loc2, low, size := 0, 0, 0, 0;
    }

    /** The arrays hold the captures made on the current path; what else they hold does not matter. */
    ghost predicate Remembers(caps: Caps)
      requires Valid()
      reads braslist, braelist
    {
      && (forall n :: n in caps.starts ==> n < NBRA && braslist[n] == caps.starts[n])
      && (forall n :: n in caps.ends ==> n < NBRA && braelist[n] == caps.ends[n])
    }

    /** Reads the two bounds of an interval. */
    method GetRnge(code: seq<byte>, at: nat)
      requires at + 1 < |code|
      modifies this`low, this`size
      ensures low == code[at]
      ensures size == Extra(code[at], code[at + 1])
    {
      low := code[at];
      size := if code[at + 1] == NO_LIMIT then NO_LIMIT_SIZE else code[at + 1] - low;
    }

    /** Takes the lower bound's worth of characters, then as many more as the interval allows. */
    method ScanRnge(s: seq<byte>, code: seq<byte>, op: byte, ep: nat, lp: nat, ghost p: Piece)
      returns (ok: bool, curlp: nat, after: nat)
      requires Subject(s) && lp < |s|
      requires p.Between? && Proper(p.a) && p.lo <= p.hi && p.lo < NO_LIMIT && op == AtomOp(p.a)
      requires ArgsAt(code, ep, p.a)
      requires ep + |AtomArgs(p.a)| + 1 < |code|
      requires code[ep + |AtomArgs(p.a)|] == p.lo && code[ep + |AtomArgs(p.a)| + 1] == p.hi
      modifies this`low, this`size
      ensures ok <==> p.lo <= Span(p.a, s, lp)
      ensures ok ==> curlp == lp + p.lo && after == lp + Most(p, s, lp, NO_CAPS) + 1
    {
      HitIsAccepts(code, ep, p.a, 0);
      GetRnge(code, ep + Width(op));
      ok, curlp, after := true, lp, lp;
      while low != 0
        invariant 0 <= low <= p.lo && size == Extra(p.lo, p.hi)
        invariant after == lp + p.lo - low
        invariant AcceptsAll(p.a, s, lp, after - lp)
        decreases low
      {
        low := low - 1;
        var c := s[after];
        HitIsAccepts(code, ep, p.a, c);
        after := after + 1;
        if !Hit(code, op, ep, c) {
          SpanIs(p.a, s, lp, after - 1 - lp);
          ok := false;
          return;
        }
      }
      low := low - 1;
      curlp := after;
      after := TakeMore(s, code, op, ep, lp, p, curlp);
    }

    method TakeMore(s: seq<byte>, code: seq<byte>, op: byte, ep: nat, ghost lp: nat, ghost p: Piece, curlp: nat)
      returns (after: nat)
      requires Subject(s) && lp <= curlp < |s|
      requires p.Between? && Proper(p.a) && op == AtomOp(p.a) && ArgsAt(code, ep, p.a)
      requires curlp == lp + p.lo && AcceptsAll(p.a, s, lp, p.lo)
      requires size == Extra(p.lo, p.hi) >= 0
      modifies this`size
      ensures after == lp + Most(p, s, lp, NO_CAPS) + 1
    {
      HitIsAccepts(code, ep, p.a, 0);
      after := curlp;
      while true
        invariant 0 <= size <= Extra(p.lo, p.hi)
        invariant after == curlp + Extra(p.lo, p.hi) - size
        invariant AcceptsAll(p.a, s, lp, after - lp)
        decreases size
      {
        if size == 0 {
          size := size - 1;
          break;
        }
        size := size - 1;
        var c := s[after];
        HitIsAccepts(code, ep, p.a, c);
        after := after + 1;
        if !Hit(code, op, ep, c) {
          SpanIs(p.a, s, lp, after - 1 - lp);
          break;
        }
      }
      if size < 0 {
        SpanLongest(p.a, s, lp, after - lp);
        after := after + 1;
      }
    }
  
    /** The state in which `ps` is to be matched at `lp`, after the groups in `caps` were passed. */
    ghost predicate Ready(s: seq<byte>, code: seq<byte>, lp: nat, ep: nat, ps: seq<Piece>, caps: Caps)
      requires Valid()
      reads braslist, braelist
    {
      && lp < |s| && CodeAt(code, ep, ps)
      && WellFormed(ps, caps.starts.Keys, caps.ends.Keys)
      && CapsOk(caps, lp) && Remembers(caps)
    }

    /** The outcome of an attempt: what the greedy search yields from the captures of this path alone. */
    ghost predicate Delivers(ok: bool, r: Outcome, caps: Caps)
      requires Valid()
      reads this, braslist, braelist
    {
      && !r.Loops? && (ok <==> r.Match?)
      && (ok ==> loc2 == r.end && Remembers(r.caps))
      && Remembers(caps)
    }

    /** As above, when each loop over copies may take `turns` turns: whatever their number, they do not suffice if the
        greedy search does not end; if it ends, as many turns as the subject is long do. */
    ghost predicate Yields(a: Attempt, r: Outcome, caps: Caps, turns: nat, s: seq<byte>)
      requires Valid()
      reads this, braslist, braelist
    {
      match a
      case OutOfTurns => r.Loops? || turns < |s|
      case Ran(ok) => Delivers(ok, r, caps)
    }

    /** The loop at the label `star`: gives back one character at a time. */
    method Backtrack(s: seq<byte>, code: seq<byte>, after: nat, curlp: nat, ep: nat,
                     ghost ps: seq<Piece>, ghost i: nat, ghost caps: Caps, turns: nat) returns (r: Attempt)
      requires Valid() && Subject(s) && i < |s|
      requires ps != [] && Repeats(ps[0]) && !ps[0].Refs?
      requires curlp == i + Fewest(ps[0]) < after == i + Most(ps[0], s, i, caps) + 1
      requires CodeAt(code, ep, ps[1..]) && WellFormed(ps, caps.starts.Keys, caps.ends.Keys)
      requires CapsOk(caps, i) && Remembers(caps)
      modifies this, braslist, braelist
      ensures Yields(r, Greedy(ps, s, i, caps), caps, turns, s)
      decreases |ps|, 0
    {
      hide Greedy, Span;
      GreedyRepeats(ps, s, i, caps);
      var lp: int := after;
      while true
        invariant curlp < lp <= after
        invariant Remembers(caps)
        invariant GiveBack(ps, s, i, caps, lp - 1 - i) == Greedy(ps, s, i, caps)
        decreases lp
      {
        lp := lp - 1;
        GiveBackAt(ps, s, i, caps, lp - i, lp);
        r := Advance(s, code, lp, ep, ps[1..], caps, turns);
        if r != Ran(false) || lp <= curlp {
          return;
        }
      }
    }

    /** Matches the code at `ep0` with the subject at `lp0`. */
    method Advance(s: seq<byte>, code: seq<byte>, lp0: nat, ep0: nat, ghost ps: seq<Piece>, ghost caps: Caps,
                   turns: nat)
      returns (r: Attempt)
      requires Valid() && Subject(s) && Ready(s, code, lp0, ep0, ps, caps)
      modifies this, braslist, braelist
      ensures Yields(r, Greedy(ps, s, lp0, caps), caps, turns, s)
      decreases |ps|, 3
    {
      var lp: nat, ep: nat := lp0, ep0;
      ghost var q, now := ps, caps;
      while true
        invariant |q| <= |ps|
        invariant Ready(s, code, lp, ep, q, now) && Extends(now, caps)
        invariant Greedy(q, s, lp, now) == Greedy(ps, s, lp0, caps)
        decreases |q|
      {
        CodeSplit(code, ep, q);
        var op := code[ep];
        ep := ep + 1;
        if op == CCEOF {
          if q != [] {
            OpKinds(q[0]);
          }
          loc2 := lp;
          return Ran(true);
        }
        OpKinds(q[0]);
        if op % 2 == 1 {
          r := Repeat(s, code, op, lp, ep, q, now, turns);
          return;
        }
        var passed: bool;
        passed, lp, ep, now := Pass(s, code, op, lp, ep, q, now);
        if !passed {
          return Ran(false);
        }
        q := q[1..];
      }
    }

    /** A repeated operation, its code `op` already read. */
    method Repeat(s: seq<byte>, code: seq<byte>, op: byte, lp: nat, ep: nat, ghost q: seq<Piece>, ghost caps: Caps,
                  turns: nat)
      returns (r: Attempt)
      requires Valid() && Subject(s) && ep > 0 && Ready(s, code, lp, ep - 1, q, caps)
      requires q != [] && code[ep - 1] == op == PieceOp(q[0]) && Repeats(q[0])
      modifies this, braslist, braelist
      ensures Yields(r, Greedy(q, s, lp, caps), caps, turns, s)
      decreases |q|, 2
    {
      OpKinds(q[0]);
      if op == OrStar(CBACK) {
        GroupCode(code, ep, q);
        r := BacktrackRefs(s, code, lp, code[ep], ep + 1, q, caps, turns);
      } else if op % 4 == 1 {
        r := RepeatStar(s, code, op, lp, ep, q, caps, turns);
      } else {
        r := RepeatRnge(s, code, op, lp, ep, q, caps, turns);
      }
    }

    method RepeatStar(s: seq<byte>, code: seq<byte>, op: byte, lp: nat, ep: nat, ghost q: seq<Piece>, ghost caps: Caps,
                      turns: nat)
      returns (r: Attempt)
      requires Valid() && Subject(s) && ep > 0 && Ready(s, code, lp, ep - 1, q, caps)
      requires q != [] && code[ep - 1] == op == PieceOp(q[0]) && q[0].Many?
      modifies this, braslist, braelist
      ensures Yields(r, Greedy(q, s, lp, caps), caps, turns, s)
      decreases |q|, 1
    {
      StarCode(code, ep, q);
      var after := ScanStar(s, code, op - 1, ep, lp, q[0].a);
      r := Backtrack(s, code, after, lp, ep + Width(op - 1), q, lp, caps, turns);
    }

    method RepeatRnge(s: seq<byte>, code: seq<byte>, op: byte, lp: nat, ep: nat, ghost q: seq<Piece>, ghost caps: Caps,
                      turns: nat)
      returns (r: Attempt)
      requires Valid() && Subject(s) && ep > 0 && Ready(s, code, lp, ep - 1, q, caps)
      requires q != [] && code[ep - 1] == op == PieceOp(q[0]) && q[0].Between?
      modifies this, braslist, braelist
      ensures Yields(r, Greedy(q, s, lp, caps), caps, turns, s)
      decreases |q|, 1
    {
      RngeCode(code, ep, q);
      var fits, curlp, after := ScanRnge(s, code, op - 3, ep, lp, q[0]);
      if !fits {
        return Ran(false);
      }
      r := Backtrack(s, code, after, curlp, ep + Width(op - 3) + 2, q, lp, caps, turns);
    }

    /** Passes an operation that is not repeated, its code `op` already read, or fails. */
    method Pass(s: seq<byte>, code: seq<byte>, op: byte, lp: nat, ep: nat, ghost q: seq<Piece>, ghost caps: Caps)
      returns (ok: bool, lp': nat, ep': nat, ghost now: Caps)
      requires Valid() && Subject(s) && ep > 0 && Ready(s, code, lp, ep - 1, q, caps)
      requires q != [] && code[ep - 1] == op == PieceOp(q[0])
      requires !Repeats(q[0])
      modifies braslist, braelist
      ensures ok ==> Ready(s, code, lp', ep', q[1..], now) && Extends(now, caps)
      ensures ok ==> Greedy(q[1..], s, lp', now) == Greedy(q, s, lp, caps)
      ensures !ok ==> Greedy(q, s, lp, caps).NoMatch? && Remembers(caps)
    {
      OpKinds(q[0]);
      if op == CBRA || op == CKET {
        ok, lp', ep', now := PassGroup(s, code, op, lp, ep, q, caps);
      } else if op == CBACK {
        ok, lp', ep' := PassRef(s, code, op, lp, ep, q, caps);
        now := caps;
      } else {
        ok, lp', ep' := PassAtom(s, code, op, lp, ep, q, caps);
        now := caps;
      }
    }

    /** Notes where a group starts or ends. */
    method PassGroup(s: seq<byte>, code: seq<byte>, op: byte, lp: nat, ep: nat, ghost q: seq<Piece>, ghost caps: Caps)
      returns (ok: bool, lp': nat, ep': nat, ghost now: Caps)
      requires Valid() && Subject(s) && ep > 0 && Ready(s, code, lp, ep - 1, q, caps)
      requires q != [] && code[ep - 1] == op == PieceOp(q[0])
      requires q[0].Start? || q[0].End?
      modifies braslist, braelist
      ensures ok ==> Ready(s, code, lp', ep', q[1..], now) && Extends(now, caps)
      ensures ok ==> Greedy(q[1..], s, lp', now) == Greedy(q, s, lp, caps)
      ensures !ok ==> Greedy(q, s, lp, caps).NoMatch? && Remembers(caps)
    {
      hide Greedy, WellFormed, CapsOk, Once, PieceArgs, EncodePieces, AtomArgs;
      GroupCode(code, ep, q);
      OpKinds(q[0]);
      GroupStep(q, s, lp, caps);
      now := Noted(q[0], lp, caps);
      ok, lp', ep' := true, lp, ep + 1;
      if op == CBRA {
        braslist[code[ep]] := lp;
      } else {
        braelist[code[ep]] := lp;
      }
    }

    /** Compares the subject with an atom or the end mark. */
    method PassAtom(s: seq<byte>, code: seq<byte>, op: byte, lp: nat, ep: nat, ghost q: seq<Piece>, ghost caps: Caps)
      returns (ok: bool, lp': nat, ep': nat)
      requires Valid() && Subject(s) && ep > 0 && Ready(s, code, lp, ep - 1, q, caps)
      requires q != [] && code[ep - 1] == op == PieceOp(q[0]) && (q[0].Single? || q[0].AtEnd?)
      ensures ok ==> Ready(s, code, lp', ep', q[1..], caps)
      ensures ok ==> Greedy(q[1..], s, lp', caps) == Greedy(q, s, lp, caps)
      ensures !ok ==> Greedy(q, s, lp, caps).NoMatch?
    {
      hide Greedy, Hit, Accepts, ArgsAt, PieceArgs, AtomArgs, EncodePieces;
      OpKinds(q[0]);
      ok, lp', ep' := true, lp, ep;
      if op == CDOL {
        EndCode(code, ep, q);
        GreedyAtEnd(q, s, lp, caps);
        ok := s[lp] == 0;
      } else {
        AtomCode(code, ep, q);
        GreedyAtom(q, s, lp, caps);
        HitIsAccepts(code, ep, q[0].a, s[lp]);
        ok := Hit(code, op, ep, s[lp]);
        lp' := lp + 1;
        ep' := ep + Width(op);
      }
    }

    /** Compares the subject with the text of a group. */
    method PassRef(s: seq<byte>, code: seq<byte>, op: byte, lp: nat, ep: nat, ghost q: seq<Piece>, ghost caps: Caps)
      returns (ok: bool, lp': nat, ep': nat)
      requires Valid() && Subject(s) && ep > 0 && Ready(s, code, lp, ep - 1, q, caps)
      requires q != [] && code[ep - 1] == op == PieceOp(q[0]) && (q[0].Ref?)
      ensures ok ==> Ready(s, code, lp', ep', q[1..], caps)
      ensures ok ==> Greedy(q[1..], s, lp', caps) == Greedy(q, s, lp, caps)
      ensures !ok ==> Greedy(q, s, lp, caps).NoMatch?
    {
      hide Greedy, PieceArgs, EncodePieces, AtomArgs, Captured;
      GroupCode(code, ep, q);
      var ct;
      ok, ct := CompareRef(s, code[ep], lp, q, caps);
      lp', ep' := lp + ct, ep + 1;
    }

    method CompareRef(s: seq<byte>, n: byte, lp: nat, ghost q: seq<Piece>, ghost caps: Caps) returns (ok: bool, ct: nat)
      requires Valid() && Subject(s) && lp < |s| && q != [] && q[0] == Ref(n)
      requires Remembers(caps) && CapsOk(caps, lp) && n in caps.ends
      ensures ok ==> lp + ct < |s| && Greedy(q[1..], s, lp + ct, caps) == Greedy(q, s, lp, caps)
      ensures !ok ==> Greedy(q, s, lp, caps).NoMatch?
    {
      CapturedText(s, caps, n, lp);
      var bbeg := braslist[n];
      ct := braelist[n] - bbeg;
      ok := Ecmp(s, bbeg, lp, ct);
      GreedyRef(q, s, lp, caps, s[bbeg..bbeg + ct]);
    }

    /** Searches the subject from `p1` on; an anchored pattern is tried only there. */
    method Step(s: seq<byte>, p1: nat, code: seq<byte>, circf: bool, ghost ps: seq<Piece>, turns: nat)
      returns (r: Attempt)
      requires Valid() && Subject(s) && p1 < |s|
      requires CodeAt(code, 0, ps) && WellFormed(ps, {}, {})
      modifies this, braslist, braelist
      ensures circf ==> Yields(r, Greedy(ps, s, p1, NO_CAPS), NO_CAPS, turns, s) && loc1 == p1
      ensures !circf && r.OutOfTurns? ==> ScanFrom(ps, s, p1).Hangs? || turns < |s|
      ensures !circf && r.Ran? ==> !ScanFrom(ps, s, p1).Hangs? && (r.ok <==> ScanFrom(ps, s, p1).FoundAt?)
      ensures !circf && r == Ran(true) ==>
                Delivers(true, ScanFrom(ps, s, p1).r, NO_CAPS) && loc1 == ScanFrom(ps, s, p1).start
    {
      hide Greedy, WellFormed, ScanFrom;
      assert NO_CAPS.starts.Keys == {} && NO_CAPS.ends.Keys == {};
      if circf {
        r := Advance(s, code, p1, 0, ps, NO_CAPS, turns);
        loc1 := p1;
        return;
      }
      CodeSplit(code, 0, ps);
      var fast := code[0] == CCHR;
      var p := p1;
      while true
        invariant p1 <= p < |s|
        invariant ScanFrom(ps, s, p) == ScanFrom(ps, s, p1)
        decreases |s| - p
      {
        ScanStep(ps, s, p);
        if fast {
          LiteralFirst(code, ps, s, p);
        }
        if !fast || s[p] == code[1] {
          r := Advance(s, code, p, 0, ps, NO_CAPS, turns);
          if r != Ran(false) {
            loc1 := p;
            return;
          }
        }
        if s[p] == 0 {
          break;
        }
        p := p + 1;
      }
      r := Ran(false);
    }

    /** Gives back one copy of the text of a group at a time. */
    method GiveBackRefs(s: seq<byte>, code: seq<byte>, curlp: nat, lp0: int, ct: nat, ep: nat,
                        ghost ps: seq<Piece>, ghost caps: Caps, turns: nat) returns (r: Attempt)
      requires Valid() && Subject(s) && curlp < |s|
      requires ps != [] && ps[0].Refs? && ct == Unit(ps[0], s, caps) > 0
      requires lp0 == curlp + Most(ps[0], s, curlp, caps) * ct
      requires CodeAt(code, ep, ps[1..]) && WellFormed(ps, caps.starts.Keys, caps.ends.Keys)
      requires CapsOk(caps, curlp) && Remembers(caps)
      modifies this, braslist, braelist
      ensures Yields(r, Greedy(ps, s, curlp, caps), caps, turns, s)
      decreases |ps|, 0
    {
      hide Greedy, Copies, Captured;
      GreedyRepeats(ps, s, curlp, caps);
      var lp := lp0;
      ghost var k := Most(ps[0], s, curlp, caps);
      MostNonNegative(ps[0], s, curlp, caps);
      while lp >= curlp
        invariant -1 <= k <= Most(ps[0], s, curlp, caps) && lp == curlp + k * ct
        invariant Remembers(caps)
        invariant GiveBack(ps, s, curlp, caps, k) == Greedy(ps, s, curlp, caps)
        decreases k
      {
        NonNegative(k, ct);
        GiveBackAt(ps, s, curlp, caps, k, lp);
        r := Advance(s, code, lp, ep, ps[1..], caps, turns);
        if r != Ran(false) {
          return;
        }
        assert (k - 1) * ct == k * ct - ct;
        lp, k := lp - ct, k - 1;
      }
      NonNegative(k, ct);
      r := Ran(false);
    }

    /** Repeats the text of group `n` as often as it stands at `lp`, then gives back one copy at a time. */
    method BacktrackRefs(s: seq<byte>, code: seq<byte>, curlp: nat, n: byte, ep: nat,
                         ghost ps: seq<Piece>, ghost caps: Caps, turns: nat) returns (r: Attempt)
      requires Valid() && Subject(s) && curlp < |s|
      requires ps != [] && ps[0] == Refs(n)
      requires CodeAt(code, ep, ps[1..]) && WellFormed(ps, caps.starts.Keys, caps.ends.Keys)
      requires CapsOk(caps, curlp) && Remembers(caps)
      modifies this, braslist, braelist
      ensures Yields(r, Greedy(ps, s, curlp, caps), caps, turns, s)
      decreases |ps|, 1
    {
      hide Greedy;
      var bbeg := braslist[n];
      var ct := braelist[n] - bbeg;
      CapturedText(s, caps, n, curlp);
      if ct == 0 {
        GreedyStuck(ps, s, curlp, caps);
      }
      var lp, more := CopyTurns(s, bbeg, ct, curlp, turns);
      if more {
        return OutOfTurns;
      }
      r := GiveBackRefs(s, code, curlp, lp, ct, ep, ps, caps, turns);
    }
  }

  /** The captures once a group is begun or ended at `i`. */
  function Noted(p: Piece, i: nat, caps: Caps): Caps
    requires p.Start? || p.End?
  {
    if p.Start? then caps.(starts := caps.starts[p.n := i]) else caps.(ends := caps.ends[p.n := i])
  }

  /** Going past a group's delimiter. */
  lemma {:induction false} GroupStep(q: seq<Piece>, s: seq<byte>, lp: nat, caps: Caps)
    requires lp < |s| && q != [] && (q[0].Start? || q[0].End?)
    requires WellFormed(q, caps.starts.Keys, caps.ends.Keys) && CapsOk(caps, lp)
    ensures var now := Noted(q[0], lp, caps);
            && q[0].n < NBRA && Greedy(q[1..], s, lp, now) == Greedy(q, s, lp, caps)
            && WellFormed(q[1..], now.starts.Keys, now.ends.Keys) && CapsOk(now, lp) && Extends(now, caps)
  {
    var n, now := q[0].n, Noted(q[0], lp, caps);
    assert q[0].Start? ==> now.starts.Keys == caps.starts.Keys + {n};
    assert q[0].End? ==> now.ends.Keys == caps.ends.Keys + {n};
  }

  lemma {:induction false} EndCode(code: seq<byte>, ep: nat, q: seq<Piece>)
    requires ep > 0 && CodeAt(code, ep - 1, q) && q != [] && q[0].AtEnd?
    ensures CodeAt(code, ep, q[1..])
  {
    CodeSplit(code, ep - 1, q);
  }

  /** Going past the end mark. */
  lemma {:induction false} GreedyAtEnd(q: seq<Piece>, s: seq<byte>, lp: nat, caps: Caps)
    requires lp < |s| && q != [] && q[0].AtEnd?
    ensures Greedy(q, s, lp, caps) == if lp == |s| - 1 then Greedy(q[1..], s, lp, caps) else NoMatch
  {}

  /** Going past an atom. */
  lemma {:induction false} GreedyAtom(q: seq<Piece>, s: seq<byte>, lp: nat, caps: Caps)
    requires Subject(s) && lp < |s| && q != [] && q[0].Single? && Proper(q[0].a)
    ensures Accepts(q[0].a, s[lp]) ==> lp + 1 < |s| && Greedy(q[1..], s, lp + 1, caps) == Greedy(q, s, lp, caps)
    ensures !Accepts(q[0].a, s[lp]) ==> Greedy(q, s, lp, caps).NoMatch?
  {}

  /** The code of an atom: its map or character, then the rest. */
  lemma {:induction false} AtomCode(code: seq<byte>, ep: nat, q: seq<Piece>)
    requires ep > 0 && CodeAt(code, ep - 1, q) && q != [] && q[0].Single?
    ensures ArgsAt(code, ep, q[0].a) && IsAtomOp(AtomOp(q[0].a))
    ensures CodeAt(code, ep + Width(AtomOp(q[0].a)), q[1..])
  {
    CodeSplit(code, ep - 1, q);
    AtomOps(q[0].a);
  }

  /** Only a plain character has its operation code first. */
  lemma {:induction false} LiteralFirst(code: seq<byte>, ps: seq<Piece>, s: seq<byte>, i: nat)
    requires CodeAt(code, 0, ps) && i < |s| && code[0] == CCHR
    ensures |code| > 1 && (s[i] != code[1] ==> Greedy(ps, s, i, NO_CAPS).NoMatch?)
  {
    CodeSplit(code, 0, ps);
    if ps != [] {
      OpKinds(ps[0]);
      if ps[0].Single? {
        assert ps[0].a.Chr?;
        assert code[1] == code[1..2][0] == ps[0].a.c;
      }
    }
  }

  lemma {:induction false} MostNonNegative(p: Piece, s: seq<byte>, i: nat, caps: Caps)
    requires p.Refs? && i < |s| && Unit(p, s, caps) > 0
    ensures Most(p, s, i, caps) >= 0
  {}

  lemma {:induction false} NonNegative(k: int, u: nat)
    requires u > 0
    ensures k * u >= 0 <==> k >= 0
  {}

  lemma {:induction false} CopiesOn(s: seq<byte>, i: nat, w: seq<byte>)
    requires i < |s|
    ensures w != [] ==>
              Copies(s, i, w) == if TextAt(s, i, w) && i + |w| < |s| then 1 + Copies(s, i + |w|, w) else 0
  {}

  /** At most `turns` turns of the loop that steps over copies of the text of `ct` characters at `bbeg`; `more` says
      that the loop would go on. An empty text stands everywhere, and stepping over it leads nowhere: whatever the
      number of turns, the loop goes on. Over any other text it has ended after as many turns as the subject is long. */
  method CopyTurns(s: seq<byte>, bbeg: nat, ct: nat, curlp: nat, turns: nat) returns (lp: nat, more: bool)
    requires Subject(s) && curlp < |s| && bbeg + ct < |s|
    ensures ct == 0 ==> more && lp == curlp
    ensures ct > 0 && turns >= |s| ==> !more
    ensures ct > 0 && !more ==> lp == curlp + Copies(s, curlp, s[bbeg..bbeg + ct]) * ct
  {
    hide Copies, CopiesAt;
    ghost var w, k := s[bbeg..bbeg + ct], 0;
    lp := curlp;
    more := Ecmp(s, bbeg, lp, ct);
    var left := turns;
    while more && left > 0
      invariant lp < |s| && (more <==> TextAt(s, lp, w))
      invariant ct == 0 ==> lp == curlp
      invariant ct > 0 ==> lp == curlp + k * ct && lp >= curlp + k && Copies(s, curlp, w) == k + Copies(s, lp, w)
      invariant left + k == turns
      decreases left
    {
      assert (k + 1) * ct == k * ct + ct;
      CopiesOn(s, lp, w);
      lp, k, left := lp + ct, k + 1, left - 1;
      more := Ecmp(s, bbeg, lp, ct);
    }
    CopiesOn(s, lp, w);
  }
}
