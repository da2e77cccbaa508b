/** What a pattern means on a NUL-terminated subject, as a relation and as a greedy search. */
module RegexSemantics {
  import opened Options
  import opened RegexSyntax

  // ----- pieces --------------------------------------------------------------

  /** What the matcher understands: each item of a pattern with its suffixes taken into account. */
  datatype Piece =
    | Single(a: Atom)
    | Many(a: Atom)
    | Between(a: Atom, lo: byte, hi: byte)
    | AtEnd
    | Start(n: byte)
    | End(n: byte)
    | Ref(n: byte)
    | Refs(n: byte)

  /** The piece an item stands for; none when the matcher has no code for it. */
  function Meaning(it: Item): Option<Piece> {
    match it
    case One(a) => Some(Single(a))
    case Dollar => Some(AtEnd)
    case Open(n) => Some(Start(n))
    case Close(n) => Some(End(n))
    case Back(n) => Some(Ref(n))
    case Star(base) =>
      (match Meaning(base)
       case Some(Single(a)) => Some(Many(a))
       case Some(Many(a)) => Some(Many(a))
       case Some(Between(a, lo, hi)) => Some(Between(a, lo, hi))
       case Some(Ref(n)) => Some(Refs(n))
       case Some(Refs(n)) => Some(Refs(n))
       case _ => None)
    case Rnge(base, lo, hi) =>
      (match Meaning(base)
       case Some(Single(a)) => Some(Between(a, lo, hi))
       case Some(Many(a)) => Some(Between(a, lo, hi))
       case _ => None)
  }

  predicate AllMeaningful(items: seq<Item>) {
    forall i :: 0 <= i < |items| ==> Meaning(items[i]).Some?
  }

  function Meanings(items: seq<Item>): (r: seq<Piece>)
    requires AllMeaningful(items)
    ensures |r| == |items|
    ensures forall i :: 0 <= i < |items| ==> r[i] == Meaning(items[i]).value
  {
    if items == [] then [] else [Meaning(items[0]).value] + Meanings(items[1..])
  }

  lemma {:induction false} MeaningsLast(items: seq<Item>)
    requires items != [] && AllMeaningful(items)
    ensures AllMeaningful(items[..|items| - 1])
    ensures Meanings(items) == Meanings(items[..|items| - 1]) + [Meaning(items[|items| - 1]).value]
  {}

  /** Groups are opened once, closed once after that, and referred to only when closed; no atom matches NUL. */
  predicate WellFormed(ps: seq<Piece>, begun: set<byte>, ended: set<byte>) {
    ps == [] ||
    (match ps[0]
     case Single(a) => Proper(a) && WellFormed(ps[1..], begun, ended)
     case Many(a) => Proper(a) && WellFormed(ps[1..], begun, ended)
     case Between(a, lo, hi) => Proper(a) && lo <= hi && lo < NO_LIMIT && WellFormed(ps[1..], begun, ended)
     case AtEnd => WellFormed(ps[1..], begun, ended)
     case Start(n) => n < NBRA && n !in begun && WellFormed(ps[1..], begun + {n}, ended)
     case End(n) => n < NBRA && n in begun && n !in ended && WellFormed(ps[1..], begun, ended + {n})
     case Ref(n) => n < NBRA && n in ended && WellFormed(ps[1..], begun, ended)
     case Refs(n) => n < NBRA && n in ended && WellFormed(ps[1..], begun, ended))
  }

  // ----- subjects and captures -------------------------------------------------

  predicate Subject(s: seq<byte>) {
    |s| > 0 && s[|s| - 1] == 0 && forall i :: 0 <= i < |s| - 1 ==> s[i] != 0
  }

  /** Where the groups passed on the way here begin and end. */
  datatype Caps = Caps(starts: map<byte, nat>, ends: map<byte, nat>)

  const NO_CAPS := Caps(map[], map[])

  /** Captures recorded on the way to position `i`. */
  predicate CapsOk(caps: Caps, i: nat) {
    && (forall n :: n in caps.starts ==> caps.starts[n] <= i)
    && (forall n :: n in caps.ends ==> n in caps.starts && caps.starts[n] <= caps.ends[n] <= i)
  }

  /** The text of group `n`; empty if it was not captured. */
  function Captured(s: seq<byte>, caps: Caps, n: byte): seq<byte> {
    if n in caps.starts && n in caps.ends && caps.starts[n] <= caps.ends[n] <= |s|
    then s[caps.starts[n]..caps.ends[n]] else []
  }

  predicate TextAt(s: seq<byte>, i: nat, w: seq<byte>) {
    i + |w| < |s| && s[i..i + |w|] == w
  }

  // ----- the meaning of a pattern ----------------------------------------------

  datatype Outcome = NoMatch | Match(end: nat, caps: Caps) | Loops

  /** The `k` characters from `i` exist and the atom accepts each. */
  predicate AcceptsAll(a: Atom, s: seq<byte>, i: nat, k: nat) {
    i + k < |s| && forall j :: i <= j < i + k ==> Accepts(a, s[j])
  }

  /** `k` copies of `w` stand at `i`. */
  predicate CopiesAt(s: seq<byte>, i: nat, w: seq<byte>, k: nat)
    decreases k
  {
    if k == 0 then i < |s| else TextAt(s, i, w) && CopiesAt(s, i + |w|, w, k - 1)
  }

  predicate Repeats(p: Piece) {
    p.Many? || p.Between? || p.Refs?
  }

  /** How many times more than its lower bound an interval may repeat. */
  function Extra(lo: byte, hi: byte): int {
    if hi == NO_LIMIT then NO_LIMIT_SIZE else hi - lo
  }

  /** Piece `p` may repeat `k` times at `i`. */
  predicate Fits(p: Piece, s: seq<byte>, i: nat, caps: Caps, k: nat)
    requires Repeats(p)
  {
    match p
    case Many(a) => AcceptsAll(a, s, i, k)
    case Between(a, lo, hi) => lo <= k <= lo + Extra(lo, hi) && AcceptsAll(a, s, i, k)
    case Refs(n) => CopiesAt(s, i, Captured(s, caps, n), k)
  }

  /** How far one repetition of `p` moves. */
  function Unit(p: Piece, s: seq<byte>, caps: Caps): nat {
    if p.Refs? then |Captured(s, caps, p.n)| else 1
  }

  /** What a piece that is not repeated does at `i`. */
  function Once(p: Piece, s: seq<byte>, i: nat, caps: Caps): (r: Outcome)
    requires !Repeats(p) && i < |s|
    ensures r.Match? ==> i <= r.end < |s|
  {
    match p
    case Single(a) => if AcceptsAll(a, s, i, 1) then Match(i + 1, caps) else NoMatch
    case AtEnd => if i == |s| - 1 then Match(i, caps) else NoMatch
    case Start(n) => Match(i, caps.(starts := caps.starts[n := i]))
    case End(n) => Match(i, caps.(ends := caps.ends[n := i]))
    case Ref(n) =>
      var w := Captured(s, caps, n);
      if TextAt(s, i, w) then Match(i + |w|, caps) else NoMatch
  }

  /** Matches `ps` at `i` when its repeated pieces, in order, repeat exactly `ks` times. */
  function Run(ps: seq<Piece>, ks: seq<nat>, s: seq<byte>, i: nat, caps: Caps): Outcome
    requires i < |s|
  {
    if ps == [] then
      if ks == [] then Match(i, caps) else NoMatch
    else if Repeats(ps[0]) then
      if ks != [] && Fits(ps[0], s, i, caps, ks[0]) then
        FitsInside(ps[0], s, i, caps, ks[0]);
        Run(ps[1..], ks[1..], s, i + ks[0] * Unit(ps[0], s, caps), caps)
      else NoMatch
    else match Once(ps[0], s, i, caps)
      case Match(j, now) => Run(ps[1..], ks, s, j, now)
      case _ => NoMatch
  }

  /** Repetitions that fit stay before the end of the subject. */
  lemma {:induction false} FitsInside(p: Piece, s: seq<byte>, i: nat, caps: Caps, k: nat)
    requires Repeats(p) && Fits(p, s, i, caps, k)
    ensures i + k * Unit(p, s, caps) < |s|
  {
    if p.Refs? {
      CopiesInside(s, i, Captured(s, caps, p.n), k);
    }
  }

  lemma {:induction false} CopiesInside(s: seq<byte>, i: nat, w: seq<byte>, k: nat)
    requires CopiesAt(s, i, w, k)
    ensures i + k * |w| < |s|
    decreases k
  {
    if k > 0 {
      CopiesInside(s, i + |w|, w, k - 1);
      assert k * |w| == |w| + (k - 1) * |w|;
    }
  }

  /** Some way of repeating matches from `i` to `j`. */
  ghost predicate Matches(ps: seq<Piece>, s: seq<byte>, i: nat, caps: Caps, j: nat, caps': Caps)
    requires i < |s|
  {
    exists ks :: Run(ps, ks, s, i, caps) == Match(j, caps')
  }

  // ----- the greedy search -----------------------------------------------------

  /** The longest run of accepted characters from `i`. */
  function Span(a: Atom, s: seq<byte>, i: nat): (k: nat)
    requires i < |s|
    ensures AcceptsAll(a, s, i, k)
    ensures i + k + 1 < |s| ==> !Accepts(a, s[i + k])
    decreases |s| - i
  {
    if i + 1 < |s| && Accepts(a, s[i]) then 1 + Span(a, s, i + 1) else 0
  }

  /** The largest number of copies of a non-empty text at `i`. */
  function Copies(s: seq<byte>, i: nat, w: seq<byte>): (k: nat)
    requires i < |s| && w != []
    ensures i + k * |w| < |s|
    ensures forall m: nat :: CopiesAt(s, i, w, m) <==> m <= k
    decreases |s| - i
  {
    if TextAt(s, i, w) then
      var k := Copies(s, i + |w|, w);
      assert (1 + k) * |w| == |w| + k * |w|;
      assert forall m: nat :: m > 0 ==> (CopiesAt(s, i, w, m) <==> CopiesAt(s, i + |w|, w, m - 1));
      1 + k
    else 0
  }

  function Min(a: int, b: int): int {
    if a < b then a else b
  }

  function Fewest(p: Piece): nat
    requires Repeats(p)
  {
    if p.Between? then p.lo else 0
  }

  function Most(p: Piece, s: seq<byte>, i: nat, caps: Caps): int
    requires Repeats(p) && i < |s|
    requires p.Refs? ==> Captured(s, caps, p.n) != []
  {
    match p
    case Many(a) => Span(a, s, i)
    case Between(a, lo, hi) => Min(Span(a, s, i), lo + Extra(lo, hi))
    case Refs(n) => Copies(s, i, Captured(s, caps, n))
  }

  /** The counts that fit are an interval, and every one of them stays inside the subject. */
  lemma {:induction false} FitsRange(p: Piece, s: seq<byte>, i: nat, caps: Caps, k: nat)
    requires Repeats(p) && i < |s|
    requires p.Refs? ==> Captured(s, caps, p.n) != []
    ensures Fits(p, s, i, caps, k) <==> Fewest(p) <= k <= Most(p, s, i, caps)
    ensures Fits(p, s, i, caps, k) ==> i + k * Unit(p, s, caps) < |s|
  {
    if !p.Refs? {
      SpanLongest(p.a, s, i, k);
    }
    if Fits(p, s, i, caps, k) {
      FitsInside(p, s, i, caps, k);
    }
  }

  lemma {:induction false} SpanLongest(a: Atom, s: seq<byte>, i: nat, k: nat)
    requires i < |s|
    ensures AcceptsAll(a, s, i, k) <==> k <= Span(a, s, i)
  {
  }

  /** The search: repeated pieces take as much as they can and give back one repetition at a time. */
  function Greedy(ps: seq<Piece>, s: seq<byte>, i: nat, caps: Caps): Outcome
    requires i < |s|
    decreases |ps|, 0
  {
    if ps == [] then Match(i, caps)
    else if Repeats(ps[0]) then
      if Unit(ps[0], s, caps) == 0 then Loops
      else GiveBack(ps, s, i, caps, Most(ps[0], s, i, caps))
    else match Once(ps[0], s, i, caps)
      case Match(j, now) => Greedy(ps[1..], s, j, now)
      case _ => NoMatch
  }

  /** The search at a reference to a group. */
  lemma {:induction false} GreedyRef(ps: seq<Piece>, s: seq<byte>, i: nat, caps: Caps, w: seq<byte>)
    requires i < |s| && ps != [] && ps[0].Ref? && w == Captured(s, caps, ps[0].n)
    ensures TextAt(s, i, w) ==> Greedy(ps, s, i, caps) == Greedy(ps[1..], s, i + |w|, caps)
    ensures !TextAt(s, i, w) ==> Greedy(ps, s, i, caps).NoMatch?
  {}

  /** Tries the counts from `k` down to the fewest allowed. */
  function GiveBack(ps: seq<Piece>, s: seq<byte>, i: nat, caps: Caps, k: int): Outcome
    requires i < |s| && ps != [] && Repeats(ps[0]) && Unit(ps[0], s, caps) > 0
    requires k <= Most(ps[0], s, i, caps)
    decreases |ps| - 1, 1, k
  {
    if k < Fewest(ps[0]) then NoMatch
    else
      FitsRange(ps[0], s, i, caps, k);
      var r := Greedy(ps[1..], s, i + k * Unit(ps[0], s, caps), caps);
      if r.NoMatch? then GiveBack(ps, s, i, caps, k - 1) else r
  }

  /** One count tried: the place `at` is `k` units after `i`. */
  lemma {:induction false} GiveBackAt(ps: seq<Piece>, s: seq<byte>, i: nat, caps: Caps, k: int, at: int)
    requires i < |s| && ps != [] && Repeats(ps[0]) && Unit(ps[0], s, caps) > 0
    requires Fewest(ps[0]) <= k <= Most(ps[0], s, i, caps) && at == i + k * Unit(ps[0], s, caps)
    ensures i <= at < |s|
    ensures var r := Greedy(ps[1..], s, at, caps);
            GiveBack(ps, s, i, caps, k) == if r.NoMatch? then GiveBack(ps, s, i, caps, k - 1) else r
  {
    FitsRange(ps[0], s, i, caps, k);
  }

  /** The search through a repeated piece begins with as many repetitions as there are. */
  lemma {:induction false} GreedyRepeats(ps: seq<Piece>, s: seq<byte>, i: nat, caps: Caps)
    requires i < |s| && ps != [] && Repeats(ps[0]) && Unit(ps[0], s, caps) > 0
    ensures Greedy(ps, s, i, caps) == GiveBack(ps, s, i, caps, Most(ps[0], s, i, caps))
  {}

  /** Repeating an empty text never ends. */
  lemma {:induction false} GreedyStuck(ps: seq<Piece>, s: seq<byte>, i: nat, caps: Caps)
    requires i < |s| && ps != [] && Repeats(ps[0]) && Unit(ps[0], s, caps) == 0
    ensures Greedy(ps, s, i, caps).Loops?
  {}

  /** The result of looking for a match from place to place. */
  datatype Scan = NotFound | FoundAt(start: nat, r: Outcome) | Hangs

  /** The first place from `i` on at which the search succeeds. */
  function ScanFrom(ps: seq<Piece>, s: seq<byte>, i: nat): Scan
    requires i < |s|
    decreases |s| - i
  {
    match Greedy(ps, s, i, NO_CAPS)
    case Loops => Hangs
    case Match(end, caps) => FoundAt(i, Match(end, caps))
    case NoMatch => if i + 1 < |s| then ScanFrom(ps, s, i + 1) else NotFound
  }

  lemma {:induction false} ScanStep(ps: seq<Piece>, s: seq<byte>, i: nat)
    requires i < |s|
    ensures match Greedy(ps, s, i, NO_CAPS)
            case Loops => ScanFrom(ps, s, i) == Hangs
            case Match(end, caps) => ScanFrom(ps, s, i) == FoundAt(i, Match(end, caps))
            case NoMatch => ScanFrom(ps, s, i) == if i + 1 < |s| then ScanFrom(ps, s, i + 1) else NotFound
  {}
}
