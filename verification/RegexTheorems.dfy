/** The results that join compiler, matcher and meaning. */
module RegexTheorems {
  import opened RegexSyntax
  import opened RegexParser
  import opened RegexCompiler
  import opened RegexSemantics
  import opened RegexGreedy
  import opened RegexEnding
  import opened RegexMeaning
  import opened RegexPatterns
  import opened RegexMatcher
  import opened RegexAdvance

  // ----- when the search ends ------------------------------------------------------

  function Widen(widths: map<byte, nat>, k: nat): map<byte, nat> {
    map n | n in widths :: widths[n] + k
  }

  /** Every starred reference is to a group that cannot be empty: `widths` bounds the open groups from below, and
      the groups in `full` are not empty. */
  predicate StarredGroupsFilled(ps: seq<Piece>, widths: map<byte, nat>, full: set<byte>) {
    ps == [] ||
    (match ps[0]
     case Single(_) => StarredGroupsFilled(ps[1..], Widen(widths, 1), full)
     case Between(_, lo, _) => StarredGroupsFilled(ps[1..], Widen(widths, lo), full)
     case Start(n) => StarredGroupsFilled(ps[1..], widths[n := 0], full)
     case End(n) =>
       StarredGroupsFilled(ps[1..], widths, if n in widths && widths[n] > 0 then full + {n} else full)
     case Ref(n) => StarredGroupsFilled(ps[1..], if n in full then Widen(widths, 1) else widths, full)
     case Refs(n) => n in full && StarredGroupsFilled(ps[1..], widths, full)
     case _ => StarredGroupsFilled(ps[1..], widths, full))
  }

  /** The captures bear out the bounds. */
  ghost predicate Bears(caps: Caps, i: nat, widths: map<byte, nat>, full: set<byte>) {
    && (forall n :: n in widths ==> n in caps.starts && caps.starts[n] + widths[n] <= i)
    && (forall n :: n in full ==> n in caps.starts && n in caps.ends && caps.starts[n] < caps.ends[n])
  }

  /** A pattern whose starred groups are filled is matched, or not, on every subject: the search ends. */
  lemma {:induction false} SearchEnds(ps: seq<Piece>, s: seq<byte>, i: nat, caps: Caps,
                                      widths: map<byte, nat>, full: set<byte>)
    requires i < |s| && CapsOk(caps, i) && WellFormed(ps, caps.starts.Keys, caps.ends.Keys)
    requires Bears(caps, i, widths, full) && StarredGroupsFilled(ps, widths, full)
    ensures !Greedy(ps, s, i, caps).Loops?
    decreases |ps|, 0
  {
    if ps != [] {
      if Repeats(ps[0]) {
        forall at: nat | Reachable(ps[0], s, i, at) ensures !Greedy(ps[1..], s, at, caps).Loops? {
          SearchEndsAfter(ps, s, i, caps, widths, full, at);
        }
        SearchEndsRepeat(ps, s, i, caps, Most(ps[0], s, i, caps));
      } else if Once(ps[0], s, i, caps).Match? {
        SearchEndsOnce(ps, s, i, caps, widths, full);
      }
    }
  }

  lemma {:induction false} SearchEndsOnce(ps: seq<Piece>, s: seq<byte>, i: nat, caps: Caps,
                                          widths: map<byte, nat>, full: set<byte>)
    requires i < |s| && CapsOk(caps, i) && WellFormed(ps, caps.starts.Keys, caps.ends.Keys)
    requires Bears(caps, i, widths, full) && StarredGroupsFilled(ps, widths, full)
    requires ps != [] && !Repeats(ps[0]) && Once(ps[0], s, i, caps).Match?
    ensures !Greedy(ps, s, i, caps).Loops?
    decreases |ps| - 1, 2
  {
    if ps[0].Start? || ps[0].End? {
      SearchEndsGroup(ps, s, i, caps, widths, full);
    } else {
      var r := Once(ps[0], s, i, caps);
      var filled := ps[0].Single? || (ps[0].Ref? && ps[0].n in full);
      var wider := if filled then Widen(widths, 1) else widths;
      assert filled ==> r.end > i;
      assert Bears(caps, r.end, wider, full);
      SearchEnds(ps[1..], s, r.end, caps, wider, full);
    }
  }

  lemma {:induction false} SearchEndsGroup(ps: seq<Piece>, s: seq<byte>, i: nat, caps: Caps,
                                           widths: map<byte, nat>, full: set<byte>)
    requires i < |s| && CapsOk(caps, i) && WellFormed(ps, caps.starts.Keys, caps.ends.Keys)
    requires Bears(caps, i, widths, full) && StarredGroupsFilled(ps, widths, full)
    requires ps != [] && (ps[0].Start? || ps[0].End?)
    ensures !Greedy(ps, s, i, caps).Loops?
    decreases |ps| - 1, 1
  {
    hide Greedy, WellFormed, CapsOk;
    var n, now := ps[0].n, Noted(ps[0], i, caps);
    GroupStep(ps, s, i, caps);
    if ps[0].Start? {
      SearchEnds(ps[1..], s, i, now, widths[n := 0], full);
    } else {
      SearchEnds(ps[1..], s, i, now, widths, if n in widths && widths[n] > 0 then full + {n} else full);
    }
  }

  /** Places reached by repeating piece `p` from `i`. */
  predicate Reachable(p: Piece, s: seq<byte>, i: nat, at: nat) {
    i <= at < |s| && (p.Between? ==> at >= i + p.lo)
  }

  lemma {:induction false} SearchEndsRepeat(ps: seq<Piece>, s: seq<byte>, i: nat, caps: Caps, k: int)
    requires i < |s| && ps != [] && Repeats(ps[0]) && Unit(ps[0], s, caps) > 0 && k <= Most(ps[0], s, i, caps)
    requires forall at: nat :: Reachable(ps[0], s, i, at) ==> !Greedy(ps[1..], s, at, caps).Loops?
    ensures !GiveBack(ps, s, i, caps, k).Loops?
    decreases k
  {
    if k >= Fewest(ps[0]) {
      FitsRange(ps[0], s, i, caps, k);
      assert Reachable(ps[0], s, i, i + k * Unit(ps[0], s, caps));
      SearchEndsRepeat(ps, s, i, caps, k - 1);
    }
  }

  lemma {:induction false} SearchEndsAfter(ps: seq<Piece>, s: seq<byte>, i: nat, caps: Caps,
                                           widths: map<byte, nat>, full: set<byte>, at: nat)
    requires i < |s| && CapsOk(caps, i) && WellFormed(ps, caps.starts.Keys, caps.ends.Keys)
    requires Bears(caps, i, widths, full) && StarredGroupsFilled(ps, widths, full)
    requires ps != [] && Repeats(ps[0]) && Reachable(ps[0], s, i, at)
    ensures !Greedy(ps[1..], s, at, caps).Loops?
    decreases |ps| - 1, 1
  {
    var wider := if ps[0].Between? then Widen(widths, ps[0].lo) else widths;
    SearchEnds(ps[1..], s, at, caps, wider, full);
  }

  // ----- from text to match ----------------------------------------------------------

  /** The tree `r` matches nothing at `i`. */
  ghost predicate Misses(r: Regex, s: seq<byte>, i: nat)
    requires i < |s|
  {
    forall j: nat, d :: !Denotes(r, s, i, NO_CAPS, j, d)
  }

  lemma {:induction false} NoRunMisses(r: Regex, s: seq<byte>, i: nat)
    requires i < |s|
    ensures NoRun(Flatten(r), s, i, NO_CAPS) ==> Misses(r, s, i)
  {
    forall j: nat, d | Denotes(r, s, i, NO_CAPS, j, d) ensures !NoRun(Flatten(r), s, i, NO_CAPS) {
      FlattenKeepsMeaning(r, s, i, NO_CAPS, j, d);
      var ks :| Run(Flatten(r), ks, s, i, NO_CAPS) == Match(j, d);
      assert Run(Flatten(r), ks, s, i, NO_CAPS).Match?;
    }
  }

  /** A match at a place is one the tree denotes. */
  lemma {:induction false} GreedyDenotes(r: Regex, s: seq<byte>, i: nat)
    requires i < |s| && !Greedy(Flatten(r), s, i, NO_CAPS).Loops?
    ensures var g := Greedy(Flatten(r), s, i, NO_CAPS);
            if g.Match? then Denotes(r, s, i, NO_CAPS, g.end, g.caps) else Misses(r, s, i)
  {
    var ks := GreedyGreatest(Flatten(r), s, i, NO_CAPS);
    var g := Greedy(Flatten(r), s, i, NO_CAPS);
    if g.Match? {
      assert Run(Flatten(r), ks, s, i, NO_CAPS) == Match(g.end, g.caps);
      FlattenKeepsMeaning(r, s, i, NO_CAPS, g.end, g.caps);
    } else {
      NoRunMisses(r, s, i);
    }
  }

  /** What a scan reports is the leftmost place at which the tree matches. */
  lemma {:induction false} ScanDenotes(r: Regex, s: seq<byte>, i: nat)
    requires i < |s| && !ScanFrom(Flatten(r), s, i).Hangs?
    ensures match ScanFrom(Flatten(r), s, i)
            case NotFound => forall k :: i <= k < |s| ==> Misses(r, s, k)
            case FoundAt(start, m) =>
              && i <= start < |s| && m.Match?
              && Denotes(r, s, start, NO_CAPS, m.end, m.caps)
              && forall k :: i <= k < start ==> Misses(r, s, k)
  {
    ScanFindsLeftmost(Flatten(r), s, i);
    forall k | i <= k < |s| ensures NoRun(Flatten(r), s, k, NO_CAPS) ==> Misses(r, s, k) {
      NoRunMisses(r, s, k);
    }
    var f := ScanFrom(Flatten(r), s, i);
    if f.FoundAt? {
      var ks :| Greatest(Flatten(r), s, f.start, NO_CAPS, ks, f.r);
      assert Run(Flatten(r), ks, s, f.start, NO_CAPS) == Match(f.r.end, f.r.caps);
      FlattenKeepsMeaning(r, s, f.start, NO_CAPS, f.r.end, f.r.caps);
    }
  }

  /** A scan of a pattern whose starred groups are filled ends. */
  lemma {:induction false} ScanEnds(ps: seq<Piece>, s: seq<byte>, i: nat)
    requires i < |s| && WellFormed(ps, {}, {}) && StarredGroupsFilled(ps, map[], {})
    ensures !ScanFrom(ps, s, i).Hangs?
    decreases |s| - i
  {
    assert NO_CAPS.starts.Keys == {} && NO_CAPS.ends.Keys == {};
    SearchEnds(ps, s, i, NO_CAPS, map[], {});
    if i + 1 < |s| {
      ScanEnds(ps, s, i + 1);
    }
  }

  /** An accepted text, its items and its tree. */
  lemma {:induction false} TreeOfPattern(t: seq<byte>, eof: byte, sed: bool, havePrevious: bool) returns (r: Regex)
    requires var p := ParsePattern(t, eof, sed, havePrevious); p.Pattern? && AllMeaningful(p.items)
    ensures Flatten(r) == Meanings(ParsePattern(t, eof, sed, havePrevious).items)
  {
    ParsedGroups(t, if At(t, 0) == CARET then 1 else 0, eof, sed, Progress([], [], 0, 0));
    r := TreeOf(ParsePattern(t, eof, sed, havePrevious).items);
  }

  /** Compiled code is laid out as the matcher expects it. */
  lemma {:induction false} CompiledCodeAt(items: seq<Item>)
    requires AllMeaningful(items)
    ensures CodeAt(EncodeAll(items) + [CCEOF], 0, Meanings(items))
  {
    EncodeMeanings(items);
    var code := EncodeAll(items) + [CCEOF];
    assert code[0..] == code;
  }

  datatype Found = BadPattern(err: int) | NoNewPattern | StillSearching | Unmatched | Matched(start: nat, end: nat)

  /** What searching a subject from `from` on for a pattern is to find: the leftmost stretch its tree denotes and, of
      those that start there, the one with the greatest repetition counts. */
  ghost predicate FindsLeftmost(r: Regex, s: seq<byte>, from: nat, anchored: bool, found: Found)
    requires from < |s|
  {
    match found
    case BadPattern(_) => false
    case NoNewPattern => false
    case StillSearching => false
    case Unmatched => forall k :: from <= k < (if anchored then from + 1 else |s|) ==> Misses(r, s, k)
    case Matched(start, end) =>
      && from <= start < |s| && (anchored ==> start == from)
      && (exists ks, d :: Greatest(Flatten(r), s, start, NO_CAPS, ks, Match(end, d))
                       && Denotes(r, s, start, NO_CAPS, end, d))
      && forall k :: from <= k < start ==> Misses(r, s, k)
  }

  /** The search for pieces `ps` from `from` on ends. */
  predicate Ends(ps: seq<Piece>, s: seq<byte>, from: nat, anchored: bool)
    requires from < |s|
  {
    if anchored then !Greedy(ps, s, from, NO_CAPS).Loops? else !ScanFrom(ps, s, from).Hangs?
  }

  /** The search from `from` on comes to repetition counts that lead to copies of an empty text, with no match before
      the place and none there with greater counts. */
  ghost predicate Stalls(ps: seq<Piece>, s: seq<byte>, from: nat, anchored: bool)
    requires from < |s|
  {
    if anchored then exists ks :: Unbeaten(ps, ks, s, from, NO_CAPS) else exists k: nat :: StuckAt(ps, s, from, k)
  }

  lemma {:induction false} StallsExactly(ps: seq<Piece>, s: seq<byte>, from: nat, anchored: bool)
    requires from < |s|
    ensures Stalls(ps, s, from, anchored) <==> !Ends(ps, s, from, anchored)
  {
    LoopsExactly(ps, s, from, NO_CAPS);
    HangsExactly(ps, s, from);
  }

  /** What the search function reports is the leftmost stretch of the tree. */
  lemma {:induction false} SearchFinds(r: Regex, s: seq<byte>, from: nat, anchored: bool, found: Found)
    requires from < |s| && Ends(Flatten(r), s, from, anchored)
    requires var g, f := Greedy(Flatten(r), s, from, NO_CAPS), ScanFrom(Flatten(r), s, from);
             found == if anchored then if g.Match? then Matched(from, g.end) else Unmatched
                      else if f.FoundAt? && f.r.Match? then Matched(f.start, f.r.end) else Unmatched
    ensures FindsLeftmost(r, s, from, anchored, found)
  {
    if anchored {
      GreedyDenotes(r, s, from);
      var g := Greedy(Flatten(r), s, from, NO_CAPS);
      var ks := GreedyGreatest(Flatten(r), s, from, NO_CAPS);
      if g.Match? {
        assert Greatest(Flatten(r), s, from, NO_CAPS, ks, Match(g.end, g.caps));
      }
    } else {
      ScanDenotes(r, s, from);
      ScanFindsLeftmost(Flatten(r), s, from);
      var f := ScanFrom(Flatten(r), s, from);
      if f.FoundAt? {
        var ks :| Greatest(Flatten(r), s, f.start, NO_CAPS, ks, f.r);
        assert Greatest(Flatten(r), s, f.start, NO_CAPS, ks, Match(f.r.end, f.r.caps));
      }
    }
  }

  ghost predicate HasTree(ps: seq<Piece>) {
    exists r :: Flatten(r) == ps
  }

  /** What compiling and searching must yield for an accepted pattern: the search is still going on only if it stalls
      or had too few turns, and when it stalls no number of turns suffices; otherwise it finds what the pattern's tree
      denotes. */
  ghost predicate Searched(items: seq<Item>, s: seq<byte>, from: nat, anchored: bool, turns: nat, found: Found)
    requires from < |s| && AllMeaningful(items)
  {
    var ps := Meanings(items);
    && HasTree(ps) && (Stalls(ps, s, from, anchored) ==> found == StillSearching)
    && if found == StillSearching then Stalls(ps, s, from, anchored) || turns < |s|
       else forall r :: Flatten(r) == ps ==> FindsLeftmost(r, s, from, anchored, found)
  }

  /** Compiling a text and searching a subject with the code, from any place on, when each loop over copies of a
      group's text may take `turns` turns. */
  method CompileAndStep(t: seq<byte>, eof: byte, sed: bool, havePrevious: bool, s: seq<byte>, p1: nat, turns: nat)
    returns (found: Found)
    requires Subject(s) && p1 < |s|
    requires var p := ParsePattern(t, eof, sed, havePrevious); p.Pattern? ==> Supported(p.items)
    ensures match ParsePattern(t, eof, sed, havePrevious)
            case Malformed(code) => found == BadPattern(code)
            case Previous(_, _) => found == NoNewPattern
            case Pattern(items, circf, _, _, _) => Searched(items, s, p1, circf, turns, found)
  {
    hide Greedy, ScanFrom, ParseItems;
    var c := Compile(t, eof, sed, havePrevious);
    if c.CompileErr? {
      return BadPattern(c.err);
    }
    if c.KeepPrevious? {
      return NoNewPattern;
    }
    ghost var items := ParsePattern(t, eof, sed, havePrevious).items;
    ghost var ps := Meanings(items);
    ghost var tree := TreeOfPattern(t, eof, sed, havePrevious);
    CompiledCodeAt(items);
    StallsExactly(ps, s, p1, c.circf);
    var m := new Matcher();
    var r := m.Step(s, p1, c.code, c.circf, ps, turns);
    if r.OutOfTurns? {
      return StillSearching;
    }
    found := if r.ok then Matched(m.loc1, m.loc2) else Unmatched;
    forall r | Flatten(r) == ps ensures FindsLeftmost(r, s, p1, c.circf, found) {
      SearchFinds(r, s, p1, c.circf, found);
    }
  }
}
