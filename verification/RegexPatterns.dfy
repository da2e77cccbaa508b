/** Every text that is accepted denotes a tree; which of them the matcher supports. */
module RegexPatterns {
  import opened Options
  import opened RegexSyntax
  import opened RegexParser
  import opened RegexSemantics
  import opened RegexMeaning

  // ----- the groups of an accepted pattern -----------------------------------------

  /** An item without its suffixes. */
  function Core(it: Item): (r: Item)
    ensures !r.Star? && !r.Rnge?
  {
    match it
    case Star(base) => Core(base)
    case Rnge(base, _, _) => Core(base)
    case _ => it
  }

  datatype Groups = Groups(open: seq<byte>, count: byte) | Unbalanced

  /** Follows the groups: numbered in the order they open, closed innermost first. */
  function GroupsOf(items: seq<Item>): Groups {
    if items == [] then Groups([], 0)
    else Counted(GroupsOf(items[..|items| - 1]), Core(items[|items| - 1]))
  }

  function Counted(before: Groups, it: Item): Groups {
    if before.Unbalanced? then Unbalanced
    else match it
      case Open(n) => if n == before.count < NBRA then Groups(before.open + [n], n + 1) else Unbalanced
      case Close(n) =>
        if before.open != [] && Top(before.open) == n
        then before.(open := before.open[..|before.open| - 1]) else Unbalanced
      case _ => before
  }

  function Top(s: seq<byte>): byte
    requires s != []
  {
    s[|s| - 1]
  }

  /** The groups that a reading stands at. */
  predicate Tracked(st: Progress) {
    GroupsOf(st.items) == Groups(st.open, st.nbra)
  }

  /** One item more. */
  lemma {:induction false} GroupsOfAdd(items: seq<Item>, it: Item)
    ensures GroupsOf(items + [it]) == Counted(GroupsOf(items), Core(it))
  {
    assert (items + [it])[..|items|] == items;
  }

  lemma {:induction false} PlainTracked(st: Progress, it: Item)
    requires Tracked(st) && !Core(it).Open? && !Core(it).Close?
    ensures Tracked(Add(st, it))
  {
    GroupsOfAdd(st.items, it);
  }

  lemma {:induction false} OpenTracked(st: Progress)
    requires Tracked(st) && st.nbra < NBRA
    ensures Tracked(Progress(st.items + [Open(st.nbra)], st.open + [st.nbra], st.nbra + 1, st.closed))
  {
    var it := Open(st.nbra);
    assert Core(it) == it;
    assert Counted(Groups(st.open, st.nbra), it) == Groups(st.open + [st.nbra], st.nbra + 1);
    GroupsOfAdd(st.items, it);
  }

  lemma {:induction false} CloseTracked(st: Progress)
    requires Tracked(st) && st.open != []
    ensures Tracked(Progress(st.items + [Close(Top(st.open))], st.open[..|st.open| - 1], st.nbra, st.closed + 1))
  {
    GroupsOfAdd(st.items, Close(Top(st.open)));
  }

  /** A suffix on the last item changes no group. */
  lemma {:induction false} SuffixTracked(st: Progress, it: Item)
    requires Tracked(st) && st.items != [] && Core(it) == Core(Last(st.items))
    ensures Tracked(st.(items := ReplaceLast(st.items, it)))
  {
    GroupsOfAdd(st.items[..|st.items| - 1], it);
  }

  lemma {:induction false} EscapeTracked(t: seq<byte>, i: nat, st: Progress)
    requires i < |t| && Tracked(st) && ReadEscape(t, i, st).More?
    ensures Tracked(ReadEscape(t, i, st).now)
  {
    var d, now := At(t, i + 1), ReadEscape(t, i, st).now;
    if d == LPAREN {
      OpenTracked(st);
    } else if d == RPAREN {
      CloseTracked(st);
    } else if d == LBRACE && !NothingBefore(st) {
      SuffixTracked(st, Last(now.items));
    } else {
      PlainTracked(st, Last(now.items));
    }
  }

  /** Reading one item keeps track of the groups as the items so far have them. */
  lemma {:induction false} ReadTracked(t: seq<byte>, i: nat, eof: byte, sed: bool, st: Progress)
    requires i <= |t| + 1 && Tracked(st) && ReadOne(t, i, eof, sed, st).More?
    ensures Tracked(ReadOne(t, i, eof, sed, st).now)
  {
    var c, now := At(t, i), ReadOne(t, i, eof, sed, st).now;
    if c == BACKSLASH {
      EscapeTracked(t, i, st);
    } else if c == ASTERISK && !AsteriskIsLiteral(st) {
      SuffixTracked(st, Star(Last(st.items)));
    } else {
      PlainTracked(st, Last(now.items));
    }
  }

  /** The groups of an accepted pattern are properly nested and numbered in order. */
  lemma {:induction false} ParsedGroups(t: seq<byte>, i: nat, eof: byte, sed: bool, st: Progress)
    requires i <= |t| + 1 && Tracked(st)
    ensures var r := ParseItems(t, i, eof, sed, st); r.Parsed? ==> GroupsOf(r.items) == Groups([], r.nbra)
    decreases |t| + 1 - i
  {
    var r := ReadOne(t, i, eof, sed, st);
    if r.More? {
      ReadTracked(t, i, eof, sed, st);
      ParsedGroups(t, r.next, eof, sed, r.now);
    }
  }

  // ----- the tree of an accepted pattern -------------------------------------------

  /** The text read so far, for trees waiting around an open group. */
  function Unwind(outer: seq<(byte, Regex)>, inner: Regex): seq<Piece> {
    if outer == [] then Flatten(inner)
    else
      var (n, r) := outer[|outer| - 1];
      Unwind(outer[..|outer| - 1], r) + [Start(n)] + Flatten(inner)
  }

  function Names(outer: seq<(byte, Regex)>): (r: seq<byte>)
    ensures |r| == |outer|
  {
    seq(|outer|, k requires 0 <= k < |outer| => outer[k].0)
  }

  /** Suffixes never turn anything into a group delimiter. */
  lemma {:induction false} CoreMeaning(it: Item)
    requires Meaning(it).Some?
    ensures Core(it).Open? <==> Meaning(it).value.Start?
    ensures Core(it).Close? <==> Meaning(it).value.End?
    ensures Core(it).Open? || Core(it).Close? ==> Core(it).n == Meaning(it).value.n
    ensures Core(it).Back? <==> Meaning(it).value.Ref? || Meaning(it).value.Refs?
    ensures Core(it).Back? ==> Core(it).n == Meaning(it).value.n
    ensures Core(it).One? <==> Meaning(it).value.Single? || Meaning(it).value.Many? || Meaning(it).value.Between?
    ensures Core(it).One? ==> Core(it).a == Meaning(it).value.a
  {
    match it
    case Star(base) => CoreMeaning(base);
    case Rnge(base, _, _) => CoreMeaning(base);
    case _ =>
  }

  /** The groups that are open after the last item. */
  lemma {:induction false} OpenAfter(items: seq<Item>, p: Piece)
    requires items != [] && GroupsOf(items).Groups? && Meaning(items[|items| - 1]) == Some(p)
    ensures var before := GroupsOf(items[..|items| - 1]);
            && before.Groups? && (p.End? ==> before.open != [] && Top(before.open) == p.n)
            && GroupsOf(items).open == match p
                                       case Start(n) => before.open + [n]
                                       case End(_) => before.open[..|before.open| - 1]
                                       case _ => before.open
  {
    CoreMeaning(items[|items| - 1]);
  }

  lemma {:induction false} TreesOf(items: seq<Item>) returns (outer: seq<(byte, Regex)>, inner: Regex)
    requires AllMeaningful(items) && GroupsOf(items).Groups?
    ensures Names(outer) == GroupsOf(items).open
    ensures Unwind(outer, inner) == Meanings(items)
  {
    if items == [] {
      outer, inner := [], Empty;
      return;
    }
    var front, it := items[..|items| - 1], items[|items| - 1];
    var p := Meaning(it).value;
    OpenAfter(items, p);
    var around, r := TreesOf(front);
    if p.End? {
      assert Names(around)[|around| - 1] == p.n;
    }
    outer, inner := GrowTrees(around, r, p);
    MeaningsLast(items);
  }

  /** Adding one piece to the trees read so far. */
  lemma {:induction false} GrowTrees(around: seq<(byte, Regex)>, r: Regex, p: Piece)
    returns (outer: seq<(byte, Regex)>, inner: Regex)
    requires p.End? ==> around != [] && around[|around| - 1].0 == p.n
    ensures Unwind(outer, inner) == Unwind(around, r) + [p]
    ensures Names(outer) == match p
                            case Start(n) => Names(around) + [n]
                            case End(_) => Names(around)[..|around| - 1]
                            case _ => Names(around)
  {
    match p
    case Start(n) =>
      outer, inner := around + [(n, r)], Empty;
      assert outer[..|around|] == around;
    case End(n) =>
      outer, inner := around[..|around| - 1], Concat(around[|around| - 1].1, Group(n, r));
      UnwindEnd(around, r);
    case _ =>
      outer, inner := around, Concat(r, Leaf(p));
      UnwindConcat(around, r, Leaf(p));
  }

  lemma {:induction false} UnwindEnd(outer: seq<(byte, Regex)>, r: Regex)
    requires outer != []
    ensures var (n, before) := outer[|outer| - 1];
            Unwind(outer[..|outer| - 1], Concat(before, Group(n, r))) == Unwind(outer, r) + [End(n)]
  {
    var (n, before) := outer[|outer| - 1];
    UnwindConcat(outer[..|outer| - 1], before, Group(n, r));
  }

  lemma {:induction false} UnwindConcat(outer: seq<(byte, Regex)>, a: Regex, b: Regex)
    ensures Unwind(outer, Concat(a, b)) == Unwind(outer, a) + Flatten(b)
  {}

  /** Every accepted pattern whose items all have code is the flat form of some tree. */
  lemma {:induction false} TreeOf(items: seq<Item>) returns (r: Regex)
    requires AllMeaningful(items) && GroupsOf(items).Groups? && GroupsOf(items).open == []
    ensures Flatten(r) == Meanings(items)
  {
    var outer, inner := TreesOf(items);
    assert |Names(outer)| == 0;
    r := inner;
  }

  // ----- what the matcher supports ---------------------------------------------------

  predicate Supported(items: seq<Item>) {
    AllMeaningful(items) && WellFormed(Meanings(items), {}, {})
  }

  function Begun(ps: seq<Piece>, begun: set<byte>): set<byte> {
    if ps == [] then begun else Begun(ps[1..], if ps[0].Start? then begun + {ps[0].n} else begun)
  }

  function Ended(ps: seq<Piece>, ended: set<byte>): set<byte> {
    if ps == [] then ended else Ended(ps[1..], if ps[0].End? then ended + {ps[0].n} else ended)
  }

  lemma {:induction false} WellFormedAppend(ps: seq<Piece>, p: Piece, begun: set<byte>, ended: set<byte>)
    ensures WellFormed(ps + [p], begun, ended) <==>
            WellFormed(ps, begun, ended) && WellFormed([p], Begun(ps, begun), Ended(ps, ended))
    ensures Begun(ps + [p], begun) == Begun([p], Begun(ps, begun))
    ensures Ended(ps + [p], ended) == Ended([p], Ended(ps, ended))
    decreases |ps|
  {
    if ps == [] {
      assert ps + [p] == [p];
    } else {
      assert (ps + [p])[1..] == ps[1..] + [p];
      WellFormedAppend(ps[1..], p, if ps[0].Start? then begun + {ps[0].n} else begun,
                       if ps[0].End? then ended + {ps[0].n} else ended);
    }
  }

  /** The bounds of an interval are in order, and its lower bound is a number. */
  predicate BoundsOk(it: Item) {
    match it
    case Star(base) => BoundsOk(base)
    case Rnge(base, lo, hi) => lo <= hi && lo < NO_LIMIT && BoundsOk(base)
    case _ => true
  }

  /** What reading establishes for every item: bounds in order and references to existing group numbers. */
  predicate ItemOk(it: Item) {
    BoundsOk(it) && (Core(it).Back? ==> Core(it).n < NBRA)
  }

  predicate ItemsOk(items: seq<Item>) {
    forall i :: 0 <= i < |items| ==> ItemOk(items[i])
  }

  lemma {:induction false} ParsedItemsOk(t: seq<byte>, i: nat, eof: byte, sed: bool, st: Progress)
    requires i <= |t| + 1 && ItemsOk(st.items)
    ensures var r := ParseItems(t, i, eof, sed, st); r.Parsed? ==> ItemsOk(r.items)
    decreases |t| + 1 - i
  {
    var r := ReadOne(t, i, eof, sed, st);
    if r.More? {
      ReadOneItemsOk(t, i, eof, sed, st);
      ParsedItemsOk(t, r.next, eof, sed, r.now);
    }
  }

  lemma {:induction false} ReadOneItemsOk(t: seq<byte>, i: nat, eof: byte, sed: bool, st: Progress)
    requires i <= |t| + 1 && ItemsOk(st.items) && ReadOne(t, i, eof, sed, st).More?
    ensures ItemsOk(ReadOne(t, i, eof, sed, st).now.items)
  {
    var now := ReadOne(t, i, eof, sed, st).now.items;
    assert ItemOk(Last(now)) by {
      if st.items != [] {
        assert ItemOk(Last(st.items));
      }
    }
    assert forall k :: 0 <= k < |now| - 1 ==> now[k] == st.items[k];
  }

  /** Each reference comes after the end of its group. */
  ghost predicate RefsClosed(items: seq<Item>) {
    forall i :: 0 <= i < |items| && Core(items[i]).Back? ==> Close(Core(items[i]).n) in CoresBefore(items, i)
  }

  function CoresBefore(items: seq<Item>, i: nat): (r: seq<Item>)
    requires i <= |items|
    ensures |r| == i && forall k :: 0 <= k < i ==> r[k] == Core(items[k])
  {
    seq(i, k requires 0 <= k < i => Core(items[k]))
  }

  /** No item stands for NUL. */
  predicate NoNul(items: seq<Item>) {
    forall i :: 0 <= i < |items| && Core(items[i]).One? ==> Proper(Core(items[i]).a)
  }

  /** How the groups of the items so far stand: numbers below `count` begun, `open` not ended and increasing. */
  ghost predicate GroupFacts(items: seq<Item>, g: Groups, begun: set<byte>, ended: set<byte>) {
    && g.Groups? && g.count <= NBRA
    && (forall n: byte :: n in begun <==> n < g.count)
    && (forall n: byte :: n in ended <==> Close(n) in CoresBefore(items, |items|))
    && (forall k :: 0 <= k < |g.open| ==> g.open[k] in begun && g.open[k] !in ended)
    && (forall j, k :: 0 <= j < k < |g.open| ==> g.open[j] < g.open[k])
    && (forall n: byte :: n in ended ==> n in begun)
  }

  lemma {:induction false} CoresLast(items: seq<Item>)
    requires items != []
    ensures CoresBefore(items, |items|)
         == CoresBefore(items[..|items| - 1], |items| - 1) + [Core(items[|items| - 1])]
    ensures RefsClosed(items) <==>
            && RefsClosed(items[..|items| - 1])
            && var it := Core(items[|items| - 1]);
               it.Back? ==> Close(it.n) in CoresBefore(items[..|items| - 1], |items| - 1)
    ensures NoNul(items) <==>
            && NoNul(items[..|items| - 1])
            && var it := Core(items[|items| - 1]); it.One? ==> Proper(it.a)
  {
    var front, last := items[..|items| - 1], items[|items| - 1];
    assert items == front + [last];
    forall i | 0 <= i <= |front| ensures CoresBefore(items, i) == CoresBefore(front, i) {}
  }

  lemma {:induction false} BetweenBounds(it: Item)
    requires BoundsOk(it) && Meaning(it).Some? && Meaning(it).value.Between?
    ensures var p := Meaning(it).value; p.lo <= p.hi && p.lo < NO_LIMIT
  {
    if it.Star? {
      BetweenBounds(it.base);
    }
  }

  /** One more item keeps the group facts, and is well formed exactly when it is proper and refers to an ended group. */
  lemma {:induction false} ItemFacts(items: seq<Item>, begun: set<byte>, ended: set<byte>)
    requires items != [] && ItemsOk(items) && Meaning(items[|items| - 1]).Some? && GroupsOf(items).Groups?
    requires GroupFacts(items[..|items| - 1], GroupsOf(items[..|items| - 1]), begun, ended)
    ensures var p := [Meaning(items[|items| - 1]).value];
            var it := Core(items[|items| - 1]);
            && GroupFacts(items, GroupsOf(items), Begun(p, begun), Ended(p, ended))
            && (WellFormed(p, begun, ended) <==> (it.Back? ==> it.n in ended) && (it.One? ==> Proper(it.a)))
  {
    CoresLast(items);
    CoreMeaning(items[|items| - 1]);
    ItemWellFormed(items, begun, ended);
  }

  lemma {:induction false} ItemWellFormed(items: seq<Item>, begun: set<byte>, ended: set<byte>)
    requires items != [] && ItemsOk(items) && Meaning(items[|items| - 1]).Some? && GroupsOf(items).Groups?
    requires GroupFacts(items[..|items| - 1], GroupsOf(items[..|items| - 1]), begun, ended)
    ensures var it := Core(items[|items| - 1]);
            WellFormed([Meaning(items[|items| - 1]).value], begun, ended)
            <==> (it.Back? ==> it.n in ended) && (it.One? ==> Proper(it.a))
  {
    var last := items[|items| - 1];
    CoreMeaning(last);
    assert ItemOk(last);
    if Meaning(last).value.Between? {
      BetweenBounds(last);
    }
  }

  /** By induction over the items. */
  lemma {:induction false} SupportedFacts(items: seq<Item>)
    requires AllMeaningful(items) && ItemsOk(items) && GroupsOf(items).Groups?
    ensures GroupFacts(items, GroupsOf(items), Begun(Meanings(items), {}), Ended(Meanings(items), {}))
    ensures WellFormed(Meanings(items), {}, {}) <==> RefsClosed(items) && NoNul(items)
  {
    if items != [] {
      var front := items[..|items| - 1];
      var ps, p := Meanings(front), Meaning(items[|items| - 1]).value;
      SupportedFacts(front);
      MeaningsLast(items);
      WellFormedAppend(ps, p, {}, {});
      ItemFacts(items, Begun(ps, {}), Ended(ps, {}));
      CoresLast(items);
    }
  }

  /** An accepted pattern is supported exactly when every suffix has code, references follow their group, and no
      item stands for NUL. */
  lemma {:induction false} SupportedExactly(t: seq<byte>, eof: byte, sed: bool, havePrevious: bool)
    requires ParsePattern(t, eof, sed, havePrevious).Pattern?
    ensures var items := ParsePattern(t, eof, sed, havePrevious).items;
            Supported(items) <==> AllMeaningful(items) && RefsClosed(items) && NoNul(items)
  {
    var i := if At(t, 0) == CARET then 1 else 0;
    var st := Progress([], [], 0, 0);
    ParsedGroups(t, i, eof, sed, st);
    ParsedItemsOk(t, i, eof, sed, st);
    var items := ParsePattern(t, eof, sed, havePrevious).items;
    if AllMeaningful(items) {
      SupportedFacts(items);
    }
  }

  // ----- texts and NUL -----------------------------------------------------------------

  predicate NulFree(t: seq<byte>) {
    forall i :: 0 <= i < |t| ==> t[i] != 0
  }

  /** A bracket expression never denotes NUL. */
  lemma {:induction false} BracketExcludesNul(t: seq<byte>, i: nat, last: byte, members: set<byte>)
    requires NulFree(t) && i <= |t| + 1 && 0 !in members
    ensures var r := ParseBracket(t, i, last, members); r.BracketOk? ==> 0 !in r.members
    decreases |t| + 1 - i
  {
    var c := At(t, i);
    if c != 0 && c != NEWLINE {
      if c == MINUS && last != 0 {
        var d := At(t, i + 1);
        if d != RBRACKET && d != 0 && At(t, i + 2) != RBRACKET {
          BracketExcludesNul(t, i + 2, d, members + RangeOf(last, d));
        }
      } else if At(t, i + 1) != RBRACKET {
        BracketExcludesNul(t, i + 1, c, members + {c});
      }
    }
  }

  /** How many backslashes in a row stand right before place `n`. */
  function Backslashes(t: seq<byte>, n: nat): nat
    requires n <= |t|
  {
    if n > 0 && t[n - 1] == BACKSLASH then Backslashes(t, n - 1) + 1 else 0
  }

  /** The last backslash of the text has nothing to escape. */
  predicate EndsLone(t: seq<byte>) {
    Backslashes(t, |t|) % 2 == 1
  }

  lemma {:induction false} IntervalEnds(t: seq<byte>, i: nat)
    requires ParseInterval(t, i).IntervalOk?
    ensures var n := ParseInterval(t, i).next; 0 < n <= |t| && t[n - 1] == RBRACE
  {}

  lemma {:induction false} BracketEnds(t: seq<byte>, i: nat, last: byte, members: set<byte>)
    requires i <= |t| + 1 && ParseBracket(t, i, last, members).BracketOk?
    ensures var n := ParseBracket(t, i, last, members).next; 0 < n <= |t| && t[n - 1] == RBRACKET
    decreases |t| + 1 - i
  {
    var c := At(t, i);
    if c == MINUS && last != 0 {
      var d := At(t, i + 1);
      if d != RBRACKET && At(t, i + 2) != RBRACKET {
        BracketEnds(t, i + 2, d, members + RangeOf(last, d));
      }
    } else if At(t, i + 1) != RBRACKET {
      BracketEnds(t, i + 1, c, members + {c});
    }
  }

  lemma {:induction false} AddNul(items: seq<Item>, it: Item)
    ensures NoNul(items + [it]) <==> NoNul(items) && (Core(it).One? ==> Proper(Core(it).a))
  {
    var r := items + [it];
    assert r[|items|] == it;
    forall i | 0 <= i < |items| ensures r[i] == items[i] {}
  }

  lemma {:induction false} ReplaceNul(items: seq<Item>, it: Item)
    requires items != [] && Core(it) == Core(Last(items))
    ensures NoNul(ReplaceLast(items, it)) <==> NoNul(items)
  {
    var n := |items| - 1;
    AddNul(items[..n], it);
    AddNul(items[..n], items[n]);
    assert items == items[..n] + [items[n]];
  }

  /** Reading from a place before which the backslashes are paired leads to another such place and adds no NUL, unless
      it is the lone backslash at the end of the text. */
  lemma {:induction false} ReadNul(t: seq<byte>, i: nat, eof: byte, sed: bool, st: Progress)
    requires NulFree(t) && i <= |t| && Backslashes(t, i) % 2 == 0 && ReadOne(t, i, eof, sed, st).More?
    ensures var r := ReadOne(t, i, eof, sed, st);
            if r.next <= |t| then Backslashes(t, r.next) % 2 == 0 && (NoNul(r.now.items) <==> NoNul(st.items))
            else EndsLone(t) && !NoNul(r.now.items)
  {
    hide ParseBracket, ParseInterval;
    var r, c := ReadOne(t, i, eof, sed, st), At(t, i);
    if c == LBRACKET {
      var j := if At(t, i + 1) == CARET then i + 2 else i + 1;
      BracketEnds(t, j, 0, {});
      BracketExcludesNul(t, j, 0, {});
      AddNul(st.items, Last(r.now.items));
    } else if c == BACKSLASH {
      EscapeNul(t, i, st);
    } else if c == ASTERISK && !AsteriskIsLiteral(st) {
      ReplaceNul(st.items, Star(Last(st.items)));
    } else {
      AddNul(st.items, Last(r.now.items));
    }
  }

  lemma {:induction false} EscapeNul(t: seq<byte>, i: nat, st: Progress)
    requires NulFree(t) && i < |t| && t[i] == BACKSLASH && Backslashes(t, i) % 2 == 0 && ReadEscape(t, i, st).More?
    ensures var r := ReadEscape(t, i, st);
            if r.next <= |t| then Backslashes(t, r.next) % 2 == 0 && (NoNul(r.now.items) <==> NoNul(st.items))
            else EndsLone(t) && !NoNul(r.now.items)
  {
    hide ParseInterval;
    var r, d := ReadEscape(t, i, st), At(t, i + 1);
    assert Backslashes(t, i + 1) == Backslashes(t, i) + 1;
    if d == LBRACE && !NothingBefore(st) {
      var v := ParseInterval(t, i + 2);
      IntervalEnds(t, i + 2);
      ReplaceNul(st.items, Rnge(Last(st.items), v.lo, v.hi));
    } else {
      AddNul(st.items, Last(r.now.items));
    }
  }

  /** Reading on to the end. */
  lemma {:induction false} ParsedNul(t: seq<byte>, i: nat, eof: byte, sed: bool, st: Progress)
    requires NulFree(t) && i <= |t| && Backslashes(t, i) % 2 == 0 && ParseItems(t, i, eof, sed, st).Parsed?
    ensures var r := ParseItems(t, i, eof, sed, st);
            NoNul(r.items) <==> NoNul(st.items) && !(eof == 0 && !r.nodelim && EndsLone(t))
    decreases |t| - i
  {
    hide ParseBracket, ParseInterval;
    var r := ReadOne(t, i, eof, sed, st);
    if r.More? {
      ReadNul(t, i, eof, sed, st);
      if r.next <= |t| {
        ParsedNul(t, r.next, eof, sed, r.now);
      } else {
        assert ReadOne(t, r.next, eof, sed, r.now).Done?;
      }
    }
  }

  /** In an accepted text without NUL an item stands for NUL exactly when the text is read to its end and ends in a
      lone backslash. */
  lemma {:induction false} NoNulExactly(t: seq<byte>, eof: byte, sed: bool, havePrevious: bool)
    requires NulFree(t) && ParsePattern(t, eof, sed, havePrevious).Pattern?
    ensures var p := ParsePattern(t, eof, sed, havePrevious);
            NoNul(p.items) <==> !(eof == 0 && !p.nodelim && EndsLone(t))
  {
    hide ParseItems;
    ParsedNul(t, if At(t, 0) == CARET then 1 else 0, eof, sed, Progress([], [], 0, 0));
  }

  /** So an accepted text without NUL is supported exactly when every suffix has code, references follow their group,
      and no lone backslash is read at its end. */
  lemma {:induction false} SupportedText(t: seq<byte>, eof: byte, sed: bool, havePrevious: bool)
    requires NulFree(t) && ParsePattern(t, eof, sed, havePrevious).Pattern?
    ensures var p := ParsePattern(t, eof, sed, havePrevious);
            Supported(p.items) <==>
            AllMeaningful(p.items) && RefsClosed(p.items) && !(eof == 0 && !p.nodelim && EndsLone(t))
  {
    hide ParsePattern, Supported;
    NoNulExactly(t, eof, sed, havePrevious);
    SupportedExactly(t, eof, sed, havePrevious);
  }
}
