/** Patterns that show where the conditions on patterns are needed. */
module RegexExamples {
  import opened RegexSyntax
  import opened RegexParser
  import opened RegexSemantics
  import opened RegexPatterns
  import opened RegexSpelling
  import opened RegexTheorems

  // ----- an empty group and a starred reference to it ------------------------------------------------

  const EMPTY_GROUP: seq<byte> := [BACKSLASH, LPAREN, BACKSLASH, RPAREN, BACKSLASH, DIGIT1, ASTERISK]

  const EMPTY_GROUP_ITEMS := [Open(0), Close(0), Star(Back(0))]

  /** How far reading has come after each item; the asterisk replaces the last one. */
  function EmptyAfter(n: nat): Progress
    requires n <= 4
  {
    match n
    case 0 => Progress([], [], 0, 0)
    case 1 => Progress([Open(0)], [0], 1, 0)
    case 2 => Progress([Open(0), Close(0)], [], 1, 1)
    case 3 => Progress([Open(0), Close(0), Back(0)], [], 1, 1)
    case _ => Progress(EMPTY_GROUP_ITEMS, [], 1, 1)
  }

  lemma {:induction false} EmptyReads(n: nat)
    requires n < 4
    ensures ReadOne(EMPTY_GROUP, 2 * n, 0, false, EmptyAfter(n))
         == More(if n < 3 then 2 * n + 2 else 7, EmptyAfter(n + 1))
  {
    assert EmptyAfter(3).items[..2] == [Open(0), Close(0)];
  }

  lemma {:induction false} EmptyParses(n: nat)
    requires n <= 4
    ensures ParseItems(EMPTY_GROUP, if n < 4 then 2 * n else 7, 0, false, EmptyAfter(n))
         == Parsed(EMPTY_GROUP_ITEMS, 1, false, 8)
    decreases 4 - n
  {
    if n < 4 {
      hide ReadOne, EmptyAfter;
      EmptyReads(n);
      EmptyParses(n + 1);
    }
  }

  lemma {:induction false} EmptyGroupItems()
    ensures ParsePattern(EMPTY_GROUP, 0, false, false) == Pattern(EMPTY_GROUP_ITEMS, false, 1, false, 8)
  {
    hide ParseItems;
    EmptyParses(0);
  }

  lemma {:induction false} EmptyGroupSupported()
    ensures Supported(EMPTY_GROUP_ITEMS) && Meanings(EMPTY_GROUP_ITEMS) == [Start(0), End(0), Refs(0)]
  {
    var ps := [Start(0), End(0), Refs(0)];
    assert Meanings(EMPTY_GROUP_ITEMS) == ps;
    assert ps[1..] == [End(0), Refs(0)] && ps[1..][1..] == [Refs(0)] && [Refs(0)][1..] == [];
    assert WellFormed([Refs(0)], {0}, {0}) && {} + {0} == {0};
    assert WellFormed([End(0), Refs(0)], {0}, {});
  }

  lemma {:induction false} EmptyGroupStuck(s: seq<byte>, i: nat)
    requires Subject(s) && i < |s|
    ensures Run([Start(0), End(0), Refs(0)], [1], s, i, NO_CAPS).Match?
    ensures Greedy([Start(0), End(0), Refs(0)], s, i, NO_CAPS).Loops?
  {
    var ps := [Start(0), End(0), Refs(0)];
    var c1 := NO_CAPS.(starts := NO_CAPS.starts[0 := i]);
    var c2 := c1.(ends := c1.ends[0 := i]);
    assert ps[1..] == [End(0), Refs(0)] && ps[1..][1..] == [Refs(0)] && [Refs(0)][1..] == [];
    assert Captured(s, c2, 0) == [];
    assert Greedy([Refs(0)], s, i, c2).Loops?;
    assert CopiesAt(s, i, [], 1) by {
      assert TextAt(s, i, []) && CopiesAt(s, i, [], 0);
    }
    assert Run([Refs(0)], [1], s, i, c2) == Match(i, c2);
  }

  /** The pattern is supported and matches at every place of every subject, but no search for it ends. */
  lemma {:induction false} EmptyGroupLoops(s: seq<byte>, i: nat)
    requires Subject(s) && i < |s|
    ensures var p := ParsePattern(EMPTY_GROUP, 0, false, false);
            && p.Pattern? && Supported(p.items)
            && Run(Meanings(p.items), [1], s, i, NO_CAPS).Match?
            && Greedy(Meanings(p.items), s, i, NO_CAPS).Loops? && ScanFrom(Meanings(p.items), s, i).Hangs?
  {
    EmptyGroupItems();
    EmptyGroupSupported();
    EmptyGroupStuck(s, i);
  }

  /** A group that may be empty need not be: the search for such a pattern can end. */
  lemma {:induction false} FilledHereEnds()
    ensures var ps, s := [Start(0), Many(Chr(97)), End(0), Refs(0)], [97, 0];
            !StarredGroupsFilled(ps, map[], {}) && !Greedy(ps, s, 0, NO_CAPS).Loops?
  {
    var ps, s := [Start(0), Many(Chr(97)), End(0), Refs(0)], [97, 0];
    var w: map<byte, nat> := map[];
    assert ps[1..] == [Many(Chr(97)), End(0), Refs(0)] && ps[1..][1..] == [End(0), Refs(0)];
    assert ps[1..][1..][1..] == [Refs(0)] && [Refs(0)][1..] == [];
    assert !StarredGroupsFilled([Refs(0)], w[0 := 0], {});
    var c1 := NO_CAPS.(starts := NO_CAPS.starts[0 := 0]);
    var c2 := c1.(ends := c1.ends[0 := 1]);
    assert Span(Chr(97), s, 0) == 1;
    assert Captured(s, c2, 0) == [97];
    assert Greedy([Refs(0)], s, 1, c2) == Match(1, c2);
    assert Greedy([End(0), Refs(0)], s, 1, c1) == Match(1, c2);
    assert GiveBack(ps[1..], s, 0, c1, 1) == Match(1, c2);
  }

  // ----- a reference inside its own group -------------------------------------------------------------

  /** A group with another one in it and, after that, a reference to itself. */
  const INNER_REFERENCE: seq<byte> :=
    [BACKSLASH, LPAREN, BACKSLASH, LPAREN, BACKSLASH, RPAREN, BACKSLASH, DIGIT1, BACKSLASH, RPAREN]

  const INNER_REFERENCE_ITEMS := [Open(0), Open(1), Close(1), Back(0), Close(0)]

  /** How far reading has come after each item. */
  function InnerAfter(n: nat): Progress
    requires n <= 5
  {
    Progress(INNER_REFERENCE_ITEMS[..n], match n case 0 => [] case 1 => [0] case 2 => [0, 1] case 5 => [] case _ => [0],
             if n < 2 then n else 2, match n case 3 => 1 case 4 => 1 case 5 => 2 case _ => 0)
  }

  lemma {:induction false} InnerReads(n: nat)
    requires n < 5
    ensures ReadOne(INNER_REFERENCE, 2 * n, 0, false, InnerAfter(n)) == More(2 * n + 2, InnerAfter(n + 1))
  {
    assert INNER_REFERENCE_ITEMS[..n] + [INNER_REFERENCE_ITEMS[n]] == INNER_REFERENCE_ITEMS[..n + 1];
  }

  lemma {:induction false} InnerParses(n: nat)
    requires n <= 5
    ensures ParseItems(INNER_REFERENCE, 2 * n, 0, false, InnerAfter(n)) == Parsed(INNER_REFERENCE_ITEMS, 2, false, 11)
    decreases 5 - n
  {
    if n < 5 {
      hide ReadOne;
      InnerReads(n);
      InnerParses(n + 1);
    }
  }

  lemma {:induction false} InnerReferenceItems()
    ensures ParsePattern(INNER_REFERENCE, 0, false, false) == Pattern(INNER_REFERENCE_ITEMS, false, 2, false, 11)
  {
    hide ParseItems;
    InnerParses(0);
  }

  /** The compiler counts closings, so it accepts the reference before its group is closed. */
  lemma {:induction false} InnerReferenceUnsupported()
    ensures var p := ParsePattern(INNER_REFERENCE, 0, false, false);
            p.Pattern? && AllMeaningful(p.items) && !Supported(p.items)
  {
    hide ParsePattern, Supported;
    InnerReferenceItems();
    SupportedExactly(INNER_REFERENCE, 0, false, false);
    var items := INNER_REFERENCE_ITEMS;
    assert Core(items[3]) == Back(0) && Close(0) !in CoresBefore(items, 3);
  }

  /** `\(\(\)\2\)` */
  const CLOSED_INSIDE: seq<byte> := [BACKSLASH, LPAREN, BACKSLASH, LPAREN, BACKSLASH, RPAREN, BACKSLASH, DIGIT1 + 1,
                                     BACKSLASH, RPAREN]

  const CLOSED_INSIDE_READ := Progress([Open(0), Open(1), Close(1)], [0], 2, 1)

  lemma {:induction false} InnerClosedRead()
    ensures ParseItems(CLOSED_INSIDE, 0, 0, false, Progress([], [], 0, 0)) ==
            ParseItems(CLOSED_INSIDE, 6, 0, false, CLOSED_INSIDE_READ)
  {
    hide ParseItems, ParseBracket, ParseInterval;
    var t, st0, st1 := CLOSED_INSIDE, Progress([], [], 0, 0), Progress([Open(0)], [0], 1, 0);
    var st2 := Progress([Open(0), Open(1)], [0, 1], 2, 0);
    ReadLeads(t, 0, false, 0, st0, 2, st1);
    ReadLeads(t, 0, false, 2, st1, 4, st2);
    ReadLeads(t, 0, false, 4, st2, 6, CLOSED_INSIDE_READ);
  }

  /** It also refuses a reference to a closed group while the one around it is open. */
  lemma {:induction false} InnerClosedRefused()
    ensures ParsePattern(CLOSED_INSIDE, 0, false, false) == Malformed(25)
  {
    hide ParseItems;
    InnerClosedRead();
    ErrorsAt(CLOSED_INSIDE, 6, 0, false, CLOSED_INSIDE_READ);
  }

  // ----- a backslash with nothing to escape -------------------------------------------------------------

  /** The text of one backslash is accepted, and its item stands for NUL. */
  lemma {:induction false} LoneBackslash()
    ensures var p := ParsePattern([BACKSLASH], 0, false, false); p.Pattern? && p.items == [One(Chr(0))]
    ensures !Supported(ParsePattern([BACKSLASH], 0, false, false).items)
  {
    var t := [BACKSLASH];
    assert ReadOne(t, 0, 0, false, Progress([], [], 0, 0)) == More(2, Progress([One(Chr(0))], [], 0, 0));
    assert ParseItems(t, 2, 0, false, Progress([One(Chr(0))], [], 0, 0)) == Parsed([One(Chr(0))], 0, false, 3);
    assert Backslashes(t, 1) == Backslashes(t, 0) + 1;
    SupportedText(t, 0, false, false);
  }
}
