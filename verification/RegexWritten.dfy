/** What a pattern means as it is written, and that compiling and searching find it. */
module RegexWritten {
  import opened RegexSyntax
  import opened RegexParser
  import opened RegexSpelling
  import opened RegexSemantics
  import opened RegexMeaning
  import opened RegexGreedy
  import opened RegexPatterns
  import opened RegexTheorems

  // ----- what is meant ------------------------------------------------------------------------------

  /** Character `b` of the subject is one that the sign stands for. */
  predicate Fills(x: Sign, b: byte) {
    match x
    case Itself(c) => b == c
    case Any => b != 0
    case Class(neg, marks) => if neg then b != 0 && !SomeNames(marks, 0, b) else SomeNames(marks, 0, b)
  }

  /** The characters from `i` up to, and without, `j` are before the end of the subject and fill the sign. */
  predicate AllFill(x: Sign, s: seq<byte>, i: nat, j: nat) {
    i <= j < |s| && forall k :: i <= k < j ==> Fills(x, s[k])
  }

  /** As often as the bound says; without an upper bound, up to 20000 times more than its lower one. */
  predicate Often(b: Bound, k: int) {
    match b
    case Exactly(lo) => k == lo
    case AtLeast(lo) => lo <= k <= lo + 20000
    case UpTo(lo, hi) => lo <= k <= hi
  }

  /** What group `m` matched, if it did. */
  function GroupText(s: seq<byte>, c: Caps, m: nat): seq<byte> {
    if m < 256 && m in c.starts && m in c.ends && c.starts[m] <= c.ends[m] <= |s| then s[c.starts[m]..c.ends[m]] else []
  }

  /** `k` copies of `w`. */
  function Repeated(w: seq<byte>, k: nat): (r: seq<byte>)
    ensures |r| == k * |w|
  {
    if k == 0 then []
    else
      assert k * |w| == |w| + (k - 1) * |w|;
      w + Repeated(w, k - 1)
  }

  /** From `i` to `j` the subject is `w`, and more follows. */
  predicate Reads(s: seq<byte>, i: nat, j: nat, w: seq<byte>) {
    i <= j < |s| && s[i..j] == w
  }

  /** From `i` to `j` the subject is copies of `w`, and more follows. */
  ghost predicate ReadsCopies(s: seq<byte>, i: nat, j: nat, w: seq<byte>) {
    exists k: nat :: Reads(s, i, j, Repeated(w, k))
  }

  /** What is written, its groups numbered from `n` on, stands for the subject from `i` to `j`, and what the groups
      matched goes from `c` to `d`. */
  ghost predicate Means(a: Ast, n: nat, s: seq<byte>, i: nat, c: Caps, j: nat, d: Caps)
    requires n + GroupCount(a) <= 9
    decreases a
  {
    match a
    case Nothing => j == i && d == c
    case Of(x) => j == i + 1 && AllFill(x, s, i, j) && d == c
    case Starred(x) => AllFill(x, s, i, j) && d == c
    case Times(x, b) => AllFill(x, s, i, j) && Often(b, j - i) && d == c
    case Again(m) => Reads(s, i, j, GroupText(s, c, m)) && d == c
    case AgainStarred(m) => ReadsCopies(s, i, j, GroupText(s, c, m)) && d == c
    case Grouped(body) =>
      exists e ::
        Means(body, n + 1, s, i, c.(starts := c.starts[n := i]), j, e) && d == e.(ends := e.ends[n := j])
    case Then(x, y) =>
      exists m: nat, e :: m < |s| && Means(x, n, s, i, c, m, e) && Means(y, n + GroupCount(x), s, m, e, j, d)
  }

  ghost predicate MeansWritten(p: Written, s: seq<byte>, i: nat, j: nat, d: Caps)
    requires GroupCount(p.body) <= 9
  {
    Means(p.body, 0, s, i, NO_CAPS, j, d) && (p.atEnd ==> j == |s| - 1)
  }

  /** A bound without an upper end is one exactly as long as no run is longer than 20000 characters more than its lower
      one. */
  lemma {:induction false} AtLeastExactly(x: Sign, lo: nat, s: seq<byte>, i: nat, c: Caps)
    ensures (forall j: nat :: AllFill(x, s, i, j) && j - i >= lo ==> Means(Times(x, AtLeast(lo)), 0, s, i, c, j, c))
            <==> forall j: nat :: AllFill(x, s, i, j) ==> j - i <= lo + 20000
  {
    hide AllFill;
    if forall j: nat :: AllFill(x, s, i, j) && j - i >= lo ==> Means(Times(x, AtLeast(lo)), 0, s, i, c, j, c) {
      forall j: nat | AllFill(x, s, i, j) ensures j - i <= lo + 20000 {}
    }
  }

  // ----- its tree ---------------------------------------------------------------------------------------

  function Tree(a: Ast, n: nat, closed: nat, eof: byte): Regex
    requires AstOk(a, n, closed, eof) && n + GroupCount(a) <= 9
  {
    match a
    case Nothing => Empty
    case Of(x) => Leaf(Single(AtomOf(x)))
    case Starred(x) => Leaf(Many(AtomOf(x)))
    case Times(x, b) => Leaf(Between(AtomOf(x), LowOf(b), HighOf(b)))
    case Again(m) => Leaf(Ref(m))
    case AgainStarred(m) => Leaf(Refs(m))
    case Grouped(body) => Group(n, Tree(body, n + 1, closed, eof))
    case Then(x, y) => Concat(Tree(x, n, closed, eof), Tree(y, n + GroupCount(x), closed + GroupCount(x), eof))
  }

  lemma {:induction false} FillsIs(x: Sign, eof: byte, b: byte)
    requires SignOk(x, eof)
    ensures Accepts(AtomOf(x), b) <==> Fills(x, b)
  {}

  lemma {:induction false} AllFillIs(x: Sign, eof: byte, s: seq<byte>, i: nat, j: nat)
    requires SignOk(x, eof) && i <= j
    ensures AcceptsAll(AtomOf(x), s, i, j - i) <==> AllFill(x, s, i, j)
  {
    hide Fills, Accepts, AtomOf;
    if j < |s| {
      forall k | i <= k < j ensures Accepts(AtomOf(x), s[k]) <==> Fills(x, s[k]) {
        FillsIs(x, eof, s[k]);
      }
    }
  }

  lemma {:induction false} CopiesIs(s: seq<byte>, i: nat, w: seq<byte>, k: nat)
    requires i < |s|
    ensures CopiesAt(s, i, w, k) <==> Reads(s, i, i + k * |w|, Repeated(w, k))
    decreases k
  {
    if k == 0 {
      assert s[i..i] == [];
    } else {
      var j, r := i + |w|, Repeated(w, k - 1);
      assert i + k * |w| == j + (k - 1) * |w|;
      if TextAt(s, i, w) {
        CopiesIs(s, j, w, k - 1);
      }
      ReadsTwo(s, i, w, r);
    }
  }

  lemma {:induction false} ReadsTwo(s: seq<byte>, i: nat, v: seq<byte>, w: seq<byte>)
    ensures var j, k := i + |v|, i + |v| + |w|;
            Reads(s, i, k, v + w) <==> TextAt(s, i, v) && Reads(s, j, k, w)
  {
    var j, k := i + |v|, i + |v| + |w|;
    if k < |s| {
      assert s[i..k] == s[i..j] + s[j..k];
      assert (v + w)[..|v|] == v && (v + w)[|v|..] == w;
      assert s[i..k][..|v|] == s[i..j] && s[i..k][|v|..] == s[j..k];
    }
  }

  /** A sign, once. */
  lemma {:induction false} OfMeans(x: Sign, eof: byte, s: seq<byte>, i: nat, c: Caps, j: nat, d: Caps)
    requires SignOk(x, eof) && i < |s|
    ensures j == i + 1 && AllFill(x, s, i, j) && d == c <==> Denotes(Leaf(Single(AtomOf(x))), s, i, c, j, d)
  {
    hide AtomOf, SignOk, AcceptsAll, AllFill;
    AllFillIs(x, eof, s, i, i + 1);
  }

  /** A sign, any number of times that `p` allows. */
  lemma {:induction false} ManyMeans(x: Sign, p: Piece, eof: byte, s: seq<byte>, i: nat, c: Caps, j: nat, d: Caps)
    requires SignOk(x, eof) && i < |s| && (p.Many? || p.Between?) && p.a == AtomOf(x)
    ensures Denotes(Leaf(p), s, i, c, j, d) <==>
            AllFill(x, s, i, j) && (p.Between? ==> p.lo <= j - i <= p.lo + Extra(p.lo, p.hi)) && d == c
  {
    hide AtomOf, SignOk, AcceptsAll, AllFill;
    AllFillForward(x, s, i, j);
    if i <= j {
      var k: nat := j - i;
      AllFillIs(x, eof, s, i, j);
      assert j == i + k * Unit(p, s, c);
      assert Fits(p, s, i, c, k) <==>
             AllFill(x, s, i, j) && (p.Between? ==> p.lo <= j - i <= p.lo + Extra(p.lo, p.hi));
    }
  }

  lemma {:induction false} AllFillForward(x: Sign, s: seq<byte>, i: nat, j: nat)
    ensures AllFill(x, s, i, j) ==> i <= j
  {}

  lemma {:induction false} OftenIs(b: Bound, k: int)
    requires BoundOk(b)
    ensures Often(b, k) <==> LowOf(b) <= k <= LowOf(b) + Extra(LowOf(b), HighOf(b))
  {}

  /** A sign, however often. */
  lemma {:induction false} SignMeans(a: Ast, n: nat, closed: nat, eof: byte, s: seq<byte>, i: nat, c: Caps, j: nat,
                                     d: Caps)
    requires AstOk(a, n, closed, eof) && n + GroupCount(a) <= 9 && i < |s| && (a.Of? || a.Starred? || a.Times?)
    ensures Means(a, n, s, i, c, j, d) <==> Denotes(Tree(a, n, closed, eof), s, i, c, j, d)
  {
    hide AtomOf, SignOk, AllFill, Denotes, Often, LowOf, HighOf;
    match a
    case Of(x) => OfMeans(x, eof, s, i, c, j, d);
    case Starred(x) => ManyMeans(x, Many(AtomOf(x)), eof, s, i, c, j, d);
    case Times(x, b) =>
      ManyMeans(x, Between(AtomOf(x), LowOf(b), HighOf(b)), eof, s, i, c, j, d);
      OftenIs(b, j - i);
  }

  /** A reference, however often. */
  lemma {:induction false} RefMeans(a: Ast, n: nat, closed: nat, eof: byte, s: seq<byte>, i: nat, c: Caps, j: nat,
                                    d: Caps)
    requires AstOk(a, n, closed, eof) && n + GroupCount(a) <= 9 && i < |s| && (a.Again? || a.AgainStarred?)
    ensures Means(a, n, s, i, c, j, d) <==> Denotes(Tree(a, n, closed, eof), s, i, c, j, d)
  {
    hide Repeated, Reads, ReadsCopies;
    match a
    case AgainStarred(m) =>
      hide Denotes;
      RefsMeans(m, s, i, c, j, d);
    case Again(m) =>
      assert GroupText(s, c, m) == Captured(s, c, m);
      ReadsOnce(s, i, j, GroupText(s, c, m));
  }

  lemma {:induction false} RefsMeans(m: nat, s: seq<byte>, i: nat, c: Caps, j: nat, d: Caps)
    requires m < 9 && i < |s|
    ensures Denotes(Leaf(Refs(m)), s, i, c, j, d) <==>
            ReadsCopies(s, i, j, GroupText(s, c, m)) && d == c
  {
    hide CopiesAt, Repeated, Reads;
    var p, w := Refs(m), GroupText(s, c, m);
    assert w == Captured(s, c, m) && Unit(p, s, c) == |w|;
    if k: nat :| Fits(p, s, i, c, k) && j == i + k * Unit(p, s, c) {
      CopiesIs(s, i, w, k);
      assert Reads(s, i, j, Repeated(w, k));
    }
    if k: nat :| Reads(s, i, j, Repeated(w, k)) {
      ReadsLength(s, i, j, Repeated(w, k));
      CopiesIs(s, i, w, k);
      assert Fits(p, s, i, c, k) && j == i + k * Unit(p, s, c);
    }
  }

  lemma {:induction false} ReadsLength(s: seq<byte>, i: nat, j: nat, w: seq<byte>)
    ensures Reads(s, i, j, w) ==> j == i + |w|
  {}

  lemma {:induction false} ReadsOnce(s: seq<byte>, i: nat, j: nat, w: seq<byte>)
    ensures Reads(s, i, j, w) <==> TextAt(s, i, w) && j == i + |w|
  {}

  lemma {:induction false} NothingMeans(n: nat, closed: nat, eof: byte, s: seq<byte>, i: nat, c: Caps, j: nat, d: Caps)
    requires n <= 9 && i < |s|
    ensures Means(Nothing, n, s, i, c, j, d) <==> Denotes(Tree(Nothing, n, closed, eof), s, i, c, j, d)
  {}

  lemma {:induction false} GroupMeans(body: Ast, n: nat, closed: nat, eof: byte, s: seq<byte>, i: nat, c: Caps, j: nat,
                                      d: Caps)
    requires AstOk(Grouped(body), n, closed, eof) && n + GroupCount(Grouped(body)) <= 9 && i < |s|
    ensures Means(Grouped(body), n, s, i, c, j, d) <==> Denotes(Tree(Grouped(body), n, closed, eof), s, i, c, j, d)
    decreases Grouped(body), 0
  {
    hide AtomOf, SignOk, AllFill, Often, Reads, ReadsCopies, GroupText, Repeats, Once, Fits, Unit;
    var begun, m := c.(starts := c.starts[n := i]), n + 1;
    forall e ensures Means(body, m, s, i, begun, j, e) <==> Denotes(Tree(body, m, closed, eof), s, i, begun, j, e) {
      MeansTree(body, m, closed, eof, s, i, begun, j, e);
    }
  }

  lemma {:induction false} ThenMeans(x: Ast, y: Ast, n: nat, closed: nat, eof: byte, s: seq<byte>, i: nat, c: Caps,
                                     j: nat, d: Caps)
    requires AstOk(Then(x, y), n, closed, eof) && n + GroupCount(Then(x, y)) <= 9 && i < |s|
    ensures Means(Then(x, y), n, s, i, c, j, d) <==> Denotes(Tree(Then(x, y), n, closed, eof), s, i, c, j, d)
    decreases Then(x, y), 0
  {
    hide AtomOf, SignOk, AllFill, Often, Reads, ReadsCopies, GroupText, Repeats, Once, Fits, Unit;
    var k, g := n + GroupCount(x), closed + GroupCount(x);
    var r, q := Tree(x, n, closed, eof), Tree(y, k, g, eof);
    assert AstOk(x, n, closed, eof) && AstOk(y, k, g, eof) && Tree(Then(x, y), n, closed, eof) == Concat(r, q);
    hide AstOk, Tree;
    forall m: nat, e | m < |s|
      ensures Means(x, n, s, i, c, m, e) <==> Denotes(r, s, i, c, m, e)
      ensures Means(y, k, s, m, e, j, d) <==> Denotes(q, s, m, e, j, d)
    {
      MeansTree(x, n, closed, eof, s, i, c, m, e);
      MeansTree(y, k, g, eof, s, m, e, j, d);
    }
  }

  /** The tree denotes what is meant. */
  lemma {:induction false} MeansTree(a: Ast, n: nat, closed: nat, eof: byte, s: seq<byte>, i: nat, c: Caps, j: nat,
                                     d: Caps)
    requires AstOk(a, n, closed, eof) && n + GroupCount(a) <= 9 && i < |s|
    ensures Means(a, n, s, i, c, j, d) <==> Denotes(Tree(a, n, closed, eof), s, i, c, j, d)
    decreases a, 1
  {
    hide Means, Denotes, Tree;
    match a
    case Nothing => NothingMeans(n, closed, eof, s, i, c, j, d);
    case Of(_) => SignMeans(a, n, closed, eof, s, i, c, j, d);
    case Starred(_) => SignMeans(a, n, closed, eof, s, i, c, j, d);
    case Times(_, _) => SignMeans(a, n, closed, eof, s, i, c, j, d);
    case Again(_) => RefMeans(a, n, closed, eof, s, i, c, j, d);
    case AgainStarred(_) => RefMeans(a, n, closed, eof, s, i, c, j, d);
    case Grouped(body) => GroupMeans(body, n, closed, eof, s, i, c, j, d);
    case Then(x, y) => ThenMeans(x, y, n, closed, eof, s, i, c, j, d);
  }

  // ----- from the text to the tree ------------------------------------------------------------------------

  lemma {:induction false} MeaningsConcat(a: seq<Item>, b: seq<Item>)
    requires AllMeaningful(a) && AllMeaningful(b)
    ensures AllMeaningful(a + b) && Meanings(a + b) == Meanings(a) + Meanings(b)
  {
    hide Meaning;
  }

  lemma {:induction false} MeaningsOne(it: Item)
    requires Meaning(it).Some?
    ensures AllMeaningful([it]) && Meanings([it]) == [Meaning(it).value]
  {}

  /** The pieces of these items are the flattening of the tree. */
  predicate Flattens(items: seq<Item>, r: Regex) {
    AllMeaningful(items) && Meanings(items) == Flatten(r)
  }

  lemma {:induction false} ItemFlattens(a: Ast, n: nat, closed: nat, eof: byte)
    requires AstOk(a, n, closed, eof) && n + GroupCount(a) <= 9 && !a.Grouped? && !a.Then?
    ensures Flattens(ItemsOf(a, n, closed, eof), Tree(a, n, closed, eof))
  {
    hide AtomOf, SignOk, LowOf, HighOf;
    if !a.Nothing? {
      MeaningsOne(ItemsOf(a, n, closed, eof)[0]);
    }
  }

  lemma {:induction false} GroupFlattens(items: seq<Item>, r: Regex, n: nat)
    requires n < 9 && Flattens(items, r)
    ensures Flattens([Open(n)] + items + [Close(n)], Group(n, r))
  {
    hide AllMeaningful, Meanings;
    MeaningsOne(Open(n));
    MeaningsOne(Close(n));
    MeaningsConcat([Open(n)], items);
    MeaningsConcat([Open(n)] + items, [Close(n)]);
  }

  lemma {:induction false} ThenFlattens(a: seq<Item>, b: seq<Item>, r: Regex, q: Regex)
    requires Flattens(a, r) && Flattens(b, q)
    ensures Flattens(a + b, Concat(r, q))
  {
    hide AllMeaningful, Meanings;
    MeaningsConcat(a, b);
  }

  /** The pieces of what is written are the flattening of its tree. */
  lemma {:induction false} ItemsFlatten(a: Ast, n: nat, closed: nat, eof: byte)
    requires AstOk(a, n, closed, eof) && n + GroupCount(a) <= 9
    ensures Flattens(ItemsOf(a, n, closed, eof), Tree(a, n, closed, eof))
    decreases a
  {
    hide AtomOf, SignOk, LowOf, HighOf, BoundOk, Flattens;
    match a
    case Grouped(body) =>
      ItemsFlatten(body, n + 1, closed, eof);
      GroupFlattens(ItemsOf(body, n + 1, closed, eof), Tree(body, n + 1, closed, eof), n);
    case Then(x, y) =>
      var k, g := n + GroupCount(x), closed + GroupCount(x);
      ItemsFlatten(x, n, closed, eof);
      ItemsFlatten(y, k, g, eof);
      ThenFlattens(ItemsOf(x, n, closed, eof), ItemsOf(y, k, g, eof), Tree(x, n, closed, eof), Tree(y, k, g, eof));
    case _ => ItemFlattens(a, n, closed, eof);
  }

  predicate InRow(q: byte, n: nat, k: nat) {
    n <= q < n + k
  }

  /** The numbers below `n`. */
  function Below(n: nat): set<byte> {
    set q: byte | 0 <= q < 256 && InRow(q, 0, n)
  }

  /** The `k` numbers from `n` on. */
  function Numbers(n: nat, k: nat): set<byte> {
    set q: byte | 0 <= q < 256 && InRow(q, n, k)
  }

  /** Every reference is to a group that is closed before it. */
  predicate RefsEnded(a: Ast, n: nat, ended: set<byte>) {
    match a
    case Again(m) => m < 256 && m in ended
    case AgainStarred(m) => m < 256 && m in ended
    case Grouped(body) => RefsEnded(body, n + 1, ended)
    case Then(x, y) => RefsEnded(x, n, ended) && RefsEnded(y, n + GroupCount(x), ended + Numbers(n, GroupCount(x)))
    case _ => true
  }

  lemma {:induction false} SignProper(x: Sign, eof: byte)
    requires SignOk(x, eof)
    ensures Proper(AtomOf(x))
  {
    if x.Class? {
      forall k | 0 <= k < |x.marks| ensures !NamesAt(x.marks, k, 0) {
        assert MarkOk(x.marks, k, x.neg);
        if k > 0 {
          assert MarkOk(x.marks, k - 1, x.neg);
        }
      }
    }
  }

  /** What is written before `qs` is well formed when `qs` is so after its groups. */
  lemma {:induction false} WrittenWellFormed(a: Ast, n: nat, closed: nat, eof: byte, ended: set<byte>, qs: seq<Piece>)
    requires AstOk(a, n, closed, eof) && n + GroupCount(a) <= 9 && RefsEnded(a, n, ended) && ended <= Below(n)
    requires WellFormed(qs, Below(n + GroupCount(a)), ended + Numbers(n, GroupCount(a)))
    ensures WellFormed(Flatten(Tree(a, n, closed, eof)) + qs, Below(n), ended)
    decreases a
  {
    hide AtomOf, SignOk, Proper, WellFormed, Flatten;
    match a
    case Grouped(body) => GroupWellFormed(body, n, closed, eof, ended, qs);
    case Then(x, y) =>
      var mid, more := n + GroupCount(x), ended + Numbers(n, GroupCount(x));
      var rest := Flatten(Tree(y, mid, closed + GroupCount(x), eof)) + qs;
      NumbersJoin(ended, n, GroupCount(x), GroupCount(y));
      WrittenWellFormed(y, mid, closed + GroupCount(x), eof, more, qs);
      WrittenWellFormed(x, n, closed, eof, ended, rest);
      FlattenTwo(Tree(x, n, closed, eof), Tree(y, mid, closed + GroupCount(x), eof), qs);
    case _ => LeafWellFormed(a, n, closed, eof, ended, qs);
  }

  lemma {:induction false} FlattenTwo(a: Regex, b: Regex, qs: seq<Piece>)
    ensures Flatten(Concat(a, b)) + qs == Flatten(a) + (Flatten(b) + qs)
  {}

  lemma {:induction false} NumbersJoin(ended: set<byte>, n: nat, j: nat, k: nat)
    requires ended <= Below(n)
    ensures ended + Numbers(n, j) + Numbers(n + j, k) == ended + Numbers(n, j + k)
    ensures ended + Numbers(n, j) <= Below(n + j)
  {}

  lemma {:induction false} LeafWellFormed(a: Ast, n: nat, closed: nat, eof: byte, ended: set<byte>, qs: seq<Piece>)
    requires AstOk(a, n, closed, eof) && n + GroupCount(a) <= 9 && RefsEnded(a, n, ended) && !a.Grouped? && !a.Then?
    requires WellFormed(qs, Below(n), ended + Numbers(n, 0))
    ensures WellFormed(Flatten(Tree(a, n, closed, eof)) + qs, Below(n), ended)
  {
    hide AtomOf, SignOk, Proper;
    assert ended + Numbers(n, 0) == ended;
    var f := Flatten(Tree(a, n, closed, eof));
    if a.Nothing? {
      assert f + qs == qs;
    } else {
      assert |f| == 1 && (f + qs)[0] == f[0] && (f + qs)[1..] == qs;
      if a.Of? || a.Starred? || a.Times? {
        SignProper(a.x, eof);
      }
    }
  }

  lemma {:induction false} GroupWellFormed(body: Ast, n: nat, closed: nat, eof: byte, ended: set<byte>, qs: seq<Piece>)
    requires AstOk(Grouped(body), n, closed, eof) && n + GroupCount(Grouped(body)) <= 9
    requires RefsEnded(body, n + 1, ended) && ended <= Below(n)
    requires WellFormed(qs, Below(n + 1 + GroupCount(body)), ended + Numbers(n, 1 + GroupCount(body)))
    ensures WellFormed(Flatten(Tree(Grouped(body), n, closed, eof)) + qs, Below(n), ended)
    decreases Grouped(body), 0
  {
    hide AtomOf, SignOk, Proper, WellFormed, Flatten;
    var inner, k := Flatten(Tree(body, n + 1, closed, eof)), GroupCount(body);
    var rest := [End(n)] + qs;
    NumbersOne(ended, n, k);
    EndWellFormed(n, Below(n + 1 + k), ended + Numbers(n + 1, k), qs);
    WrittenWellFormed(body, n + 1, closed, eof, ended, rest);
    StartWellFormed(n, Below(n), ended, inner + rest);
    FlattenGroup(n, Tree(body, n + 1, closed, eof), qs);
  }

  lemma {:induction false} FlattenGroup(n: byte, body: Regex, qs: seq<Piece>)
    ensures Flatten(Group(n, body)) + qs == [Start(n)] + (Flatten(body) + ([End(n)] + qs))
  {}

  lemma {:induction false} NumbersOne(ended: set<byte>, n: nat, k: nat)
    requires n + k < 9 && ended <= Below(n)
    ensures ended + Numbers(n + 1, k) + {n} == ended + Numbers(n, 1 + k) && Below(n) + {n} == Below(n + 1)
    ensures n in Below(n + 1 + k) && n !in Below(n) && n !in ended + Numbers(n + 1, k) && ended <= Below(n + 1)
  {}

  lemma {:induction false} StartWellFormed(n: byte, begun: set<byte>, ended: set<byte>, qs: seq<Piece>)
    requires n < 9 && n !in begun && WellFormed(qs, begun + {n}, ended)
    ensures WellFormed([Start(n)] + qs, begun, ended)
  {
    assert ([Start(n)] + qs)[1..] == qs;
  }

  lemma {:induction false} EndWellFormed(n: byte, begun: set<byte>, ended: set<byte>, qs: seq<Piece>)
    requires n < 9 && n in begun && n !in ended && WellFormed(qs, begun, ended + {n})
    ensures WellFormed([End(n)] + qs, begun, ended)
  {
    assert ([End(n)] + qs)[1..] == qs;
  }

  // ----- the search ----------------------------------------------------------------------------------------

  function WrittenTree(p: Written, eof: byte): Regex
    requires WrittenOk(p, eof) && GroupCount(p.body) <= 9
  {
    var t := Tree(p.body, 0, 0, eof);
    if p.atEnd then Concat(t, Leaf(AtEnd)) else t
  }

  lemma {:induction false} WrittenSupported(p: Written, eof: byte)
    requires WrittenOk(p, eof) && GroupCount(p.body) <= 9 && RefsEnded(p.body, 0, {})
    ensures Supported(ItemsOfWritten(p, eof)) && Meanings(ItemsOfWritten(p, eof)) == Flatten(WrittenTree(p, eof))
  {
    hide AstOk, Tree, ItemsOf, RefsEnded;
    var tail, items := if p.atEnd then [Dollar] else [], ItemsOf(p.body, 0, 0, eof);
    ItemsFlatten(p.body, 0, 0, eof);
    MeaningsConcat(items, tail);
    assert items + [] == items;
    var qs := if p.atEnd then [AtEnd] else [];
    assert Meanings(tail) == qs;
    assert Below(0) == {};
    WrittenWellFormed(p.body, 0, 0, eof, {}, qs);
    assert Flatten(Tree(p.body, 0, 0, eof)) + [] == Flatten(Tree(p.body, 0, 0, eof));
  }

  lemma {:induction false} MeansWrittenTree(p: Written, eof: byte, s: seq<byte>, i: nat, j: nat, d: Caps)
    requires WrittenOk(p, eof) && GroupCount(p.body) <= 9 && i < |s|
    ensures MeansWritten(p, s, i, j, d) <==> Denotes(WrittenTree(p, eof), s, i, NO_CAPS, j, d)
  {
    hide AstOk, Tree, Means;
    forall m: nat, e
      ensures Means(p.body, 0, s, i, NO_CAPS, m, e) <==> Denotes(Tree(p.body, 0, 0, eof), s, i, NO_CAPS, m, e)
    {
      MeansTree(p.body, 0, 0, eof, s, i, NO_CAPS, m, e);
    }
  }

  /** From `i` on the pattern stands for no stretch. */
  ghost predicate MeansNone(p: Written, s: seq<byte>, i: nat)
    requires GroupCount(p.body) <= 9
  {
    forall j: nat, d :: !MeansWritten(p, s, i, j, d)
  }

  /** What a search for a written pattern is to find: the leftmost stretch it means. */
  ghost predicate FindsMeant(p: Written, s: seq<byte>, from: nat, found: Found)
    requires GroupCount(p.body) <= 9
  {
    match found
    case Unmatched => forall k :: from <= k < (if p.anchored then from + 1 else |s|) ==> MeansNone(p, s, k)
    case Matched(start, end) =>
      && from <= start < |s| && (p.anchored ==> start == from) && (exists d :: MeansWritten(p, s, start, end, d))
      && forall k :: from <= k < start ==> MeansNone(p, s, k)
    case _ => false
  }

  /** Compiling the spelling of a pattern and searching with the code finds the leftmost stretch that it means, or shows
      that there is none, unless the search is still going on. */
  lemma {:induction false} SearchFindsMeant(t: seq<byte>, p: Written, eof: byte, sed: bool, havePrevious: bool,
                                            s: seq<byte>, from: nat, turns: nat, found: Found)
    requires WrittenOk(p, eof) && GroupCount(p.body) <= 9 && RefsEnded(p.body, 0, {}) && from < |s|
    requires Stands(t, 0, SpellWritten(p, eof)) && EndsAt(t, |SpellWritten(p, eof)|, eof, sed)
    ensures var r := ParsePattern(t, eof, sed, havePrevious);
            && r.Pattern? && r.circf == p.anchored && Supported(r.items)
            && (Searched(r.items, s, from, r.circf, turns, found) && found != StillSearching ==>
                  FindsMeant(p, s, from, found))
  {
    hide ParsePattern, WrittenOk, SpellWritten, WellFormed, Stalls, HasTree, FindsMeant;
    ReadsWhatIsWritten(t, p, eof, sed, havePrevious);
    WrittenSupported(p, eof);
    var items, tree := ItemsOfWritten(p, eof), WrittenTree(p, eof);
    if Searched(items, s, from, p.anchored, turns, found) && found != StillSearching {
      assert FindsLeftmost(tree, s, from, p.anchored, found);
      LeftmostIsMeant(p, eof, s, from, found);
    }
  }

  lemma {:induction false} LeftmostIsMeant(p: Written, eof: byte, s: seq<byte>, from: nat, found: Found)
    requires WrittenOk(p, eof) && GroupCount(p.body) <= 9 && from < |s|
    requires FindsLeftmost(WrittenTree(p, eof), s, from, p.anchored, found)
    ensures FindsMeant(p, s, from, found)
  {
    hide WrittenOk, WrittenTree, MeansWritten;
    forall k: nat | k < |s| ensures MeansNone(p, s, k) <==> Misses(WrittenTree(p, eof), s, k) {
      NoneIsMisses(p, eof, s, k);
    }
    if found.Matched? {
      var ks, d :| Greatest(Flatten(WrittenTree(p, eof)), s, found.start, NO_CAPS, ks, Match(found.end, d))
                && Denotes(WrittenTree(p, eof), s, found.start, NO_CAPS, found.end, d);
      MeansWrittenTree(p, eof, s, found.start, found.end, d);
    }
  }

  lemma {:induction false} NoneIsMisses(p: Written, eof: byte, s: seq<byte>, i: nat)
    requires WrittenOk(p, eof) && GroupCount(p.body) <= 9 && i < |s|
    ensures MeansNone(p, s, i) <==> Misses(WrittenTree(p, eof), s, i)
  {
    hide WrittenOk, WrittenTree, MeansWritten;
    forall j: nat, d ensures MeansWritten(p, s, i, j, d) <==> Denotes(WrittenTree(p, eof), s, i, NO_CAPS, j, d) {
      MeansWrittenTree(p, eof, s, i, j, d);
    }
  }
}
