/** Patterns as one writes them down, and that reading gives back what was written. */
module RegexSpelling {
  import opened RegexSyntax
  import opened RegexParser

  // ----- what can be written ------------------------------------------------------------------------

  /** A part of a bracket expression: a character, or a dash and a character, which make a range with the part
      before. */
  datatype Mark = Char(c: byte) | To(d: byte)

  /** What stands for one character of the subject. */
  datatype Sign = Itself(c: byte) | Any | Class(neg: bool, marks: seq<Mark>)

  /** How often something may be repeated. */
  datatype Bound = Exactly(lo: nat) | AtLeast(lo: nat) | UpTo(lo: nat, hi: nat)

  datatype Ast =
    | Nothing
    | Of(x: Sign)
    | Starred(x: Sign)
    | Times(x: Sign, b: Bound)
    | Again(m: nat)
    | AgainStarred(m: nat)
    | Grouped(body: Ast)
    | Then(first: Ast, next: Ast)

  /** A pattern: whether it must match where the search starts, and whether it must reach the end of the subject. */
  datatype Written = Written(anchored: bool, body: Ast, atEnd: bool)

  // ----- how it is spelled ----------------------------------------------------------------------------

  predicate Operator(c: byte) {
    c in {PERIOD, ASTERISK, DOLLAR, LBRACKET, BACKSLASH, CARET}
  }

  /** Characters that mean something else after a backslash. */
  predicate EscapeLetter(c: byte) {
    c in {LPAREN, RPAREN, LBRACE, LETTER_N} || DIGIT1 <= c <= DIGIT9
  }

  function SpellChar(c: byte, eof: byte): seq<byte> {
    if c == NEWLINE then [BACKSLASH, LETTER_N] else if Operator(c) || c == eof then [BACKSLASH, c] else [c]
  }

  function SpellMark(m: Mark): seq<byte> {
    match m
    case Char(c) => [c]
    case To(d) => [MINUS, d]
  }

  /** The parts from `k` on. */
  function SpellMarks(marks: seq<Mark>, k: nat): seq<byte>
    requires k <= |marks|
    decreases |marks| - k
  {
    if k == |marks| then [RBRACKET] else SpellMark(marks[k]) + SpellMarks(marks, k + 1)
  }

  function SpellSign(x: Sign, eof: byte): seq<byte> {
    match x
    case Itself(c) => SpellChar(c, eof)
    case Any => [PERIOD]
    case Class(neg, marks) => [LBRACKET] + (if neg then [CARET] else []) + SpellMarks(marks, 0)
  }

  /** A number in decimal digits. */
  function Decimal(n: nat): (r: seq<byte>)
    ensures r != []
  {
    if n < 10 then [DIGIT0 + n] else Decimal(n / 10) + [DIGIT0 + n % 10]
  }

  function SpellBound(b: Bound): seq<byte> {
    [BACKSLASH, LBRACE] + (match b
      case Exactly(lo) => Decimal(lo)
      case AtLeast(lo) => Decimal(lo) + [COMMA]
      case UpTo(lo, hi) => Decimal(lo) + [COMMA] + Decimal(hi)) + [BACKSLASH, RBRACE]
  }

  function SpellRef(m: nat): seq<byte>
    requires m < 9
  {
    [BACKSLASH, DIGIT1 + m]
  }

  function Spell(a: Ast, eof: byte): seq<byte> {
    match a
    case Nothing => []
    case Of(x) => SpellSign(x, eof)
    case Starred(x) => SpellSign(x, eof) + [ASTERISK]
    case Times(x, b) => SpellSign(x, eof) + SpellBound(b)
    case Again(m) => if m < 9 then SpellRef(m) else []
    case AgainStarred(m) => if m < 9 then SpellRef(m) + [ASTERISK] else []
    case Grouped(body) => [BACKSLASH, LPAREN] + Spell(body, eof) + [BACKSLASH, RPAREN]
    case Then(x, y) => Spell(x, eof) + Spell(y, eof)
  }

  function SpellWritten(p: Written, eof: byte): seq<byte> {
    (if p.anchored then [CARET] else []) + Spell(p.body, eof) + if p.atEnd then [DOLLAR] else []
  }

  // ----- what has a spelling ---------------------------------------------------------------------------

  /** A delimiter that is no operator. */
  predicate DelimiterOk(eof: byte) {
    !Operator(eof)
  }

  /** A character other than NUL; the delimiter only if a backslash does not give it another meaning. */
  predicate CharOk(c: byte, eof: byte) {
    c != 0 && (c == eof && c != NEWLINE ==> !EscapeLetter(c))
  }

  /** A closing bracket comes first, a dash first or last, a caret not first, and a range has a part before it. */
  predicate MarkOk(marks: seq<Mark>, k: nat, neg: bool)
    requires k < |marks|
  {
    match marks[k]
    case Char(c) =>
      && c != 0 && c != NEWLINE && (c == RBRACKET ==> k == 0) && (c == MINUS ==> k == 0 || k == |marks| - 1)
      && (c == CARET && k == 0 ==> neg)
    case To(d) => k > 0 && d != 0 && d != RBRACKET
  }

  predicate SignOk(x: Sign, eof: byte) {
    match x
    case Itself(c) => CharOk(c, eof)
    case Any => true
    case Class(neg, marks) => marks != [] && forall k :: 0 <= k < |marks| ==> MarkOk(marks, k, neg)
  }

  predicate BoundOk(b: Bound) {
    b.lo < 255 && (b.UpTo? ==> b.lo <= b.hi < 255)
  }

  /** How many groups there are. */
  function GroupCount(a: Ast): nat {
    match a
    case Grouped(body) => 1 + GroupCount(body)
    case Then(x, y) => GroupCount(x) + GroupCount(y)
    case _ => 0
  }

  /** What may stand where `n` groups were opened before, and `closed` of them closed. */
  predicate AstOk(a: Ast, n: nat, closed: nat, eof: byte) {
    match a
    case Nothing => true
    case Of(x) => SignOk(x, eof)
    case Starred(x) => SignOk(x, eof)
    case Times(x, b) => SignOk(x, eof) && BoundOk(b)
    case Again(m) => m < closed && m < 9
    case AgainStarred(m) => m < closed && m < 9
    case Grouped(body) => n < 9 && AstOk(body, n + 1, closed, eof)
    case Then(x, y) => AstOk(x, n, closed, eof) && AstOk(y, n + GroupCount(x), closed + GroupCount(x), eof)
  }

  predicate WrittenOk(p: Written, eof: byte) {
    DelimiterOk(eof) && AstOk(p.body, 0, 0, eof) && SpellWritten(p, eof) != []
  }

  // ----- what it stands for -------------------------------------------------------------------------------

  /** The character a part ends with. */
  function Tip(m: Mark): byte {
    match m
    case Char(c) => c
    case To(d) => d
  }

  /** Part `k` names character `x`: itself, or one between the part before and it. */
  predicate NamesAt(marks: seq<Mark>, k: nat, x: byte)
    requires k < |marks|
  {
    match marks[k]
    case Char(c) => x == c
    case To(d) => x == d || (k > 0 && Tip(marks[k - 1]) <= x <= d)
  }

  /** The characters named by the parts from `k` on. */
  function NamedFrom(marks: seq<Mark>, k: nat): set<byte> {
    set x: byte | 0 <= x < 256 && SomeNames(marks, k, x)
  }

  predicate SomeNames(marks: seq<Mark>, k: nat, x: byte) {
    exists j :: k <= j < |marks| && NamesAt(marks, j, x)
  }

  function AtomOf(x: Sign): Atom {
    match x
    case Itself(c) => Chr(c)
    case Any => Dot
    case Class(neg, marks) => Cls(neg, NamedFrom(marks, 0))
  }

  function LowOf(b: Bound): byte
    requires BoundOk(b)
  {
    b.lo
  }

  function HighOf(b: Bound): byte
    requires BoundOk(b)
  {
    match b
    case Exactly(lo) => lo
    case AtLeast(_) => NO_LIMIT
    case UpTo(_, hi) => hi
  }

  /** The items of what is written, with groups numbered from `n` on. */
  function ItemsOf(a: Ast, n: nat, closed: nat, eof: byte): seq<Item>
    requires AstOk(a, n, closed, eof) && n + GroupCount(a) <= 9
  {
    match a
    case Nothing => []
    case Of(x) => [One(AtomOf(x))]
    case Starred(x) => [Star(One(AtomOf(x)))]
    case Times(x, b) => [Rnge(One(AtomOf(x)), LowOf(b), HighOf(b))]
    case Again(m) => [Back(m)]
    case AgainStarred(m) => [Star(Back(m))]
    case Grouped(body) => [Open(n)] + ItemsOf(body, n + 1, closed, eof) + [Close(n)]
    case Then(x, y) => ItemsOf(x, n, closed, eof) + ItemsOf(y, n + GroupCount(x), closed + GroupCount(x), eof)
  }

  // ----- reading what is spelled ---------------------------------------------------------------------------

  /** The text `w` stands at place `i`. */
  predicate Stands(t: seq<byte>, i: nat, w: seq<byte>) {
    i + |w| <= |t| && t[i..i + |w|] == w
  }

  lemma {:induction false} StandsSplit(t: seq<byte>, i: nat, v: seq<byte>, w: seq<byte>)
    requires Stands(t, i, v + w)
    ensures Stands(t, i, v) && Stands(t, i + |v|, w)
  {
    var x := t[i..i + |v + w|];
    assert v == (v + w)[..|v|] == x[..|v|] == t[i..i + |v|];
    assert w == (v + w)[|v|..] == x[|v|..] == t[i + |v|..i + |v| + |w|];
  }

  lemma {:induction false} StandsAt(t: seq<byte>, i: nat, w: seq<byte>, k: nat)
    requires Stands(t, i, w) && k < |w|
    ensures i + k < |t| && t[i + k] == w[k] && At(t, i + k) == w[k]
  {
    assert t[i..i + |w|][k] == t[i + k];
  }

  // ----- bracket expressions

  function NamedBy(marks: seq<Mark>, k: nat): set<byte>
    requires k < |marks|
  {
    set x: byte | 0 <= x < 256 && NamesAt(marks, k, x)
  }

  lemma {:induction false} NamedSplit(marks: seq<Mark>, k: nat, members: set<byte>)
    requires k < |marks|
    ensures members + NamedFrom(marks, k) == members + NamedBy(marks, k) + NamedFrom(marks, k + 1)
    ensures k + 1 == |marks| ==> NamedFrom(marks, k + 1) == {}
  {
    forall x: byte ensures SomeNames(marks, k, x) <==> SomeNames(marks, k + 1, x) || NamesAt(marks, k, x) {}
  }

  /** The character before part `k`, or NUL. */
  function Before(marks: seq<Mark>, k: nat): byte
    requires k <= |marks|
  {
    if k == 0 then 0 else Tip(marks[k - 1])
  }

  predicate MarksOk(marks: seq<Mark>, neg: bool) {
    forall k :: 0 <= k < |marks| ==> MarkOk(marks, k, neg)
  }

  /** Reading one part adds the characters it names. */
  lemma {:induction false} MarkRead(t: seq<byte>, i: nat, marks: seq<Mark>, k: nat, neg: bool, members: set<byte>)
    requires k < |marks| && MarksOk(marks, neg) && Stands(t, i, SpellMarks(marks, k))
    ensures var j := i + |SpellMark(marks[k])|;
            && j <= |t| + 1 && Stands(t, j, SpellMarks(marks, k + 1))
            && ParseBracket(t, i, Before(marks, k), members)
            == MoreBracket(t, i, j, Tip(marks[k]), members + NamedBy(marks, k))
  {
    hide ParseBracket, MoreBracket, NamedBy, SpellMarks;
    var w, rest, m := SpellMarks(marks, k), SpellMarks(marks, k + 1), marks[k];
    SpellMarksStep(marks, k);
    StandsSplit(t, i, SpellMark(m), rest);
    StandsAt(t, i, SpellMark(m), 0);
    RestStarts(t, i + |SpellMark(m)|, marks, k + 1, neg);
    NamedByIs(marks, k, neg);
    match m
    case Char(c) => CharStep(t, i, Before(marks, k), c, members);
    case To(d) =>
      StandsAt(t, i, SpellMark(m), 1);
      ToStep(t, i, Before(marks, k), d, members);
  }

  lemma {:induction false} SpellMarksStep(marks: seq<Mark>, k: nat)
    requires k < |marks|
    ensures SpellMarks(marks, k) == SpellMark(marks[k]) + SpellMarks(marks, k + 1)
  {}

  lemma {:induction false} NamedByIs(marks: seq<Mark>, k: nat, neg: bool)
    requires k < |marks| && MarksOk(marks, neg)
    ensures MarkOk(marks, k, neg)
    ensures marks[k].Char? ==> NamedBy(marks, k) == {marks[k].c}
    ensures marks[k].To? ==> Before(marks, k) != 0 && NamedBy(marks, k) == RangeOf(Before(marks, k), marks[k].d)
  {
    assert MarkOk(marks, k, neg);
    if marks[k].To? {
      assert MarkOk(marks, k - 1, neg);
    }
  }

  lemma {:induction false} CharStep(t: seq<byte>, i: nat, last: byte, c: byte, members: set<byte>)
    requires i < |t| && At(t, i) == c && c != 0 && c != NEWLINE
    requires c == MINUS && last != 0 ==> At(t, i + 1) == RBRACKET
    ensures ParseBracket(t, i, last, members) == MoreBracket(t, i, i + 1, c, members + {c})
  {}

  lemma {:induction false} ToStep(t: seq<byte>, i: nat, last: byte, d: byte, members: set<byte>)
    requires i + 1 < |t| && At(t, i) == MINUS && last != 0 && At(t, i + 1) == d != RBRACKET
    ensures ParseBracket(t, i, last, members) == MoreBracket(t, i, i + 2, d, members + RangeOf(last, d))
  {}

  /** Reading the parts from `k` on adds the characters they name. */
  lemma {:induction false} MarksRead(t: seq<byte>, i: nat, marks: seq<Mark>, k: nat, neg: bool, members: set<byte>)
    requires k < |marks| && MarksOk(marks, neg) && Stands(t, i, SpellMarks(marks, k))
    ensures i <= |t| + 1
    ensures ParseBracket(t, i, Before(marks, k), members)
         == BracketOk(members + NamedFrom(marks, k), i + |SpellMarks(marks, k)|)
    decreases |marks| - k
  {
    hide ParseBracket, NamedFrom, NamedBy, MarksOk, Stands;
    MarkRead(t, i, marks, k, neg, members);
    NamedSplit(marks, k, members);
    var j := i + |SpellMark(marks[k])|;
    RestStarts(t, j, marks, k + 1, neg);
    if k + 1 < |marks| {
      MarksRead(t, j, marks, k + 1, neg, members + NamedBy(marks, k));
    }
  }

  /** What follows a part: another one, or the closing bracket. */
  lemma {:induction false} RestStarts(t: seq<byte>, i: nat, marks: seq<Mark>, k: nat, neg: bool)
    requires 0 < k <= |marks| && MarksOk(marks, neg) && Stands(t, i, SpellMarks(marks, k))
    ensures i < |t| && (At(t, i) == RBRACKET <==> k == |marks|)
    ensures k == |marks| ==> |SpellMarks(marks, k)| == 1
  {
    var w := SpellMarks(marks, k);
    StandsAt(t, i, w, 0);
    if k < |marks| {
      assert MarkOk(marks, k, neg);
      assert w[0] == SpellMark(marks[k])[0];
    }
  }

  // ----- signs

  lemma {:induction false} SignRead(t: seq<byte>, i: nat, eof: byte, sed: bool, st: Progress, x: Sign)
    requires DelimiterOk(eof) && SignOk(x, eof) && Stands(t, i, SpellSign(x, eof))
    ensures i < |t| && ReadOne(t, i, eof, sed, st) == More(i + |SpellSign(x, eof)|, Add(st, One(AtomOf(x))))
  {
    var w := SpellSign(x, eof);
    match x
    case Itself(c) => CharRead(t, i, eof, sed, st, c);
    case Any => StandsAt(t, i, w, 0);
    case Class(neg, marks) => ClassRead(t, i, eof, sed, st, neg, marks);
  }

  lemma {:induction false} CharRead(t: seq<byte>, i: nat, eof: byte, sed: bool, st: Progress, c: byte)
    requires DelimiterOk(eof) && CharOk(c, eof) && Stands(t, i, SpellChar(c, eof))
    ensures i < |t| && ReadOne(t, i, eof, sed, st) == More(i + |SpellChar(c, eof)|, Add(st, One(Chr(c))))
  {
    hide ParseBracket, ParseInterval;
    var w := SpellChar(c, eof);
    StandsAt(t, i, w, 0);
    if |w| == 2 {
      StandsAt(t, i, w, 1);
    }
  }

  lemma {:induction false} ClassRead(t: seq<byte>, i: nat, eof: byte, sed: bool, st: Progress, neg: bool,
                                     marks: seq<Mark>)
    requires DelimiterOk(eof) && SignOk(Class(neg, marks), eof) && Stands(t, i, SpellSign(Class(neg, marks), eof))
    ensures var w := SpellSign(Class(neg, marks), eof);
            && i < |t|
            && ReadOne(t, i, eof, sed, st) == More(i + |w|, Add(st, One(Cls(neg, NamedFrom(marks, 0)))))
  {
    hide ParseBracket, NamedFrom, SpellMarks, ParseInterval;
    var head, rest := [LBRACKET] + (if neg then [CARET] else []), SpellMarks(marks, 0);
    StandsSplit(t, i, head, rest);
    StandsAt(t, i, head, 0);
    if neg {
      StandsAt(t, i, head, 1);
    } else {
      FirstMark(t, i + 1, marks);
    }
    assert MarksOk(marks, neg);
    MarksRead(t, i + |head|, marks, 0, neg, {});
    assert {} + NamedFrom(marks, 0) == NamedFrom(marks, 0);
  }

  lemma {:induction false} FirstMark(t: seq<byte>, i: nat, marks: seq<Mark>)
    requires marks != [] && MarkOk(marks, 0, false) && Stands(t, i, SpellMarks(marks, 0))
    ensures At(t, i) != CARET
  {
    SpellMarksStep(marks, 0);
    StandsSplit(t, i, SpellMark(marks[0]), SpellMarks(marks, 1));
    StandsAt(t, i, SpellMark(marks[0]), 0);
  }

  // ----- bounds

  /** The number that digits are in decimal, after `v`. */
  function ValueOf(ds: seq<byte>, v: nat): int {
    if ds == [] then v else 10 * ValueOf(ds[..|ds| - 1], v) + (ds[|ds| - 1] - DIGIT0)
  }

  predicate AllDigits(ds: seq<byte>) {
    forall k :: 0 <= k < |ds| ==> IsDigit(ds[k])
  }

  lemma {:induction false} DecimalValue(n: nat)
    ensures AllDigits(Decimal(n)) && ValueOf(Decimal(n), 0) == n
  {
    if n < 10 {
      assert ValueOf([], 0) == 0;
    } else {
      DecimalValue(n / 10);
      var ds := Decimal(n / 10);
      assert (ds + [DIGIT0 + n % 10])[..|ds|] == ds;
    }
  }

  lemma {:induction false} ValueFirst(ds: seq<byte>, v: nat)
    requires ds != [] && AllDigits(ds)
    ensures ValueOf(ds, v) == ValueOf(ds[1..], 10 * v + (ds[0] - DIGIT0))
  {
    if |ds| == 1 {
      assert ds[..0] == [] && ds[1..] == [];
      assert ValueOf(ds, v) == 10 * ValueOf([], v) + (ds[0] - DIGIT0);
    } else {
      ValueFirst(ds[..|ds| - 1], v);
      assert ds[1..][..|ds| - 2] == ds[..|ds| - 1][1..];
    }
  }

  /** Digits are read up to what ends them. */
  lemma {:induction false} NumberRead(t: seq<byte>, i: nat, ds: seq<byte>, v: nat)
    requires ds != [] && AllDigits(ds) && Stands(t, i, ds) && At(t, i + |ds|) in {BACKSLASH, COMMA}
    ensures ValueOf(ds, v) >= 0 && ParseNumber(t, i, v) == NumberOk(ValueOf(ds, v), i + |ds|)
    decreases |ds|
  {
    StandsAt(t, i, ds, 0);
    ValueFirst(ds, v);
    var w := 10 * v + (ds[0] - DIGIT0);
    if |ds| == 1 {
      assert ds[1..] == [];
    } else {
      StandsAt(t, i, ds, 1);
      assert ds == ds[..1] + ds[1..];
      StandsSplit(t, i, ds[..1], ds[1..]);
      NumberRead(t, i + 1, ds[1..], w);
    }
  }

  lemma {:induction false} DecimalRead(t: seq<byte>, i: nat, n: nat)
    requires Stands(t, i, Decimal(n)) && At(t, i + |Decimal(n)|) in {BACKSLASH, COMMA}
    ensures ParseNumber(t, i, 0) == NumberOk(n, i + |Decimal(n)|)
  {
    DecimalValue(n);
    NumberRead(t, i, Decimal(n), 0);
  }

  /** A number and what follows it. */
  lemma {:induction false} NumberStands(t: seq<byte>, i: nat, n: nat, rest: seq<byte>)
    requires rest != [] && rest[0] in {BACKSLASH, COMMA} && Stands(t, i, Decimal(n) + rest)
    ensures Stands(t, i + |Decimal(n)|, rest) && ParseNumber(t, i, 0) == NumberOk(n, i + |Decimal(n)|)
    ensures At(t, i) != BACKSLASH
  {
    StandsSplit(t, i, Decimal(n), rest);
    StandsAt(t, i + |Decimal(n)|, rest, 0);
    DecimalRead(t, i, n);
    FirstDigit(t, i, n);
  }

  /** The part of a bound after its opening brace. */
  function BoundTail(b: Bound): seq<byte> {
    var close := [BACKSLASH, RBRACE];
    match b
    case Exactly(lo) => Decimal(lo) + close
    case AtLeast(lo) => Decimal(lo) + ([COMMA] + close)
    case UpTo(lo, hi) => Decimal(lo) + ([COMMA] + (Decimal(hi) + close))
  }

  lemma {:induction false} TailRead(t: seq<byte>, i: nat, b: Bound)
    requires BoundOk(b) && Stands(t, i, BoundTail(b))
    ensures ParseInterval(t, i) == IntervalOk(LowOf(b), HighOf(b), i + |BoundTail(b)|)
  {
    hide ParseNumber, Decimal, Stands;
    var close, j := [BACKSLASH, RBRACE], i + |Decimal(b.lo)|;
    match b
    case Exactly(lo) =>
      NumberStands(t, i, lo, close);
      TwoStand(t, j, close);
    case AtLeast(lo) =>
      NumberStands(t, i, lo, [COMMA] + close);
      StandsAt(t, j, [COMMA] + close, 0);
      StandsSplit(t, j, [COMMA], close);
      TwoStand(t, j + 1, close);
    case UpTo(lo, hi) => UpToRead(t, i, lo, hi);
  }

  lemma {:induction false} UpToRead(t: seq<byte>, i: nat, lo: nat, hi: nat)
    requires lo <= hi < 255 && Stands(t, i, BoundTail(UpTo(lo, hi)))
    ensures ParseInterval(t, i) == IntervalOk(lo, hi, i + |BoundTail(UpTo(lo, hi))|)
  {
    hide ParseNumber, Decimal, Stands;
    var close, j := [BACKSLASH, RBRACE], i + |Decimal(lo)|;
    var rest := Decimal(hi) + close;
    NumberStands(t, i, lo, [COMMA] + rest);
    StandsAt(t, j, [COMMA] + rest, 0);
    StandsSplit(t, j, [COMMA], rest);
    NumberStands(t, j + 1, hi, close);
    TwoStand(t, j + 1 + |Decimal(hi)|, close);
  }

  /** A bound after an item applies to it. */
  lemma {:induction false} BoundRead(t: seq<byte>, i: nat, b: Bound)
    requires BoundOk(b) && Stands(t, i, SpellBound(b))
    ensures i + 1 < |t| && At(t, i) == BACKSLASH && At(t, i + 1) == LBRACE
    ensures ParseInterval(t, i + 2) == IntervalOk(LowOf(b), HighOf(b), i + |SpellBound(b)|)
  {
    hide ParseInterval, Decimal, Stands;
    assert SpellBound(b) == [BACKSLASH, LBRACE] + BoundTail(b);
    StandsSplit(t, i, [BACKSLASH, LBRACE], BoundTail(b));
    TwoStand(t, i, [BACKSLASH, LBRACE]);
    TailRead(t, i + 2, b);
  }

  lemma {:induction false} TwoStand(t: seq<byte>, i: nat, w: seq<byte>)
    requires |w| == 2 && Stands(t, i, w)
    ensures i + 1 < |t| && At(t, i) == w[0] && At(t, i + 1) == w[1]
  {
    StandsAt(t, i, w, 0);
    StandsAt(t, i, w, 1);
  }

  lemma {:induction false} FirstDigit(t: seq<byte>, i: nat, n: nat)
    requires Stands(t, i, Decimal(n))
    ensures At(t, i) != BACKSLASH
  {
    DecimalValue(n);
    StandsAt(t, i, Decimal(n), 0);
    assert IsDigit(Decimal(n)[0]);
  }

  // ----- whole patterns

  /** Where reading stands after what is written was read. */
  function After(a: Ast, st: Progress, eof: byte): Progress
    requires AstOk(a, st.nbra, st.closed, eof) && st.nbra + GroupCount(a) <= 9
  {
    var n := GroupCount(a);
    Progress(st.items + ItemsOf(a, st.nbra, st.closed, eof), st.open, st.nbra + n, st.closed + n)
  }

  /** Reading goes from place to place. */
  ghost predicate Leads(t: seq<byte>, eof: byte, sed: bool, i: nat, st: Progress, j: nat, now: Progress) {
    i <= j <= |t| && ParseItems(t, i, eof, sed, st) == ParseItems(t, j, eof, sed, now)
  }

  lemma {:induction false} ReadLeads(t: seq<byte>, eof: byte, sed: bool, i: nat, st: Progress, j: nat, now: Progress)
    requires i < |t| && j <= |t| && ReadOne(t, i, eof, sed, st) == More(j, now)
    ensures Leads(t, eof, sed, i, st, j, now)
  {
    hide ReadOne;
  }

  lemma {:induction false} SignLeads(t: seq<byte>, eof: byte, sed: bool, i: nat, st: Progress, x: Sign)
    requires DelimiterOk(eof) && SignOk(x, eof) && Stands(t, i, SpellSign(x, eof))
    ensures Leads(t, eof, sed, i, st, i + |SpellSign(x, eof)|, Add(st, One(AtomOf(x))))
  {
    hide ReadOne, SpellSign;
    SignRead(t, i, eof, sed, st, x);
    ReadLeads(t, eof, sed, i, st, i + |SpellSign(x, eof)|, Add(st, One(AtomOf(x))));
  }

  lemma {:induction false} ReplaceAdded(st: Progress, it: Item, now: Item)
    ensures Add(st, it).items != [] && Last(Add(st, it).items) == it
    ensures ReplaceLast(Add(st, it).items, now) == st.items + [now]
  {
    assert (st.items + [it])[..|st.items|] == st.items;
  }

  /** An asterisk after a sign or a reference. */
  lemma {:induction false} StarLeads(t: seq<byte>, eof: byte, sed: bool, i: nat, st: Progress, it: Item)
    requires DelimiterOk(eof) && (it.One? || it.Back?) && Stands(t, i, [ASTERISK])
    ensures Leads(t, eof, sed, i, Add(st, it), i + 1, Add(st, Star(it)))
  {
    hide ParseItems;
    StandsAt(t, i, [ASTERISK], 0);
    ReplaceAdded(st, it, Star(it));
    ReadLeads(t, eof, sed, i, Add(st, it), i + 1, Add(st, Star(it)));
  }

  lemma {:induction false} TimesLeads(t: seq<byte>, eof: byte, sed: bool, i: nat, st: Progress, it: Item, b: Bound)
    requires DelimiterOk(eof) && BoundOk(b) && Stands(t, i, SpellBound(b))
    ensures Leads(t, eof, sed, i, Add(st, it), i + |SpellBound(b)|, Add(st, Rnge(it, LowOf(b), HighOf(b))))
  {
    hide ParseItems, ParseInterval, ParseBracket, SpellBound;
    BoundRead(t, i, b);
    ReplaceAdded(st, it, Rnge(it, LowOf(b), HighOf(b)));
    ReadLeads(t, eof, sed, i, Add(st, it), i + |SpellBound(b)|, Add(st, Rnge(it, LowOf(b), HighOf(b))));
  }

  lemma {:induction false} RefLeads(t: seq<byte>, eof: byte, sed: bool, i: nat, st: Progress, m: nat)
    requires DelimiterOk(eof) && m < 9 && m < st.closed && Stands(t, i, SpellRef(m))
    ensures Leads(t, eof, sed, i, st, i + 2, Add(st, Back(m)))
  {
    hide ParseItems, ParseInterval, ParseBracket;
    TwoStand(t, i, SpellRef(m));
    ReadLeads(t, eof, sed, i, st, i + 2, Add(st, Back(m)));
  }

  function Opened(st: Progress): Progress
    requires st.nbra < 9
  {
    Progress(st.items + [Open(st.nbra)], st.open + [st.nbra], st.nbra + 1, st.closed)
  }

  lemma {:induction false} OpenLeads(t: seq<byte>, eof: byte, sed: bool, i: nat, st: Progress)
    requires DelimiterOk(eof) && st.nbra < 9 && Stands(t, i, [BACKSLASH, LPAREN])
    ensures Leads(t, eof, sed, i, st, i + 2, Opened(st))
  {
    hide ParseItems, ParseInterval, ParseBracket;
    TwoStand(t, i, [BACKSLASH, LPAREN]);
    ReadLeads(t, eof, sed, i, st, i + 2, Opened(st));
  }

  lemma {:induction false} CloseLeads(t: seq<byte>, eof: byte, sed: bool, i: nat, st: Progress, open: seq<byte>,
                                      n: byte)
    requires DelimiterOk(eof) && st.open == open + [n] && Stands(t, i, [BACKSLASH, RPAREN])
    ensures Leads(t, eof, sed, i, st, i + 2, Progress(st.items + [Close(n)], open, st.nbra, st.closed + 1))
  {
    hide ParseItems, ParseInterval, ParseBracket;
    TwoStand(t, i, [BACKSLASH, RPAREN]);
    assert (open + [n])[..|open|] == open;
    ReadLeads(t, eof, sed, i, st, i + 2, Progress(st.items + [Close(n)], open, st.nbra, st.closed + 1));
  }

  /** Reading what is spelled yields its items. */
  lemma {:induction false} SpelledLeads(t: seq<byte>, eof: byte, sed: bool, i: nat, st: Progress, a: Ast)
    requires DelimiterOk(eof) && AstOk(a, st.nbra, st.closed, eof) && st.nbra + GroupCount(a) <= 9
    requires Stands(t, i, Spell(a, eof))
    ensures Leads(t, eof, sed, i, st, i + |Spell(a, eof)|, After(a, st, eof))
    decreases a
  {
    hide ParseItems, SpellSign, SpellBound, SignOk, AtomOf, Stands;
    match a
    case Nothing =>
      StandsInside(t, i, []);
      assert After(a, st, eof) == st;
    case Of(x) => SignLeads(t, eof, sed, i, st, x);
    case Starred(x) =>
      StandsSplit(t, i, SpellSign(x, eof), [ASTERISK]);
      SignLeads(t, eof, sed, i, st, x);
      StarLeads(t, eof, sed, i + |SpellSign(x, eof)|, st, One(AtomOf(x)));
    case Times(x, b) =>
      StandsSplit(t, i, SpellSign(x, eof), SpellBound(b));
      SignLeads(t, eof, sed, i, st, x);
      TimesLeads(t, eof, sed, i + |SpellSign(x, eof)|, st, One(AtomOf(x)), b);
    case Again(m) => RefLeads(t, eof, sed, i, st, m);
    case AgainStarred(m) =>
      StandsSplit(t, i, SpellRef(m), [ASTERISK]);
      RefLeads(t, eof, sed, i, st, m);
      StarLeads(t, eof, sed, i + 2, st, Back(m));
    case Grouped(body) => GroupLeads(t, eof, sed, i, st, body);
    case Then(x, y) => ThenLeads(t, eof, sed, i, st, x, y);
  }

  lemma {:induction false} StandsInside(t: seq<byte>, i: nat, w: seq<byte>)
    requires Stands(t, i, w)
    ensures i + |w| <= |t|
  {}

  lemma {:induction false} GroupLeads(t: seq<byte>, eof: byte, sed: bool, i: nat, st: Progress, body: Ast)
    requires DelimiterOk(eof) && AstOk(Grouped(body), st.nbra, st.closed, eof)
    requires st.nbra + GroupCount(Grouped(body)) <= 9
    requires Stands(t, i, Spell(Grouped(body), eof))
    ensures Leads(t, eof, sed, i, st, i + |Spell(Grouped(body), eof)|, After(Grouped(body), st, eof))
    decreases Grouped(body), 0
  {
    hide Leads, Stands, ItemsOf, AstOk, Spell, GroupCount;
    var w, n := Spell(body, eof), st.nbra;
    GroupParts(body, st, eof);
    StandsSplit(t, i, [BACKSLASH, LPAREN], w + [BACKSLASH, RPAREN]);
    StandsSplit(t, i + 2, w, [BACKSLASH, RPAREN]);
    OpenLeads(t, eof, sed, i, st);
    SpelledLeads(t, eof, sed, i + 2, Opened(st), body);
    var mid := After(body, Opened(st), eof);
    CloseLeads(t, eof, sed, i + 2 + |w|, mid, st.open, n);
    var last := Progress(mid.items + [Close(n)], st.open, mid.nbra, mid.closed + 1);
    LeadsOn(t, eof, sed, i, st, i + 2, Opened(st), i + 2 + |w|, mid);
    LeadsOn(t, eof, sed, i, st, i + 2 + |w|, mid, i + 4 + |w|, last);
  }

  lemma {:induction false} LeadsOn(t: seq<byte>, eof: byte, sed: bool, i: nat, st: Progress, j: nat, mid: Progress,
                                   k: nat, now: Progress)
    requires Leads(t, eof, sed, i, st, j, mid) && Leads(t, eof, sed, j, mid, k, now)
    ensures Leads(t, eof, sed, i, st, k, now)
  {}

  lemma {:induction false} GroupParts(body: Ast, st: Progress, eof: byte)
    requires AstOk(Grouped(body), st.nbra, st.closed, eof) && st.nbra + GroupCount(Grouped(body)) <= 9
    ensures GroupCount(Grouped(body)) == GroupCount(body) + 1 && st.nbra < 9 && AstOk(body, st.nbra + 1, st.closed, eof)
    ensures Spell(Grouped(body), eof) == [BACKSLASH, LPAREN] + (Spell(body, eof) + [BACKSLASH, RPAREN])
    ensures var mid := After(body, Opened(st), eof);
            After(Grouped(body), st, eof) ==
            Progress(mid.items + [Close(st.nbra)], st.open, mid.nbra, mid.closed + 1)
  {
    assert Spell(Grouped(body), eof) == [BACKSLASH, LPAREN] + Spell(body, eof) + [BACKSLASH, RPAREN];
    var items, n := ItemsOf(body, st.nbra + 1, st.closed, eof), st.nbra;
    assert st.items + ([Open(n)] + items + [Close(n)]) == st.items + [Open(n)] + items + [Close(n)];
  }

  lemma {:induction false} ThenParts(x: Ast, y: Ast, st: Progress, eof: byte)
    requires AstOk(Then(x, y), st.nbra, st.closed, eof) && st.nbra + GroupCount(Then(x, y)) <= 9
    ensures GroupCount(Then(x, y)) == GroupCount(x) + GroupCount(y) && AstOk(x, st.nbra, st.closed, eof)
    ensures var mid := After(x, st, eof);
            AstOk(y, mid.nbra, mid.closed, eof) && After(Then(x, y), st, eof) == After(y, mid, eof)
    ensures Spell(Then(x, y), eof) == Spell(x, eof) + Spell(y, eof)
  {
    var a, n := ItemsOf(x, st.nbra, st.closed, eof), GroupCount(x);
    var b := ItemsOf(y, st.nbra + n, st.closed + n, eof);
    assert st.items + (a + b) == st.items + a + b;
  }

  lemma {:induction false} ThenLeads(t: seq<byte>, eof: byte, sed: bool, i: nat, st: Progress, x: Ast, y: Ast)
    requires DelimiterOk(eof) && AstOk(Then(x, y), st.nbra, st.closed, eof) && st.nbra + GroupCount(Then(x, y)) <= 9
    requires Stands(t, i, Spell(Then(x, y), eof))
    ensures Leads(t, eof, sed, i, st, i + |Spell(Then(x, y), eof)|, After(Then(x, y), st, eof))
    decreases Then(x, y), 0
  {
    hide Leads, Stands, ItemsOf, AstOk, Spell, GroupCount;
    ThenParts(x, y, st, eof);
    StandsSplit(t, i, Spell(x, eof), Spell(y, eof));
    SpelledLeads(t, eof, sed, i, st, x);
    var mid, j := After(x, st, eof), i + |Spell(x, eof)|;
    SpelledLeads(t, eof, sed, j, mid, y);
    LeadsOn(t, eof, sed, i, st, j, mid, j + |Spell(y, eof)|, After(y, mid, eof));
  }

  /** The items of a pattern. */
  function ItemsOfWritten(p: Written, eof: byte): seq<Item>
    requires WrittenOk(p, eof) && GroupCount(p.body) <= 9
  {
    ItemsOf(p.body, 0, 0, eof) + if p.atEnd then [Dollar] else []
  }

  /** What ends a pattern: the delimiter, which is the end of the text if it is NUL, or outside the editor a newline. */
  predicate EndsAt(t: seq<byte>, n: nat, eof: byte, sed: bool) {
    At(t, n) == eof || (At(t, n) == NEWLINE && !sed)
  }

  /** Reading gives back what was written: a text that starts with the spelling of a pattern, and has its end there, is
      read as that pattern. */
  lemma {:induction false} ReadsWhatIsWritten(t: seq<byte>, p: Written, eof: byte, sed: bool, havePrevious: bool)
    requires WrittenOk(p, eof) && GroupCount(p.body) <= 9
    requires Stands(t, 0, SpellWritten(p, eof)) && EndsAt(t, |SpellWritten(p, eof)|, eof, sed)
    ensures var n := |SpellWritten(p, eof)|;
            var delimited := At(t, n) == eof;
            ParsePattern(t, eof, sed, havePrevious) ==
            Pattern(ItemsOfWritten(p, eof), p.anchored, GroupCount(p.body), !delimited, if delimited then n + 1 else n)
  {
    hide ParseItems, WrittenOk, SpellWritten, Stands, ItemsOfWritten, EndsAt;
    StartsRight(t, p, eof);
    BodyRead(t, p, eof, sed);
  }

  lemma {:induction false} BodyRead(t: seq<byte>, p: Written, eof: byte, sed: bool)
    requires WrittenOk(p, eof) && GroupCount(p.body) <= 9
    requires Stands(t, 0, SpellWritten(p, eof)) && EndsAt(t, |SpellWritten(p, eof)|, eof, sed)
    ensures var i, n := if p.anchored then 1 else 0, |SpellWritten(p, eof)|;
            var delimited := At(t, n) == eof;
            i <= |t| + 1 && ParseItems(t, i, eof, sed, Progress([], [], 0, 0)) ==
            Parsed(ItemsOfWritten(p, eof), GroupCount(p.body), !delimited, if delimited then n + 1 else n)
  {
    hide ParseItems, AstOk, Spell, SpellWritten, Stands, ItemsOf, GroupCount, DelimiterOk, EndsAt, At;
    var st, i, w := Progress([], [], 0, 0), if p.anchored then 1 else 0, Spell(p.body, eof);
    SpellingParts(t, p, eof);
    SpelledLeads(t, eof, sed, i, st, p.body);
    var mid := After(p.body, st, eof);
    assert mid == Progress(ItemsOf(p.body, 0, 0, eof), [], GroupCount(p.body), GroupCount(p.body));
    StandsInside(t, i, w);
    EndLeads(t, eof, sed, i + |w|, mid, p.atEnd);
  }

  lemma {:induction false} SpellingParts(t: seq<byte>, p: Written, eof: byte)
    requires Stands(t, 0, SpellWritten(p, eof))
    ensures var i, w, tail := if p.anchored then 1 else 0, Spell(p.body, eof), if p.atEnd then [DOLLAR] else [];
            && Stands(t, i, w) && Stands(t, i + |w|, tail) && |SpellWritten(p, eof)| == i + |w| + |tail|
  {
    hide Spell, Stands;
    var head, w := if p.anchored then [CARET] else [], Spell(p.body, eof);
    var tail := if p.atEnd then [DOLLAR] else [];
    assert SpellWritten(p, eof) == head + (w + tail);
    StandsSplit(t, 0, head, w + tail);
    StandsSplit(t, |head|, w, tail);
  }

  lemma {:induction false} EndLeads(t: seq<byte>, eof: byte, sed: bool, i: nat, st: Progress, atEnd: bool)
    requires DelimiterOk(eof) && st.open == [] && Stands(t, i, if atEnd then [DOLLAR] else [])
    requires EndsAt(t, if atEnd then i + 1 else i, eof, sed) && i <= |t|
    ensures var n := if atEnd then i + 1 else i;
            var delimited := At(t, n) == eof;
            ParseItems(t, i, eof, sed, st) ==
            Parsed(st.items + (if atEnd then [Dollar] else []), st.nbra, !delimited, if delimited then n + 1 else n)
  {
    hide ParseBracket, ParseInterval, ReadEscape;
    if atEnd {
      StandsAt(t, i, [DOLLAR], 0);
      assert ReadOne(t, i, eof, sed, st) == More(i + 1, Add(st, Dollar));
      assert ReadOne(t, i + 1, eof, sed, Add(st, Dollar)).Done?;
    } else {
      assert st.items + [] == st.items;
    }
  }

  /** The first character of a spelling is no delimiter and no newline, and a caret only in an anchored pattern. */
  lemma {:induction false} StartsRight(t: seq<byte>, p: Written, eof: byte)
    requires WrittenOk(p, eof) && Stands(t, 0, SpellWritten(p, eof))
    ensures At(t, 0) != NEWLINE && At(t, 0) != eof && (At(t, 0) == CARET <==> p.anchored)
  {
    var w := SpellWritten(p, eof);
    StandsAt(t, 0, w, 0);
    if !p.anchored {
      if Spell(p.body, eof) == [] {
        assert w == [DOLLAR];
      } else {
        FirstSpelled(p.body, 0, 0, eof);
        assert w[0] == Spell(p.body, eof)[0];
      }
    }
  }

  lemma {:induction false} FirstSpelled(a: Ast, n: nat, closed: nat, eof: byte)
    requires DelimiterOk(eof) && AstOk(a, n, closed, eof) && Spell(a, eof) != []
    ensures Spell(a, eof)[0] !in {NEWLINE, CARET, eof}
    decreases a
  {
    match a
    case Of(x) => FirstOfSign(x, eof);
    case Starred(x) => FirstOfSign(x, eof);
    case Times(x, b) => FirstOfSign(x, eof);
    case Then(x, y) =>
      if Spell(x, eof) != [] {
        FirstSpelled(x, n, closed, eof);
      } else {
        FirstSpelled(y, n + GroupCount(x), closed + GroupCount(x), eof);
      }
    case _ =>
  }

  lemma {:induction false} FirstOfSign(x: Sign, eof: byte)
    requires DelimiterOk(eof) && SignOk(x, eof)
    ensures SpellSign(x, eof) != [] && SpellSign(x, eof)[0] !in {NEWLINE, CARET, eof}
  {}

  // ----- what cannot be read ---------------------------------------------------------------------------------

  /** The errors at a place, and what causes them. */
  lemma {:induction false} ErrorsAt(t: seq<byte>, i: nat, eof: byte, sed: bool, st: Progress)
    requires i <= |t| + 1 && DelimiterOk(eof)
    ensures var r, c, d := ParseItems(t, i, eof, sed, st), At(t, i), At(t, i + 1);
            && (c == eof && st.open != [] ==> r == ParseErr(42))
            && (c != eof && i >= |t| ==> r == ParseErr(50))
            && (c != eof && c == NEWLINE && sed ==> r == ParseErr(36))
            && (c == BACKSLASH && d == NEWLINE ==> r == ParseErr(36))
            && (c == BACKSLASH && d == LPAREN && st.nbra >= 9 ==> r == ParseErr(43))
            && (c == BACKSLASH && d == RPAREN && st.open == [] ==> r == ParseErr(42))
            && (c == BACKSLASH && DIGIT1 <= d <= DIGIT9 && d - DIGIT1 >= st.closed ==> r == ParseErr(25))
  {
    hide ParseBracket, ParseInterval;
  }

  /** A pattern with nothing in it needs one before it, except in the editor that keeps the last. */
  lemma {:induction false} EmptyPattern(t: seq<byte>, eof: byte, sed: bool, havePrevious: bool)
    requires At(t, 0) == eof || At(t, 0) == NEWLINE
    ensures ParsePattern(t, eof, sed, havePrevious) == Malformed(41) <==> !havePrevious && !sed
    ensures havePrevious || sed ==> ParsePattern(t, eof, sed, havePrevious).Previous?
  {}

  /** A bracket expression that is not closed on its line. */
  lemma {:induction false} UnclosedBracket(t: seq<byte>, i: nat, last: byte, members: set<byte>)
    requires i <= |t| + 1 && forall k :: i < k < |t| ==> t[k] != RBRACKET
    ensures ParseBracket(t, i, last, members) == BracketErr(49)
    decreases |t| + 1 - i
  {
    var c := At(t, i);
    if c != 0 && c != NEWLINE {
      if c == MINUS && last != 0 {
        if i + 2 <= |t| + 1 {
          UnclosedBracket(t, i + 2, At(t, i + 1), members + RangeOf(last, At(t, i + 1)));
        }
      } else {
        UnclosedBracket(t, i + 1, c, members + {c});
      }
    }
  }

  /** The errors of an interval: no number, one of 255 or more, a third bound, no closing brace, bounds out of order. */
  lemma {:induction false} IntervalErrors(t: seq<byte>, i: nat, lo: nat, hi: nat)
    ensures !IsDigit(At(t, i)) ==> ParseInterval(t, i) == IntervalErr(16)
    ensures Stands(t, i, Decimal(lo)) && At(t, i + |Decimal(lo)|) in {BACKSLASH, COMMA} && lo >= 255 ==>
              ParseInterval(t, i) == IntervalErr(11)
    ensures var j := i + |Decimal(lo)|;
            Stands(t, i, Decimal(lo)) && lo < 255 && At(t, j) == BACKSLASH && At(t, j + 1) != RBRACE ==>
            ParseInterval(t, i) == IntervalErr(45)
    ensures var j, k := i + |Decimal(lo)|, i + |Decimal(lo)| + 1 + |Decimal(hi)|;
            Stands(t, i, Decimal(lo)) && lo < 255 && At(t, j) == COMMA && Stands(t, j + 1, Decimal(hi)) ==>
            && (At(t, k) in {BACKSLASH, COMMA} && hi >= 255 ==> ParseInterval(t, i) == IntervalErr(11))
            && (At(t, k) == COMMA && hi < 255 ==> ParseInterval(t, i) == IntervalErr(44))
            && (At(t, k) == BACKSLASH && hi < 255 && At(t, k + 1) != RBRACE ==> ParseInterval(t, i) == IntervalErr(45))
            && (At(t, k) == BACKSLASH && hi < lo && At(t, k + 1) == RBRACE ==> ParseInterval(t, i) == IntervalErr(46))
  {
    hide Decimal, Stands;
    var j, k := i + |Decimal(lo)|, i + |Decimal(lo)| + 1 + |Decimal(hi)|;
    if Stands(t, i, Decimal(lo)) && At(t, j) in {BACKSLASH, COMMA} {
      hide ParseNumber;
      DecimalRead(t, i, lo);
      if At(t, j) == COMMA && Stands(t, j + 1, Decimal(hi)) && At(t, k) in {BACKSLASH, COMMA} {
        DecimalRead(t, j + 1, hi);
        FirstDigit(t, j + 1, hi);
      }
    }
  }
}
