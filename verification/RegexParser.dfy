/** What a pattern text denotes: a reading of the text into items, independent of any code layout. */
module RegexParser {
  import opened RegexSyntax

  const NEWLINE: byte := 10
  const DOLLAR: byte := '$' as int
  const LPAREN: byte := '(' as int
  const RPAREN: byte := ')' as int
  const ASTERISK: byte := '*' as int
  const COMMA: byte := ',' as int
  const MINUS: byte := '-' as int
  const PERIOD: byte := '.' as int
  const DIGIT0: byte := '0' as int
  const DIGIT1: byte := '1' as int
  const DIGIT9: byte := '9' as int
  const LBRACKET: byte := '[' as int
  const BACKSLASH: byte := '\\' as int
  const RBRACKET: byte := ']' as int
  const CARET: byte := '^' as int
  const LETTER_N: byte := 'n' as int
  const LBRACE: byte := '{' as int
  const RBRACE: byte := '}' as int

  /** The reader: past its end the text keeps yielding NUL. */
  function At(t: seq<byte>, i: nat): byte {
    if i < |t| then t[i] else 0
  }

  // ----- bracket expressions -----------------------------------------------

  datatype Bracket = BracketOk(members: set<byte>, next: nat) | BracketErr(code: int)

  /** The characters `lo`, `lo + 1`, ..., up to and with `hi`; just `hi` when `lo` is not below it. */
  function RangeOf(lo: byte, hi: byte): (r: set<byte>)
    ensures forall x: byte :: x in r <==> lo <= x <= hi || x == hi
    decreases hi - lo
  {
    if lo >= hi then {hi} else {lo} + RangeOf(lo + 1, hi)
  }

  /** Reads the rest of a bracket expression from `i`; `last` is the character before it, 0 if none. */
  function ParseBracket(t: seq<byte>, i: nat, last: byte, members: set<byte>): (r: Bracket)
    requires i <= |t| + 1
    ensures r.BracketOk? ==> i < r.next <= |t| && members <= r.members
    ensures r.BracketErr? ==> r.code == 49
    decreases |t| + 1 - i
  {
    var c := At(t, i);
    if c == 0 || c == NEWLINE then BracketErr(49)
    else if c == MINUS && last != 0 then
      var d := At(t, i + 1);
      if d == RBRACKET then BracketOk(members + {MINUS}, i + 2)
      else MoreBracket(t, i, i + 2, d, members + RangeOf(last, d))
    else MoreBracket(t, i, i + 1, c, members + {c})
  }

  function MoreBracket(t: seq<byte>, ghost i: nat, j: nat, last: byte, members: set<byte>): (r: Bracket)
    requires i < j <= |t| + 1
    ensures r.BracketOk? ==> j < r.next <= |t| && members <= r.members
    ensures r.BracketErr? ==> r.code == 49
    decreases |t| + 1 - i, 0
  {
    if At(t, j) == RBRACKET then BracketOk(members, j + 1) else ParseBracket(t, j, last, members)
  }

  // ----- intervals ---------------------------------------------------------

  datatype Number = NumberOk(value: nat, next: nat) | NumberErr(code: int)

  predicate IsDigit(c: byte) {
    DIGIT0 <= c <= DIGIT9
  }

  /** Decimal digits up to, and without, the `\` or `,` that ends them. */
  function ParseNumber(t: seq<byte>, i: nat, value: nat): (r: Number)
    ensures r.NumberOk? ==> i < r.next < |t| && At(t, r.next) in {BACKSLASH, COMMA}
    ensures r.NumberErr? ==> r.code == 16
    decreases |t| - i
  {
    var c := At(t, i);
    if !IsDigit(c) then NumberErr(16)
    else
      var v := 10 * value + (c - DIGIT0);
      var d := At(t, i + 1);
      if d == BACKSLASH || d == COMMA then NumberOk(v, i + 1) else ParseNumber(t, i + 1, v)
  }

  datatype Interval = IntervalOk(lo: byte, hi: byte, next: nat) | IntervalErr(code: int)

  /** The part of an interval after its opening brace. */
  function ParseInterval(t: seq<byte>, i: nat): (r: Interval)
    ensures r.IntervalOk? ==> i < r.next <= |t| && r.lo <= r.hi && r.lo < NO_LIMIT
    ensures r.IntervalErr? ==> r.code != 0
  {
    var a := ParseNumber(t, i, 0);
    if a.NumberErr? then IntervalErr(a.code)
    else if a.value >= 255 then IntervalErr(11)
    else if At(t, a.next) == BACKSLASH then
      if At(t, a.next + 1) == RBRACE then IntervalOk(a.value, a.value, a.next + 2) else IntervalErr(45)
    else if At(t, a.next + 1) == BACKSLASH then
      if At(t, a.next + 2) == RBRACE then IntervalOk(a.value, NO_LIMIT, a.next + 3) else IntervalErr(45)
    else
      var b := ParseNumber(t, a.next + 1, 0);
      if b.NumberErr? then IntervalErr(b.code)
      else if b.value >= 255 then IntervalErr(11)
      else if At(t, b.next) == COMMA then IntervalErr(44)
      else if At(t, b.next + 1) != RBRACE then IntervalErr(45)
      else if b.value < a.value then IntervalErr(46)
      else IntervalOk(a.value, b.value, b.next + 2)
  }

  // ----- whole patterns ----------------------------------------------------

  /** Where reading stands: the items so far, the groups still open, and how many were opened and closed. */
  datatype Progress = Progress(items: seq<Item>, open: seq<byte>, nbra: byte, closed: nat)

  datatype Parse =
    | Parsed(items: seq<Item>, nbra: byte, nodelim: bool, next: nat)
    | ParseErr(code: int)

  datatype Step = More(next: nat, now: Progress) | Done(result: Parse)

  function Add(st: Progress, it: Item): Progress {
    st.(items := st.items + [it])
  }

  function Last(items: seq<Item>): Item
    requires items != []
  {
    items[|items| - 1]
  }

  function ReplaceLast(items: seq<Item>, it: Item): (r: seq<Item>)
    requires items != []
    ensures |r| == |items|
  {
    items[..|items| - 1] + [it]
  }

  /** A suffix has nothing to apply to at the start of the pattern. */
  predicate NothingBefore(st: Progress) {
    st.items == []
  }

  /** An asterisk stands for itself at the start of the pattern and next to a group delimiter. */
  predicate AsteriskIsLiteral(st: Progress) {
    NothingBefore(st) || Last(st.items).Open? || Last(st.items).Close?
  }

  function Finish(st: Progress, nodelim: bool, next: nat): Parse {
    if st.open != [] then ParseErr(42) else Parsed(st.items, st.nbra, nodelim, next)
  }

  /** Reads one item, suffix or delimiter at `i`. */
  function ReadOne(t: seq<byte>, i: nat, eof: byte, sed: bool, st: Progress): (r: Step)
    requires i <= |t| + 1
    ensures r.More? ==> i < |t| && i < r.next <= |t| + 1
  {
    var c := At(t, i);
    if c == eof then Done(Finish(st, false, i + 1))
    else if i >= |t| then Done(ParseErr(50))
    else if c == PERIOD then More(i + 1, Add(st, One(Dot)))
    else if c == NEWLINE then Done(if sed then ParseErr(36) else Finish(st, true, i))
    else if c == ASTERISK then
      if AsteriskIsLiteral(st) then More(i + 1, Add(st, One(Chr(c))))
      else More(i + 1, st.(items := ReplaceLast(st.items, Star(Last(st.items)))))
    else if c == DOLLAR then
      if At(t, i + 1) != eof && At(t, i + 1) != NEWLINE then More(i + 1, Add(st, One(Chr(c))))
      else More(i + 1, Add(st, Dollar))
    else if c == LBRACKET then
      var neg := At(t, i + 1) == CARET;
      var b := ParseBracket(t, if neg then i + 2 else i + 1, 0, {});
      if b.BracketErr? then Done(ParseErr(b.code)) else More(b.next, Add(st, One(Cls(neg, b.members))))
    else if c == BACKSLASH then ReadEscape(t, i, st)
    else More(i + 1, Add(st, One(Chr(c))))
  }

  function ReadEscape(t: seq<byte>, i: nat, st: Progress): (r: Step)
    requires i < |t|
    ensures r.More? ==> i < r.next <= |t| + 1
  {
    var d := At(t, i + 1);
    if d == LPAREN then
      if st.nbra >= NBRA then Done(ParseErr(43))
      else More(i + 2, Progress(st.items + [Open(st.nbra)], st.open + [st.nbra], st.nbra + 1, st.closed))
    else if d == RPAREN then
      if st.open == [] then Done(ParseErr(42))
      else
        var n := st.open[|st.open| - 1];
        More(i + 2, Progress(st.items + [Close(n)], st.open[..|st.open| - 1], st.nbra, st.closed + 1))
    else if d == LBRACE then
      if NothingBefore(st) then More(i + 2, Add(st, One(Chr(d))))
      else
        var v := ParseInterval(t, i + 2);
        if v.IntervalErr? then Done(ParseErr(v.code))
        else More(v.next, st.(items := ReplaceLast(st.items, Rnge(Last(st.items), v.lo, v.hi))))
    else if d == NEWLINE then Done(ParseErr(36))
    else if d == LETTER_N then More(i + 2, Add(st, One(Chr(NEWLINE))))
    else if DIGIT1 <= d <= DIGIT9 then
      if d - DIGIT1 >= st.closed then Done(ParseErr(25)) else More(i + 2, Add(st, Back(d - DIGIT1)))
    else More(i + 2, Add(st, One(Chr(d))))
  }

  /** Reads items until the pattern ends. */
  function ParseItems(t: seq<byte>, i: nat, eof: byte, sed: bool, st: Progress): Parse
    requires i <= |t| + 1
    decreases |t| + 1 - i
  {
    match ReadOne(t, i, eof, sed, st)
    case Done(r) => r
    case More(j, next) => ParseItems(t, j, eof, sed, next)
  }

  /** A whole pattern. An empty one keeps the expression compiled before, if there is one. */
  datatype Pattern =
    | Pattern(items: seq<Item>, circf: bool, nbra: byte, nodelim: bool, next: nat)
    | Previous(nodelim: bool, next: nat)
    | Malformed(code: int)

  function ParsePattern(t: seq<byte>, eof: byte, sed: bool, havePrevious: bool): Pattern {
    var c := At(t, 0);
    if c == eof || c == NEWLINE then
      if !havePrevious && !sed then Malformed(41)
      else if c == NEWLINE then Previous(true, 0) else Previous(false, 1)
    else
      var circf := c == CARET;
      match ParseItems(t, if circf then 1 else 0, eof, sed, Progress([], [], 0, 0))
      case ParseErr(code) => Malformed(code)
      case Parsed(items, nbra, nodelim, next) => Pattern(items, circf, nbra, nodelim, next)
  }
}
