/** The compiler: one pass over the text that appends code and patches the last operation code. */
module RegexCompiler {
  import opened Bits
  import opened RegexSyntax
  import opened RegexParser

  // ----- bracket expressions -----------------------------------------------

  function MapSize(members: set<byte>): nat {
    if IsWide(members) then 32 else 16
  }

  /** Sixteen more zero bytes hold no new member. */
  lemma {:induction false} PromoteKeeps(bits: seq<byte>, members: set<byte>)
    requires |bits| == 16 && Represents(bits, members) && !IsWide(members)
    ensures Represents(bits + Zeros(16), members)
  {
    var r := bits + Zeros(16);
    ZeroBits();
    forall d: byte | d < 8 * |r| ensures IsThere(r, d) <==> d in members {
      if d < 128 {
        assert r[d / 8] == bits[d / 8];
      } else {
        assert r[d / 8] == 0;
      }
    }
  }

  /** Places the characters from `lo` up to, and without, `hi`. */
  method PlaceRange(bits: seq<byte>, lo: byte, hi: byte) returns (r: seq<byte>)
    requires hi <= 8 * |bits|
    ensures |r| == |bits|
    ensures forall d: nat :: d < 8 * |bits| ==> (IsThere(r, d) <==> lo <= d < hi || IsThere(bits, d))
  {
    r := bits;
    var lc := lo;
    while lc < hi
      invariant lo <= lc && (lc <= hi || lc == lo)
      invariant |r| == |bits|
      invariant forall d: nat :: d < 8 * |bits| ==> (IsThere(r, d) <==> lo <= d < lc || IsThere(bits, d))
    {
      r := Place(r, lc);
      lc := lc + 1;
    }
  }

  ghost predicate Holds(bits: seq<byte>, members: set<byte>) {
    |bits| == MapSize(members) && Represents(bits, members)
  }

  /** Adds the range from `lo` to `c`, or just `c` when `lo` is not below it, widening the map when `c` needs it. */
  method PlaceItem(bits: seq<byte>, lo: byte, c: byte, ghost members: set<byte>) returns (r: seq<byte>)
    requires Holds(bits, members)
    ensures Holds(r, members + RangeOf(lo, c))
  {
    r := bits;
    if c >= 128 && |r| == 16 {
      PromoteKeeps(r, members);
      r := r + Zeros(16);
    }
    ghost var wide := r;
    r := PlaceRange(r, lo, c);
    r := Place(r, c);
    ghost var all := members + RangeOf(lo, c);
    assert c in all;
    assert IsWide(all) <==> c >= 128 || IsWide(members);
    forall d: byte | d < 8 * |r| ensures IsThere(r, d) <==> d in all {
      assert IsThere(wide, d) <==> d in members;
    }
  }

  /** Reads a bracket expression from the character after the bracket, or after the caret if there is one. */
  method ScanBracket(t: seq<byte>, i: nat)
    returns (bits: seq<byte>, j: nat, err: int)
    requires i <= |t|
    ensures match ParseBracket(t, i, 0, {})
            case BracketErr(code) => err == code
            case BracketOk(members, next) => err == 0 && j == next && Holds(bits, members)
  {
    ghost var members: set<byte> := {};
    ghost var whole := ParseBracket(t, i, 0, {});
    ZeroBits();
    bits, err := Zeros(16), 0;
    var lc: byte := 0;
    var c := At(t, i);
    j := i + 1;
    while true
      invariant i < j <= |t| + 2
      invariant c == At(t, j - 1)
      invariant ParseBracket(t, j - 1, lc, members) == whole
      invariant Holds(bits, members)
      decreases |t| + 2 - j
    {
      if c == 0 || c == NEWLINE {
        err := 49;
        return;
      }
      if c == MINUS && lc != 0 {
        c := At(t, j);
        j := j + 1;
        if c == RBRACKET {
          bits := PlaceItem(bits, MINUS, MINUS, members);
          assert RangeOf(MINUS, MINUS) == {MINUS};
          return;
        }
        bits := PlaceItem(bits, lc, c, members);
        members := members + RangeOf(lc, c);
      } else {
        assert RangeOf(c, c) == {c};
        bits := PlaceItem(bits, c, c, members);
        members := members + {c};
      }
      lc := c;
      c := At(t, j);
      j := j + 1;
      if c == RBRACKET {
        return;
      }
    }
  }

  /** Complements a 32-byte map and clears the bit of NUL. */
  method Complement(bits: seq<byte>, ghost members: set<byte>) returns (r: seq<byte>)
    requires |bits| == 32 && Represents(bits, members)
    ensures |r| == 32 && Represents(r, set x: byte | 0 < x < 256 && x !in members)
  {
    r := bits;
    var k := 0;
    while k < 32
      invariant 0 <= k <= 32 == |r|
      invariant forall i :: 0 <= i < k ==> r[i] == 255 - bits[i]
      invariant forall i :: k <= i < 32 ==> r[i] == bits[i]
    {
      r := r[k := 255 - r[k]];
      k := k + 1;
    }
    r := r[0 := r[0] - r[0] % 2];
    forall d: byte | d < 256 ensures IsThere(r, d) <==> 0 < d && d !in members {
      FlipBits(bits[d / 8], d % 8, 8);
      assert IsThere(bits, d) <==> d in members;
    }
  }

  /** Marks NUL as a member of a 16-byte map. */
  lemma {:induction false} PlaceNul(bits: seq<byte>, members: set<byte>)
    requires |bits| == 16 && Represents(bits, members)
    ensures 0 <= SetBit(bits[0], 0) < 256 && Represents(bits[0 := SetBit(bits[0], 0)], members + {0})
  {
    SetBitSpec(bits[0], 0, 8);
    assert bits[0 := SetBit(bits[0], 0)] == Place(bits, 0);
  }

  /** The code of a bracket expression from its map, complemented or not. */
  method EmitBracket(bits: seq<byte>, neg: bool, ghost members: set<byte>) returns (code: seq<byte>)
    requires Holds(bits, members)
    ensures code == Encode(One(Cls(neg, members)))
  {
    var op, args := if |bits| == 32 then CXCL else CCL, bits;
    if neg {
      if |bits| == 32 {
        args := Complement(bits, members);
        BitmapUnique(args, set x: byte | 0 < x < 256 && x !in members);
      } else {
        op := NCCL;
        PlaceNul(bits, members);
        args := bits[0 := SetBit(bits[0], 0)];
        BitmapUnique(args, members + {0});
      }
    } else {
      BitmapUnique(args, members);
    }
    code := [op] + args;
  }

  // ----- intervals -----------------------------------------------------------

  method ScanNumber(t: seq<byte>, i: nat) returns (value: nat, j: nat, err: int)
    ensures match ParseNumber(t, i, 0)
            case NumberErr(code) => err == code
            case NumberOk(v, next) => err == 0 && value == v && j == next
  {
    value, err := 0, 0;
    var c := At(t, i);
    j := i;
    while true
      invariant i <= j && c == At(t, j)
      invariant ParseNumber(t, j, value) == ParseNumber(t, i, 0)
      decreases |t| - j
    {
      if DIGIT0 <= c <= DIGIT9 {
        value := 10 * value + c - DIGIT0;
      } else {
        err := 16;
        return;
      }
      j := j + 1;
      c := At(t, j);
      if c == BACKSLASH || c == COMMA {
        return;
      }
    }
  }

  /** Reads the bounds of an interval into the two bytes that follow the item's code. */
  method ScanInterval(t: seq<byte>, i: nat) returns (bounds: seq<byte>, j: nat, err: int)
    ensures match ParseInterval(t, i)
            case IntervalErr(code) => err == code
            case IntervalOk(lo, hi, next) => err == 0 && bounds == [lo, hi] && j == next
  {
    bounds := [];
    var value, k, e := ScanNumber(t, i);
    j, err := k, e;
    if err != 0 {
      return;
    }
    if value >= 255 {
      err := 11;
      return;
    }
    bounds := bounds + [value];
    if At(t, j) == COMMA {
      j := j + 1;
      if At(t, j) == BACKSLASH {
        bounds := bounds + [NO_LIMIT];
      } else {
        value, j, err := ScanNumber(t, j);
        if err != 0 {
          return;
        }
        if value >= 255 {
          err := 11;
          return;
        }
        bounds := bounds + [value];
        if At(t, j) == COMMA {
          err := 44;
          return;
        }
      }
      if At(t, j + 1) != RBRACE {
        err := 45;
      } else if bounds[1] < bounds[0] {
        err := 46;
      }
    } else {
      if At(t, j + 1) != RBRACE {
        err := 45;
      }
      bounds := bounds + [value];
    }
    j := j + 2;
  }

  // ----- whole patterns ------------------------------------------------------

  /** Where compilation stands: the code written, the place of the last item (-1 if none), and the group counts. */
  datatype Emitter = Emitter(code: seq<byte>, lastep: int, bracket: seq<byte>, nbra: byte, closed: nat)

  /** The place in the code at which the last item starts. */
  function LastPlace(items: seq<Item>): int {
    if items == [] then -1 else |EncodeAll(items[..|items| - 1])|
  }

  ghost predicate Mirrors(e: Emitter, st: Progress) {
    && e.code == EncodeAll(st.items)
    && e.lastep == LastPlace(st.items)
    && e.bracket == st.open && e.nbra == st.nbra && e.closed == st.closed
  }

  function Append(e: Emitter, code: seq<byte>): Emitter {
    e.(code := e.code + code, lastep := |e.code|)
  }

  lemma {:induction false} AppendMirrors(e: Emitter, st: Progress, it: Item)
    requires Mirrors(e, st)
    ensures Mirrors(Append(e, Encode(it)), Add(st, it))
  {
    EncodeAllAppend(st.items, it);
    assert (st.items + [it])[..|st.items|] == st.items;
  }

  /** The last item's code is the tail of the code from `lastep`. */
  lemma {:induction false} LastCode(e: Emitter, st: Progress)
    requires Mirrors(e, st) && st.items != []
    ensures 0 <= e.lastep < |e.code| && e.code[e.lastep..] == Encode(Last(st.items))
    ensures e.code[..e.lastep] == EncodeAll(st.items[..|st.items| - 1])
  {}

  lemma {:induction false} ReplaceMirrors(e: Emitter, st: Progress, it: Item)
    requires Mirrors(e, st) && st.items != []
    ensures 0 <= e.lastep < |e.code|
    ensures Mirrors(e.(code := e.code[..e.lastep] + Encode(it)), st.(items := ReplaceLast(st.items, it)))
  {
    var front := st.items[..|st.items| - 1];
    EncodeAllAppend(front, it);
    assert ReplaceLast(st.items, it)[..|st.items| - 1] == front;
    LastCode(e, st);
  }

  /** Patching the last operation code in place is replacing the last item by its starred form. */
  lemma {:induction false} StarMirrors(e: Emitter, st: Progress)
    requires Mirrors(e, st) && st.items != []
    ensures 0 <= e.lastep < |e.code|
    ensures var op := OrStar(e.code[e.lastep]);
            Mirrors(e.(code := e.code[e.lastep := op]), st.(items := ReplaceLast(st.items, Star(Last(st.items)))))
  {
    LastCode(e, st);
    ReplaceMirrors(e, st, Star(Last(st.items)));
    assert e.code == e.code[..e.lastep] + e.code[e.lastep..];
  }

  lemma {:induction false} RngeMirrors(e: Emitter, st: Progress, lo: byte, hi: byte)
    requires Mirrors(e, st) && st.items != []
    ensures 0 <= e.lastep < |e.code|
    ensures var op := OrRnge(e.code[e.lastep]);
            Mirrors(e.(code := e.code[e.lastep := op] + [lo, hi]),
                    st.(items := ReplaceLast(st.items, Rnge(Last(st.items), lo, hi))))
  {
    hide OrRnge;
    LastCode(e, st);
    ReplaceMirrors(e, st, Rnge(Last(st.items), lo, hi));
    assert e.code == e.code[..e.lastep] + e.code[e.lastep..];
  }

  /** Only an unsuffixed group delimiter starts with a delimiter's operation code. */
  lemma {:induction false} DelimiterHead(it: Item)
    ensures Encode(it)[0] == CBRA <==> it.Open?
    ensures Encode(it)[0] == CKET <==> it.Close?
  {
    match it
    case Star(base) => MarkedOps(Encode(base)[0]);
    case Rnge(base, _, _) => MarkedOps(Encode(base)[0]);
    case _ =>
  }

  lemma {:induction false} MarkedOps(op: byte)
    ensures OrStar(op) != CBRA && OrStar(op) != CKET && OrRnge(op) != CBRA && OrRnge(op) != CKET
  {}

  /** How one turn of the compiler's loop ends. */
  datatype Turn = Continue(next: nat, e: Emitter) | Stop(code: seq<byte>, nbra: byte, nodelim: bool, next: nat)
                | Abort(err: int)

  ghost predicate Agrees(turn: Turn, step: Step) {
    match step
    case More(next, now) => turn.Continue? && turn.next == next && Mirrors(turn.e, now)
    case Done(ParseErr(code)) => turn == Abort(code)
    case Done(Parsed(items, nbra, nodelim, next)) => turn == Stop(EncodeAll(items) + [CCEOF], nbra, nodelim, next)
  }

  method EmitEnd(e: Emitter, ghost st: Progress, nodelim: bool, next: nat) returns (turn: Turn)
    requires Mirrors(e, st)
    ensures Agrees(turn, Done(Finish(st, nodelim, next)))
  {
    var code := e.code + [CCEOF];
    if e.bracket != [] {
      turn := Abort(42);
    } else {
      turn := Stop(code, e.nbra, nodelim, next);
    }
  }

  /** The start or the end of a group. */
  method EmitGroup(t: seq<byte>, i: nat, e: Emitter, ghost st: Progress) returns (turn: Turn)
    requires i < |t| && Mirrors(e, st) && (At(t, i + 1) == LPAREN || At(t, i + 1) == RPAREN)
    ensures Agrees(turn, ReadEscape(t, i, st))
  {
    if At(t, i + 1) == LPAREN {
      if e.nbra >= NBRA {
        return Abort(43);
      }
      AppendMirrors(e, st, Open(e.nbra));
      return Continue(i + 2, Append(e, [CBRA, e.nbra]).(bracket := e.bracket + [e.nbra], nbra := e.nbra + 1));
    }
    if e.bracket == [] {
      return Abort(42);
    }
    var n := e.bracket[|e.bracket| - 1];
    AppendMirrors(e, st, Close(n));
    return Continue(i + 2, Append(e, [CKET, n]).(bracket := e.bracket[..|e.bracket| - 1], closed := e.closed + 1));
  }

  /** A back-reference. */
  method EmitBack(t: seq<byte>, i: nat, e: Emitter, ghost st: Progress) returns (turn: Turn)
    requires i < |t| && Mirrors(e, st) && DIGIT1 <= At(t, i + 1) <= DIGIT9
    ensures Agrees(turn, ReadEscape(t, i, st))
  {
    var n := At(t, i + 1) - DIGIT1;
    if n >= e.closed {
      return Abort(25);
    }
    AppendMirrors(e, st, Back(n));
    return Continue(i + 2, Append(e, [CBACK, n]));
  }

  /** An interval after an item: its bounds, and a mark on the code of the item. */
  method EmitInterval(t: seq<byte>, i: nat, e: Emitter, ghost st: Progress) returns (turn: Turn)
    requires i < |t| && Mirrors(e, st) && At(t, i + 1) == LBRACE && e.lastep != -1
    ensures Agrees(turn, ReadEscape(t, i, st))
  {
    hide OrRnge, ReplaceLast;
    var bounds, j, err := ScanInterval(t, i + 2);
    if err != 0 {
      return Abort(err);
    }
    RngeMirrors(e, st, bounds[0], bounds[1]);
    turn := Continue(j, e.(code := e.code[e.lastep := OrRnge(e.code[e.lastep])] + bounds));
  }

  /** An escaped character that stands for itself, or for the newline. */
  method EmitLiteral(t: seq<byte>, i: nat, e: Emitter, ghost st: Progress) returns (turn: Turn)
    requires i < |t| && Mirrors(e, st) && At(t, i + 1) !in {LPAREN, RPAREN, NEWLINE}
    requires !(DIGIT1 <= At(t, i + 1) <= DIGIT9) && (At(t, i + 1) == LBRACE ==> e.lastep == -1)
    ensures Agrees(turn, ReadEscape(t, i, st))
  {
    var c := At(t, i + 1);
    c := if c == LETTER_N then NEWLINE else c;
    AppendMirrors(e, st, One(Chr(c)));
    turn := Continue(i + 2, Append(e, [CCHR, c]));
  }

  method EmitEscape(t: seq<byte>, i: nat, e: Emitter, ghost st: Progress) returns (turn: Turn)
    requires i < |t| && Mirrors(e, st)
    ensures Agrees(turn, ReadEscape(t, i, st))
  {
    var c := At(t, i + 1);
    if c == LPAREN || c == RPAREN {
      turn := EmitGroup(t, i, e, st);
    } else if c == LBRACE && e.lastep != -1 {
      turn := EmitInterval(t, i, e, st);
    } else if c == NEWLINE {
      turn := Abort(36);
    } else if DIGIT1 <= c <= DIGIT9 {
      turn := EmitBack(t, i, e, st);
    } else {
      turn := EmitLiteral(t, i, e, st);
    }
  }

  /** A bracket expression. */
  method EmitClass(t: seq<byte>, i: nat, eof: byte, sed: bool, e: Emitter, ghost st: Progress) returns (turn: Turn)
    requires i < |t| && Mirrors(e, st) && At(t, i) == LBRACKET != eof
    ensures Agrees(turn, ReadOne(t, i, eof, sed, st))
  {
    var neg := At(t, i + 1) == CARET;
    var bits, j, err := ScanBracket(t, if neg then i + 2 else i + 1);
    if err != 0 {
      return Abort(err);
    }
    ghost var members := ParseBracket(t, if neg then i + 2 else i + 1, 0, {}).members;
    var code := EmitBracket(bits, neg, members);
    AppendMirrors(e, st, One(Cls(neg, members)));
    return Continue(j, Append(e, code));
  }

  /** One turn of the loop: reads at `i` what comes next and appends or patches its code. */
  method EmitOne(t: seq<byte>, i: nat, eof: byte, sed: bool, e: Emitter, ghost st: Progress) returns (turn: Turn)
    requires i <= |t| + 1 && Mirrors(e, st)
    ensures Agrees(turn, ReadOne(t, i, eof, sed, st))
  {
    hide ReadEscape, ParseBracket, OrStar;
    var c := At(t, i);
    if c == eof {
      turn := EmitEnd(e, st, false, i + 1);
    } else if i >= |t| {
      turn := Abort(50);
    } else if c == PERIOD {
      AppendMirrors(e, st, One(Dot));
      turn := Continue(i + 1, Append(e, [CDOT]));
    } else if c == NEWLINE {
      if sed {
        turn := Abort(36);
      } else {
        turn := EmitEnd(e, st, true, i);
      }
    } else if c == ASTERISK && e.lastep != -1 && e.code[e.lastep] != CBRA && e.code[e.lastep] != CKET {
      DelimiterHead(Last(st.items));
      StarMirrors(e, st);
      turn := Continue(i + 1, e.(code := e.code[e.lastep := OrStar(e.code[e.lastep])]));
    } else if c == DOLLAR && (At(t, i + 1) == eof || At(t, i + 1) == NEWLINE) {
      AppendMirrors(e, st, Dollar);
      turn := Continue(i + 1, Append(e, [CDOL]));
    } else if c == LBRACKET {
      turn := EmitClass(t, i, eof, sed, e, st);
    } else if c == BACKSLASH {
      turn := EmitEscape(t, i, e, st);
    } else {
      if c == ASTERISK && st.items != [] {
        LastCode(e, st);
        DelimiterHead(Last(st.items));
      }
      AppendMirrors(e, st, One(Chr(c)));
      turn := Continue(i + 1, Append(e, [CCHR, c]));
    }
  }

  /** What compiling yields: code, the instruction to keep the previous code, or an error. */
  datatype Compiled =
    | Compiled(code: seq<byte>, circf: bool, nbra: byte, nodelim: bool, next: nat)
    | KeepPrevious(nodelim: bool, next: nat)
    | CompileErr(err: int)

  /** The code a pattern should compile to. */
  function CodeOf(p: Pattern): Compiled {
    match p
    case Pattern(items, circf, nbra, nodelim, next) => Compiled(EncodeAll(items) + [CCEOF], circf, nbra, nodelim, next)
    case Previous(nodelim, next) => KeepPrevious(nodelim, next)
    case Malformed(code) => CompileErr(code)
  }

  /** Every text compiles to the code of the pattern it denotes, or fails with that pattern's error. */
  method Compile(t: seq<byte>, eof: byte, sed: bool, havePrevious: bool) returns (r: Compiled)
    ensures r == CodeOf(ParsePattern(t, eof, sed, havePrevious))
  {
    var c := At(t, 0);
    if c == eof || c == NEWLINE {
      if !havePrevious && !sed {
        return CompileErr(41);
      }
      return if c == NEWLINE then KeepPrevious(true, 0) else KeepPrevious(false, 1);
    }
    var circf := c == CARET;
    var i := if circf then 1 else 0;
    var e := Emitter([], -1, [], 0, 0);
    ghost var st := Progress([], [], 0, 0);
    ghost var whole := ParseItems(t, i, eof, sed, st);
    while true
      invariant i <= |t| + 1 && Mirrors(e, st)
      invariant ParseItems(t, i, eof, sed, st) == whole
      decreases |t| + 1 - i
    {
      var turn := EmitOne(t, i, eof, sed, e, st);
      match turn
      case Abort(err) => return CompileErr(err);
      case Stop(code, nbra, nodelim, next) => return Compiled(code, circf, nbra, nodelim, next);
      case Continue(next, e') =>
        st := ReadOne(t, i, eof, sed, st).now;
        i, e := next, e';
    }
  }
}
