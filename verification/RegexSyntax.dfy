/** Bytes, operation codes, bit maps and the abstract syntax of compiled expressions. */
module RegexSyntax {
  import opened Bits

  type byte = x: int | 0 <= x < 256

  // Operation codes of the compiled expression.
  const CBRA: byte := 2
  const CCHR: byte := 4
  const CDOT: byte := 8
  const CCL: byte := 12
  const CXCL: byte := 16
  const CDOL: byte := 20
  const CCEOF: byte := 22
  const CKET: byte := 24
  const CBACK: byte := 36
  const NCCL: byte := 40

  // Number of bracketed groups an expression may hold.
  const NBRA: byte := 9

  // Upper bound byte meaning "no upper bound", and the count it stands for.
  const NO_LIMIT: byte := 255
  const NO_LIMIT_SIZE := 20000

  /** `b | 01`: marks an operation code as starred. */
  function OrStar(b: byte): byte {
    if b % 2 == 0 then b + 1 else b
  }

  /** `b | 03`: marks an operation code as carrying an interval. */
  function OrRnge(b: byte): byte {
    b - b % 4 + 3
  }

  // ----- bit maps of characters -------------------------------------------

  /** The `ISTHERE` test: bit `c & 07` of byte `c >> 3`. */
  predicate IsThere(bits: seq<byte>, c: nat)
    requires c < 8 * |bits|
  {
    HasBit(bits[c / 8], c % 8)
  }

  /** The `PLACE` assignment. */
  function Place(bits: seq<byte>, c: nat): (r: seq<byte>)
    requires c < 8 * |bits|
    ensures |r| == |bits|
    ensures forall d: nat :: d < 8 * |bits| ==> (IsThere(r, d) <==> d == c || IsThere(bits, d))
  {
    SetBitSpec(bits[c / 8], c % 8, 8);
    bits[c / 8 := SetBit(bits[c / 8], c % 8)]
  }

  ghost predicate Represents(bits: seq<byte>, members: set<byte>) {
    forall d: byte :: d < 8 * |bits| ==> (IsThere(bits, d) <==> d in members)
  }

  function Zeros(n: nat): (r: seq<byte>)
    ensures |r| == n
    ensures forall i :: 0 <= i < n ==> r[i] == 0
  {
    seq(n, _ => 0)
  }

  /** The map of `n` bytes that holds the members below `c`. */
  function Fill(members: set<byte>, n: nat, c: nat): (r: seq<byte>)
    requires c <= 8 * n && n <= 32
    ensures |r| == n
    ensures forall d: byte :: d < 8 * n ==> (IsThere(r, d) <==> d < c && d in members)
  {
    if c == 0 then
      ZeroBits();
      Zeros(n)
    else
      var r := Fill(members, n, c - 1);
      if c - 1 in members then Place(r, c - 1) else r
  }

  /** The bit map of `n` bytes for a set of characters. */
  function Bitmap(members: set<byte>, n: nat): (r: seq<byte>)
    requires n <= 32
    ensures |r| == n && Represents(r, members)
  {
    Fill(members, n, 8 * n)
  }

  /** Only one map of a given length represents a set. */
  lemma {:induction false} BitmapUnique(bits: seq<byte>, members: set<byte>)
    requires |bits| <= 32 && Represents(bits, members)
    ensures bits == Bitmap(members, |bits|)
  {
    var r := Bitmap(members, |bits|);
    forall i | 0 <= i < |bits| ensures bits[i] == r[i] {
      forall k: nat | k < 8 ensures HasBit(bits[i], k) <==> HasBit(r[i], k) {
        var d: byte := 8 * i + k;
        assert d / 8 == i && d % 8 == k;
        assert IsThere(bits, d) <==> IsThere(r, d);
      }
      assert Pow2(8) == 256;
      NumberFromBits(bits[i], r[i], 8);
    }
  }

  // ----- abstract syntax ---------------------------------------------------

  /** What matches exactly one character. */
  datatype Atom =
    | Chr(c: byte)
    | Dot
    | Cls(neg: bool, members: set<byte>)

  /** The characters an atom matches; the terminating NUL is never one of them when the atom is proper. */
  predicate Accepts(a: Atom, c: byte) {
    match a
    case Chr(d) => c == d
    case Dot => c != 0
    case Cls(neg, members) => if neg then c != 0 && c !in members else c in members
  }

  /** No atom that text can spell matches NUL. */
  predicate Proper(a: Atom) {
    match a
    case Chr(d) => d != 0
    case Dot => true
    case Cls(_, members) => 0 !in members
  }

  /** A class that names a character above 0177 needs the 32-byte map. */
  predicate IsWide(members: set<byte>) {
    exists x :: x in members && x >= 128
  }

  function AtomOp(a: Atom): byte {
    match a
    case Chr(_) => CCHR
    case Dot => CDOT
    case Cls(neg, members) => if IsWide(members) then CXCL else if neg then NCCL else CCL
  }

  function AtomArgs(a: Atom): seq<byte> {
    match a
    case Chr(c) => [c]
    case Dot => []
    case Cls(neg, members) =>
      if IsWide(members) then
        Bitmap(if neg then (set x: byte | 0 < x < 256 && x !in members) else members, 32)
      else
        Bitmap(if neg then members + {0} else members, 16)
  }

  /** Items of a pattern, as written: suffixes nest in the order they follow the item. */
  datatype Item =
    | One(a: Atom)
    | Dollar
    | Open(n: byte)
    | Close(n: byte)
    | Back(n: byte)
    | Star(base: Item)
    | Rnge(base: Item, lo: byte, hi: byte)

  /** The compiled form of one item: an operation code, its arguments, and the bounds of its intervals. */
  function Encode(it: Item): (r: seq<byte>)
    ensures |r| > 0
  {
    match it
    case One(a) => [AtomOp(a)] + AtomArgs(a)
    case Dollar => [CDOL]
    case Open(n) => [CBRA, n]
    case Close(n) => [CKET, n]
    case Back(n) => [CBACK, n]
    case Star(base) => var b := Encode(base); b[0 := OrStar(b[0])]
    case Rnge(base, lo, hi) => var b := Encode(base); b[0 := OrRnge(b[0])] + [lo, hi]
  }

  function EncodeAll(items: seq<Item>): seq<byte> {
    if items == [] then []
    else EncodeAll(items[..|items| - 1]) + Encode(items[|items| - 1])
  }

  lemma {:induction false} EncodeAllAppend(items: seq<Item>, it: Item)
    ensures EncodeAll(items + [it]) == EncodeAll(items) + Encode(it)
  {
    assert (items + [it])[..|items|] == items;
  }
}
