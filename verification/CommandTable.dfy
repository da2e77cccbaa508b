/** The table of command totals of acctcms: hashing, linear probing, and what they mean. */
module CommandTable {
  import opened Ring

  /** A command name: at most eight characters, none of them NUL. */
  type Name = n: seq<int> | |n| <= 8 && forall i :: 0 <= i < |n| ==> -128 <= n[i] <= 127 && n[i] != 0

  /** A counter, for prime or for non-prime time. */
  datatype Field = Pc(prime: bool) | Cpu(prime: bool) | Real(prime: bool) | Kcore(prime: bool) | Io(prime: bool)
                 | Rw(prime: bool)

  datatype Pcms = Pcms(comm: Name, amounts: Field -> real)

  function Get(p: Pcms, f: Field): real {
    p.amounts(f)
  }

  function Zero(): Field -> real {
    (f: Field) => 0.0
  }

  function PcmAdd(p1: Pcms, p2: Pcms): Pcms {
    p1.(amounts := (f: Field) => p1.amounts(f) + p2.amounts(f))
  }

  // ----- names and their hash -----------------------------------------------------------------------

  const QUESTION := 63

  /** Control characters, and characters above 127, become question marks. */
  function Clean(n: Name): (r: Name)
    ensures |r| == |n|
  {
    seq(|n|, i requires 0 <= i < |n| => if n[i] <= 31 then QUESTION else n[i])
  }

  /** Characters that look alike once they are cleaned: control characters, those above 127, and the question mark. */
  predicate Blurred(c: int) {
    c < 0 || 1 <= c <= 31 || c == 63
  }

  /** Two names are of the same command. */
  predicate SameCommand(a: Name, b: Name) {
    |a| == |b| && forall i :: 0 <= i < |a| ==> a[i] == b[i] || (Blurred(a[i]) && Blurred(b[i]))
  }

  /** Cleaning joins exactly the names that differ in such characters only. */
  lemma {:induction false} CleanExactly(a: Name, b: Name)
    ensures Clean(a) == Clean(b) <==> SameCommand(a, b)
  {
    if Clean(a) == Clean(b) {
      forall i | 0 <= i < |a| ensures a[i] == b[i] || (Blurred(a[i]) && Blurred(b[i])) {
        assert Clean(a)[i] == Clean(b)[i];
      }
    }
  }

  function CharAt(n: Name, j: nat): int {
    if j < |n| then n[j] else 0
  }

  /** The hash of the first `j` characters. */
  function HashTo(n: Name, j: nat): int {
    if j == 0 then 0 else HashTo(n, j - 1) * 7 + CharAt(n, j - 1)
  }

  /** The hash is the name as a number to the base seven, filled up with NUL to eight characters. */
  lemma {:induction false} HashValue(n: Name)
    ensures HashTo(n, 8) == 823543 * CharAt(n, 0) + 117649 * CharAt(n, 1) + 16807 * CharAt(n, 2)
                          + 2401 * CharAt(n, 3) + 343 * CharAt(n, 4) + 49 * CharAt(n, 5) + 7 * CharAt(n, 6)
                          + CharAt(n, 7)
  {
    hide CharAt;
    assert HashTo(n, 1) == HashTo(n, 0) * 7 + CharAt(n, 0);
    assert HashTo(n, 2) == 7 * CharAt(n, 0) + CharAt(n, 1);
    assert HashTo(n, 4) == 49 * HashTo(n, 2) + 7 * CharAt(n, 2) + CharAt(n, 3);
    assert HashTo(n, 6) == 49 * HashTo(n, 4) + 7 * CharAt(n, 4) + CharAt(n, 5);
    assert HashTo(n, 8) == 49 * HashTo(n, 6) + 7 * CharAt(n, 6) + CharAt(n, 7);
  }

  function Power7(j: nat): nat {
    if j == 0 then 1 else 7 * Power7(j - 1)
  }

  /** A clean name's hash is not negative. */
  lemma {:induction false} HashBound(n: Name, j: nat)
    ensures 0 <= 6 * HashTo(Clean(n), j) <= 127 * (Power7(j) - 1)
  {
    if j > 0 {
      HashBound(n, j - 1);
    }
  }

  /** It fits a 32-bit int. */
  lemma {:induction false} HashFits(n: Name)
    ensures 0 <= HashTo(Clean(n), 8) < 0x8000_0000
  {
    HashBound(n, 8);
    assert Power7(8) == 7 * Power7(7) && Power7(7) == 7 * Power7(6) && Power7(6) == 7 * Power7(5);
    assert Power7(5) == 7 * Power7(4) && Power7(4) == 7 * Power7(3);
  }

  /** The slot at which the search for a clean name starts. */
  function Home(n: Name, m: nat): (h: nat)
    requires m > 0
    ensures h < m
  {
    HashTo(n, 8) % m
  }

  // ----- the ring of slots ---------------------------------------------------------------------------

  predicate Named(p: Pcms) {
    p.comm != []
  }

  /** The first `d` slots from `h` on are named. */
  predicate Busy(t: seq<Pcms>, h: nat, d: nat)
    requires h < |t| && d <= |t|
  {
    forall e :: 0 <= e < d ==> Named(t[Wrap(h, e, |t|)])
  }

  /** No two slots have the same name. */
  predicate Distinct(t: seq<Pcms>) {
    forall i, j :: 0 <= i < j < |t| && Named(t[i]) ==> t[i].comm != t[j].comm
  }

  /** Between a name's home and its slot all slots are named. */
  predicate Probed(t: seq<Pcms>) {
    forall i :: 0 <= i < |t| && Named(t[i]) ==> Busy(t, Home(t[i].comm, |t|), Steps(Home(t[i].comm, |t|), i, |t|))
  }

  /** Nothing has been added to a slot without a name. */
  ghost predicate Clear(t: seq<Pcms>) {
    forall i, f :: 0 <= i < |t| && !Named(t[i]) ==> Get(t[i], f) == 0.0
  }

  predicate Ordered(t: seq<Pcms>) {
    |t| > 0 && Distinct(t) && Probed(t)
  }

  ghost predicate TableOk(t: seq<Pcms>) {
    Ordered(t) && Clear(t)
  }

  predicate Holds(t: seq<Pcms>, n: Name) {
    exists i :: 0 <= i < |t| && t[i].comm == n
  }

  predicate Full(t: seq<Pcms>) {
    forall i :: 0 <= i < |t| ==> Named(t[i])
  }

  /** Where the search for `n` ends: at its slot, at a slot without a name that it may take, or nowhere. */
  ghost predicate Found(t: seq<Pcms>, n: Name, i: int)
    requires |t| > 0
  {
    if i == -1 then Full(t) && !Holds(t, n)
    else
      && 0 <= i < |t|
      && (t[i].comm == n || !Named(t[i]))
      && (t[i].comm != n ==> !Holds(t, n))
      && Busy(t, Home(n, |t|), Steps(Home(n, |t|), i, |t|))
  }

  /** The search passed `d` slots, all of them with other names. */
  predicate Passed(t: seq<Pcms>, n: Name, d: nat)
    requires |t| > 0 && d <= |t|
  {
    Busy(t, Home(n, |t|), d) && forall e :: 0 <= e < d ==> t[Wrap(Home(n, |t|), e, |t|)].comm != n
  }

  /** Meeting a slot without a name proves the name absent. */
  lemma {:induction false} MissedAll(t: seq<Pcms>, n: Name, d: nat)
    requires Ordered(t) && d <= |t| && Passed(t, n, d)
    requires d == |t| || (n != [] && !Named(t[Wrap(Home(n, |t|), d, |t|)]))
    ensures !Holds(t, n)
    ensures d == |t| ==> Full(t)
  {
    var h := Home(n, |t|);
    forall i | 0 <= i < |t| ensures t[i].comm != n && (d == |t| ==> Named(t[i])) {
      var e := Steps(h, i, |t|);
      assert t[i] == t[Wrap(h, e, |t|)];
    }
  }

  /** A record that a free slot may take without harm: it has a name or nothing to add. */
  ghost predicate Harmless(p: Pcms) {
    Named(p) || forall f :: Get(p, f) == 0.0
  }

  /** Taking the slot the search found keeps the table in order. */
  lemma {:induction false} EntryOrdered(t: seq<Pcms>, p: Pcms, i: int, t': seq<Pcms>)
    requires Ordered(t) && i != -1 && Found(t, p.comm, i)
    requires t' == t[i := PcmAdd(t[i].(comm := p.comm), p)]
    ensures Ordered(t')
  {
    forall k | 0 <= k < |t'| && Named(t'[k])
      ensures Busy(t', Home(t'[k].comm, |t'|), Steps(Home(t'[k].comm, |t'|), k, |t'|))
    {
      assert k != i ==> Busy(t, Home(t[k].comm, |t|), Steps(Home(t[k].comm, |t|), k, |t|));
    }
  }

  /** Its free slots stay empty exactly when the record has a name or nothing to add. */
  lemma {:induction false} EntryKeeps(t: seq<Pcms>, p: Pcms, i: int, t': seq<Pcms>)
    requires TableOk(t) && i != -1 && Found(t, p.comm, i)
    requires t' == t[i := PcmAdd(t[i].(comm := p.comm), p)]
    ensures TableOk(t') <==> Harmless(p)
  {
    EntryOrdered(t, p, i, t');
    forall f ensures !Named(p) ==> Get(t'[i], f) == Get(p, f) {
      assert !Named(t[i]) ==> Get(t[i], f) == 0.0;
    }
  }

  /** A record without a name, and then one with a name that takes the same slot: the name gets what is not its own. */
  lemma {:induction false} NamelessLeaks(f: Field)
    ensures var nameless, cat := Pcms([], (g: Field) => 1.0), Pcms([99, 97, 116], Zero());
            var t0 := [Pcms([], Zero())];
            var t1 := [PcmAdd(t0[0].(comm := []), nameless)];
            var t2 := [PcmAdd(t1[0].(comm := cat.comm), cat)];
            && TableOk(t0) && Found(t0, [], 0) && Found(t1, cat.comm, 0) && !TableOk(t1)
            && Sum(t2, f, Only(cat.comm)) == 1.0 && Sum([nameless, cat], f, Only(cat.comm)) == 0.0
  {
    var nameless, cat := Pcms([], (g: Field) => 1.0), Pcms([99, 97, 116], Zero());
    var t1 := [PcmAdd(Pcms([], Zero()), nameless)];
    var t2 := [PcmAdd(t1[0].(comm := cat.comm), cat)];
    assert Get(t1[0], f) == 1.0 && Get(t2[0], f) == 1.0;
    assert Sum(t2, f, Only(cat.comm)) == 1.0 by {
      assert t2[..0] == [];
    }
    assert Sum([nameless, cat], f, Only(cat.comm)) == 0.0 by {
      assert [nameless, cat][..1] == [nameless] && [nameless][..0] == [];
      assert Sum([nameless], f, Only(cat.comm)) == 0.0;
    }
  }

  // ----- what the table means -----------------------------------------------------------------------

  /** Which records to sum: all that have a name, or those with one name. */
  datatype Selection = AllNamed | Only(n: Name)

  predicate Selected(sel: Selection, p: Pcms) {
    Named(p) && (sel.AllNamed? || p.comm == sel.n)
  }

  function Part(p: Pcms, f: Field, sel: Selection): real {
    if Selected(sel, p) then Get(p, f) else 0.0
  }

  function Sum(s: seq<Pcms>, f: Field, sel: Selection): real {
    if s == [] then 0.0 else Sum(s[..|s| - 1], f, sel) + Part(s[|s| - 1], f, sel)
  }

  lemma {:induction false} SumUpdate(s: seq<Pcms>, i: nat, p: Pcms, f: Field, sel: Selection)
    requires i < |s|
    ensures Sum(s[i := p], f, sel) == Sum(s, f, sel) - Part(s[i], f, sel) + Part(p, f, sel)
  {
    var n := |s| - 1;
    if i == n {
      assert s[i := p][..n] == s[..n];
    } else {
      SumUpdate(s[..n], i, p, f, sel);
      assert s[i := p][..n] == s[..n][i := p];
    }
  }

  function CleanAll(s: seq<Pcms>): (r: seq<Pcms>)
    ensures |r| == |s|
  {
    seq(|s|, i requires 0 <= i < |s| => s[i].(comm := Clean(s[i].comm)))
  }

  ghost function Names(s: seq<Pcms>): set<Name> {
    set i | 0 <= i < |s| && Named(s[i]) :: s[i].comm
  }

  /** The table is the map from each clean name of the records to the sum of their counters. */
  ghost predicate Refines(t: seq<Pcms>, records: seq<Pcms>) {
    Names(t) == Names(CleanAll(records)) && forall f, sel :: Sum(t, f, sel) == Sum(CleanAll(records), f, sel)
  }

  /** The sum of a counter over the records of the command called `n`. */
  function CommandSum(records: seq<Pcms>, n: Name, f: Field): real {
    if records == [] then 0.0
    else
      var k := |records| - 1;
      CommandSum(records[..k], n, f) + if SameCommand(records[k].comm, n) then Get(records[k], f) else 0.0
  }

  lemma {:induction false} CommandSumIs(records: seq<Pcms>, n: Name, f: Field)
    requires n != []
    ensures CommandSum(records, n, f) == Sum(CleanAll(records), f, Only(Clean(n)))
  {
    if records != [] {
      hide Clean, SameCommand;
      var k := |records| - 1;
      CommandSumIs(records[..k], n, f);
      CleanExactly(records[k].comm, n);
      CleanLength(n);
      assert CleanAll(records)[..k] == CleanAll(records[..k]);
    }
  }

  lemma {:induction false} CleanLength(n: Name)
    ensures |Clean(n)| == |n|
  {}

  /** What the table holds for a command is the sum over its records, by any of its names; a command is in the table
      exactly when some record is of it. */
  lemma {:induction false} RefinesByName(t: seq<Pcms>, records: seq<Pcms>, n: Name, f: Field)
    requires Refines(t, records) && n != []
    ensures Sum(t, f, Only(Clean(n))) == CommandSum(records, n, f)
    ensures Clean(n) in Names(t) <==> exists k :: 0 <= k < |records| && SameCommand(records[k].comm, n)
  {
    hide Clean, SameCommand, Sum;
    CommandSumIs(records, n, f);
    CleanLength(n);
    forall k | 0 <= k < |records|
      ensures SameCommand(records[k].comm, n) <==> CleanAll(records)[k].comm == Clean(n)
    {
      CleanExactly(records[k].comm, n);
    }
    if Clean(n) in Names(t) {
      var k :| 0 <= k < |records| && CleanAll(records)[k].comm == Clean(n);
      assert SameCommand(records[k].comm, n);
    }
    if k :| 0 <= k < |records| && SameCommand(records[k].comm, n) {
      assert CleanAll(records)[k].comm == Clean(n);
    }
  }

  /** Entering a record adds it to the map. */
  lemma {:induction false} EntryAdds(t: seq<Pcms>, p: Pcms, i: int, t': seq<Pcms>, f: Field, sel: Selection)
    requires TableOk(t) && i != -1 && Found(t, p.comm, i)
    requires t' == t[i := PcmAdd(t[i].(comm := p.comm), p)]
    ensures Sum(t', f, sel) == Sum(t, f, sel) + Part(p, f, sel)
  {
    SumUpdate(t, i, PcmAdd(t[i].(comm := p.comm), p), f, sel);
    assert !Named(t[i]) ==> Get(t[i], f) == 0.0;
  }

  lemma {:induction false} EntryRefines(t: seq<Pcms>, records: seq<Pcms>, p: Pcms, i: int, t': seq<Pcms>)
    requires TableOk(t) && Refines(t, records) && Harmless(p) && i != -1 && Found(t, Clean(p.comm), i)
    requires t' == t[i := PcmAdd(t[i].(comm := Clean(p.comm)), p)]
    ensures TableOk(t') && Refines(t', records + [p])
  {
    var c, more := p.(comm := Clean(p.comm)), CleanAll(records + [p]);
    assert t' == t[i := PcmAdd(t[i].(comm := c.comm), c)];
    assert forall f :: Get(c, f) == Get(p, f);
    EntryKeeps(t, c, i, t');
    assert more[..|records|] == CleanAll(records) && more[|records|] == c;
    forall f, sel ensures Sum(t', f, sel) == Sum(more, f, sel) {
      EntryAdds(t, c, i, t', f, sel);
      assert Sum(t, f, sel) == Sum(CleanAll(records), f, sel);
    }
    NamesEntered(t, records, p, i, t');
  }

  /** The names entered, whether or not records without a name are among them. */
  lemma {:induction false} NamesEntered(t: seq<Pcms>, records: seq<Pcms>, p: Pcms, i: int, t': seq<Pcms>)
    requires |t| > 0 && i != -1 && Found(t, Clean(p.comm), i) && Names(t) == Names(CleanAll(records))
    requires t' == t[i := PcmAdd(t[i].(comm := Clean(p.comm)), p)]
    ensures Names(t') == Names(CleanAll(records + [p]))
  {
    var c, more := p.(comm := Clean(p.comm)), CleanAll(records + [p]);
    assert more[..|records|] == CleanAll(records) && more[|records|] == c;
    if Named(p) {
      NamesGrow(t, c, i, t');
      NamesAppend(CleanAll(records), c, more);
    } else {
      NamesSame(t, t');
      NamesSkip(CleanAll(records), more);
    }
  }

  lemma {:induction false} NamesSame(t: seq<Pcms>, t': seq<Pcms>)
    requires |t| == |t'| && forall k :: 0 <= k < |t| ==> t[k].comm == t'[k].comm
    ensures Names(t) == Names(t')
  {
    forall n | n in Names(t) ensures n in Names(t') {
      var k :| 0 <= k < |t| && Named(t[k]) && t[k].comm == n;
      assert t'[k].comm == n;
    }
    forall n | n in Names(t') ensures n in Names(t) {
      var k :| 0 <= k < |t'| && Named(t'[k]) && t'[k].comm == n;
      assert t[k].comm == n;
    }
  }

  /** The total of a counter over all slots, with or without a name. */
  function Total(s: seq<Pcms>, f: Field): real {
    if s == [] then 0.0 else Total(s[..|s| - 1], f) + Get(s[|s| - 1], f)
  }

  lemma {:induction false} TotalUpdate(s: seq<Pcms>, i: nat, p: Pcms, f: Field)
    requires i < |s|
    ensures Total(s[i := p], f) == Total(s, f) - Get(s[i], f) + Get(p, f)
  {
    var n := |s| - 1;
    if i == n {
      assert s[i := p][..n] == s[..n];
    } else {
      TotalUpdate(s[..n], i, p, f);
      assert s[i := p][..n] == s[..n][i := p];
    }
  }

  /** Whatever the records, nothing is lost as long as free slots count. */
  lemma {:induction false} EntryTotal(t: seq<Pcms>, records: seq<Pcms>, p: Pcms, i: nat, t': seq<Pcms>, f: Field)
    requires i < |t| && t' == t[i := PcmAdd(t[i].(comm := Clean(p.comm)), p)] && Total(t, f) == Total(records, f)
    ensures Total(t', f) == Total(records + [p], f)
  {
    TotalUpdate(t, i, PcmAdd(t[i].(comm := Clean(p.comm)), p), f);
    assert (records + [p])[..|records|] == records;
  }

  lemma {:induction false} NamesGrow(t: seq<Pcms>, p: Pcms, i: int, t': seq<Pcms>)
    requires 0 <= i < |t| && p.comm != [] && (t[i].comm == p.comm || !Named(t[i]))
    requires t' == t[i := PcmAdd(t[i].(comm := p.comm), p)]
    ensures Names(t') == Names(t) + {p.comm}
  {
    assert t'[i].comm == p.comm;
    forall n | n in Names(t) ensures n in Names(t') {
      var k :| 0 <= k < |t| && Named(t[k]) && t[k].comm == n;
      assert t'[k].comm == n;
    }
  }

  lemma {:induction false} NamesAppend(s: seq<Pcms>, p: Pcms, s': seq<Pcms>)
    requires |s'| == |s| + 1 && s'[..|s|] == s && s'[|s|] == p && p.comm != []
    ensures Names(s') == Names(s) + {p.comm}
  {
    forall n | n in Names(s) ensures n in Names(s') {
      var k :| 0 <= k < |s| && Named(s[k]) && s[k].comm == n;
      assert s'[k].comm == n;
    }
    forall n | n in Names(s') ensures n in Names(s) + {p.comm} {
      var k :| 0 <= k < |s'| && Named(s'[k]) && s'[k].comm == n;
      if k < |s| {
        assert s[k].comm == n;
      }
    }
  }

  /** A table holds as many names as it has slots if and only if it is full, and never more. */
  lemma {:induction false} FullCount(t: seq<Pcms>)
    requires Distinct(t)
    ensures |Names(t)| <= |t| && (Full(t) <==> |Names(t)| == |t|)
  {
    if t != [] {
      var n := |t| - 1;
      var rest := t[..n];
      FullCount(rest);
      if Named(t[n]) {
        NamesAppend(rest, t[n], t);
        assert t[n].comm !in Names(rest);
      } else {
        NamesSkip(rest, t);
      }
    }
  }

  lemma {:induction false} NamesSkip(s: seq<Pcms>, s': seq<Pcms>)
    requires |s'| == |s| + 1 && s'[..|s|] == s && !Named(s'[|s|])
    ensures Names(s') == Names(s)
  {
    forall n | n in Names(s) ensures n in Names(s') {
      var k :| 0 <= k < |s| && Named(s[k]) && s[k].comm == n;
      assert s'[k].comm == n;
    }
    forall n | n in Names(s') ensures n in Names(s) {
      var k :| 0 <= k < |s'| && Named(s'[k]) && s'[k].comm == n;
      assert s[k].comm == n;
    }
  }
}
