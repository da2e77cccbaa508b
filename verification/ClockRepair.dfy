/** Two-pass repair of login records after changes of the clock. Offsets count records. */
module ClockRepair {
  import opened LoginRecords

  // ----- what the repair should do -----------------------------------------------------------

  /** Every record of an old time is followed by one of the new time. */
  predicate Paired(recs: seq<Rec>) {
    forall c :: 0 <= c < |recs| && recs[c].kind.OldTime? ==> c + 1 < |recs| && recs[c + 1].kind.NewTime?
  }

  predicate StartsWith(s: string, p: string) {
    |p| <= |s| && s[..|p|] == p
  }

  /** How the run level recorded at one place changes the count that is positive in multi-user mode. */
  function ModeAfter(r: Rec, mode: int): int {
    if !r.kind.RunLvl? then mode
    else
      var m := if StartsWith(r.line, "run-level S") then 0 else mode;
      if StartsWith(r.line, "run-level 2") then m + 1 else m
  }

  function Mode(recs: seq<Rec>, n: nat): int
    requires n <= |recs|
  {
    if n == 0 then 0 else ModeAfter(recs[n - 1], Mode(recs, n - 1))
  }

  predicate LevelIs(r: Rec, message: string) {
    r.kind.RunLvl? && |message| <= |r.line| && r.line[..|message|] == message
  }

  /** A change to run level 2 at `j`, and none to single-user mode from there up to `c`. */
  predicate MultiSince(recs: seq<Rec>, j: nat, c: nat)
    requires c <= |recs|
  {
    && j < c && LevelIs(recs[j], "run-level 2")
    && forall k :: j < k < c ==> !LevelIs(recs[k], "run-level S")
  }

  /** The count is positive exactly when, since the last change to single-user mode, there was one to run level 2. */
  lemma {:induction false} ModeExactly(recs: seq<Rec>, c: nat)
    requires c <= |recs|
    ensures Mode(recs, c) >= 0 && (Mode(recs, c) > 0 <==> exists j: nat :: MultiSince(recs, j, c))
  {
    if c > 0 {
      var b, r := c - 1, recs[c - 1];
      ModeExactly(recs, b);
      assert "run-level 2"[10] == '2' && "run-level S"[10] == 'S';
      if LevelIs(r, "run-level 2") {
        assert MultiSince(recs, b, c);
      } else if !LevelIs(r, "run-level S") {
        if j: nat :| MultiSince(recs, j, c) {
          assert MultiSince(recs, j, b);
        }
        if j: nat :| MultiSince(recs, j, b) {
          assert MultiSince(recs, j, c);
        }
      } else {
        forall j: nat ensures !MultiSince(recs, j, c) {}
      }
    }
  }

  predicate NoBoot(recs: seq<Rec>, p: nat, c: nat)
    requires c < |recs|
  {
    forall b :: p < b <= c ==> !recs[b].kind.BootTime?
  }

  /** The change of the clock at `c` applies to the record at `p`: it comes later, in multi-user mode, with no boot
      between them. */
  predicate Applies(recs: seq<Rec>, p: nat, c: nat)
    requires c < |recs| && Paired(recs)
  {
    p < c && recs[c].kind.OldTime? && Mode(recs, c) != 0 && NoBoot(recs, p, c)
  }

  /** What the changes of the clock before `n` add to the time of the record at `p`. */
  function Gain(recs: seq<Rec>, p: nat, n: nat): int
    requires n <= |recs| && Paired(recs)
  {
    if n == 0 then 0
    else Gain(recs, p, n - 1) + if Applies(recs, p, n - 1) then recs[n].time - recs[n - 1].time else 0
  }

  /** Reading on by one record adds the change there, to the times of all records before it back to the last boot, if
      there was one to run level 2 since the last change to single-user mode. */
  lemma {:induction false} GainExactly(recs: seq<Rec>, p: nat, c: nat)
    requires c < |recs| && Paired(recs)
    ensures Gain(recs, p, c + 1) - Gain(recs, p, c) ==
            if recs[c].kind.OldTime? && p < c && (exists j: nat :: MultiSince(recs, j, c))
               && (forall b :: p < b < c ==> !recs[b].kind.BootTime?)
            then recs[c + 1].time - recs[c].time else 0
  {
    ModeExactly(recs, c);
  }

  predicate NameChar(c: char) {
    'a' <= c <= 'z' || 'A' <= c <= 'Z' || '0' <= c <= '9' || c == '$' || c == ' ' || c == '.' || c == '_' || c == '-'
  }

  /** Letters, digits, and five more, by their codes. */
  lemma {:induction false} NameCharIs(c: char)
    ensures NameChar(c) <==>
            var k := c as int; 48 <= k <= 57 || 65 <= k <= 90 || 97 <= k <= 122 || k in {32, 36, 45, 46, 95}
  {
    assert 'a' as int == 97 && 'z' as int == 122 && 'A' as int == 65 && 'Z' as int == 90;
    assert '0' as int == 48 && '9' as int == 57 && ' ' as int == 32 && '$' as int == 36;
    assert '-' as int == 45 && '.' as int == 46 && '_' as int == 95;
  }

  function FixName(name: string): string {
    if forall i :: 0 <= i < |name| ==> NameChar(name[i]) then name else "INVALID"
  }

  /** The record at `p` with its name checked; the name of a new time is left as it is. */
  function NamedAt(recs: seq<Rec>, p: nat): Rec
    requires p < |recs|
  {
    if p > 0 && recs[p - 1].kind.OldTime? then recs[p] else recs[p].(name := FixName(recs[p].name))
  }

  function Named(recs: seq<Rec>, p: nat, n: nat): (r: seq<Rec>)
    requires p <= n <= |recs|
    ensures |r| == n - p && forall i :: 0 <= i < n - p ==> r[i] == NamedAt(recs, p + i)
  {
    seq(n - p, i requires 0 <= i < n - p => NamedAt(recs, p + i))
  }

  // ----- the table of changes ------------------------------------------------------------------

  /** A change of the clock: it applies to the records from `off1` up to, and without, `off2`. */
  datatype Dtab = Dtab(off1: int, off2: int, adj: int)

  /** What the table adds to the time of the record at `p`. */
  function Adjustment(table: seq<Dtab>, p: int): int {
    if table == [] then 0
    else
      var d := table[|table| - 1];
      Adjustment(table[..|table| - 1], p) + if d.off1 <= p < d.off2 then d.adj else 0
  }

  /** The last boot before `n`, or the start. */
  function LastBoot(recs: seq<Rec>, n: nat): (b: nat)
    requires n <= |recs|
    ensures b < n || b == 0
    ensures forall k :: b < k < n ==> !recs[k].kind.BootTime?
    ensures b != 0 ==> recs[b].kind.BootTime?
  {
    if n == 0 then 0 else if recs[n - 1].kind.BootTime? then n - 1 else LastBoot(recs, n - 1)
  }

  /** The table after the first `n` records: finished entries, then one that waits for the next change. */
  ghost predicate TableFor(recs: seq<Rec>, n: nat, table: seq<Dtab>) {
    && n <= |recs| && Paired(recs)
    && (n > 0 ==> table != [] && table[|table| - 1] == Dtab(LastBoot(recs, n), 0, 0))
    && (n == 0 ==> table == [])
    && forall p: nat :: Adjustment(table, p) == Gain(recs, p, n)
  }

  lemma {:induction false} AdjustmentLast(table: seq<Dtab>, d: Dtab, p: int)
    ensures Adjustment(table + [d], p) == Adjustment(table, p) + if d.off1 <= p < d.off2 then d.adj else 0
  {
    assert (table + [d])[..|table|] == table;
  }

  /** The range of an entry is where its change applies. */
  lemma {:induction false} RangeApplies(recs: seq<Rec>, p: nat, c: nat)
    requires c < |recs| && Paired(recs) && recs[c].kind.OldTime? && Mode(recs, c) != 0
    ensures Applies(recs, p, c) <==> LastBoot(recs, c) <= p < c
  {}

  /** Pass one over a pair of records of a change. */
  lemma {:induction false} PairGain(recs: seq<Rec>, n: nat, table: seq<Dtab>, adj: int)
    requires n + 1 < |recs| && Paired(recs) && recs[n].kind.OldTime?
    requires forall p: nat :: Adjustment(table, p) == Gain(recs, p, n)
    requires adj == recs[n + 1].time - recs[n].time && Mode(recs, n) != 0
    ensures forall p: nat :: Adjustment(table + [Dtab(LastBoot(recs, n), n, adj)], p) == Gain(recs, p, n + 2)
  {
    forall p: nat ensures Adjustment(table + [Dtab(LastBoot(recs, n), n, adj)], p) == Gain(recs, p, n + 2) {
      AdjustmentLast(table, Dtab(LastBoot(recs, n), n, adj), p);
      RangeApplies(recs, p, n);
      assert recs[n + 1].kind.NewTime?;
      assert Gain(recs, p, n + 2) == Gain(recs, p, n + 1);
    }
  }

  /** The table once the start of the waiting entry is set for the record at `n`. */
  ghost predicate ReadyFor(recs: seq<Rec>, n: nat, table: seq<Dtab>) {
    && n < |recs| && Paired(recs) && table != []
    && table[|table| - 1] == Dtab(LastBoot(recs, n + 1), 0, 0)
    && forall p: nat :: Adjustment(table[..|table| - 1], p) == Gain(recs, p, n)
  }

  lemma {:induction false} MakeReady(recs: seq<Rec>, n: nat, table: seq<Dtab>, made: seq<Dtab>)
    requires TableFor(recs, n, table) && n < |recs|
    requires if n == 0 then made == [Dtab(0, 0, 0)]
             else if recs[n].kind.BootTime? then made == table[|table| - 1 := table[|table| - 1].(off1 := n)]
             else made == table
    ensures ReadyFor(recs, n, made)
  {
    if n > 0 {
      var front := table[..|table| - 1];
      assert made[..|made| - 1] == front;
      forall p: nat ensures Adjustment(front, p) == Gain(recs, p, n) {
        assert table == front + [table[|table| - 1]];
        AdjustmentLast(front, table[|table| - 1], p);
      }
    }
  }

  /** A record that is no change of the clock, or a change in single-user mode, adds nothing. */
  lemma {:induction false} PassBy(recs: seq<Rec>, n: nat, table: seq<Dtab>, m: nat)
    requires ReadyFor(recs, n, table)
    requires (!recs[n].kind.OldTime? && m == n + 1) || (recs[n].kind.OldTime? && Mode(recs, n) == 0 && m == n + 2)
    ensures TableFor(recs, m, table)
  {
    var front, d := table[..|table| - 1], table[|table| - 1];
    assert table == front + [d];
    forall p: nat ensures Adjustment(table, p) == Gain(recs, p, m) {
      AdjustmentLast(front, d, p);
      assert Gain(recs, p, n + 1) == Gain(recs, p, n);
    }
  }

  /** A change in multi-user mode finishes the waiting entry. */
  lemma {:induction false} TakeChange(recs: seq<Rec>, n: nat, table: seq<Dtab>, adj: int)
    requires ReadyFor(recs, n, table) && recs[n].kind.OldTime? && Mode(recs, n) != 0
    requires adj == recs[n + 1].time - recs[n].time
    ensures var d := table[|table| - 1];
            TableFor(recs, n + 2, table[..|table| - 1] + [Dtab(d.off1, n, adj), Dtab(d.off1, 0, 0)])
  {
    var front, d := table[..|table| - 1], table[|table| - 1];
    var done := front + [Dtab(d.off1, n, adj)];
    assert d.off1 == LastBoot(recs, n);
    PairGain(recs, n, front, adj);
    assert front + [Dtab(d.off1, n, adj), Dtab(d.off1, 0, 0)] == done + [Dtab(d.off1, 0, 0)];
    forall p: nat ensures Adjustment(done + [Dtab(d.off1, 0, 0)], p) == Gain(recs, p, n + 2) {
      AdjustmentLast(done, Dtab(d.off1, 0, 0), p);
    }
  }

  // ----- what the repair restores -----------------------------------------------------------------

  /** The records were written by a clock that was `off[p]` behind the time `truth[p]` at each; that changes only
      where the clock is set, from the record of the old time to that of the new, which are of the same moment. */
  predicate WrittenBy(recs: seq<Rec>, truth: seq<int>, off: seq<int>) {
    && |truth| == |off| == |recs|
    && (forall p :: 0 <= p < |recs| ==> recs[p].time == truth[p] - off[p])
    && forall p :: 0 < p < |recs| ==>
         if recs[p - 1].kind.OldTime? then truth[p] == truth[p - 1] else off[p] == off[p - 1]
  }

  lemma {:induction false} GainBefore(recs: seq<Rec>, p: nat, n: nat)
    requires Paired(recs) && n <= |recs| && n <= p + 1
    ensures Gain(recs, p, n) == 0
  {
    if n > 0 {
      GainBefore(recs, p, n - 1);
    }
  }

  lemma {:induction false} GainIsOffset(recs: seq<Rec>, truth: seq<int>, off: seq<int>, p: nat, n: nat)
    requires Paired(recs) && WrittenBy(recs, truth, off) && p < n <= |recs| && !recs[p].kind.OldTime?
    requires forall c :: p < c < n && recs[c].kind.OldTime? ==> Applies(recs, p, c)
    ensures Gain(recs, p, n) == off[p] - off[if recs[n - 1].kind.OldTime? then n else n - 1]
  {
    hide NoBoot, Mode;
    if n == p + 1 {
      GainBefore(recs, p, n);
    } else {
      GainIsOffset(recs, truth, off, p, n - 1);
      assert recs[n - 2].kind.OldTime? ==> recs[n - 1].kind.NewTime?;
      assert recs[n - 1].kind.OldTime? ==> recs[n].time - recs[n - 1].time == off[n - 1] - off[n];
      assert !recs[n - 2].kind.OldTime? ==> off[n - 1] == off[n - 2];
    }
  }

  /** When every later change of the clock applies to a record, its repaired time is the true time, on the clock as it
      is at the end of the file. */
  lemma {:induction false} RepairRestores(recs: seq<Rec>, truth: seq<int>, off: seq<int>, p: nat)
    requires Paired(recs) && WrittenBy(recs, truth, off) && p < |recs| && !recs[p].kind.OldTime?
    requires forall c :: p < c < |recs| && recs[c].kind.OldTime? ==> Applies(recs, p, c)
    ensures recs[p].time + Gain(recs, p, |recs|) == truth[p] - off[|recs| - 1]
  {
    GainIsOffset(recs, truth, off, p, |recs|);
  }

  // ----- the procedures -------------------------------------------------------------------------

  class Wtmpfix {
    var dtab: seq<Dtab>
    var recno: nat
    var multimode: int

    constructor ()
      ensures dtab == [] && recno == 0 && multimode == 0
    {
      dtab, recno, multimode := [], 0, 0;
    }

    /** Sets the start of the waiting entry. */
    method Mkdtab(p: nat)
      modifies this`dtab
      ensures dtab == if old(dtab) == [] then [Dtab(p, 0, 0)]
                      else old(dtab)[|old(dtab)| - 1 := old(dtab)[|old(dtab)| - 1].(off1 := p)]
    {
      if dtab == [] {
        dtab := [Dtab(0, 0, 0)];
      }
      dtab := dtab[|dtab| - 1 := dtab[|dtab| - 1].(off1 := p)];
    }

    /** Finishes the waiting entry and starts the next. */
    method Setdtab(p: nat, w1: Rec, w2: Rec)
      requires dtab != []
      modifies this`dtab
      ensures var d := old(dtab)[|old(dtab)| - 1];
              dtab == old(dtab)[..|old(dtab)| - 1] + [Dtab(d.off1, p, w2.time - w1.time), Dtab(d.off1, 0, 0)]
    {
      var last := |dtab| - 1;
      dtab := dtab[last := dtab[last].(off2 := p, adj := w2.time - w1.time)];
      dtab := dtab + [Dtab(dtab[last].off1, 0, 0)];
    }

    /** What the table adds to the time of a record. */
    method Adjust(p: nat, w: Rec) returns (r: Rec)
      ensures r == w.(time := w.time + Adjustment(dtab, p))
    {
      r := w;
      var i := 0;
      while i < |dtab|
        invariant 0 <= i <= |dtab|
        invariant r == w.(time := w.time + Adjustment(dtab[..i], p))
      {
        assert dtab[..i + 1][..i] == dtab[..i];
        if dtab[i].adj != 0 && dtab[i].off1 <= p < dtab[i].off2 {
          r := r.(time := r.time + dtab[i].adj);
        }
        i := i + 1;
      }
      assert dtab[..|dtab|] == dtab;
    }
  
    /** The first record and a boot set the start of the waiting entry. */
    method StartEntry(recs: seq<Rec>)
      requires recno < |recs| && (Paired(recs) ==> TableFor(recs, recno, dtab)) && (recno > 0 ==> dtab != [])
      modifies this`dtab
      ensures dtab != [] && (Paired(recs) ==> ReadyFor(recs, recno, dtab))
    {
      hide Adjustment, Gain, ReadyFor, LastBoot;
      ghost var before := dtab;
      if recno == 0 || recs[recno].kind.BootTime? {
        Mkdtab(recno);
      }
      if Paired(recs) {
        MakeReady(recs, recno, before, dtab);
      }
    }

    /** Follows the run level. */
    method RunLevel(ut: Rec)
      modifies this`multimode
      ensures multimode == ModeAfter(ut, old(multimode))
    {
      if ut.kind.RunLvl? {
        if StartsWith(ut.line, "run-level S") {
          multimode := 0;
        }
        if StartsWith(ut.line, "run-level 2") {
          multimode := multimode + 1;
        }
      }
    }

    /** Pass one on the record at `recno`, and on the new time that follows an old one. */
    method ScanOne(recs: seq<Rec>) returns (err: int, out: seq<Rec>)
      requires recno < |recs| && multimode == Mode(recs, recno)
      requires Paired(recs) ==> TableFor(recs, recno, dtab)
      requires recno > 0 ==> dtab != [] && !recs[recno - 1].kind.OldTime?
      modifies this
      ensures err != 0 ==> !Paired(recs)
      ensures err == 0 ==> recno == old(recno) + (if recs[old(recno)].kind.OldTime? then 2 else 1) <= |recs|
      ensures err == 0 ==> multimode == Mode(recs, recno) && dtab != []
      ensures err == 0 && Paired(recs) ==> TableFor(recs, recno, dtab)
      ensures err == 0 ==> out == Named(recs, old(recno), recno)
      ensures err == 0 && recs[old(recno)].kind.OldTime? ==> recs[old(recno) + 1].kind.NewTime?
    {
      hide Adjustment, Gain, ReadyFor, LastBoot, StartsWith, FixName;
      err, out := 0, [];
      var n := recno;
      var ut := recs[n];
      StartEntry(recs);
      RunLevel(ut);
      ut := ut.(name := FixName(ut.name));
      if ut.kind.OldTime? {
        if n + 1 == |recs| {
          return 1, [];
        }
        var ut2 := recs[n + 1];
        if !ut2.kind.NewTime? {
          return 2, [];
        }
        if multimode != 0 {
          if Paired(recs) {
            TakeChange(recs, n, dtab, ut2.time - ut.time);
          }
          Setdtab(n, ut, ut2);
        } else if Paired(recs) {
          PassBy(recs, n, dtab, n + 2);
        }
        recno := recno + 2;
        assert Mode(recs, n + 1) == Mode(recs, n);
        return 0, [ut, ut2];
      }
      if Paired(recs) {
        PassBy(recs, n, dtab, n + 1);
      }
      recno := recno + 1;
      return 0, [ut];
    }

    /** Pass one: builds the table and the temporary file. */
    method ScanFile(recs: seq<Rec>) returns (err: int, out: seq<Rec>)
      requires dtab == [] && recno == 0 && multimode == 0
      modifies this
      ensures err == 0 <==> Paired(recs)
      ensures err == 0 ==> TableFor(recs, |recs|, dtab) && out == Named(recs, 0, |recs|)
    {
      err, out := 0, [];
      while recno < |recs|
        invariant 0 <= recno <= |recs| && multimode == Mode(recs, recno)
        invariant Paired(recs) ==> TableFor(recs, recno, dtab)
        invariant recno > 0 ==> dtab != []
        invariant out == Named(recs, 0, recno)
        invariant recno > 0 ==> !recs[recno - 1].kind.OldTime?
        invariant forall c :: 0 <= c < recno && recs[c].kind.OldTime? ==> c + 1 < |recs| && recs[c + 1].kind.NewTime?
        decreases |recs| - recno
      {
        var more;
        var n := recno;
        err, more := ScanOne(recs);
        if err != 0 {
          return;
        }
        out := out + more;
      }
    }

    /** Both passes. */
    method Repair(recs: seq<Rec>) returns (err: int, out: seq<Rec>)
      requires dtab == [] && recno == 0 && multimode == 0
      modifies this
      ensures err == 0 <==> Paired(recs)
      ensures err == 0 ==> |out| == |recs|
      ensures err == 0 ==> forall p :: 0 <= p < |recs| ==>
                out[p] == NamedAt(recs, p).(time := recs[p].time + Gain(recs, p, |recs|))
    {
      hide Gain, Paired, Adjustment, LastBoot;
      var file;
      err, file := ScanFile(recs);
      out := [];
      if err != 0 {
        return;
      }
      recno := 0;
      while recno < |file|
        invariant 0 <= recno <= |file| == |out| + |file| - recno
        invariant TableFor(recs, |recs|, dtab) && file == Named(recs, 0, |recs|)
        invariant forall p :: 0 <= p < recno ==>
                    out[p] == NamedAt(recs, p).(time := recs[p].time + Gain(recs, p, |recs|))
      {
        var r := Adjust(recno, file[recno]);
        out := out + [r];
        recno := recno + 1;
      }
    }
  }
}
