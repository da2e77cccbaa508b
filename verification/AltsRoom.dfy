/** Room in the alternates partition: the assignment of alternates, and exactly when it fails. */
module AltsRoom {
  import opened Options
  import opened AltsTable
  import opened AltsMap
  import opened AltsPart

  function Cluster(e: Ent): int {
    e.badEnd - e.badStart + 1
  }

  /** The highest run for entry `i`, or 0. */
  function RunFor(t: Tables, i: nat): int
    requires i < |t.ents| && MapEnd(t) > 0
  {
    HighestRun(t.m, MapEnd(t), t.part.size, Cluster(t.ents[i]))
  }

  /** The tables with alternates for the entries from `i` on that lack them, each the highest free run when its turn
      comes; none if there is no such run. */
  function AssignFrom(t: Tables, i: nat): (r: Option<Tables>)
    requires MapEnd(t) > 0
    decreases |t.ents| - i
  {
    if i >= |t.ents| then Some(t)
    else if !Used(t.ents[i]) || t.ents[i].goodStart != 0 then AssignFrom(t, i + 1)
    else if RunFor(t, i) == 0 then None
    else AssignFrom(Assigned(t, i, RunFor(t, i)), i + 1)
  }

  /** The tables with `added` merged in, alternates assigned, and the entry table on the lowest free run; none if
      no run is found. */
  function Generated(t: Tables, added: seq<Ent>): (r: Option<Tables>)
    requires MapEnd(t) > 0
  {
    if added == [] then Some(t)
    else
      match AssignFrom(WithEnts(t, Merge(t.ents, added)), 0)
      case None => None
      case Some(a) =>
        var base := if MapEnd(a) > 0 then LowestRun(a.m, MapEnd(a), a.part.size, a.entSecs) else 0;
        if base == 0 then None else Some(a.(entBase := base))
  }

  function WithEnts(t: Tables, ents: seq<Ent>): Tables {
    t.(ents := ents, entSecs := EntSectors(ents))
  }

  /** Entries that have alternates stay as they are. */
  lemma {:induction false} AssignedStay(t: Tables, i: nat, e: Ent)
    requires MapEnd(t) > 0 && e in t.ents && e.goodStart != 0 && AssignFrom(t, i).Some?
    ensures e in AssignFrom(t, i).value.ents
    decreases |t.ents| - i
  {
    hide HighestRun;
    if i < |t.ents| {
      if !Used(t.ents[i]) || t.ents[i].goodStart != 0 {
        AssignedStay(t, i + 1, e);
      } else {
        var u := Assigned(t, i, RunFor(t, i));
        var j :| 0 <= j < |t.ents| && t.ents[j] == e;
        assert u.ents[j] == e;
        AssignedStay(u, i + 1, e);
      }
    }
  }

  // ----- what it yields -------------------------------------------------------------------

  /** An entry that waits for an alternate. */
  predicate Lacks(e: Ent) {
    Used(e) && e.goodStart == 0
  }

  /** The highest run of `cnt` free sectors from `lo` up to, and without, `hi`. */
  predicate Highest(m: seq<int>, lo: int, hi: int, cnt: int, a: int) {
    lo <= a && a + cnt <= hi && Free(m, a, cnt) && NoneFree(m, a + 1, hi, cnt)
  }

  /** With alternates at `los`, sector `k` is among those of the first `n` entries. */
  predicate Taken(ents: seq<Ent>, los: seq<int>, n: nat, k: int)
    requires n <= |ents| == |los|
  {
    exists j :: 0 <= j < n && Lacks(ents[j]) && los[j] <= k < los[j] + Cluster(ents[j])
  }

  /** The map when the first `n` entries have their alternates. */
  function MapAt(t: Tables, los: seq<int>, n: nat): (m: seq<int>)
    requires n <= |t.ents| == |los|
    ensures |m| == |t.m|
    ensures forall k :: 0 <= k < |m| ==> m[k] == if Taken(t.ents, los, n, k) then BAD else t.m[k]
  {
    seq(|t.m|, k requires 0 <= k < |t.m| => if Taken(t.ents, los, n, k) then BAD else t.m[k])
  }

  /** Each of the first `n` entries that waits has its alternate on the highest run that is free in its turn. */
  ghost predicate Placed(t: Tables, los: seq<int>, n: nat) {
    && n <= |t.ents| == |los|
    && forall j :: 0 <= j < n && Lacks(t.ents[j]) ==> PlacedAt(t, los, j)
  }

  predicate PlacedAt(t: Tables, los: seq<int>, j: nat)
    requires j < |t.ents| == |los|
  {
    Highest(MapAt(t, los, j), MapEnd(t), t.part.size, Cluster(t.ents[j]), los[j])
  }

  /** Entry `n` waits, and no run is free in its turn. */
  ghost predicate Blocked(t: Tables, los: seq<int>, n: nat) {
    && Placed(t, los, n) && n < |t.ents| && Lacks(t.ents[n])
    && NoneFree(MapAt(t, los, n), MapEnd(t), t.part.size, Cluster(t.ents[n]))
  }

  /** Some entry waits in vain. */
  ghost predicate Unassignable(t: Tables) {
    exists los, n: nat :: Blocked(t, los, n)
  }

  /** The tables when the first `n` entries have their alternates. */
  function TablesAt(t: Tables, los: seq<int>, n: nat): Tables
    requires n <= |t.ents| == |los|
  {
    t.(m := MapAt(t, los, n), ents := EntsAt(t, los, n))
  }

  function EntsAt(t: Tables, los: seq<int>, n: nat): (r: seq<Ent>)
    requires n <= |t.ents| == |los|
    ensures |r| == |t.ents|
    ensures forall j :: 0 <= j < |r| ==>
              r[j] == if j < n && Lacks(t.ents[j]) then t.ents[j].(goodStart := los[j] + t.part.start) else t.ents[j]
  {
    seq(|t.ents|, j requires 0 <= j < |t.ents| =>
      if j < n && Lacks(t.ents[j]) then t.ents[j].(goodStart := los[j] + t.part.start) else t.ents[j])
  }

  lemma {:induction false} TablesAtStart(t: Tables, los: seq<int>)
    requires |los| == |t.ents|
    ensures TablesAt(t, los, 0) == t
  {
    assert MapAt(t, los, 0) == t.m && EntsAt(t, los, 0) == t.ents;
  }

  /** The turn of an entry that does not wait. */
  lemma {:induction false} TablesAtSame(t: Tables, los: seq<int>, n: nat)
    requires n < |t.ents| == |los| && !Lacks(t.ents[n])
    ensures TablesAt(t, los, n + 1) == TablesAt(t, los, n)
  {
    forall k ensures Taken(t.ents, los, n + 1, k) <==> Taken(t.ents, los, n, k) {}
    assert MapAt(t, los, n + 1) == MapAt(t, los, n) && EntsAt(t, los, n + 1) == EntsAt(t, los, n);
  }

  /** The turn of an entry that waits. */
  lemma {:induction false} TablesAtNext(t: Tables, los: seq<int>, n: nat)
    requires n < |t.ents| == |los| && Lacks(t.ents[n])
    ensures TablesAt(t, los, n + 1) == Assigned(TablesAt(t, los, n), n, los[n])
  {
    var e := t.ents[n];
    forall k ensures Taken(t.ents, los, n + 1, k) <==>
                     Taken(t.ents, los, n, k) || los[n] <= k < los[n] + Cluster(e)
    {}
    assert MapAt(t, los, n + 1) == MarkRun(MapAt(t, los, n), los[n], Cluster(e));
    assert EntsAt(t, los, n + 1) == EntsAt(t, los, n)[n := e.(goodStart := los[n] + t.part.start)];
  }

  /** There is at most one highest run, and the search finds it. */
  lemma {:induction false} HighestIs(m: seq<int>, lo: int, hi: int, cnt: int, a: int)
    requires lo > 0 && cnt > 0
    ensures Highest(m, lo, hi, cnt, a) <==> a != 0 && a == HighestRun(m, lo, hi, cnt)
    ensures NoneFree(m, lo, hi, cnt) <==> HighestRun(m, lo, hi, cnt) == 0
  {
    var b := HighestRun(m, lo, hi, cnt);
    assert b != 0 ==> Free(m, b, cnt);
    assert Free(m, a, cnt) || !Highest(m, lo, hi, cnt, a);
  }

  /** Where the entries are placed does not depend on the runs of later ones. */
  lemma {:induction false} MapAtAgrees(t: Tables, los: seq<int>, los': seq<int>, n: nat)
    requires n <= |t.ents| == |los| == |los'| && los[..n] == los'[..n]
    ensures MapAt(t, los, n) == MapAt(t, los', n) && EntsAt(t, los, n) == EntsAt(t, los', n)
  {
    forall j | 0 <= j < n ensures los[j] == los'[j] {
      assert los[..n][j] == los'[..n][j];
    }
    forall k ensures Taken(t.ents, los, n, k) <==> Taken(t.ents, los', n, k) {}
  }

  lemma {:induction false} PlacedAgrees(t: Tables, los: seq<int>, los': seq<int>, n: nat)
    requires n <= |t.ents| == |los| == |los'| && los[..n] == los'[..n] && Placed(t, los, n)
    ensures Placed(t, los', n)
  {
    forall j | 0 <= j < n && Lacks(t.ents[j]) ensures PlacedAt(t, los', j) {
      assert los[..j] == los[..n][..j] == los'[..n][..j] == los'[..j];
      MapAtAgrees(t, los, los', j);
      assert los[j] == los[..n][j] == los'[..n][j];
    }
  }

  /** Any placement of the first entries is the one the assignment makes. */
  lemma {:induction false} PlacedFollows(t: Tables, los: seq<int>, n: nat)
    requires MapEnd(t) > 0 && EntsOk(t.ents) && Placed(t, los, n)
    ensures AssignFrom(t, 0) == AssignFrom(TablesAt(t, los, n), n)
  {
    hide MapAt, EntsAt, Highest, HighestRun;
    if n == 0 {
      TablesAtStart(t, los);
    } else {
      var m := n - 1;
      PlacedFollows(t, los, m);
      if Lacks(t.ents[m]) {
        TablesAtNext(t, los, m);
        HighestIs(MapAt(t, los, m), MapEnd(t), t.part.size, Cluster(t.ents[m]), los[m]);
      } else {
        TablesAtSame(t, los, m);
      }
    }
  }

  /** From any place on the assignment goes on to a whole placement, or to an entry that waits in vain. */
  lemma {:induction false} PlacedOn(t: Tables, los: seq<int>, n: nat) returns (r: seq<int>, m: nat)
    requires MapEnd(t) > 0 && EntsOk(t.ents) && Placed(t, los, n)
    ensures Placed(t, r, m) && (m == |t.ents| || Blocked(t, r, m))
    decreases |t.ents| - n
  {
    hide MapAt, Highest, HighestRun, NoneFree;
    if n == |t.ents| {
      r, m := los, n;
    } else if !Lacks(t.ents[n]) {
      r, m := PlacedOn(t, los, n + 1);
    } else {
      var cnt := Cluster(t.ents[n]);
      var a := HighestRun(MapAt(t, los, n), MapEnd(t), t.part.size, cnt);
      HighestIs(MapAt(t, los, n), MapEnd(t), t.part.size, cnt, a);
      if a == 0 {
        r, m := los, n;
      } else {
        var next := los[n := a];
        PlacedAgrees(t, los, next, n);
        MapAtAgrees(t, los, next, n);
        r, m := PlacedOn(t, next, n + 1);
      }
    }
  }

  /** The assignment fails exactly when some entry waits in vain, and otherwise yields the tables of the placement. */
  lemma {:induction false} AssignedExactly(t: Tables)
    requires MapEnd(t) > 0 && EntsOk(t.ents)
    ensures AssignFrom(t, 0).None? <==> Unassignable(t)
    ensures forall los :: Placed(t, los, |t.ents|) ==> AssignFrom(t, 0) == Some(TablesAt(t, los, |t.ents|))
  {
    hide MapAt, EntsAt, PlacedAt, NoneFree;
    var zeros := seq(|t.ents|, _ => 0);
    assert Placed(t, zeros, 0) by {
      PlacedNone(t, zeros);
    }
    var r, m := PlacedOn(t, zeros, 0);
    forall los, n: nat | Blocked(t, los, n) ensures AssignFrom(t, 0).None? {
      BlockedFails(t, los, n);
    }
    forall los | Placed(t, los, |t.ents|) ensures AssignFrom(t, 0) == Some(TablesAt(t, los, |t.ents|)) {
      PlacedWhole(t, los);
    }
    if m < |t.ents| {
      assert Blocked(t, r, m);
    }
  }

  lemma {:induction false} PlacedNone(t: Tables, los: seq<int>)
    requires |los| == |t.ents|
    ensures Placed(t, los, 0)
  {}

  lemma {:induction false} BlockedFails(t: Tables, los: seq<int>, n: nat)
    requires MapEnd(t) > 0 && EntsOk(t.ents) && Blocked(t, los, n)
    ensures AssignFrom(t, 0).None?
  {
    PlacedFollows(t, los, n);
    HighestIs(MapAt(t, los, n), MapEnd(t), t.part.size, Cluster(t.ents[n]), 0);
  }

  lemma {:induction false} PlacedWhole(t: Tables, los: seq<int>)
    requires MapEnd(t) > 0 && EntsOk(t.ents) && Placed(t, los, |t.ents|)
    ensures AssignFrom(t, 0) == Some(TablesAt(t, los, |t.ents|))
  {
    PlacedFollows(t, los, |t.ents|);
  }

  // ----- when it fails ---------------------------------------------------------------------

  /** All entries are placed, but no run is left for the entry table. */
  ghost predicate Crowded(t: Tables, los: seq<int>) {
    Placed(t, los, |t.ents|) && NoneFree(MapAt(t, los, |t.ents|), MapEnd(t), t.part.size, EntSectors(t.ents))
  }

  /** There is no room for an entry that waits, or none for the entry table. */
  ghost predicate NoRoom(t: Tables) {
    Unassignable(t) || exists los :: Crowded(t, los)
  }

  /** Merging `added` fails: there is no room, or the merged table is empty, for which no run is ever found. */
  ghost predicate Fails(t: Tables, added: seq<Ent>) {
    var u := WithEnts(t, Merge(t.ents, added));
    added != [] && (u.ents == [] || NoRoom(u))
  }

  lemma {:induction false} EntSectorsNone(ents: seq<Ent>)
    ensures EntSectors(ents) == 0 <==> ents == []
  {}

  lemma {:induction false} LowestIsNone(m: seq<int>, lo: int, hi: int, cnt: int)
    requires lo > 0
    ensures LowestRun(m, lo, hi, cnt) == 0 <==> cnt <= 0 || NoneFree(m, lo, hi, cnt)
  {
    var a := LowestRun(m, lo, hi, cnt);
    assert a != 0 ==> Free(m, a, cnt);
  }

  /** There is no new table exactly when merging fails. */
  lemma {:induction false} FailsExactly(t: Tables, added: seq<Ent>)
    requires MapEnd(t) > 0 && EntsOk(Merge(t.ents, added))
    ensures Generated(t, added).None? <==> Fails(t, added)
  {
    hide AssignFrom, Merge, PlacedAt, MapAt, EntSectors, NoneFree, LowestRun, Unassignable, EntsOk;
    if added != [] {
      var u := WithEnts(t, Merge(t.ents, added));
      AssignedExactly(u);
      EntSectorsNone(u.ents);
      forall los | Placed(u, los, |u.ents|) ensures u.ents == [] || Crowded(u, los) <==> Generated(t, added).None? {
        LowestIsNone(MapAt(u, los, |u.ents|), MapEnd(u), u.part.size, u.entSecs);
      }
      if !Unassignable(u) {
        var los := Placement(u);
      }
    }
  }

  /** The lowest run of `cnt` free sectors from `lo` up to, and without, `hi`. */
  predicate Lowest(m: seq<int>, lo: int, hi: int, cnt: int, a: int) {
    lo <= a && a + cnt <= hi && Free(m, a, cnt) && NoneFree(m, lo, a + cnt - 1, cnt)
  }

  /** The new tables: every waiting entry on the highest run free in its turn, then the entry table on the lowest run
      left after the map. */
  lemma {:induction false} GeneratedExactly(t: Tables, added: seq<Ent>, r: Tables)
    requires MapEnd(t) > 0 && EntsOk(Merge(t.ents, added)) && added != [] && Generated(t, added) == Some(r)
    ensures var u := WithEnts(t, Merge(t.ents, added));
            && (exists los :: Placed(u, los, |u.ents|) && r == TablesAt(u, los, |u.ents|).(entBase := r.entBase))
            && Lowest(r.m, MapEnd(t), t.part.size, EntSectors(r.ents), r.entBase)
  {
    hide AssignFrom, Merge, PlacedAt, MapAt, EntSectors, NoneFree, EntsOk, Unassignable;
    var u := WithEnts(t, Merge(t.ents, added));
    AssignedExactly(u);
    var los := Placement(u);
    assert r == TablesAt(u, los, |u.ents|).(entBase := r.entBase);
    SameSectors(u.ents, r.ents);
  }

  lemma {:induction false} SameSectors(a: seq<Ent>, b: seq<Ent>)
    requires |a| == |b|
    ensures EntSectors(a) == EntSectors(b)
  {}

  lemma {:induction false} Placement(t: Tables) returns (los: seq<int>)
    requires MapEnd(t) > 0 && EntsOk(t.ents) && !Unassignable(t)
    ensures Placed(t, los, |t.ents|)
  {
    hide MapAt, PlacedAt, NoneFree;
    var zeros := seq(|t.ents|, _ => 0);
    PlacedNone(t, zeros);
    var m;
    los, m := PlacedOn(t, zeros, 0);
  }
}
