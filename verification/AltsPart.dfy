/** The alternates partition: its tables, and the update that remaps newly found bad sectors. */
module AltsPart {
  import opened AltsTable
  import opened AltsMap

  const NBPSCTR := 512
  const PARTTBL_SIZE := 52
  const ENT_SIZE := 12

  /** Sectors needed for `bytes` bytes. */
  function Sectors(bytes: nat): nat {
    (bytes + NBPSCTR - 1) / NBPSCTR
  }

  /** Where the partition lies on the drive. */
  datatype Part = Part(start: nat, size: nat)

  function MapSectors(part: Part): nat {
    Sectors((part.size + 7) / 8)
  }

  function EntSectors(ents: seq<Ent>): nat {
    Sectors(|ents| * ENT_SIZE)
  }

  predicate InPart(part: Part, x: int) {
    part.start <= x < part.start + part.size
  }

  // ----- alternates --------------------------------------------------------------------

  /** Sector `k` of the partition is one of the alternates of entry `e`. */
  predicate InAlt(part: Part, e: Ent, k: int) {
    && Used(e) && e.goodStart != 0
    && e.goodStart - part.start <= k <= e.goodStart - part.start + (e.badEnd - e.badStart)
  }

  function AltOf(part: Part, k: int): Ent -> bool {
    e => InAlt(part, e, k)
  }

  function AltCount(part: Part, ents: seq<Ent>, k: int): nat {
    Count(ents, AltOf(part, k))
  }

  function Bit(b: bool): int {
    if b then 1 else 0
  }

  /** The tables in core: the map of the partition, where the map and the entry table lie, and the entries. */
  datatype Tables = Tables(part: Part, m: seq<int>, mapBase: int, entBase: int, entSecs: int, ents: seq<Ent>)

  function MapEnd(t: Tables): int {
    t.mapBase + MapSectors(t.part)
  }

  predicate EntsOk(ents: seq<Ent>) {
    forall i :: 0 <= i < |ents| ==> 0 <= ents[i].badStart <= ents[i].badEnd
  }

  predicate AllAssigned(ents: seq<Ent>) {
    forall i :: 0 <= i < |ents| ==> ents[i].goodStart != 0
  }

  predicate LayoutOk(t: Tables) {
    1 <= t.mapBase && MapEnd(t) <= t.part.size == |t.m| && Marks(t.m)
  }

  /** A sector is marked exactly when it is known bad or an alternate, and it is never both, nor two alternates. */
  ghost predicate Balanced(t: Tables, known: set<int>) {
    forall k :: 0 <= k < |t.m| ==> Bit(k in known) + AltCount(t.part, t.ents, k) == Bit(t.m[k] == BAD)
  }

  /** Alternates lie in the partition, after the map. */
  ghost predicate AltsInside(t: Tables) {
    forall k :: k < MapEnd(t) || k >= t.part.size ==> AltCount(t.part, t.ents, k) == 0
  }

  ghost predicate AltInv(t: Tables, known: set<int>) {
    && LayoutOk(t) && EntsOk(t.ents)
    && Balanced(t, known) && AltsInside(t)
    && t.m[0] != BAD && (forall k :: t.mapBase <= k < MapEnd(t) ==> t.m[k] != BAD)
    && (forall k :: k in known ==> 0 <= k < |t.m|)
  }

  /** The entry table lies on good sectors after the map. */
  predicate EntTableOk(t: Tables) {
    && t.entSecs == EntSectors(t.ents)
    && (t.ents != [] ==>
          && 0 <= MapEnd(t) <= t.entBase && t.entBase + t.entSecs <= |t.m|
          && forall k :: t.entBase <= k < t.entBase + t.entSecs ==> t.m[k] != BAD)
  }

  /** What holds of the tables between updates. */
  ghost predicate Inv(t: Tables, known: set<int>) {
    AltInv(t, known) && AllAssigned(t.ents) && EntTableOk(t) && Sorted(t.ents)
  }

  /** Tables together with `known`, the sectors of the partition reported bad so far. */
  datatype Snapshot = Snapshot(t: Tables, known: set<int>)

  type Safe = s: Snapshot | Inv(s.t, s.known)
    ghost witness EmptySnapshot()

  /** As above, while entries may still lack alternates and the entry table has no place yet. */
  type AltSafe = s: Snapshot | AltInv(s.t, s.known)
    ghost witness EmptySnapshot()

  lemma {:induction false} LayoutOf(s: AltSafe)
    ensures 1 <= s.t.mapBase && MapEnd(s.t) <= s.t.part.size == |s.t.m|
  {
    assert AltInv(s.t, s.known);
  }

  /** A partition of two sectors with nothing remapped. */
  ghost function EmptySnapshot(): (s: Snapshot)
    ensures Inv(s.t, s.known)
  {
    Snapshot(Tables(Part(0, 2), [GOOD, GOOD], 1, 0, 0, []), {})
  }

  /** What the invariant means: every entry's alternates lie in the partition, off the partition table, the map, the
      entry table and every sector known bad, and no two entries share one. */
  lemma {:induction false} AlternatesSafe(t: Tables, known: set<int>, i: nat, k: int)
    requires Inv(t, known) && i < |t.ents| && InAlt(t.part, t.ents[i], k)
    ensures MapEnd(t) <= k < t.part.size && k !in known
    ensures !(t.entBase <= k < t.entBase + t.entSecs)
    ensures forall j :: 0 <= j < |t.ents| && j != i ==> !InAlt(t.part, t.ents[j], k)
  {
    CountNone(t.ents, AltOf(t.part, k));
    assert AltCount(t.part, t.ents, k) > 0;
    forall j | 0 <= j < |t.ents| && j != i ensures !InAlt(t.part, t.ents[j], k) {
      if InAlt(t.part, t.ents[j], k) {
        CountTwo(t.ents, if i < j then i else j, if i < j then j else i, AltOf(t.part, k));
      }
    }
  }

  /** The sector of the drive that is used in place of sector `x` of entry `e`. */
  function StandIn(e: Ent, x: int): int {
    e.goodStart + (x - e.badStart)
  }

  /** The same, sector by sector: each stands in for one remapped sector only. */
  lemma {:induction false} StandInsSafe(t: Tables, known: set<int>, i: nat, j: nat, x: int, y: int)
    requires Inv(t, known) && i < |t.ents| && j < |t.ents| && Covers(t.ents[i], x) && Covers(t.ents[j], y)
    ensures var k := StandIn(t.ents[i], x) - t.part.start;
            MapEnd(t) <= k < t.part.size && k !in known && !(t.entBase <= k < t.entBase + t.entSecs)
    ensures StandIn(t.ents[i], x) == StandIn(t.ents[j], y) <==> i == j && x == y
  {
    AlternatesSafe(t, known, i, StandIn(t.ents[i], x) - t.part.start);
    AlternatesSafe(t, known, j, StandIn(t.ents[j], y) - t.part.start);
  }

  // ----- single steps on the tables ------------------------------------------------------

  /** The sectors of the partition that must not fail: the partition table, the map, the entry table, alternates. */
  ghost predicate Vital(t: Tables, k: int) {
    || 0 <= k < Sectors(PARTTBL_SIZE)
    || t.mapBase <= k < MapEnd(t)
    || t.entBase <= k < t.entBase + t.entSecs
    || AltCount(t.part, t.ents, k) > 0
  }

  ghost predicate Offends(t: Tables, x: int) {
    InPart(t.part, x) && Vital(t, x - t.part.start)
  }

  /** The error for a report of sector `x`: 53 in the partition table, 54 in the map, 55 in the entry table, 66 for an
      alternate, and 0 for any other. */
  ghost function Refusal(t: Tables, x: int): int {
    var k := x - t.part.start;
    if !InPart(t.part, x) then 0
    else if k < Sectors(PARTTBL_SIZE) then 53
    else if t.mapBase <= k < MapEnd(t) then 54
    else if t.entBase <= k < t.entBase + t.entSecs then 55
    else if AltCount(t.part, t.ents, k) > 0 then 66
    else 0
  }

  lemma {:induction false} RefusalIs(t: Tables, x: int)
    ensures Refusal(t, x) != 0 <==> Offends(t, x)
  {}

  /** Sector `x` stands in for some remapped one. */
  ghost predicate StandsIn(t: Tables, x: int) {
    exists i: nat, y :: i < |t.ents| && Covers(t.ents[i], y) && StandIn(t.ents[i], y) == x
  }

  lemma {:induction false} StandsInIs(t: Tables, known: set<int>, x: int)
    requires Inv(t, known)
    ensures StandsIn(t, x) <==> AltCount(t.part, t.ents, x - t.part.start) > 0
  {
    var k := x - t.part.start;
    CountNone(t.ents, AltOf(t.part, k));
    if i: nat, y :| i < |t.ents| && Covers(t.ents[i], y) && StandIn(t.ents[i], y) == x {
      assert InAlt(t.part, t.ents[i], k);
    }
    if i: nat :| i < |t.ents| && InAlt(t.part, t.ents[i], k) {
      assert Covers(t.ents[i], x - t.ents[i].goodStart + t.ents[i].badStart);
    }
  }

  /** The errors, by the sectors of the drive: the first of the partition, the map, the entry table, the stand-ins. */
  lemma {:induction false} RefusalExactly(t: Tables, known: set<int>, x: int)
    requires Inv(t, known)
    ensures var r, at := Refusal(t, x), t.part.start;
            && (r == 53 <==> x == at)
            && (r == 54 <==> at + t.mapBase <= x < at + t.mapBase + MapSectors(t.part))
            && (r == 55 <==> at + t.entBase <= x < at + t.entBase + t.entSecs)
            && (r == 66 <==> StandsIn(t, x))
            && (r == 0 || r == 53 || r == 54 || r == 55 || r == 66)
  {
    StandsInIs(t, known, x);
    SectorsExactly(PARTTBL_SIZE);
    if StandsIn(t, x) {
      var i: nat, y :| i < |t.ents| && Covers(t.ents[i], y) && StandIn(t.ents[i], y) == x;
      StandInsSafe(t, known, i, i, y, y);
    }
  }

  /** The fewest sectors that hold a number of bytes; one holds the partition table. */
  lemma {:induction false} SectorsExactly(bytes: nat)
    ensures bytes <= Sectors(bytes) * NBPSCTR < bytes + NBPSCTR && Sectors(PARTTBL_SIZE) == 1
  {}

  /** Marking a good sector that is not vital. */
  lemma {:induction false} MarkBad(t: Tables, known: set<int>, k: int)
    requires Inv(t, known) && 0 <= k < |t.m| && t.m[k] != BAD && !Vital(t, k)
    ensures Inv(t.(m := t.m[k := BAD]), known + {k})
  {
    var u := t.(m := t.m[k := BAD]);
    forall j | 0 <= j < |u.m|
      ensures Bit(j in known + {k}) + AltCount(u.part, u.ents, j) == Bit(u.m[j] == BAD)
    {
      assert Bit(j in known) + AltCount(t.part, t.ents, j) == Bit(t.m[j] == BAD);
    }
    assert Balanced(u, known + {k});
    assert AltsInside(u) by {
      assert AltsInside(t);
    }
  }

  /** A marked sector that is no alternate is already known to be bad. */
  lemma {:induction false} AlreadyBad(t: Tables, known: set<int>, k: int)
    requires Inv(t, known) && 0 <= k < |t.m| && t.m[k] == BAD && AltCount(t.part, t.ents, k) == 0
    ensures k in known
  {
    assert Bit(k in known) + AltCount(t.part, t.ents, k) == Bit(t.m[k] == BAD);
  }

  /** Of the vital sectors only alternates are marked. */
  lemma {:induction false} VitalMarks(t: Tables, known: set<int>, k: int)
    requires Inv(t, known) && 0 <= k < |t.m|
    ensures t.m[k] != BAD ==> AltCount(t.part, t.ents, k) == 0
    ensures t.m[k] == BAD && Vital(t, k) ==> AltCount(t.part, t.ents, k) > 0
  {
    assert Bit(k in known) + AltCount(t.part, t.ents, k) == Bit(t.m[k] == BAD);
  }

  function MarkRun(m: seq<int>, lo: int, n: int): (r: seq<int>)
    ensures |r| == |m|
    ensures forall k :: 0 <= k < |m| ==> r[k] == if lo <= k < lo + n then BAD else m[k]
  {
    seq(|m|, k requires 0 <= k < |m| => if lo <= k < lo + n then BAD else m[k])
  }

  /** Giving entry `i` the free run at `lo`. */
  function Assigned(t: Tables, i: nat, lo: int): Tables
    requires i < |t.ents|
  {
    var e := t.ents[i];
    t.(m := MarkRun(t.m, lo, e.badEnd - e.badStart + 1), ents := t.ents[i := e.(goodStart := lo + t.part.start)])
  }

  lemma {:induction false} AssignCount(t: Tables, i: nat, lo: int, k: int)
    requires i < |t.ents| && Used(t.ents[i]) && t.ents[i].goodStart == 0 && lo + t.part.start != 0
    ensures AltCount(t.part, Assigned(t, i, lo).ents, k)
         == AltCount(t.part, t.ents, k) + Bit(lo <= k <= lo + (t.ents[i].badEnd - t.ents[i].badStart))
  {
    var e := t.ents[i].(goodStart := lo + t.part.start);
    CountUpdate(t.ents, i, e, AltOf(t.part, k));
  }

  /** Assigning a free run keeps the alternates safe. */
  lemma {:induction false} AssignKeeps(t: Tables, known: set<int>, i: nat, lo: int)
    requires AltInv(t, known) && i < |t.ents| && t.ents[i].goodStart == 0
    requires MapEnd(t) <= lo && Free(t.m, lo, t.ents[i].badEnd - t.ents[i].badStart + 1)
    ensures AltInv(Assigned(t, i, lo), known)
  {
    var u := Assigned(t, i, lo);
    forall k | 0 <= k < |u.m| ensures Bit(k in known) + AltCount(u.part, u.ents, k) == Bit(u.m[k] == BAD) {
      AssignCount(t, i, lo, k);
      assert Bit(k in known) + AltCount(t.part, t.ents, k) == Bit(t.m[k] == BAD);
    }
    assert Balanced(u, known);
    forall k | k < MapEnd(u) || k >= u.part.size ensures AltCount(u.part, u.ents, k) == 0 {
      AssignCount(t, i, lo, k);
      assert AltCount(t.part, t.ents, k) == 0;
    }
    assert AltsInside(u);
  }

  /** An entry table placed on a free run after the map completes the tables. */
  lemma {:induction false} PlaceKeeps(t: Tables, known: set<int>, base: int)
    requires AltInv(t, known) && AllAssigned(t.ents) && Sorted(t.ents) && t.entSecs == EntSectors(t.ents)
    requires MapEnd(t) <= base && Free(t.m, base, t.entSecs)
    ensures Inv(t.(entBase := base), known)
  {
    hide Sorted, AllAssigned;
    var u := t.(entBase := base);
    assert Balanced(u, known) && AltsInside(u) by {
      assert Balanced(t, known) && AltsInside(t);
    }
  }

  /** Replacing the table by its merge with unassigned entries keeps the alternates. */
  lemma {:induction false} MergeKeepsAlts(t: Tables, known: set<int>, added: seq<Ent>)
    requires AltInv(t, known)
    requires forall i :: 0 <= i < |added| && Used(added[i]) ==>
               added[i].goodStart == 0 && 0 <= added[i].badStart <= added[i].badEnd
    ensures AltInv(t.(ents := Merge(t.ents, added)), known)
  {
    var u := t.(ents := Merge(t.ents, added));
    forall k ensures AltCount(u.part, u.ents, k) == AltCount(t.part, t.ents, k) {
      MergeCount(t.ents, added, AltOf(t.part, k));
      CountNone(added, AltOf(t.part, k));
    }
    assert Balanced(u, known) by {
      forall k | 0 <= k < |u.m| ensures Bit(k in known) + AltCount(u.part, u.ents, k) == Bit(u.m[k] == BAD) {
        assert Bit(k in known) + AltCount(t.part, t.ents, k) == Bit(t.m[k] == BAD);
      }
    }
    assert AltsInside(u) by {
      assert AltsInside(t);
    }
    MergeMembers(t.ents, added);
    forall i | 0 <= i < |u.ents| ensures 0 <= u.ents[i].badStart <= u.ents[i].badEnd {
      assert u.ents[i] in Merge(t.ents, added);
    }
  }
}
