/** The update of the alternates partition, as procedures on its tables in core. */
module AltsUpdate {
  import opened Options
  import opened AltsTable
  import opened AltsMap
  import opened AltsPart
  import opened AltsRoom

  /** The sector of the partition a report hits, if any. */
  function Hit(part: Part, x: int): set<int> {
    if InPart(part, x) then {x - part.start} else {}
  }

  /** The sectors of the partition hit by the first `n` reports. */
  function Hits(part: Part, g: seq<Ent>, n: nat): set<int>
    requires n <= |g|
  {
    if n == 0 then {} else Hits(part, g, n - 1) + Hit(part, g[n - 1].badStart)
  }

  /** A list of newly reported sectors: one entry each, no alternate yet. */
  predicate Reports(g: seq<Ent>) {
    forall i :: 0 <= i < |g| ==> 0 <= g[i].badStart == g[i].badEnd && g[i].goodStart == 0
  }

  /** What checking makes of one report: dropped if it is in the partition or already remapped. */
  predicate Checked(part: Part, ents: seq<Ent>, was: Ent, now: Ent) {
    && (now == was || now == was.(badStart := EMPTY))
    && (InPart(part, was.badStart) ==> !Used(now))
    && (!InPart(part, was.badStart) && !Used(now) ==> CoverCount(ents, was.badStart) > 0)
    && (RangesOk(ents) && CoverCount(ents, was.badStart) > 0 ==> !Used(now))
  }

  lemma {:induction false} OffendsIgnoresMarks(t: Tables, m: seq<int>, x: int)
    ensures (Offends(t.(m := m), x) <==> Offends(t, x)) && Refusal(t.(m := m), x) == Refusal(t, x)
  {}

  ghost predicate SomeOffends(t: Tables, g: seq<Ent>) {
    exists c :: 0 <= c < |g| && Offends(t, g[c].badStart)
  }

  /** The first report that must not fail, with its error. */
  ghost predicate RefusedFor(t: Tables, g: seq<Ent>, c: nat, err: int) {
    && c < |g| && err == Refusal(t, g[c].badStart) != 0
    && forall b :: 0 <= b < c ==> Refusal(t, g[b].badStart) == 0
  }

  lemma {:induction false} RefusedFirst(t: Tables, g: seq<Ent>, now: seq<Ent>, c: nat, err: int)
    requires Processed(t, g, now, c) && c < |g| && err == Refusal(t, g[c].badStart) != 0
    ensures RefusedFor(t, g, c, err) && SomeOffends(t, g)
  {
    hide Refusal, Offends;
    forall b | 0 <= b <= c ensures Refusal(t, g[b].badStart) != 0 <==> Offends(t, g[b].badStart) {
      RefusalIs(t, g[b].badStart);
    }
  }

  /** The first `cnt` reports were acceptable and checked; the others are as they were. */
  ghost predicate Processed(t: Tables, g: seq<Ent>, now: seq<Ent>, cnt: nat) {
    && |now| == |g| && cnt <= |g|
    && (forall c :: 0 <= c < cnt ==> !Offends(t, g[c].badStart) && Checked(t.part, t.ents, g[c], now[c]))
    && (forall c :: cnt <= c < |g| ==> now[c] == g[c])
  }

  lemma {:induction false} ProcessedNone(t: Tables, g: seq<Ent>)
    ensures Processed(t, g, g, 0) && Hits(t.part, g, 0) == {}
  {}

  lemma {:induction false} ProcessedStep(t: Tables, g: seq<Ent>, before: seq<Ent>, now: seq<Ent>, cnt: nat, drop: bool)
    requires Processed(t, g, before, cnt) && cnt < |g|
    requires now == if drop then before[cnt := before[cnt].(badStart := EMPTY)] else before
    requires !Offends(t, g[cnt].badStart)
    requires Checked(t.part, t.ents, g[cnt], if drop then g[cnt].(badStart := EMPTY) else g[cnt])
    ensures Processed(t, g, now, cnt + 1)
  {}

  /** How far checking has come. */
  datatype Check = Check(t: Tables, g: seq<Ent>, now: seq<Ent>, cnt: nat)

  type Checking = c: Check | Processed(c.t, c.g, c.now, c.cnt) ghost witness Check(EmptySnapshot().t, [], [], 0)

  /** The tables with sectors of the partition marked bad. */
  function MarkHits(t: Tables, hits: set<int>): Tables {
    t.(m := seq(|t.m|, k requires 0 <= k < |t.m| => if k in hits then BAD else t.m[k]))
  }

  /** Marks follow from what is known bad. */
  lemma {:induction false} MarkedIs(s: Safe, q: Safe, hits: set<int>)
    requires q.t == s.t.(m := q.t.m) && q.known == s.known + hits && |q.t.m| == |s.t.m|
    ensures q.t == MarkHits(s.t, hits)
  {
    assert Inv(s.t, s.known) && Inv(q.t, q.known);
    forall k | 0 <= k < |s.t.m| ensures q.t.m[k] == if k in hits then BAD else s.t.m[k] {
      assert Bit(k in s.known) + AltCount(s.t.part, s.t.ents, k) == Bit(s.t.m[k] == BAD);
      assert Bit(k in q.known) + AltCount(s.t.part, s.t.ents, k) == Bit(q.t.m[k] == BAD);
    }
  }

  function InitMap(part: Part, hits: set<int>): (m: seq<int>)
    ensures |m| == part.size && forall k :: 0 <= k < |m| ==> m[k] == if k in hits then BAD else GOOD
  {
    seq(part.size, k => if k in hits then BAD else GOOD)
  }

  /** The tables of a new installation: the map lies on the lowest free run after the partition table. */
  function InitTables(part: Part, hits: set<int>): Option<Tables> {
    var m := InitMap(part, hits);
    var base := LowestRun(m, Sectors(PARTTBL_SIZE), part.size, MapSectors(part));
    if base == 0 then None else Some(Tables(part, m, base, 0, 0, []))
  }

  /** A new installation has its map on the lowest run of good sectors after the partition table, if there is one. */
  lemma {:induction false} InitTablesExactly(part: Part, hits: set<int>)
    requires part.size > 0
    ensures var r := InitTables(part, hits);
            && (r.None? <==> NoneFree(InitMap(part, hits), 1, part.size, MapSectors(part)))
            && (r.Some? ==>
                  && r.value == Tables(part, InitMap(part, hits), r.value.mapBase, 0, 0, [])
                  && Lowest(r.value.m, 1, part.size, MapSectors(part), r.value.mapBase))
  {
    hide NoneFree, Free, LowestRun;
    SectorsExactly(0);
    MapFits(part);
    LowestIsNone(InitMap(part, hits), 1, part.size, MapSectors(part));
  }

  lemma {:induction false} HitsGrow(part: Part, g: seq<Ent>, n: nat, m: nat)
    requires n <= m <= |g|
    ensures Hits(part, g, n) <= Hits(part, g, m)
  {
    if n < m {
      HitsGrow(part, g, n, m - 1);
    }
  }

  /** The first `i` entries have alternates; those that had them before keep them, and no range changed. */
  predicate Filled(was: seq<Ent>, now: seq<Ent>, i: nat) {
    && |was| == |now| && i <= |now|
    && (forall j :: 0 <= j < |now| ==>
          now[j] == if was[j].goodStart != 0 then was[j] else was[j].(goodStart := now[j].goodStart))
    && (forall j :: 0 <= j < i ==> now[j].goodStart != 0)
  }

  /** Assigning alternates does not change which sectors are covered, nor the order of the entries. */
  lemma {:induction false} FilledKeepsRanges(was: seq<Ent>, now: seq<Ent>)
    requires Filled(was, now, |now|)
    ensures AllAssigned(now) && SameCover(now, was) && (Sorted(was) ==> Sorted(now))
  {
    forall x ensures CoverCount(now, x) == CoverCount(was, x) {
      CountPointwise(now, was, Covering(x));
    }
  }

  /** Entries that wait for alternates: in order, none assigned. */
  predicate Waiting(g: seq<Ent>) {
    && UsedSorted(g)
    && forall i :: 0 <= i < |g| && Used(g[i]) ==> g[i].goodStart == 0 && 0 <= g[i].badStart <= g[i].badEnd
  }

  /** Reports after checking: single sectors without alternates, or emptied. */
  predicate AllNew(g: seq<Ent>) {
    forall i :: 0 <= i < |g| ==> SingleOrEmpty(g[i]) && g[i].goodStart == 0 && g[i].badStart >= EMPTY
  }

  /** Rearranging new entries keeps what they cover. */
  lemma {:induction false} SortKeeps(was: seq<Ent>, now: seq<Ent>)
    requires multiset(was) == multiset(now) && AllNew(was)
    ensures AllNew(now) && SameCover(now, was)
  {
    forall x ensures CoverCount(now, x) == CoverCount(was, x) {
      CountPermutation(now, was, Covering(x));
    }
    forall i | 0 <= i < |now| ensures SingleOrEmpty(now[i]) && now[i].goodStart == 0 && now[i].badStart >= EMPTY {
      assert now[i] in multiset(was);
      assert now[i] in was;
    }
  }

  lemma {:induction false} GrownWaits(was: seq<Ent>, now: seq<Ent>)
    requires AllNew(was) && Sorted(was) && Grown(was, now)
    ensures Waiting(now)
  {}

  /** The same reports, in order and coalesced. */
  ghost predicate JoinedFrom(kept: seq<Ent>, joined: seq<Ent>) {
    |joined| == |kept| && SameCover(joined, kept) && GapsBefore(joined, |joined|) && Waiting(joined)
  }

  /** The new tables cover what the old did and what was reported anew; neighbouring new sectors were joined. */
  ghost predicate Remapped(t: Tables, kept: seq<Ent>, joined: seq<Ent>, u: Tables) {
    && JoinedFrom(kept, joined)
    && (kept == [] ==> u == t)
    && (kept != [] ==> Filled(Merge(t.ents, joined), u.ents, |u.ents|))
    && forall x :: CoverCount(u.ents, x) == CoverCount(t.ents, x) + CoverCount(kept, x)
  }

  /** What is on the disk: the packed map, where the tables are, and the entries. */
  datatype Disk = Disk(part: Part, bits: seq<unchar>, mapBase: int, entBase: int, ents: seq<Ent>)

  predicate DiskOk(d: Disk) {
    d.part.size > 0 && |d.bits| == MapSectors(d.part) * NBPSCTR && d.part.size <= 8 * |d.bits|
  }

  function TablesOf(d: Disk): Tables
    requires DiskOk(d)
  {
    Tables(d.part, Unpacked(d.bits, d.part.size), d.mapBase, d.entBase, EntSectors(d.ents), d.ents)
  }

  /** The packed map has room for every sector. */
  lemma {:induction false} MapFits(p: Part)
    ensures p.size <= 8 * (MapSectors(p) * NBPSCTR)
    ensures p.size > 0 ==> MapSectors(p) > 0
  {}

  /** The first `cnt` reports of an installation: those in the partition are marked and emptied. */
  ghost predicate Installed(part: Part, g: seq<Ent>, now: seq<Ent>, m: seq<int>, cnt: nat) {
    && |now| == |g| && cnt <= |g| && |m| == part.size
    && (forall k :: 0 <= k < |m| ==> m[k] == if k in Hits(part, g, cnt) then BAD else GOOD)
    && 0 !in Hits(part, g, cnt) && (forall k :: k in Hits(part, g, cnt) ==> 0 <= k < part.size)
    && (forall c :: 0 <= c < cnt ==>
          now[c] == if InPart(part, g[c].badStart) then g[c].(badStart := EMPTY) else g[c])
    && (forall c :: 0 <= c < cnt && InPart(part, g[c].badStart) ==> g[c].badStart - part.start in Hits(part, g, cnt))
    && (forall c :: cnt <= c < |g| ==> now[c] == g[c])
  }

  /** A map placed on good sectors completes the installation. */
  lemma {:induction false} InstalledInv(part: Part, g: seq<Ent>, now: seq<Ent>, m: seq<int>, mapBase: int)
    requires Installed(part, g, now, m, |g|) && mapBase >= 1 && Free(m, mapBase, MapSectors(part))
    requires part.size > 0
    ensures Inv(Tables(part, m, mapBase, 0, 0, []), Hits(part, g, |g|))
  {
    var t := Tables(part, m, mapBase, 0, 0, []);
    var known := Hits(part, g, |g|);
    assert forall k :: AltCount(part, [], k) == 0;
    assert Balanced(t, known);
    assert AltsInside(t);
  }

  /** The marks of an installation are those `InitTables` starts from. */
  lemma {:induction false} InstalledTables(part: Part, g: seq<Ent>, now: seq<Ent>, m: seq<int>)
    requires Installed(part, g, now, m, |g|)
    ensures var base := LowestRun(m, Sectors(PARTTBL_SIZE), part.size, MapSectors(part));
            InitTables(part, Hits(part, g, |g|)) == if base == 0 then None else Some(Tables(part, m, base, 0, 0, []))
  {
    assert m == InitMap(part, Hits(part, g, |g|));
  }

  lemma {:induction false} InstalledReports(part: Part, g: seq<Ent>, now: seq<Ent>, m: seq<int>, mapBase: int)
    requires Reports(g) && Installed(part, g, now, m, |g|) && mapBase >= 1 && Free(m, mapBase, MapSectors(part))
    ensures Processed(Tables(part, m, mapBase, 0, 0, []), g, now, |g|)
  {
    var t := Tables(part, m, mapBase, 0, 0, []);
    forall c | 0 <= c < |g| ensures !Offends(t, g[c].badStart) && Checked(part, [], g[c], now[c]) {
      if InPart(part, g[c].badStart) {
        assert m[g[c].badStart - part.start] == BAD;
      }
    }
  }

  class AltsTables {
    const part: Part
    const memmap: array<int>
    const mapp: array<unchar>
    var entp: array<Ent>
    var gbadp: array<Ent>
    var mapBase: int
    var entBase: int
    var entSecs: int

    ghost predicate Valid()
      reads this
    {
      && memmap.Length == part.size && part.size > 0
      && mapp.Length == MapSectors(part) * NBPSCTR && part.size <= 8 * mapp.Length
      && entp != gbadp
    }

    ghost function Now(): Tables
      reads this, memmap, entp
    {
      Tables(part, memmap[..], mapBase, entBase, entSecs, entp[..])
    }

    /** Tables of a partition nothing is known about yet. */
    constructor Blank(p: Part, g: array<Ent>)
      requires p.size > 0
      ensures Valid() && part == p && gbadp == g
      ensures fresh(memmap) && fresh(mapp) && fresh(entp)
      ensures entp.Length == 0 && forall k :: 0 <= k < memmap.Length ==> memmap[k] == GOOD
    {
      MapFits(p);
      part, gbadp := p, g;
      memmap := new int[p.size](_ => GOOD);
      mapp := new unchar[MapSectors(p) * NBPSCTR];
      entp := new Ent[0];
      mapBase, entBase, entSecs := 0, 0, 0;
    }

    /** Tables read back from the disk. */
    constructor Load(d: Disk, g: array<Ent>)
      requires DiskOk(d)
      ensures Valid() && part == d.part && gbadp == g
      ensures fresh(memmap) && fresh(mapp) && fresh(entp)
      ensures Now() == TablesOf(d)
    {
      MapFits(d.part);
      part, gbadp := d.part, g;
      memmap := new int[d.part.size](_ => GOOD);
      mapp := new unchar[|d.bits|](i requires 0 <= i < |d.bits| => d.bits[i]);
      entp := new Ent[|d.ents|](i requires 0 <= i < |d.ents| => d.ents[i]);
      mapBase, entBase, entSecs := d.mapBase, d.entBase, Sectors(|d.ents| * ENT_SIZE);
      new;
      assert mapp[..] == d.bits && entp[..] == d.ents;
      ExpandMap(memmap, mapp);
    }

    // ----- first installation -------------------------------------------------------------

    /** Marks the reports inside the partition; a bad first sector stops the installation. */
    method InitReports() returns (err: int)
      requires Valid() && Reports(gbadp[..]) && forall k :: 0 <= k < memmap.Length ==> memmap[k] == GOOD
      modifies memmap, gbadp
      ensures err == if 0 in Hits(part, old(gbadp[..]), gbadp.Length) then 56 else 0
      ensures err == 0 ==> Installed(part, old(gbadp[..]), gbadp[..], memmap[..], gbadp.Length)
    {
      ghost var g := gbadp[..];
      var cnt := 0;
      while cnt < gbadp.Length
        invariant 0 <= cnt <= gbadp.Length
        invariant Installed(part, g, gbadp[..], memmap[..], cnt)
      {
        var x := gbadp[cnt].badStart;
        assert gbadp[..][cnt] == g[cnt];
        if part.start <= x <= part.start + part.size - 1 {
          if x == part.start {
            HitsGrow(part, g, cnt + 1, |g|);
            return 56;
          }
          memmap[x - part.start] := BAD;
          gbadp[cnt] := gbadp[cnt].(badStart := EMPTY);
        }
        cnt := cnt + 1;
      }
      err := 0;
    }

    /** Installs the tables: marks the reports, then finds a place for the map. */
    method InitAltsctr() returns (err: int, ghost r: Safe)
      requires Valid() && Reports(gbadp[..]) && entp.Length == 0
      requires forall k :: 0 <= k < memmap.Length ==> memmap[k] == GOOD
      modifies this, memmap, gbadp
      ensures Valid() && gbadp == old(gbadp) && entp == old(entp)
      ensures var hits := Hits(part, old(gbadp[..]), gbadp.Length);
              && err == (if 0 in hits then 56 else if InitTables(part, hits).None? then 57 else 0)
              && (err == 0 ==> Now() == r.t == InitTables(part, hits).value && r.known == hits)
      ensures err == 0 ==> Processed(r.t, old(gbadp[..]), gbadp[..], gbadp.Length)
    {
      hide Inv, Installed, Processed, Reports, Hits, InitTables, FirstFit, MapSectors;
      MapFits(part);
      r := EmptySnapshot();
      ghost var g := gbadp[..];
      entBase, entSecs := 0, 0;
      err := InitReports();
      if err != 0 {
        return;
      }
      mapBase := AltsmapAlloc(memmap, Sectors(PARTTBL_SIZE), part.size, MapSectors(part), UP);
      FirstFitIs(memmap[..], Sectors(PARTTBL_SIZE), part.size, MapSectors(part), mapBase);
      InstalledTables(part, g, gbadp[..], memmap[..]);
      if mapBase == 0 {
        return 57, r;
      }
      InstalledInv(part, g, gbadp[..], memmap[..], mapBase);
      InstalledReports(part, g, gbadp[..], memmap[..], mapBase);
      r := Snapshot(Tables(part, memmap[..], mapBase, 0, 0, []), Hits(part, g, |g|));
    }

    // ----- checking reports ------------------------------------------------------------

    /** Whether sector `x` is an assigned alternate. */
    method ChkBadAltsctr(x: int) returns (alt: bool)
      requires EntsOk(entp[..]) && AllAssigned(entp[..])
      ensures alt <==> AltCount(part, entp[..], x - part.start) > 0
    {
      CountNone(entp[..], AltOf(part, x - part.start));
      var i := 0;
      while i < entp.Length
        invariant 0 <= i <= entp.Length
        invariant forall j :: 0 <= j < i ==> !InAlt(part, entp[j], x - part.start)
      {
        var numsec := entp[i].badEnd - entp[i].badStart;
        if entp[i].goodStart <= x <= entp[i].goodStart + numsec {
          assert InAlt(part, entp[..][i], x - part.start);
          return true;
        }
        i := i + 1;
      }
      return false;
    }

    /** One report inside the partition: a vital sector stops the update, any other is marked. */
    method ChkInside(x: int, ghost s: Safe) returns (err: int, ghost r: Safe)
      requires Valid() && Now() == s.t && InPart(part, x)
      modifies memmap
      ensures err == Refusal(s.t, x) && (err == 0 <==> !Offends(s.t, x))
      ensures err == 0 ==> Now() == r.t && r.known == s.known + {x - part.start}
    {
      r := s;
      RefusalIs(s.t, x);
      var k := x - part.start;
      VitalMarks(s.t, s.known, k);
      if memmap[k] != BAD {
        if 0 <= k <= Sectors(PARTTBL_SIZE) - 1 {
          return 53, r;
        }
        if mapBase <= k <= mapBase + MapSectors(part) - 1 {
          return 54, r;
        }
        if entBase <= k <= entBase + entSecs - 1 {
          return 55, r;
        }
        MarkBad(s.t, s.known, k);
        r := Snapshot(s.t.(m := s.t.m[k := BAD]), s.known + {k});
        memmap[k] := BAD;
        assert memmap[..] == r.t.m;
        return 0, r;
      }
      var alt := ChkBadAltsctr(x);
      if alt {
        return 66, r;
      }
      AlreadyBad(s.t, s.known, k);
      assert s.known + {k} == s.known;
      return 0, r;
    }

    /** Checks the reports one by one; those that need no new alternate are emptied. */
    method ChkBadsec(ghost s: Safe) returns (err: int, ghost r: Safe)
      requires Valid() && Now() == s.t && Reports(gbadp[..])
      modifies memmap, gbadp
      ensures err == 0 ==> Now() == r.t == MarkHits(s.t, Hits(part, old(gbadp[..]), gbadp.Length))
      ensures err == 0 ==> r.known == s.known + Hits(part, old(gbadp[..]), gbadp.Length)
      ensures err == 0 ==> Processed(s.t, old(gbadp[..]), gbadp[..], gbadp.Length)
      ensures err != 0 ==> SomeOffends(s.t, old(gbadp[..])) && exists c: nat :: RefusedFor(s.t, old(gbadp[..]), c, err)
    {
      ghost var c: Checking;
      err, c, r := ChkAll(s);
      assert Processed(c.t, c.g, c.now, c.cnt);
      if err != 0 {
        RefusedFirst(c.t, c.g, c.now, c.cnt, err);
      } else {
        MarkedIs(s, r, Hits(part, c.g, |c.g|));
      }
    }

    /** The loop over the reports; `c` is how far it came. */
    method ChkAll(ghost s: Safe) returns (err: int, ghost c: Checking, ghost r: Safe)
      requires Valid() && Now() == s.t && Reports(gbadp[..])
      modifies memmap, gbadp
      ensures c.t == s.t && c.g == old(gbadp[..])
      ensures err == 0 ==> r.t == s.t.(m := r.t.m)
      ensures err == 0 ==> Now() == r.t && r.known == s.known + Hits(part, old(gbadp[..]), gbadp.Length)
      ensures err == 0 ==> c.now == gbadp[..] && c.cnt == gbadp.Length
      ensures err != 0 ==> c.cnt < |c.g| && err == Refusal(c.t, c.g[c.cnt].badStart)
    {
      hide Inv, Processed, Hits, Offends, Refusal;
      ProcessedNone(s.t, gbadp[..]);
      c := Check(s.t, gbadp[..], gbadp[..], 0);
      var cnt := 0;
      r, err := s, 0;
      while cnt < gbadp.Length
        invariant 0 <= cnt == c.cnt <= gbadp.Length == |c.g|
        invariant c.t == s.t && c.g == old(gbadp[..]) && c.now == gbadp[..]
        invariant Now() == r.t == c.t.(m := memmap[..]) && r.known == s.known + Hits(part, c.g, cnt)
      {
        err, r := ChkEntry(cnt, c.t, s.known, c.g, r);
        if err != 0 {
          return;
        }
        cnt := cnt + 1;
        c := Check(c.t, c.g, gbadp[..], cnt);
      }
      err := 0;
    }

    /** Checks the report at `cnt`, and empties it if it needs no new alternate. */
    method ChkEntry(cnt: nat, ghost t: Tables, ghost known: set<int>, ghost g: seq<Ent>, ghost q: Safe)
      returns (err: int, ghost r: Safe)
      requires Valid() && Reports(g) && Processed(t, g, gbadp[..], cnt) && cnt < |g|
      requires Now() == q.t == t.(m := memmap[..]) && q.known == known + Hits(part, g, cnt)
      modifies memmap, gbadp
      ensures err == 0 ==> Now() == r.t == t.(m := memmap[..]) && r.known == known + Hits(part, g, cnt + 1)
      ensures err == 0 ==> Processed(t, g, gbadp[..], cnt + 1)
      ensures err == Refusal(t, g[cnt].badStart)
    {
      hide Inv, Offends, Refusal;
      ghost var before := gbadp[..];
      assert gbadp[cnt] == before[cnt] == g[cnt];
      OffendsIgnoresMarks(t, memmap[..], g[cnt].badStart);
      var drop: bool;
      err, drop, r := ChkReport(gbadp[cnt].badStart, q);
      if err == 0 {
        if drop {
          gbadp[cnt] := gbadp[cnt].(badStart := EMPTY);
        }
        ProcessedStep(t, g, before, gbadp[..], cnt, drop);
      }
    }

    /** One report: whether it stops the update, and whether it needs no new alternate. */
    method ChkReport(x: int, ghost s: Safe) returns (err: int, drop: bool, ghost r: Safe)
      requires Valid() && Now() == s.t && x != EMPTY
      modifies memmap
      ensures err == Refusal(s.t, x) && (err == 0 <==> !Offends(s.t, x))
      ensures err == 0 ==> Now() == r.t && r.known == s.known + Hit(part, x)
      ensures InPart(part, x) ==> drop
      ensures !InPart(part, x) && drop ==> CoverCount(entp[..], x) > 0
      ensures RangesOk(entp[..]) && CoverCount(entp[..], x) > 0 ==> drop
    {
      hide Balanced, AltsInside, EntTableOk, LayoutOk;
      CountNone(entp[..], Covering(x));
      if part.start <= x <= part.start + part.size - 1 {
        err, r := ChkInside(x, s);
        drop := true;
      } else {
        var status := EntBsearch(entp, x);
        drop := status != -1;
        if drop {
          assert Covers(entp[..][status], x);
        }
        err, r := 0, s;
      }
    }
  
    // ----- assigning alternates -----------------------------------------------------------

    /** Marks the `n` sectors from `lo` on. */
    method Mark(lo: int, n: int)
      requires n >= 0 && Free(memmap[..], lo, n)
      modifies memmap
      ensures memmap[..] == MarkRun(old(memmap[..]), lo, n)
    {
      var j := 0;
      while j < n
        invariant 0 <= j <= n
        invariant forall k :: 0 <= k < memmap.Length ==>
                    memmap[k] == if lo <= k < lo + j then BAD else old(memmap[k])
      {
        memmap[lo + j] := BAD;
        j := j + 1;
      }
    }

    /** Gives entry `i` the highest free run that is long enough. */
    method AssignOne(i: nat, ghost q: AltSafe) returns (err: int, ghost r: AltSafe)
      requires Valid() && Now() == q.t && i < entp.Length && entp[i].goodStart == 0
      modifies memmap, entp
      ensures err == if RunFor(q.t, i) == 0 then 65 else 0
      ensures err == 0 ==> Now() == r.t == Assigned(q.t, i, RunFor(q.t, i)) && r.known == q.known
      ensures err == 0 ==> r.t.ents[i].goodStart != 0
    {
      hide AltInv, FirstFit, Free, NoneFree, MapSectors;
      LayoutOf(q);
      r := q;
      var cluster := entp[i].badEnd - entp[i].badStart + 1;
      assert entp[i] == q.t.ents[i];
      var altsInd := AltsmapAlloc(memmap, part.size - 1, mapBase + MapSectors(part) - 1, cluster, DOWN);
      FirstFitIs(memmap[..], part.size - 1, mapBase + MapSectors(part) - 1, cluster, altsInd);
      if altsInd == 0 {
        return 65, r;
      }
      altsInd := altsInd - cluster + 1;
      AssignKeeps(q.t, q.known, i, altsInd);
      r := Snapshot(Assigned(q.t, i, altsInd), q.known);
      entp[i] := entp[i].(goodStart := altsInd + part.start);
      assert entp[..] == r.t.ents;
      Mark(altsInd, cluster);
      err := 0;
    }

    /** Assigns alternates to the entries that have none. */
    method AssignAltsctr(ghost s: AltSafe) returns (err: int, ghost r: AltSafe)
      requires Valid() && Now() == s.t
      modifies memmap, entp
      ensures err == if Unassignable(s.t) then 65 else 0
      ensures err == if AssignFrom(s.t, 0).None? then 65 else 0
      ensures err == 0 ==> Now() == r.t && AssignFrom(s.t, 0) == Some(r.t) && r.known == s.known
      ensures err == 0 ==> r.t == s.t.(m := r.t.m, ents := r.t.ents) && Filled(s.t.ents, r.t.ents, |r.t.ents|)
    {
      hide Balanced, AltsInside, HighestRun, RunFor;
      LayoutOf(s);
      AssignedExactly(s.t);
      r, err := s, 0;
      var i := 0;
      while i < entp.Length
        invariant 0 <= i <= entp.Length
        invariant Now() == r.t && r.known == s.known && r.t == s.t.(m := r.t.m, ents := r.t.ents)
        invariant Filled(s.t.ents, r.t.ents, i) && AssignFrom(r.t, i) == AssignFrom(s.t, 0)
      {
        if entp[i].badStart != EMPTY && entp[i].goodStart == 0 {
          err, r := AssignOne(i, r);
          if err != 0 {
            return;
          }
        }
        i := i + 1;
      }
      err := 0;
    }
  
    // ----- the new table --------------------------------------------------------------------

    /** Replaces the table by its merge with the waiting entries. */
    method TakeMerged(ghost s: Safe) returns (ghost a: AltSafe)
      requires Valid() && Now() == s.t && Waiting(gbadp[..])
      modifies this
      ensures Valid() && gbadp.Length == 0 && fresh(entp) && fresh(gbadp)
      ensures Now() == a.t && a.known == s.known
      ensures a.t == WithEnts(s.t, Merge(s.t.ents, old(gbadp[..])))
    {
      hide Sorted;
      var buf := new Ent[entp.Length + gbadp.Length];
      var n := EntMerge(buf, entp, gbadp);
      MergeKeepsAlts(s.t, s.known, gbadp[..]);
      ghost var ents := Merge(s.t.ents, gbadp[..]);
      entp := new Ent[n](i requires 0 <= i < n reads buf => buf[i]);
      gbadp := new Ent[0];
      entSecs := Sectors(n * ENT_SIZE);
      assert entp[..] == ents;
      a := Snapshot(s.t.(ents := ents, entSecs := EntSectors(ents)), s.known);
    }

    /** Finds a place for the entry table, after the map. */
    method PlaceEntTable(ghost a: AltSafe) returns (err: int, ghost r: Safe)
      requires Valid() && Now() == a.t && AllAssigned(a.t.ents) && Sorted(a.t.ents)
      requires a.t.entSecs == EntSectors(a.t.ents)
      modifies this`entBase
      ensures var base := LowestRun(a.t.m, MapEnd(a.t), a.t.part.size, a.t.entSecs);
              && err == (if base == 0 then 65 else 0)
              && (err == 0 ==> Now() == r.t == a.t.(entBase := base) && r.known == a.known)
    {
      hide AltInv, Inv, FirstFit, Free, MapSectors, Sorted, AllAssigned;
      LayoutOf(a);
      r := EmptySnapshot();
      entBase := AltsmapAlloc(memmap, mapBase + MapSectors(part), part.size, entSecs, UP);
      FirstFitIs(memmap[..], mapBase + MapSectors(part), part.size, entSecs, entBase);
      if entBase == 0 {
        return 65, r;
      }
      PlaceKeeps(a.t, a.known, entBase);
      r := Snapshot(a.t.(entBase := entBase), a.known);
      err := 0;
    }

    /** Merges the waiting entries into the table, assigns their alternates and places the table anew. */
    method GenAltsEnt(ghost s: Safe) returns (err: int, ghost r: Safe)
      requires Valid() && Now() == s.t && Waiting(gbadp[..])
      modifies this, memmap
      ensures Valid()
      ensures err == if Fails(s.t, old(gbadp[..])) then 65 else 0
      ensures err == 0 ==> Now() == r.t && Generated(s.t, old(gbadp[..])) == Some(r.t)
      ensures err == 0 ==> r.known == s.known && r.t.part == s.t.part
      ensures err == 0 && old(gbadp.Length) == 0 ==> r == s
      ensures err == 0 && old(gbadp.Length) > 0 ==> Filled(Merge(s.t.ents, old(gbadp[..])), r.t.ents, |r.t.ents|)
    {
      hide Inv, AltInv, Waiting, Filled, Merge, Sorted, AllAssigned, AssignFrom;
      r := s;
      if gbadp.Length == 0 {
        return 0, r;
      }
      ghost var g := gbadp[..];
      ghost var a := TakeMerged(s);
      GeneratedFails(s, a, g);
      MergedSorted(s, g);
      err, a := AssignAltsctr(a);
      if err != 0 {
        return;
      }
      LayoutOf(a);
      FilledKeepsRanges(Merge(s.t.ents, g), a.t.ents);
      err, r := PlaceEntTable(a);
    }

    /** Sorts and joins the checked reports. */
    method JoinReports() returns (ghost joined: seq<Ent>)
      requires Valid() && AllNew(gbadp[..])
      modifies gbadp
      ensures joined == gbadp[..] && JoinedFrom(old(gbadp[..]), joined)
    {
      ghost var kept := gbadp[..];
      EntSort(gbadp);
      ghost var sorted := gbadp[..];
      SortKeeps(kept, sorted);
      EntCompress(gbadp);
      joined := gbadp[..];
      GrownWaits(sorted, joined);
      assert SameCover(joined, kept) by {
        assert SameCover(joined, sorted) && SameCover(sorted, kept);
      }
    }

    /** From checked reports to new tables, packed for the disk. */
    method Remap(ghost s: Safe) returns (err: int, ghost r: Safe, ghost joined: seq<Ent>)
      requires Valid() && Now() == s.t && AllNew(gbadp[..])
      modifies this, memmap, gbadp, mapp
      ensures Valid()
      ensures err == 0 ==> Now() == r.t && r.known == s.known && r.t.part == s.t.part
      ensures JoinedFrom(old(gbadp[..]), joined)
      ensures err == if Fails(s.t, joined) then 65 else 0
      ensures err == 0 ==> Generated(s.t, joined) == Some(r.t)
      ensures err == 0 ==> Remapped(s.t, old(gbadp[..]), joined, r.t)
      ensures err == 0 ==> Unpacked(mapp[..], part.size) == r.t.m
    {
      ghost var kept := gbadp[..];
      joined := JoinReports();
      err, r := GenAltsEnt(s);
      if err != 0 {
        return;
      }
      if kept != [] {
        MergedCover(s, joined, kept, r.t.ents);
      }
      CompressMap(memmap, mapp);
    }
  }

  /** What merging, assigning and placing do to the cover. */
  lemma {:induction false} MergedCover(s: Safe, joined: seq<Ent>, kept: seq<Ent>, ents: seq<Ent>)
    requires SameCover(joined, kept) && Filled(Merge(s.t.ents, joined), ents, |ents|)
    ensures forall x :: CoverCount(ents, x) == CoverCount(s.t.ents, x) + CoverCount(kept, x)
  {
    FilledKeepsRanges(Merge(s.t.ents, joined), ents);
    forall x ensures CoverCount(ents, x) == CoverCount(s.t.ents, x) + CoverCount(kept, x) {
      MergeCount(s.t.ents, joined, Covering(x));
    }
  }

  lemma {:induction false} GeneratedFails(s: Safe, a: AltSafe, g: seq<Ent>)
    requires a.t == WithEnts(s.t, Merge(s.t.ents, g))
    ensures Generated(s.t, g).None? <==> Fails(s.t, g)
  {
    hide Generated, Fails, Merge, Balanced, AltsInside;
    assert AltInv(a.t, a.known);
    FailsExactly(s.t, g);
  }

  lemma {:induction false} MergedSorted(s: Safe, g: seq<Ent>)
    requires Waiting(g)
    ensures Sorted(Merge(s.t.ents, g))
  {
    var lo := Least(s.t.ents, Least(g, 0));
    MergeSorted(s.t.ents, g, lo);
  }

  /** A number no greater than `lo` and the first sectors of all entries. */
  function Least(s: seq<Ent>, lo: int): (r: int)
    ensures r <= lo && AtLeast(s, r)
  {
    if s == [] then lo
    else
      var r := Least(s[1..], lo);
      if s[0].badStart < r then s[0].badStart else r
  }
}
