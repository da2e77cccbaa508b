/** A list of reports that leaves a table with overlapping ranges, and one that fails although there is room. */
module AltsExamples {
  import opened Options
  import opened AltsTable
  import opened AltsMap
  import opened AltsPart
  import opened AltsRoom
  import opened AltsUpdate
  import opened AltsRounds

  /** A partition of eight good sectors with its map on sector 1 and nothing remapped. */
  function Fresh(): Tables {
    Tables(Part(100, 8), [GOOD, GOOD, GOOD, GOOD, GOOD, GOOD, GOOD, GOOD], 1, 0, 0, [])
  }

  /** Sector 5 reported twice. */
  function Twice(): seq<Ent> {
    [Ent(5, 5, 0), Ent(5, 5, 0)]
  }

  /** The table after the update. */
  function Overlapping(): Tables {
    Tables(Part(100, 8), [GOOD, GOOD, GOOD, GOOD, GOOD, GOOD, BAD, BAD], 1, 2, 1, [Ent(5, 5, 107), Ent(5, 5, 106)])
  }

  lemma {:induction false} FreshInv()
    ensures Inv(Fresh(), {}) && RangesOk(Fresh().ents) && MapEnd(Fresh()) == 2
  {
    assert forall k :: AltCount(Fresh().part, [], k) == 0;
  }

  lemma {:induction false} TwiceMerged()
    ensures Merge([], Twice()) == Twice() && JoinedFrom(Twice(), Twice())
  {
    var g := Twice();
    assert UsedOf(g) == g by {
      assert g[1..] == [Ent(5, 5, 0)] && g[1..][1..] == [];
    }
  }

  lemma {:induction false} TwiceGenerated()
    ensures MapEnd(Fresh()) == 2 && Generated(Fresh(), Twice()) == Some(Overlapping())
  {
    TwiceMerged();
    var t0 := WithEnts(Fresh(), Twice());
    assert EntSectors(Twice()) == 1 && MapEnd(t0) == 2;
    assert Free(t0.m, 7, 1) && RunFor(t0, 0) == 7;
    var t1 := Assigned(t0, 0, 7);
    assert t1.m == [GOOD, GOOD, GOOD, GOOD, GOOD, GOOD, GOOD, BAD] && t1.ents == [Ent(5, 5, 107), Ent(5, 5, 0)];
    assert t1.m[7] == BAD && !Free(t1.m, 7, 1) && Free(t1.m, 6, 1);
    assert HighestRun(t1.m, 2, 8, 1) == HighestRun(t1.m, 2, 7, 1) == 6;
    assert RunFor(t1, 1) == 6;
    var t2 := Assigned(t1, 1, 6);
    assert t2.m == Overlapping().m && t2.ents == Overlapping().ents;
    assert AssignFrom(t2, 2) == Some(t2) && AssignFrom(t1, 1) == Some(t2) && AssignFrom(t0, 0) == Some(t2);
    assert Free(t2.m, 2, 1) && LowestRun(t2.m, 2, 8, 1) == 2;
  }

  lemma {:induction false} TwiceHits()
    ensures HitsOf(Fresh().part, [5, 5]) == {} && Processed(Fresh(), Twice(), Twice(), 2)
    ensures !SomeOffends(Fresh(), Twice())
  {
    var g := Singles([5, 5]);
    assert Hits(Fresh().part, g, 0) == {} && Hits(Fresh().part, g, 1) == {} && Hits(Fresh().part, g, 2) == {};
  }

  lemma {:induction false} TwiceCovered()
    ensures CoverGrows(Fresh(), [5, 5], Overlapping()) && CoverCount(Overlapping().ents, 5) == 2
  {
    var u := Overlapping().ents;
    assert u[1..] == [Ent(5, 5, 106)] && u[1..][1..] == [];
    forall x | x >= 0 ensures CoverCount(u, x) == if x == 5 then 2 else 0 {
      assert Count(u, Covering(x)) == (if Covers(u[0], x) then 1 else 0) + Count(u[1..], Covering(x));
      assert Count(u[1..], Covering(x)) == (if Covers(u[1], x) then 1 else 0) + Count([], Covering(x));
    }
    assert [5, 5] == [5] + [5];
    assert multiset([5, 5])[5] == 2;
  }

  /** A sector reported twice in one list is covered twice, and the table's ranges overlap. */
  lemma {:induction false} DuplicateStays()
    ensures Inv(Fresh(), {}) && RangesOk(Fresh().ents)
    ensures UpdateStep(Snapshot(Fresh(), {}), [5, 5], 0, Snapshot(Overlapping(), {}))
    ensures CoverCount(Overlapping().ents, 5) == 2 && !RangesOk(Overlapping().ents)
  {
    hide Generated, Fails, CoverGrows, Processed, JoinedFrom, SomeOffends, Inv, CoverCount, HitsOf, Merge;
    FreshInv();
    TwiceMerged();
    TwiceGenerated();
    FailsExactly(Fresh(), Twice());
    TwiceHits();
    TwiceCovered();
    TwiceOverlaps();
    var s, r := Snapshot(Fresh(), {}), Snapshot(Overlapping(), {});
    assert Singles([5, 5]) == Twice();
    assert MarkHits(Fresh(), {}) == Fresh();
    assert UpdatedBy(s, [5, 5], Twice(), Twice(), 0, r);
  }

  // ----- one report of the partition's own sector ---------------------------------------------

  /** The report after checking. */
  function Own(): seq<Ent> {
    [Ent(EMPTY, 105, 0)]
  }

  lemma {:induction false} OwnHits()
    ensures HitsOf(Part(100, 8), [105]) == {5} && NothingToRemap(Fresh(), [105]) && Reports(Singles([105]))
    ensures !SomeOffends(Fresh(), Singles([105])) && Processed(Fresh(), Singles([105]), Own(), 1)
  {
    var g := Singles([105]);
    assert Hits(Part(100, 8), g, 0) == {} && Hits(Part(100, 8), g, 1) == {5};
    assert AltCount(Fresh().part, [], 5) == 0;
  }

  lemma {:induction false} OwnJoined(t: Tables)
    requires t.ents == []
    ensures JoinedFrom(Own(), Own()) && Fails(t, Own())
  {
    assert UsedOf(Own()) == UsedOf(Own()[1..]) == [];
  }

  /** One report, of a sector of the partition that may fail: the update fails as if for want of room; the sector is not
      recorded, although nothing is remapped and sectors after the map are free. */
  lemma {:induction false} OwnSectorRefused()
    ensures Inv(Fresh(), {}) && !SomeOffends(Fresh(), Singles([105])) && Free(Fresh().m, 2, 3)
    ensures var s := Snapshot(Fresh(), {});
            forall err, r :: UpdateStep(s, [105], err, r) <==> err == 65 && r == s
  {
    hide Inv, SomeOffends, Fails, JoinedFrom, Processed, HitsOf, NothingToRemap, CoverGrows, Reports;
    FreshInv();
    OwnHits();
    var s, t := Snapshot(Fresh(), {}), MarkHits(Fresh(), {5});
    OwnJoined(t);
    assert UpdatedBy(s, [105], Own(), Own(), 65, s);
    forall err, r | UpdateStep(s, [105], err, r) ensures err == 65 && r == s {
      NothingToRemapFails(s, [105], err, r);
    }
  }

  lemma {:induction false} OwnInit()
    ensures var m := [GOOD, GOOD, GOOD, GOOD, GOOD, BAD, GOOD, GOOD];
            InitTables(Part(100, 8), {5}) == Some(Tables(Part(100, 8), m, 1, 0, 0, []))
  {
    var m := InitMap(Part(100, 8), {5});
    assert m == [GOOD, GOOD, GOOD, GOOD, GOOD, BAD, GOOD, GOOD];
    assert Free(m, 1, 1) && LowestRun(m, 1, 8, 1) == 1;
  }

  lemma {:induction false} OwnUninstalled(t: Tables, err: int, r: Snapshot)
    requires t.part == Part(100, 8) && t.ents == []
    requires exists kept, joined :: InstalledBy(t, [105], kept, joined, err, r)
    ensures err == 65
  {
    hide InstalledBy, NoRoom;
    OwnHits();
    var kept, joined :| InstalledBy(t, [105], kept, joined, err, r);
    InstallFailsExactly(t, [105], kept, joined, err, r);
  }

  /** The same report on a first installation fails too, although the map has a place. */
  lemma {:induction false} OwnSectorUninstalled(err: int, r: Snapshot)
    requires InstallStep(Part(100, 8), [105], err, r)
    ensures 0 !in HitsOf(Part(100, 8), [105]) && InitTables(Part(100, 8), {5}).Some? && err == 65
  {
    hide InstalledBy, InitTables, HitsOf;
    OwnHits();
    OwnInit();
    OwnUninstalled(InitTables(Part(100, 8), {5}).value, err, r);
  }

  lemma {:induction false} TwiceOverlaps()
    ensures !RangesOk(Overlapping().ents)
  {
    var u := Overlapping().ents;
    assert u[0].badEnd >= u[1].badStart;
  }
}
