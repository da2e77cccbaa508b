/** Whole updates of the alternates partition, and any number of them in a row. */
module AltsRounds {
  import opened Options
  import opened AltsTable
  import opened AltsMap
  import opened AltsPart
  import opened AltsRoom
  import opened AltsUpdate

  // ----- the reported sectors --------------------------------------------------------------

  /** A report counts when it is past the first track and before the end of the drive. */
  predicate OnDrive(x: int, nsect: nat, maxsec: int) {
    nsect <= x < maxsec
  }

  function Wanted(list: seq<int>, nsect: nat, maxsec: int): seq<int> {
    if list == [] then []
    else
      var x := list[|list| - 1];
      Wanted(list[..|list| - 1], nsect, maxsec) + if OnDrive(x, nsect, maxsec) then [x] else []
  }

  /** One new entry for each sector. */
  function Singles(list: seq<int>): (g: seq<Ent>)
    ensures |g| == |list| && forall i :: 0 <= i < |g| ==> g[i] == Ent(list[i], list[i], 0)
  {
    seq(|list|, i requires 0 <= i < |list| => Ent(list[i], list[i], 0))
  }

  lemma {:induction false} WantedOnDrive(list: seq<int>, nsect: nat, maxsec: int)
    ensures forall i :: 0 <= i < |Wanted(list, nsect, maxsec)| ==>
              OnDrive(Wanted(list, nsect, maxsec)[i], nsect, maxsec)
    ensures Reports(Singles(Wanted(list, nsect, maxsec)))
  {
    if list != [] {
      WantedOnDrive(list[..|list| - 1], nsect, maxsec);
    }
  }

  /** Places in `list`, in order. */
  predicate Places(list: seq<int>, at: seq<nat>) {
    && (forall i :: 0 <= i < |at| ==> at[i] < |list|)
    && forall i, j :: 0 <= i < j < |at| ==> at[i] < at[j]
  }

  lemma {:induction false} WantedCount(list: seq<int>, nsect: nat, maxsec: int, x: int)
    ensures multiset(Wanted(list, nsect, maxsec))[x] == if nsect <= x < maxsec then multiset(list)[x] else 0
  {
    if list != [] {
      var n := |list| - 1;
      WantedCount(list[..n], nsect, maxsec, x);
      assert list == list[..n] + [list[n]];
    }
  }

  lemma {:induction false} WantedPlaces(list: seq<int>, nsect: nat, maxsec: int) returns (at: seq<nat>)
    ensures Places(list, at) && |at| == |Wanted(list, nsect, maxsec)|
    ensures forall i :: 0 <= i < |at| ==> Wanted(list, nsect, maxsec)[i] == list[at[i]]
  {
    at := [];
    if list != [] {
      var n := |list| - 1;
      at := WantedPlaces(list[..n], nsect, maxsec);
      if OnDrive(list[n], nsect, maxsec) {
        at := at + [n];
      }
    }
  }

  /** The reports that count are the requested sectors from the second track to the end of the drive, each as often as
      it was requested, in the order of the requests. */
  lemma {:induction false} WantedExactly(list: seq<int>, nsect: nat, maxsec: int) returns (at: seq<nat>)
    ensures forall x :: multiset(Wanted(list, nsect, maxsec))[x] == if nsect <= x < maxsec then multiset(list)[x] else 0
    ensures Places(list, at) && |at| == |Wanted(list, nsect, maxsec)|
    ensures forall i :: 0 <= i < |at| ==> Wanted(list, nsect, maxsec)[i] == list[at[i]]
  {
    at := WantedPlaces(list, nsect, maxsec);
    hide Wanted, Places;
    forall x
      ensures multiset(Wanted(list, nsect, maxsec))[x] == if nsect <= x < maxsec then multiset(list)[x] else 0
    {
      WantedCount(list, nsect, maxsec, x);
    }
  }

  /** A sector counts if it is requested and on the drive. */
  predicate Requested(list: seq<int>, nsect: nat, maxsec: int, x: int) {
    x in list && nsect <= x < maxsec
  }

  lemma {:induction false} WantedIs(list: seq<int>, nsect: nat, maxsec: int, x: int)
    ensures x in Wanted(list, nsect, maxsec) <==> Requested(list, nsect, maxsec, x)
  {
    var at := WantedExactly(list, nsect, maxsec);
    assert x in Wanted(list, nsect, maxsec) <==> multiset(Wanted(list, nsect, maxsec))[x] > 0;
    assert x in list <==> multiset(list)[x] > 0;
  }

  /** The sectors hit are those of the partition that were reported. */
  lemma {:induction false} HitsExactly(part: Part, wanted: seq<int>, k: int)
    ensures k in HitsOf(part, wanted) <==> 0 <= k < part.size && part.start + k in wanted
  {
    HitsUpTo(part, wanted, |wanted|, k);
    assert wanted[..|wanted|] == wanted;
  }

  lemma {:induction false} HitsUpTo(part: Part, wanted: seq<int>, n: nat, k: int)
    requires n <= |wanted|
    ensures k in Hits(part, Singles(wanted), n) <==> 0 <= k < part.size && part.start + k in wanted[..n]
  {
    if n > 0 {
      HitsUpTo(part, wanted, n - 1, k);
      assert wanted[..n] == wanted[..n - 1] + [wanted[n - 1]];
    }
  }

  /** Collects the reports that count. */
  method GetBadsec(list: seq<int>, nsect: nat, maxsec: int) returns (g: array<Ent>)
    ensures fresh(g) && g[..] == Singles(Wanted(list, nsect, maxsec)) && Reports(g[..])
  {
    var grow: seq<Ent> := [];
    var i := 0;
    while i < |list|
      invariant 0 <= i <= |list|
      invariant grow == Singles(Wanted(list[..i], nsect, maxsec))
    {
      assert list[..i + 1][..i] == list[..i];
      if list[i] >= nsect && list[i] < maxsec {
        grow := grow + [Ent(list[i], list[i], 0)];
      }
      i := i + 1;
    }
    assert list[..|list|] == list;
    WantedOnDrive(list, nsect, maxsec);
    g := new Ent[|grow|](k requires 0 <= k < |grow| => grow[k]);
    assert g[..] == grow;
  }

  lemma {:induction false} SinglesCover(list: seq<int>, x: int)
    requires x >= 0
    ensures CoverCount(Singles(list), x) == multiset(list)[x]
  {
    if list != [] {
      SinglesCover(list[1..], x);
      assert Singles(list)[1..] == Singles(list[1..]);
      assert list == [list[0]] + list[1..];
    }
  }

  /** The sectors of the partition among the reports. */
  function HitsOf(part: Part, wanted: seq<int>): set<int> {
    Hits(part, Singles(wanted), |wanted|)
  }

  // ----- which reports need alternates ----------------------------------------------------

  /** A report of `x` needs no new entry: it is in the partition, or covered already. */
  predicate Dropped(t: Tables, x: int) {
    InPart(t.part, x) || CoverCount(t.ents, x) > 0
  }

  /** After checking, no report in the partition is left, every one that is not covered yet is, and of a table with
      disjoint ranges exactly those that need an entry. */
  lemma {:induction false} KeptCover(t: Tables, g: seq<Ent>, kept: seq<Ent>, x: int)
    requires Reports(g) && Processed(t, g, kept, |g|)
    ensures InPart(t.part, x) ==> CoverCount(kept, x) == 0
    ensures !Dropped(t, x) ==> CoverCount(kept, x) == CoverCount(g, x)
    ensures CoverCount(kept, x) > 0 ==> CoverCount(g, x) > 0
    ensures RangesOk(t.ents) && Dropped(t, x) ==> CoverCount(kept, x) == 0
  {
    hide RangesOk;
    CountNone(kept, Covering(x));
    CountNone(g, Covering(x));
    if !Dropped(t, x) {
      CountPointwise(kept, g, Covering(x));
    }
    if i :| 0 <= i < |kept| && Covers(kept[i], x) {
      assert kept[i] == g[i];
    }
  }

  lemma {:induction false} KeptNew(t: Tables, g: seq<Ent>, kept: seq<Ent>)
    requires Reports(g) && Processed(t, g, kept, |g|)
    ensures AllNew(kept)
  {}

  // ----- one update --------------------------------------------------------------------------

  /** The tables on the disk are those of `s`, and so meet the invariant. */
  ghost predicate Stores(d: Disk, s: Safe) {
    DiskOk(d) && TablesOf(d) == s.t
  }

  /** What is covered in `u` but not in `t` was asked for and is outside the partition, and all that was asked for
      outside the partition is covered. */
  ghost predicate Covered(t: Tables, asked: seq<int>, u: Tables) {
    forall x :: x >= 0 ==>
      && CoverCount(u.ents, x) >= CoverCount(t.ents, x)
      && (x in asked && !InPart(t.part, x) ==> CoverCount(u.ents, x) > 0)
      && (CoverCount(u.ents, x) > CoverCount(t.ents, x) ==> x in asked && !InPart(t.part, x))
  }

  /** How one update changes the cover: from disjoint ranges, each report that needs an entry is covered as often as it
      was reported. */
  ghost predicate CoverGrows(t: Tables, wanted: seq<int>, u: Tables) {
    && Covered(t, wanted, u)
    && (RangesOk(t.ents) ==>
          forall x :: x >= 0 ==>
            CoverCount(u.ents, x) == CoverCount(t.ents, x) + if Dropped(t, x) then 0 else multiset(wanted)[x])
  }

  lemma {:induction false} RemappedCover(t: Tables, wanted: seq<int>, kept: seq<Ent>, joined: seq<Ent>, v: Tables,
                                         u: Tables)
    requires Reports(Singles(wanted)) && Processed(t, Singles(wanted), kept, |wanted|)
    requires t.ents == v.ents && Remapped(v, kept, joined, u)
    ensures CoverGrows(t, wanted, u)
  {
    forall x | x >= 0
      ensures CoverCount(u.ents, x) >= CoverCount(t.ents, x)
      ensures x in wanted && !InPart(t.part, x) ==> CoverCount(u.ents, x) > 0
      ensures CoverCount(u.ents, x) > CoverCount(t.ents, x) ==> x in wanted && !InPart(t.part, x)
      ensures RangesOk(t.ents) ==>
                CoverCount(u.ents, x) == CoverCount(t.ents, x) + if Dropped(t, x) then 0 else multiset(wanted)[x]
    {
      KeptCover(t, Singles(wanted), kept, x);
      SinglesCover(wanted, x);
    }
  }

  /** The used entries are more than one sector apart. */
  predicate Apart(s: seq<Ent>) {
    forall i, j :: 0 <= i < j < |s| && Used(s[i]) && Used(s[j]) ==> s[i].badEnd + 1 < s[j].badStart
  }

  /** When the new ranges are disjoint, no two of them could have been joined. */
  lemma {:induction false} JoinedApart(t: Tables, kept: seq<Ent>, joined: seq<Ent>, u: Tables)
    requires Remapped(t, kept, joined, u) && forall x :: CoverCount(u.ents, x) <= 1
    ensures Apart(joined)
  {
    forall i, j | 0 <= i < j < |joined| && Used(joined[i]) && Used(joined[j])
      ensures joined[i].badEnd < joined[j].badStart
    {
      var x := joined[j].badStart;
      assert CoverCount(joined, x) == CoverCount(kept, x);
      assert CoverCount(u.ents, x) <= 1;
      if joined[i].badEnd >= x {
        CountTwo(joined, i, j, Covering(x));
      }
    }
    forall i, j | 0 <= i < j < |joined| && Used(joined[i]) && Used(joined[j])
      ensures joined[i].badEnd + 1 < joined[j].badStart
    {
      FarApart(joined, i, j);
    }
  }

  /** The ranges stay disjoint exactly when no sector that needs an entry was reported twice. */
  lemma {:induction false} DisjointExactly(t: Tables, wanted: seq<int>, u: Tables, known: set<int>)
    requires RangesOk(t.ents) && CoverGrows(t, wanted, u) && Inv(u, known)
    ensures RangesOk(u.ents) <==> forall x :: x >= 0 && !Dropped(t, x) ==> multiset(wanted)[x] <= 1
  {
    CoveredOnce(t.ents);
    CoveredOnce(u.ents);
    if RangesOk(u.ents) {
      forall x | x >= 0 && !Dropped(t, x) ensures multiset(wanted)[x] <= 1 {
        assert CoverCount(u.ents, x) <= 1;
      }
    }
    if forall x :: x >= 0 && !Dropped(t, x) ==> multiset(wanted)[x] <= 1 {
      forall x ensures CoverCount(u.ents, x) <= 1 {
        assert CoverCount(t.ents, x) <= 1;
        CountNone(u.ents, Covering(x));
      }
    }
  }

  /** The tables in core as they are written to the disk. */
  method Write(a: AltsTables, ghost s: Safe) returns (d: Disk)
    requires a.Valid() && a.Now() == s.t && Unpacked(a.mapp[..], a.part.size) == s.t.m
    ensures Stores(d, s) && d.part == a.part
  {
    d := Disk(a.part, a.mapp[..], a.mapBase, a.entBase, a.entp[..]);
  }

  /** What one update makes of the tables, and its error: the first report that must not fail stops it; otherwise those
      that need an entry, in order and coalesced, are merged in, or that fails, with 65. */
  ghost predicate UpdateStep(s: Snapshot, wanted: seq<int>, err: int, r: Snapshot) {
    if SomeOffends(s.t, Singles(wanted)) then (exists c: nat :: RefusedFor(s.t, Singles(wanted), c, err)) && r == s
    else exists kept, joined :: UpdatedBy(s, wanted, kept, joined, err, r)
  }

  ghost predicate UpdatedBy(s: Snapshot, wanted: seq<int>, kept: seq<Ent>, joined: seq<Ent>, err: int, r: Snapshot) {
    var t := MarkHits(s.t, HitsOf(s.t.part, wanted));
    && Processed(s.t, Singles(wanted), kept, |wanted|) && JoinedFrom(kept, joined) && MapEnd(t) > 0
    && if Fails(t, joined) then err == 65 && r == s
       else
         && err == 0 && Generated(t, joined) == Some(r.t) && r.t.part == s.t.part
         && r.known == s.known + HitsOf(s.t.part, wanted)
         && CoverGrows(s.t, wanted, r.t) && (RangesOk(r.t.ents) ==> Apart(joined))
  }

  /** Collects what checking, remapping and joining establish. */
  lemma {:induction false} UpdatedFrom(s: Safe, wanted: seq<int>, kept: seq<Ent>, joined: seq<Ent>, q: Safe, r: Safe)
    requires Reports(Singles(wanted)) && Processed(s.t, Singles(wanted), kept, |wanted|)
    requires q.t == MarkHits(s.t, HitsOf(s.t.part, wanted)) && r.t.part == s.t.part
    requires Remapped(q.t, kept, joined, r.t)
    ensures CoverGrows(s.t, wanted, r.t) && (RangesOk(r.t.ents) ==> Apart(joined))
  {
    hide Inv, Remapped, Processed, CoverGrows, Apart, Reports;
    RemappedCover(s.t, wanted, kept, joined, q.t, r.t);
    if RangesOk(r.t.ents) {
      assert Inv(r.t, r.known);
      CoveredOnce(r.t.ents);
      JoinedApart(q.t, kept, joined, r.t);
    }
  }

  /** Reads the tables, remaps the reported sectors and writes the tables back. */
  method UpdateBadsec(d: Disk, list: seq<int>, nsect: nat, maxsec: int, ghost s: Safe)
    returns (err: int, d': Disk, ghost r: Safe)
    requires Stores(d, s)
    ensures Stores(d', r) && UpdateStep(s, Wanted(list, nsect, maxsec), err, r)
    ensures err != 0 ==> d' == d
  {
    d', r := d, s;
    ghost var wanted := Wanted(list, nsect, maxsec);
    var g := GetBadsec(list, nsect, maxsec);
    var a := new AltsTables.Load(d, g);
    ghost var q: Safe;
    err, q := a.ChkBadsec(s);
    if err != 0 {
      return;
    }
    ghost var kept := a.gbadp[..];
    KeptNew(s.t, Singles(wanted), kept);
    assert !SomeOffends(s.t, Singles(wanted));
    ghost var u: Safe, joined;
    err, u, joined := a.Remap(q);
    if err != 0 {
      assert UpdatedBy(s, wanted, kept, joined, err, r);
      return;
    }
    UpdatedFrom(s, wanted, kept, joined, q, u);
    d' := Write(a, u);
    r := u;
    assert UpdatedBy(s, wanted, kept, joined, err, r);
  }

  /** What an accepted update does, in terms of the list it was given: every sector requested on the drive is covered,
      or known bad if it is in the partition, and nothing else is new. */
  lemma {:induction false} UpdateRecords(s: Safe, list: seq<int>, nsect: nat, maxsec: int, r: Snapshot, x: int)
    requires UpdateStep(s, Wanted(list, nsect, maxsec), 0, r)
    ensures var p := s.t.part;
            && (p.start <= x < p.start + p.size ==>
                  (x - p.start in r.known <==> x - p.start in s.known || Requested(list, nsect, maxsec, x)))
            && (0 <= x && !(p.start <= x < p.start + p.size) ==>
                  && (Requested(list, nsect, maxsec, x) ==> CoverCount(r.t.ents, x) > 0)
                  && (CoverCount(r.t.ents, x) > CoverCount(s.t.ents, x) ==> Requested(list, nsect, maxsec, x))
                  && CoverCount(r.t.ents, x) >= CoverCount(s.t.ents, x))
  {
    hide Processed, JoinedFrom, Fails, Generated, SomeOffends, RangesOk, Wanted;
    var wanted := Wanted(list, nsect, maxsec);
    var kept, joined :| UpdatedBy(s, wanted, kept, joined, 0, r);
    WantedIs(list, nsect, maxsec, x);
    HitsExactly(s.t.part, wanted, x - s.t.part.start);
  }

  // ----- when it fails with 65 ---------------------------------------------------------------

  /** Nothing was remapped yet, and there are reports but all are of sectors of the partition. */
  predicate NothingToRemap(t: Tables, wanted: seq<int>) {
    t.ents == [] && wanted != [] && forall i :: 0 <= i < |wanted| ==> InPart(t.part, wanted[i])
  }

  /** The merged table. */
  function MergedTables(t: Tables, joined: seq<Ent>): Tables {
    WithEnts(t, Merge(t.ents, joined))
  }

  lemma {:induction false} MergedNone(ents: seq<Ent>, joined: seq<Ent>)
    requires EntsOk(ents)
    ensures Merge(ents, joined) == [] <==> ents == [] && forall i :: 0 <= i < |joined| ==> !Used(joined[i])
  {
    MergeMembers(ents, joined);
    var m := Merge(ents, joined);
    assert ents != [] ==> ents[0] in m;
    assert m != [] ==> m[0] in m;
    forall i | 0 <= i < |joined| && Used(joined[i]) ensures m != [] {
      assert joined[i] in m;
    }
  }

  /** Coalescing leaves an entry in use exactly when there was one. */
  lemma {:induction false} JoinedUsed(kept: seq<Ent>, joined: seq<Ent>)
    requires AllNew(kept) && JoinedFrom(kept, joined)
    ensures (exists i :: 0 <= i < |joined| && Used(joined[i])) <==> exists i :: 0 <= i < |kept| && Used(kept[i])
  {
    if i :| 0 <= i < |joined| && Used(joined[i]) {
      var x := joined[i].badStart;
      CountNone(joined, Covering(x));
      CountNone(kept, Covering(x));
      assert Covers(joined[i], x) && CoverCount(joined, x) == CoverCount(kept, x);
    }
    if i :| 0 <= i < |kept| && Used(kept[i]) {
      var x := kept[i].badStart;
      CountNone(joined, Covering(x));
      CountNone(kept, Covering(x));
      assert Covers(kept[i], x) && CoverCount(joined, x) == CoverCount(kept, x);
    }
  }

  /** The merged table is empty exactly when there was none and every report is of a sector of the partition. */
  lemma {:induction false} MergedNoneExactly(t: Tables, wanted: seq<int>, kept: seq<Ent>, joined: seq<Ent>)
    requires EntsOk(t.ents) && Reports(Singles(wanted)) && Processed(t, Singles(wanted), kept, |wanted|)
    requires JoinedFrom(kept, joined)
    ensures |joined| == |wanted| && (wanted != [] && Merge(t.ents, joined) == [] <==> NothingToRemap(t, wanted))
  {
    KeptNew(t, Singles(wanted), kept);
    MergedNone(t.ents, joined);
    JoinedUsed(kept, joined);
    if t.ents == [] {
      forall i | 0 <= i < |wanted| ensures InPart(t.part, wanted[i]) <==> !Used(kept[i]) {
        assert Checked(t.part, t.ents, Singles(wanted)[i], kept[i]);
      }
    }
  }

  /** An update without a report that must not fail fails exactly when there is no room for what it adds, or when
      nothing was remapped before and there is nothing to remap now. */
  lemma {:induction false} UpdateFailsExactly(s: Safe, wanted: seq<int>, kept: seq<Ent>, joined: seq<Ent>, err: int,
                                              r: Snapshot)
    requires Reports(Singles(wanted)) && UpdatedBy(s, wanted, kept, joined, err, r)
    ensures err == 65 <==>
            || NothingToRemap(s.t, wanted)
            || (wanted != [] && NoRoom(MergedTables(MarkHits(s.t, HitsOf(s.t.part, wanted)), joined)))
  {
    hide Processed, Merge, NoRoom, CoverGrows, RangesOk;
    assert Inv(s.t, s.known);
    MergedNoneExactly(s.t, wanted, kept, joined);
  }

  /** Reports of the partition's own sectors alone are never recorded while the table is empty. */
  lemma {:induction false} NothingToRemapFails(s: Safe, wanted: seq<int>, err: int, r: Snapshot)
    requires Reports(Singles(wanted)) && !SomeOffends(s.t, Singles(wanted)) && NothingToRemap(s.t, wanted)
    requires UpdateStep(s, wanted, err, r)
    ensures err == 65 && r == s
  {
    hide UpdatedBy;
    var kept, joined :| UpdatedBy(s, wanted, kept, joined, err, r);
    UpdateFailsExactly(s, wanted, kept, joined, err, r);
    assert err == 65;
    StaysOnError(s, wanted, kept, joined, err, r);
  }

  lemma {:induction false} StaysOnError(s: Snapshot, wanted: seq<int>, kept: seq<Ent>, joined: seq<Ent>, err: int,
                                        r: Snapshot)
    requires UpdatedBy(s, wanted, kept, joined, err, r) && err != 0
    ensures r == s
  {}

  // ----- the first installation ---------------------------------------------------------------

  /** The table of a first installation: it covers each report outside the partition as often as it was made. */
  ghost predicate Founded(part: Part, wanted: seq<int>, u: Tables) {
    && u.part == part
    && forall x :: x >= 0 ==> CoverCount(u.ents, x) == if InPart(part, x) then 0 else multiset(wanted)[x]
  }

  lemma {:induction false} FoundedFrom(wanted: seq<int>, kept: seq<Ent>, joined: seq<Ent>, v: Tables, u: Tables)
    requires Reports(Singles(wanted)) && Processed(v, Singles(wanted), kept, |wanted|) && v.ents == []
    requires Remapped(v, kept, joined, u) && u.part == v.part
    ensures Founded(v.part, wanted, u)
  {
    RemappedCover(v, wanted, kept, joined, v, u);
  }

  /** What an installation yields, and its error: 56 for a report of the first sector, 57 without a run for the map, 65
      when merging fails. */
  ghost predicate InstallStep(part: Part, wanted: seq<int>, err: int, r: Snapshot) {
    var hits := HitsOf(part, wanted);
    if 0 in hits then err == 56
    else match InitTables(part, hits)
      case None => err == 57
      case Some(t) => exists kept, joined :: InstalledBy(t, wanted, kept, joined, err, r)
  }

  ghost predicate InstalledBy(t: Tables, wanted: seq<int>, kept: seq<Ent>, joined: seq<Ent>, err: int, r: Snapshot) {
    && Processed(t, Singles(wanted), kept, |wanted|) && JoinedFrom(kept, joined) && MapEnd(t) > 0
    && if Fails(t, joined) then err == 65
       else
         && err == 0 && Generated(t, joined) == Some(r.t) && r.known == HitsOf(t.part, wanted)
         && Founded(t.part, wanted, r.t)
  }

  /** Installs the tables on a partition that has none, with a first list of reports. */
  method Install(part: Part, list: seq<int>, nsect: nat, maxsec: int)
    returns (err: int, d: Disk, ghost r: Safe)
    requires part.size > 0
    ensures InstallStep(part, Wanted(list, nsect, maxsec), err, r)
    ensures err == 0 ==> Stores(d, r)
  {
    d, r := Disk(part, [], 0, 0, []), EmptySnapshot();
    ghost var wanted := Wanted(list, nsect, maxsec);
    var g := GetBadsec(list, nsect, maxsec);
    var a := new AltsTables.Blank(part, g);
    ghost var q: Safe;
    err, q := a.InitAltsctr();
    if err != 0 {
      return;
    }
    ghost var kept := a.gbadp[..];
    KeptNew(q.t, Singles(wanted), kept);
    ghost var joined;
    err, r, joined := a.Remap(q);
    if err != 0 {
      assert InstalledBy(q.t, wanted, kept, joined, err, r);
      return;
    }
    FoundedFrom(wanted, kept, joined, q.t, r.t);
    d := Write(a, r);
    assert InstalledBy(q.t, wanted, kept, joined, err, r);
  }

  /** What an installation records, in terms of the list it was given. */
  lemma {:induction false} InstallRecords(part: Part, list: seq<int>, nsect: nat, maxsec: int, r: Snapshot, x: int)
    requires InstallStep(part, Wanted(list, nsect, maxsec), 0, r)
    ensures part.start <= x < part.start + part.size ==>
              (x - part.start in r.known <==> Requested(list, nsect, maxsec, x))
    ensures 0 <= x && !(part.start <= x < part.start + part.size) ==>
              CoverCount(r.t.ents, x) == if nsect <= x < maxsec then multiset(list)[x] else 0
  {
    hide Processed, JoinedFrom, Fails, Generated, Wanted, HitsOf;
    var wanted := Wanted(list, nsect, maxsec);
    var hits := HitsOf(part, wanted);
    var t := InitTables(part, hits).value;
    var kept, joined :| InstalledBy(t, wanted, kept, joined, 0, r);
    WantedIs(list, nsect, maxsec, x);
    var at := WantedExactly(list, nsect, maxsec);
    HitsExactly(part, wanted, x - part.start);
  }

  /** An installation whose map has a place fails exactly when there is no room for the entries, or when there are
      reports but none outside the partition. */
  lemma {:induction false} InstallFailsExactly(t: Tables, wanted: seq<int>, kept: seq<Ent>, joined: seq<Ent>, err: int,
                                               r: Snapshot)
    requires Reports(Singles(wanted)) && t.ents == [] && InstalledBy(t, wanted, kept, joined, err, r)
    ensures err == 65 <==> NothingToRemap(t, wanted) || (wanted != [] && NoRoom(MergedTables(t, joined)))
  {
    hide Processed, Merge, NoRoom, Founded;
    MergedNoneExactly(t, wanted, kept, joined);
  }

  // ----- any number of updates -----------------------------------------------------------------

  /** The sectors of the lists that were not refused. */
  function Asked(lists: seq<seq<int>>, errs: seq<int>, nsect: nat, maxsec: int): seq<int>
    requires |errs| <= |lists|
  {
    if errs == [] then []
    else
      var n := |errs| - 1;
      Asked(lists, errs[..n], nsect, maxsec) + if errs[n] == 0 then Wanted(lists[n], nsect, maxsec) else []
  }

  lemma {:induction false} HitsConcat(part: Part, a: seq<int>, b: seq<int>)
    ensures HitsOf(part, a + b) == HitsOf(part, a) + HitsOf(part, b)
  {
    if b == [] {
      assert a + b == a;
    } else {
      var n := |b| - 1;
      HitsConcat(part, a, b[..n]);
      HitsLast(part, b);
      HitsLast(part, a + b);
      assert (a + b)[..|a| + n] == a + b[..n];
    }
  }

  lemma {:induction false} HitsLast(part: Part, a: seq<int>)
    requires a != []
    ensures HitsOf(part, a) == HitsOf(part, a[..|a| - 1]) + Hit(part, a[|a| - 1])
  {
    HitsPrefix(part, Singles(a), Singles(a[..|a| - 1]), |a| - 1);
  }

  lemma {:induction false} HitsPrefix(part: Part, g: seq<Ent>, h: seq<Ent>, n: nat)
    requires n <= |g| && n <= |h| && forall i :: 0 <= i < n ==> g[i] == h[i]
    ensures Hits(part, g, n) == Hits(part, h, n)
  {
    if n > 0 {
      HitsPrefix(part, g, h, n - 1);
    }
  }

  lemma {:induction false} CoveredOn(t: Tables, a: seq<int>, u: Tables, b: seq<int>, v: Tables)
    requires Covered(t, a, u) && Covered(u, b, v) && t.part == u.part
    ensures Covered(t, a + b, v)
  {}

  /** What holds after some updates: all sectors asked for are covered or known bad, and no others are new. */
  ghost predicate After(s: Snapshot, asked: seq<int>, r: Snapshot) {
    r.t.part == s.t.part && r.known == s.known + HitsOf(s.t.part, asked) && Covered(s.t, asked, r.t)
  }

  /** Updates one after the other, each from what the last one wrote; a refused one changes nothing. `trace` are the
      tables before the first and after each. */
  method Rounds(d: Disk, lists: seq<seq<int>>, nsect: nat, maxsec: int, ghost s: Safe)
    returns (errs: seq<int>, d': Disk, ghost trace: seq<Safe>)
    requires Stores(d, s)
    ensures |errs| == |lists| && |trace| == |lists| + 1 && trace[0] == s && Stores(d', trace[|lists|])
    ensures forall i :: 0 <= i < |lists| ==>
              UpdateStep(trace[i], Wanted(lists[i], nsect, maxsec), errs[i], trace[i + 1])
    ensures After(s, Asked(lists, errs, nsect, maxsec), trace[|lists|])
  {
    hide UpdateStep, After, Stores, Asked, Inv;
    AfterNone(s, lists, nsect, maxsec);
    d', errs, trace := d, [], [s];
    while |errs| < |lists|
      invariant |errs| <= |lists| && |trace| == |errs| + 1 && trace[0] == s && Stores(d', trace[|errs|])
      invariant forall i :: 0 <= i < |errs| ==>
                UpdateStep(trace[i], Wanted(lists[i], nsect, maxsec), errs[i], trace[i + 1])
      invariant After(s, Asked(lists, errs, nsect, maxsec), trace[|errs|])
    {
      ghost var q: Safe := trace[|errs|];
      var err;
      ghost var r;
      err, d', r := UpdateBadsec(d', lists[|errs|], nsect, maxsec, q);
      AfterStep(s, lists, errs, nsect, maxsec, q, err, r);
      errs, trace := errs + [err], trace + [r];
    }
  }

  lemma {:induction false} AfterNone(s: Snapshot, lists: seq<seq<int>>, nsect: nat, maxsec: int)
    ensures After(s, Asked(lists, [], nsect, maxsec), s)
  {}

  lemma {:induction false} AfterStep(s: Safe, lists: seq<seq<int>>, errs: seq<int>, nsect: nat, maxsec: int, q: Safe,
                                     err: int, r: Safe)
    requires |errs| < |lists| && After(s, Asked(lists, errs, nsect, maxsec), q)
    requires UpdateStep(q, Wanted(lists[|errs|], nsect, maxsec), err, r)
    ensures After(s, Asked(lists, errs + [err], nsect, maxsec), r)
  {
    hide Inv, Generated, Fails, Processed, JoinedFrom, Covered, Wanted, RangesOk, HitsOf;
    var asked, wanted := Asked(lists, errs, nsect, maxsec), Wanted(lists[|errs|], nsect, maxsec);
    assert (errs + [err])[..|errs|] == errs;
    if err == 0 {
      HitsConcat(s.t.part, asked, wanted);
      CoveredOn(s.t, asked, q.t, wanted, r.t);
    } else {
      assert asked + [] == asked;
    }
  }

  /** Some accepted list requests sector `x` on the drive. */
  predicate AskedFor(lists: seq<seq<int>>, errs: seq<int>, nsect: nat, maxsec: int, x: int)
    requires |errs| <= |lists|
  {
    exists i :: 0 <= i < |errs| && errs[i] == 0 && Requested(lists[i], nsect, maxsec, x)
  }

  lemma {:induction false} AskedIs(lists: seq<seq<int>>, errs: seq<int>, nsect: nat, maxsec: int, x: int)
    requires |errs| <= |lists|
    ensures x in Asked(lists, errs, nsect, maxsec) <==> AskedFor(lists, errs, nsect, maxsec, x)
  {
    hide Requested, Wanted;
    if errs != [] {
      var n := |errs| - 1;
      AskedIs(lists, errs[..n], nsect, maxsec, x);
      WantedIs(lists[n], nsect, maxsec, x);
    }
  }

  /** After any number of updates, in terms of the lists: every sector requested on the drive in an accepted list is
      covered, or known bad if it is in the partition, and nothing else is new. */
  lemma {:induction false} RoundsRecord(s: Snapshot, lists: seq<seq<int>>, errs: seq<int>, nsect: nat, maxsec: int,
                                        r: Snapshot, x: int)
    requires |errs| <= |lists| && After(s, Asked(lists, errs, nsect, maxsec), r)
    ensures var p := s.t.part;
            && (p.start <= x < p.start + p.size ==>
                  (x - p.start in r.known <==> x - p.start in s.known || AskedFor(lists, errs, nsect, maxsec, x)))
            && (0 <= x && !(p.start <= x < p.start + p.size) ==>
                  && (AskedFor(lists, errs, nsect, maxsec, x) ==> CoverCount(r.t.ents, x) > 0)
                  && (CoverCount(r.t.ents, x) > CoverCount(s.t.ents, x) ==> AskedFor(lists, errs, nsect, maxsec, x))
                  && CoverCount(r.t.ents, x) >= CoverCount(s.t.ents, x))
  {
    hide AskedFor, Asked, HitsOf;
    AskedIs(lists, errs, nsect, maxsec, x);
    HitsExactly(s.t.part, Asked(lists, errs, nsect, maxsec), x - s.t.part.start);
  }

  // ----- what stays ------------------------------------------------------------------------

  /** An update keeps the entries there are, with their alternates. */
  lemma {:induction false} EntriesStay(s: Safe, wanted: seq<int>, err: int, r: Snapshot, e: Ent)
    requires UpdateStep(s, wanted, err, r) && e in s.t.ents
    ensures e in r.t.ents
  {
    hide Processed, JoinedFrom, CoverGrows, Apart, Fails, RangesOk, SomeOffends, RefusedFor, AssignFrom, Merge;
    assert Used(e) && e.goodStart != 0 by {
      assert Inv(s.t, s.known);
    }
    if !SomeOffends(s.t, Singles(wanted)) {
      var kept, joined :| UpdatedBy(s, wanted, kept, joined, err, r);
      var t := MarkHits(s.t, HitsOf(s.t.part, wanted));
      if !Fails(t, joined) && joined != [] {
        MergeMembers(t.ents, joined);
        AssignedStay(WithEnts(t, Merge(t.ents, joined)), 0, e);
      }
    }
  }

  /** Over any number of updates, accepted or not: once a sector is remapped, the same sector stands in for it. */
  lemma {:induction false} StandInsStay(trace: seq<Safe>, lists: seq<seq<int>>, errs: seq<int>, nsect: nat,
                                        maxsec: int, n: nat, e: Ent, x: int)
    requires n < |trace| && |trace| == |lists| + 1 == |errs| + 1
    requires forall i :: 0 <= i < |lists| ==>
               UpdateStep(trace[i], Wanted(lists[i], nsect, maxsec), errs[i], trace[i + 1])
    requires e in trace[0].t.ents && Covers(e, x)
    ensures exists i :: 0 <= i < |trace[n].t.ents| && Covers(trace[n].t.ents[i], x)
                        && StandIn(trace[n].t.ents[i], x) == StandIn(e, x)
  {
    hide UpdateStep, Inv, Wanted;
    TraceStays(trace, lists, errs, nsect, maxsec, n, e);
    var i :| 0 <= i < |trace[n].t.ents| && trace[n].t.ents[i] == e;
    assert Covers(trace[n].t.ents[i], x);
  }

  lemma {:induction false} TraceStays(trace: seq<Safe>, lists: seq<seq<int>>, errs: seq<int>, nsect: nat, maxsec: int,
                                      n: nat, e: Ent)
    requires n < |trace| && |trace| == |lists| + 1 == |errs| + 1
    requires forall i :: 0 <= i < |lists| ==>
               UpdateStep(trace[i], Wanted(lists[i], nsect, maxsec), errs[i], trace[i + 1])
    requires e in trace[0].t.ents
    ensures e in trace[n].t.ents
  {
    hide UpdateStep, Inv, Wanted;
    if n > 0 {
      TraceStays(trace, lists, errs, nsect, maxsec, n - 1, e);
      var k := n - 1;
      assert UpdateStep(trace[k], Wanted(lists[k], nsect, maxsec), errs[k], trace[k + 1]);
      EntriesStay(trace[k], Wanted(lists[k], nsect, maxsec), errs[k], trace[n], e);
    }
  }
}
