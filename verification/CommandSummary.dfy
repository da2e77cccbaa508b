/** acctcms: entering records, joining commands used once, closing the holes. */
module CommandSummary {
  import opened Ring
  import opened CommandTable

  class Acctcms {
    var pcm: array<Pcms>
    var csize: nat

    ghost predicate Valid()
      reads this, pcm
    {
      csize <= pcm.Length
    }

    ghost function Slots(): seq<Pcms>
      reads this, pcm
      requires Valid()
    {
      pcm[..csize]
    }

    constructor (size: nat)
      requires size > 0
      ensures Valid() && fresh(pcm) && csize == size
      ensures TableOk(Slots()) && Refines(Slots(), [])
    {
      pcm := new Pcms[size](_ => Pcms([], Zero()));
      csize := size;
      new;
      BlankTable(pcm[..csize]);
    }

    /** Cleans a name and computes its hash. */
    method Hash(n: Name) returns (comm: Name, h: nat)
      requires csize > 0
      ensures comm == Clean(n) && h == Home(comm, csize)
    {
      var i, j := 0, 0;
      comm := n;
      while j < 8
        invariant 0 <= j <= 8 && |comm| == |n| && i == HashTo(Clean(n), j)
        invariant forall k :: 0 <= k < |n| ==> comm[k] == if k < j then Clean(n)[k] else n[k]
      {
        if j < |comm| && comm[j] <= 31 {
          comm := comm[j := QUESTION];
        }
        i := i * 7 + CharAt(comm, j);
        j := j + 1;
      }
      assert comm == Clean(n);
      HashFits(n);
      if i < 0 {
        i := -i;
      }
      h := i % csize;
    }

    /** Looks for a name from its home on, around the ring. */
    method Search(n: Name, h: nat) returns (found: int)
      requires Valid() && Ordered(Slots()) && h == Home(n, csize)
      ensures Found(Slots(), n, found)
    {
      ghost var t := Slots();
      var i, j := h, 0;
      while pcm[i].comm != [] && j != csize
        invariant 0 <= j <= csize && i == Around(h, j, csize)
        invariant Passed(t, n, j)
        decreases csize - j
      {
        if pcm[i].comm == n {
          assert t[i].comm == n;
          return i;
        }
        NextIsMod(i, csize);
        i, j := (i + 1) % csize, j + 1;
      }
      if j == csize {
        MissedAll(t, n, j);
        return -1;
      }
      if n != [] {
        MissedAll(t, n, j);
      }
      return i;
    }

    /** Adds a record to the slot of its name; -1 when the table would have to grow. */
    method Enter(p: Pcms) returns (i: int)
      requires Valid() && Ordered(Slots())
      modifies pcm
      ensures Found(old(Slots()), Clean(p.comm), i)
      ensures i == -1 ==> Slots() == old(Slots())
      ensures i != -1 ==> Slots() == old(Slots())[i := PcmAdd(old(Slots())[i].(comm := Clean(p.comm)), p)]
    {
      var comm, h := Hash(p.comm);
      i := Search(comm, h);
      if i != -1 {
        if pcm[i].comm == [] {
          pcm[i] := pcm[i].(comm := comm);
        }
        pcm[i] := PcmAdd(pcm[i], p);
      }
    }

    /** Enters the records of the input; false when the table would have to grow. */
    method EnterAll(records: seq<Pcms>) returns (ok: bool)
      requires Valid() && TableOk(Slots()) && Refines(Slots(), [])
      modifies pcm
      ensures ok <==> AllFit(records, csize)
      ensures ok ==> Tracks(Slots(), records)
    {
      var k := 0;
      StartTracks(Slots());
      while k < |records|
        invariant 0 <= k <= |records| && Tracks(Slots(), records[..k])
        invariant forall j :: 0 <= j < k ==> !Overflows(records, j, csize)
      {
        ghost var t := Slots();
        var i := Enter(records[k]);
        OverflowsExactly(t, records, k, i);
        if i == -1 {
          return false;
        }
        TracksOn(t, records, k, i, Slots());
        k := k + 1;
      }
      assert records[..k] == records;
      return true;
    }

    /** Joins the commands used at most once; false when the table would have to grow. */
    method FixJunk() returns (ok: bool)
      requires Valid() && Ordered(Slots())
      modifies pcm
      ensures ok <==> |Names(old(Slots())) + {OTHER}| <= csize
      ensures ok && TableOk(old(Slots())) ==> exists j :: Joined(old(Slots()), Slots(), j)
    {
      ghost var was := Slots();
      var j := Enter(Pcms(OTHER, Zero()));
      CleanOther();
      if j == -1 {
        FullCount(was);
        return false;
      }
      ghost var t := Slots();
      OtherEntered(was, t, j);
      Join(j);
      if TableOk(was) {
        JoinEnds(was, t, Slots(), j);
      }
      return true;
    }

    /** Adds the commands used at most once to slot `j` and takes their names away. */
    method Join(j: nat)
      requires Valid() && JoinedTo(Slots(), Slots(), j, 0)
      modifies pcm
      ensures JoinedTo(old(Slots()), Slots(), j, csize)
    {
      ghost var t := Slots();
      var i := 0;
      while i < csize
        invariant 0 <= i <= csize && JoinedTo(t, Slots(), j, i)
      {
        ghost var s := Slots();
        assert s[i] == pcm[i];
        if i != j && pcm[i].comm != [] && Get(pcm[i], Pc(true)) + Get(pcm[i], Pc(false)) <= 1.0 {
          pcm[j] := PcmAdd(pcm[j], pcm[i]);
          pcm[i] := pcm[i].(comm := []);
          assert Slots() == s[j := PcmAdd(s[j], s[i])][i := s[i].(comm := [])];
          JoinStep(t, s, Slots(), j, i);
        }
        i := i + 1;
      }
    }

    /** Closes the holes of the table. */
    method Squeeze()
      requires Valid()
      modifies this`csize, pcm
      ensures Valid() && Slots() == NamedOf(old(Slots()))
    {
      var i, k := 0, 0;
      while i < csize
        invariant 0 <= k <= i <= csize == old(csize) && pcm[..k] == NamedOf(old(pcm[..i]))
        invariant forall x :: i <= x < csize ==> pcm[x] == old(pcm[x])
      {
        assert old(pcm[..i + 1])[..i] == old(pcm[..i]);
        if pcm[i].comm != [] {
          pcm[k] := pcm[i];
          k := k + 1;
        }
        i := i + 1;
      }
      csize := k;
    }

    /** Enters the records, joins the commands used at most once when asked to, and closes the holes. */
    method Summarize(records: seq<Pcms>, jflg: bool) returns (ok: bool)
      requires Valid() && TableOk(Slots()) && Refines(Slots(), [])
      modifies this`csize, pcm
      ensures Valid()
      ensures ok <==> AllFit(records, old(csize)) && (jflg ==> |Names(CleanAll(records)) + {OTHER}| <= old(csize))
      ensures ok && AllHarmless(records) ==> Summary(CleanAll(records), Slots(), jflg)
    {
      ok := EnterAll(records);
      if !ok {
        return false;
      }
      ghost var t := Slots();
      if jflg {
        ok := FixJunk();
        if !ok {
          return false;
        }
        if AllHarmless(records) {
          JoinedSummary(CleanAll(records), t, Slots());
        }
      } else if AllHarmless(records) {
        PlainSummary(CleanAll(records), t);
      }
      Squeeze();
    }
  }

  // ----- what any records do to the table ---------------------------------------------------------------

  ghost predicate AllHarmless(records: seq<Pcms>) {
    forall k :: 0 <= k < |records| ==> Harmless(records[k])
  }

  /** When record `k` comes all slots have names, and none has its name. */
  ghost predicate Overflows(records: seq<Pcms>, k: nat, size: nat)
    requires k < |records|
  {
    var names := Names(CleanAll(records[..k]));
    |names| == size && Clean(records[k].comm) !in names
  }

  /** No record overflows the table. */
  ghost predicate AllFit(records: seq<Pcms>, size: nat) {
    forall k :: 0 <= k < |records| ==> !Overflows(records, k, size)
  }

  /** The table after some records: it holds their names, and all their counters; and if every record has a name or
      nothing to add, it is the map from names to sums. */
  ghost predicate Tracks(t: seq<Pcms>, records: seq<Pcms>) {
    && Ordered(t) && Names(t) == Names(CleanAll(records)) && (forall f :: Total(t, f) == Total(records, f))
    && (AllHarmless(records) ==> TableOk(t) && Refines(t, records))
  }

  lemma {:induction false} StartTracks(t: seq<Pcms>)
    requires TableOk(t) && Refines(t, [])
    ensures Tracks(t, [])
  {
    forall f ensures Total(t, f) == 0.0 {
      forall i | 0 <= i < |t| ensures Get(t[i], f) == 0.0 {
        assert t[i].comm !in Names(CleanAll([]));
      }
      NothingAdded(t, f);
    }
  }

  lemma {:induction false} NothingAdded(t: seq<Pcms>, f: Field)
    requires forall i :: 0 <= i < |t| ==> Get(t[i], f) == 0.0
    ensures Total(t, f) == 0.0
  {
    if t != [] {
      NothingAdded(t[..|t| - 1], f);
    }
  }

  lemma {:induction false} TracksOn(t: seq<Pcms>, records: seq<Pcms>, k: nat, i: int, t': seq<Pcms>)
    requires k < |records| && Tracks(t, records[..k]) && i != -1 && Found(t, Clean(records[k].comm), i)
    requires t' == t[i := PcmAdd(t[i].(comm := Clean(records[k].comm)), records[k])]
    ensures Tracks(t', records[..k + 1])
  {
    var front, p := records[..k], records[k];
    assert records[..k + 1] == front + [p];
    EntryOrdered(t, p.(comm := Clean(p.comm)), i, t');
    NamesEntered(t, front, p, i, t');
    forall f ensures Total(t', f) == Total(front + [p], f) {
      EntryTotal(t, front, p, i, t', f);
    }
    if AllHarmless(front + [p]) {
      assert forall j :: 0 <= j < k ==> front[j] == (front + [p])[j];
      assert (front + [p])[k] == p;
      EntryRefines(t, front, p, i, t');
    }
  }

  /** A record finds no slot exactly when it overflows the table. */
  lemma {:induction false} OverflowsExactly(t: seq<Pcms>, records: seq<Pcms>, k: nat, i: int)
    requires k < |records| && Ordered(t) && Names(t) == Names(CleanAll(records[..k]))
    requires Found(t, Clean(records[k].comm), i)
    ensures i == -1 <==> Overflows(records, k, |t|)
  {
    FullCount(t);
    var c := Clean(records[k].comm);
    if i == -1 {
      assert c !in Names(t);
    } else if Named(t[i]) {
      assert t[i].comm in Names(t);
    } else {
      assert !Full(t);
    }
  }

  lemma {:induction false} NamesLast(records: seq<Pcms>)
    requires records != [] && Named(records[|records| - 1])
    ensures var n := |records| - 1;
            Names(CleanAll(records)) == Names(CleanAll(records[..n])) + {Clean(records[n].comm)}
  {
    var n, all := |records| - 1, CleanAll(records);
    assert all[..n] == CleanAll(records[..n]);
    NamesAppend(CleanAll(records[..n]), all[n], all);
  }

  lemma {:induction false} FrontOverflows(records: seq<Pcms>, n: nat, k: nat, size: nat)
    requires k < n <= |records|
    ensures Overflows(records[..n], k, size) <==> Overflows(records, k, size)
  {
    assert records[..n][..k] == records[..k];
  }

  lemma {:induction false} FitLast(records: seq<Pcms>, size: nat)
    requires records != []
    ensures var n := |records| - 1;
            AllFit(records, size) <==> AllFit(records[..n], size) && !Overflows(records, n, size)
  {
    hide Overflows;
    var n := |records| - 1;
    forall k | 0 <= k < n ensures Overflows(records[..n], k, size) <==> Overflows(records, k, size) {
      FrontOverflows(records, n, k, size);
    }
  }

  /** Records that all have names fit the table if and only if there are no more distinct names than slots. */
  lemma {:induction false} RoomExactly(records: seq<Pcms>, size: nat)
    requires forall k :: 0 <= k < |records| ==> Named(records[k])
    ensures AllFit(records, size) <==> |Names(CleanAll(records))| <= size
  {
    if records == [] {
      assert Names(CleanAll(records)) == {};
    } else {
      hide AllFit, CleanAll, Names;
      var n := |records| - 1;
      RoomExactly(records[..n], size);
      NamesLast(records);
      FitLast(records, size);
      PlusOne(Names(CleanAll(records[..n])), Clean(records[n].comm));
    }
  }

  lemma {:induction false} PlusOne(names: set<Name>, c: Name)
    ensures |names + {c}| == if c in names then |names| else |names| + 1
  {
    assert c in names ==> names + {c} == names;
  }

  /** The name of the joined commands: three stars and "other". */
  const OTHER: Name := [42, 42, 42, 111, 116, 104, 101, 114]

  lemma {:induction false} CleanOther()
    ensures Clean(OTHER) == OTHER
  {}

  /** A command used at most once. */
  predicate Junk(p: Pcms) {
    Named(p) && Get(p, Pc(true)) + Get(p, Pc(false)) <= 1.0
  }

  /** Up to slot `i`, commands used at most once are joined into slot `j`. */
  ghost predicate JoinedTo(t: seq<Pcms>, s: seq<Pcms>, j: int, i: nat) {
    && 0 <= j < |t| == |s| && i <= |t| && s[j].comm == t[j].comm != []
    && (forall k :: 0 <= k < |t| && k != j ==> s[k] == if k < i && Junk(t[k]) then t[k].(comm := []) else t[k])
    && (forall f :: Sum(s, f, AllNamed) == Sum(t, f, AllNamed))
  }

  /** The table `s` is `t` with the commands used at most once joined under `OTHER`, in slot `j`. */
  ghost predicate Joined(t: seq<Pcms>, s: seq<Pcms>, j: int) {
    && 0 <= j < |t| == |s| && s[j].comm == OTHER && (t[j].comm == OTHER || (!Named(t[j]) && !Holds(t, OTHER)))
    && (forall k :: 0 <= k < |t| && k != j ==> s[k] == if Junk(t[k]) then t[k].(comm := []) else t[k])
    && (forall f :: Sum(s, f, AllNamed) == Sum(t, f, AllNamed))
  }

  lemma {:induction false} JoinStep(t: seq<Pcms>, s: seq<Pcms>, s': seq<Pcms>, j: int, i: nat)
    requires JoinedTo(t, s, j, i) && i < |t| && i != j && Junk(s[i])
    requires s' == s[j := PcmAdd(s[j], s[i])][i := s[i].(comm := [])]
    ensures JoinedTo(t, s', j, i + 1)
  {
    forall f ensures Sum(s', f, AllNamed) == Sum(t, f, AllNamed) {
      SumUpdate(s, j, PcmAdd(s[j], s[i]), f, AllNamed);
      SumUpdate(s[j := PcmAdd(s[j], s[i])], i, s[i].(comm := []), f, AllNamed);
      assert Sum(s, f, AllNamed) == Sum(t, f, AllNamed);
    }
  }

  lemma {:induction false} OtherEntered(was: seq<Pcms>, t: seq<Pcms>, j: int)
    requires Ordered(was) && j != -1 && Found(was, OTHER, j)
    requires t == was[j := PcmAdd(was[j].(comm := OTHER), Pcms(OTHER, Zero()))]
    ensures JoinedTo(t, t, j, 0) && |Names(was) + {OTHER}| <= |was|
    ensures TableOk(was) ==> forall f :: Sum(t, f, AllNamed) == Sum(was, f, AllNamed)
  {
    var p := Pcms(OTHER, Zero());
    EntryOrdered(was, p, j, t);
    NamesGrow(was, p, j, t);
    FullCount(t);
    if TableOk(was) {
      forall f ensures Sum(t, f, AllNamed) == Sum(was, f, AllNamed) {
        EntryAdds(was, p, j, t, f, AllNamed);
      }
    }
  }

  lemma {:induction false} JoinEnds(was: seq<Pcms>, t: seq<Pcms>, s: seq<Pcms>, j: int)
    requires |was| > 0 && j != -1 && Found(was, OTHER, j) && JoinedTo(t, s, j, |t|)
    requires t == was[j := PcmAdd(was[j].(comm := OTHER), Pcms(OTHER, Zero()))]
    requires forall f :: Sum(t, f, AllNamed) == Sum(was, f, AllNamed)
    ensures Joined(was, s, j)
  {
    forall f ensures Sum(s, f, AllNamed) == Sum(was, f, AllNamed) {
      assert Sum(s, f, AllNamed) == Sum(t, f, AllNamed);
    }
  }

  /** The slots that have a name, in their order. */
  function NamedOf(s: seq<Pcms>): seq<Pcms> {
    if s == [] then []
    else NamedOf(s[..|s| - 1]) + if Named(s[|s| - 1]) then [s[|s| - 1]] else []
  }

  lemma {:induction false} BlankTable(t: seq<Pcms>)
    requires |t| > 0 && forall i :: 0 <= i < |t| ==> t[i] == Pcms([], Zero())
    ensures TableOk(t) && Refines(t, [])
  {
    forall f, sel ensures Sum(t, f, sel) == Sum(CleanAll([]), f, sel) {
      NoneNamed(t, f, sel);
    }
  }

  lemma {:induction false} NoneNamed(t: seq<Pcms>, f: Field, sel: Selection)
    requires forall i :: 0 <= i < |t| ==> !Named(t[i])
    ensures Sum(t, f, sel) == 0.0
  {
    if t != [] {
      NoneNamed(t[..|t| - 1], f, sel);
    }
  }

  // ----- the summary ---------------------------------------------------------------------------------

  /** How often a command was used. */
  function Uses(records: seq<Pcms>, n: Name): real {
    Sum(records, Pc(true), Only(n)) + Sum(records, Pc(false), Only(n))
  }

  ghost function Kept(records: seq<Pcms>, jflg: bool): set<Name> {
    if jflg then {OTHER} + set n | n in Names(records) && Uses(records, n) > 1.0 else Names(records)
  }

  /** `out` has one slot for each name kept, with the sum of its records, and no holes. What is joined under `OTHER`
      is the rest: every total is conserved. */
  ghost predicate Summary(records: seq<Pcms>, out: seq<Pcms>, jflg: bool) {
    && Full(out) && Distinct(out) && Names(out) == Kept(records, jflg)
    && (forall f :: Sum(out, f, AllNamed) == Sum(records, f, AllNamed))
    && (forall i, f :: 0 <= i < |out| && !(jflg && out[i].comm == OTHER) ==>
          Get(out[i], f) == Sum(records, f, Only(out[i].comm)))
  }

  lemma {:induction false} AbsentSum(t: seq<Pcms>, f: Field, n: Name)
    requires forall i :: 0 <= i < |t| ==> t[i].comm != n
    ensures Sum(t, f, Only(n)) == 0.0
  {
    if t != [] {
      AbsentSum(t[..|t| - 1], f, n);
    }
  }

  /** The sum for a name is its slot. */
  lemma {:induction false} SlotSum(t: seq<Pcms>, i: nat, f: Field)
    requires Distinct(t) && i < |t| && Named(t[i])
    ensures Sum(t, f, Only(t[i].comm)) == Get(t[i], f)
  {
    var n := |t| - 1;
    if i == n {
      AbsentSum(t[..n], f, t[i].comm);
    } else {
      SlotSum(t[..n], i, f);
    }
  }

  /** Closing the holes keeps the slots with names, in order: slot `i` moves down past the holes before it. */
  lemma {:induction false} NamedOfAt(s: seq<Pcms>, i: nat)
    requires i < |s| && Named(s[i])
    ensures |NamedOf(s[..i])| < |NamedOf(s)| && NamedOf(s)[|NamedOf(s[..i])|] == s[i]
  {
    var n := |s| - 1;
    if i < n {
      NamedOfAt(s[..n], i);
      assert s[..n][..i] == s[..i];
    }
  }

  lemma {:induction false} NamedOfFrom(s: seq<Pcms>, k: nat)
    requires k < |NamedOf(s)|
    ensures Named(NamedOf(s)[k]) && exists i :: 0 <= i < |s| && s[i] == NamedOf(s)[k]
  {
    var n := |s| - 1;
    if k < |NamedOf(s[..n])| {
      NamedOfFrom(s[..n], k);
      var i :| 0 <= i < n && s[..n][i] == NamedOf(s[..n])[k];
      assert s[i] == NamedOf(s)[k];
    }
  }

  lemma {:induction false} SumAppend(s: seq<Pcms>, p: Pcms, f: Field, sel: Selection)
    ensures Sum(s + [p], f, sel) == Sum(s, f, sel) + Part(p, f, sel)
  {
    assert (s + [p])[..|s|] == s;
  }

  lemma {:induction false} NamedOfSum(s: seq<Pcms>, f: Field, sel: Selection)
    ensures Sum(NamedOf(s), f, sel) == Sum(s, f, sel)
  {
    if s != [] {
      var n := |s| - 1;
      NamedOfSum(s[..n], f, sel);
      if Named(s[n]) {
        SumAppend(NamedOf(s[..n]), s[n], f, sel);
      } else {
        assert NamedOf(s) == NamedOf(s[..n]);
      }
    }
  }

  lemma {:induction false} NamedOfDistinct(s: seq<Pcms>)
    requires Distinct(s)
    ensures Distinct(NamedOf(s))
  {
    if s != [] {
      var n := |s| - 1;
      var r := NamedOf(s[..n]);
      NamedOfDistinct(s[..n]);
      forall i | 0 <= i < |r| ensures r[i].comm != s[n].comm {
        NamedOfFrom(s[..n], i);
      }
    }
  }

  lemma {:induction false} NamedOfNames(s: seq<Pcms>)
    ensures Names(NamedOf(s)) == Names(s)
  {
    var r := NamedOf(s);
    forall n | n in Names(s) ensures n in Names(r) {
      var i :| 0 <= i < |s| && Named(s[i]) && s[i].comm == n;
      NamedOfAt(s, i);
      assert r[|NamedOf(s[..i])|].comm == n;
    }
    forall n | n in Names(r) ensures n in Names(s) {
      var k :| 0 <= k < |r| && Named(r[k]) && r[k].comm == n;
      NamedOfFrom(s, k);
    }
  }

  /** What holds of the slots with names holds of the squeezed table. */
  lemma {:induction false} SqueezedSummary(records: seq<Pcms>, s: seq<Pcms>, jflg: bool)
    requires Distinct(s) && Names(s) == Kept(records, jflg)
    requires forall f :: Sum(s, f, AllNamed) == Sum(records, f, AllNamed)
    requires forall i, f :: 0 <= i < |s| && Named(s[i]) && !(jflg && s[i].comm == OTHER) ==>
               Get(s[i], f) == Sum(records, f, Only(s[i].comm))
    ensures Summary(records, NamedOf(s), jflg)
  {
    var out := NamedOf(s);
    NamedOfDistinct(s);
    NamedOfNames(s);
    forall f ensures Sum(out, f, AllNamed) == Sum(records, f, AllNamed) {
      NamedOfSum(s, f, AllNamed);
    }
    forall k | 0 <= k < |out| ensures Named(out[k]) && exists i :: 0 <= i < |s| && s[i] == out[k] {
      NamedOfFrom(s, k);
    }
  }

  lemma {:induction false} PlainSummary(records: seq<Pcms>, t: seq<Pcms>)
    requires TableOk(t) && Names(t) == Names(records) && forall f, sel :: Sum(t, f, sel) == Sum(records, f, sel)
    ensures Summary(records, NamedOf(t), false)
  {
    forall i, f | 0 <= i < |t| && Named(t[i]) ensures Get(t[i], f) == Sum(records, f, Only(t[i].comm)) {
      SlotSum(t, i, f);
      assert Sum(t, f, Only(t[i].comm)) == Sum(records, f, Only(t[i].comm));
    }
    SqueezedSummary(records, t, false);
  }

  lemma {:induction false} JoinedSummary(records: seq<Pcms>, t: seq<Pcms>, s: seq<Pcms>)
    requires TableOk(t) && Names(t) == Names(records) && forall f, sel :: Sum(t, f, sel) == Sum(records, f, sel)
    requires exists j :: Joined(t, s, j)
    ensures Summary(records, NamedOf(s), true)
  {
    var j :| Joined(t, s, j);
    forall i, f | 0 <= i < |t| && Named(t[i]) ensures Get(t[i], f) == Sum(records, f, Only(t[i].comm)) {
      SlotSum(t, i, f);
      assert Sum(t, f, Only(t[i].comm)) == Sum(records, f, Only(t[i].comm));
    }
    JoinedDistinct(t, s, j);
    JoinedNames(records, t, s, j);
    SqueezedSummary(records, s, true);
  }

  lemma {:induction false} JoinedDistinct(t: seq<Pcms>, s: seq<Pcms>, j: int)
    requires Distinct(t) && Joined(t, s, j)
    ensures Distinct(s)
  {
    forall i | 0 <= i < |s| && i != j ensures s[i].comm != OTHER {
      assert t[i].comm == OTHER ==> Holds(t, OTHER);
    }
  }

  lemma {:induction false} JoinedNames(records: seq<Pcms>, t: seq<Pcms>, s: seq<Pcms>, j: int)
    requires Distinct(t) && Joined(t, s, j) && Names(t) == Names(records)
    requires forall i, f :: 0 <= i < |t| && Named(t[i]) ==> Get(t[i], f) == Sum(records, f, Only(t[i].comm))
    ensures Names(s) == Kept(records, true)
  {
    forall n | n in Names(s) ensures n in Kept(records, true) {
      var i :| 0 <= i < |s| && Named(s[i]) && s[i].comm == n;
      if i != j {
        assert t[i].comm == n && n in Names(t);
      }
    }
    forall n | n in Kept(records, true) ensures n in Names(s) {
      if n != OTHER {
        assert n in Names(t);
        var i :| 0 <= i < |t| && Named(t[i]) && t[i].comm == n;
        assert s[i].comm == n;
      }
    }
  }
}
